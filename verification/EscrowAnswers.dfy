// What the service's creations, index updates and answers come to, status by status.
module EscrowAnswers {
  import opened Wrappers
  import opened LedgerLaws
  import opened Escrow
  import opened EscrowProtocol
  import opened EscrowTheorems
  import opened EscrowService

  // ----- Creations -----

  predicate Blocks(status: Status, inTx: bool) {
    status == Held || status == Disputed || (!inTx && (status == Released || status == PaidOut))
  }

  // A row is inserted exactly for a known order and vendor that have no row together, when no hold of
  // the order is held, disputed, released or paid out; inside a caller's transaction only held and
  // disputed ones count. Nothing else changes.
  lemma {:induction false} InsertsExactly(t: Tables, h: Hold, vendorExists: bool, inTx: bool)
    ensures var t' := Create(t, h, vendorExists, if inTx then BLOCKING_IN_TX else BLOCKING);
      var blocked := exists i :: 0 <= i < |t.holds| && t.holds[i].order == h.order && Blocks(t.holds[i].status, inTx);
      var paired := exists i :: 0 <= i < |t.holds| && t.holds[i].order == h.order && t.holds[i].vendor == h.vendor;
      t' == if h.order in t.orders && vendorExists && !blocked && !paired then t.(holds := t.holds + [h]) else t
  {
  }

  // ----- The index -----

  predicate Leaves(status: Status) {
    status == Cancelled || status == Released || status == Refunded || status == Disputed
  }

  // The entries removed after a freeze, a cancellation or a refund: those of the order's holds that are
  // cancelled, released, refunded or disputed.
  lemma {:induction false} ClosedIdsExactly(holds: seq<Hold>, order: string, id: string)
    ensures id in ClosedIds(holds, order) <==>
      exists i :: 0 <= i < |holds| && holds[i].id == id && holds[i].order == order && Leaves(holds[i].status)
  {
    if holds != [] {
      ClosedIdsExactly(holds[..|holds| - 1], order, id);
      assert forall i :: 0 <= i < |holds| - 1 ==> holds[..|holds| - 1][i] == holds[i];
    }
  }

  // The entries put back after a rejection: the held holds that carry the dispute's id, each at its own
  // time.
  lemma {:induction false} HeldScoresExactly(holds: seq<Hold>, disputeId: string, id: string)
    requires DistinctHolds(holds)
    ensures id in HeldScores(holds, disputeId) <==>
      exists i :: 0 <= i < |holds| && holds[i].id == id && holds[i].disputeId == Some(disputeId) && holds[i].status == Held
    ensures forall i :: 0 <= i < |holds| && holds[i].id == id && id in HeldScores(holds, disputeId) ==>
      HeldScores(holds, disputeId)[id] == holds[i].holdUntil
  {
    if holds != [] {
      var n := |holds| - 1;
      HeldScoresExactly(holds[..n], disputeId, id);
      forall i | 0 <= i < n ensures holds[..n][i] == holds[i] && holds[i].id != holds[n].id {
      }
    }
  }

  // ----- Answers -----

  // An order has an active hold exactly with one of its own that is held or disputed; and a dispute can
  // be refunded from a hold exactly if that is disputed under its id.
  lemma {:induction false} ActiveExactly(holds: seq<Hold>, order: string, disputeId: string)
    ensures HasActiveHold(holds, order) <==>
      exists i :: 0 <= i < |holds| && holds[i].order == order && (holds[i].status == Held || holds[i].status == Disputed)
    ensures forall i :: 0 <= i < |holds| ==>
      (DisputedBy(holds[i], disputeId) <==> holds[i].status == Disputed && holds[i].disputeId == Some(disputeId))
  {
  }

  // A release returns nil exactly if it commits, or if the gates are closed for another reason than a
  // debt record that is still missing after 72 hours.
  lemma {:induction false} NilExactly(t: Tables, i: nat, now: int, crash: CrashPoint)
    requires i < |t.holds| && Consistent(t.ledger)
    ensures ReturnsNil(t, i, now, crash) <==>
      if Releasable(t, t.holds[i].order) then t.holds[i].amountPaisa > 0 && crash == NoCrash
      else Gate(t, i, now) != GiveUp(true)
  {
    GatePassesExactly(t, i, now);
    ReleaseSucceeds(t.ledger, t.holds[i]);
  }

  // A return without an open hold: clawed back from the vendor if the order is released, refunded from
  // the rider's debt if it is another COD order, and rejected otherwise.
  lemma {:induction false} WithoutHoldExactly(orders: map<string, Order>, order: string)
    ensures WithoutHold(orders, order) == Clawback <==> order in orders && orders[order].escrowReleased
    ensures WithoutHold(orders, order) == CodFallback <==> order in orders && !orders[order].escrowReleased && Spells(orders[order].gateway, "cod")
    ensures WithoutHold(orders, order) in {Clawback, CodFallback, Rejected}
  {
    if order in orders {
      WordsFold(orders[order].gateway);
    }
  }
}
