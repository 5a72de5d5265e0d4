// Whom the escrow service pays: every credit of every run is traced to the hold it is for, and every
// refund to the order it read.
module EscrowRecipients {
  import opened Wrappers
  import opened Ledger
  import opened LedgerLaws
  import opened LedgerEffects
  import opened Escrow
  import opened EscrowProtocol
  import opened EscrowTheorems

  // ----- What a refund has read -----

  // A refund is for a hold that is open and whose order is known: it names that order's customer, and
  // asks the ledger to move its amount from the locked escrow to the customers' account.
  ghost predicate Reads(t: Tables, p: Plan, kind: string, key: string) {
    && p.hold < |t.holds|
    && var h := t.holds[p.hold];
    && h.order in t.orders && t.orders[h.order].customer == p.customer
    && p.request == Request(
         "vendor_locked_escrow_account", "customer_wallet_account", p.amount, "PKR", kind, h.order, key)
  }

  // A dispute refund reads the disputed hold of its dispute and pays one hundredth of it.
  ghost predicate ReadsDispute(t: Tables, p: Plan, disputeId: string) {
    && Reads(t, p, "dispute_refund", "escrow:refund:" + disputeId)
    && t.holds[p.hold].status == Disputed && t.holds[p.hold].disputeId == Some(disputeId)
    && 100 * p.amount == t.holds[p.hold].amountPaisa && !p.cancelsDebts
  }

  // A return refund reads a held or disputed hold and pays what it is asked for, or one hundredth.
  ghost predicate ReadsReturn(t: Tables, p: Plan, amount: int) {
    && p.hold < |t.holds| && Reads(t, p, "return_refund", "return:refund:" + t.holds[p.hold].order)
    && (t.holds[p.hold].status == Held || t.holds[p.hold].status == Disputed)
    && (if amount == 0 then 100 * p.amount == t.holds[p.hold].amountPaisa else p.amount == amount)
    && p.cancelsDebts
  }

  lemma {:induction false} DisputePlanReads(t: Tables, i: nat, disputeId: string)
    requires i < |t.holds| && PlanDisputeRefund(t, i, disputeId).Some?
    ensures var p := PlanDisputeRefund(t, i, disputeId).value; p.hold == i && ReadsDispute(t, p, disputeId)
  {
  }

  lemma {:induction false} ReturnPlanReads(t: Tables, i: nat, amount: int)
    requires i < |t.holds| && PlanReturnRefund(t, i, amount).Some?
    ensures var p := PlanReturnRefund(t, i, amount).value; p.hold == i && ReadsReturn(t, p, amount)
  {
  }

  // ----- What its commit changes -----

  // The commit of a refund: the hold is refunded, one wallet grows by the amount, the order counts as
  // refunded, and the debts of the order are cancelled if asked; all else is as it was.
  ghost predicate RefundCommitted(t: Tables, t': Tables, p: Plan)
    requires p.hold < |t.holds|
  {
    var h := t.holds[p.hold];
    && |t'.holds| == |t.holds|
    && (forall j :: 0 <= j < |t.holds| && j != p.hold ==> t'.holds[j] == t.holds[j])
    && t'.holds[p.hold] == h.(status := Refunded)
    && (forall c :: c in t'.customerWallets <==> c in t.customerWallets || c == p.customer)
    && (forall c :: c in t.customerWallets && c != p.customer ==> t'.customerWallets[c] == t.customerWallets[c])
    && t'.customerWallets[p.customer] == p.amount + (if p.customer in t.customerWallets then t.customerWallets[p.customer] else 0)
    && t'.vendorWallets == t.vendorWallets && t'.disputes == t.disputes && t'.ledger == t.ledger
    && (forall o :: o in t'.orders <==> o in t.orders)
    && (forall o :: o in t.orders && o != h.order ==> t'.orders[o] == t.orders[o])
    && (h.order in t.orders ==> t'.orders[h.order] == t.orders[h.order].(paymentStatus := "refunded"))
    && |t'.codDebts| == |t.codDebts|
    && (forall k :: 0 <= k < |t.codDebts| ==>
          t'.codDebts[k] == CodDebt(t.codDebts[k].order,
            if p.cancelsDebts && t.codDebts[k].order == h.order then "cancelled" else t.codDebts[k].status))
  }

  lemma {:induction false} CommitChangesExactly(t: Tables, p: Plan)
    requires p.hold < |t.holds|
    ensures RefundCommitted(t, MarkRefunded(t, p), p)
  {
  }

  lemma {:induction false} RunCommits(t: Tables, p: Plan, tbOn: bool)
    requires p.hold < |t.holds| && Succeeds(t.ledger, p.request)
    ensures var t' := RunPlan(t, p, NoCrash, tbOn); RefundCommitted(t.(ledger := t'.ledger), t', p)
  {
    CommitChangesExactly(PayLedger(t, p.request, tbOn), p);
  }

  // The commit of a release: the hold is released, the vendor has the amount to spend and in its
  // lifetime earnings, the order is flagged; all else is as it was.
  ghost predicate ReleaseCommitted(t: Tables, t': Tables, i: nat)
    requires i < |t.holds|
  {
    var h := t.holds[i];
    && |t'.holds| == |t.holds|
    && (forall j :: 0 <= j < |t.holds| && j != i ==> t'.holds[j] == t.holds[j])
    && t'.holds[i] == h.(status := Released)
    && (forall v :: v in t'.vendorWallets <==> v in t.vendorWallets || v == h.vendor)
    && (forall v :: v in t.vendorWallets && v != h.vendor ==> t'.vendorWallets[v] == t.vendorWallets[v])
    && VendorBalance(t'.vendorWallets, h.vendor) == VendorBalance(t.vendorWallets, h.vendor) + h.amountPaisa
    && Lifetime(t'.vendorWallets, h.vendor) == Lifetime(t.vendorWallets, h.vendor) + h.amountPaisa
    && t'.customerWallets == t.customerWallets && t'.disputes == t.disputes && t'.codDebts == t.codDebts && t'.ledger == t.ledger
    && (forall o :: o in t'.orders <==> o in t.orders)
    && (forall o :: o in t.orders && o != h.order ==> t'.orders[o] == t.orders[o])
    && (h.order in t.orders ==> t'.orders[h.order] == t.orders[h.order].(escrowReleased := true))
  }

  lemma {:induction false} ReleaseChangesExactly(t: Tables, i: nat)
    requires i < |t.holds|
    ensures ReleaseCommitted(t, MarkReleased(t, i), i)
  {
  }

  // So once an order is released the gates are closed for all of its holds.
  lemma {:induction false} ReleasedOrderNeverPasses(t: Tables, i: nat, j: nat, now: int)
    requires i < |t.holds| && j < |t.holds| && t.holds[j].order == t.holds[i].order
    ensures Gate(MarkReleased(t, i), j, now) == GiveUp(false)
  {
    ReleaseChangesExactly(t, i);
  }

  // The ledger leg of a release: the amount of the hold, from the locked escrow to what the vendors can
  // withdraw, with the order as its reference and under a key of the hold's own.
  lemma {:induction false} ReleaseWritesItsLeg(t: Tables, i: nat, now: int, tbOn: bool)
    requires Consistent(t.ledger) && i < |t.holds| && Gate(t, i, now) == Pass && t.holds[i].amountPaisa > 0
    requires "escrow:release:" + t.holds[i].id !in t.ledger.reserved
    ensures var h := t.holds[i];
      WritesLeg(ProcessHold(t, i, now, NoCrash, tbOn).ledger.entries, |t.ledger.entries|, t.ledger.nextTx, Request(
        "vendor_locked_escrow_account", "vendor_withdrawable_account", h.amountPaisa, "", "escrow_release", h.order, "escrow:release:" + h.id))
  {
    var r := ReleaseRequest(t.holds[i]);
    SingleCommitsExactly(t.ledger, r);
    ReleaseSucceeds(t.ledger, t.holds[i]);
    AccountsAreValid(r);
    TransferWrites(t.ledger, r, tbOn);
  }

  lemma {:induction false} AccountsAreValid(r: Request)
    requires r.debitAccount == "vendor_locked_escrow_account" && r.creditAccount == "vendor_withdrawable_account" && r.amount > 0
    ensures ValidateSingle(r) == None
  {
    assert r.debitAccount[7] == 'l' && r.creditAccount[7] == 'w';
  }

  // ----- The guarded updates -----

  // A freeze takes every held or paid-out hold of the order under the dispute's id, away from the
  // release job, and no other; the rejection of the dispute gives them back as held.
  lemma {:induction false} FreezeAndBack(t: Tables, order: string, disputeId: string, i: nat)
    requires i < |t.holds|
    ensures var h, frozen := t.holds[i], Freeze(t, order, disputeId).holds[i];
      var back := Unfreeze(Freeze(t, order, disputeId), disputeId).holds[i];
      && (h.order == order && (h.status == Held || h.status == PaidOut) ==>
            frozen.status == Disputed && frozen.disputeId == Some(disputeId) && back == h.(status := Held, disputeId := None))
      && (forall now :: h.order == order ==> !Expired(frozen, now))
      && (h.order != order || h.status in {Released, Refunded, Cancelled, Disputed} ==> frozen == h)
      && (h.status == Disputed && h.disputeId != Some(disputeId) ==> back == h)
      && Freeze(t, order, disputeId) == t.(holds := Freeze(t, order, disputeId).holds)
  {
  }

  // The admin's unfreeze gives back every disputed hold of the order, whatever its dispute.
  lemma {:induction false} AdminUnfreezesOrder(t: Tables, order: string, i: nat)
    requires i < |t.holds|
    ensures var h, back := t.holds[i], UnfreezeOrder(t, order).holds[i];
      if h.order == order && h.status == Disputed then back.status == Held && back.disputeId == None && back == h.(status := Held, disputeId := None)
      else back == h
  {
  }

  // A cancellation ends every held or paid-out hold of the order, and touches no other.
  lemma {:induction false} CancelEndsHolds(t: Tables, order: string, i: nat)
    requires i < |t.holds|
    ensures var h, after := t.holds[i], Cancel(t, order).holds[i];
      && (h.order == order && (h.status == Held || h.status == PaidOut) ==> after == h.(status := Cancelled))
      && (forall now :: h.order == order ==> !Expired(after, now))
      && (h.order != order || h.status in {Released, Refunded, Cancelled, Disputed} ==> after == h)
  {
  }

  // An extension lets the held holds of the order expire from the new time on, and touches no other.
  lemma {:induction false} ExtendPostpones(t: Tables, order: string, until: int, i: nat, now: int)
    requires i < |t.holds|
    ensures var h, after := t.holds[i], Extend(t, order, until).holds[i];
      && (h.order == order && h.status == Held ==> (Expired(after, now) <==> until <= now) && after.status == Held)
      && (h.order != order || h.status != Held ==> after == h)
      && after.(holdUntil := h.holdUntil) == h
  {
  }

  // ----- Every refund of a run -----

  // The refunder is at work on the plan.
  predicate WorksOn(refunder: Refunder, p: Plan) {
    refunder == Planned(p) || refunder == Transferred(p)
  }

  // Step j reads the plan for refunder r.
  ghost predicate ReadAt(s: Sys, steps: seq<Step>, j: int, r: nat, p: Plan) {
    && 0 <= j < |steps|
    && var t := Exec(s, steps[..j]).t;
    || (steps[j].ReadDisputeRefund? && steps[j].r == r && ReadsDispute(t, p, steps[j].disputeId))
    || (steps[j].ReadReturnRefund? && steps[j].r == r && ReadsReturn(t, p, steps[j].amount))
  }

  lemma {:induction false} ReadAtPrefix(s: Sys, steps: seq<Step>, n: nat, j: int, r: nat, p: Plan)
    requires n <= |steps| && ReadAt(s, steps[..n], j, r, p)
    ensures ReadAt(s, steps, j, r, p)
  {
    assert steps[..n][..j] == steps[..j];
  }

  lemma {:induction false} WorkStep(s: Sys, step: Step, r: nat, p: Plan)
    requires Enabled(s, step) && r < |s.refunders|
    ensures |Next(s, step).refunders| == |s.refunders|
    ensures WorksOn(Next(s, step).refunders[r], p) ==>
      || WorksOn(s.refunders[r], p)
      || (step.ReadDisputeRefund? && step.r == r && ReadsDispute(s.t, p, step.disputeId))
      || (step.ReadReturnRefund? && step.r == r && ReadsReturn(s.t, p, step.amount))
  {
    match step
    case ReadDisputeRefund(_, i, d) => DisputePlanReads(s.t, i, d);
    case ReadReturnRefund(_, i, amount) => ReturnPlanReads(s.t, i, amount);
    case _ =>
  }

  lemma {:induction false} WorkWasRead(s: Sys, steps: seq<Step>, r: nat, p: Plan)
    requires r < |s.refunders| && !WorksOn(s.refunders[r], p)
    ensures |Exec(s, steps).refunders| == |s.refunders|
    ensures WorksOn(Exec(s, steps).refunders[r], p) ==> exists j :: ReadAt(s, steps, j, r, p)
  {
    if steps != [] {
      var n := |steps| - 1;
      var mid := Exec(s, steps[..n]);
      WorkWasRead(s, steps[..n], r, p);
      if Enabled(mid, steps[n]) {
        WorkStep(mid, steps[n], r, p);
      }
      if WorksOn(mid.refunders[r], p) {
        var j :| ReadAt(s, steps[..n], j, r, p);
        ReadAtPrefix(s, steps, n, j, r, p);
      } else if WorksOn(Exec(s, steps).refunders[r], p) {
        assert ReadAt(s, steps, n, r, p);
      }
    }
  }

  // The credit was committed at step k by a refund that had read it at step j, for the customer of the
  // hold's order at that moment and the amount it read then.
  ghost predicate RefundedFrom(s: Sys, steps: seq<Step>, c: Credit, r: nat, j: int, k: int, p: Plan) {
    && ReadAt(s, steps, j, r, p) && j < k < |steps| && steps[k] == CommitRefund(r)
    && c == CustomerCredit(p.hold, p.customer, p.amount)
  }

  ghost predicate HasSource(s: Sys, steps: seq<Step>, c: Credit) {
    || (exists r, j, k, p :: RefundedFrom(s, steps, c, r, j, k, p))
    || (c.CustomerCredit? && AdminRefund(c.hold, c.customer, c.amount) in steps)
  }

  lemma {:induction false} SourcePrefix(s: Sys, steps: seq<Step>, n: nat, c: Credit)
    requires n <= |steps| && HasSource(s, steps[..n], c)
    ensures HasSource(s, steps, c)
  {
    if r, j, k, p :| RefundedFrom(s, steps[..n], c, r, j, k, p) {
      ReadAtPrefix(s, steps, n, j, r, p);
      assert RefundedFrom(s, steps, c, r, j, k, p);
    }
  }

  lemma {:induction false} NewCredit(s: Sys, step: Step)
    requires Enabled(s, step)
    ensures var log := Next(s, step).log;
      || log == s.log
      || (step.Finish? && s.workers[step.w].hold < |s.t.holds|
            && log == s.log + [VendorCredit(s.workers[step.w].hold, s.t.holds[s.workers[step.w].hold].vendor,
                                            s.t.holds[s.workers[step.w].hold].amountPaisa)])
      || (step.CommitRefund? && s.refunders[step.r].Transferred?
            && log == s.log + [CustomerCredit(s.refunders[step.r].p.hold, s.refunders[step.r].p.customer, s.refunders[step.r].p.amount)])
      || (step.AdminRefund? && log == s.log + [CustomerCredit(step.i, step.customer, step.amount)])
  {
  }

  lemma {:induction false} CommitWasRead(s0: Sys, steps: seq<Step>, r: nat)
    requires Initial(s0) && steps != [] && steps[|steps| - 1] == CommitRefund(r)
    requires var mid := Exec(s0, steps[..|steps| - 1]); Enabled(mid, CommitRefund(r))
    ensures var p := Exec(s0, steps[..|steps| - 1]).refunders[r].p; HasSource(s0, steps, CustomerCredit(p.hold, p.customer, p.amount))
  {
    var n := |steps| - 1;
    var mid := Exec(s0, steps[..n]);
    var p := mid.refunders[r].p;
    SameRefunders(s0, steps[..n]);
    WorkWasRead(s0, steps[..n], r, p);
    var j :| ReadAt(s0, steps[..n], j, r, p);
    ReadAtPrefix(s0, steps, n, j, r, p);
    assert RefundedFrom(s0, steps, CustomerCredit(p.hold, p.customer, p.amount), r, j, n, p);
  }

  lemma {:induction false} SameRefunders(s: Sys, steps: seq<Step>)
    ensures |Exec(s, steps).refunders| == |s.refunders|
  {
    if steps != [] {
      SameRefunders(s, steps[..|steps| - 1]);
    }
  }

  // In every run, each credit of a customer is one that a refund had read before - by a dispute or for
  // a return - for the customer of that hold's order when it read, and with the amount it read; or one
  // the admin made with that customer and amount.
  lemma {:induction false} EveryRefundNamesItsCustomer(s0: Sys, steps: seq<Step>, m: nat)
    requires Initial(s0) && m < |Exec(s0, steps).log| && Exec(s0, steps).log[m].CustomerCredit?
    ensures HasSource(s0, steps, Exec(s0, steps).log[m])
  {
    var n := |steps| - 1;
    var mid := Exec(s0, steps[..n]);
    if Enabled(mid, steps[n]) {
      NewCredit(mid, steps[n]);
    }
    if m < |mid.log| {
      EveryRefundNamesItsCustomer(s0, steps[..n], m);
      SourcePrefix(s0, steps, n, mid.log[m]);
    } else if steps[n].CommitRefund? {
      CommitWasRead(s0, steps, steps[n].r);
    }
  }

  // And each credit of a vendor is for the vendor and the amount of its hold.
  lemma {:induction false} EveryReleasePaysItsVendor(s0: Sys, steps: seq<Step>, m: nat)
    requires Initial(s0) && m < |Exec(s0, steps).log| && Exec(s0, steps).log[m].VendorCredit?
    ensures var s := Exec(s0, steps);
      var c := s.log[m];
      c.hold < |s.t.holds| && c.vendor == s.t.holds[c.hold].vendor && c.amount == s.t.holds[c.hold].amountPaisa
  {
    var n := |steps| - 1;
    var mid := Exec(s0, steps[..n]);
    if m < |mid.log| {
      EveryReleasePaysItsVendor(s0, steps[..n], m);
    }
    if Enabled(mid, steps[n]) {
      NewCredit(mid, steps[n]);
      StepKeepsPayee(mid, steps[n]);
    }
  }

  lemma {:induction false} StepKeepsPayee(s: Sys, step: Step)
    requires Enabled(s, step)
    ensures |s.t.holds| <= |Next(s, step).t.holds|
    ensures forall i :: 0 <= i < |s.t.holds| ==>
      && Next(s, step).t.holds[i].vendor == s.t.holds[i].vendor
      && Next(s, step).t.holds[i].amountPaisa == s.t.holds[i].amountPaisa
  {
  }

  // The commit of a refund changes one wallet, by the amount that was read, and no other table but
  // that of its hold, its order and its debts.
  lemma {:induction false} RefundChangesOneWallet(s: Sys, r: nat)
    requires Enabled(s, CommitRefund(r))
    ensures RefundCommitted(s.t, Next(s, CommitRefund(r)).t, s.refunders[r].p)
  {
    CommitChangesExactly(s.t, s.refunders[r].p);
  }
}
