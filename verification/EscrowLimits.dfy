// Where the escrow code falls short of the claims made for it: for each, the states in which it
// happens and what then does hold.
module EscrowLimits {
  import opened Wrappers
  import opened Ledger
  import opened LedgerLaws
  import opened Escrow
  import opened EscrowProtocol
  import opened EscrowInvariant
  import opened EscrowTheorems

  // ----- Refund amounts -----

  // The refund of a disputed hold can be planned exactly when the hold is a whole number of
  // rupees, and it pays one hundredth of the hold.
  lemma {:induction false} DisputeRefundPaysOneHundredth(t: Tables, i: nat, d: string)
    requires i < |t.holds| && t.holds[i].status == Disputed && t.holds[i].disputeId == Some(d)
    requires t.holds[i].order in t.orders
    ensures PlanDisputeRefund(t, i, d).Some? <==> exists rupees: int :: t.holds[i].amountPaisa == 100 * rupees
    ensures PlanDisputeRefund(t, i, d).Some? ==> 100 * PlanDisputeRefund(t, i, d).value.amount == t.holds[i].amountPaisa
    ensures PlanDisputeRefund(t, i, d).Some? && t.holds[i].amountPaisa > 0 ==> PlanDisputeRefund(t, i, d).value.amount > 0
  {
    var paisa := t.holds[i].amountPaisa;
    if paisa % 100 == 0 {
      assert paisa == 100 * (paisa / 100);
    }
  }

  // A return refund reads the same column: it too can be planned exactly for a whole number of
  // rupees. It pays one hundredth of the hold exactly when it is asked for the whole hold or for that
  // hundredth itself, and otherwise what it is asked for.
  lemma {:induction false} ReturnRefundPaysExactly(t: Tables, i: nat, amount: int)
    requires i < |t.holds| && t.holds[i].status in {Held, Disputed} && t.holds[i].order in t.orders
    ensures var plan, paisa := PlanReturnRefund(t, i, amount), t.holds[i].amountPaisa;
      && (plan.Some? <==> exists rupees: int :: paisa == 100 * rupees)
      && (plan.Some? ==> (100 * plan.value.amount == paisa <==> amount == 0 || 100 * amount == paisa))
      && (plan.Some? && amount != 0 ==> plan.value.amount == amount)
  {
    var paisa := t.holds[i].amountPaisa;
    if paisa % 100 == 0 {
      assert paisa == 100 * (paisa / 100);
    }
  }

  // ----- The ledger leg of a refund -----

  ghost predicate IsRefund(p: Plan) {
    && p.request.debitAccount == VENDOR_LOCKED_ESCROW && p.request.creditAccount == CUSTOMER_WALLET
    && p.request.amount == p.amount && p.request.idempotencyKey != "" && Foreign(p.request)
  }

  lemma {:induction false} PlansAreRefunds(t: Tables, i: nat, d: string, amount: int)
    requires i < |t.holds|
    ensures PlanDisputeRefund(t, i, d).Some? ==> IsRefund(PlanDisputeRefund(t, i, d).value)
    ensures PlanReturnRefund(t, i, amount).Some? ==> IsRefund(PlanReturnRefund(t, i, amount).value)
  {
    if PlanDisputeRefund(t, i, d).Some? {
      RefundRequestIsForeign(PlanDisputeRefund(t, i, d).value.request, d);
    }
    if PlanReturnRefund(t, i, amount).Some? {
      RefundRequestIsForeign(PlanReturnRefund(t, i, amount).value.request, t.holds[i].order);
    }
  }

  // What the transfer of a refund moves: its amount if its key is fresh, and nothing on a retry.
  ghost function LegMoves(db: Db, p: Plan): int {
    if p.amount > 0 && p.request.idempotencyKey !in db.reserved then p.amount else 0
  }

  lemma {:induction false} AccountsDiffer()
    ensures VENDOR_LOCKED_ESCROW != CUSTOMER_WALLET && VENDOR_LOCKED_ESCROW != VENDOR_WITHDRAWABLE
  {
    assert VENDOR_LOCKED_ESCROW[0] == 'v' && CUSTOMER_WALLET[0] == 'c';
    assert VENDOR_LOCKED_ESCROW[7] == 'l' && VENDOR_WITHDRAWABLE[7] == 'w';
  }

  lemma {:induction false} RefundLegExactly(db: Db, p: Plan)
    requires Consistent(db) && IsRefund(p)
    ensures Succeeds(db, p.request) <==> p.amount > 0
    ensures var after := SingleAfter(db, p.request, true);
      && Consistent(after)
      && after.reserved == (if p.amount > 0 then db.reserved + {p.request.idempotencyKey} else db.reserved)
      && Balance(after.entries, CUSTOMER_WALLET) == Balance(db.entries, CUSTOMER_WALLET) + LegMoves(db, p)
      && Balance(after.entries, VENDOR_LOCKED_ESCROW) == Balance(db.entries, VENDOR_LOCKED_ESCROW) - LegMoves(db, p)
  {
    var r := p.request;
    AccountsDiffer();
    AfterKeepsConsistent(db, Single(r), true);
    SingleCommitsExactly(db, r);
    BalanceAfterCall(db, Single(r), true, CUSTOMER_WALLET);
    BalanceAfterCall(db, Single(r), true, VENDOR_LOCKED_ESCROW);
    RefundKeyIsReserved(db, r);
  }

  lemma {:induction false} RefundKeyIsReserved(db: Db, r: Request)
    requires Consistent(db) && r.idempotencyKey != ""
    ensures r.idempotencyKey in db.reserved ==>
      exists i :: 0 <= i < |db.entries| && db.entries[i].idempotencyKey in {r.idempotencyKey, r.idempotencyKey + DEBIT}
    ensures ValidateSingle(r).None? && r.idempotencyKey !in db.reserved ==>
      SingleAfter(db, r, true).reserved == db.reserved + {r.idempotencyKey}
  {
    if r.idempotencyKey in db.reserved {
      var j: nat :| 2 * j + 1 < |db.entries| && PairKey(db.entries, j) == r.idempotencyKey;
      KeyIsSuffixed(db, 2 * j);
      assert db.entries[2 * j].idempotencyKey in {r.idempotencyKey, r.idempotencyKey + DEBIT};
    } else if ValidateSingle(r).None? {
      CommitOne(db, r, true);
    }
  }

  // ----- Two refunds of one hold -----

  lemma {:induction false} RefundKeysDiffer(d: string, order: string)
    ensures DISPUTE_REFUND_PREFIX + d != RETURN_REFUND_PREFIX + order
  {
    assert (DISPUTE_REFUND_PREFIX + d)[0] == 'e' && (RETURN_REFUND_PREFIX + order)[0] == 'r';
  }

  // One uninterrupted refund, whatever its hold's status is by now.
  lemma {:induction false} RefundRunExactly(t: Tables, p: Plan)
    requires Consistent(t.ledger) && IsRefund(p) && p.amount > 0 && p.hold < |t.holds|
    ensures var after := RunPlan(t, p, NoCrash, true);
      && Consistent(after.ledger) && |after.holds| == |t.holds|
      && after.ledger.reserved == t.ledger.reserved + {p.request.idempotencyKey}
      && AmountOf(after.customerWallets, p.customer) == AmountOf(t.customerWallets, p.customer) + p.amount
      && Balance(after.ledger.entries, CUSTOMER_WALLET) == Balance(t.ledger.entries, CUSTOMER_WALLET) + LegMoves(t.ledger, p)
  {
    RefundLegExactly(t.ledger, p);
  }

  // Two refunds that have both read before either commits credit the customer's wallet with both
  // amounts. The ledger pays both exactly when their keys are fresh and differ, so wallet and
  // ledger agree exactly then.
  lemma {:induction false} OverlappingRefundsExactly(t: Tables, p: Plan, q: Plan)
    requires Consistent(t.ledger) && IsRefund(p) && IsRefund(q) && p.amount > 0 && q.amount > 0
    requires p.hold < |t.holds| && q.hold < |t.holds| && q.customer == p.customer
    ensures var after := RunPlan(RunPlan(t, p, NoCrash, true), q, NoCrash, true);
      var credited := AmountOf(after.customerWallets, p.customer) - AmountOf(t.customerWallets, p.customer);
      var paid := Balance(after.ledger.entries, CUSTOMER_WALLET) - Balance(t.ledger.entries, CUSTOMER_WALLET);
      && credited == p.amount + q.amount
      && paid == LegMoves(t.ledger, p) + (if q.request.idempotencyKey == p.request.idempotencyKey then 0 else LegMoves(t.ledger, q))
      && (paid == credited <==>
            && {p.request.idempotencyKey, q.request.idempotencyKey} !! t.ledger.reserved
            && p.request.idempotencyKey != q.request.idempotencyKey)
  {
    RefundRunExactly(t, p);
    RefundRunExactly(RunPlan(t, p, NoCrash, true), q);
  }

  // A second refund of the same dispute: the wallet is credited twice, the ledger pays once. Had it
  // started after the first, it would have found no disputed hold.
  lemma {:induction false} OverlappingRefundsCreditTwice(t: Tables, i: nat, d: string)
    requires i < |t.holds| && Consistent(t.ledger) && PlanDisputeRefund(t, i, d).Some?
    requires t.holds[i].amountPaisa > 0 && DISPUTE_REFUND_PREFIX + d !in t.ledger.reserved
    ensures var p := PlanDisputeRefund(t, i, d).value;
      var first := RunPlan(t, p, NoCrash, true);
      var second := RunPlan(first, p, NoCrash, true);
      && AmountOf(second.customerWallets, p.customer) == AmountOf(t.customerWallets, p.customer) + 2 * p.amount
      && Balance(second.ledger.entries, CUSTOMER_WALLET) == Balance(t.ledger.entries, CUSTOMER_WALLET) + p.amount
      && PlanDisputeRefund(first, i, d).None?
  {
    var p := PlanDisputeRefund(t, i, d).value;
    DisputeRefundPaysOneHundredth(t, i, d);
    PlansAreRefunds(t, i, d, 0);
    OverlappingRefundsExactly(t, p, p);
    RefundLegExactly(t.ledger, p);
    assert RunPlan(t, p, NoCrash, true).holds[i].status == Refunded;
  }

  // A dispute refund that overlaps a return refund of the same hold uses another key: the ledger
  // pays the customer for both as well.
  lemma {:induction false} DisputeAndReturnBothPay(t: Tables, i: nat, d: string, amount: int)
    requires i < |t.holds| && Consistent(t.ledger) && t.holds[i].amountPaisa > 0 && amount >= 0
    requires PlanDisputeRefund(t, i, d).Some?
    requires DISPUTE_REFUND_PREFIX + d !in t.ledger.reserved && RETURN_REFUND_PREFIX + t.holds[i].order !in t.ledger.reserved
    ensures PlanReturnRefund(t, i, amount).Some?
    ensures var p, q := PlanDisputeRefund(t, i, d).value, PlanReturnRefund(t, i, amount).value;
      var after := RunPlan(RunPlan(t, p, NoCrash, true), q, NoCrash, true);
      && AmountOf(after.customerWallets, p.customer) == AmountOf(t.customerWallets, p.customer) + p.amount + q.amount
      && Balance(after.ledger.entries, CUSTOMER_WALLET) == Balance(t.ledger.entries, CUSTOMER_WALLET) + p.amount + q.amount
  {
    DisputeRefundPaysOneHundredth(t, i, d);
    PlansAreRefunds(t, i, d, amount);
    RefundKeysDiffer(d, t.holds[i].order);
    OverlappingRefundsExactly(t, PlanDisputeRefund(t, i, d).value, PlanReturnRefund(t, i, amount).value);
  }

  // A refund that commits over a released or refunded hold breaks exactly once, with one credit more
  // for the customer.
  lemma {:induction false} StaleCommitBreaks(s: Sys, r: nat)
    requires Inv(s) && Enabled(s, CommitRefund(r)) && IsStale(s, CommitRefund(r))
    ensures var i, s' := s.refunders[r].p.hold, Next(s, CommitRefund(r));
      && !Exact(s') && s'.t.holds[i].status == Refunded
      && CustomerCredits(s'.log, i) == CustomerCredits(s.log, i) + 1 && VendorCredits(s'.log, i) == VendorCredits(s.log, i)
  {
    var p := s.refunders[r].p;
    NextKeepsInv(s, CommitRefund(r));
    LogAfterCredit(s.log, CustomerCredit(p.hold, p.customer, p.amount));
  }

  // In the protocol: of two refunds of one hold the second to commit is stale, and breaks exactly
  // once.
  lemma {:induction false} SecondRefundIsStale(s: Sys, r1: nat, r2: nat)
    requires Inv(s) && Exact(s) && r1 != r2
    requires Enabled(s, CommitRefund(r1)) && Enabled(s, CommitRefund(r2)) && s.refunders[r1].p.hold == s.refunders[r2].p.hold
    requires s.t.holds[s.refunders[r1].p.hold].status in {Held, Disputed}
    ensures var s1 := Next(s, CommitRefund(r1));
      && Exact(s1) && Enabled(s1, CommitRefund(r2)) && IsStale(s1, CommitRefund(r2))
      && !Exact(Next(s1, CommitRefund(r2)))
      && CustomerCredits(Next(s1, CommitRefund(r2)).log, s.refunders[r1].p.hold) == 2
  {
    AfterFirstRefund(s, r1);
    StaleCommitBreaks(Next(s, CommitRefund(r1)), r2);
  }

  lemma {:induction false} AfterFirstRefund(s: Sys, r: nat)
    requires Inv(s) && Exact(s) && Enabled(s, CommitRefund(r)) && s.t.holds[s.refunders[r].p.hold].status in {Held, Disputed}
    ensures var i, s1 := s.refunders[r].p.hold, Next(s, CommitRefund(r));
      && Inv(s1) && Exact(s1) && !Locked(s1, i) && s1.t.holds[i].status == Refunded && CustomerCredits(s1.log, i) == 1
  {
    NextKeepsInv(s, CommitRefund(r));
    var s1 := Next(s, CommitRefund(r));
    assert s1.workers == s.workers;
  }

  // ----- A refund across a release -----

  lemma {:induction false} UnlockedAfterFinish(s: Sys, w: nat)
    requires LocksOk(s) && Enabled(s, Finish(w))
    ensures !Locked(Next(s, Finish(w)), s.workers[w].hold)
  {
    var s', i := Next(s, Finish(w)), s.workers[w].hold;
    forall v | 0 <= v < |s'.workers| ensures !Locks(s'.workers[v], i) {
      if v != w {
        assert s'.workers[v] == s.workers[v];
      }
    }
  }

  lemma {:induction false} AfterFinish(s: Sys, w: nat)
    requires Inv(s) && Exact(s) && Enabled(s, Finish(w))
    ensures var i, s1 := s.workers[w].hold, Next(s, Finish(w));
      && Inv(s1) && Exact(s1) && !Locked(s1, i) && i < |s1.t.holds| && s1.t.holds[i].status == Released
      && VendorCredits(s1.log, i) == 1 && CustomerCredits(s1.log, i) == 0
  {
    NextKeepsInv(s, Finish(w));
    UnlockedAfterFinish(s, w);
  }

  // A refund that has read its hold, committed after the hold's release, is stale: vendor and
  // customer have both been paid, and the hold ends up refunded.
  lemma {:induction false} RefundAcrossReleasePaysBoth(s: Sys, w: nat, r: nat)
    requires Inv(s) && Exact(s) && Enabled(s, Finish(w))
    requires r < |s.refunders| && s.refunders[r].Transferred? && s.refunders[r].p.hold == s.workers[w].hold
    ensures var i := s.workers[w].hold;
      var s1 := Next(s, Finish(w));
      && Exact(s1) && Enabled(s1, CommitRefund(r)) && IsStale(s1, CommitRefund(r))
      && var s2 := Next(s1, CommitRefund(r));
      && !Exact(s2) && s2.t.holds[i].status == Refunded
      && VendorCredits(s2.log, i) == 1 && CustomerCredits(s2.log, i) == 1
  {
    AfterFinish(s, w);
    StaleAfterFinish(s, w, r);
    StaleCommitBreaks(Next(s, Finish(w)), r);
  }

  lemma {:induction false} StaleAfterFinish(s: Sys, w: nat, r: nat)
    requires Inv(s) && Exact(s) && Enabled(s, Finish(w))
    requires r < |s.refunders| && s.refunders[r].Transferred? && s.refunders[r].p.hold == s.workers[w].hold
    ensures var s1 := Next(s, Finish(w));
      s1.refunders == s.refunders && Enabled(s1, CommitRefund(r)) && IsStale(s1, CommitRefund(r))
  {
    UnlockedAfterFinish(s, w);
  }

  // ----- A crashed refund before a release -----

  lemma {:induction false} ReleaseLegExactly(db: Db, h: Hold)
    requires Consistent(db) && h.amountPaisa > 0
    ensures Balance(SingleAfter(db, ReleaseRequest(h), true).entries, VENDOR_LOCKED_ESCROW)
      == Balance(db.entries, VENDOR_LOCKED_ESCROW) - if Keyed(h, db.reserved) then 0 else h.amountPaisa
  {
    AccountsDiffer();
    SingleCommitsExactly(db, ReleaseRequest(h));
    BalanceAfterCall(db, Single(ReleaseRequest(h)), true, VENDOR_LOCKED_ESCROW);
  }

  // After a refund that died behind its ledger transfer, a release of the hold goes through: nothing
  // consults the refund's key. The locked escrow pays once for each of the two keys that was fresh.
  // So it pays for the release alone if and only if the refund's key had been used before, and for
  // both otherwise.
  lemma {:induction false} ReleaseAfterCrashedRefundExactly(t: Tables, p: Plan, held: Tables, i: nat, now: int)
    requires Consistent(t.ledger) && IsRefund(p) && p.amount > 0 && p.hold < |t.holds|
    requires held.ledger == RunPlan(t, p, AfterLedger, true).ledger
    requires i < |held.holds| && held.holds[i].amountPaisa > 0 && Gate(held, i, now) == Pass
    ensures var after := ProcessHold(held, i, now, NoCrash, true);
      var paid := Balance(t.ledger.entries, VENDOR_LOCKED_ESCROW) - Balance(after.ledger.entries, VENDOR_LOCKED_ESCROW);
      && after.holds[i].status == Released
      && paid == LegMoves(t.ledger, p) + (if Keyed(held.holds[i], t.ledger.reserved) then 0 else held.holds[i].amountPaisa)
      && (!Keyed(held.holds[i], t.ledger.reserved) ==>
            (paid == held.holds[i].amountPaisa <==> p.request.idempotencyKey in t.ledger.reserved))
  {
    RefundLegExactly(t.ledger, p);
    ReleaseKeyIsNotForeign(held.holds[i].id, p.request);
    ReleaseSucceeds(held.ledger, held.holds[i]);
    ReleaseLegExactly(held.ledger, held.holds[i]);
  }

  // A dispute refund dies, the dispute is rejected and the hold released.
  lemma {:induction false} CrashedRefundThenReleaseDebitsTwice(t: Tables, i: nat, d: string, now: int)
    requires i < |t.holds| && Consistent(t.ledger) && PlanDisputeRefund(t, i, d).Some? && t.holds[i].amountPaisa > 0
    requires Gate(t, i, now) == Pass && !Keyed(t.holds[i], t.ledger.reserved)
    ensures var p := PlanDisputeRefund(t, i, d).value;
      var held := Unfreeze(RunPlan(t, p, AfterLedger, true), d);
      var after := ProcessHold(held, i, now, NoCrash, true);
      && after.holds[i].status == Released
      && Balance(t.ledger.entries, VENDOR_LOCKED_ESCROW) - Balance(after.ledger.entries, VENDOR_LOCKED_ESCROW)
           == t.holds[i].amountPaisa + (if DISPUTE_REFUND_PREFIX + d in t.ledger.reserved then 0 else p.amount)
  {
    var p := PlanDisputeRefund(t, i, d).value;
    DisputeRefundPaysOneHundredth(t, i, d);
    PlansAreRefunds(t, i, d, 0);
    RefundLegExactly(t.ledger, p);
    var held := Unfreeze(RunPlan(t, p, AfterLedger, true), d);
    assert held.holds[i] == UnfreezeRow(t.holds[i], d);
    GateIgnoresStatus(t, held, i, now);
    ReleaseAfterCrashedRefundExactly(t, p, held, i, now);
  }

  lemma {:induction false} GateIgnoresStatus(t: Tables, t': Tables, i: nat, now: int)
    requires i < |t.holds| && i < |t'.holds|
    requires t'.holds[i].order == t.holds[i].order && t'.holds[i].createdAt == t.holds[i].createdAt
    requires t'.orders == t.orders && t'.disputes == t.disputes && t'.codDebts == t.codDebts
    ensures Gate(t', i, now) == Gate(t, i, now)
  {
  }

  // ----- The index after a rejected dispute -----

  // The rows the re-index query selects after an unfreeze: those already held under this dispute
  // id before it. An unfrozen hold has lost the id, so it is never put back.
  lemma {:induction false} UnfrozenHoldsAreNotReindexed(t: Tables, d: string, i: nat)
    requires i < |t.holds|
    ensures var h := Unfreeze(t, d).holds[i];
      h.disputeId == Some(d) && h.status == Held <==> t.holds[i].disputeId == Some(d) && t.holds[i].status == Held
    ensures t.holds[i].disputeId == Some(d) && t.holds[i].status == Disputed ==>
      Unfreeze(t, d).holds[i].status == Held && Unfreeze(t, d).holds[i].disputeId == None
  {
    assert Unfreeze(t, d).holds[i] == UnfreezeRow(t.holds[i], d);
  }
}
