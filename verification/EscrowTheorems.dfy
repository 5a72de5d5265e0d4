// What holds of every run of the escrow protocol, and where its guarantees end.
module EscrowTheorems {
  import opened Wrappers
  import opened Ledger
  import opened LedgerLaws
  import opened Escrow
  import opened EscrowProtocol
  import opened EscrowInvariant

  // ----- Exactly-once release -----

  // The credit row of hold h's release transfer.
  ghost predicate ReleaseRow(e: Entry, h: Hold) {
    e.idempotencyKey == ReleaseKey(h.id) + CREDIT
  }

  lemma {:induction false} KeyedHasRow(db: Db, h: Hold)
    requires Consistent(db) && Keyed(h, db.reserved)
    ensures exists k :: 0 <= k < |db.entries| && ReleaseRow(db.entries[k], h)
  {
    var j: nat :| 2 * j + 1 < |db.entries| && PairKey(db.entries, j) == ReleaseKey(h.id);
    KeyIsSuffixed(db, 2 * j + 1);
    assert ReleaseRow(db.entries[2 * j + 1], h);
  }

  lemma {:induction false} ReleaseRowIsUnique(db: Db, h: Hold, k: nat, l: nat)
    requires Consistent(db) && k < |db.entries| && l < |db.entries|
    requires ReleaseRow(db.entries[k], h) && ReleaseRow(db.entries[l], h)
    ensures k == l && Keyed(h, db.reserved)
  {
    KeyIsSuffixed(db, k);
    KeyIsSuffixed(db, l);
    SuffixesDiffer(PairKey(db.entries, k / 2), ReleaseKey(h.id));
    SuffixesDiffer(PairKey(db.entries, l / 2), ReleaseKey(h.id));
    assert ReleaseKey(h.id) != "";
    PairOwnsRows(db, k / 2);
  }

  ghost function ReleaseRows(t: Tables, i: nat): set<int>
    requires i < |t.holds|
  {
    set k | 0 <= k < |t.ledger.entries| && ReleaseRow(t.ledger.entries[k], t.holds[i])
  }

  lemma {:induction false} ReleaseRowsOfHold(s: Sys, i: nat)
    requires Inv(s) && i < |s.t.holds|
    ensures forall k, l :: k in ReleaseRows(s.t, i) && l in ReleaseRows(s.t, i) ==> k == l
    ensures VendorCredits(s.log, i) > 0 ==> ReleaseRows(s.t, i) != {}
  {
    var db := s.t.ledger;
    forall k, l | k in ReleaseRows(s.t, i) && l in ReleaseRows(s.t, i) ensures k == l {
      ReleaseRowIsUnique(db, s.t.holds[i], k, l);
    }
    if VendorCredits(s.log, i) > 0 {
      KeyedHasRow(db, s.t.holds[i]);
      var k :| 0 <= k < |db.entries| && ReleaseRow(db.entries[k], s.t.holds[i]);
      assert k in ReleaseRows(s.t, i);
    }
  }

  // In every reachable state a hold has at most one release transfer, whatever workers, refunds and
  // crashes did; it has one if the vendor has been credited, so if it is released, and that transfer
  // moves exactly its amount to the withdrawable account.
  lemma {:induction false} AtMostOneReleaseTransfer(s0: Sys, steps: seq<Step>, i: nat)
    requires Initial(s0) && i < |Exec(s0, steps).t.holds|
    ensures var s := Exec(s0, steps);
      && (forall k, l :: k in ReleaseRows(s.t, i) && l in ReleaseRows(s.t, i) ==> k == l)
      && (forall k :: k in ReleaseRows(s.t, i) ==>
            s.t.ledger.entries[k].account == VENDOR_WITHDRAWABLE && s.t.ledger.entries[k].amount == s.t.holds[i].amountPaisa)
      && (VendorCredits(s.log, i) > 0 || s.t.holds[i].status == Released ==> ReleaseRows(s.t, i) != {})
  {
    InitialInv(s0);
    RunKeepsInv(s0, steps);
    var s := Exec(s0, steps);
    ReleaseRowsOfHold(s, i);
    assert CreditOk(s.t.holds[i].status, VendorCredits(s.log, i), CustomerCredits(s.log, i));
  }

  // Whatever is interleaved, stale refunds included: the vendor's wallet is credited at most once
  // for a hold and always when it is released, the customer's if and only if it is refunded, and
  // each wallet holds exactly the credits committed to it.
  lemma {:induction false} CreditsInEveryRun(s0: Sys, steps: seq<Step>, i: nat, vendor: string, customer: string)
    requires Initial(s0) && i < |Exec(s0, steps).t.holds|
    ensures var s := Exec(s0, steps);
      && VendorCredits(s.log, i) <= 1
      && (s.t.holds[i].status == Released ==> VendorCredits(s.log, i) == 1)
      && (VendorCredits(s.log, i) == 1 ==> s.t.holds[i].status in {Released, Refunded})
      && (CustomerCredits(s.log, i) > 0 <==> s.t.holds[i].status == Refunded)
      && Lifetime(s.t.vendorWallets, vendor) == CreditedToVendor(s.log, vendor)
      && VendorBalance(s.t.vendorWallets, vendor) == CreditedToVendor(s.log, vendor) + AmountOf(s.moves.vendors, vendor)
      && AmountOf(s.t.customerWallets, customer) == CreditedToCustomer(s.log, customer) + AmountOf(s.moves.customers, customer)
  {
    InitialInv(s0);
    RunKeepsInv(s0, steps);
    var s := Exec(s0, steps);
    assert CreditOk(s.t.holds[i].status, VendorCredits(s.log, i), CustomerCredits(s.log, i));
  }

  // ----- When every wallet is credited exactly once -----

  // No refund of the run commits over a hold that was released or refunded after it was read.
  ghost predicate NoStaleCommit(s: Sys, steps: seq<Step>) {
    steps == [] ||
    (var mid, last := Exec(s, steps[..|steps| - 1]), steps[|steps| - 1];
     NoStaleCommit(s, steps[..|steps| - 1]) && (Enabled(mid, last) ==> !IsStale(mid, last)))
  }

  lemma {:induction false} RunIsExactIff(s: Sys, steps: seq<Step>)
    requires Inv(s)
    ensures Exact(Exec(s, steps)) <==> Exact(s) && NoStaleCommit(s, steps)
  {
    if steps != [] {
      var mid, last := Exec(s, steps[..|steps| - 1]), steps[|steps| - 1];
      RunIsExactIff(s, steps[..|steps| - 1]);
      RunKeepsInv(s, steps[..|steps| - 1]);
      if Enabled(mid, last) {
        NextKeepsInv(mid, last);
      }
    }
  }

  // The vendor's wallet is credited exactly once for the released holds and never for others, and
  // the customer's exactly once for the refunded ones and never for others, if and only if no refund
  // of the run was stale when it committed.
  lemma {:induction false} WalletsCreditedExactlyOnce(s0: Sys, steps: seq<Step>)
    requires Initial(s0)
    ensures ExactlyOnce(Exec(s0, steps).t.holds, Exec(s0, steps).log) <==> NoStaleCommit(s0, steps)
  {
    InitialInv(s0);
    RunIsExactIff(s0, steps);
  }

  // Commit k directly follows the payment and the reading of its own refund.
  ghost predicate UninterruptedAt(s: Sys, steps: seq<Step>, k: nat)
    requires k < |steps| && steps[k].CommitRefund?
  {
    && k >= 2
    && (steps[k - 2].ReadDisputeRefund? || steps[k - 2].ReadReturnRefund?) && steps[k - 2].r == steps[k].r
    && steps[k - 1] == PayRefund(steps[k].r)
    && Enabled(Exec(s, steps[..k - 2]), steps[k - 2])
  }

  ghost predicate Uninterrupted(s: Sys, steps: seq<Step>) {
    forall k :: 0 <= k < |steps| && steps[k].CommitRefund? && Enabled(Exec(s, steps[..k]), steps[k]) ==> UninterruptedAt(s, steps, k)
  }

  lemma {:induction false} FreshCommitIsNotStale(s: Sys, read: Step, r: nat)
    requires Enabled(s, read) && (read.ReadDisputeRefund? || read.ReadReturnRefund?) && read.r == r
    ensures var s2 := Next(Next(s, read), PayRefund(r));
      Enabled(Next(s, read), PayRefund(r)) && (Enabled(s2, CommitRefund(r)) ==> !IsStale(s2, CommitRefund(r)))
  {
  }

  lemma {:induction false} ExecPrefix(s: Sys, steps: seq<Step>, k: nat)
    requires k < |steps| && Enabled(Exec(s, steps[..k]), steps[k])
    ensures Exec(s, steps[..k + 1]) == Next(Exec(s, steps[..k]), steps[k])
  {
    assert steps[..k + 1][..k] == steps[..k];
  }

  lemma {:induction false} UninterruptedIsNotStale(s: Sys, steps: seq<Step>)
    requires steps != [] && steps[|steps| - 1].CommitRefund? && UninterruptedAt(s, steps, |steps| - 1)
    ensures var mid, last := Exec(s, steps[..|steps| - 1]), steps[|steps| - 1];
      Enabled(mid, last) ==> !IsStale(mid, last)
  {
    var n := |steps| - 1;
    FreshCommitIsNotStale(Exec(s, steps[..n - 2]), steps[n - 2], steps[n].r);
    ExecPrefix(s, steps, n - 2);
    ExecPrefix(s, steps, n - 1);
  }

  // Refunds that nothing interrupts - one at a time, each may die after its ledger transfer - are
  // never stale, so such runs credit every wallet exactly once.
  lemma {:induction false} UninterruptedRefundsCreditOnce(s: Sys, steps: seq<Step>)
    requires Inv(s) && Exact(s) && Uninterrupted(s, steps)
    ensures NoStaleCommit(s, steps) && Exact(Exec(s, steps))
  {
    if steps != [] {
      var n := |steps| - 1;
      forall k | 0 <= k < n && steps[..n][k].CommitRefund? && Enabled(Exec(s, steps[..n][..k]), steps[..n][k])
        ensures UninterruptedAt(s, steps[..n], k)
      {
        assert steps[..n][..k] == steps[..k] && UninterruptedAt(s, steps, k);
        assert steps[..n][..k - 2] == steps[..k - 2];
      }
      UninterruptedRefundsCreditOnce(s, steps[..n]);
      if steps[n].CommitRefund? && Enabled(Exec(s, steps[..n]), steps[n]) {
        assert UninterruptedAt(s, steps, n);
        UninterruptedIsNotStale(s, steps);
      }
    }
    RunIsExactIff(s, steps);
  }

  // ----- The reconciliation gap -----

  lemma {:induction false} KeyedIsCreditedOrGap(holds: seq<Hold>, log: seq<Credit>, reserved: set<string>)
    requires CreditedKeyed(holds, log, reserved)
    ensures SumKeyed(holds, reserved) == SumCredited(holds, log) + SumGap(holds, reserved, log)
  {
    if holds != [] {
      KeyedIsCreditedOrGap(holds[..|holds| - 1], log, reserved);
    }
  }

  // At every moment of every run, stale refunds included, the withdrawable balance is the sum of
  // the vendor credits, plus the amounts of the holds whose ledger transfer has committed but whose
  // final commit has not, plus what all other ledger calls have moved into the account.
  lemma {:induction false} ReconciliationGap(s0: Sys, steps: seq<Step>)
    requires Initial(s0)
    ensures var s := Exec(s0, steps);
      Balance(s.t.ledger.entries, VENDOR_WITHDRAWABLE)
        == CreditedToVendors(s.log) + SumGap(s.t.holds, s.t.ledger.reserved, s.log) + s.others
  {
    InitialInv(s0);
    RunKeepsInv(s0, steps);
    var s := Exec(s0, steps);
    KeyedIsCreditedOrGap(s.t.holds, s.log, s.t.ledger.reserved);
  }

  lemma {:induction false} GapAfterCredit(holds: seq<Hold>, reserved: set<string>, log: seq<Credit>, c: Credit)
    requires c.VendorCredit? && VendorCredits(log, c.hold) == 0
    requires c.hold < |holds| ==> Keyed(holds[c.hold], reserved)
    ensures SumGap(holds, reserved, log + [c])
      == SumGap(holds, reserved, log) - if c.hold < |holds| then holds[c.hold].amountPaisa else 0
  {
    if holds != [] {
      VendorCreditsAfter(log, c, |holds| - 1);
      GapAfterCredit(holds[..|holds| - 1], reserved, log, c);
    }
  }

  ghost function Attempt(w: nat, i: nat, now: int): seq<Step> {
    [Claim(w, i, now)] + [Check(w, now)] + [Pay(w)] + [Finish(w)]
  }

  lemma {:induction false} ExecOneMore(s: Sys, steps: seq<Step>, step: Step)
    ensures Exec(s, steps + [step])
      == if Enabled(Exec(s, steps), step) then Next(Exec(s, steps), step) else Exec(s, steps)
  {
    assert (steps + [step])[..|steps|] == steps;
  }

  lemma {:induction false} ClaimAndCheck(s: Sys, w: nat, i: nat, now: int)
    requires Enabled(s, Claim(w, i, now)) && Gate(s.t, i, now) == Pass
    ensures Exec(s, [Claim(w, i, now)] + [Check(w, now)]) == s.(workers := s.workers[w := Cleared(i)])
  {
    var none: seq<Step> := [];
    assert none + [Claim(w, i, now)] == [Claim(w, i, now)];
    ExecOneMore(s, none, Claim(w, i, now));
    ExecOneMore(s, [Claim(w, i, now)], Check(w, now));
    var claimed := s.(workers := s.workers[w := Claimed(i)]);
    assert claimed.workers[w := Cleared(i)] == s.workers[w := Cleared(i)];
  }

  lemma {:induction false} PayAndFinish(s: Sys, w: nat, i: nat, prefix: seq<Step>, s1: Sys)
    requires w < |s1.workers| && s1.workers[w] == Cleared(i) && i < |s1.t.holds| && Exec(s, prefix) == s1
    requires Succeeds(s1.t.ledger, ReleaseRequest(s1.t.holds[i]))
    ensures Exec(s, prefix + [Pay(w)] + [Finish(w)]) ==
      s1.(t := MarkReleased(PayLedger(s1.t, ReleaseRequest(s1.t.holds[i]), true), i), workers := s1.workers[w := Idle],
          log := s1.log + [VendorCredit(i, s1.t.holds[i].vendor, s1.t.holds[i].amountPaisa)])
  {
    ExecOneMore(s, prefix, Pay(w));
    ExecOneMore(s, prefix + [Pay(w)], Finish(w));
    var paid := Next(s1, Pay(w));
    assert paid.workers[w := Idle] == s1.workers[w := Idle];
  }

  // One uninterrupted call of processHoldTx on a claimable hold is the run claim, check, pay,
  // finish of the protocol.
  lemma {:induction false} ProcessHoldIsARun(s: Sys, w: nat, i: nat, now: int)
    requires Inv(s) && Enabled(s, Claim(w, i, now))
    requires Gate(s.t, i, now) == Pass && s.t.holds[i].amountPaisa > 0
    ensures Succeeds(s.t.ledger, ReleaseRequest(s.t.holds[i]))
    ensures var s' := Exec(s, Attempt(w, i, now));
      && s'.t == ProcessHold(s.t, i, now, NoCrash, true)
      && s'.log == s.log + [VendorCredit(i, s.t.holds[i].vendor, s.t.holds[i].amountPaisa)]
      && s'.workers == s.workers && s'.refunders == s.refunders && s'.others == s.others
  {
    ReleaseSucceeds(s.t.ledger, s.t.holds[i]);
    ClaimAndCheck(s, w, i, now);
    var s1 := s.(workers := s.workers[w := Cleared(i)]);
    PayAndFinish(s, w, i, [Claim(w, i, now)] + [Check(w, now)], s1);
    assert s1.workers[w := Idle] == s.workers;
  }

  lemma {:induction false} ReleaseSucceeds(db: Db, h: Hold)
    requires Consistent(db)
    ensures Succeeds(db, ReleaseRequest(h)) <==> h.amountPaisa > 0
  {
    var r := ReleaseRequest(h);
    SingleCommitsExactly(db, r);
    assert ValidateSingle(r).None? <==> h.amountPaisa > 0 by {
      assert VENDOR_LOCKED_ESCROW[7] == 'l' && VENDOR_WITHDRAWABLE[7] == 'w';
    }
    if Keyed(h, db.reserved) {
      var j: nat :| 2 * j + 1 < |db.entries| && PairKey(db.entries, j) == r.idempotencyKey;
      KeyIsSuffixed(db, 2 * j);
      assert db.entries[2 * j].idempotencyKey in {r.idempotencyKey, r.idempotencyKey + DEBIT};
    }
  }

  // A retry after a crash between the two commits moves no money in the ledger, releases the hold
  // and closes the gap by exactly its amount.
  lemma {:induction false} RetryClosesGap(s: Sys, w: nat, i: nat, now: int)
    requires Inv(s) && Enabled(s, Claim(w, i, now)) && Keyed(s.t.holds[i], s.t.ledger.reserved)
    requires Gate(s.t, i, now) == Pass && s.t.holds[i].amountPaisa > 0
    ensures var s' := Exec(s, Attempt(w, i, now));
      && s'.t.ledger == s.t.ledger
      && s'.t.holds == SetStatus(s.t.holds, i, Released)
      && CreditedToVendors(s'.log) == CreditedToVendors(s.log) + s.t.holds[i].amountPaisa
      && SumGap(s'.t.holds, s'.t.ledger.reserved, s'.log) == SumGap(s.t.holds, s.t.ledger.reserved, s.log) - s.t.holds[i].amountPaisa
  {
    var c := VendorCredit(i, s.t.holds[i].vendor, s.t.holds[i].amountPaisa);
    ProcessHoldIsARun(s, w, i, now);
    LogAfterCredit(s.log, c);
    assert CreditOk(s.t.holds[i].status, VendorCredits(s.log, i), CustomerCredits(s.log, i));
    GapAfterCredit(s.t.holds, s.t.ledger.reserved, s.log, c);
    StatusIsSame(s.t.holds, i, Released);
    SameSums(s.t.holds, SetStatus(s.t.holds, i, Released), s.t.ledger.reserved, s.log + [c]);
  }

  // ----- The lifecycle -----

  ghost predicate Terminal(status: Status) {
    status in {Released, Refunded, Cancelled}
  }

  ghost predicate Refunds(s: Sys, step: Step, i: nat)
    requires Enabled(s, step)
  {
    step.CommitRefund? && s.refunders[step.r].p.hold == i
  }

  lemma {:induction false} StepOnTerminal(s: Sys, step: Step, i: nat)
    requires LocksOk(s) && Enabled(s, step) && i < |s.t.holds| && Terminal(s.t.holds[i].status)
    ensures i < |Next(s, step).t.holds|
    ensures Next(s, step).t.holds[i] == if Refunds(s, step, i) then s.t.holds[i].(status := Refunded) else s.t.holds[i]
  {
    if step.Finish? {
      assert s.t.holds[s.workers[step.w].hold].status == Held;
    } else if step.CreateHold? {
      assert (s.t.holds + [step.h])[i] == s.t.holds[i];
    }
  }

  // The run commits a refund of hold i.
  ghost predicate CommitsRefundOf(s: Sys, steps: seq<Step>, i: nat) {
    steps != [] &&
    var mid, last := Exec(s, steps[..|steps| - 1]), steps[|steps| - 1];
    CommitsRefundOf(s, steps[..|steps| - 1], i) || (Enabled(mid, last) && Refunds(mid, last, i))
  }

  // A released, refunded or cancelled hold changes in a run if and only if it is not refunded yet
  // and the run commits a refund of it; then it ends up refunded.
  lemma {:induction false} TerminalHoldChangesExactly(s: Sys, steps: seq<Step>, i: nat)
    requires Inv(s) && i < |s.t.holds| && Terminal(s.t.holds[i].status)
    ensures i < |Exec(s, steps).t.holds|
    ensures Exec(s, steps).t.holds[i] == if CommitsRefundOf(s, steps, i) then s.t.holds[i].(status := Refunded) else s.t.holds[i]
    ensures Exec(s, steps).t.holds[i] != s.t.holds[i] <==> s.t.holds[i].status != Refunded && CommitsRefundOf(s, steps, i)
  {
    if steps != [] {
      var mid, last := Exec(s, steps[..|steps| - 1]), steps[|steps| - 1];
      TerminalHoldChangesExactly(s, steps[..|steps| - 1], i);
      RunKeepsInv(s, steps[..|steps| - 1]);
      if Enabled(mid, last) {
        StepOnTerminal(mid, last, i);
      }
    }
  }

  ghost predicate KeepsTerminal(holds: seq<Hold>, holds': seq<Hold>) {
    |holds'| == |holds| && forall i :: 0 <= i < |holds| && Terminal(holds[i].status) ==> holds'[i] == holds[i]
  }

  // The guard that the updates of the refunds lack: a refund commit keeps all credits exactly once
  // and all terminal holds as they were if and only if its hold is still held or disputed.
  lemma {:induction false} RefundIsHarmlessExactly(s: Sys, p: Plan)
    requires Inv(s) && Exact(s) && p.hold < |s.t.holds|
    ensures var s' := Refunding(s, p);
      && (Exact(s') <==> s.t.holds[p.hold].status !in {Released, Refunded})
      && (KeepsTerminal(s.t.holds, s'.t.holds) <==> s.t.holds[p.hold].status !in {Released, Cancelled})
      && (Exact(s') && KeepsTerminal(s.t.holds, s'.t.holds) <==> s.t.holds[p.hold].status in {Held, Disputed})
  {
    CommitIsExactlyOnceIff(s.t.holds, s.log, p);
    var h, h' := s.t.holds[p.hold], Refunding(s, p).t.holds[p.hold];
    assert h.status in {Released, Cancelled} ==> h' != h;
  }

  // The branch of processHoldTx for an order that is already released is never taken.
  lemma {:induction false} ClaimedOrderIsNotReleased(s0: Sys, steps: seq<Step>, w: nat)
    requires Initial(s0) && w < |Exec(s0, steps).workers| && !Exec(s0, steps).workers[w].Idle?
    ensures var s := Exec(s0, steps);
      && s.workers[w].hold < |s.t.holds|
      && var order := s.t.holds[s.workers[w].hold].order;
         order in s.t.orders ==> !s.t.orders[order].escrowReleased
  {
    InitialInv(s0);
    RunKeepsInv(s0, steps);
  }

  // ----- No release while blocked -----

  // The newest debt record of the order, if there is one, has this status.
  ghost predicate NewestDebt(debts: seq<CodDebt>, order: string, status: string) {
    exists k :: 0 <= k < |debts| && debts[k] == CodDebt(order, status) && forall j :: k < j < |debts| ==> debts[j].order != order
  }

  lemma {:induction false} OtherDebtIsSkipped(debts: seq<CodDebt>, debt: CodDebt, order: string, status: string)
    requires debt.order != order
    ensures NewestDebt(debts + [debt], order, status) <==> NewestDebt(debts, order, status)
  {
    var all := debts + [debt];
    if NewestDebt(debts, order, status) {
      var k :| 0 <= k < |debts| && debts[k] == CodDebt(order, status) && forall j :: k < j < |debts| ==> debts[j].order != order;
      assert all[k] == CodDebt(order, status);
    }
    if NewestDebt(all, order, status) {
      var k :| 0 <= k < |all| && all[k] == CodDebt(order, status) && forall j :: k < j < |all| ==> all[j].order != order;
      assert debts[k] == CodDebt(order, status);
      assert forall j :: k < j < |debts| ==> debts[j] == all[j];
    }
  }

  lemma {:induction false} LatestDebtIsNewest(debts: seq<CodDebt>, order: string)
    ensures forall status :: LatestDebt(debts, order) == Some(status) <==> NewestDebt(debts, order, status)
  {
    if debts != [] {
      var n := |debts| - 1;
      forall status ensures LatestDebt(debts, order) == Some(status) <==> NewestDebt(debts, order, status) {
        if debts[n].order == order {
          assert debts[n].status == status ==> debts[n] == CodDebt(order, status);
        } else {
          LatestDebtIsNewest(debts[..n], order);
          OtherDebtIsSkipped(debts[..n], debts[n], order, status);
          assert debts == debts[..n] + [debts[n]];
        }
      }
    }
  }

  // An ASCII letter in its two cases, or one of the two other characters that fold to one.
  predicate SameLetter(c: char, d: char) {
    || c == d
    || ('A' <= c <= 'Z' && d as int == c as int + 32)
    || ('A' <= d <= 'Z' && c as int == d as int + 32)
    || (c == '\U{212A}' && d in "kK")
    || (c == '\U{017F}' && d in "sS")
  }

  // s is the word, in any case.
  predicate Spells(s: string, word: string) {
    |s| == |word| && forall i :: 0 <= i < |s| ==> SameLetter(s[i], word[i])
  }

  lemma {:induction false} SameLetterFolds(c: char, d: char)
    requires d < 128 as char
    ensures LowerChar(c) == LowerChar(d) <==> SameLetter(c, d)
  {
  }

  // Comparing with an ASCII word: equal up to case, letter by letter.
  lemma {:induction false} EqualFoldExactly(s: string, word: string)
    requires forall i :: 0 <= i < |word| ==> word[i] < 128 as char
    ensures EqualFold(s, word) <==> Spells(s, word)
  {
    if |s| == |word| {
      forall i | 0 <= i < |s| ensures LowerChar(s[i]) == LowerChar(word[i]) <==> SameLetter(s[i], word[i]) {
        SameLetterFolds(s[i], word[i]);
      }
    }
  }

  lemma {:induction false} WordsFold(s: string)
    ensures EqualFold(s, "delivered") <==> Spells(s, "delivered")
    ensures EqualFold(s, "completed") <==> Spells(s, "completed")
    ensures EqualFold(s, "cod") <==> Spells(s, "cod")
    ensures EqualFold(s, "settled") <==> Spells(s, "settled")
    ensures EqualFold(s, "paid") <==> Spells(s, "paid")
    ensures EqualFold(s, "resolved") <==> Spells(s, "resolved")
  {
    EqualFoldExactly(s, "delivered");
    EqualFoldExactly(s, "completed");
    EqualFoldExactly(s, "cod");
    EqualFoldExactly(s, "settled");
    EqualFoldExactly(s, "paid");
    EqualFoldExactly(s, "resolved");
  }

  ghost predicate OpenDispute(t: Tables, order: string) {
    exists d :: d in t.disputes && d.order == order
      && (d.status == "open" || d.status == "investigating" || d.status == "pending" || d.status == "under_review")
  }

  ghost predicate SettledDebt(debts: seq<CodDebt>, order: string) {
    exists status :: NewestDebt(debts, order, status) && Spells(status, "settled")
  }

  // What a release needs of the rest of the platform.
  ghost predicate Releasable(t: Tables, order: string) {
    && order in t.orders
    && !OpenDispute(t, order)
    && var o := t.orders[order];
    && !o.escrowReleased
    && (o.disputeStatus == "NONE" || o.disputeStatus == "" || Spells(o.disputeStatus, "resolved"))
    && (Spells(o.status, "delivered") || Spells(o.status, "completed"))
    && (Spells(o.gateway, "cod") ==> SettledDebt(t.codDebts, order))
    && (!Spells(o.gateway, "cod") ==> o.paymentStatus == "" || Spells(o.paymentStatus, "paid"))
  }

  lemma {:induction false} OpenDisputeIsFound(t: Tables, order: string)
    ensures HasOpenDispute(t.disputes, order) <==> OpenDispute(t, order)
  {
    if HasOpenDispute(t.disputes, order) {
      var k :| 0 <= k < |t.disputes| && t.disputes[k].order == order && t.disputes[k].status in OPEN_DISPUTE_STATUSES;
      assert t.disputes[k] in t.disputes;
    }
  }

  lemma {:induction false} GatePassesExactly(t: Tables, i: nat, now: int)
    requires i < |t.holds|
    ensures Gate(t, i, now) == Pass <==> Releasable(t, t.holds[i].order)
  {
    var order := t.holds[i].order;
    LatestDebtIsNewest(t.codDebts, order);
    OpenDisputeIsFound(t, order);
    if order in t.orders {
      WordsFold(t.orders[order].status);
      WordsFold(t.orders[order].gateway);
      WordsFold(t.orders[order].paymentStatus);
      WordsFold(t.orders[order].disputeStatus);
    }
    match LatestDebt(t.codDebts, order)
    case None =>
    case Some(status) =>
      WordsFold(status);
      assert NewestDebt(t.codDebts, order, status);
  }

  // What the verdict of a failed check is: the claim is given up without an error for an order that
  // is unknown or already released, and with one for a COD order whose only fault is that after 72
  // hours it still has no debt record. In every other case the hold is put back.
  lemma {:induction false} GateGivesUpExactly(t: Tables, i: nat, now: int)
    requires i < |t.holds|
    ensures var h := t.holds[i];
      && (Gate(t, i, now) == GiveUp(false) <==> h.order !in t.orders || t.orders[h.order].escrowReleased)
      && (Gate(t, i, now) == GiveUp(true) <==>
            && h.order in t.orders && Spells(t.orders[h.order].gateway, "cod")
            && (forall d :: d in t.codDebts ==> d.order != h.order) && now - h.createdAt > 259200
            && Releasable(t.(codDebts := [CodDebt(h.order, "settled")]), h.order))
  {
    var order := t.holds[i].order;
    var settled := t.(codDebts := [CodDebt(order, "settled")]);
    GatePassesExactly(settled, i, now);
    OpenDisputeIsFound(t, order);
    NoDebtExactly(t.codDebts, order);
    if order in t.orders {
      WordsFold(t.orders[order].gateway);
    }
  }

  lemma {:induction false} NoDebtExactly(debts: seq<CodDebt>, order: string)
    ensures LatestDebt(debts, order).None? <==> forall d :: d in debts ==> d.order != order
  {
    if debts != [] {
      NoDebtExactly(debts[..|debts| - 1], order);
      assert debts == debts[..|debts| - 1] + [debts[|debts| - 1]];
    }
  }

  // So an order that is not delivered or completed, in whatever case, never passes the gates.
  lemma {:induction false} UndeliveredNeverPasses(t: Tables, i: nat, now: int)
    requires i < |t.holds| && t.holds[i].order in t.orders
    requires !Spells(t.orders[t.holds[i].order].status, "delivered") && !Spells(t.orders[t.holds[i].order].status, "completed")
    ensures Gate(t, i, now) != Pass
  {
    GatePassesExactly(t, i, now);
  }

  // Nor does one paid by other means than COD whose payment has a status that is not paid, or a COD
  // order whose newest debt is not settled.
  lemma {:induction false} UnpaidNeverPasses(t: Tables, i: nat, now: int)
    requires i < |t.holds| && t.holds[i].order in t.orders
    ensures var o := t.orders[t.holds[i].order];
      && (!Spells(o.gateway, "cod") && o.paymentStatus != "" && !Spells(o.paymentStatus, "paid") ==> Gate(t, i, now) != Pass)
      && (Spells(o.gateway, "cod") && !SettledDebt(t.codDebts, t.holds[i].order) ==> Gate(t, i, now) != Pass)
  {
    GatePassesExactly(t, i, now);
  }

  lemma {:induction false} OneLetter(c: char, d: char, e: char)
    requires 'a' <= d <= 'z' && 'a' <= e <= 'z' && SameLetter(c, d) && SameLetter(c, e)
    ensures d == e
  {
  }

  lemma {:induction false} CancelledIsNeither(s: string)
    requires Spells(s, "cancelled")
    ensures !Spells(s, "delivered") && !Spells(s, "completed")
  {
    var cancelled, delivered, completed := "cancelled", "delivered", "completed";
    if Spells(s, delivered) {
      OneLetter(s[0], cancelled[0], delivered[0]);
      assert false;
    }
    if Spells(s, completed) {
      OneLetter(s[1], cancelled[1], completed[1]);
      assert false;
    }
  }

  // A cancelled order is not a delivered one, although the words have the same length.
  lemma {:induction false} CancelledNeverPasses(t: Tables, i: nat, now: int)
    requires i < |t.holds| && t.holds[i].order in t.orders && Spells(t.orders[t.holds[i].order].status, "cancelled")
    ensures Gate(t, i, now) != Pass
  {
    CancelledIsNeither(t.orders[t.holds[i].order].status);
    UndeliveredNeverPasses(t, i, now);
  }

  // Every run of processHoldTx on a held hold either releases it, and then the order was
  // deliverable, paid or settled and free of disputes, or leaves holds, orders and wallets alone.
  lemma {:induction false} NoReleaseWhileBlocked(t: Tables, i: nat, now: int, crash: CrashPoint, tbOn: bool)
    requires i < |t.holds| && t.holds[i].status == Held
    ensures var t' := ProcessHold(t, i, now, crash, tbOn);
      if t'.holds[i].status == Released
      then Releasable(t, t.holds[i].order) && t'.holds == SetStatus(t.holds, i, Released)
      else t' == t.(ledger := t'.ledger) && (crash == NoCrash ==> t' == t)
  {
    GatePassesExactly(t, i, now);
  }

  // The 72-hour rule never releases: a COD hold without a debt record is blocked at any age.
  lemma {:induction false} StaleCodHoldIsNeverReleased(t: Tables, i: nat, now: int, crash: CrashPoint, tbOn: bool)
    requires i < |t.holds| && t.holds[i].order in t.orders && Spells(t.orders[t.holds[i].order].gateway, "cod")
    requires forall d :: d in t.codDebts ==> d.order != t.holds[i].order
    ensures ProcessHold(t, i, now, crash, tbOn) == t
  {
    GatePassesExactly(t, i, now);
    forall k | 0 <= k < |t.codDebts| ensures t.codDebts[k].order != t.holds[i].order {
      assert t.codDebts[k] in t.codDebts;
    }
  }
}
