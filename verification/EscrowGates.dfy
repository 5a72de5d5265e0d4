// The release gates over whole runs. Checking them, paying in the ledger and committing are three
// steps, so what they promise is about the moment of the check.
module EscrowGates {
  import opened Escrow
  import opened EscrowProtocol
  import opened EscrowInvariant
  import opened EscrowTheorems

  // ----- Every release was checked -----

  // The worker has passed the gates with hold i.
  predicate Passed(worker: Worker, i: nat) {
    worker == Cleared(i) || worker == Paid(i)
  }

  // Step j is a check of hold i by worker w, and the order may be released at that moment.
  ghost predicate CheckedAt(s: Sys, steps: seq<Step>, j: int, w: nat, i: nat) {
    && 0 <= j < |steps| && steps[j].Check? && steps[j].w == w
    && var before := Exec(s, steps[..j]);
    && w < |before.workers| && before.workers[w] == Claimed(i)
    && i < |before.t.holds| && Releasable(before.t, before.t.holds[i].order)
  }

  // Step k is the final commit of a release of hold i by worker w.
  ghost predicate FinishedAt(s: Sys, steps: seq<Step>, k: int, w: nat, i: nat) {
    && 0 <= k < |steps| && steps[k] == Finish(w)
    && var before := Exec(s, steps[..k]);
    && w < |before.workers| && before.workers[w] == Paid(i) && i < |before.t.holds|
  }

  // From step j on, until k, the worker is past the gates with the hold.
  ghost predicate PassedFrom(s: Sys, steps: seq<Step>, j: int, k: int, w: nat, i: nat) {
    0 <= j && k <= |steps| && forall m :: j < m <= k ==>
      w < |Exec(s, steps[..m]).workers| && Passed(Exec(s, steps[..m]).workers[w], i)
  }

  ghost predicate CheckedAttempt(s: Sys, steps: seq<Step>, j: int, w: nat, i: nat) {
    CheckedAt(s, steps, j, w, i) && PassedFrom(s, steps, j, |steps|, w, i)
  }

  lemma {:induction false} PrefixOfPrefix(steps: seq<Step>, n: nat, j: nat)
    requires j <= n <= |steps|
    ensures steps[..n][..j] == steps[..j]
  {
  }

  lemma {:induction false} PassedStep(s: Sys, step: Step, w: nat, i: nat)
    requires Enabled(s, step)
    ensures |Next(s, step).workers| == |s.workers|
    ensures w < |s.workers| && Passed(Next(s, step).workers[w], i) ==>
      Passed(s.workers[w], i)
      || (step.Check? && step.w == w && s.workers[w] == Claimed(i) && i < |s.t.holds| && Gate(s.t, i, step.now) == Pass)
  {
  }

  lemma {:induction false} AttemptGoesOn(s: Sys, steps: seq<Step>, j: int, w: nat, i: nat)
    requires steps != [] && CheckedAttempt(s, steps[..|steps| - 1], j, w, i)
    requires w < |Exec(s, steps).workers| && Passed(Exec(s, steps).workers[w], i)
    ensures CheckedAttempt(s, steps, j, w, i)
  {
    var n := |steps| - 1;
    PrefixOfPrefix(steps, n, j);
    assert steps[..|steps|] == steps;
    forall m | j < m <= |steps| ensures w < |Exec(s, steps[..m]).workers| && Passed(Exec(s, steps[..m]).workers[w], i) {
      if m <= n {
        PrefixOfPrefix(steps, n, m);
      }
    }
  }

  // A worker that is past the gates has passed them in a step of the run, and kept its hold since.
  lemma {:induction false} PassedWasChecked(s: Sys, steps: seq<Step>, w: nat, i: nat)
    requires w < |s.workers| && !Passed(s.workers[w], i)
    ensures |Exec(s, steps).workers| == |s.workers|
    ensures Passed(Exec(s, steps).workers[w], i) ==> exists j :: CheckedAttempt(s, steps, j, w, i)
  {
    if steps != [] {
      var n := |steps| - 1;
      var mid := Exec(s, steps[..n]);
      PassedWasChecked(s, steps[..n], w, i);
      if Enabled(mid, steps[n]) {
        PassedStep(mid, steps[n], w, i);
      }
      if Passed(Exec(s, steps).workers[w], i) {
        if Passed(mid.workers[w], i) {
          var j :| CheckedAttempt(s, steps[..n], j, w, i);
          AttemptGoesOn(s, steps, j, w, i);
        } else {
          GatePassesExactly(mid.t, i, steps[n].now);
          assert steps[..|steps|] == steps;
          assert CheckedAttempt(s, steps, n, w, i);
        }
      }
    }
  }

  lemma {:induction false} CreditedByFinish(s: Sys, step: Step, i: nat)
    requires Enabled(s, step) && VendorCredits(Next(s, step).log, i) > 0 && VendorCredits(s.log, i) == 0
    ensures step.Finish? && s.workers[step.w] == Paid(i)
  {
    if step.Finish? || step.CommitRefund? || step.AdminRefund? {
      var c := Next(s, step).log[|s.log|];
      VendorCreditsAfter(s.log, c, i);
    }
  }

  ghost predicate ReleasedBy(s: Sys, steps: seq<Step>, i: nat, w: nat, j: int, k: int) {
    j < k && CheckedAt(s, steps, j, w, i) && PassedFrom(s, steps, j, k, w, i) && FinishedAt(s, steps, k, w, i)
  }

  lemma {:induction false} ReleasedByPrefix(s: Sys, steps: seq<Step>, n: nat, i: nat, w: nat, j: int, k: int)
    requires n <= |steps| && ReleasedBy(s, steps[..n], i, w, j, k)
    ensures ReleasedBy(s, steps, i, w, j, k)
  {
    PrefixOfPrefix(steps, n, j);
    PrefixOfPrefix(steps, n, k);
    PassedPrefix(s, steps, n, j, k, w, i);
  }

  lemma {:induction false} PassedPrefix(s: Sys, steps: seq<Step>, n: nat, j: int, k: int, w: nat, i: nat)
    requires n <= |steps| && PassedFrom(s, steps[..n], j, k, w, i)
    ensures PassedFrom(s, steps, j, k, w, i)
  {
    forall m | j < m <= k ensures w < |Exec(s, steps[..m]).workers| && Passed(Exec(s, steps[..m]).workers[w], i) {
      PrefixOfPrefix(steps, n, m);
    }
  }

  // Whatever is interleaved, a vendor is credited for a hold, and so a hold is released, only by a
  // worker that checked it earlier in the run and kept it since; at that check the order was delivered, its payment
  // confirmed or its debt settled, and no dispute was open.
  lemma {:induction false} EveryReleaseWasChecked(s0: Sys, steps: seq<Step>, i: nat)
    requires Initial(s0)
    ensures VendorCredits(Exec(s0, steps).log, i) > 0 ==> exists w, j, k :: ReleasedBy(s0, steps, i, w, j, k)
    ensures i < |Exec(s0, steps).t.holds| && Exec(s0, steps).t.holds[i].status == Released ==>
      exists w, j, k :: ReleasedBy(s0, steps, i, w, j, k)
  {
    InitialInv(s0);
    RunKeepsInv(s0, steps);
    var s := Exec(s0, steps);
    assert i < |s.t.holds| ==> CreditOk(s.t.holds[i].status, VendorCredits(s.log, i), CustomerCredits(s.log, i));
    if VendorCredits(s.log, i) > 0 {
      CreditWasChecked(s0, steps, i);
    }
  }

  lemma {:induction false} CreditWasChecked(s0: Sys, steps: seq<Step>, i: nat)
    requires Initial(s0) && VendorCredits(Exec(s0, steps).log, i) > 0
    ensures exists w, j, k :: ReleasedBy(s0, steps, i, w, j, k)
  {
    var n := |steps| - 1;
    var mid := Exec(s0, steps[..n]);
    if VendorCredits(mid.log, i) > 0 {
      CreditWasChecked(s0, steps[..n], i);
      var w, j, k :| ReleasedBy(s0, steps[..n], i, w, j, k);
      ReleasedByPrefix(s0, steps, n, i, w, j, k);
    } else {
      CreditedByFinish(mid, steps[n], i);
      FinishWasChecked(s0, steps, i, steps[n].w);
    }
  }

  lemma {:induction false} FinishWasChecked(s0: Sys, steps: seq<Step>, i: nat, w: nat)
    requires Initial(s0) && steps != [] && steps[|steps| - 1] == Finish(w)
    requires var mid := Exec(s0, steps[..|steps| - 1]); Enabled(mid, Finish(w)) && mid.workers[w] == Paid(i)
    ensures exists j, k :: ReleasedBy(s0, steps, i, w, j, k)
  {
    var n := |steps| - 1;
    SameWorkers(s0, steps[..n]);
    PassedWasChecked(s0, steps[..n], w, i);
    var j :| CheckedAttempt(s0, steps[..n], j, w, i);
    PrefixOfPrefix(steps, n, j);
    PassedPrefix(s0, steps, n, j, n, w, i);
    assert ReleasedBy(s0, steps, i, w, j, n);
  }

  lemma {:induction false} SameWorkers(s: Sys, steps: seq<Step>)
    ensures |Exec(s, steps).workers| == |s.workers|
  {
    if steps != [] {
      var n := |steps| - 1;
      SameWorkers(s, steps[..n]);
      if Enabled(Exec(s, steps[..n]), steps[n]) {
        PassedStep(Exec(s, steps[..n]), steps[n], 0, 0);
      }
    }
  }

  // ----- What happens between the check and the commit -----

  // The order of the hold that the worker has checked may still be released.
  ghost predicate StillOpen(s: Sys, w: nat) {
    w < |s.workers| && (s.workers[w].Cleared? || s.workers[w].Paid?) ==>
      s.workers[w].hold < |s.t.holds| && Releasable(s.t, s.t.holds[s.workers[w].hold].order)
  }

  ghost predicate SameGateInputs(t: Tables, t': Tables, order: string) {
    && (order in t'.orders <==> order in t.orders) && (order in t.orders ==> t'.orders[order] == t.orders[order])
    && t'.disputes == t.disputes
    && LatestDebt(t'.codDebts, order) == LatestDebt(t.codDebts, order)
  }

  lemma {:induction false} SameInputsSameGates(t: Tables, t': Tables, order: string)
    requires SameGateInputs(t, t', order)
    ensures Releasable(t', order) <==> Releasable(t, order)
  {
    LatestDebtIsNewest(t.codDebts, order);
    LatestDebtIsNewest(t'.codDebts, order);
    forall status ensures NewestDebt(t'.codDebts, order, status) <==> NewestDebt(t.codDebts, order, status) {
    }
    assert OpenDispute(t', order) <==> OpenDispute(t, order);
  }

  lemma {:induction false} OtherDebtsStay(debts: seq<CodDebt>, cancelled: string, order: string)
    requires order != cancelled
    ensures LatestDebt(CancelDebts(debts, cancelled), order) == LatestDebt(debts, order)
  {
    if debts != [] {
      var n := |debts| - 1;
      assert CancelDebts(debts, cancelled)[..n] == CancelDebts(debts[..n], cancelled);
      OtherDebtsStay(debts[..n], cancelled, order);
    }
  }

  lemma {:induction false} RefundLeavesOtherOrders(t: Tables, p: Plan, order: string)
    requires p.hold < |t.holds| && t.holds[p.hold].order != order
    ensures SameGateInputs(t, MarkRefunded(t, p), order)
  {
    OtherDebtsStay(t.codDebts, t.holds[p.hold].order, order);
  }

  // The row lock keeps refunds and releases of the hold away; others touch other orders.
  lemma {:induction false} LockedOrderStays(s: Sys, step: Step, w: nat)
    requires DistinctHolds(s.t.holds) && LocksOk(s) && Enabled(s, step) && !step.World?
    requires w < |s.workers| && !s.workers[w].Idle? && Next(s, step).workers[w] != Idle
    ensures SameGateInputs(s.t, Next(s, step).t, s.t.holds[s.workers[w].hold].order)
  {
    var i := s.workers[w].hold;
    assert Locks(s.workers[w], i);
    if step.CommitRefund? {
      RefundLeavesOtherOrders(s.t, s.refunders[step.r].p, s.t.holds[i].order);
    } else if step.Finish? {
      assert s.workers[step.w].hold != i;
    }
  }

  lemma {:induction false} OnlyWorldCloses(s: Sys, step: Step, w: nat)
    requires Inv(s) && Enabled(s, step) && !step.World? && StillOpen(s, w)
    ensures StillOpen(Next(s, step), w)
  {
    var s' := Next(s, step);
    PassedStep(s, step, w, if w < |s.workers| && !s'.workers[w].Idle? then s'.workers[w].hold else 0);
    StepKeepsRows(s, step);
    if w < |s.workers| && (s'.workers[w].Cleared? || s'.workers[w].Paid?) {
      var i := s'.workers[w].hold;
      assert Locks(s.workers[w], i);
      LockedOrderStays(s, step, w);
      SameInputsSameGates(s.t, s'.t, s.t.holds[i].order);
      if !Passed(s.workers[w], i) {
        GatePassesExactly(s.t, i, step.now);
      }
    }
  }

  // If the gates are closed for a worker that is past them, then the rest of the platform closed
  // them after its check: no release, refund, dispute freeze or ledger call ever does.
  lemma {:induction false} ClosedOnlyByTheWorld(s: Sys, steps: seq<Step>, w: nat)
    requires Inv(s) && StillOpen(s, w)
    ensures !StillOpen(Exec(s, steps), w) ==>
      exists m :: 0 <= m < |steps| && steps[m].World? && StillOpen(Exec(s, steps[..m]), w) && !StillOpen(Exec(s, steps[..m + 1]), w)
  {
    if steps != [] {
      var n := |steps| - 1;
      var mid := Exec(s, steps[..n]);
      ClosedOnlyByTheWorld(s, steps[..n], w);
      RunKeepsInv(s, steps[..n]);
      if !StillOpen(mid, w) {
        var m :| 0 <= m < n && steps[..n][m].World? && StillOpen(Exec(s, steps[..n][..m]), w) && !StillOpen(Exec(s, steps[..n][..m + 1]), w);
        PrefixOfPrefix(steps, n, m);
        PrefixOfPrefix(steps, n, m + 1);
        assert steps[m].World?;
      } else if !StillOpen(Exec(s, steps), w) {
        if !steps[n].World? {
          OnlyWorldCloses(mid, steps[n], w);
        }
        assert steps[..n + 1] == steps;
        assert steps[n].World?;
      }
    }
  }

  // So without such a change every release commits while the gates are open.
  lemma {:induction false} QuietReleaseIsOpen(s0: Sys, steps: seq<Step>, k: int, w: nat, i: nat)
    requires Initial(s0) && FinishedAt(s0, steps, k, w, i) && forall m :: 0 <= m < k ==> !steps[m].World?
    ensures var before := Exec(s0, steps[..k]); Releasable(before.t, before.t.holds[i].order)
  {
    InitialInv(s0);
    SameWorkers(s0, steps[..k]);
    ClosedOnlyByTheWorld(s0, steps[..k], w);
  }

  // A dispute that is opened after the check does not stop the release of any worker that has paid,
  // and the freeze that follows leaves the released hold alone.
  lemma {:induction false} DisputeAfterCheckIsReleased(s: Sys, w: nat, disputeId: string)
    requires Inv(s) && w < |s.workers| && s.workers[w].Paid?
    ensures var i := s.workers[w].hold;
      var order := s.t.holds[i].order;
      var dispute := World(s.t.orders, s.t.disputes + [Dispute(order, "open")], s.t.codDebts);
      && Enabled(s, dispute)
      && var s1 := Next(s, dispute);
      && Enabled(s1, Finish(w)) && !Releasable(s1.t, order)
      && var s2 := Next(s1, Finish(w));
      && s2.t.holds[i].status == Released && OpenDispute(s2.t, order) && Freeze(s2.t, order, disputeId).holds == s2.t.holds
  {
    var i := s.workers[w].hold;
    var order := s.t.holds[i].order;
    var disputes := s.t.disputes + [Dispute(order, "open")];
    assert disputes[|s.t.disputes|] == Dispute(order, "open");
    var holds := SetStatus(s.t.holds, i, Released);
    forall j | 0 <= j < |holds| ensures FreezeRow(holds[j], order, disputeId) == holds[j] {
    }
  }
}
