// How often an outbox row is retried: its count and its status over whole runs.
module OutboxRetries {
  import opened Ledger
  import opened LedgerLaws
  import opened Outbox

  // ----- What TigerBeetle does with a transfer -----

  // A transfer is applied exactly if it is accepted, its id is new and its accounts differ; then its
  // amount is added to what is posted on both sides, which starts from nothing.
  lemma {:induction false} AppliesExactly(tb: Tb, t: TbTransfer, accept: bool)
    ensures var tb' := CreateOne(tb, t, accept);
      var isNew := forall i :: 0 <= i < |tb.applied| ==> tb.applied[i].id != t.id;
      if accept && isNew && t.debitAccount != t.creditAccount then
        tb'.applied == tb.applied + [t]
        && Adds(tb.debits, tb'.debits, t.debitAccount, t.amount) && Adds(tb.credits, tb'.credits, t.creditAccount, t.amount)
      else tb' == tb
  {
  }

  ghost predicate Adds(m: map<Account, int>, m': map<Account, int>, a: Account, amount: int) {
    && a in m' && m'[a] == (if a in m then m[a] + amount else amount)
    && forall b :: b != a ==> (b in m' <==> b in m) && (b in m ==> m'[b] == m[b])
  }

  // ----- The marks of a row -----

  ghost predicate Fails(s: Sys, step: Step, row: nat) {
    step.MarkFailed? && Enabled(s, step) && s.workers[step.w].queue[0].row == row
  }

  ghost predicate Completes(s: Sys, step: Step, row: nat) {
    step.MarkCompleted? && Enabled(s, step) && s.workers[step.w].queue[0].row == row
  }

  ghost function FailedMarks(s: Sys, steps: seq<Step>, row: nat): nat {
    if steps == [] then 0
    else
      FailedMarks(s, steps[..|steps| - 1], row)
        + if Fails(Exec(s, steps[..|steps| - 1]), steps[|steps| - 1], row) then 1 else 0
  }

  datatype Mark = Unmarked | MarkedFailed | MarkedCompleted

  ghost function LastMark(s: Sys, steps: seq<Step>, row: nat): Mark {
    if steps == [] then Unmarked
    else
      var mid, last := Exec(s, steps[..|steps| - 1]), steps[|steps| - 1];
      if Fails(mid, last, row) then MarkedFailed
      else if Completes(mid, last, row) then MarkedCompleted
      else LastMark(s, steps[..|steps| - 1], row)
  }

  // ----- One step -----

  // Every row is retried up to ten times, and the workers know it.
  ghost predicate LimitsOk(s: Sys) {
    && (forall r :: 0 <= r < |s.db.outbox| ==> s.db.outbox[r].maxRetries == 10)
    && (forall w, i :: 0 <= w < |s.workers| && 0 <= i < |s.workers[w].queue| ==> s.workers[w].queue[i].maxRetries == 10)
  }

  lemma {:induction false} CallKeepsRows(db: Db, call: Call)
    requires Consistent(db)
    ensures var outbox := After(db, call, true).outbox;
      && |db.outbox| <= |outbox|
      && (forall r :: 0 <= r < |db.outbox| ==> outbox[r] == db.outbox[r])
      && forall r :: |db.outbox| <= r < |outbox| ==>
           outbox[r].status == Pending && outbox[r].retryCount == 0 && outbox[r].maxRetries == 10
  {
  }

  // What a step does to the row: one more failure, and FAILED from the tenth on; COMPLETED; or nothing.
  lemma {:induction false} RowStep(s: Sys, step: Step, row: nat)
    requires Consistent(s.db) && LimitsOk(s) && Enabled(s, step) && row < |s.db.outbox|
    ensures row < |Next(s, step).db.outbox|
    ensures var r, r' := s.db.outbox[row], Next(s, step).db.outbox[row];
      && (Fails(s, step, row) ==> r'.retryCount == r.retryCount + 1 && r'.status == if r.retryCount >= 9 then Failed else Pending)
      && (Completes(s, step, row) ==> r'.retryCount == r.retryCount && r'.status == OutboxStatus.Completed)
      && (!Fails(s, step, row) && !Completes(s, step, row) ==> r' == r)
      && r'.payload == r.payload && r'.transactionId == r.transactionId
  {
    if step.LedgerCall? {
      CallKeepsRows(s.db, step.call);
    }
  }

  lemma {:induction false} NewRow(s: Sys, step: Step, row: nat)
    requires Consistent(s.db) && Enabled(s, step) && |s.db.outbox| <= row < |Next(s, step).db.outbox|
    ensures var r := Next(s, step).db.outbox[row]; r.status == Pending && r.retryCount == 0
    ensures !Fails(s, step, row) && !Completes(s, step, row)
  {
    assert step.LedgerCall?;
    CallKeepsRows(s.db, step.call);
  }

  lemma {:induction false} StepKeepsLimits(s: Sys, step: Step)
    requires Consistent(s.db) && LimitsOk(s) && Enabled(s, step)
    ensures LimitsOk(Next(s, step))
  {
    if step.LedgerCall? {
      CallKeepsRows(s.db, step.call);
    }
  }

  lemma {:induction false} RunKeepsLimits(s0: Sys, steps: seq<Step>)
    requires Initial(s0)
    ensures Inv(Exec(s0, steps)) && LimitsOk(Exec(s0, steps))
  {
    InitialInv(s0);
    RunKeepsInv(s0, steps);
    if steps != [] {
      var n := |steps| - 1;
      RunKeepsLimits(s0, steps[..n]);
      if Enabled(Exec(s0, steps[..n]), steps[n]) {
        StepKeepsLimits(Exec(s0, steps[..n]), steps[n]);
      }
    }
  }

  // ----- Every run -----

  // A row nobody has stored yet has no marks.
  lemma {:induction false} UnmarkedBefore(s0: Sys, steps: seq<Step>, row: nat)
    requires Initial(s0) && row >= |Exec(s0, steps).db.outbox|
    ensures FailedMarks(s0, steps, row) == 0 && LastMark(s0, steps, row) == Unmarked
  {
    if steps != [] {
      var n := |steps| - 1;
      var mid := Exec(s0, steps[..n]);
      RunKeepsLimits(s0, steps[..n]);
      if Enabled(mid, steps[n]) {
        OutboxGrows(mid, steps[n]);
      }
      UnmarkedBefore(s0, steps[..n], row);
    }
  }

  lemma {:induction false} OutboxGrows(s: Sys, step: Step)
    requires Consistent(s.db) && Enabled(s, step)
    ensures |s.db.outbox| <= |Next(s, step).db.outbox|
  {
    if step.LedgerCall? {
      CallKeepsRows(s.db, step.call);
    }
  }

  // With any number of workers a row's count is the number of failed marks it has had. It is FAILED
  // exactly when its last mark was a failed one and it has had ten; COMPLETED exactly when its last
  // mark said so; and PENDING otherwise.
  lemma {:induction false} RetriesExactly(s0: Sys, steps: seq<Step>, row: nat)
    requires Initial(s0) && row < |Exec(s0, steps).db.outbox|
    ensures var r := Exec(s0, steps).db.outbox[row];
      && r.retryCount == FailedMarks(s0, steps, row)
      && (r.status == Failed <==> LastMark(s0, steps, row) == MarkedFailed && FailedMarks(s0, steps, row) >= 10)
      && (r.status == OutboxStatus.Completed <==> LastMark(s0, steps, row) == MarkedCompleted)
  {
    var n := |steps| - 1;
    var mid := Exec(s0, steps[..n]);
    RunKeepsLimits(s0, steps[..n]);
    if Enabled(mid, steps[n]) && row >= |mid.db.outbox| {
      NewRow(mid, steps[n], row);
      UnmarkedBefore(s0, steps[..n], row);
    } else {
      RetriesExactly(s0, steps[..n], row);
      if Enabled(mid, steps[n]) {
        RowStep(mid, steps[n], row);
      }
    }
  }

  // ----- A sole worker -----

  ghost predicate Queued(s: Sys, row: nat) {
    |s.workers| == 1 && exists i :: 0 <= i < |s.workers[0].queue| && s.workers[0].queue[i].row == row
  }

  ghost predicate Fetches(s: Sys, step: Step, row: nat) {
    step.Fetch? && Enabled(s, step) && row in step.rows
  }

  // The worker dies with the row in its queue, or the mark of the row is lost.
  ghost predicate Drops(s: Sys, step: Step, row: nat) {
    && Enabled(s, step)
    && ((step.Crash? && Queued(s, row)) || (step.LoseMark? && s.workers[step.w].queue[0].row == row))
  }

  // How often the row was fetched, marked as failed, marked as completed, and dropped.
  datatype Tally = Tally(fetched: nat, failed: nat, completed: nat, dropped: nat)

  ghost function TallyOf(s: Sys, steps: seq<Step>, row: nat): Tally {
    if steps == [] then Tally(0, 0, 0, 0)
    else
      var mid, last := Exec(s, steps[..|steps| - 1]), steps[|steps| - 1];
      var before := TallyOf(s, steps[..|steps| - 1], row);
      Tally(before.fetched + Bit(Fetches(mid, last, row)), before.failed + Bit(Fails(mid, last, row)),
            before.completed + Bit(Completes(mid, last, row)), before.dropped + Bit(Drops(mid, last, row)))
  }

  function Bit(b: bool): nat {
    if b then 1 else 0
  }

  // The worker's queue is ascending: a row is in it at most once, and leaves it with its mark.
  lemma {:induction false} QueueStep(s: Sys, step: Step, row: nat)
    requires HoldsPending(s) && Enabled(s, step)
    ensures Bit(Queued(Next(s, step), row)) + Bit(Fails(s, step, row)) + Bit(Completes(s, step, row)) + Bit(Drops(s, step, row))
      == Bit(Queued(s, row)) + Bit(Fetches(s, step, row))
  {
    var s' := Next(s, step);
    match step
    case LedgerCall(_) => assert s'.workers == s.workers;
    case Fetch(w, rows) => FetchQueues(s, rows, row);
    case Relay(_, _, _) => assert s'.workers[0].queue == s.workers[0].queue;
    case MarkCompleted(_) => HeadLeaves(s, Next(s, step), row);
    case MarkFailed(_) => HeadLeaves(s, Next(s, step), row);
    case LoseMark(_) => HeadLeaves(s, Next(s, step), row);
    case Crash(_) => assert s'.workers[0].queue == [];
  }

  lemma {:induction false} FetchQueues(s: Sys, rows: seq<nat>, row: nat)
    requires |s.workers| == 1 && Enabled(s, Fetch(0, rows))
    ensures !Queued(s, row) && (Queued(Next(s, Fetch(0, rows)), row) <==> row in rows)
  {
    var queue := Next(s, Fetch(0, rows)).workers[0].queue;
    if row in rows {
      var i :| 0 <= i < |rows| && rows[i] == row;
      assert queue[i].row == row;
    }
  }

  lemma {:induction false} HeadLeaves(s: Sys, s': Sys, row: nat)
    requires HoldsPending(s) && s.workers[0].queue != []
    requires |s'.workers| == 1 && s'.workers[0].queue == s.workers[0].queue[1..]
    ensures Bit(Queued(s', row)) + Bit(s.workers[0].queue[0].row == row) == Bit(Queued(s, row))
  {
    var q, q' := s.workers[0].queue, s'.workers[0].queue;
    assert forall i :: 0 <= i < |q'| ==> q'[i] == q[i + 1];
    if i :| 0 < i < |q| && q[i].row == row {
      assert q'[i - 1].row == row;
    }
  }

  // Every fetch of the row has ended in a mark or a drop, or the row is still queued.
  lemma {:induction false} FetchesAreAccounted(s0: Sys, steps: seq<Step>, row: nat)
    requires Initial(s0) && |s0.workers| == 1
    ensures var tally := TallyOf(s0, steps, row);
      tally.fetched == tally.failed + tally.completed + tally.dropped + Bit(Queued(Exec(s0, steps), row))
  {
    if steps != [] {
      var n := |steps| - 1;
      FetchesAreAccounted(s0, steps[..n], row);
      SoleAfter(s0, steps[..n]);
      if Enabled(Exec(s0, steps[..n]), steps[n]) {
        QueueStep(Exec(s0, steps[..n]), steps[n], row);
      }
    }
  }

  lemma {:induction false} SoleAfter(s0: Sys, steps: seq<Step>)
    requires Initial(s0) && |s0.workers| == 1
    ensures HoldsPending(Exec(s0, steps))
  {
    InitialInv(s0);
    SoleWorkerHoldsPending(s0, steps);
  }

  // How far a row has come: at most nine failures while it is pending, ten when it has failed.
  ghost predicate TallyFits(status: OutboxStatus, tally: Tally) {
    match status
    case Pending => tally.failed <= 9 && tally.completed == 0
    case Completed => tally.failed <= 9 && tally.completed == 1
    case Failed => tally.failed == 10 && tally.completed == 0
  }

  lemma {:induction false} NoTallyBefore(s0: Sys, steps: seq<Step>, row: nat)
    requires Initial(s0) && |s0.workers| == 1 && row >= |Exec(s0, steps).db.outbox|
    ensures TallyOf(s0, steps, row) == Tally(0, 0, 0, 0)
  {
    if steps != [] {
      var n := |steps| - 1;
      var mid := Exec(s0, steps[..n]);
      RunKeepsLimits(s0, steps[..n]);
      SoleAfter(s0, steps[..n]);
      if Enabled(mid, steps[n]) {
        OutboxGrows(mid, steps[n]);
      }
      NoTallyBefore(s0, steps[..n], row);
    }
  }

  lemma {:induction false} MarkedIsPending(s: Sys, step: Step, row: nat)
    requires HoldsPending(s) && row < |s.db.outbox| && (Fails(s, step, row) || Completes(s, step, row))
    ensures s.db.outbox[row].status == Pending
  {
  }

  lemma {:induction false} TallyOfRow(s0: Sys, steps: seq<Step>, row: nat)
    requires Initial(s0) && |s0.workers| == 1 && row < |Exec(s0, steps).db.outbox|
    ensures TallyFits(Exec(s0, steps).db.outbox[row].status, TallyOf(s0, steps, row))
    ensures TallyOf(s0, steps, row).failed == Exec(s0, steps).db.outbox[row].retryCount
  {
    var n := |steps| - 1;
    var mid := Exec(s0, steps[..n]);
    RunKeepsLimits(s0, steps[..n]);
    SoleAfter(s0, steps[..n]);
    if Enabled(mid, steps[n]) && row >= |mid.db.outbox| {
      NewRow(mid, steps[n], row);
      NoTallyBefore(s0, steps[..n], row);
    } else {
      TallyOfRow(s0, steps[..n], row);
      if Enabled(mid, steps[n]) {
        RowStep(mid, steps[n], row);
        if Fails(mid, steps[n], row) || Completes(mid, steps[n], row) {
          MarkedIsPending(mid, steps[n], row);
        }
      }
    }
  }

  // With a sole worker a row fails at most ten times and is completed at most once; it is FAILED
  // exactly when it has failed ten times. Apart from fetches dropped by a crash or a lost mark it is
  // fetched at most ten times.
  lemma {:induction false} SoleWorkerRetriesAtMostTen(s0: Sys, steps: seq<Step>, row: nat)
    requires Initial(s0) && |s0.workers| == 1
    ensures var tally := TallyOf(s0, steps, row);
      && tally.failed <= 10 && tally.completed <= 1
      && tally.fetched <= 10 + tally.dropped
      && (row < |Exec(s0, steps).db.outbox| ==> (Exec(s0, steps).db.outbox[row].status == Failed <==> tally.failed == 10))
  {
    var s := Exec(s0, steps);
    SoleAfter(s0, steps);
    FetchesAreAccounted(s0, steps, row);
    if row < |s.db.outbox| {
      TallyOfRow(s0, steps, row);
    } else {
      NoTallyBefore(s0, steps, row);
    }
  }
}
