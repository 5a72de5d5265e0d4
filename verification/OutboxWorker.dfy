// The relay worker itself, and the proof that a batch it processes is a run of the
// transition system of module Outbox.
module OutboxWorker {
  import opened Ledger
  import opened Outbox

  // ----- TigerBeetle behind its client -----

  function StatusOfCreate(tb: Tb, t: TbTransfer, accept: bool): TransferStatus {
    if t in tb.applied then TransferExists
    else if CreateOne(tb, t, accept) == tb then TransferRejected
    else TransferCreated
  }

  ghost function Statuses(tb: Tb, ts: seq<TbTransfer>, accept: nat -> bool): (results: seq<TransferStatus>)
    ensures |results| == |ts|
  {
    if ts == [] then []
    else
      var n := |ts| - 1;
      Statuses(tb, ts[..n], accept) + [StatusOfCreate(CreateAll(tb, ts[..n], accept), ts[n], accept(n))]
  }

  class TigerBeetle {
    var applied: seq<TbTransfer>
    var debits: map<Account, int>
    var credits: map<Account, int>

    function State(): Tb
      reads this
    {
      Tb(applied, debits, credits)
    }

    constructor ()
      ensures State() == EMPTY_TB
    {
      applied, debits, credits := [], map[], map[];
    }

    // The client's batch call: one status per transfer.
    method Submit(ts: seq<TbTransfer>, accept: nat -> bool) returns (results: seq<TransferStatus>)
      modifies this
      ensures State() == CreateAll(old(State()), ts, accept)
      ensures results == Statuses(old(State()), ts, accept)
    {
      results := [];
      ghost var before := State();
      for i := 0 to |ts|
        invariant State() == CreateAll(before, ts[..i], accept)
        invariant results == Statuses(before, ts[..i], accept)
      {
        results := results + [StatusOfCreate(State(), ts[i], accept(i))];
        var after := CreateOne(State(), ts[i], accept(i));
        applied, debits, credits := after.applied, after.debits, after.credits;
        assert ts[..i + 1][..i] == ts[..i];
      }
      assert ts[..|ts|] == ts;
    }
  }

  lemma {:induction false} AppliedGrows(tb: Tb, ts: seq<TbTransfer>, accept: nat -> bool, t: TbTransfer)
    requires t in tb.applied
    ensures t in CreateAll(tb, ts, accept).applied
  {
    if ts != [] {
      AppliedGrows(tb, ts[..|ts| - 1], accept, t);
    }
  }

  // If no transfer of the batch was refused, all of them are there.
  lemma {:induction false} NoRefusalMeansAllPresent(tb: Tb, ts: seq<TbTransfer>, accept: nat -> bool)
    requires TransferRejected !in Statuses(tb, ts, accept)
    ensures AllPresent(CreateAll(tb, ts, accept), ts)
  {
    if ts != [] {
      var n := |ts| - 1;
      var mid := CreateAll(tb, ts[..n], accept);
      NoRefusalMeansAllPresent(tb, ts[..n], accept);
      assert StatusOfCreate(mid, ts[n], accept(n)) in Statuses(tb, ts, accept);
      assert ts == ts[..n] + [ts[n]];
    }
  }

  // TBService.CreateTransfers: a lost reply is an error even if everything was applied.
  method CreateTransfers(tb: TigerBeetle, ts: seq<TbTransfer>, accept: nat -> bool, replyLost: bool) returns (ok: bool)
    modifies tb
    ensures tb.State() == CreateAll(old(tb.State()), ts, accept)
    ensures ok <==> !replyLost && TransferRejected !in Statuses(old(tb.State()), ts, accept)
    ensures ok ==> AllPresent(tb.State(), ts)
  {
    ghost var before := tb.State();
    var results := tb.Submit(ts, accept);
    if replyLost {
      return false;
    }
    for i := 0 to |results|
      invariant forall j :: 0 <= j < i ==> results[j] != TransferRejected
    {
      if results[i] == TransferRejected {
        return false;
      }
    }
    NoRefusalMeansAllPresent(before, ts, accept);
    ok := true;
  }

  // ----- The worker -----

  // What the world does to one entry: whether its payload can be decoded, which transfers
  // TigerBeetle takes, whether its reply is lost, and whether the update of the row's status is lost.
  datatype Fate = Fate(decodes: bool, accept: nat -> bool, replyLost: bool, markLost: bool)

  // The whole system as this worker's transition system sees it.
  ghost function View(ledger: LedgerService, tb: TigerBeetle, worker: Worker): Sys
    reads ledger, tb
  {
    Sys(ledger.State(), tb.State(), [worker])
  }

  // A payload that cannot be decoded changes TigerBeetle as one whose transfers are all refused.
  function Accepted(fate: Fate): nat -> bool {
    if fate.decodes then fate.accept else (_: nat) => false
  }

  lemma {:induction false} NothingAccepted(tb: Tb, ts: seq<TbTransfer>, fate: Fate)
    requires !fate.decodes
    ensures CreateAll(tb, ts, Accepted(fate)) == tb
  {
    if ts != [] {
      NothingAccepted(tb, ts[..|ts| - 1], fate);
    }
  }

  // The program of one entry: a relay, then the mark its outcome calls for unless the mark is lost.
  ghost predicate RelayThenMark(relay: Step, mark: Step, fate: Fate) {
    && relay.Relay? && relay.w == 0 && relay.accept == Accepted(fate)
    && (!fate.decodes || fate.replyLost ==> !relay.ok)
    && mark == if fate.markLost then LoseMark(0) else if relay.ok then MarkCompleted(0) else MarkFailed(0)
  }

  // A relay and a mark for each of n entries, in order.
  ghost predicate RelaysAndMarks(steps: seq<Step>, n: nat, fates: nat -> Fate) {
    && |steps| == 2 * n
    && forall k :: 0 <= k < n ==> RelayThenMark(steps[2 * k], steps[2 * k + 1], fates(k))
  }

  // The program of one round: fetch, then relay and mark each fetched row in order.
  ghost predicate RoundOf(steps: seq<Step>, rows: seq<nat>, fates: nat -> Fate) {
    steps != [] && steps[0] == Fetch(0, rows) && RelaysAndMarks(steps[1..], |rows|, fates)
  }

  lemma {:induction false} OneMoreEntry(
      s0: Sys, s1: Sys, s2: Sys, steps: seq<Step>, n: nat, fates: nat -> Fate, relay: Step, mark: Step)
    requires Exec(s0, steps) == s1 && Exec(s1, [relay] + [mark]) == s2
    requires RelaysAndMarks(steps, n, fates) && RelayThenMark(relay, mark, fates(n))
    ensures Exec(s0, steps + ([relay] + [mark])) == s2 && RelaysAndMarks(steps + ([relay] + [mark]), n + 1, fates)
  {
    ExecAppend(s0, steps, [relay] + [mark]);
    var longer := steps + ([relay] + [mark]);
    forall k | 0 <= k < n + 1 ensures RelayThenMark(longer[2 * k], longer[2 * k + 1], fates(k)) {
      if k < n {
        assert longer[2 * k] == steps[2 * k] && longer[2 * k + 1] == steps[2 * k + 1];
      }
    }
  }

  lemma {:induction false} FetchStep(s: Sys, rows: seq<nat>)
    requires s.workers == [IDLE] && Fetchable(s.db.outbox, rows)
    ensures Enabled(s, Fetch(0, rows))
    ensures Next(s, Fetch(0, rows)) == s.(workers := [Worker(FetchBatch(s.db.outbox, rows), Ready)])
  {
  }

  lemma {:induction false} RoundIsARun(s: Sys, s': Sys, rows: seq<nat>, tail: seq<Step>, fates: nat -> Fate)
    requires s.workers == [IDLE] && Fetchable(s.db.outbox, rows) && RelaysAndMarks(tail, |rows|, fates)
    requires Exec(s.(workers := [Worker(FetchBatch(s.db.outbox, rows), Ready)]), tail) == s'
    ensures RoundOf([Fetch(0, rows)] + tail, rows, fates) && Exec(s, [Fetch(0, rows)] + tail) == s'
  {
    FetchStep(s, rows);
    ExecFirst(s, Fetch(0, rows), tail);
    assert ([Fetch(0, rows)] + tail)[1..] == tail;
  }

  // rows are exactly the pending rows below i that are not in skip.
  ghost predicate Scanned(outbox: seq<OutboxRow>, skip: set<nat>, rows: seq<nat>, i: nat) {
    && Fetchable(outbox, rows)
    && (forall k :: 0 <= k < |rows| ==> rows[k] < i && rows[k] !in skip)
    && forall r: nat :: r < i && r < |outbox| && outbox[r].status == Pending && r !in skip ==> r in rows
  }

  lemma {:induction false} ScanTakes(outbox: seq<OutboxRow>, skip: set<nat>, rows: seq<nat>, i: nat)
    requires Scanned(outbox, skip, rows, i) && |rows| < BATCH_SIZE
    requires i < |outbox| && outbox[i].status == Pending && i !in skip
    ensures Scanned(outbox, skip, rows + [i], i + 1)
    ensures FetchBatch(outbox, rows + [i]) == FetchBatch(outbox, rows) + [FetchRow(outbox, i)]
  {
    assert (rows + [i])[..|rows|] == rows;
  }

  // The oldest pending rows that no other query has locked, up to the batch size.
  ghost predicate OldestPending(outbox: seq<OutboxRow>, skip: set<nat>, rows: seq<nat>) {
    && Fetchable(outbox, rows)
    && (forall i :: 0 <= i < |rows| ==> rows[i] !in skip)
    && forall r: nat :: r < |outbox| && outbox[r].status == Pending && r !in skip ==>
         r in rows || (|rows| == BATCH_SIZE && forall i :: 0 <= i < |rows| ==> rows[i] < r)
  }

  lemma {:induction false} ScanSkips(outbox: seq<OutboxRow>, skip: set<nat>, rows: seq<nat>, i: nat)
    requires Scanned(outbox, skip, rows, i) && i < |outbox| && !(outbox[i].status == Pending && i !in skip)
    ensures Scanned(outbox, skip, rows, i + 1)
  {
  }

  lemma {:induction false} ScanIsOver(outbox: seq<OutboxRow>, skip: set<nat>, rows: seq<nat>, i: nat)
    requires Scanned(outbox, skip, rows, i) && (i >= |outbox| || |rows| == BATCH_SIZE)
    ensures OldestPending(outbox, skip, rows)
  {
  }

  ghost function RowsOf(entries: seq<Fetched>): seq<nat> {
    seq(|entries|, i requires 0 <= i < |entries| => entries[i].row)
  }

  lemma {:induction false} BatchFromRows(outbox: seq<OutboxRow>, entries: seq<Fetched>, rows: seq<nat>)
    requires Fetchable(outbox, rows) && entries == FetchBatch(outbox, rows)
    ensures RowsOf(entries) == rows
  {
  }

  class TBOutboxWorker {
    const ledger: LedgerService
    const tb: TigerBeetle

    constructor (ledger: LedgerService, tb: TigerBeetle)
      ensures this.ledger == ledger && this.tb == tb
    {
      this.ledger, this.tb := ledger, tb;
    }

    // Rows in skip are locked by another query at this moment.
    method FetchPendingTBOutbox(skip: set<nat>) returns (entries: seq<Fetched>)
      ensures OldestPending(ledger.outbox, skip, RowsOf(entries)) && entries == FetchBatch(ledger.outbox, RowsOf(entries))
      ensures |entries| <= 50
      ensures |entries| < 50 ==> forall r: nat :: r < |ledger.outbox| && ledger.outbox[r].status == Pending && r !in skip ==> r in RowsOf(entries)
    {
      var outbox := ledger.outbox;
      entries := [];
      ghost var rows: seq<nat> := [];
      var i := 0;
      while i < |outbox| && |entries| < BATCH_SIZE
        invariant i <= |outbox| && |rows| == |entries|
        invariant Scanned(outbox, skip, rows, i)
        invariant entries == FetchBatch(outbox, rows)
      {
        if outbox[i].status == Pending && i !in skip {
          ScanTakes(outbox, skip, rows, i);
          entries := entries + [FetchRow(outbox, i)];
          rows := rows + [i];
        } else {
          ScanSkips(outbox, skip, rows, i);
        }
        i := i + 1;
      }
      ScanIsOver(outbox, skip, rows, i);
      BatchFromRows(outbox, entries, rows);
    }

    method MarkTBOutboxCompleted(id: nat)
      requires id < |ledger.outbox|
      modifies ledger
      ensures ledger.State() == old(ledger.State()).(outbox := old(ledger.outbox)[id := CompletedRow(old(ledger.outbox)[id])])
    {
      ledger.outbox := ledger.outbox[id := CompletedRow(ledger.outbox[id])];
    }

    method MarkTBOutboxFailed(id: nat, maxRetries: nat)
      requires id < |ledger.outbox|
      modifies ledger
      ensures ledger.State() == old(ledger.State()).(outbox := old(ledger.outbox)[id := FailedRow(old(ledger.outbox)[id], maxRetries)])
    {
      ledger.outbox := ledger.outbox[id := FailedRow(ledger.outbox[id], maxRetries)];
    }

    // Relays the head of the queue and marks its row: two steps of the transition system.
    method ProcessEntry(entry: Fetched, ghost rest: seq<Fetched>, fate: Fate)
      returns (ghost relay: Step, ghost mark: Step)
      requires entry.row < |ledger.outbox|
      modifies ledger, tb
      ensures |ledger.outbox| == old(|ledger.outbox|)
      ensures RelayThenMark(relay, mark, fate)
      ensures relay.ok <==> fate.decodes && !fate.replyLost && TransferRejected !in Statuses(old(tb.State()), entry.payload, fate.accept)
      ensures Exec(old(View(ledger, tb, Worker([entry] + rest, Ready))), [relay] + [mark]) == View(ledger, tb, Worker(rest, Ready))
    {
      ghost var s0 := View(ledger, tb, Worker([entry] + rest, Ready));
      assert s0.workers[0].queue[0] == entry && s0.workers[0].queue[1..] == rest;
      var ok := false;
      if fate.decodes {
        ok := CreateTransfers(tb, entry.payload, fate.accept, fate.replyLost);
      } else {
        NothingAccepted(tb.State(), entry.payload, fate);
      }
      relay := Relay(0, Accepted(fate), ok);
      ghost var s1 := View(ledger, tb, Worker([entry] + rest, Relayed(ok)));
      assert Enabled(s0, relay) && Next(s0, relay) == s1;
      if fate.markLost {
        mark := LoseMark(0);
      } else if ok {
        MarkTBOutboxCompleted(entry.row);
        mark := MarkCompleted(0);
      } else {
        MarkTBOutboxFailed(entry.row, entry.maxRetries);
        mark := MarkFailed(0);
      }
      assert Enabled(s1, mark) && Next(s1, mark) == View(ledger, tb, Worker(rest, Ready));
      ghost var none: seq<Step> := [];
      ExecOneMore(s0, none, relay);
      assert none + [relay] == [relay];
      ExecOneMore(s0, [relay], mark);
    }

    // The loop over the fetched entries.
    method ProcessEntries(entries: seq<Fetched>, fates: nat -> Fate) returns (ghost steps: seq<Step>)
      requires ledger as object != tb
      requires forall k :: 0 <= k < |entries| ==> entries[k].row < |ledger.outbox|
      modifies ledger, tb
      ensures RelaysAndMarks(steps, |entries|, fates)
      ensures Exec(old(View(ledger, tb, Worker(entries, Ready))), steps) == View(ledger, tb, IDLE)
    {
      ghost var s0 := View(ledger, tb, Worker(entries, Ready));
      steps := [];
      assert entries[0..] == entries;
      for i := 0 to |entries|
        invariant forall k :: 0 <= k < |entries| ==> entries[k].row < |ledger.outbox|
        invariant RelaysAndMarks(steps, i, fates)
        invariant Exec(s0, steps) == View(ledger, tb, Worker(entries[i..], Ready))
      {
        ghost var s1 := View(ledger, tb, Worker(entries[i..], Ready));
        assert entries[i..] == [entries[i]] + entries[i + 1..];
        ghost var relay, mark := ProcessEntry(entries[i], entries[i + 1..], fates(i));
        OneMoreEntry(s0, s1, View(ledger, tb, Worker(entries[i + 1..], Ready)), steps, i, fates, relay, mark);
        steps := steps + ([relay] + [mark]);
      }
    }

    // One polling round is a run of the transition system that starts and ends idle.
    method ProcessBatch(skip: set<nat>, fates: nat -> Fate)
      returns (ghost rows: seq<nat>, ghost steps: seq<Step>)
      requires ledger as object != tb
      modifies ledger, tb
      ensures OldestPending(old(ledger.outbox), skip, rows) && RoundOf(steps, rows, fates)
      ensures Exec(old(View(ledger, tb, IDLE)), steps) == View(ledger, tb, IDLE)
    {
      ghost var s0 := View(ledger, tb, IDLE);
      var entries := FetchPendingTBOutbox(skip);
      rows := RowsOf(entries);
      ghost var tail := ProcessEntries(entries, fates);
      RoundIsARun(s0, View(ledger, tb, IDLE), rows, tail, fates);
      steps := [Fetch(0, rows)] + tail;
    }
  }

  lemma {:induction false} ExecAppend(s: Sys, steps: seq<Step>, more: seq<Step>)
    ensures Exec(s, steps + more) == Exec(Exec(s, steps), more)
  {
    if more == [] {
      assert steps + more == steps;
    } else {
      var n := |more| - 1;
      assert (steps + more)[..|steps + more| - 1] == steps + more[..n];
      ExecAppend(s, steps, more[..n]);
    }
  }
}
