// The TigerBeetle outbox: a second ledger, the relay worker that replays outbox rows into it,
// and the transition system of every interleaving of ledger calls, duplicate workers,
// partial applies, lost replies and crashes.
module Outbox {
  import opened Ledger
  import opened LedgerLaws

  const BATCH_SIZE: nat := 50

  // ----- TigerBeetle -----

  // The transfers applied so far and the posted debits and credits of each account.
  datatype Tb = Tb(applied: seq<TbTransfer>, debits: map<Account, int>, credits: map<Account, int>)

  const EMPTY_TB := Tb([], map[], map[])

  datatype TransferStatus = TransferCreated | TransferExists | TransferRejected

  function Posted(m: map<Account, int>, a: Account): int {
    if a in m then m[a] else 0
  }

  function TbBalance(tb: Tb, a: Account): int {
    Posted(tb.credits, a) - Posted(tb.debits, a)
  }

  predicate HasId(ts: seq<TbTransfer>, id: TransferId) {
    exists i :: 0 <= i < |ts| && ts[i].id == id
  }

  // Creating an existing id is a no-op; TigerBeetle may refuse a transfer and always refuses one
  // whose two accounts are the same.
  function CreateOne(tb: Tb, t: TbTransfer, accept: bool): Tb {
    if HasId(tb.applied, t.id) || !accept || t.debitAccount == t.creditAccount then tb
    else Tb(tb.applied + [t],
            tb.debits[t.debitAccount := Posted(tb.debits, t.debitAccount) + t.amount],
            tb.credits[t.creditAccount := Posted(tb.credits, t.creditAccount) + t.amount])
  }

  // Each transfer of a batch succeeds or fails on its own: none of them is linked.
  function CreateAll(tb: Tb, ts: seq<TbTransfer>, accept: nat -> bool): Tb {
    if ts == [] then tb
    else CreateOne(CreateAll(tb, ts[..|ts| - 1], accept), ts[|ts| - 1], accept(|ts| - 1))
  }

  predicate AllPresent(tb: Tb, ts: seq<TbTransfer>) {
    forall t :: t in ts ==> t in tb.applied
  }

  // ----- The transition system -----

  // A fetched row as the worker holds it: its id and the payload and limit read at fetch time.
  datatype Fetched = Fetched(row: nat, payload: seq<TbTransfer>, maxRetries: nat)

  datatype Stage = Ready | Relayed(ok: bool)

  // A worker relays the head of its queue, then marks it, then moves on.
  datatype Worker = Worker(queue: seq<Fetched>, stage: Stage)

  const IDLE := Worker([], Ready)

  datatype Sys = Sys(db: Db, tb: Tb, workers: seq<Worker>)

  datatype Step =
    | LedgerCall(call: Call)
    | Fetch(w: nat, rows: seq<nat>)
    | Relay(w: nat, accept: nat -> bool, ok: bool)
    | MarkCompleted(w: nat)
    | MarkFailed(w: nat)
    | LoseMark(w: nat)
    | Crash(w: nat)

  function FetchRow(outbox: seq<OutboxRow>, row: nat): Fetched
    requires row < |outbox|
  {
    Fetched(row, outbox[row].payload, outbox[row].maxRetries)
  }

  function FetchBatch(outbox: seq<OutboxRow>, rows: seq<nat>): (batch: seq<Fetched>)
    requires forall i :: 0 <= i < |rows| ==> rows[i] < |outbox|
    ensures |batch| == |rows| && forall i :: 0 <= i < |rows| ==> batch[i] == FetchRow(outbox, rows[i])
  {
    if rows == [] then [] else FetchBatch(outbox, rows[..|rows| - 1]) + [FetchRow(outbox, rows[|rows| - 1])]
  }

  // Up to BATCH_SIZE pending rows in order; SKIP LOCKED may leave out any of them. The query runs
  // outside a transaction, so nothing stops two workers from fetching the same row.
  ghost predicate Fetchable(outbox: seq<OutboxRow>, rows: seq<nat>) {
    && |rows| <= BATCH_SIZE
    && (forall i :: 0 <= i < |rows| ==> rows[i] < |outbox| && outbox[rows[i]].status == Pending)
    && (forall i, j :: 0 <= i < j < |rows| ==> rows[i] < rows[j])
  }

  function CompletedRow(r: OutboxRow): OutboxRow {
    r.(status := Completed)
  }

  // No guard on the current status: a completed row can go back to pending or to failed.
  function FailedRow(r: OutboxRow, maxRetries: nat): OutboxRow {
    r.(retryCount := r.retryCount + 1, status := if r.retryCount + 1 >= maxRetries then Failed else Pending)
  }

  ghost predicate Enabled(s: Sys, step: Step) {
    match step
    case LedgerCall(_) => true
    case Fetch(w, rows) => w < |s.workers| && s.workers[w] == IDLE && Fetchable(s.db.outbox, rows)
    case Relay(w, accept, ok) =>
      && w < |s.workers| && s.workers[w].queue != [] && s.workers[w].stage == Ready
      && (ok ==> AllPresent(CreateAll(s.tb, s.workers[w].queue[0].payload, accept), s.workers[w].queue[0].payload))
    case MarkCompleted(w) =>
      w < |s.workers| && s.workers[w].queue != [] && s.workers[w].stage == Relayed(true)
        && s.workers[w].queue[0].row < |s.db.outbox|
    case MarkFailed(w) =>
      w < |s.workers| && s.workers[w].queue != [] && s.workers[w].stage == Relayed(false)
        && s.workers[w].queue[0].row < |s.db.outbox|
    case LoseMark(w) => w < |s.workers| && s.workers[w].queue != [] && s.workers[w].stage.Relayed?
    case Crash(w) => w < |s.workers|
  }

  ghost function Next(s: Sys, step: Step): Sys
    requires Enabled(s, step)
  {
    match step
    case LedgerCall(call) => s.(db := After(s.db, call, true))
    case Fetch(w, rows) =>
      s.(workers := s.workers[w := Worker(FetchBatch(s.db.outbox, rows), Ready)])
    case Relay(w, accept, ok) =>
      s.(tb := CreateAll(s.tb, s.workers[w].queue[0].payload, accept),
         workers := s.workers[w := s.workers[w].(stage := Relayed(ok))])
    case MarkCompleted(w) =>
      var row := s.workers[w].queue[0].row;
      s.(db := s.db.(outbox := s.db.outbox[row := CompletedRow(s.db.outbox[row])]),
         workers := s.workers[w := Worker(s.workers[w].queue[1..], Ready)])
    case MarkFailed(w) =>
      var e := s.workers[w].queue[0];
      s.(db := s.db.(outbox := s.db.outbox[e.row := FailedRow(s.db.outbox[e.row], e.maxRetries)]),
         workers := s.workers[w := Worker(s.workers[w].queue[1..], Ready)])
    case LoseMark(w) => s.(workers := s.workers[w := Worker(s.workers[w].queue[1..], Ready)])
    case Crash(w) => s.(workers := s.workers[w := IDLE])
  }

  // A step that is not enabled is skipped, so every sequence of steps is a run.
  ghost function Exec(s: Sys, steps: seq<Step>): Sys {
    if steps == [] then s
    else
      var mid, last := Exec(s, steps[..|steps| - 1]), steps[|steps| - 1];
      if Enabled(mid, last) then Next(mid, last) else mid
  }

  ghost predicate Initial(s: Sys) {
    s.db == EMPTY_DB && s.tb == EMPTY_TB && forall w :: 0 <= w < |s.workers| ==> s.workers[w] == IDLE
  }

  // ----- Sums over transfers -----

  ghost function Flat(outbox: seq<OutboxRow>): seq<TbTransfer> {
    if outbox == [] then [] else Flat(outbox[..|outbox| - 1]) + outbox[|outbox| - 1].payload
  }

  ghost function Effect(t: TbTransfer, a: Account): int {
    (if t.creditAccount == a then t.amount else 0) - (if t.debitAccount == a then t.amount else 0)
  }

  ghost function Net(ts: seq<TbTransfer>, a: Account): int {
    if ts == [] then 0 else Net(ts[..|ts| - 1], a) + Effect(ts[|ts| - 1], a)
  }

  // The net effect of those transfers of ts that have been applied.
  ghost function NetApplied(ts: seq<TbTransfer>, applied: seq<TbTransfer>, a: Account): int {
    if ts == [] then 0
    else NetApplied(ts[..|ts| - 1], applied, a) + if ts[|ts| - 1] in applied then Effect(ts[|ts| - 1], a) else 0
  }

  ghost predicate DistinctIds(ts: seq<TbTransfer>) {
    forall i, j :: 0 <= i < j < |ts| ==> ts[i].id != ts[j].id
  }

  ghost predicate IdsBelow(ts: seq<TbTransfer>, nextTx: TxId) {
    forall i :: 0 <= i < |ts| ==> ts[i].id.tx < nextTx
  }

  lemma {:induction false} FlatHasPayload(outbox: seq<OutboxRow>, row: nat, t: TbTransfer)
    requires row < |outbox| && t in outbox[row].payload
    ensures t in Flat(outbox)
  {
    if row < |outbox| - 1 {
      FlatHasPayload(outbox[..|outbox| - 1], row, t);
    }
  }

  lemma {:induction false} FlatKeepsPayloads(outbox: seq<OutboxRow>, row: nat, r: OutboxRow)
    requires row < |outbox| && r.payload == outbox[row].payload
    ensures Flat(outbox[row := r]) == Flat(outbox)
  {
    var n := |outbox| - 1;
    if row < n {
      assert outbox[row := r][..n] == outbox[..n][row := r];
      FlatKeepsPayloads(outbox[..n], row, r);
    } else {
      assert outbox[row := r][..n] == outbox[..n];
    }
  }

  lemma {:induction false} NetOfAppend(ts: seq<TbTransfer>, more: seq<TbTransfer>, a: Account)
    ensures Net(ts + more, a) == Net(ts, a) + Net(more, a)
  {
    if more == [] {
      assert ts + more == ts;
    } else {
      var n := |more| - 1;
      assert (ts + more)[..|ts + more| - 1] == ts + more[..n];
      NetOfAppend(ts, more[..n], a);
    }
  }

  lemma {:induction false} NetAppliedOfFresh(
    ts: seq<TbTransfer>, more: seq<TbTransfer>, applied: seq<TbTransfer>, a: Account)
    requires forall t :: t in more ==> t !in applied
    ensures NetApplied(ts + more, applied, a) == NetApplied(ts, applied, a)
  {
    if more == [] {
      assert ts + more == ts;
    } else {
      var n := |more| - 1;
      assert (ts + more)[..|ts + more| - 1] == ts + more[..n];
      assert more[n] in more;
      NetAppliedOfFresh(ts, more[..n], applied, a);
    }
  }

  lemma {:induction false} NetAppliedIgnores(ts: seq<TbTransfer>, applied: seq<TbTransfer>, t: TbTransfer, a: Account)
    requires t !in ts
    ensures NetApplied(ts, applied + [t], a) == NetApplied(ts, applied, a)
  {
    if ts != [] {
      assert ts[|ts| - 1] in ts;
      NetAppliedIgnores(ts[..|ts| - 1], applied, t, a);
    }
  }

  // Applying an enqueued transfer for the first time adds exactly its own effect.
  lemma {:induction false} NetAppliedGrows(ts: seq<TbTransfer>, applied: seq<TbTransfer>, t: TbTransfer, a: Account)
    requires DistinctIds(ts) && t in ts && t !in applied
    ensures NetApplied(ts, applied + [t], a) == NetApplied(ts, applied, a) + Effect(t, a)
  {
    var n := |ts| - 1;
    var last := ts[n];
    if last == t {
      forall i | 0 <= i < n ensures ts[i] != t {
        assert ts[i].id != ts[n].id;
      }
      NetAppliedIgnores(ts[..n], applied, t, a);
    } else {
      assert t in ts[..n];
      NetAppliedGrows(ts[..n], applied, t, a);
    }
  }

  lemma {:induction false} NetAppliedOfAll(ts: seq<TbTransfer>, applied: seq<TbTransfer>, a: Account)
    requires forall t :: t in ts ==> t in applied
    ensures NetApplied(ts, applied, a) == Net(ts, a)
  {
    if ts != [] {
      assert ts[|ts| - 1] in ts;
      NetAppliedOfAll(ts[..|ts| - 1], applied, a);
    }
  }

  // ----- The invariant -----

  // Every applied transfer was enqueued, each was applied once, and the posted balances are those
  // of the enqueued transfers applied so far.
  ghost predicate TbAgrees(outbox: seq<OutboxRow>, tb: Tb) {
    && (forall t :: t in tb.applied ==> t in Flat(outbox))
    && DistinctIds(tb.applied)
    && forall a :: TbBalance(tb, a) == NetApplied(Flat(outbox), tb.applied, a)
  }

  ghost predicate BooksAgree(db: Db) {
    && DistinctIds(Flat(db.outbox))
    && IdsBelow(Flat(db.outbox), db.nextTx)
    && forall a :: Balance(db.entries, a) == Net(Flat(db.outbox), a)
  }

  ghost predicate CompletedApplied(outbox: seq<OutboxRow>, tb: Tb) {
    forall r :: 0 <= r < |outbox| && outbox[r].status == Completed ==> AllPresent(tb, outbox[r].payload)
  }

  ghost predicate WorkerOk(outbox: seq<OutboxRow>, tb: Tb, w: Worker) {
    && (forall i :: 0 <= i < |w.queue| ==> w.queue[i].row < |outbox| && w.queue[i].payload == outbox[w.queue[i].row].payload)
    && (w.stage == Relayed(true) ==> w.queue != [] && AllPresent(tb, w.queue[0].payload))
  }

  ghost predicate WorkersOk(s: Sys) {
    forall w :: 0 <= w < |s.workers| ==> WorkerOk(s.db.outbox, s.tb, s.workers[w])
  }

  ghost predicate Inv(s: Sys) {
    && Consistent(s.db)
    && BooksAgree(s.db)
    && TbAgrees(s.db.outbox, s.tb)
    && CompletedApplied(s.db.outbox, s.tb)
    && WorkersOk(s)
  }

  // ----- A ledger call -----

  // The legs of a multi-transfer move what its requests move.
  lemma {:induction false} NetOfMulti(tx: TxId, reqs: seq<Request>, a: Account)
    ensures Net(MultiPayload(tx, reqs), a) == MovedBy(reqs, a)
  {
    if reqs != [] {
      NetOfMulti(tx, reqs[..|reqs| - 1], a);
      assert MultiPayload(tx, reqs)[..|reqs| - 1] == MultiPayload(tx, reqs[..|reqs| - 1]);
    }
  }

  // The payload of a commit: fresh distinct ids and the same net effect as the new rows.
  ghost predicate PayloadFor(payload: seq<TbTransfer>, tx: TxId, reqs: seq<Request>) {
    && DistinctIds(payload)
    && (forall i :: 0 <= i < |payload| ==> payload[i].id.tx == tx)
    && forall a :: Net(payload, a) == MovedBy(reqs, a)
  }

  lemma {:induction false} SinglePayloadFits(tx: TxId, r: Request)
    ensures PayloadFor(SinglePayload(tx, r), tx, [r])
  {
    forall a ensures Net(SinglePayload(tx, r), a) == MovedBy([r], a) {
      assert SinglePayload(tx, r)[..0] == [];
      MovedByOne(r, a);
    }
  }

  lemma {:induction false} MultiPayloadFits(tx: TxId, reqs: seq<Request>)
    ensures PayloadFor(MultiPayload(tx, reqs), tx, reqs)
  {
    forall a ensures Net(MultiPayload(tx, reqs), a) == MovedBy(reqs, a) {
      NetOfMulti(tx, reqs, a);
    }
  }

  lemma {:induction false} CommitEnqueues(db: Db, reqs: seq<Request>, payload: seq<TbTransfer>)
    requires Consistent(db)
    ensures Commit(db, reqs, payload, true).outbox
      == db.outbox + [OutboxRow(db.nextTx, payload, Pending, 0, MAX_RETRIES)]
    ensures Flat(Commit(db, reqs, payload, true).outbox) == Flat(db.outbox) + payload
  {
    var outbox := db.outbox + [OutboxRow(db.nextTx, payload, Pending, 0, MAX_RETRIES)];
    assert outbox[..|db.outbox|] == db.outbox;
  }

  lemma {:induction false} CommitKeepsBooks(db: Db, reqs: seq<Request>, payload: seq<TbTransfer>)
    requires Consistent(db) && BooksAgree(db) && PayloadFor(payload, db.nextTx, reqs)
    ensures BooksAgree(Commit(db, reqs, payload, true))
  {
    var db' := Commit(db, reqs, payload, true);
    CommitEnqueues(db, reqs, payload);
    var old' := Flat(db.outbox);
    assert DistinctIds(old' + payload);
    forall a ensures Balance(db'.entries, a) == Net(Flat(db'.outbox), a) {
      BalanceAfterCommit(db, reqs, payload, true, a);
      NetOfAppend(old', payload, a);
    }
  }

  lemma {:induction false} FreshPayloadUnapplied(db: Db, payload: seq<TbTransfer>, tb: Tb, tx: TxId)
    requires BooksAgree(db) && TbAgrees(db.outbox, tb) && tx == db.nextTx
    requires forall i :: 0 <= i < |payload| ==> payload[i].id.tx == tx
    ensures forall t :: t in payload ==> t !in tb.applied
  {
    forall t | t in tb.applied ensures t.id.tx < db.nextTx {
      var i :| 0 <= i < |Flat(db.outbox)| && Flat(db.outbox)[i] == t;
    }
  }

  lemma {:induction false} CommitKeepsTb(db: Db, reqs: seq<Request>, payload: seq<TbTransfer>, tb: Tb)
    requires Consistent(db) && BooksAgree(db) && TbAgrees(db.outbox, tb) && PayloadFor(payload, db.nextTx, reqs)
    ensures TbAgrees(Commit(db, reqs, payload, true).outbox, tb)
  {
    CommitEnqueues(db, reqs, payload);
    FreshPayloadUnapplied(db, payload, tb, db.nextTx);
    forall a ensures TbBalance(tb, a) == NetApplied(Flat(db.outbox) + payload, tb.applied, a) {
      NetAppliedOfFresh(Flat(db.outbox), payload, tb.applied, a);
    }
  }

  lemma {:induction false} CommitKeepsWorkers(s: Sys, reqs: seq<Request>, payload: seq<TbTransfer>)
    requires Inv(s)
    ensures CompletedApplied(Commit(s.db, reqs, payload, true).outbox, s.tb)
    ensures WorkersOk(s.(db := Commit(s.db, reqs, payload, true)))
  {
    CommitEnqueues(s.db, reqs, payload);
  }

  lemma {:induction false} LedgerCallKeepsInv(s: Sys, call: Call)
    requires Inv(s)
    ensures Inv(s.(db := After(s.db, call, true)))
  {
    AfterKeepsConsistent(s.db, call, true);
    var db' := After(s.db, call, true);
    if db' != s.db {
      var reqs := if call.Single? then [call.r] else call.reqs;
      var payload := if call.Single? then SinglePayload(s.db.nextTx, call.r) else MultiPayload(s.db.nextTx, call.reqs);
      assert db' == Commit(s.db, reqs, payload, true);
      if call.Single? {
        SinglePayloadFits(s.db.nextTx, call.r);
      } else {
        MultiPayloadFits(s.db.nextTx, call.reqs);
      }
      assert PayloadFor(payload, s.db.nextTx, reqs);
      CommitKeepsBooks(s.db, reqs, payload);
      CommitKeepsTb(s.db, reqs, payload, s.tb);
      CommitKeepsWorkers(s, reqs, payload);
    }
  }

  // ----- A relay -----

  lemma {:induction false} CreateOneAgrees(outbox: seq<OutboxRow>, tb: Tb, t: TbTransfer, accept: bool)
    requires TbAgrees(outbox, tb) && DistinctIds(Flat(outbox)) && t in Flat(outbox)
    ensures TbAgrees(outbox, CreateOne(tb, t, accept))
    ensures forall u :: u in tb.applied ==> u in CreateOne(tb, t, accept).applied
  {
    var tb' := CreateOne(tb, t, accept);
    if tb' != tb {
      assert t !in tb.applied;
      forall a ensures TbBalance(tb', a) == NetApplied(Flat(outbox), tb'.applied, a) {
        NetAppliedGrows(Flat(outbox), tb.applied, t, a);
        assert TbBalance(tb', a) == TbBalance(tb, a) + Effect(t, a);
      }
    }
  }

  lemma {:induction false} CreateAllAgrees(outbox: seq<OutboxRow>, tb: Tb, ts: seq<TbTransfer>, accept: nat -> bool)
    requires TbAgrees(outbox, tb) && DistinctIds(Flat(outbox)) && forall t :: t in ts ==> t in Flat(outbox)
    ensures TbAgrees(outbox, CreateAll(tb, ts, accept))
    ensures forall u :: u in tb.applied ==> u in CreateAll(tb, ts, accept).applied
  {
    if ts != [] {
      var n := |ts| - 1;
      CreateAllAgrees(outbox, tb, ts[..n], accept);
      assert ts[n] in ts;
      CreateOneAgrees(outbox, CreateAll(tb, ts[..n], accept), ts[n], accept(n));
    }
  }

  lemma {:induction false} RelayKeepsInv(s: Sys, step: Step)
    requires Inv(s) && step.Relay? && Enabled(s, step)
    ensures Inv(Next(s, step))
  {
    var e := s.workers[step.w].queue[0];
    assert WorkerOk(s.db.outbox, s.tb, s.workers[step.w]);
    forall t | t in e.payload ensures t in Flat(s.db.outbox) {
      FlatHasPayload(s.db.outbox, e.row, t);
    }
    CreateAllAgrees(s.db.outbox, s.tb, e.payload, step.accept);
    var s' := Next(s, step);
    forall w | 0 <= w < |s'.workers| ensures WorkerOk(s'.db.outbox, s'.tb, s'.workers[w]) {
      assert WorkerOk(s.db.outbox, s.tb, s.workers[w]);
    }
  }

  // ----- A mark -----

  lemma {:induction false} MarkKeepsConsistent(db: Db, row: nat, r: OutboxRow)
    requires Consistent(db) && row < |db.outbox| && r.transactionId == db.outbox[row].transactionId
    ensures Consistent(db.(outbox := db.outbox[row := r]))
  {
    var outbox := db.outbox[row := r];
    assert OutboxBelow(outbox, db.nextTx) by {
      assert db.outbox[row].transactionId < db.nextTx;
    }
  }

  lemma {:induction false} MarkKeepsInv(s: Sys, w: nat, r: OutboxRow)
    requires Inv(s) && w < |s.workers| && s.workers[w].queue != [] && s.workers[w].queue[0].row < |s.db.outbox|
    requires var row := s.db.outbox[s.workers[w].queue[0].row];
      && r.transactionId == row.transactionId && r.payload == row.payload
      && (r.status == Completed ==> AllPresent(s.tb, row.payload))
    ensures var row := s.workers[w].queue[0].row;
      Inv(s.(db := s.db.(outbox := s.db.outbox[row := r]), workers := s.workers[w := Worker(s.workers[w].queue[1..], Ready)]))
  {
    var row := s.workers[w].queue[0].row;
    var s' := s.(db := s.db.(outbox := s.db.outbox[row := r]), workers := s.workers[w := Worker(s.workers[w].queue[1..], Ready)]);
    MarkKeepsConsistent(s.db, row, r);
    FlatKeepsPayloads(s.db.outbox, row, r);
    forall v | 0 <= v < |s'.workers| ensures WorkerOk(s'.db.outbox, s'.tb, s'.workers[v]) {
      assert WorkerOk(s.db.outbox, s.tb, s.workers[v]);
    }
  }

  lemma {:induction false} WorkerChangeKeepsInv(s: Sys, w: nat, worker: Worker)
    requires Inv(s) && w < |s.workers| && WorkerOk(s.db.outbox, s.tb, worker)
    ensures Inv(s.(workers := s.workers[w := worker]))
  {
  }

  lemma {:induction false} NextKeepsInv(s: Sys, step: Step)
    requires Inv(s) && Enabled(s, step)
    ensures Inv(Next(s, step))
  {
    match step
    case LedgerCall(call) => LedgerCallKeepsInv(s, call);
    case Fetch(w, rows) =>
      WorkerChangeKeepsInv(s, w, Next(s, step).workers[w]);
    case Relay(w, accept, ok) => RelayKeepsInv(s, step);
    case MarkCompleted(w) =>
      assert WorkerOk(s.db.outbox, s.tb, s.workers[w]);
      MarkKeepsInv(s, w, CompletedRow(s.db.outbox[s.workers[w].queue[0].row]));
    case MarkFailed(w) =>
      var e := s.workers[w].queue[0];
      MarkKeepsInv(s, w, FailedRow(s.db.outbox[e.row], e.maxRetries));
    case LoseMark(w) =>
      assert WorkerOk(s.db.outbox, s.tb, s.workers[w]);
      WorkerChangeKeepsInv(s, w, Next(s, step).workers[w]);
    case Crash(w) => WorkerChangeKeepsInv(s, w, IDLE);
  }

  lemma {:induction false} RunKeepsInv(s: Sys, steps: seq<Step>)
    requires Inv(s)
    ensures Inv(Exec(s, steps))
  {
    if steps != [] {
      var mid, last := Exec(s, steps[..|steps| - 1]), steps[|steps| - 1];
      RunKeepsInv(s, steps[..|steps| - 1]);
      if Enabled(mid, last) {
        NextKeepsInv(mid, last);
      }
    }
  }

  lemma {:induction false} InitialInv(s: Sys)
    requires Initial(s)
    ensures Inv(s)
  {
  }

  // ----- The refinement -----

  // Whatever is interleaved, TigerBeetle holds only enqueued transfers, each applied once, and
  // every completed row has all its transfers there. At every moment an account's TigerBeetle
  // balance is that of the enqueued transfers applied so far, out of which the ledger balance is
  // the total.
  lemma {:induction false} OutboxRefinement(s0: Sys, steps: seq<Step>, a: Account)
    requires Initial(s0)
    ensures var s := Exec(s0, steps);
      && (forall t :: t in s.tb.applied ==> exists r :: 0 <= r < |s.db.outbox| && t in s.db.outbox[r].payload)
      && DistinctIds(s.tb.applied)
      && CompletedApplied(s.db.outbox, s.tb)
      && TbBalance(s.tb, a) == NetApplied(Flat(s.db.outbox), s.tb.applied, a)
      && Balance(s.db.entries, a) == Net(Flat(s.db.outbox), a)
  {
    InitialInv(s0);
    RunKeepsInv(s0, steps);
    var s := Exec(s0, steps);
    forall t | t in s.tb.applied ensures exists r :: 0 <= r < |s.db.outbox| && t in s.db.outbox[r].payload {
      FlatComesFromRow(s.db.outbox, t);
    }
  }

  lemma {:induction false} FlatComesFromRow(outbox: seq<OutboxRow>, t: TbTransfer)
    requires t in Flat(outbox)
    ensures exists r :: 0 <= r < |outbox| && t in outbox[r].payload
  {
    var n := |outbox| - 1;
    if t !in outbox[n].payload {
      FlatComesFromRow(outbox[..n], t);
      var r :| 0 <= r < n && t in outbox[..n][r].payload;
      assert t in outbox[r].payload;
    }
  }

  // Once every row is completed, TigerBeetle and the ledger agree on every account.
  lemma {:induction false} CompletedOutboxReconciles(s0: Sys, steps: seq<Step>, a: Account)
    requires Initial(s0)
    requires forall r :: 0 <= r < |Exec(s0, steps).db.outbox| ==> Exec(s0, steps).db.outbox[r].status == Completed
    ensures TbBalance(Exec(s0, steps).tb, a) == Balance(Exec(s0, steps).db.entries, a)
  {
    var s := Exec(s0, steps);
    OutboxRefinement(s0, steps, a);
    forall t | t in Flat(s.db.outbox) ensures t in s.tb.applied {
      FlatComesFromRow(s.db.outbox, t);
      var r :| 0 <= r < |s.db.outbox| && t in s.db.outbox[r].payload;
      assert AllPresent(s.tb, s.db.outbox[r].payload);
    }
    NetAppliedOfAll(Flat(s.db.outbox), s.tb.applied, a);
  }

  // ----- Is COMPLETED terminal? -----

  ghost predicate IsCompleted(s: Sys, row: nat) {
    row < |s.db.outbox| && s.db.outbox[row].status == Completed
  }

  // Entry i of the queue can still be marked as failed: it is not a head that has been relayed.
  ghost predicate HasStale(worker: Worker, row: nat, i: nat) {
    i < |worker.queue| && worker.queue[i].row == row && !(i == 0 && worker.stage == Relayed(true))
  }

  ghost predicate SomeStale(s: Sys, row: nat) {
    exists w, i :: 0 <= w < |s.workers| && HasStale(s.workers[w], row, i)
  }

  lemma {:induction false} CallExtendsOutbox(db: Db, call: Call)
    requires Consistent(db)
    ensures var outbox := After(db, call, true).outbox;
      |db.outbox| <= |outbox| && outbox[..|db.outbox|] == db.outbox
  {
  }

  lemma {:induction false} CallKeepsCompleted(s: Sys, call: Call, row: nat)
    requires Inv(s) && IsCompleted(s, row)
    ensures IsCompleted(s.(db := After(s.db, call, true)), row)
  {
    CallExtendsOutbox(s.db, call);
    assert After(s.db, call, true).outbox[..|s.db.outbox|][row] == s.db.outbox[row];
  }

  // A worker that moves on holds what it held, one place further on.
  lemma {:induction false} PoppedIsStale(worker: Worker, row: nat, i: nat)
    requires worker.queue != [] && HasStale(Worker(worker.queue[1..], Ready), row, i)
    ensures HasStale(worker, row, i + 1)
  {
  }

  lemma {:induction false} FetchedIsPending(outbox: seq<OutboxRow>, rows: seq<nat>, row: nat, i: nat)
    requires Fetchable(outbox, rows) && HasStale(Worker(FetchBatch(outbox, rows), Ready), row, i)
    ensures row < |outbox| && outbox[row].status == Pending
  {
    assert rows[i] == row;
  }

  // What a worker can still mark as failed after its step, it could before.
  lemma {:induction false} WorkerStepAddsNoStale(s: Sys, step: Step, row: nat, i: nat)
    requires Enabled(s, step) && !step.LedgerCall? && IsCompleted(s, row) && HasStale(Next(s, step).workers[step.w], row, i)
    ensures HasStale(s.workers[step.w], row, i) || HasStale(s.workers[step.w], row, i + 1)
  {
    match step
    case LedgerCall(_) =>
    case Fetch(w, rows) => FetchedIsPending(s.db.outbox, rows, row, i);
    case Relay(_, _, _) =>
    case MarkCompleted(w) => PoppedIsStale(s.workers[w], row, i);
    case MarkFailed(w) => PoppedIsStale(s.workers[w], row, i);
    case LoseMark(w) => PoppedIsStale(s.workers[w], row, i);
    case Crash(_) =>
  }

  lemma {:induction false} StepAddsNoStale(s: Sys, step: Step, row: nat)
    requires Enabled(s, step) && !step.LedgerCall? && IsCompleted(s, row)
    ensures SomeStale(Next(s, step), row) ==> SomeStale(s, row)
  {
    var s' := Next(s, step);
    if v, i :| 0 <= v < |s'.workers| && HasStale(s'.workers[v], row, i) {
      if v == step.w {
        WorkerStepAddsNoStale(s, step, row, i);
      } else {
        assert s'.workers[v] == s.workers[v];
      }
    }
  }

  lemma {:induction false} WorkerStepKeepsCompleted(s: Sys, step: Step, row: nat)
    requires Inv(s) && IsCompleted(s, row) && !SomeStale(s, row) && Enabled(s, step) && !step.LedgerCall?
    ensures IsCompleted(Next(s, step), row) && !SomeStale(Next(s, step), row)
  {
    StepAddsNoStale(s, step, row);
    if step.MarkFailed? {
      assert !HasStale(s.workers[step.w], row, 0);
    }
  }

  lemma {:induction false} RunKeepsCompleted(s: Sys, steps: seq<Step>, row: nat)
    requires Inv(s) && IsCompleted(s, row) && !SomeStale(s, row)
    ensures IsCompleted(Exec(s, steps), row) && !SomeStale(Exec(s, steps), row)
  {
    if steps != [] {
      var mid, last := Exec(s, steps[..|steps| - 1]), steps[|steps| - 1];
      RunKeepsCompleted(s, steps[..|steps| - 1], row);
      RunKeepsInv(s, steps[..|steps| - 1]);
      if Enabled(mid, last) {
        if last.LedgerCall? {
          CallKeepsCompleted(mid, last.call, row);
          assert Next(mid, last).workers == mid.workers;
        } else {
          WorkerStepKeepsCompleted(mid, last, row);
        }
      }
    }
  }

  lemma {:induction false} ExecFirst(s: Sys, step: Step, steps: seq<Step>)
    requires Enabled(s, step)
    ensures Exec(s, [step] + steps) == Exec(Next(s, step), steps)
  {
    if steps == [] {
      assert [step] + steps == [step] && [step][..0] == [];
    } else {
      var n := |steps| - 1;
      assert ([step] + steps)[..n + 1] == [step] + steps[..n];
      ExecFirst(s, step, steps[..n]);
    }
  }

  // The worker loses the reply of its head, unless that has been relayed already.
  lemma {:induction false} HeadCanBeRelayed(s: Sys, w: nat) returns (s': Sys, steps: seq<Step>)
    requires w < |s.workers| && s.workers[w].queue != []
    ensures forall more :: Exec(s, steps + more) == Exec(s', more)
    ensures s'.db == s.db && |s'.workers| == |s.workers| && s'.workers[w].queue == s.workers[w].queue && s'.workers[w].stage.Relayed?
    ensures s.workers[w].stage != Relayed(true) ==> s'.workers[w].stage == Relayed(false)
  {
    if s.workers[w].stage.Relayed? {
      s', steps := s, [];
      assert forall more: seq<Step> :: steps + more == more;
    } else {
      var relay := Relay(w, _ => false, false);
      s', steps := Next(s, relay), [relay];
      forall more: seq<Step> ensures Exec(s, steps + more) == Exec(s', more) {
        ExecFirst(s, relay, more);
      }
    }
  }

  // A run that gets worker w to its entry for the row and lets that one fail.
  lemma {:induction false} StaleEntryReopens(s: Sys, w: nat, row: nat, i: nat) returns (steps: seq<Step>)
    requires w < |s.workers| && HasStale(s.workers[w], row, i) && row < |s.db.outbox|
    ensures !IsCompleted(Exec(s, steps), row)
    decreases i
  {
    var s', relay := HeadCanBeRelayed(s, w);
    if i == 0 {
      ExecFirst(s', MarkFailed(w), []);
      assert [MarkFailed(w)] + [] == [MarkFailed(w)];
      steps := relay + [MarkFailed(w)];
      assert Exec(s, steps) == Next(s', MarkFailed(w));
    } else {
      var s2 := Next(s', LoseMark(w));
      assert HasStale(s2.workers[w], row, i - 1);
      var rest := StaleEntryReopens(s2, w, row, i - 1);
      ExecFirst(s', LoseMark(w), rest);
      steps := relay + ([LoseMark(w)] + rest);
    }
  }

  // Some run takes a completed row out of COMPLETED exactly when a worker still holds an entry for
  // it other than a head it has relayed successfully. So COMPLETED is final once no worker does.
  lemma {:induction false} CompletedReopensExactly(s: Sys, row: nat)
    requires Inv(s) && IsCompleted(s, row)
    ensures (exists steps :: !IsCompleted(Exec(s, steps), row)) <==> SomeStale(s, row)
  {
    if SomeStale(s, row) {
      var w, i :| 0 <= w < |s.workers| && HasStale(s.workers[w], row, i);
      var steps := StaleEntryReopens(s, w, row, i);
    } else {
      forall steps ensures IsCompleted(Exec(s, steps), row) {
        RunKeepsCompleted(s, steps, row);
      }
    }
  }

  // A single worker only ever holds distinct rows that are still pending.
  ghost predicate HoldsPending(s: Sys) {
    && |s.workers| == 1
    && var q := s.workers[0].queue;
    && (forall i :: 0 <= i < |q| ==> q[i].row < |s.db.outbox| && s.db.outbox[q[i].row].status == Pending)
    && (forall i, j :: 0 <= i < j < |q| ==> q[i].row < q[j].row)
  }

  lemma {:induction false} SoleWorkerStep(s: Sys, step: Step)
    requires Consistent(s.db) && HoldsPending(s) && Enabled(s, step)
    ensures HoldsPending(Next(s, step))
  {
    if step.LedgerCall? {
      CallExtendsOutbox(s.db, step.call);
      forall i | 0 <= i < |s.db.outbox| ensures Next(s, step).db.outbox[i] == s.db.outbox[i] {
        assert Next(s, step).db.outbox[..|s.db.outbox|][i] == s.db.outbox[i];
      }
    }
  }

  lemma {:induction false} SoleWorkerHoldsPending(s: Sys, steps: seq<Step>)
    requires Inv(s) && HoldsPending(s)
    ensures HoldsPending(Exec(s, steps))
  {
    if steps != [] {
      var mid, last := Exec(s, steps[..|steps| - 1]), steps[|steps| - 1];
      SoleWorkerHoldsPending(s, steps[..|steps| - 1]);
      RunKeepsInv(s, steps[..|steps| - 1]);
      if Enabled(mid, last) {
        SoleWorkerStep(mid, last);
      }
    }
  }

  // With one worker a completed row stays completed.
  lemma {:induction false} SoleWorkerKeepsCompleted(s: Sys, steps: seq<Step>, row: nat)
    requires Inv(s) && HoldsPending(s) && IsCompleted(s, row)
    ensures HoldsPending(Exec(s, steps)) && IsCompleted(Exec(s, steps), row)
  {
    SoleWorkerHoldsPending(s, steps);
    assert !SomeStale(s, row) by {
      forall w, i | 0 <= w < |s.workers| ensures !HasStale(s.workers[w], row, i) {
        assert w == 0;
      }
    }
    CompletedReopensExactly(s, row);
  }

  lemma {:induction false} ExecOneMore(s: Sys, steps: seq<Step>, step: Step)
    requires Enabled(Exec(s, steps), step)
    ensures Exec(s, steps + [step]) == Next(Exec(s, steps), step)
  {
    assert (steps + [step])[..|steps|] == steps;
  }

  // With two it need not: both fetch the same row, the first completes it, the second loses its
  // reply and puts the row back to pending.
  lemma {:induction false} DuplicateWorkersReopenCompleted(s: Sys, row: nat, accept: nat -> bool)
    requires row < |s.db.outbox| && s.db.outbox[row].status == Pending
    requires s.db.outbox[row].retryCount + 1 < s.db.outbox[row].maxRetries
    requires s.workers == [IDLE, IDLE]
    requires AllPresent(CreateAll(s.tb, s.db.outbox[row].payload, accept), s.db.outbox[row].payload)
    ensures var steps := [Fetch(0, [row]), Fetch(1, [row]), Relay(0, accept, true), MarkCompleted(0)];
      var reopened := steps + [Relay(1, accept, false)] + [MarkFailed(1)];
      && row < |Exec(s, steps).db.outbox| && Exec(s, steps).db.outbox[row].status == Completed
      && row < |Exec(s, reopened).db.outbox| && Exec(s, reopened).db.outbox[row].status == Pending
  {
    var batch := Worker([FetchRow(s.db.outbox, row)], Ready);
    var p2 := BothFetch(s, row);
    var s2 := s.(workers := [batch, batch]);
    assert s2.workers[0].queue[0].payload == s.db.outbox[row].payload;
    var p3 := p2 + [Relay(0, accept, true)];
    ExecOneMore(s, p2, Relay(0, accept, true));
    var s3 := Next(s2, Relay(0, accept, true));
    assert s3.workers[0] == Worker(batch.queue, Relayed(true)) && s3.workers[1] == batch;
    var p4 := p3 + [MarkCompleted(0)];
    ExecOneMore(s, p3, MarkCompleted(0));
    var s4 := Next(s3, MarkCompleted(0));
    assert s4.workers[1] == batch && s4.db.outbox[row] == CompletedRow(s.db.outbox[row]);
    ExecOneMore(s, p4, Relay(1, accept, false));
    var s5 := Next(s4, Relay(1, accept, false));
    assert s5.workers[1] == Worker(batch.queue, Relayed(false));
    ExecOneMore(s, p4 + [Relay(1, accept, false)], MarkFailed(1));
    assert p4 == [Fetch(0, [row]), Fetch(1, [row]), Relay(0, accept, true), MarkCompleted(0)];
  }

  lemma {:induction false} BothFetch(s: Sys, row: nat) returns (steps: seq<Step>)
    requires row < |s.db.outbox| && s.db.outbox[row].status == Pending && s.workers == [IDLE, IDLE]
    ensures steps == [Fetch(0, [row]), Fetch(1, [row])]
    ensures var batch := Worker([FetchRow(s.db.outbox, row)], Ready);
      Exec(s, steps) == s.(workers := [batch, batch])
  {
    var batch := Worker([FetchRow(s.db.outbox, row)], Ready);
    assert Fetchable(s.db.outbox, [row]);
    var none: seq<Step> := [];
    ExecOneMore(s, none, Fetch(0, [row]));
    var s1 := Next(s, Fetch(0, [row]));
    assert FetchBatch(s.db.outbox, [row]) == [FetchRow(s.db.outbox, row)];
    assert s1.workers == [batch, IDLE];
    ExecOneMore(s, none + [Fetch(0, [row])], Fetch(1, [row]));
    var s2 := Next(s1, Fetch(1, [row]));
    assert s2.workers == [batch, batch];
    steps := none + [Fetch(0, [row])] + [Fetch(1, [row])];
  }
}
