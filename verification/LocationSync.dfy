// The live location worker: a batched last-writer-wins merge under per-rider clocks, and the
// resolution-5 shard index kept beside it.
module LocationSync {
  import opened Wrappers

  // ----- Redis -----

  type Cell = int

  datatype Position = Position(lat: real, lng: real)

  // H3 cells of a position at resolutions 7 and 5.
  datatype Grid = Grid(h7: Position -> Cell, h5: Position -> Cell)

  datatype Payload = Payload(rider: string, timestamp: int, position: Position, status: string, order: string)

  // rider:clock, rider:coords, rider:last_h7, rider:last_h5 and the members of the
  // riders:locations:h3 shards. No key expires.
  datatype Redis = Redis(
    clocks: map<string, int>, coords: map<string, Payload>, lastH7: map<string, Cell>,
    lastH5: map<string, Cell>, shards: map<(Cell, string), Position>)

  const EMPTY_REDIS := Redis(map[], map[], map[], map[], map[])

  function Get<V>(m: map<string, V>, key: string): Option<V> {
    if key in m then Some(m[key]) else None
  }

  function ClockOf(s: Redis, rider: string): int {
    if rider in s.clocks then s.clocks[rider] else 0
  }

  predicate Offline(p: Payload) {
    p.status == "offline"
  }

  predicate Positioned(p: Payload) {
    !Offline(p) && p.position.lat != 0.0 && p.position.lng != 0.0
  }

  // ----- What the write pass does with one payload -----

  // The commands queued for an accepted payload. oldH5 is the cell read before the batch.
  function Apply(g: Grid, oldH5: Option<Cell>, s: Redis, p: Payload): Redis {
    var r := p.rider;
    var ticked := s.(clocks := s.clocks[r := p.timestamp]);
    if Offline(p) then
      ticked.(coords := s.coords - {r}, lastH7 := s.lastH7 - {r}, lastH5 := s.lastH5 - {r},
              shards := if oldH5.Some? then s.shards - {(oldH5.value, r)} else s.shards)
    else if Positioned(p) then
      var cell := g.h5(p.position);
      var left := if oldH5.Some? && oldH5.value != cell then s.shards - {(oldH5.value, r)} else s.shards;
      ticked.(coords := s.coords[r := p], lastH7 := s.lastH7[r := g.h7(p.position)], lastH5 := s.lastH5[r := cell],
              shards := left[(cell, r) := p.position])
    else ticked
  }

  function Write(g: Grid, before: Redis, s: Redis, p: Payload): Redis {
    if p.timestamp <= ClockOf(s, p.rider) then s else Apply(g, Get(before.lastH5, p.rider), s, p)
  }

  function WriteAll(g: Grid, before: Redis, batch: seq<Payload>): Redis {
    if batch == [] then before
    else Write(g, before, WriteAll(g, before, batch[..|batch| - 1]), batch[|batch| - 1])
  }

  function Flush(g: Grid, s: Redis, batch: seq<Payload>): Redis {
    WriteAll(g, s, batch)
  }

  function FlushAll(g: Grid, s: Redis, batches: seq<seq<Payload>>): Redis {
    if batches == [] then s
    else Flush(g, FlushAll(g, s, batches[..|batches| - 1]), batches[|batches| - 1])
  }

  function Flatten(batches: seq<seq<Payload>>): seq<Payload> {
    if batches == [] then [] else Flatten(batches[..|batches| - 1]) + batches[|batches| - 1]
  }

  predicate Valid(s: Redis) {
    forall r :: r in s.clocks ==> s.clocks[r] > 0
  }

  // ----- The worker -----

  datatype Event = Arrival(payload: Payload) | Tick

  const BATCH_SIZE: nat := 100

  function Arrivals(events: seq<Event>): seq<Payload> {
    if events == [] then []
    else Arrivals(events[..|events| - 1]) + if events[|events| - 1].Arrival? then [events[|events| - 1].payload] else []
  }

  class Worker {
    var clocks: map<string, int>
    var coords: map<string, Payload>
    var lastH7: map<string, Cell>
    var lastH5: map<string, Cell>
    var shards: map<(Cell, string), Position>
    const grid: Grid

    constructor (grid: Grid)
      ensures State() == EMPTY_REDIS && this.grid == grid
    {
      clocks, coords, lastH7, lastH5, shards := map[], map[], map[], map[], map[];
      this.grid := grid;
    }

    function State(): Redis
      reads this
    {
      Redis(clocks, coords, lastH7, lastH5, shards)
    }

    // The read pass.
    method ReadPass(batch: seq<Payload>) returns (clockOf: map<string, int>, h5Of: map<string, Option<Cell>>)
      ensures forall p :: p in batch ==> p.rider in clockOf && p.rider in h5Of
      ensures forall r :: r in clockOf ==> clockOf[r] == ClockOf(State(), r)
      ensures forall r :: r in h5Of ==> h5Of[r] == Get(lastH5, r)
    {
      clockOf, h5Of := map[], map[];
      for i := 0 to |batch|
        invariant forall j :: 0 <= j < i ==> batch[j].rider in clockOf && batch[j].rider in h5Of
        invariant clockOf.Keys == h5Of.Keys
        invariant forall r :: r in clockOf ==> clockOf[r] == ClockOf(State(), r)
        invariant forall r :: r in h5Of ==> h5Of[r] == Get(lastH5, r)
      {
        var r := batch[i].rider;
        if r !in clockOf {
          clockOf := clockOf[r := if r in clocks then clocks[r] else 0];
          h5Of := h5Of[r := Get(lastH5, r)];
        }
      }
    }

    // Commands are queued against the values read first and run together at the end.
    method FlushBatch(batch: seq<Payload>)
      requires Valid(State())
      modifies this
      ensures State() == Flush(grid, old(State()), batch) && Valid(State())
    {
      var clockOf, h5Of := ReadPass(batch);
      var s := WritePass(grid, State(), batch, clockOf, h5Of);
      clocks, coords, lastH7, lastH5, shards := s.clocks, s.coords, s.lastH7, s.lastH5, s.shards;
    }

    // The batching loop: a full buffer or a tick flushes, and so does the shutdown. Every payload
    // received is flushed once, in order of arrival, in batches of at most BATCH_SIZE.
    method Start(events: seq<Event>) returns (ghost batches: seq<seq<Payload>>)
      requires Valid(State())
      modifies this
      ensures State() == FlushAll(grid, old(State()), batches)
      ensures Flatten(batches) == Arrivals(events)
      ensures forall b :: b in batches ==> 0 < |b| <= 100
    {
      ghost var start := State();
      batches := [];
      var buffer: seq<Payload> := [];
      for i := 0 to |events|
        invariant Valid(State()) && State() == FlushAll(grid, start, batches)
        invariant Flatten(batches) + buffer == Arrivals(events[..i])
        invariant |buffer| < BATCH_SIZE && forall b :: b in batches ==> 0 < |b| <= BATCH_SIZE
      {
        assert events[..i + 1][..i] == events[..i];
        if events[i].Arrival? {
          buffer := buffer + [events[i].payload];
        }
        if |buffer| >= BATCH_SIZE || (events[i].Tick? && |buffer| > 0) {
          FlushOneMore(grid, start, batches, buffer);
          FlushBatch(buffer);
          batches, buffer := batches + [buffer], [];
        }
      }
      assert events[..|events|] == events;
      if |buffer| > 0 {
        FlushOneMore(grid, start, batches, buffer);
        FlushBatch(buffer);
        batches := batches + [buffer];
      }
    }
  }

  // Clocks set earlier in the batch are found in memory, the others among those read.
  ghost predicate ClocksKnown(inMemory: map<string, int>, before: Redis, s: Redis) {
    forall r :: if r in inMemory then inMemory[r] == ClockOf(s, r) > 0 else ClockOf(s, r) == ClockOf(before, r)
  }

  lemma {:induction false} ClocksKnownAfter(g: Grid, h5: Option<Cell>, inMemory: map<string, int>, before: Redis, s: Redis, p: Payload)
    requires ClocksKnown(inMemory, before, s) && Valid(s) && p.timestamp > ClockOf(s, p.rider)
    ensures ClocksKnown(inMemory[p.rider := p.timestamp], before, Apply(g, h5, s, p)) && Valid(Apply(g, h5, s, p))
  {
    var s' := Apply(g, h5, s, p);
    assert s'.clocks == s.clocks[p.rider := p.timestamp];
  }

  lemma {:induction false} WriteOneMore(g: Grid, before: Redis, batch: seq<Payload>, i: nat)
    requires i < |batch|
    ensures WriteAll(g, before, batch[..i + 1]) == Write(g, before, WriteAll(g, before, batch[..i]), batch[i])
  {
    assert batch[..i + 1][..i] == batch[..i];
  }

  // The write pass.
  method WritePass(g: Grid, before: Redis, batch: seq<Payload>, clockOf: map<string, int>, h5Of: map<string, Option<Cell>>)
      returns (s: Redis)
    requires Valid(before)
    requires forall p :: p in batch ==> p.rider in clockOf && p.rider in h5Of
    requires forall r :: r in clockOf ==> clockOf[r] == ClockOf(before, r)
    requires forall r :: r in h5Of ==> h5Of[r] == Get(before.lastH5, r)
    ensures s == Flush(g, before, batch) && Valid(s)
  {
    s := before;
    var inMemoryClocks: map<string, int> := map[];
    for i := 0 to |batch|
      invariant s == WriteAll(g, before, batch[..i]) && Valid(s)
      invariant ClocksKnown(inMemoryClocks, before, s)
    {
      var p := batch[i];
      WriteOneMore(g, before, batch, i);
      var lastClock := if p.rider in inMemoryClocks then inMemoryClocks[p.rider] else 0;
      if lastClock == 0 {
        lastClock := clockOf[p.rider];
      }
      if p.timestamp > lastClock {
        ClocksKnownAfter(g, h5Of[p.rider], inMemoryClocks, before, s, p);
        inMemoryClocks := inMemoryClocks[p.rider := p.timestamp];
        s := Apply(g, h5Of[p.rider], s, p);
      }
    }
    assert batch[..|batch|] == batch;
  }

  lemma {:induction false} FlushOneMore(g: Grid, s: Redis, batches: seq<seq<Payload>>, b: seq<Payload>)
    ensures FlushAll(g, s, batches + [b]) == Flush(g, FlushAll(g, s, batches), b)
    ensures Flatten(batches + [b]) == Flatten(batches) + b
  {
    assert (batches + [b])[..|batches|] == batches;
  }

  // ----- One rider's record -----

  datatype Record = Record(clock: int, coords: Option<Payload>, h7: Option<Cell>, h5: Option<Cell>)

  const NO_RECORD := Record(0, None, None, None)

  function View(s: Redis, rider: string): Record {
    Record(ClockOf(s, rider), Get(s.coords, rider), Get(s.lastH7, rider), Get(s.lastH5, rider))
  }

  function RecordOf(g: Grid, p: Payload): Record {
    if Offline(p) then Record(p.timestamp, None, None, None)
    else Record(p.timestamp, Some(p), Some(g.h7(p.position)), Some(g.h5(p.position)))
  }

  // Last writer wins, by timestamp.
  function Merge(g: Grid, v: Record, rider: string, p: Payload): Record {
    if p.rider != rider || p.timestamp <= v.clock then v
    else if Offline(p) || Positioned(p) then RecordOf(g, p)
    else v.(clock := p.timestamp)
  }

  function MergeAll(g: Grid, v: Record, rider: string, stream: seq<Payload>): Record {
    if stream == [] then v
    else Merge(g, MergeAll(g, v, rider, stream[..|stream| - 1]), rider, stream[|stream| - 1])
  }

  lemma {:induction false} OtherRidersKeepTheirView(g: Grid, h5: Option<Cell>, s: Redis, p: Payload, rider: string)
    requires p.rider != rider
    ensures View(Apply(g, h5, s, p), rider) == View(s, rider)
  {
  }

  lemma {:induction false} OwnViewAfterApply(g: Grid, h5: Option<Cell>, s: Redis, p: Payload)
    ensures View(Apply(g, h5, s, p), p.rider) ==
      if Offline(p) || Positioned(p) then RecordOf(g, p) else View(s, p.rider).(clock := p.timestamp)
  {
  }

  lemma {:induction false} ViewAfterWrite(g: Grid, before: Redis, s: Redis, p: Payload, rider: string)
    ensures View(Write(g, before, s, p), rider) == Merge(g, View(s, rider), rider, p)
  {
    if p.rider == rider {
      OwnViewAfterApply(g, Get(before.lastH5, rider), s, p);
    } else {
      OtherRidersKeepTheirView(g, Get(before.lastH5, p.rider), s, p, rider);
    }
  }

  lemma {:induction false} FlushMerges(g: Grid, s: Redis, batch: seq<Payload>, rider: string)
    ensures View(Flush(g, s, batch), rider) == MergeAll(g, View(s, rider), rider, batch)
  {
    if batch != [] {
      FlushMerges(g, s, batch[..|batch| - 1], rider);
      ViewAfterWrite(g, s, Flush(g, s, batch[..|batch| - 1]), batch[|batch| - 1], rider);
    }
  }

  lemma {:induction false} MergeConcat(g: Grid, v: Record, rider: string, a: seq<Payload>, b: seq<Payload>)
    ensures MergeAll(g, v, rider, a + b) == MergeAll(g, MergeAll(g, v, rider, a), rider, b)
  {
    if b == [] {
      assert a + b == a;
    } else {
      assert (a + b)[..|a + b| - 1] == a + b[..|b| - 1];
      MergeConcat(g, v, rider, a, b[..|b| - 1]);
    }
  }

  // Flushing in batches merges the concatenated stream, payload by payload, wherever it is cut.
  lemma {:induction false} BatchesMergeTheStream(g: Grid, s: Redis, batches: seq<seq<Payload>>, rider: string)
    ensures View(FlushAll(g, s, batches), rider) == MergeAll(g, View(s, rider), rider, Flatten(batches))
  {
    if batches != [] {
      var n := |batches| - 1;
      BatchesMergeTheStream(g, s, batches[..n], rider);
      FlushMerges(g, FlushAll(g, s, batches[..n]), batches[n], rider);
      MergeConcat(g, View(s, rider), rider, Flatten(batches[..n]), batches[n]);
    }
  }

  // ----- One payload -----

  // What a flush of one payload does. A stale one does nothing. An accepted one sets the clock; if it
  // says offline the rider disappears; if neither coordinate is zero it moves the rider, and its shard
  // entry with it; and otherwise nothing else changes.
  lemma {:induction false} FlushOfOneExactly(g: Grid, s: Redis, p: Payload)
    ensures var s' := Flush(g, s, [p]);
      var stale := p.timestamp <= (if p.rider in s.clocks then s.clocks[p.rider] else 0);
      var moves := p.status != "offline" && p.position.lat != 0.0 && p.position.lng != 0.0;
      && (stale ==> s' == s)
      && (!stale ==> s'.clocks == s.clocks[p.rider := p.timestamp])
      && (!stale && p.status == "offline" ==>
            && s'.coords == s.coords - {p.rider} && s'.lastH7 == s.lastH7 - {p.rider} && s'.lastH5 == s.lastH5 - {p.rider}
            && s'.shards == if p.rider in s.lastH5 then s.shards - {(s.lastH5[p.rider], p.rider)} else s.shards)
      && (!stale && moves ==> MovedTo(g, s, s', p))
      && (!stale && p.status != "offline" && !moves ==> s' == s.(clocks := s'.clocks))
  {
    assert [p][..0] == [] && WriteAll(g, s, []) == s;
  }

  ghost predicate MovedTo(g: Grid, s: Redis, s': Redis, p: Payload) {
    var cell := g.h5(p.position);
    && s'.coords == s.coords[p.rider := p]
    && s'.lastH7 == s.lastH7[p.rider := g.h7(p.position)] && s'.lastH5 == s.lastH5[p.rider := cell]
    && (cell, p.rider) in s'.shards && s'.shards[(cell, p.rider)] == p.position
    && (p.rider in s.lastH5 && s.lastH5[p.rider] != cell ==> (s.lastH5[p.rider], p.rider) !in s'.shards)
    && forall c, r :: r != p.rider || (c != cell && !(r in s.lastH5 && c == s.lastH5[r])) ==>
         ((c, r) in s'.shards <==> (c, r) in s.shards) && ((c, r) in s.shards ==> s'.shards[(c, r)] == s.shards[(c, r)])
  }

  // ----- Clocks -----

  // The clock after a stream is the largest timestamp seen, and at least the clock before it.
  lemma {:induction false} ClockIsLargest(g: Grid, v: Record, rider: string, stream: seq<Payload>)
    ensures var c := MergeAll(g, v, rider, stream).clock;
      && v.clock <= c
      && (forall p :: p in stream && p.rider == rider ==> p.timestamp <= c)
      && (c == v.clock || exists p :: p in stream && p.rider == rider && p.timestamp == c)
  {
    if stream != [] {
      var n := |stream| - 1;
      ClockIsLargest(g, v, rider, stream[..n]);
      assert stream == stream[..n] + [stream[n]];
    }
  }

  lemma {:induction false} StaleWritesNothing(g: Grid, s: Redis, batch: seq<Payload>)
    requires forall p :: p in batch ==> p.timestamp <= ClockOf(s, p.rider)
    ensures Flush(g, s, batch) == s
  {
    if batch != [] {
      StaleWritesNothing(g, s, batch[..|batch| - 1]);
    }
  }

  // Flushing payloads again, later, in any order and any selection, changes nothing at all: no
  // clock, no coordinates, no cell and no shard.
  lemma {:induction false} RedeliveryIsANoOp(g: Grid, s: Redis, batches: seq<seq<Payload>>, again: seq<Payload>)
    requires forall p :: p in again ==> p in Flatten(batches)
    ensures Flush(g, FlushAll(g, s, batches), again) == FlushAll(g, s, batches)
  {
    var s' := FlushAll(g, s, batches);
    forall p | p in again ensures p.timestamp <= ClockOf(s', p.rider) {
      BatchesMergeTheStream(g, s, batches, p.rider);
      ClockIsLargest(g, View(s, p.rider), p.rider, Flatten(batches));
      assert View(s', p.rider).clock == ClockOf(s', p.rider);
    }
    StaleWritesNothing(g, s', again);
  }

  // No flush moves a rider's clock back.
  lemma {:induction false} ClocksNeverDecrease(g: Grid, s: Redis, batches: seq<seq<Payload>>, more: seq<seq<Payload>>, rider: string)
    ensures ClockOf(FlushAll(g, s, batches + more), rider) >= ClockOf(FlushAll(g, s, batches), rider)
  {
    BatchesMergeTheStream(g, s, batches, rider);
    BatchesMergeTheStream(g, s, batches + more, rider);
    FlattenConcat(batches, more);
    MergeConcat(g, View(s, rider), rider, Flatten(batches), Flatten(more));
    ClockIsLargest(g, MergeAll(g, View(s, rider), rider, Flatten(batches)), rider, Flatten(more));
    assert View(FlushAll(g, s, batches + more), rider).clock >= View(FlushAll(g, s, batches), rider).clock;
  }

  lemma {:induction false} FlattenConcat(a: seq<seq<Payload>>, b: seq<seq<Payload>>)
    ensures Flatten(a + b) == Flatten(a) + Flatten(b)
  {
    if b == [] {
      assert a + b == a;
    } else {
      assert (a + b)[..|a + b| - 1] == a + b[..|b| - 1];
      FlattenConcat(a, b[..|b| - 1]);
    }
  }

  // ----- Convergence -----

  // p has the strictly largest timestamp of its rider in the stream.
  ghost predicate IsLatest(stream: seq<Payload>, p: Payload) {
    p in stream && forall q :: q in stream && q.rider == p.rider && q != p ==> q.timestamp < p.timestamp
  }

  lemma {:induction false} LatestRecord(g: Grid, v: Record, stream: seq<Payload>, p: Payload)
    requires IsLatest(stream, p) && v.clock < p.timestamp && (Offline(p) || Positioned(p))
    ensures MergeAll(g, v, p.rider, stream) == RecordOf(g, p)
  {
    var n := |stream| - 1;
    var last, mid := stream[n], MergeAll(g, v, p.rider, stream[..n]);
    assert stream == stream[..n] + [last];
    if p in stream[..n] {
      assert forall q :: q in stream[..n] ==> q in stream;
      LatestRecord(g, v, stream[..n], p);
      assert last.rider == p.rider ==> last.timestamp <= p.timestamp;
    } else {
      ClockIsLargest(g, v, p.rider, stream[..n]);
      if q :| q in stream[..n] && q.rider == p.rider && q.timestamp == mid.clock {
        assert q in stream;
      }
      assert last == p && mid.clock < p.timestamp;
    }
  }

  // A rider's final clock, coordinates and cells are those of its highest-timestamp payload,
  // whatever the order of arrival and however the stream was cut, if that payload is offline or
  // carries a position. The others may be anything.
  lemma {:induction false} LatestPayloadWins(g: Grid, s: Redis, batches: seq<seq<Payload>>, p: Payload)
    requires IsLatest(Flatten(batches), p) && ClockOf(s, p.rider) < p.timestamp && (Offline(p) || Positioned(p))
    ensures View(FlushAll(g, s, batches), p.rider) == RecordOf(g, p)
  {
    BatchesMergeTheStream(g, s, batches, p.rider);
    LatestRecord(g, View(s, p.rider), Flatten(batches), p);
  }

  ghost predicate SameBag(a: seq<Payload>, b: seq<Payload>) {
    multiset(a) == multiset(b)
  }

  // Every order of arrival ends in the same record.
  ghost predicate OrderDoesNotMatter(g: Grid, stream: seq<Payload>, rider: string) {
    forall other :: SameBag(stream, other) ==> MergeAll(g, NO_RECORD, rider, other) == MergeAll(g, NO_RECORD, rider, stream)
  }

  // The rider's payloads that can be accepted, and the one with the largest timestamp.
  ghost predicate Live(stream: seq<Payload>, rider: string, p: Payload) {
    p in stream && p.rider == rider && p.timestamp > 0
  }

  ghost predicate Newest(stream: seq<Payload>, rider: string, p: Payload) {
    Live(stream, rider, p) && forall q :: Live(stream, rider, q) && q != p ==> q.timestamp < p.timestamp
  }

  lemma {:induction false} WithoutPosition(g: Grid, rider: string, stream: seq<Payload>)
    requires forall p :: Live(stream, rider, p) ==> !Positioned(p)
    ensures var v := MergeAll(g, NO_RECORD, rider, stream); v == NO_RECORD.(clock := v.clock) && v.clock >= 0
  {
    if stream != [] {
      var n := |stream| - 1;
      assert forall p :: p in stream[..n] ==> p in stream;
      assert forall p :: Live(stream[..n], rider, p) ==> Live(stream, rider, p);
      WithoutPosition(g, rider, stream[..n]);
      assert stream[n] in stream;
    }
  }

  lemma {:induction false} SameBagSameMembers(a: seq<Payload>, b: seq<Payload>, p: Payload)
    requires SameBag(a, b)
    ensures p in a <==> p in b
  {
    assert p in multiset(a) <==> p in a;
    assert p in multiset(b) <==> p in b;
  }

  // Two streams of the same payloads have the same clock.
  lemma {:induction false} SameClock(g: Grid, rider: string, a: seq<Payload>, b: seq<Payload>)
    requires SameBag(a, b)
    ensures MergeAll(g, NO_RECORD, rider, a).clock == MergeAll(g, NO_RECORD, rider, b).clock
  {
    ClockIsLargest(g, NO_RECORD, rider, a);
    ClockIsLargest(g, NO_RECORD, rider, b);
    forall p ensures p in a <==> p in b {
      SameBagSameMembers(a, b, p);
    }
  }

  lemma {:induction false} OrderIrrelevantWhen(g: Grid, stream: seq<Payload>, rider: string)
    requires (forall p :: Live(stream, rider, p) ==> !Positioned(p))
      || exists p :: Newest(stream, rider, p) && (Offline(p) || Positioned(p))
    ensures OrderDoesNotMatter(g, stream, rider)
  {
    forall other | SameBag(stream, other)
      ensures MergeAll(g, NO_RECORD, rider, other) == MergeAll(g, NO_RECORD, rider, stream)
    {
      forall p ensures p in stream <==> p in other {
        SameBagSameMembers(stream, other, p);
      }
      if p :| Newest(stream, rider, p) && (Offline(p) || Positioned(p)) {
        NewestIsLatest(stream, rider, p);
        assert forall q :: Live(other, rider, q) ==> Live(stream, rider, q);
        NewestIsLatest(other, rider, p);
        LatestRecord(g, NO_RECORD, stream, p);
        LatestRecord(g, NO_RECORD, other, p);
      } else {
        assert forall q :: Live(other, rider, q) ==> Live(stream, rider, q);
        WithoutPosition(g, rider, stream);
        WithoutPosition(g, rider, other);
        SameClock(g, rider, stream, other);
      }
    }
  }

  lemma {:induction false} NewestIsLatest(stream: seq<Payload>, rider: string, p: Payload)
    requires Newest(stream, rider, p)
    ensures IsLatest(stream, p)
  {
    forall q | q in stream && q.rider == p.rider && q != p ensures q.timestamp < p.timestamp {
      if q.timestamp > 0 {
        assert Live(stream, rider, q);
      }
    }
  }

  lemma {:induction false} MergeStale(g: Grid, v: Record, rider: string, stream: seq<Payload>)
    requires forall p :: p in stream && p.rider == rider ==> p.timestamp <= v.clock
    ensures MergeAll(g, v, rider, stream) == v
  {
    if stream != [] {
      assert forall p :: p in stream[..|stream| - 1] ==> p in stream;
      MergeStale(g, v, rider, stream[..|stream| - 1]);
    }
  }

  // e and then p at the front, or p and then e: the first keeps e's coordinates, the second none.
  lemma {:induction false} FrontMatters(g: Grid, rider: string, p: Payload, e: Payload, rest: seq<Payload>)
    requires p.rider == rider == e.rider && 0 < e.timestamp < p.timestamp && Positioned(e) && !Positioned(p) && !Offline(p)
    requires forall q :: q in rest && q.rider == rider ==> q.timestamp <= p.timestamp
    ensures MergeAll(g, NO_RECORD, rider, [e, p] + rest).coords == Some(e)
    ensures MergeAll(g, NO_RECORD, rider, [p, e] + rest).coords == None
  {
    MergeConcat(g, NO_RECORD, rider, [e, p], rest);
    MergeConcat(g, NO_RECORD, rider, [p, e], rest);
    MergeTwo(g, NO_RECORD, rider, e, p);
    MergeTwo(g, NO_RECORD, rider, p, e);
    MergeStale(g, MergeAll(g, NO_RECORD, rider, [e, p]), rider, rest);
    MergeStale(g, MergeAll(g, NO_RECORD, rider, [p, e]), rider, rest);
  }

  lemma {:induction false} MergeTwo(g: Grid, v: Record, rider: string, a: Payload, b: Payload)
    ensures MergeAll(g, v, rider, [a, b]) == Merge(g, Merge(g, v, rider, a), rider, b)
  {
    assert [a, b][..1] == [a] && [a][..0] == [];
    assert MergeAll(g, v, rider, [a]) == Merge(g, v, rider, a);
  }

  ghost function Remove(stream: seq<Payload>, p: Payload): (rest: seq<Payload>)
    requires p in stream
    ensures multiset(stream) == multiset{p} + multiset(rest)
    ensures forall q :: q in stream && q != p ==> q in rest
    ensures forall q :: q in rest ==> q in stream
  {
    var n := |stream| - 1;
    assert stream == stream[..n] + [stream[n]];
    if stream[n] == p then stream[..n] else Remove(stream[..n], p) + [stream[n]]
  }

  lemma {:induction false} BagOfPair(stream: seq<Payload>, a: Payload, b: Payload, rest: seq<Payload>)
    requires multiset(stream) == multiset{a} + multiset{b} + multiset(rest)
    ensures SameBag(stream, [a, b] + rest)
  {
    assert multiset([a, b] + rest) == multiset([a, b]) + multiset(rest);
  }

  lemma {:induction false} BringForward(stream: seq<Payload>, p: Payload, e: Payload) returns (rest: seq<Payload>)
    requires p in stream && e in stream && p != e
    ensures SameBag(stream, [e, p] + rest) && SameBag(stream, [p, e] + rest)
    ensures forall q :: q in rest ==> q in stream
  {
    var some := Remove(stream, p);
    rest := Remove(some, e);
    assert multiset(stream) == multiset{p} + (multiset{e} + multiset(rest));
    BagOfPair(stream, e, p, rest);
    BagOfPair(stream, p, e, rest);
  }

  lemma {:induction false} OrderMattersWhen(g: Grid, stream: seq<Payload>, rider: string, p: Payload, e: Payload)
    requires Newest(stream, rider, p) && !Offline(p) && !Positioned(p)
    requires Live(stream, rider, e) && Positioned(e)
    ensures !OrderDoesNotMatter(g, stream, rider)
  {
    var rest := BringForward(stream, p, e);
    NewestIsLatest(stream, rider, p);
    FrontMatters(g, rider, p, e, rest);
  }

  // With distinct timestamps per rider, every order of arrival gives the same record exactly when
  // the rider's newest payload is offline or carries a position, or none of its payloads does.
  lemma {:induction false} ConvergesExactly(g: Grid, stream: seq<Payload>, rider: string, p: Payload)
    requires Newest(stream, rider, p)
    ensures OrderDoesNotMatter(g, stream, rider) <==>
      Offline(p) || Positioned(p) || forall e :: Live(stream, rider, e) ==> !Positioned(e)
  {
    if Offline(p) || Positioned(p) || forall e :: Live(stream, rider, e) ==> !Positioned(e) {
      OrderIrrelevantWhen(g, stream, rider);
    } else {
      var e :| Live(stream, rider, e) && Positioned(e);
      OrderMattersWhen(g, stream, rider, p, e);
    }
  }

  // ----- The shard index -----

  // A rider with a cell is in its shard, at its latest coordinates.
  ghost predicate Present(s: Redis) {
    forall r :: r in s.lastH5 ==>
      r in s.coords && (s.lastH5[r], r) in s.shards && s.shards[(s.lastH5[r], r)] == s.coords[r].position
  }

  // No shard but that of last_h5 has the rider.
  ghost predicate NoGhosts(s: Redis) {
    forall c: Cell, r: string :: (c, r) in s.shards ==> Get(s.lastH5, r) == Some(c)
  }

  lemma {:induction false} WriteKeepsPresent(g: Grid, before: Redis, s: Redis, p: Payload)
    requires Present(s)
    ensures Present(Write(g, before, s, p))
  {
  }

  // In every state reached from an empty store a rider with a last_h5 is found in that shard at
  // its latest coordinates.
  lemma {:induction false} RidersArePresent(g: Grid, s: Redis, batches: seq<seq<Payload>>)
    requires Present(s)
    ensures Present(FlushAll(g, s, batches))
  {
    if batches != [] {
      var n := |batches| - 1;
      RidersArePresent(g, s, batches[..n]);
      FlushKeepsPresent(g, FlushAll(g, s, batches[..n]), batches[n]);
    }
  }

  lemma {:induction false} FlushKeepsPresent(g: Grid, s: Redis, batch: seq<Payload>)
    requires Present(s)
    ensures Present(Flush(g, s, batch))
  {
    if batch != [] {
      FlushKeepsPresent(g, s, batch[..|batch| - 1]);
      WriteKeepsPresent(g, s, Flush(g, s, batch[..|batch| - 1]), batch[|batch| - 1]);
    }
  }

  // Payload k of the batch is accepted and puts rider r into the shard of cell c.
  ghost predicate Enters(g: Grid, s: Redis, batch: seq<Payload>, k: nat, r: string, c: Cell)
    requires k < |batch|
  {
    && batch[k].rider == r && Positioned(batch[k]) && g.h5(batch[k].position) == c
    && batch[k].timestamp > MergeAll(g, View(s, r), r, batch[..k]).clock
  }

  ghost predicate EntersSome(g: Grid, s: Redis, batch: seq<Payload>, r: string, c: Cell) {
    exists k :: 0 <= k < |batch| && Enters(g, s, batch, k, r, c)
  }

  lemma {:induction false} EntersLast(g: Grid, s: Redis, batch: seq<Payload>, r: string, c: Cell)
    requires batch != []
    ensures EntersSome(g, s, batch, r, c) <==>
      EntersSome(g, s, batch[..|batch| - 1], r, c) || Enters(g, s, batch, |batch| - 1, r, c)
  {
    var n := |batch| - 1;
    forall k | 0 <= k < n ensures Enters(g, s, batch[..n], k, r, c) <==> Enters(g, s, batch, k, r, c) {
      assert batch[..n][..k] == batch[..k] && batch[..n][k] == batch[k];
    }
    if k :| 0 <= k < |batch| && Enters(g, s, batch, k, r, c) {
      assert k < n ==> Enters(g, s, batch[..n], k, r, c);
    }
    if k :| 0 <= k < n && Enters(g, s, batch[..n], k, r, c) {
      assert Enters(g, s, batch, k, r, c);
    }
  }

  lemma {:induction false} ShardAfterWrite(g: Grid, before: Redis, s: Redis, p: Payload, r: string, c: Cell)
    ensures (c, r) in Write(g, before, s, p).shards <==>
      if p.rider != r || p.timestamp <= ClockOf(s, r) then (c, r) in s.shards
      else if Positioned(p) && g.h5(p.position) == c then true
      else (c, r) in s.shards && !(Get(before.lastH5, r) == Some(c) && (Offline(p) || Positioned(p)))
  {
  }

  lemma {:induction false} CellAfterWrite(g: Grid, before: Redis, s: Redis, p: Payload, r: string)
    ensures Get(Write(g, before, s, p).lastH5, r) ==
      if p.rider != r || p.timestamp <= ClockOf(s, r) || !(Offline(p) || Positioned(p)) then Get(s.lastH5, r)
      else if Offline(p) then None else Some(g.h5(p.position))
  {
  }

  // The cell read before the batch is handled rightly; any other cell has the rider exactly when
  // some accepted payload of the batch entered it.
  ghost predicate ShardIs(g: Grid, before: Redis, batch: seq<Payload>, s: Redis, r: string, c: Cell) {
    (c, r) in s.shards <==>
      if Get(before.lastH5, r) == Some(c) then Get(s.lastH5, r) == Some(c) else EntersSome(g, before, batch, r, c)
  }

  lemma {:induction false} ShardAfterFlush(g: Grid, s: Redis, batch: seq<Payload>, r: string, c: Cell)
    requires Present(s) && NoGhosts(s)
    ensures ShardIs(g, s, batch, Flush(g, s, batch), r, c)
  {
    if batch != [] {
      var n := |batch| - 1;
      var mid, p := Flush(g, s, batch[..n]), batch[n];
      ShardAfterFlush(g, s, batch[..n], r, c);
      FlushMerges(g, s, batch[..n], r);
      assert ClockOf(mid, r) == View(mid, r).clock;
      EntersLast(g, s, batch, r, c);
      ShardAfterWrite(g, s, mid, p, r, c);
      CellAfterWrite(g, s, mid, p, r);
      assert Enters(g, s, batch, n, r, c) <==>
        p.rider == r && p.timestamp > ClockOf(mid, r) && Positioned(p) && g.h5(p.position) == c;
    }
  }

  // A flush leaves no ghost exactly when every shard an accepted payload entered is the one read
  // before the batch or the last one.
  lemma {:induction false} FlushLeavesNoGhostExactly(g: Grid, s: Redis, batch: seq<Payload>)
    requires Present(s) && NoGhosts(s)
    ensures NoGhosts(Flush(g, s, batch)) <==>
      forall r, c :: EntersSome(g, s, batch, r, c) ==>
        Some(c) in {Get(s.lastH5, r), MergeAll(g, View(s, r), r, batch).h5}
  {
    var s' := Flush(g, s, batch);
    forall r, c
      ensures (c, r) in s'.shards && Get(s'.lastH5, r) != Some(c) <==>
        EntersSome(g, s, batch, r, c) && Some(c) !in {Get(s.lastH5, r), MergeAll(g, View(s, r), r, batch).h5}
    {
      ShardAfterFlush(g, s, batch, r, c);
      FlushMerges(g, s, batch, r);
      assert View(s', r).h5 == Get(s'.lastH5, r);
    }
  }

  ghost predicate OncePerRider(batch: seq<Payload>) {
    forall i, j :: 0 <= i < j < |batch| ==> batch[i].rider != batch[j].rider
  }

  lemma {:induction false} OtherRidersDoNotMatter(g: Grid, v: Record, rider: string, stream: seq<Payload>)
    requires forall p :: p in stream ==> p.rider != rider
    ensures MergeAll(g, v, rider, stream) == v
  {
    if stream != [] {
      assert forall p :: p in stream[..|stream| - 1] ==> p in stream;
      OtherRidersDoNotMatter(g, v, rider, stream[..|stream| - 1]);
    }
  }

  lemma {:induction false} OnlyEntryIsLast(g: Grid, s: Redis, batch: seq<Payload>, k: nat, r: string, c: Cell)
    requires OncePerRider(batch) && k < |batch| && Enters(g, s, batch, k, r, c)
    ensures MergeAll(g, View(s, r), r, batch).h5 == Some(c)
  {
    var front, tail := batch[..k + 1], batch[k + 1..];
    assert batch == front + tail && front[..k] == batch[..k];
    MergeConcat(g, View(s, r), r, front, tail);
    assert MergeAll(g, View(s, r), r, front).h5 == Some(c);
    OtherRidersDoNotMatter(g, MergeAll(g, View(s, r), r, front), r, tail);
  }

  // When no batch has a rider twice, a rider is in shard c after any number of flushes exactly
  // when its last_h5 is c: so in at most one shard.
  lemma {:induction false} ShardsAgree(g: Grid, batches: seq<seq<Payload>>)
    requires forall b :: b in batches ==> OncePerRider(b)
    ensures var s := FlushAll(g, EMPTY_REDIS, batches);
      forall c: Cell, r: string :: (c, r) in s.shards <==> Get(s.lastH5, r) == Some(c)
  {
    NoGhostsWhenOnce(g, batches);
    RidersArePresent(g, EMPTY_REDIS, batches);
  }

  lemma {:induction false} NoGhostsWhenOnce(g: Grid, batches: seq<seq<Payload>>)
    requires forall b :: b in batches ==> OncePerRider(b)
    ensures NoGhosts(FlushAll(g, EMPTY_REDIS, batches))
  {
    if batches != [] {
      var n := |batches| - 1;
      var s, last := FlushAll(g, EMPTY_REDIS, batches[..n]), batches[n];
      assert forall b :: b in batches[..n] ==> b in batches;
      NoGhostsWhenOnce(g, batches[..n]);
      RidersArePresent(g, EMPTY_REDIS, batches[..n]);
      forall r, c | EntersSome(g, s, last, r, c) ensures MergeAll(g, View(s, r), r, last).h5 == Some(c) {
        var k :| 0 <= k < |last| && Enters(g, s, last, k, r, c);
        OnlyEntryIsLast(g, s, last, k, r, c);
      }
      FlushLeavesNoGhostExactly(g, s, last);
    }
  }

  // Two moves of one rider in one batch leave it in both shards.
  lemma {:induction false} TwoMovesLeaveAGhost(g: Grid, p: Payload, q: Payload)
    requires p.rider == q.rider && 0 < p.timestamp < q.timestamp && Positioned(p) && Positioned(q)
    requires g.h5(p.position) != g.h5(q.position)
    ensures var s := Flush(g, EMPTY_REDIS, [p, q]);
      (g.h5(p.position), p.rider) in s.shards && (g.h5(q.position), p.rider) in s.shards
      && Get(s.lastH5, p.rider) == Some(g.h5(q.position))
  {
    assert [p, q][..1] == [p] && [p][..0] == [];
    assert WriteAll(g, EMPTY_REDIS, [p]) == Write(g, EMPTY_REDIS, EMPTY_REDIS, p);
  }
}
