// Nearest riders over sharded geo sets: the closest maxRiders of every shard, merged without
// repetition, insertion-sorted in place and capped.
module Proximity {
  import opened Wrappers

  // ----- Shards and their answers -----

  datatype Rider = Rider(id: string, distance: real, lat: real, lng: real)

  // The members of one geo set, by name, with their distance from the pickup point.
  type Shard = map<string, Rider>

  predicate Within(shard: Shard, radius: real, r: Rider) {
    r.id in shard && shard[r.id] == r && r.distance <= radius
  }

  // What GEORADIUS ... COUNT max ASC may answer; a count of 0 asks for everybody.
  ghost predicate ClosestOf(shard: Shard, radius: real, max: nat, reply: seq<Rider>) {
    && (forall k :: 0 <= k < |reply| ==> Within(shard, radius, reply[k]))
    && (forall k, l :: 0 <= k < l < |reply| ==> reply[k] != reply[l] && reply[k].distance <= reply[l].distance)
    && (max > 0 ==> |reply| <= max)
    && (forall r :: Within(shard, radius, r) && r !in reply ==>
          max > 0 && |reply| == max && forall k :: 0 <= k < |reply| ==> reply[k].distance <= r.distance)
  }

  // ----- The stages -----

  // The answers in order; a shard whose query failed is skipped.
  function Flat(replies: seq<Option<seq<Rider>>>): seq<Rider> {
    if replies == [] then []
    else
      var last := replies[|replies| - 1];
      Flat(replies[..|replies| - 1]) + if last.Some? then last.value else []
  }

  ghost function Ids(riders: seq<Rider>): set<string> {
    set k | 0 <= k < |riders| :: riders[k].id
  }

  // The first occurrence of every id.
  ghost function Dedup(riders: seq<Rider>): seq<Rider> {
    if riders == [] then []
    else
      var rest, last := riders[..|riders| - 1], riders[|riders| - 1];
      Dedup(rest) + if last.id in Ids(rest) then [] else [last]
  }

  // Inserts behind everyone at most as far away.
  function Insert(riders: seq<Rider>, key: Rider): seq<Rider> {
    if riders != [] && riders[|riders| - 1].distance > key.distance
    then Insert(riders[..|riders| - 1], key) + [riders[|riders| - 1]]
    else riders + [key]
  }

  function Sort(riders: seq<Rider>): seq<Rider> {
    if riders == [] then [] else Insert(Sort(riders[..|riders| - 1]), riders[|riders| - 1])
  }

  function Cap(riders: seq<Rider>, max: nat): seq<Rider> {
    if |riders| > max then riders[..max] else riders
  }

  // ----- The code -----

  // Where Insert puts the key.
  ghost predicate InsertsAt(riders: seq<Rider>, key: Rider, j: nat) {
    && j <= |riders|
    && (forall k :: j <= k < |riders| ==> riders[k].distance > key.distance)
    && (j > 0 ==> riders[j - 1].distance <= key.distance)
  }

  lemma {:induction false} InsertShifts(riders: seq<Rider>, key: Rider, j: nat)
    requires InsertsAt(riders, key, j)
    ensures Insert(riders, key) == riders[..j] + [key] + riders[j..]
  {
    var n := |riders| - 1;
    if j <= n {
      InsertShifts(riders[..n], key, j);
      assert riders[..n][..j] == riders[..j];
      assert riders[j..] == riders[..n][j..] + [riders[n]];
    } else {
      assert riders[..j] == riders && riders[j..] == [];
    }
  }

  // The shifting loop has opened a gap at j, and the key fills it.
  lemma {:induction false} GapFilled(front: seq<Rider>, key: Rider, j: nat, now: seq<Rider>)
    requires j <= |front| < |now| && now[j] == key
    requires forall k :: 0 <= k < j ==> now[k] == front[k]
    requires forall k :: j <= k < |front| ==> now[k + 1] == front[k]
    ensures now[..|front| + 1] == front[..j] + [key] + front[j..]
  {
    forall k | j < k < |front| + 1 ensures now[k] == front[k - 1] {
      assert now[(k - 1) + 1] == front[k - 1];
    }
  }

  // One round of the outer loop: moves a[i] down past everyone further away.
  method InsertAt(a: array<Rider>, i: nat)
    requires i < a.Length
    modifies a
    ensures a[..i + 1] == Insert(old(a[..i]), old(a[i])) && a[i + 1..] == old(a[i + 1..])
  {
    ghost var front := a[..i];
    var key := a[i];
    var j: int := i - 1;
    while j >= 0 && a[j].distance > key.distance
      invariant -1 <= j < i
      invariant forall k :: 0 <= k <= j ==> a[k] == front[k]
      invariant forall k :: j + 1 <= k < i ==> a[k + 1] == front[k] && front[k].distance > key.distance
      invariant forall k :: i < k < a.Length ==> a[k] == old(a[k])
    {
      a[j + 1] := a[j];
      j := j - 1;
    }
    a[j + 1] := key;
    InsertShifts(front, key, j + 1);
    GapFilled(front, key, j + 1, a[..]);
    assert a[..][..i + 1] == a[..i + 1];
  }

  lemma {:induction false} SortOfOne(r: Rider)
    ensures Sort([r]) == [r]
  {
    assert [r][..0] == [];
  }

  method SortRidersByDistance(a: array<Rider>)
    modifies a
    ensures a[..] == Sort(old(a[..]))
  {
    if a.Length == 0 {
      return;
    }
    ghost var was := a[..];
    SortOfOne(a[0]);
    assert a[..1] == was[..1] == [a[0]];
    var i := 1;
    while i < a.Length
      invariant 1 <= i <= a.Length && |was| == a.Length
      invariant a[..i] == Sort(was[..i]) && a[i..] == was[i..]
    {
      assert a[i] == a[i..][0] == was[i] && a[i + 1..] == was[i..][1..];
      InsertAt(a, i);
      SortOneMore(was, i);
      i := i + 1;
    }
    assert a[..a.Length] == a[..] && was[..a.Length] == was;
  }

  lemma {:induction false} SortOneMore(riders: seq<Rider>, i: nat)
    requires i < |riders|
    ensures Sort(riders[..i + 1]) == Insert(Sort(riders[..i]), riders[i])
  {
    assert riders[..i + 1][..i] == riders[..i];
  }

  lemma {:induction false} TakeOneMore(before: seq<Rider>, results: seq<Rider>, j: nat)
    requires j < |results|
    ensures var taken, id := before + results[..j], results[j].id;
      && Dedup(before + results[..j + 1]) == (if id in Ids(taken) then Dedup(taken) else Dedup(taken) + [results[j]])
      && Ids(before + results[..j + 1]) == Ids(taken) + {id}
  {
    DedupOneMore(before + results[..j], results[j]);
    assert before + results[..j + 1] == before + results[..j] + [results[j]];
  }

  // The loop over one answer.
  method TakeUnseen(all: seq<Rider>, seen: set<string>, results: seq<Rider>, ghost before: seq<Rider>)
      returns (all': seq<Rider>, seen': set<string>)
    requires all == Dedup(before) && seen == Ids(before)
    ensures all' == Dedup(before + results) && seen' == Ids(before + results)
  {
    all', seen' := all, seen;
    assert before + results[..0] == before;
    for j := 0 to |results|
      invariant all' == Dedup(before + results[..j]) && seen' == Ids(before + results[..j])
    {
      TakeOneMore(before, results, j);
      if results[j].id !in seen' {
        seen' := seen' + {results[j].id};
        all' := all' + [results[j]];
      }
    }
    assert results[..|results|] == results;
  }

  lemma {:induction false} FlatOneMore(replies: seq<Option<seq<Rider>>>, i: nat)
    requires i < |replies|
    ensures Flat(replies[..i + 1]) == Flat(replies[..i]) + if replies[i].Some? then replies[i].value else []
  {
    assert replies[..i + 1][..i] == replies[..i];
  }

  method Collect(replies: seq<Option<seq<Rider>>>) returns (all: seq<Rider>)
    ensures all == Dedup(Flat(replies))
  {
    all := [];
    var seen: set<string> := {};
    for i := 0 to |replies|
      invariant all == Dedup(Flat(replies[..i])) && seen == Ids(Flat(replies[..i]))
    {
      FlatOneMore(replies, i);
      if replies[i].Some? {
        all, seen := TakeUnseen(all, seen, replies[i].value, Flat(replies[..i]));
      } else {
        assert Flat(replies[..i + 1]) == Flat(replies[..i]);
      }
    }
    assert replies[..|replies|] == replies;
  }

  method FindNearbyRiders(replies: seq<Option<seq<Rider>>>, max: nat) returns (found: seq<Rider>)
    ensures found == Cap(Sort(Dedup(Flat(replies))), max)
  {
    var all := Collect(replies);
    var a := new Rider[|all|](k requires 0 <= k < |all| => all[k]);
    assert a[..] == all;
    SortRidersByDistance(a);
    found := a[..];
    if |found| > max {
      found := found[..max];
    }
  }

  lemma {:induction false} DedupOneMore(riders: seq<Rider>, r: Rider)
    ensures Dedup(riders + [r]) == Dedup(riders) + (if r.id in Ids(riders) then [] else [r])
    ensures Ids(riders + [r]) == Ids(riders) + {r.id}
  {
    var more := riders + [r];
    assert more[..|more| - 1] == riders;
    forall id ensures id in Ids(more) <==> id in Ids(riders) || id == r.id {
      if id in Ids(riders) {
        var k :| 0 <= k < |riders| && riders[k].id == id;
        assert more[k].id == id;
      }
      assert more[|riders|].id == r.id;
    }
  }

  // ----- The sort -----

  ghost predicate Ascending(riders: seq<Rider>) {
    forall k, l :: 0 <= k < l < |riders| ==> riders[k].distance <= riders[l].distance
  }

  ghost predicate DistinctIds(riders: seq<Rider>) {
    forall k, l :: 0 <= k < l < |riders| ==> riders[k].id != riders[l].id
  }

  // Those exactly d away, in order.
  ghost function At(riders: seq<Rider>, d: real): seq<Rider> {
    if riders == [] then []
    else At(riders[..|riders| - 1], d) + if riders[|riders| - 1].distance == d then [riders[|riders| - 1]] else []
  }

  lemma {:induction false} AtConcat(a: seq<Rider>, b: seq<Rider>, d: real)
    ensures At(a + b, d) == At(a, d) + At(b, d)
  {
    if b == [] {
      assert a + b == a;
    } else {
      assert (a + b)[..|a + b| - 1] == a + b[..|b| - 1];
      AtConcat(a, b[..|b| - 1], d);
    }
  }

  lemma {:induction false} NobodyAt(riders: seq<Rider>, d: real)
    requires forall k :: 0 <= k < |riders| ==> riders[k].distance > d
    ensures At(riders, d) == []
  {
    if riders != [] {
      NobodyAt(riders[..|riders| - 1], d);
    }
  }

  lemma {:induction false} InsertPoint(riders: seq<Rider>, key: Rider) returns (j: nat)
    ensures InsertsAt(riders, key, j)
  {
    if riders != [] && riders[|riders| - 1].distance > key.distance {
      j := InsertPoint(riders[..|riders| - 1], key);
    } else {
      j := |riders|;
    }
  }

  lemma {:induction false} InsertIsStable(riders: seq<Rider>, key: Rider, d: real)
    ensures At(Insert(riders, key), d) == At(riders + [key], d)
  {
    var j := InsertPoint(riders, key);
    InsertShifts(riders, key, j);
    assert riders == riders[..j] + riders[j..];
    AtConcat(riders[..j] + [key], riders[j..], d);
    AtConcat(riders[..j], [key], d);
    AtConcat(riders, [key], d);
    AtConcat(riders[..j], riders[j..], d);
    if key.distance == d {
      NobodyAt(riders[j..], d);
    } else {
      assert [key][..0] == [] && At([key], d) == [];
    }
  }

  lemma {:induction false} StableStep(sorted: seq<Rider>, rest: seq<Rider>, last: Rider, d: real)
    requires At(sorted, d) == At(rest, d)
    ensures At(Insert(sorted, last), d) == At(rest + [last], d)
  {
    InsertIsStable(sorted, last, d);
    AtConcat(sorted, [last], d);
    AtConcat(rest, [last], d);
  }

  // The sort is stable: for every distance, those that far away come out in the order they went
  // in. So it only rearranges.
  lemma {:induction false} SortIsStable(riders: seq<Rider>, d: real)
    ensures At(Sort(riders), d) == At(riders, d)
  {
    if riders != [] {
      var rest, last := riders[..|riders| - 1], riders[|riders| - 1];
      SortIsStable(rest, d);
      StableStep(Sort(rest), rest, last, d);
      assert riders == rest + [last];
    }
  }

  lemma {:induction false} InsertAscending(riders: seq<Rider>, key: Rider)
    requires Ascending(riders)
    ensures Ascending(Insert(riders, key))
  {
    var j := InsertPoint(riders, key);
    InsertShifts(riders, key, j);
  }

  lemma {:induction false} InsertMembers(riders: seq<Rider>, key: Rider)
    ensures |Insert(riders, key)| == |riders| + 1
    ensures forall r :: r in Insert(riders, key) <==> r in riders || r == key
  {
    if riders != [] && riders[|riders| - 1].distance > key.distance {
      InsertMembers(riders[..|riders| - 1], key);
      assert riders == riders[..|riders| - 1] + [riders[|riders| - 1]];
    }
  }

  lemma {:induction false} DistinctInsert(front: seq<Rider>, key: Rider, back: seq<Rider>)
    requires DistinctIds(front + back) && forall r :: r in front + back ==> r.id != key.id
    ensures DistinctIds(front + [key] + back)
  {
    var was, now := front + back, front + [key] + back;
    assert forall k :: 0 <= k < |front| ==> now[k] == was[k];
    assert forall k :: |front| < k < |now| ==> now[k] == was[k - 1];
    assert forall k :: 0 <= k < |was| ==> was[k].id != key.id;
  }

  lemma {:induction false} InsertKeepsDistinct(riders: seq<Rider>, key: Rider)
    requires DistinctIds(riders) && forall r :: r in riders ==> r.id != key.id
    ensures DistinctIds(Insert(riders, key))
  {
    var j := InsertPoint(riders, key);
    InsertShifts(riders, key, j);
    assert riders == riders[..j] + riders[j..];
    DistinctInsert(riders[..j], key, riders[j..]);
  }

  // The sort orders by distance and keeps who is there.
  lemma {:induction false} SortIsAscending(riders: seq<Rider>)
    ensures Ascending(Sort(riders))
  {
    if riders != [] {
      SortIsAscending(riders[..|riders| - 1]);
      InsertAscending(Sort(riders[..|riders| - 1]), riders[|riders| - 1]);
    }
  }

  lemma {:induction false} SortMembers(riders: seq<Rider>)
    ensures |Sort(riders)| == |riders|
    ensures forall r :: r in Sort(riders) <==> r in riders
    ensures DistinctIds(riders) ==> DistinctIds(Sort(riders))
  {
    if riders != [] {
      var rest, last := riders[..|riders| - 1], riders[|riders| - 1];
      SortMembers(rest);
      InsertMembers(Sort(rest), last);
      assert riders == rest + [last];
      if DistinctIds(riders) {
        InsertKeepsDistinct(Sort(rest), last);
      }
    }
  }

  // ----- The merge -----

  lemma {:induction false} DedupMembers(riders: seq<Rider>)
    ensures Ids(Dedup(riders)) == Ids(riders)
    ensures forall r :: r in Dedup(riders) ==> r in riders
  {
    if riders != [] {
      var rest, last := riders[..|riders| - 1], riders[|riders| - 1];
      DedupMembers(rest);
      assert riders == rest + [last];
      DedupOneMore(rest, last);
      DedupOneMore(Dedup(rest), last);
      assert last.id in Ids(rest) ==> Dedup(riders) == Dedup(rest);
    }
  }

  lemma {:induction false} DedupIsDistinct(riders: seq<Rider>)
    ensures DistinctIds(Dedup(riders))
  {
    if riders != [] {
      var rest := riders[..|riders| - 1];
      DedupIsDistinct(rest);
      DedupMembers(rest);
      forall k | 0 <= k < |Dedup(rest)| ensures Dedup(rest)[k].id in Ids(rest) {
        assert Dedup(rest)[k].id in Ids(Dedup(rest));
      }
    }
  }

  // The entries of one rider in several shards are alike; in particular when no rider is in two.
  ghost predicate Coherent(shards: seq<Shard>) {
    forall i, j, id :: 0 <= i < |shards| && 0 <= j < |shards| && id in shards[i] && id in shards[j] ==>
      shards[i][id] == shards[j][id]
  }

  ghost predicate Answered(shards: seq<Shard>, radius: real, max: nat, replies: seq<Option<seq<Rider>>>) {
    && |replies| == |shards|
    && forall i :: 0 <= i < |shards| && replies[i].Some? ==> ClosestOf(shards[i], radius, max, replies[i].value)
  }

  // A rider within the radius in some shard that answered.
  ghost predicate Candidate(shards: seq<Shard>, radius: real, replies: seq<Option<seq<Rider>>>, r: Rider)
    requires |replies| == |shards|
  {
    exists i :: 0 <= i < |shards| && replies[i].Some? && Within(shards[i], radius, r)
  }

  lemma {:induction false} FlatMembers(replies: seq<Option<seq<Rider>>>, r: Rider)
    ensures r in Flat(replies) <==> exists i :: 0 <= i < |replies| && replies[i].Some? && r in replies[i].value
  {
    if replies != [] {
      var rest := replies[..|replies| - 1];
      FlatMembers(rest, r);
      if i :| 0 <= i < |replies| && replies[i].Some? && r in replies[i].value {
        assert i < |rest| ==> rest[i] == replies[i];
      }
      if i :| 0 <= i < |rest| && rest[i].Some? && r in rest[i].value {
        assert replies[i] == rest[i];
      }
    }
  }

  ghost predicate IsFirst(riders: seq<Rider>, k: int) {
    0 <= k < |riders| && forall j :: 0 <= j < k ==> riders[j].id != riders[k].id
  }

  ghost predicate IsSomeFirst(riders: seq<Rider>, r: Rider) {
    exists k {:trigger IsFirst(riders, k)} :: IsFirst(riders, k) && riders[k] == r
  }

  lemma {:induction false} FirstInFront(riders: seq<Rider>, last: Rider, k: int)
    requires k < |riders|
    ensures IsFirst(riders + [last], k) <==> IsFirst(riders, k)
  {
    assert forall j :: 0 <= j <= k ==> (riders + [last])[j] == riders[j];
  }

  lemma {:induction false} FirstAtEnd(riders: seq<Rider>, last: Rider)
    ensures IsFirst(riders + [last], |riders|) <==> last.id !in Ids(riders)
  {
    assert forall j :: 0 <= j < |riders| ==> (riders + [last])[j] == riders[j];
  }

  lemma {:induction false} FirstOneMore(riders: seq<Rider>, last: Rider, r: Rider)
    ensures IsSomeFirst(riders + [last], r) <==> IsSomeFirst(riders, r) || (r == last && last.id !in Ids(riders))
  {
    FirstAtEnd(riders, last);
    if IsSomeFirst(riders, r) {
      var k :| IsFirst(riders, k) && riders[k] == r;
      FirstInFront(riders, last, k);
      assert (riders + [last])[k] == r;
    }
    if r == last && last.id !in Ids(riders) {
      assert (riders + [last])[|riders|] == r;
    }
    if IsSomeFirst(riders + [last], r) {
      var k :| IsFirst(riders + [last], k) && (riders + [last])[k] == r;
      if k < |riders| {
        FirstInFront(riders, last, k);
      }
    }
  }

  // The entry kept of a rider is the first one in the order of the answers.
  lemma {:induction false} DedupKeepsFirst(riders: seq<Rider>, r: Rider)
    ensures r in Dedup(riders) <==> IsSomeFirst(riders, r)
  {
    if riders != [] {
      var rest, last := riders[..|riders| - 1], riders[|riders| - 1];
      DedupKeepsFirst(rest, r);
      KeepsFirstOneMore(rest, last, r);
      assert riders == rest + [last];
    }
  }

  lemma {:induction false} KeepsFirstOneMore(riders: seq<Rider>, last: Rider, r: Rider)
    requires r in Dedup(riders) <==> IsSomeFirst(riders, r)
    ensures r in Dedup(riders + [last]) <==> IsSomeFirst(riders + [last], r)
  {
    DedupOneMore(riders, last);
    FirstOneMore(riders, last, r);
  }

  ghost predicate IsClosest(riders: seq<Rider>, r: Rider) {
    forall j :: 0 <= j < |riders| && riders[j].id == r.id ==> r.distance <= riders[j].distance
  }

  // It is the rider's closest entry exactly when no later one is closer.
  lemma {:induction false} KeptIsClosestExactly(riders: seq<Rider>, k: nat)
    requires IsFirst(riders, k)
    ensures riders[k] in Dedup(riders)
    ensures IsClosest(riders, riders[k]) <==>
      forall j :: k < j < |riders| && riders[j].id == riders[k].id ==> riders[k].distance <= riders[j].distance
  {
    DedupKeepsFirst(riders, riders[k]);
    assert IsSomeFirst(riders, riders[k]);
  }

  // By coherence the record kept for an id is the record of every shard that answered it.
  lemma {:induction false} AnsweredIsKept(
      shards: seq<Shard>, radius: real, max: nat, replies: seq<Option<seq<Rider>>>, i: nat, r: Rider)
    requires Coherent(shards) && Answered(shards, radius, max, replies)
    requires i < |replies| && replies[i].Some? && r in replies[i].value
    ensures r in Dedup(Flat(replies))
  {
    var flat := Flat(replies);
    FlatMembers(replies, r);
    DedupMembers(flat);
    var k :| 0 <= k < |flat| && flat[k] == r;
    assert r.id in Ids(flat);
    var m :| 0 <= m < |Dedup(flat)| && Dedup(flat)[m].id == r.id;
    var kept := Dedup(flat)[m];
    assert kept in Dedup(flat);
    FlatMembers(replies, kept);
    var j :| 0 <= j < |replies| && replies[j].Some? && kept in replies[j].value;
    assert Within(shards[j], radius, kept) && Within(shards[i], radius, r);
  }

  lemma {:induction false} KeptIsCandidate(
      shards: seq<Shard>, radius: real, max: nat, replies: seq<Option<seq<Rider>>>, r: Rider)
    requires Answered(shards, radius, max, replies) && r in Dedup(Flat(replies))
    ensures Candidate(shards, radius, replies, r)
  {
    DedupMembers(Flat(replies));
    FlatMembers(replies, r);
  }

  ghost predicate Distinct(riders: seq<Rider>) {
    forall k, l :: 0 <= k < l < |riders| ==> riders[k] != riders[l]
  }

  ghost function Members(riders: seq<Rider>): set<Rider> {
    set r | r in riders
  }

  lemma {:induction false} MembersBound(riders: seq<Rider>)
    ensures |Members(riders)| <= |riders|
    ensures Distinct(riders) ==> |Members(riders)| == |riders|
  {
    if riders == [] {
      assert Members(riders) == {};
    } else {
      var rest, last := riders[..|riders| - 1], riders[|riders| - 1];
      MembersBound(rest);
      assert riders == rest + [last];
      assert Members(riders) == Members(rest) + {last};
      if Distinct(riders) {
        assert last !in Members(rest);
      }
    }
  }

  lemma {:induction false} SubsetIsSmaller(a: set<Rider>, b: set<Rider>)
    requires a <= b
    ensures |a| <= |b|
  {
    assert b == a + (b - a);
  }

  // If n distinct members of an ascending sequence are no further than d, neither are its first n.
  lemma {:induction false} FirstAreClose(sorted: seq<Rider>, close: seq<Rider>, d: real, k: nat)
    requires Ascending(sorted) && Distinct(close) && k < |close| <= |sorted|
    requires forall r :: r in close ==> r in sorted && r.distance <= d
    ensures sorted[k].distance <= d
  {
    if sorted[k].distance > d {
      forall r | r in close ensures r in sorted[..k] {
        var m :| 0 <= m < |sorted| && sorted[m] == r;
        assert sorted[..k][m] == r;
      }
      MembersBound(close);
      MembersBound(sorted[..k]);
      SubsetIsSmaller(Members(close), Members(sorted[..k]));
      assert false;
    }
  }

  lemma {:induction false} CloseFitInside(sorted: seq<Rider>, close: seq<Rider>)
    requires Distinct(close) && forall r :: r in close ==> r in sorted
    ensures |close| <= |sorted|
  {
    MembersBound(close);
    MembersBound(sorted);
    SubsetIsSmaller(Members(close), Members(sorted));
  }

  // The answer is free of duplicates, sorted by distance, made of riders within the radius, and no
  // rider left out of it is closer than one in it: the closest maxRiders over all the shards that
  // answered, or everybody there is.
  ghost predicate NearestOverall(
    shards: seq<Shard>, radius: real, max: nat, replies: seq<Option<seq<Rider>>>, found: seq<Rider>)
    requires |replies| == |shards|
  {
    && |found| <= max && Ascending(found) && DistinctIds(found)
    && (forall r :: r in found ==> Candidate(shards, radius, replies, r))
    && (forall r :: Candidate(shards, radius, replies, r) && r !in found ==>
          |found| == max && forall k :: 0 <= k < |found| ==> found[k].distance <= r.distance)
  }

  // max of the sorted riders are no further away.
  ghost predicate Behind(sorted: seq<Rider>, max: nat, r: Rider) {
    max <= |sorted| && forall k :: 0 <= k < max ==> sorted[k].distance <= r.distance
  }

  // A rider that its own shard left out is behind max others.
  lemma {:induction false} UnansweredIsBehind(sorted: seq<Rider>, max: nat, reply: seq<Rider>, r: Rider)
    requires Ascending(sorted) && Distinct(reply) && |reply| == max && r !in reply
    requires forall x :: x in reply ==> x in sorted && x.distance <= r.distance
    ensures Behind(sorted, max, r)
  {
    CloseFitInside(sorted, reply);
    forall k | 0 <= k < max ensures sorted[k].distance <= r.distance {
      FirstAreClose(sorted, reply, r.distance, k);
    }
  }

  lemma {:induction false} CappedIsBehind(sorted: seq<Rider>, max: nat, r: Rider)
    requires Ascending(sorted) && r in sorted
    ensures r in Cap(sorted, max) || Behind(sorted, max, r)
  {
    var m :| 0 <= m < |sorted| && sorted[m] == r;
    if m < max {
      assert Cap(sorted, max)[m] == r;
    }
  }

  // Every entry that was dropped for an earlier one of the same rider is behind maxRiders others.
  ghost predicate DroppedAreBehind(replies: seq<Option<seq<Rider>>>, max: nat) {
    forall e :: e in Flat(replies) && e !in Dedup(Flat(replies)) ==> Behind(Sort(Dedup(Flat(replies))), max, e)
  }

  lemma {:induction false} LeftOutIsBehind(
      shards: seq<Shard>, radius: real, max: nat, replies: seq<Option<seq<Rider>>>, i: nat, r: Rider)
    requires Answered(shards, radius, max, replies) && DroppedAreBehind(replies, max)
    requires i < |shards| && replies[i].Some? && Within(shards[i], radius, r)
    requires r !in Cap(Sort(Dedup(Flat(replies))), max)
    ensures Behind(Sort(Dedup(Flat(replies))), max, r)
  {
    var kept, reply := Dedup(Flat(replies)), replies[i].value;
    SortIsAscending(kept);
    SortMembers(kept);
    forall x | x in reply ensures x in Flat(replies) {
      FlatMembers(replies, x);
    }
    assert ClosestOf(shards[i], radius, max, reply);
    if r in kept {
      CappedIsBehind(Sort(kept), max, r);
    } else if r !in reply {
      UnansweredOrDropped(shards[i], radius, max, reply, Sort(kept), r);
    }
  }

  lemma {:induction false} UnansweredOrDropped(
      shard: Shard, radius: real, max: nat, reply: seq<Rider>, sorted: seq<Rider>, r: Rider)
    requires ClosestOf(shard, radius, max, reply) && Within(shard, radius, r) && r !in reply && Ascending(sorted)
    requires forall x :: x in reply && x !in sorted ==> Behind(sorted, max, x)
    ensures Behind(sorted, max, r)
  {
    if x :| x in reply && x !in sorted {
      assert Behind(sorted, max, x) && x.distance <= r.distance;
    } else {
      UnansweredIsBehind(sorted, max, reply, r);
    }
  }

  lemma {:induction false} CapKeeps(sorted: seq<Rider>, max: nat)
    requires Ascending(sorted) && DistinctIds(sorted)
    ensures var found := Cap(sorted, max);
      |found| <= max && Ascending(found) && DistinctIds(found) && forall r :: r in found ==> r in sorted
  {
  }

  lemma {:induction false} DroppedIsBehind(
      shards: seq<Shard>, radius: real, max: nat, replies: seq<Option<seq<Rider>>>, e: Rider)
    requires Answered(shards, radius, max, replies)
    requires NearestOverall(shards, radius, max, replies, Cap(Sort(Dedup(Flat(replies))), max))
    requires e in Flat(replies) && e !in Dedup(Flat(replies))
    ensures Behind(Sort(Dedup(Flat(replies))), max, e)
  {
    var kept := Dedup(Flat(replies));
    var found := Cap(Sort(kept), max);
    SortMembers(kept);
    FlatMembers(replies, e);
    assert Candidate(shards, radius, replies, e);
    assert e !in found;
    assert forall k :: 0 <= k < max ==> Sort(kept)[k] == found[k];
  }

  // ----- The condition over the replies -----

  // The first entries of their riders that are within the distance.
  ghost function FirstsWithin(flat: seq<Rider>, distance: real): set<Rider> {
    set r | r in flat && IsSomeFirst(flat, r) && r.distance <= distance
  }

  // Every entry that is not its rider's first has maxRiders first entries no further away.
  ghost predicate FirstsSuffice(flat: seq<Rider>, max: nat) {
    forall e :: e in flat && !IsSomeFirst(flat, e) ==> |FirstsWithin(flat, e.distance)| >= max
  }

  // The sorted firsts: the entries of an ascending sequence without repetition.
  ghost predicate SortsFirsts(sorted: seq<Rider>, flat: seq<Rider>) {
    && Ascending(sorted) && Distinct(sorted)
    && forall r :: r in sorted <==> r in flat && IsSomeFirst(flat, r)
  }

  lemma {:induction false} KeptAreFirsts(flat: seq<Rider>)
    ensures SortsFirsts(Sort(Dedup(flat)), flat)
  {
    var kept := Dedup(flat);
    SortIsAscending(kept);
    SortMembers(kept);
    DedupIsDistinct(flat);
    DistinctIdsAreDistinct(Sort(kept));
    DedupMembers(flat);
    forall r ensures r in kept <==> r in flat && IsSomeFirst(flat, r) {
      DedupKeepsFirst(flat, r);
    }
  }

  lemma {:induction false} DistinctIdsAreDistinct(riders: seq<Rider>)
    requires DistinctIds(riders)
    ensures Distinct(riders)
  {
    forall k, l | 0 <= k < l < |riders| ensures riders[k] != riders[l] {
      assert riders[k].id != riders[l].id;
    }
  }

  lemma {:induction false} BehindMeansSuffice(sorted: seq<Rider>, flat: seq<Rider>, max: nat, e: Rider)
    requires SortsFirsts(sorted, flat) && Behind(sorted, max, e)
    ensures |FirstsWithin(flat, e.distance)| >= max
  {
    MembersBound(sorted[..max]);
    forall r | r in Members(sorted[..max]) ensures r in FirstsWithin(flat, e.distance) {
      var m :| 0 <= m < max && sorted[..max][m] == r;
      assert sorted[m] == r && r in sorted;
    }
    SubsetIsSmaller(Members(sorted[..max]), FirstsWithin(flat, e.distance));
  }

  // If sorted[k] is too far away, all firsts within the distance come before it.
  lemma {:induction false} FirstsComeBefore(sorted: seq<Rider>, flat: seq<Rider>, distance: real, k: nat)
    requires SortsFirsts(sorted, flat) && k <= |sorted| && (k < |sorted| ==> sorted[k].distance > distance)
    ensures |FirstsWithin(flat, distance)| <= k
  {
    forall r | r in FirstsWithin(flat, distance) ensures r in Members(sorted[..k]) {
      assert r in sorted;
      var m :| 0 <= m < |sorted| && sorted[m] == r;
      assert sorted[..k][m] == r;
    }
    MembersBound(sorted[..k]);
    SubsetIsSmaller(FirstsWithin(flat, distance), Members(sorted[..k]));
  }

  lemma {:induction false} SufficeMeansBehind(sorted: seq<Rider>, flat: seq<Rider>, max: nat, e: Rider)
    requires SortsFirsts(sorted, flat) && |FirstsWithin(flat, e.distance)| >= max
    ensures Behind(sorted, max, e)
  {
    FirstsComeBefore(sorted, flat, e.distance, |sorted|);
    forall k | 0 <= k < max ensures sorted[k].distance <= e.distance {
      if sorted[k].distance > e.distance {
        FirstsComeBefore(sorted, flat, e.distance, k);
        assert false;
      }
    }
  }

  lemma {:induction false} DroppedBehindIsSuffice(replies: seq<Option<seq<Rider>>>, max: nat)
    ensures DroppedAreBehind(replies, max) <==> FirstsSuffice(Flat(replies), max)
  {
    var flat := Flat(replies);
    KeptAreFirsts(flat);
    forall e | e in flat
      ensures e in Dedup(flat) <==> IsSomeFirst(flat, e)
      ensures Behind(Sort(Dedup(flat)), max, e) <==> |FirstsWithin(flat, e.distance)| >= max
    {
      DedupKeepsFirst(flat, e);
      if Behind(Sort(Dedup(flat)), max, e) {
        BehindMeansSuffice(Sort(Dedup(flat)), flat, max, e);
      } else if |FirstsWithin(flat, e.distance)| >= max {
        SufficeMeansBehind(Sort(Dedup(flat)), flat, max, e);
      }
    }
  }

  // The merge answers with the closest maxRiders overall if and only if every later entry of a rider
  // has maxRiders first entries no further away.
  lemma {:induction false} NearestExactly(shards: seq<Shard>, radius: real, max: nat, replies: seq<Option<seq<Rider>>>)
    requires Answered(shards, radius, max, replies)
    ensures NearestOverall(shards, radius, max, replies, Cap(Sort(Dedup(Flat(replies))), max)) <==>
      FirstsSuffice(Flat(replies), max)
  {
    var kept := Dedup(Flat(replies));
    var found := Cap(Sort(kept), max);
    DroppedBehindIsSuffice(replies, max);
    if NearestOverall(shards, radius, max, replies, found) {
      forall e | e in Flat(replies) && e !in kept ensures Behind(Sort(kept), max, e) {
        DroppedIsBehind(shards, radius, max, replies, e);
      }
    }
    if DroppedAreBehind(replies, max) {
      NearestWhenBehind(shards, radius, max, replies);
    }
  }

  lemma {:induction false} NearestWhenBehind(shards: seq<Shard>, radius: real, max: nat, replies: seq<Option<seq<Rider>>>)
    requires Answered(shards, radius, max, replies) && DroppedAreBehind(replies, max)
    ensures NearestOverall(shards, radius, max, replies, Cap(Sort(Dedup(Flat(replies))), max))
  {
    var kept := Dedup(Flat(replies));
    var found := Cap(Sort(kept), max);
    SortIsAscending(kept);
    SortMembers(kept);
    DedupIsDistinct(Flat(replies));
    CapKeeps(Sort(kept), max);
    forall r | r in found ensures Candidate(shards, radius, replies, r) {
      KeptIsCandidate(shards, radius, max, replies, r);
    }
    forall r | Candidate(shards, radius, replies, r) && r !in found
      ensures |found| == max && forall k :: 0 <= k < |found| ==> found[k].distance <= r.distance
    {
      var i :| 0 <= i < |shards| && replies[i].Some? && Within(shards[i], radius, r);
      LeftOutIsBehind(shards, radius, max, replies, i, r);
    }
  }

  // So it does whenever the entries of a rider agree.
  lemma {:induction false} NearestKMerge(shards: seq<Shard>, radius: real, max: nat, replies: seq<Option<seq<Rider>>>)
    requires Coherent(shards) && Answered(shards, radius, max, replies)
    ensures NearestOverall(shards, radius, max, replies, Cap(Sort(Dedup(Flat(replies))), max))
  {
    forall e | e in Flat(replies) ensures IsSomeFirst(Flat(replies), e) {
      DedupKeepsFirst(Flat(replies), e);
      FlatMembers(replies, e);
      var i :| 0 <= i < |replies| && replies[i].Some? && e in replies[i].value;
      AnsweredIsKept(shards, radius, max, replies, i, e);
    }
    NearestExactly(shards, radius, max, replies);
  }

  // A rider has a ghost entry in an earlier reply and a closer one in a later reply. The answer is not
  // the closest maxRiders when fewer than maxRiders first entries are as close as the later one; and
  // the ghost entry is in the answer when at most maxRiders are as close as that.
  lemma {:induction false} GhostEntryWins(
      shards: seq<Shard>, radius: real, max: nat, replies: seq<Option<seq<Rider>>>, k: nat, j: nat)
    requires Answered(shards, radius, max, replies)
    requires IsFirst(Flat(replies), k) && k < j < |Flat(replies)|
    requires Flat(replies)[j].id == Flat(replies)[k].id && Flat(replies)[j].distance < Flat(replies)[k].distance
    requires |FirstsWithin(Flat(replies), Flat(replies)[j].distance)| < max
    ensures !NearestOverall(shards, radius, max, replies, Cap(Sort(Dedup(Flat(replies))), max))
    ensures |FirstsWithin(Flat(replies), Flat(replies)[k].distance)| <= max ==>
      Flat(replies)[k] in Cap(Sort(Dedup(Flat(replies))), max)
  {
    var flat := Flat(replies);
    OnlyFirstIsFirst(flat, k, flat[j]);
    NearestExactly(shards, radius, max, replies);
    if |FirstsWithin(flat, flat[k].distance)| <= max {
      FirstIsFound(flat, max, k);
    }
  }

  lemma {:induction false} FirstIsFound(flat: seq<Rider>, max: nat, k: nat)
    requires IsFirst(flat, k) && |FirstsWithin(flat, flat[k].distance)| <= max
    ensures flat[k] in Cap(Sort(Dedup(flat)), max)
  {
    var sorted := Sort(Dedup(flat));
    KeptAreFirsts(flat);
    assert IsSomeFirst(flat, flat[k]);
    var m :| 0 <= m < |sorted| && sorted[m] == flat[k];
    BehindMeansSuffice(sorted, flat, m + 1, flat[k]);
    assert Cap(sorted, max)[m] == flat[k];
  }

  lemma {:induction false} OnlyFirstIsFirst(riders: seq<Rider>, k: nat, r: Rider)
    requires IsFirst(riders, k) && r.id == riders[k].id && r != riders[k]
    ensures !IsSomeFirst(riders, r)
  {
    forall m | IsFirst(riders, m) ensures riders[m] != r {
      OneFirst(riders, k, m);
    }
  }

  lemma {:induction false} OneFirst(riders: seq<Rider>, k: int, m: int)
    requires IsFirst(riders, k) && IsFirst(riders, m)
    ensures riders[m].id == riders[k].id ==> m == k
  {
  }

  // Two shards, and one rider in both.
  lemma {:induction false} OneGhostIsEnough(stale: Rider, latest: Rider, radius: real, max: nat)
    requires max > 0 && stale.id == latest.id && latest.distance < stale.distance <= radius
    ensures var shards, replies := [map[stale.id := stale], map[latest.id := latest]], [Some([stale]), Some([latest])];
      Answered(shards, radius, max, replies) && Cap(Sort(Dedup(Flat(replies))), max) == [stale]
      && !NearestOverall(shards, radius, max, replies, [stale])
  {
    var shards := [map[stale.id := stale], map[latest.id := latest]];
    var replies := [Some([stale]), Some([latest])];
    TwoReplies(stale, latest);
    SortOfOne(stale);
    assert Flat(replies)[0] == stale && Flat(replies)[1] == latest;
    OwnReply(stale, radius, max);
    OwnReply(latest, radius, max);
    assert Answered(shards, radius, max, replies);
    assert IsFirst(Flat(replies), 0);
    NobodyWithin(stale, latest);
    GhostEntryWins(shards, radius, max, replies, 0, 1);
  }

  lemma {:induction false} NobodyWithin(stale: Rider, latest: Rider)
    requires stale.id == latest.id && latest.distance < stale.distance
    ensures FirstsWithin([stale, latest], latest.distance) == {}
  {
    OnlyFirstIsFirst([stale, latest], 0, latest);
  }

  lemma {:induction false} OwnReply(r: Rider, radius: real, max: nat)
    requires max > 0 && r.distance <= radius
    ensures ClosestOf(map[r.id := r], radius, max, [r])
  {
  }

  lemma {:induction false} TwoReplies(stale: Rider, latest: Rider)
    requires stale.id == latest.id
    ensures Flat([Some([stale]), Some([latest])]) == [stale, latest] && Dedup([stale, latest]) == [stale]
  {
    var replies := [Some([stale]), Some([latest])];
    assert replies[..1] == [Some([stale])] && [Some([stale])][..0] == [];
    assert Flat([Some([stale])]) == [stale];
    assert Flat(replies) == [stale] + [latest];
    DedupOneMore([], stale);
    DedupOneMore([stale], latest);
    assert [] + [stale] == [stale];
    assert [stale][0].id in Ids([stale]);
  }
}
