// One pass of the release job: over the candidates of the Redis index, or over the table scan.
module EscrowPass {
  import opened Wrappers
  import opened Ledger
  import opened LedgerLaws
  import opened Escrow
  import opened EscrowProtocol
  import opened EscrowTheorems

  // ----- The two passes -----

  function RowOf(holds: seq<Hold>, id: string): Option<nat> {
    if holds == [] then None
    else if holds[|holds| - 1].id == id then Some(|holds| - 1)
    else RowOf(holds[..|holds| - 1], id)
  }

  // releaseOneHold: the claim matches no row unless the hold is held and expired.
  ghost function ReleaseOne(t: Tables, id: string, now: int, tbOn: bool): Tables {
    match RowOf(t.holds, id)
    case None => t
    case Some(i) =>
      if i < |t.holds| && Expired(t.holds[i], now) then ProcessHold(t, i, now, NoCrash, tbOn) else t
  }

  ghost function IndexPass(t: Tables, ids: seq<string>, now: int, tbOn: bool): Tables {
    if ids == [] then t
    else ReleaseOne(IndexPass(t, ids[..|ids| - 1], now, tbOn), ids[|ids| - 1], now, tbOn)
  }

  // ORDER BY hold_until; rows with equal times keep their order.
  predicate Precedes(holds: seq<Hold>, i: nat, j: nat)
    requires i < |holds| && j < |holds|
  {
    holds[i].holdUntil < holds[j].holdUntil || (holds[i].holdUntil == holds[j].holdUntil && i < j)
  }

  predicate IsFirstExpired(holds: seq<Hold>, now: int, i: nat) {
    && i < |holds| && Expired(holds[i], now)
    && forall j :: 0 <= j < |holds| && j != i && Expired(holds[j], now) ==> Precedes(holds, i, j)
  }

  function FirstExpired(holds: seq<Hold>, now: int): (first: Option<nat>)
    ensures first.None? <==> forall j :: 0 <= j < |holds| ==> !Expired(holds[j], now)
    ensures first.Some? ==> IsFirstExpired(holds, now, first.value)
  {
    if holds == [] then None
    else
      var n := |holds| - 1;
      var rest := FirstExpired(holds[..n], now);
      assert rest.Some? ==> IsFirstExpired(holds[..n], now, rest.value);
      assert forall j :: 0 <= j < n ==> holds[..n][j] == holds[j];
      if !Expired(holds[n], now) then rest
      else if rest.None? || holds[n].holdUntil < holds[rest.value].holdUntil then Some(n)
      else rest
  }

  // An iteration of the scan loop claims the first expired held hold, if there is one.
  ghost function Scan(t: Tables, now: int, tbOn: bool): Tables {
    match FirstExpired(t.holds, now)
    case None => t
    case Some(i) => ProcessHold(t, i, now, NoCrash, tbOn)
  }

  ghost function ScanPass(t: Tables, n: nat, now: int, tbOn: bool): Tables {
    if n == 0 then t else Scan(ScanPass(t, n - 1, now, tbOn), now, tbOn)
  }

  // ----- One release leaves the others as they were -----

  ghost predicate Ready(t: Tables, i: nat, now: int)
    requires i < |t.holds|
  {
    Expired(t.holds[i], now) && Gate(t, i, now) == Pass && t.holds[i].amountPaisa > 0
  }

  ghost predicate Sound(t: Tables) {
    Consistent(t.ledger) && DistinctHolds(t.holds)
  }

  lemma {:induction false} ReleaseOfExpired(t: Tables, i: nat, now: int, tbOn: bool)
    requires Sound(t) && i < |t.holds| && Expired(t.holds[i], now)
    ensures var t' := ProcessHold(t, i, now, NoCrash, tbOn);
      && Sound(t')
      && t'.holds == (if Ready(t, i, now) then SetStatus(t.holds, i, Released) else t.holds)
      && (!Ready(t, i, now) ==> t' == t)
      && forall j :: 0 <= j < |t.holds| ==> (Ready(t', j, now) <==> Ready(t, j, now) && j != i)
  {
    ReleaseSucceeds(t.ledger, t.holds[i]);
    AfterKeepsConsistent(t.ledger, Single(ReleaseRequest(t.holds[i])), tbOn);
    var t' := ProcessHold(t, i, now, NoCrash, tbOn);
    assert DistinctHolds(t'.holds);
    forall j | 0 <= j < |t.holds| ensures Ready(t', j, now) <==> Ready(t, j, now) && j != i {
      if j != i {
        assert t'.holds[j] == t.holds[j] && t.holds[j].order != t.holds[i].order;
        assert Gate(t', j, now) == Gate(t, j, now);
      }
    }
  }

  // ----- The index is only a hint -----

  lemma {:induction false} RowOfId(holds: seq<Hold>, id: string)
    ensures match RowOf(holds, id)
      case None => forall i :: 0 <= i < |holds| ==> holds[i].id != id
      case Some(i) => i < |holds| && holds[i].id == id
  {
    if holds != [] && holds[|holds| - 1].id != id {
      RowOfId(holds[..|holds| - 1], id);
      assert forall i :: 0 <= i < |holds| - 1 ==> holds[..|holds| - 1][i] == holds[i];
    }
  }

  ghost predicate PassResult(t: Tables, t': Tables, now: int, taken: iset<string>) {
    && Sound(t') && |t'.holds| == |t.holds|
    && forall i :: 0 <= i < |t.holds| ==>
         && t'.holds[i] == (if t.holds[i].id in taken && Ready(t, i, now) then t.holds[i].(status := Released) else t.holds[i])
         && (Ready(t', i, now) <==> Ready(t, i, now) && t.holds[i].id !in taken)
  }

  lemma {:induction false} ReleaseOneResult(t: Tables, t1: Tables, id: string, now: int, tbOn: bool, taken: iset<string>)
    requires Sound(t) && PassResult(t, t1, now, taken)
    ensures PassResult(t, ReleaseOne(t1, id, now, tbOn), now, taken + iset{id})
  {
    RowOfId(t1.holds, id);
    match RowOf(t1.holds, id)
    case None =>
      assert forall i :: 0 <= i < |t.holds| ==> t1.holds[i].id == t.holds[i].id;
    case Some(k) =>
      if Expired(t1.holds[k], now) {
        ReleaseOfExpired(t1, k, now, tbOn);
      }
      OneMoreTaken(t, t1, ReleaseOne(t1, id, now, tbOn), k, now, taken);
  }

  lemma {:induction false} OneMoreTaken(t: Tables, t1: Tables, t2: Tables, k: nat, now: int, taken: iset<string>)
    requires Sound(t) && PassResult(t, t1, now, taken) && k < |t.holds| && Sound(t2)
    requires t2.holds == if Ready(t1, k, now) then SetStatus(t1.holds, k, Released) else t1.holds
    requires forall j :: 0 <= j < |t1.holds| ==> (Ready(t2, j, now) <==> Ready(t1, j, now) && j != k)
    ensures PassResult(t, t2, now, taken + iset{t1.holds[k].id})
  {
    forall i | 0 <= i < |t.holds| ensures t1.holds[i].id == t.holds[i].id && (t.holds[i].id == t1.holds[k].id <==> i == k) {
      assert t1.holds[k].id == t.holds[k].id;
    }
  }

  // Whatever the index holds - stale, phantom or repeated ids - a pass over its candidates releases
  // exactly those of them that the scan's own WHERE clause and the release gates accept in the same
  // state, and leaves every other hold alone.
  lemma {:induction false} IndexPassReleasesExactly(t: Tables, ids: seq<string>, now: int, tbOn: bool)
    requires Sound(t)
    ensures PassResult(t, IndexPass(t, ids, now, tbOn), now, iset id | id in ids)
  {
    if ids == [] {
      assert PassResult(t, t, now, iset{});
      assert (iset id | id in ids) == iset{};
    } else {
      var n := |ids| - 1;
      IndexPassReleasesExactly(t, ids[..n], now, tbOn);
      ReleaseOneResult(t, IndexPass(t, ids[..n], now, tbOn), ids[n], now, tbOn, iset id | id in ids[..n]);
      assert ids == ids[..n] + [ids[n]];
      assert (iset id | id in ids) == (iset id | id in ids[..n]) + iset{ids[n]};
    }
  }

  // ----- What the scan reaches -----

  // An expired held hold that no blocked one precedes. A blocked hold stays first and is claimed
  // again by every later iteration.
  ghost predicate Reached(t: Tables, i: nat, now: int)
    requires i < |t.holds|
  {
    && Expired(t.holds[i], now)
    && forall j :: 0 <= j < |t.holds| && Expired(t.holds[j], now) && !Ready(t, j, now) ==> Precedes(t.holds, i, j)
  }

  // How many of the first k rows the scan still has to release.
  ghost function Left(t: Tables, now: int, k: nat): nat
    requires k <= |t.holds|
  {
    if k == 0 then 0 else Left(t, now, k - 1) + if Reached(t, k - 1, now) then 1 else 0
  }

  lemma {:induction false} LeftAfterRelease(t: Tables, t': Tables, now: int, k: nat, i: nat)
    requires |t'.holds| == |t.holds| && k <= |t.holds| && i < |t.holds|
    requires Reached(t, i, now) && forall j :: 0 <= j < |t.holds| ==> (Reached(t', j, now) <==> Reached(t, j, now) && j != i)
    ensures Left(t', now, k) == Left(t, now, k) - if i < k then 1 else 0
  {
    if k > 0 {
      LeftAfterRelease(t, t', now, k - 1, i);
    }
  }

  lemma {:induction false} LeftIsZero(t: Tables, now: int, k: nat)
    requires k <= |t.holds|
    ensures Left(t, now, k) <= k
    ensures Left(t, now, k) == 0 <==> forall j :: 0 <= j < k ==> !Reached(t, j, now)
  {
    if k > 0 {
      LeftIsZero(t, now, k - 1);
    }
  }

  // What an iteration that releases row i does to the others.
  ghost predicate ReleasedRow(t: Tables, t': Tables, now: int, i: nat) {
    && i < |t.holds| && |t'.holds| == |t.holds| && Reached(t, i, now)
    && t'.holds == SetStatus(t.holds, i, Released)
    && (forall j :: 0 <= j < |t.holds| ==> (Reached(t', j, now) <==> Reached(t, j, now) && j != i))
    && (forall j :: 0 <= j < |t.holds| ==> (Ready(t', j, now) <==> Ready(t, j, now) && j != i))
  }

  // One iteration: it releases a reached hold while one is left, and changes nothing afterwards.
  lemma {:induction false} ScanStep(t: Tables, now: int, tbOn: bool)
    requires Sound(t)
    ensures var t' := Scan(t, now, tbOn);
      && Sound(t')
      && if exists j :: 0 <= j < |t.holds| && Reached(t, j, now)
         then exists i :: ReleasedRow(t, t', now, i)
         else t' == t
  {
    match FirstExpired(t.holds, now)
    case None =>
    case Some(i) =>
      ReleaseOfExpired(t, i, now, tbOn);
      var t' := Scan(t, now, tbOn);
      if j :| 0 <= j < |t.holds| && Reached(t, j, now) {
        FirstIsReached(t, i, j, now);
        ReachedAfterRelease(t, t', i, now);
        assert ReleasedRow(t, t', now, i);
      } else {
        if Ready(t, i, now) {
          assert Reached(t, i, now);
        }
      }
  }

  lemma {:induction false} FirstIsReached(t: Tables, i: nat, j: nat, now: int)
    requires IsFirstExpired(t.holds, now, i) && j < |t.holds| && Reached(t, j, now)
    ensures Reached(t, i, now) && Ready(t, i, now)
  {
  }

  lemma {:induction false} ReachedAfterRelease(t: Tables, t': Tables, i: nat, now: int)
    requires i < |t.holds| && Ready(t, i, now) && t'.holds == SetStatus(t.holds, i, Released)
    requires forall j :: 0 <= j < |t.holds| ==> (Ready(t', j, now) <==> Ready(t, j, now) && j != i)
    ensures forall j :: 0 <= j < |t.holds| ==> (Reached(t', j, now) <==> Reached(t, j, now) && j != i)
  {
    forall j, k | 0 <= j < |t.holds| && 0 <= k < |t.holds| ensures Precedes(t'.holds, j, k) == Precedes(t.holds, j, k) {
    }
    forall j | 0 <= j < |t.holds| && j != i ensures Reached(t', j, now) <==> Reached(t, j, now) {
      assert t'.holds[j] == t.holds[j];
    }
  }

  // After n iterations every row is either untouched or a reached hold now released.
  ghost predicate RowResult(t: Tables, t': Tables, now: int, i: nat)
    requires i < |t.holds| == |t'.holds|
  {
    if Reached(t, i, now) && !Reached(t', i, now)
    then t'.holds[i] == t.holds[i].(status := Released)
    else t'.holds[i] == t.holds[i] && (Reached(t', i, now) <==> Reached(t, i, now)) && (Ready(t', i, now) <==> Ready(t, i, now))
  }

  ghost predicate ScanResult(t: Tables, t': Tables, now: int) {
    Sound(t') && |t'.holds| == |t.holds| && forall i :: 0 <= i < |t.holds| ==> RowResult(t, t', now, i)
  }

  lemma {:induction false} ResultAfterStep(t: Tables, mid: Tables, t': Tables, now: int, i: nat)
    requires ScanResult(t, mid, now) && ReleasedRow(mid, t', now, i) && Sound(t')
    ensures ScanResult(t, t', now)
  {
    forall j | 0 <= j < |t.holds| ensures RowResult(t, t', now, j) {
      assert RowResult(t, mid, now, j);
      if j != i {
        assert t'.holds[j] == mid.holds[j];
      }
    }
  }

  lemma {:induction false} ScanResults(t: Tables, n: nat, now: int, tbOn: bool)
    requires Sound(t)
    ensures ScanResult(t, ScanPass(t, n, now, tbOn), now)
  {
    if n > 0 {
      ScanResults(t, n - 1, now, tbOn);
      ScanAgain(t, ScanPass(t, n - 1, now, tbOn), now, tbOn);
    }
  }

  lemma {:induction false} ScanAgain(t: Tables, mid: Tables, now: int, tbOn: bool)
    requires ScanResult(t, mid, now)
    ensures ScanResult(t, Scan(mid, now, tbOn), now)
    ensures var t' := Scan(mid, now, tbOn);
      Left(t', now, |t'.holds|) == if Left(mid, now, |mid.holds|) == 0 then 0 else Left(mid, now, |mid.holds|) - 1
  {
    var t' := Scan(mid, now, tbOn);
    ScanStep(mid, now, tbOn);
    LeftIsZero(mid, now, |mid.holds|);
    if exists j :: 0 <= j < |mid.holds| && Reached(mid, j, now) {
      var i :| ReleasedRow(mid, t', now, i);
      LeftAfterRelease(mid, t', now, |mid.holds|, i);
      ResultAfterStep(t, mid, t', now, i);
    }
  }

  // What is left after n iterations.
  ghost function LeftAfter(t: Tables, now: int, tbOn: bool): nat -> nat {
    (n: nat) => Left(ScanPass(t, n, now, tbOn), now, |ScanPass(t, n, now, tbOn).holds|)
  }

  lemma {:induction false} LeftNext(t: Tables, n: nat, now: int, tbOn: bool)
    requires Sound(t)
    ensures var left := LeftAfter(t, now, tbOn); left(n + 1) == if left(n) == 0 then 0 else left(n) - 1
  {
    ScanResults(t, n, now, tbOn);
    ScanAgain(t, ScanPass(t, n, now, tbOn), now, tbOn);
  }

  lemma {:induction false} CountDown(left: nat -> nat, n: nat)
    requires forall k: nat :: left(k + 1) == if left(k) == 0 then 0 else left(k) - 1
    ensures left(n) == if n < left(0) then left(0) - n else 0
  {
    if n > 0 {
      CountDown(left, n - 1);
      assert left((n - 1) + 1) == if left(n - 1) == 0 then 0 else left(n - 1) - 1;
    }
  }

  lemma {:induction false} LeftCountsDown(t: Tables, n: nat, now: int, tbOn: bool)
    requires Sound(t)
    ensures var left := LeftAfter(t, now, tbOn); left(n) == if n < left(0) then left(0) - n else 0
  {
    forall k: nat ensures var left := LeftAfter(t, now, tbOn); left(k + 1) == if left(k) == 0 then 0 else left(k) - 1 {
      LeftNext(t, k, now, tbOn);
    }
    CountDown(LeftAfter(t, now, tbOn), n);
  }

  lemma {:induction false} ScanLeft(t: Tables, n: nat, now: int, tbOn: bool)
    requires Sound(t)
    ensures var t' := ScanPass(t, n, now, tbOn);
      && |t'.holds| == |t.holds|
      && Left(t', now, |t'.holds|) == if n < Left(t, now, |t.holds|) then Left(t, now, |t.holds|) - n else 0
  {
    ScanResults(t, n, now, tbOn);
    LeftCountsDown(t, n, now, tbOn);
    assert LeftAfter(t, now, tbOn)(0) == Left(t, now, |t.holds|);
  }

  // The scan releases exactly the reached holds: those before the first blocked one.
  lemma {:induction false} ScanReleasesExactly(t: Tables, n: nat, now: int, tbOn: bool, i: nat)
    requires Sound(t) && n >= |t.holds| && i < |t.holds|
    ensures var t' := ScanPass(t, n, now, tbOn);
      |t'.holds| == |t.holds| &&
      t'.holds[i] == if Reached(t, i, now) then t.holds[i].(status := Released) else t.holds[i]
  {
    ScanResults(t, n, now, tbOn);
    ScanLeft(t, n, now, tbOn);
    LeftIsZero(t, now, |t.holds|);
    var t' := ScanPass(t, n, now, tbOn);
    LeftIsZero(t', now, |t'.holds|);
    assert RowResult(t, t', now, i);
  }

  ghost predicate NothingBlocked(t: Tables, now: int) {
    forall i :: 0 <= i < |t.holds| && Expired(t.holds[i], now) ==> Ready(t, i, now)
  }

  lemma {:induction false} ScanEnds(t: Tables, now: int, tbOn: bool)
    requires Sound(t) && NothingBlocked(t, now)
    ensures FirstExpired(ScanPass(t, |t.holds|, now, tbOn).holds, now).None?
  {
    var t' := ScanPass(t, |t.holds|, now, tbOn);
    ScanResults(t, |t.holds|, now, tbOn);
    forall i | 0 <= i < |t.holds| ensures !Expired(t'.holds[i], now) {
      ScanReleasesExactly(t, |t.holds|, now, tbOn, i);
    }
  }

  lemma {:induction false} BlockedHoldStays(t: Tables, n: nat, now: int, tbOn: bool, i: nat)
    requires Sound(t) && i < |t.holds| && Expired(t.holds[i], now) && !Ready(t, i, now)
    ensures FirstExpired(ScanPass(t, n, now, tbOn).holds, now).Some?
  {
    ScanResults(t, n, now, tbOn);
    var t' := ScanPass(t, n, now, tbOn);
    assert RowResult(t, t', now, i);
    assert t'.holds[i] == t.holds[i];
  }

  // The scan loop ends exactly when no expired held hold is blocked; otherwise it claims a blocked
  // one for ever. When it ends, as many iterations as there are holds are enough.
  lemma {:induction false} ScanEndsExactlyWhenNothingIsBlocked(t: Tables, now: int, tbOn: bool)
    requires Sound(t)
    ensures (exists n: nat :: FirstExpired(ScanPass(t, n, now, tbOn).holds, now).None?) <==> NothingBlocked(t, now)
    ensures NothingBlocked(t, now) ==> FirstExpired(ScanPass(t, |t.holds|, now, tbOn).holds, now).None?
  {
    if NothingBlocked(t, now) {
      ScanEnds(t, now, tbOn);
    } else {
      var i :| 0 <= i < |t.holds| && Expired(t.holds[i], now) && !Ready(t, i, now);
      forall n: nat ensures FirstExpired(ScanPass(t, n, now, tbOn).holds, now).Some? {
        BlockedHoldStays(t, n, now, tbOn, i);
      }
    }
  }

  // The measure: the number of expired held holds among the first k rows.
  ghost function ExpiredCount(holds: seq<Hold>, now: int): nat {
    if holds == [] then 0
    else ExpiredCount(holds[..|holds| - 1], now) + if Expired(holds[|holds| - 1], now) then 1 else 0
  }

  lemma {:induction false} CountAfterRelease(holds: seq<Hold>, i: nat, now: int)
    requires i < |holds| && Expired(holds[i], now)
    ensures ExpiredCount(SetStatus(holds, i, Released), now) == ExpiredCount(holds, now) - 1
  {
    var n := |holds| - 1;
    if i < n {
      assert SetStatus(holds, i, Released)[..n] == SetStatus(holds[..n], i, Released);
      CountAfterRelease(holds[..n], i, now);
    } else {
      assert SetStatus(holds, i, Released)[..n] == holds[..n];
    }
  }

  // An iteration that releases its hold lowers the measure by one; one that puts it back leaves
  // the whole state as it was.
  lemma {:induction false} ScanMeasure(t: Tables, now: int, tbOn: bool)
    requires Sound(t) && FirstExpired(t.holds, now).Some?
    ensures var i := FirstExpired(t.holds, now).value;
      if Ready(t, i, now)
      then ExpiredCount(Scan(t, now, tbOn).holds, now) == ExpiredCount(t.holds, now) - 1
      else Scan(t, now, tbOn) == t
  {
    var i := FirstExpired(t.holds, now).value;
    ReleaseOfExpired(t, i, now, tbOn);
    CountAfterRelease(t.holds, i, now);
  }

  // A ready candidate of the index that comes after a blocked hold.
  ghost predicate BehindBlocked(t: Tables, ids: seq<string>, now: int, i: nat)
    requires i < |t.holds|
  {
    t.holds[i].id in ids && Ready(t, i, now) && !Reached(t, i, now)
  }

  // The index pass releases only holds the scan would release too exactly when none of its ready
  // candidates comes after a blocked hold: the index can get past a blocked hold, the scan cannot.
  lemma {:induction false} IndexWithinScanExactly(t: Tables, ids: seq<string>, now: int, tbOn: bool)
    requires Sound(t)
    ensures var byIndex, byScan := IndexPass(t, ids, now, tbOn).holds, ScanPass(t, |t.holds|, now, tbOn).holds;
      && |byIndex| == |byScan| == |t.holds|
      && ((forall i :: 0 <= i < |t.holds| && byIndex[i] != t.holds[i] ==> byScan[i] == byIndex[i])
          <==> forall i :: 0 <= i < |t.holds| ==> !BehindBlocked(t, ids, now, i))
  {
    IndexPassReleasesExactly(t, ids, now, tbOn);
    ScanResults(t, |t.holds|, now, tbOn);
    var byIndex, byScan := IndexPass(t, ids, now, tbOn).holds, ScanPass(t, |t.holds|, now, tbOn).holds;
    forall i | 0 <= i < |t.holds|
      ensures byIndex[i] != t.holds[i] && byScan[i] != byIndex[i] <==> BehindBlocked(t, ids, now, i)
    {
      ScanReleasesExactly(t, |t.holds|, now, tbOn, i);
    }
  }
}
