// What the release job reports when it has scanned the table.
module EscrowReport {
  import opened Escrow
  import opened EscrowPass
  import opened EscrowService
  import EscrowTheorems

  // The first of the expired held holds that cannot be released.
  ghost predicate FirstBlocked(t: Tables, now: int, b: nat) {
    && b < |t.holds| && Expired(t.holds[b], now) && !Ready(t, b, now)
    && forall j :: 0 <= j < |t.holds| && j != b && Expired(t.holds[j], now) && !Ready(t, j, now) ==> Precedes(t.holds, b, j)
  }

  // The scan stops at a hold that the gates skip without an error.
  ghost predicate StopsAtSkipped(t: Tables, now: int) {
    exists b: nat :: FirstBlocked(t, now, b) && Skipped(t, b, now)
  }

  lemma {:induction false} ReachedIsReady(t: Tables, i: nat, now: int)
    requires i < |t.holds| && Reached(t, i, now)
    ensures Ready(t, i, now)
  {
  }

  lemma {:induction false} BlockedRowStays(t: Tables, mid: Tables, now: int, j: nat)
    requires ScanResult(t, mid, now) && j < |t.holds|
    ensures var blocked := Expired(t.holds[j], now) && !Ready(t, j, now);
      && (blocked <==> Expired(mid.holds[j], now) && !Ready(mid, j, now))
      && (blocked ==> mid.holds[j] == t.holds[j])
  {
    assert RowResult(t, mid, now, j);
    if Reached(t, j, now) {
      ReachedIsReady(t, j, now);
    }
  }

  lemma {:induction false} FirstBlockedStays(t: Tables, mid: Tables, now: int, b: nat)
    requires ScanResult(t, mid, now)
    ensures FirstBlocked(mid, now, b) <==> FirstBlocked(t, now, b)
  {
    forall j | 0 <= j < |t.holds|
      ensures var blocked := Expired(t.holds[j], now) && !Ready(t, j, now);
        (blocked <==> Expired(mid.holds[j], now) && !Ready(mid, j, now)) && (blocked ==> mid.holds[j] == t.holds[j])
    {
      BlockedRowStays(t, mid, now, j);
    }
  }

  lemma {:induction false} IterationKeepsSkip(mid: Tables, now: int, tbOn: bool, i: nat)
    requires Sound(mid) && i < |mid.holds|
    ensures |Scan(mid, now, tbOn).holds| == |mid.holds| && SameSkip(mid, Scan(mid, now, tbOn), i, now)
  {
    var first := FirstExpired(mid.holds, now);
    if first.Some? {
      ReleaseOfExpired(mid, first.value, now, tbOn);
      ReleaseKeepsSkipped(mid, first.value, now, tbOn, i);
    }
  }

  // The passed-over holds of t, and those after n iterations, as sets of rows.
  ghost function SkippedRows(t: Tables, now: int): set<int> {
    set i | 0 <= i < |t.holds| && Skipped(t, i, now)
  }

  lemma {:induction false} IterationKeepsRows(mid: Tables, now: int, tbOn: bool)
    requires Sound(mid)
    ensures SkippedRows(Scan(mid, now, tbOn), now) == SkippedRows(mid, now)
    ensures |Scan(mid, now, tbOn).holds| == |mid.holds|
  {
    ScanStep(mid, now, tbOn);
    forall i | 0 <= i < |mid.holds| ensures i in SkippedRows(Scan(mid, now, tbOn), now) <==> i in SkippedRows(mid, now) {
      IterationKeepsSkip(mid, now, tbOn, i);
      assert SameSkip(mid, Scan(mid, now, tbOn), i, now);
    }
  }

  ghost function RowsAfter(t: Tables, n: nat, now: int, tbOn: bool): set<int> {
    SkippedRows(ScanPass(t, n, now, tbOn), now)
  }

  lemma {:induction false} NextKeepsRows(t: Tables, n: nat, now: int, tbOn: bool)
    requires Sound(t)
    ensures RowsAfter(t, n + 1, now, tbOn) == RowsAfter(t, n, now, tbOn)
  {
    SoundAfter(t, n, now, tbOn);
    IterationKeepsRows(ScanPass(t, n, now, tbOn), now, tbOn);
  }

  lemma {:induction false} NeverChanges(rows: nat -> set<int>, n: nat)
    requires forall k: nat :: rows(k + 1) == rows(k)
    ensures rows(n) == rows(0)
  {
    if n > 0 {
      NeverChanges(rows, n - 1);
      assert rows((n - 1) + 1) == rows(n - 1);
    }
  }

  lemma {:induction false} ScanKeepsRows(t: Tables, n: nat, now: int, tbOn: bool)
    requires Sound(t)
    ensures SkippedRows(ScanPass(t, n, now, tbOn), now) == SkippedRows(t, now)
  {
    var rows := (k: nat) => RowsAfter(t, k, now, tbOn);
    forall k: nat ensures rows(k + 1) == rows(k) {
      NextKeepsRows(t, k, now, tbOn);
    }
    NeverChanges(rows, n);
    assert rows(n) == rows(0);
  }

  // An iteration while a reached hold is left: one release, and one more in the report.
  lemma {:induction false} ReleasingIteration(mid: Tables, now: int, tbOn: bool)
    requires Sound(mid) && Left(mid, now, |mid.holds|) > 0
    ensures ScanReturnsNil(mid, now)
    ensures ReleasedCount(Scan(mid, now, tbOn).holds) == ReleasedCount(mid.holds) + 1
  {
    LeftIsZero(mid, now, |mid.holds|);
    var j :| 0 <= j < |mid.holds| && Reached(mid, j, now);
    var i := FirstExpired(mid.holds, now).value;
    FirstIsReached(mid, i, j, now);
    ReleaseOfExpired(mid, i, now, tbOn);
    EscrowTheorems.ReleaseSucceeds(mid.ledger, mid.holds[i]);
    OneMoreReleased(mid.holds, i);
  }

  // One after that: nothing changes, and the report grows if it stops at a skipped hold.
  lemma {:induction false} IdleIteration(mid: Tables, now: int, tbOn: bool)
    requires Sound(mid) && Left(mid, now, |mid.holds|) == 0
    ensures Scan(mid, now, tbOn) == mid
    ensures ScanReturnsNil(mid, now) <==> StopsAtSkipped(mid, now)
  {
    LeftIsZero(mid, now, |mid.holds|);
    ScanStep(mid, now, tbOn);
    match FirstExpired(mid.holds, now)
    case None =>
    case Some(i) =>
      FirstOfIdle(mid, i, now);
      EscrowTheorems.ReleaseSucceeds(mid.ledger, mid.holds[i]);
      if StopsAtSkipped(mid, now) {
        var b: nat :| FirstBlocked(mid, now, b) && Skipped(mid, b, now);
        assert b == i;
      }
  }

  lemma {:induction false} FirstOfIdle(mid: Tables, i: nat, now: int)
    requires IsFirstExpired(mid.holds, now, i) && forall j :: 0 <= j < |mid.holds| ==> !Reached(mid, j, now)
    ensures FirstBlocked(mid, now, i)
    ensures forall b: nat :: FirstBlocked(mid, now, b) ==> b == i
  {
    if Ready(mid, i, now) {
      assert Reached(mid, i, now);
    }
  }

  lemma {:induction false} StopsStays(t: Tables, n: nat, now: int, tbOn: bool)
    requires Sound(t)
    ensures StopsAtSkipped(ScanPass(t, n, now, tbOn), now) <==> StopsAtSkipped(t, now)
  {
    var mid := ScanPass(t, n, now, tbOn);
    ScanResults(t, n, now, tbOn);
    ScanKeepsRows(t, n, now, tbOn);
    forall b: nat | b < |t.holds|
      ensures FirstBlocked(mid, now, b) <==> FirstBlocked(t, now, b)
      ensures Skipped(mid, b, now) <==> Skipped(t, b, now)
    {
      FirstBlockedStays(t, mid, now, b);
      assert b in SkippedRows(mid, now) <==> b in SkippedRows(t, now);
    }
  }

  function Min(a: nat, b: nat): nat {
    if a < b then a else b
  }

  // What n iterations have released and reported.
  ghost function ReleasedByScan(t: Tables, n: nat, now: int, tbOn: bool): int {
    ReleasedCount(ScanPass(t, n, now, tbOn).holds) - ReleasedCount(t.holds)
  }

  // The iteration after the first n.
  lemma {:induction false} NextIteration(t: Tables, n: nat, now: int, tbOn: bool)
    requires Sound(t)
    ensures var reached := Left(t, now, |t.holds|);
      && ReleasedByScan(t, n + 1, now, tbOn) == ReleasedByScan(t, n, now, tbOn) + (if n < reached then 1 else 0)
      && ReportedByScan(t, n + 1, now, tbOn)
           == ReportedByScan(t, n, now, tbOn) + (if n < reached || StopsAtSkipped(t, now) then 1 else 0)
  {
    var mid := ScanPass(t, n, now, tbOn);
    SoundAfter(t, n, now, tbOn);
    ScanLeft(t, n, now, tbOn);
    if Left(mid, now, |mid.holds|) > 0 {
      ReleasingIteration(mid, now, tbOn);
    } else {
      IdleIteration(mid, now, tbOn);
      StopsStays(t, n, now, tbOn);
    }
  }

  lemma {:induction false} SoundAfter(t: Tables, n: nat, now: int, tbOn: bool)
    requires Sound(t)
    ensures Sound(ScanPass(t, n, now, tbOn))
  {
    ScanResults(t, n, now, tbOn);
  }

  // Two counters, one of which stops at a bound while the other may go on.
  lemma {:induction false} CountersAfter(released: nat -> int, reported: nat -> int, n: nat, reached: nat, stops: bool)
    requires released(0) == 0 && reported(0) == 0
    requires forall k: nat :: released(k + 1) == released(k) + if k < reached then 1 else 0
    requires forall k: nat :: reported(k + 1) == reported(k) + if k < reached || stops then 1 else 0
    ensures released(n) == Min(n, reached)
    ensures reported(n) == Min(n, reached) + if stops then n - Min(n, reached) else 0
  {
    if n > 0 {
      CountersAfter(released, reported, n - 1, reached, stops);
      assert released((n - 1) + 1) == released(n - 1) + if n - 1 < reached then 1 else 0;
      assert reported((n - 1) + 1) == reported(n - 1) + if n - 1 < reached || stops then 1 else 0;
    }
  }

  ghost function Releases(t: Tables, now: int, tbOn: bool): nat -> int {
    (k: nat) => ReleasedByScan(t, k, now, tbOn)
  }

  ghost function Reports(t: Tables, now: int, tbOn: bool): nat -> int {
    (k: nat) => ReportedByScan(t, k, now, tbOn)
  }

  lemma {:induction false} CountersStep(t: Tables, k: nat, now: int, tbOn: bool, reached: nat, stops: bool)
    requires Sound(t) && reached == Left(t, now, |t.holds|) && stops == StopsAtSkipped(t, now)
    ensures Releases(t, now, tbOn)(k + 1) == Releases(t, now, tbOn)(k) + if k < reached then 1 else 0
    ensures Reports(t, now, tbOn)(k + 1) == Reports(t, now, tbOn)(k) + if k < reached || stops then 1 else 0
  {
    NextIteration(t, k, now, tbOn);
  }

  lemma {:induction false} CountersStart(t: Tables, now: int, tbOn: bool)
    ensures Releases(t, now, tbOn)(0) == 0 && Reports(t, now, tbOn)(0) == 0
  {
  }

  lemma {:induction false} ScanCounts(t: Tables, n: nat, now: int, tbOn: bool, reached: nat, stops: bool)
    requires Sound(t) && reached == Left(t, now, |t.holds|) && stops == StopsAtSkipped(t, now)
    ensures Releases(t, now, tbOn)(n) == Min(n, reached)
    ensures Reports(t, now, tbOn)(n) == Min(n, reached) + if stops then n - Min(n, reached) else 0
  {
    var released, reported := Releases(t, now, tbOn), Reports(t, now, tbOn);
    CountersStart(t, now, tbOn);
    forall k: nat
      ensures released(k + 1) == released(k) + if k < reached then 1 else 0
      ensures reported(k + 1) == reported(k) + if k < reached || stops then 1 else 0
    {
      CountersStep(t, k, now, tbOn, reached, stops);
    }
    CountersAfter(released, reported, n, reached, stops);
  }

  // A scan of n iterations releases the reached holds, one after the other, as far as n goes. It
  // reports these and, if the hold it stops at is one the gates skip, every further iteration as
  // well. So the report is the number of releases if and only if n is not more than there are
  // reached holds, or the scan does not stop at a skipped hold.
  lemma {:induction false} ScanReportExactly(t: Tables, n: nat, now: int, tbOn: bool)
    requires Sound(t)
    ensures var reached := Left(t, now, |t.holds|);
      && ReleasedByScan(t, n, now, tbOn) == Min(n, reached)
      && ReportedByScan(t, n, now, tbOn) == Min(n, reached) + (if StopsAtSkipped(t, now) then n - Min(n, reached) else 0)
      && (ReportedByScan(t, n, now, tbOn) == ReleasedByScan(t, n, now, tbOn) <==> n <= reached || !StopsAtSkipped(t, now))
  {
    ScanCounts(t, n, now, tbOn, Left(t, now, |t.holds|), StopsAtSkipped(t, now));
    assert Releases(t, now, tbOn)(n) == ReleasedByScan(t, n, now, tbOn);
    assert Reports(t, now, tbOn)(n) == ReportedByScan(t, n, now, tbOn);
  }
}
