// The gateway's per-upstream circuit breaker.
module CircuitBreaker {
  import opened Wrappers

  const FAILURE_THRESHOLD: int := 5
  const OPEN_TIMEOUT: int := 15_000

  // A call with its time in milliseconds.
  datatype Call = Ask(now: int) | Succeeded(now: int) | Failed(now: int)

  // The fields of circuitState; openedAt is None for the zero time.
  datatype Circuit = Circuit(failures: int, openedAt: Option<int>, probing: bool)

  const CLOSED := Circuit(0, None, false)

  predicate Admits(c: Circuit, timeout: int, now: int) {
    c.openedAt.None? || (now - c.openedAt.value > timeout && !c.probing)
  }

  function Next(c: Circuit, threshold: int, timeout: int, call: Call): Circuit {
    match call
    case Ask(now) => if c.openedAt.Some? && Admits(c, timeout, now) then c.(probing := true) else c
    case Succeeded(_) => CLOSED
    case Failed(now) =>
      Circuit(c.failures + 1, if c.failures + 1 >= threshold then Some(now) else c.openedAt, c.probing)
  }

  function Run(threshold: int, timeout: int, calls: seq<Call>): Circuit {
    if calls == [] then CLOSED
    else Next(Run(threshold, timeout, calls[..|calls| - 1]), threshold, timeout, calls[|calls| - 1])
  }

  class CircuitState {
    var failures: int
    var openedAt: Option<int>
    var halfOpenProbe: bool
    const failureThreshold: int
    const openTimeout: int

    function State(): Circuit
      reads this
    {
      Circuit(failures, openedAt, halfOpenProbe)
    }

    constructor (threshold: int, openTimeout: int)
      ensures State() == CLOSED && failureThreshold == threshold && this.openTimeout == openTimeout
    {
      failures, openedAt, halfOpenProbe := 0, None, false;
      failureThreshold, this.openTimeout := threshold, openTimeout;
    }

    method Allow(now: int) returns (admitted: bool)
      modifies this
      ensures admitted == Admits(old(State()), openTimeout, now)
      ensures State() == Next(old(State()), failureThreshold, openTimeout, Ask(now))
    {
      if openedAt.None? {
        return true;
      }
      if now - openedAt.value > openTimeout {
        if halfOpenProbe {
          return false;
        }
        halfOpenProbe := true;
        return true;
      }
      admitted := false;
    }

    method RecordSuccess(now: int)
      modifies this
      ensures State() == Next(old(State()), failureThreshold, openTimeout, Succeeded(now))
    {
      failures := 0;
      openedAt := None;
      halfOpenProbe := false;
    }

    method RecordFailure(now: int)
      modifies this
      ensures State() == Next(old(State()), failureThreshold, openTimeout, Failed(now))
    {
      failures := failures + 1;
      if failures >= failureThreshold {
        openedAt := Some(now);
      }
    }
  }

  // The breaker the gateway gives every upstream.
  method NewBreaker() returns (c: CircuitState)
    ensures fresh(c) && c.State() == Circuit(0, None, false) && c.failureThreshold == 5 && c.openTimeout == 15_000
  {
    c := new CircuitState(FAILURE_THRESHOLD, OPEN_TIMEOUT);
  }

  // ----- Traces -----

  // A history of calls of one breaker, described without its fields.

  // The failures since the last success.
  function RecentFailures(calls: seq<Call>): nat {
    if calls == [] || calls[|calls| - 1].Succeeded? then 0
    else RecentFailures(calls[..|calls| - 1]) + if calls[|calls| - 1].Failed? then 1 else 0
  }

  // The time of the last failure since the last success.
  function LastFailure(calls: seq<Call>): Option<int> {
    if calls == [] || calls[|calls| - 1].Succeeded? then None
    else if calls[|calls| - 1].Failed? then Some(calls[|calls| - 1].now)
    else LastFailure(calls[..|calls| - 1])
  }

  predicate Open(threshold: int, calls: seq<Call>) {
    RecentFailures(calls) >= threshold
  }

  // Call k is a request that the breaker lets through.
  predicate AdmittedAt(threshold: int, timeout: int, calls: seq<Call>, k: nat)
    requires k < |calls|
  {
    calls[k].Ask? && Admits(Run(threshold, timeout, calls[..k]), timeout, calls[k].now)
  }

  // Call k is a request let through while the breaker is open, since the last success.
  function Probed(threshold: int, timeout: int, calls: seq<Call>): bool {
    if calls == [] || calls[|calls| - 1].Succeeded? then false
    else
      var n := |calls| - 1;
      Probed(threshold, timeout, calls[..n]) || (Open(threshold, calls[..n]) && AdmittedAt(threshold, timeout, calls, n))
  }

  // The fields are what the history says: with a positive threshold the breaker is open exactly
  // when the failures since the last success have reached it, openedAt is the last of them, and
  // the probe flag says that a request got through while it was open.
  lemma {:induction false} FieldsFollowHistory(threshold: int, timeout: int, calls: seq<Call>)
    requires threshold >= 1
    ensures Run(threshold, timeout, calls) == Circuit(
      RecentFailures(calls),
      if Open(threshold, calls) then LastFailure(calls) else None,
      Probed(threshold, timeout, calls))
    ensures Open(threshold, calls) ==> LastFailure(calls).Some?
  {
    if calls != [] {
      FieldsFollowHistory(threshold, timeout, calls[..|calls| - 1]);
    }
  }

  // A request is admitted exactly when the breaker is closed, or the timeout since the last failure
  // is over and no request has got through while open since the last success.
  lemma {:induction false} AdmittedExactly(threshold: int, timeout: int, calls: seq<Call>, k: nat)
    requires threshold >= 1 && k < |calls| && calls[k].Ask?
    ensures !Open(threshold, calls[..k]) ==> AdmittedAt(threshold, timeout, calls, k)
    ensures Open(threshold, calls[..k]) ==>
      && LastFailure(calls[..k]).Some?
      && (AdmittedAt(threshold, timeout, calls, k) <==>
            calls[k].now > LastFailure(calls[..k]).value + timeout && !Probed(threshold, timeout, calls[..k]))
  {
    FieldsFollowHistory(threshold, timeout, calls[..k]);
  }

  ghost predicate NoSuccess(calls: seq<Call>, from: nat, to: nat)
    requires from <= to <= |calls|
  {
    forall m :: from <= m < to ==> !calls[m].Succeeded?
  }

  // Once open, the breaker stays open, and a probe stays noted, until a success.
  lemma {:induction false} StaysOpen(threshold: int, timeout: int, calls: seq<Call>, k: nat, l: nat)
    requires k <= l <= |calls| && NoSuccess(calls, k, l)
    ensures RecentFailures(calls[..k]) <= RecentFailures(calls[..l])
    ensures Probed(threshold, timeout, calls[..k]) ==> Probed(threshold, timeout, calls[..l])
    decreases l
  {
    if k < l {
      StaysOpen(threshold, timeout, calls, k, l - 1);
      assert calls[..l][..l - 1] == calls[..l - 1] && calls[..l][l - 1] == calls[l - 1];
    } else {
      assert k == l;
    }
  }

  lemma {:induction false} ProbeIsNoted(threshold: int, timeout: int, calls: seq<Call>, k: nat)
    requires k < |calls| && Open(threshold, calls[..k]) && AdmittedAt(threshold, timeout, calls, k)
    ensures Probed(threshold, timeout, calls[..k + 1])
  {
    assert calls[..k + 1][..k] == calls[..k];
    assert AdmittedAt(threshold, timeout, calls[..k + 1], k);
  }

  // Between an admission while open and the next recorded success nothing else is admitted, at any
  // time and whatever failures are recorded: at most one request per opening, and after a probe
  // that fails or is never recorded the breaker refuses for good.
  lemma {:induction false} OneProbeUntilSuccess(threshold: int, timeout: int, calls: seq<Call>, k: nat, l: nat)
    requires threshold >= 1 && k < l < |calls| && NoSuccess(calls, k + 1, l)
    requires Open(threshold, calls[..k]) && AdmittedAt(threshold, timeout, calls, k)
    ensures !AdmittedAt(threshold, timeout, calls, l)
  {
    ProbeIsNoted(threshold, timeout, calls, k);
    StaysOpen(threshold, timeout, calls, k + 1, l);
    StaysOpen(threshold, timeout, calls, k, k + 1);
    if calls[l].Ask? {
      AdmittedExactly(threshold, timeout, calls, l);
    }
  }

  ghost predicate InOrder(calls: seq<Call>) {
    forall i, j :: 0 <= i < j < |calls| ==> calls[i].now <= calls[j].now
  }

  lemma {:induction false} LastFailureIsLatest(calls: seq<Call>, k: nat)
    requires InOrder(calls) && k < |calls| && calls[k].Failed? && NoSuccess(calls, k, |calls|)
    ensures LastFailure(calls).Some? && LastFailure(calls).value >= calls[k].now
  {
    var n := |calls| - 1;
    if k < n {
      LastFailureIsLatest(calls[..n], k);
    }
  }

  // With calls in order of time, an open breaker admits nothing until more than the timeout after
  // every failure since the last success.
  lemma {:induction false} ClosedForTheTimeout(threshold: int, timeout: int, calls: seq<Call>, k: nat, l: nat)
    requires threshold >= 1 && InOrder(calls) && k < l < |calls|
    requires calls[k].Failed? && NoSuccess(calls, k, l) && Open(threshold, calls[..l]) && calls[l].Ask?
    requires calls[l].now <= calls[k].now + timeout
    ensures !AdmittedAt(threshold, timeout, calls, l)
  {
    AdmittedExactly(threshold, timeout, calls, l);
    LastFailureIsLatest(calls[..l], k);
  }

  // A success closes the breaker at once.
  lemma {:induction false} SuccessCloses(threshold: int, timeout: int, calls: seq<Call>, k: nat)
    requires threshold >= 1 && 0 < k < |calls| && calls[k - 1].Succeeded? && calls[k].Ask?
    ensures AdmittedAt(threshold, timeout, calls, k)
  {
    AdmittedExactly(threshold, timeout, calls, k);
    assert calls[..k][k - 1].Succeeded?;
  }

  // A threshold below 1 opens at the first failure like a threshold of 1.
  lemma {:induction false} NonPositiveThresholdIsOne(threshold: int, timeout: int, calls: seq<Call>)
    requires threshold < 1
    ensures Run(threshold, timeout, calls) == Run(1, timeout, calls)
    ensures Run(threshold, timeout, calls).failures >= 0
  {
    if calls != [] {
      NonPositiveThresholdIsOne(threshold, timeout, calls[..|calls| - 1]);
    }
  }
}
