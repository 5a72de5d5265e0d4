// The escrow service as an object over the tables, the ledger service and the Redis index.
module EscrowService {
  import opened Wrappers
  import opened Ledger
  import opened Escrow
  import opened EscrowProtocol
  import opened EscrowPass
  import opened EscrowRecipients
  import EscrowTheorems

  const CLAIM_BATCH: nat := 50

  // ----- The index -----

  // What one run of the claim script may return: at most n of the members with a score up to now,
  // lowest scores first.
  ghost predicate ClaimOf(scores: map<string, int>, now: int, n: nat, ids: seq<string>) {
    && |ids| <= n
    && (forall k :: 0 <= k < |ids| ==> ids[k] in scores && scores[ids[k]] <= now)
    && (forall k, l :: 0 <= k < l < |ids| ==> ids[k] != ids[l] && scores[ids[k]] <= scores[ids[l]])
    && (forall id :: id in scores && scores[id] <= now && id !in ids ==>
          |ids| == n && forall k :: 0 <= k < |ids| ==> scores[ids[k]] <= scores[id])
  }

  // ids are drawn in ascending order and rest is what is left of the expired members.
  ghost predicate Drawn(scores: map<string, int>, now: int, ids: seq<string>, rest: set<string>) {
    && (forall id :: id in rest <==> id in scores && scores[id] <= now && id !in ids)
    && (forall k :: 0 <= k < |ids| ==> ids[k] in scores && scores[ids[k]] <= now)
    && (forall k, l :: 0 <= k < l < |ids| ==> ids[k] != ids[l] && scores[ids[k]] <= scores[ids[l]])
    && (forall k, id :: 0 <= k < |ids| && id in rest ==> scores[ids[k]] <= scores[id])
  }

  lemma {:induction false} DrawOne(scores: map<string, int>, now: int, ids: seq<string>, rest: set<string>, id: string)
    requires Drawn(scores, now, ids, rest) && id in rest && forall other :: other in rest ==> scores[id] <= scores[other]
    ensures Drawn(scores, now, ids + [id], rest - {id})
  {
    assert forall other :: other in ids + [id] <==> other in ids || other == id;
  }

  ghost function Members(ids: seq<string>): set<string> {
    set id | id in ids
  }

  class HoldIndex {
    var scores: map<string, int>

    constructor ()
      ensures scores == map[]
    {
      scores := map[];
    }

    method Add(id: string, until: int)
      modifies this
      ensures scores == old(scores)[id := until]
    {
      scores := scores[id := until];
    }

    method Remove(id: string)
      modifies this
      ensures scores == old(scores) - {id}
    {
      scores := scores - {id};
    }

    method ClaimExpired(now: int, n: nat) returns (ids: seq<string>)
      modifies this
      ensures ClaimOf(old(scores), now, n, ids)
      ensures scores == old(scores) - Members(ids)
    {
      ids := RangeByScore(now, n);
      for k := 0 to |ids|
        invariant scores == old(scores) - Members(ids[..k])
      {
        assert Members(ids[..k + 1]) == Members(ids[..k]) + {ids[k]};
        scores := scores - {ids[k]};
      }
      assert ids[..|ids|] == ids;
    }

    // ZRANGEBYSCORE -inf now LIMIT 0 n.
    method RangeByScore(now: int, n: nat) returns (ids: seq<string>)
      ensures ClaimOf(scores, now, n, ids)
    {
      ids := [];
      var rest := set id | id in scores && scores[id] <= now;
      while rest != {} && |ids| < n
        invariant |ids| <= n && Drawn(scores, now, ids, rest)
        decreases |rest|
      {
        var id := Lowest(rest);
        DrawOne(scores, now, ids, rest, id);
        ids, rest := ids + [id], rest - {id};
      }
    }

    method Lowest(ids: set<string>) returns (low: string)
      requires ids != {} && forall id :: id in ids ==> id in scores
      ensures low in ids && forall id :: id in ids ==> scores[low] <= scores[id]
    {
      low :| low in ids;
      var rest := ids - {low};
      while rest != {}
        invariant rest <= ids && low in ids
        invariant forall id :: id in ids && id !in rest ==> scores[low] <= scores[id]
        decreases |rest|
      {
        var id :| id in rest;
        if scores[id] < scores[low] {
          low := id;
        }
        rest := rest - {id};
      }
    }
  }

  // ----- Creating a hold -----

  // Statuses of an earlier hold that stop a new one. Inside a caller's transaction only the active
  // ones are looked for.
  const BLOCKING: set<Status> := {Held, Disputed, Released, PaidOut}
  const BLOCKING_IN_TX: set<Status> := {Held, Disputed}

  // The row is inserted unless the order has a blocking hold, or the pair of order and vendor
  // already has a row of any status.
  function Create(t: Tables, h: Hold, vendorExists: bool, blocking: set<Status>): Tables {
    if h.order !in t.orders || !vendorExists then t
    else if exists i :: 0 <= i < |t.holds| && t.holds[i].order == h.order && t.holds[i].status in blocking then t
    else if exists i :: 0 <= i < |t.holds| && t.holds[i].order == h.order && t.holds[i].vendor == h.vendor then t
    else t.(holds := t.holds + [h])
  }

  // An earlier hold of the same order that does not stop the new one.
  predicate Overlooked(earlier: Hold, h: Hold, blocking: set<Status>) {
    earlier.order == h.order && earlier.vendor != h.vendor && earlier.status !in blocking
  }

  // A second hold for an order appears exactly when the first is past blocking - cancelled or
  // refunded, and inside a transaction also released or paid out - and the new one names another
  // vendor.
  lemma {:induction false} CreateKeepsOneHoldExactly(t: Tables, h: Hold, vendorExists: bool, blocking: set<Status>)
    requires DistinctHolds(t.holds) && forall i :: 0 <= i < |t.holds| ==> t.holds[i].id != h.id
    ensures DistinctHolds(Create(t, h, vendorExists, blocking).holds) <==>
      !(h.order in t.orders && vendorExists && exists i :: 0 <= i < |t.holds| && Overlooked(t.holds[i], h, blocking))
  {
    var after := Create(t, h, vendorExists, blocking).holds;
    if i :| 0 <= i < |t.holds| && t.holds[i].order == h.order {
      forall j | 0 <= j < |t.holds| && t.holds[j].order == h.order ensures j == i {
      }
      if after == t.holds + [h] {
        assert after[i].order == after[|t.holds|].order;
        assert t.holds[i].vendor != h.vendor && t.holds[i].status !in blocking;
        assert Overlooked(t.holds[i], h, blocking);
      }
    }
  }

  // ----- What a pass did -----

  // processHoldTx returns nil: after a release, but also after skipping a blocked hold.
  ghost predicate ReturnsNil(t: Tables, i: nat, now: int, crash: CrashPoint)
    requires i < |t.holds|
  {
    match Gate(t, i, now)
    case Pass => Succeeds(t.ledger, ReleaseRequest(t.holds[i])) && crash == NoCrash
    case PutBack => true
    case GiveUp(isError) => !isError
  }

  ghost predicate ReleaseOneReturnsNil(t: Tables, id: string, now: int) {
    match RowOf(t.holds, id)
    case None => false
    case Some(i) => i < |t.holds| && Expired(t.holds[i], now) && ReturnsNil(t, i, now, NoCrash)
  }

  // The number of releases an index pass reports.
  ghost function Reported(t: Tables, ids: seq<string>, now: int, tbOn: bool): nat {
    if ids == [] then 0
    else
      var n := |ids| - 1;
      Reported(t, ids[..n], now, tbOn) + if ReleaseOneReturnsNil(IndexPass(t, ids[..n], now, tbOn), ids[n], now) then 1 else 0
  }

  ghost function ReleasedCount(holds: seq<Hold>): nat {
    if holds == [] then 0
    else ReleasedCount(holds[..|holds| - 1]) + if holds[|holds| - 1].status == Released then 1 else 0
  }

  lemma {:induction false} OneMoreReleased(holds: seq<Hold>, i: nat)
    requires i < |holds| && holds[i].status != Released
    ensures ReleasedCount(SetStatus(holds, i, Released)) == ReleasedCount(holds) + 1
  {
    var n := |holds| - 1;
    if i < n {
      assert SetStatus(holds, i, Released)[..n] == SetStatus(holds[..n], i, Released);
      OneMoreReleased(holds[..n], i);
    } else {
      assert SetStatus(holds, i, Released)[..n] == holds[..n];
    }
  }

  // An expired held hold that processHoldTx skips without an error.
  ghost predicate Skipped(t: Tables, i: nat, now: int)
    requires i < |t.holds|
  {
    Expired(t.holds[i], now) && Gate(t, i, now) in {PutBack, GiveUp(false)}
  }

  ghost predicate SkipsCandidate(t: Tables, id: string, now: int) {
    exists i :: 0 <= i < |t.holds| && t.holds[i].id == id && Skipped(t, i, now)
  }

  lemma {:induction false} RowOfIs(holds: seq<Hold>, id: string, i: nat)
    requires DistinctHolds(holds) && i < |holds| && holds[i].id == id
    ensures RowOf(holds, id) == Some(i)
  {
    RowOfId(holds, id);
  }

  // One candidate: the report grows by the release it makes, or by one for a skipped hold.
  lemma {:induction false} ReportOfOne(t: Tables, id: string, now: int, tbOn: bool)
    requires Sound(t)
    ensures var t' := ReleaseOne(t, id, now, tbOn);
      ReleasedCount(t'.holds) + (if SkipsCandidate(t, id, now) then 1 else 0)
        == ReleasedCount(t.holds) + (if ReleaseOneReturnsNil(t, id, now) then 1 else 0)
  {
    RowOfId(t.holds, id);
    match RowOf(t.holds, id)
    case None =>
    case Some(k) =>
      forall i | 0 <= i < |t.holds| && t.holds[i].id == id ensures i == k {
        RowOfIs(t.holds, id, i);
      }
      assert SkipsCandidate(t, id, now) <==> Skipped(t, k, now);
      if Expired(t.holds[k], now) {
        ReleaseOfExpired(t, k, now, tbOn);
        EscrowTheorems.ReleaseSucceeds(t.ledger, t.holds[k]);
        if Ready(t, k, now) {
          OneMoreReleased(t.holds, k);
        }
      }
  }

  // A pass leaves every hold that was skippable skippable, and makes none.
  lemma {:induction false} PassKeepsSkipped(t: Tables, ids: seq<string>, now: int, tbOn: bool, id: string)
    requires Sound(t)
    ensures SkipsCandidate(IndexPass(t, ids, now, tbOn), id, now) <==> SkipsCandidate(t, id, now)
  {
    if ids != [] {
      var n := |ids| - 1;
      var mid := IndexPass(t, ids[..n], now, tbOn);
      PassKeepsSkipped(t, ids[..n], now, tbOn, id);
      IndexPassReleasesExactly(t, ids[..n], now, tbOn);
      OneKeepsSkipped(mid, ids[n], now, tbOn, id);
    }
  }

  lemma {:induction false} OneKeepsSkipped(t: Tables, released: string, now: int, tbOn: bool, id: string)
    requires Sound(t)
    ensures SkipsCandidate(ReleaseOne(t, released, now, tbOn), id, now) <==> SkipsCandidate(t, id, now)
  {
    RowOfId(t.holds, released);
    match RowOf(t.holds, released)
    case None =>
    case Some(k) =>
      if Expired(t.holds[k], now) {
        var t' := ProcessHold(t, k, now, NoCrash, tbOn);
        ReleaseOfExpired(t, k, now, tbOn);
        forall i | 0 <= i < |t.holds| ensures SameSkip(t, t', i, now) {
          ReleaseKeepsSkipped(t, k, now, tbOn, i);
        }
        SameSkips(t, t', id, now);
      }
  }

  ghost predicate SameSkip(t: Tables, t': Tables, i: nat, now: int)
    requires i < |t.holds| == |t'.holds|
  {
    t'.holds[i].id == t.holds[i].id && (Skipped(t', i, now) <==> Skipped(t, i, now))
  }

  lemma {:induction false} SameSkips(t: Tables, t': Tables, id: string, now: int)
    requires |t.holds| == |t'.holds| && forall i :: 0 <= i < |t.holds| ==> SameSkip(t, t', i, now)
    ensures SkipsCandidate(t', id, now) <==> SkipsCandidate(t, id, now)
  {
    forall i | 0 <= i < |t.holds| ensures t'.holds[i].id == t.holds[i].id && (Skipped(t', i, now) <==> Skipped(t, i, now)) {
      assert SameSkip(t, t', i, now);
    }
  }

  lemma {:induction false} ReleaseKeepsSkipped(t: Tables, k: nat, now: int, tbOn: bool, i: nat)
    requires Sound(t) && k < |t.holds| && Expired(t.holds[k], now) && i < |t.holds|
    requires |ProcessHold(t, k, now, NoCrash, tbOn).holds| == |t.holds|
    ensures SameSkip(t, ProcessHold(t, k, now, NoCrash, tbOn), i, now)
  {
    var t' := ProcessHold(t, k, now, NoCrash, tbOn);
    ReleaseOfExpired(t, k, now, tbOn);
    if Ready(t, k, now) && i != k {
      assert t'.holds[i] == t.holds[i] && t.holds[i].order != t.holds[k].order;
      assert Gate(t', i, now) == Gate(t, i, now);
    }
  }

  // The report of an index pass is the number of holds it released exactly when it met no hold that
  // the gates skip; each one it met is reported as a release.
  lemma {:induction false} ReportIsExactlyReleases(t: Tables, ids: seq<string>, now: int, tbOn: bool)
    requires Sound(t)
    ensures var released := ReleasedCount(IndexPass(t, ids, now, tbOn).holds) - ReleasedCount(t.holds);
      && Reported(t, ids, now, tbOn) >= released
      && (Reported(t, ids, now, tbOn) == released <==> forall id :: id in ids ==> !SkipsCandidate(t, id, now))
  {
    if ids != [] {
      var n := |ids| - 1;
      ReportIsExactlyReleases(t, ids[..n], now, tbOn);
      ReportOfLast(t, ids, now, tbOn);
      assert ids == ids[..n] + [ids[n]];
    }
  }

  lemma {:induction false} ReportOfLast(t: Tables, ids: seq<string>, now: int, tbOn: bool)
    requires Sound(t) && ids != []
    ensures var rest, last := ids[..|ids| - 1], ids[|ids| - 1];
      Reported(t, ids, now, tbOn) - ReleasedCount(IndexPass(t, ids, now, tbOn).holds)
        == Reported(t, rest, now, tbOn) - ReleasedCount(IndexPass(t, rest, now, tbOn).holds)
           + (if SkipsCandidate(t, last, now) then 1 else 0)
  {
    var rest, last := ids[..|ids| - 1], ids[|ids| - 1];
    IndexPassReleasesExactly(t, rest, now, tbOn);
    PassKeepsSkipped(t, rest, now, tbOn, last);
    ReportOfOne(IndexPass(t, rest, now, tbOn), last, now, tbOn);
  }

  // ----- A hold lost from the index -----

  // What a call of ReleaseExpiredHolds with these claimed ids leaves in the tables.
  ghost function PassAfter(t: Tables, ids: seq<string>, budget: nat, now: int, tbOn: bool): Tables {
    if ids != [] then IndexPass(t, ids, now, tbOn) else ScanPass(t, budget, now, tbOn)
  }

  lemma {:induction false} ClaimedIsExpired(scores: map<string, int>, now: int, n: nat, ids: seq<string>)
    requires ClaimOf(scores, now, n, ids)
    ensures ids != [] ==> exists id :: id in scores && scores[id] <= now
  {
    if ids != [] {
      assert ids[0] in scores && scores[ids[0]] <= now;
    }
  }

  // An expired held hold that the index has lost is released by the call that finds no expired
  // member there, unless it stands behind a blocked hold.
  lemma {:induction false} LostHoldIsStillReleased(
      t: Tables, scores: map<string, int>, ids: seq<string>, budget: nat, now: int, tbOn: bool, i: nat)
    requires Sound(t) && budget >= |t.holds| && i < |t.holds| && Reached(t, i, now)
    requires ClaimOf(scores, now, 50, ids) && forall id :: id in scores ==> scores[id] > now
    ensures var t' := PassAfter(t, ids, budget, now, tbOn);
      |t'.holds| == |t.holds| && t'.holds[i] == t.holds[i].(status := Released)
  {
    ClaimedIsExpired(scores, now, 50, ids);
    ScanReleasesExactly(t, budget, now, tbOn, i);
  }

  ghost predicate ScanReturnsNil(t: Tables, now: int) {
    match FirstExpired(t.holds, now)
    case None => false
    case Some(i) => ReturnsNil(t, i, now, NoCrash)
  }

  ghost function ReportedByScan(t: Tables, n: nat, now: int, tbOn: bool): nat {
    if n == 0 then 0
    else
      ReportedByScan(t, n - 1, now, tbOn) + if ScanReturnsNil(ScanPass(t, n - 1, now, tbOn), now) then 1 else 0
  }

  lemma {:induction false} ScanIsOver(t: Tables, n: nat, m: nat, now: int, tbOn: bool)
    requires n <= m && FirstExpired(ScanPass(t, n, now, tbOn).holds, now).None?
    ensures ScanPass(t, m, now, tbOn) == ScanPass(t, n, now, tbOn)
    ensures ReportedByScan(t, m, now, tbOn) == ReportedByScan(t, n, now, tbOn)
  {
    if n < m {
      ScanIsOver(t, n, m - 1, now, tbOn);
    }
  }

  // ----- The service -----

  // How a return refund ended; the last two hand over to operations that are not modelled.
  datatype ReturnOutcome = Done | Rejected | Clawback | CodFallback

  class EscrowService {
    var holds: seq<Hold>
    var orders: map<string, Order>
    var disputes: seq<Dispute>
    var codDebts: seq<CodDebt>
    var vendorWallets: map<string, VendorWallet>
    var customerWallets: map<string, int>
    const ledger: LedgerService
    const index: HoldIndex

    constructor (ledger: LedgerService, index: HoldIndex)
      ensures this.ledger == ledger && this.index == index
      ensures State() == Tables([], map[], [], [], map[], map[], ledger.State())
    {
      holds, orders, disputes, codDebts, vendorWallets, customerWallets := [], map[], [], [], map[], map[];
      this.ledger, this.index := ledger, index;
    }

    function State(): Tables
      reads this, ledger
    {
      Tables(holds, orders, disputes, codDebts, vendorWallets, customerWallets, ledger.State())
    }

    method HoldExistsForOrder(order: string) returns (found: bool)
      ensures found <==> exists i :: 0 <= i < |holds| && holds[i].order == order && (holds[i].status == Held || holds[i].status == Disputed)
    {
      var count := 0;
      for i := 0 to |holds|
        invariant count > 0 <==> exists j :: 0 <= j < i && holds[j].order == order && (holds[j].status == Held || holds[j].status == Disputed)
        invariant count >= 0
      {
        if OpenFor(holds[i], order) {
          count := count + 1;
        }
      }
      found := count > 0;
    }

    // The id is indexed whether or not its row was inserted.
    method CreateHold(id: string, order: string, vendor: string, amount: int, now: int, holdSeconds: int, vendorExists: bool)
        returns (ok: bool)
      modifies this`holds, index
      ensures var h := Hold(id, order, vendor, amount, Held, now + holdSeconds, now, None);
        State() == Create(old(State()), h, vendorExists, BLOCKING)
      ensures ok <==> (order in orders && vendorExists) || HasActiveHold(old(holds), order)
      ensures index.scores ==
        if ok && !HasActiveHold(old(holds), order) then old(index.scores)[id := now + holdSeconds] else old(index.scores)
    {
      var found := HoldExistsForOrder(order);
      if found {
        return true;
      }
      if order !in orders || !vendorExists {
        return false;
      }
      var h := Hold(id, order, vendor, amount, Held, now + holdSeconds, now, None);
      if !exists i :: 0 <= i < |holds| && holds[i].order == order && holds[i].status in BLOCKING {
        if !exists i :: 0 <= i < |holds| && holds[i].order == order && holds[i].vendor == vendor {
          holds := holds + [h];
        }
      }
      index.Add(id, h.holdUntil);
      ok := true;
    }

    // Inside the caller's transaction, without the index and with the narrower guard.
    method CreateHoldTx(id: string, order: string, vendor: string, amount: int, now: int, holdSeconds: int, vendorExists: bool)
        returns (ok: bool)
      modifies this`holds
      ensures var h := Hold(id, order, vendor, amount, Held, now + holdSeconds, now, None);
        State() == Create(old(State()), h, vendorExists, BLOCKING_IN_TX)
      ensures ok <==> (order in orders && vendorExists) || HasActiveHold(old(holds), order)
    {
      var found := HoldExistsForOrder(order);
      if found {
        return true;
      }
      if order !in orders || !vendorExists {
        return false;
      }
      if !exists i :: 0 <= i < |holds| && holds[i].order == order && holds[i].vendor == vendor {
        holds := holds + [Hold(id, order, vendor, amount, Held, now + holdSeconds, now, None)];
      }
      ok := true;
    }

    // For a return: an active hold is extended, otherwise one is created.
    method CreateReturnHold(id: string, order: string, vendor: string, amount: int, now: int, until: int, vendorExists: bool)
        returns (ok: bool)
      modifies this`holds, index
      ensures HasActiveHold(old(holds), order) ==>
        ok && State() == Extend(old(State()), order, until) && index.scores == old(index.scores)
      ensures !HasActiveHold(old(holds), order) ==>
        && ok == (order in orders && vendorExists)
        && State() == Create(old(State()), Hold(id, order, vendor, amount, Held, until, now, None), vendorExists, BLOCKING)
        && index.scores == if ok then old(index.scores)[id := until] else old(index.scores)
    {
      var found := HoldExistsForOrder(order);
      if found {
        ExtendHoldUntil(order, until);
        return true;
      }
      ok := CreateHold(id, order, vendor, amount, now, until - now, vendorExists);
    }

    method ExtendHoldUntil(order: string, until: int)
      modifies this`holds
      ensures State() == Extend(old(State()), order, until)
    {
      holds := MapRows(holds, h => ExtendRow(h, order, until));
    }

    // ----- Release -----

    // The checks made inside the claiming transaction.
    method CheckGates(i: nat, now: int) returns (verdict: Verdict)
      requires i < |holds|
      ensures verdict == Gate(State(), i, now)
    {
      var h := holds[i];
      if h.order !in orders {
        return GiveUp(false);
      }
      var o := orders[h.order];
      if o.escrowReleased {
        return GiveUp(false);
      }
      if HasOpenDispute(disputes, h.order) || DisputeStatusBlocks(o.disputeStatus) {
        return PutBack;
      }
      if !EqualFold(o.status, "delivered") && !EqualFold(o.status, "completed") {
        return PutBack;
      }
      if EqualFold(o.gateway, "cod") {
        var debt := LatestDebt(codDebts, h.order);
        if debt.None? {
          return if now - h.createdAt > STALE_COD_SECONDS then GiveUp(true) else PutBack;
        }
        if !EqualFold(debt.value, "settled") {
          return PutBack;
        }
      } else if o.paymentStatus != "" && !EqualFold(o.paymentStatus, "paid") {
        return PutBack;
      }
      verdict := Pass;
    }

    // The final commit: hold, order and wallet.
    method CommitRelease(i: nat)
      requires i < |holds| && holds[i].order in orders
      modifies this, index
      ensures State() == MarkReleased(old(State()), i) && ReleaseCommitted(old(State()), State(), i)
      ensures index.scores == old(index.scores) - {old(holds)[i].id}
    {
      ReleaseChangesExactly(State(), i);
      var h := holds[i];
      holds := SetStatus(holds, i, Released);
      orders := orders[h.order := orders[h.order].(escrowReleased := true)];
      vendorWallets := CreditVendor(vendorWallets, h.vendor, h.amountPaisa);
      index.Remove(h.id);
    }

    // A rollback or a commit of 'held' leaves the row as it was claimed.
    method ProcessHoldTx(i: nat, now: int, crash: CrashPoint) returns (ok: bool)
      requires i < |holds|
      modifies this, ledger, index
      ensures State() == ProcessHold(old(State()), i, now, crash, ledger.tbOn)
      ensures ok <==> ReturnsNil(old(State()), i, now, crash)
      ensures index.scores ==
        if Gate(old(State()), i, now) == Pass && ok then old(index.scores) - {old(holds)[i].id} else old(index.scores)
    {
      var verdict := CheckGates(i, now);
      if verdict != Pass {
        return verdict != GiveUp(true);
      }
      var reply := ledger.Transfer(ReleaseRequest(holds[i]));
      if reply.Failure? || crash == AfterLedger {
        return false;
      }
      CommitRelease(i);
      ok := true;
    }

    method ReleaseOneHold(id: string, now: int) returns (ok: bool)
      modifies this, ledger, index
      ensures State() == ReleaseOne(old(State()), id, now, ledger.tbOn)
      ensures ok <==> ReleaseOneReturnsNil(old(State()), id, now)
    {
      var row := RowOf(holds, id);
      RowOfId(holds, id);
      if row.None? || !Expired(holds[row.value], now) {
        return false;
      }
      ok := ProcessHoldTx(row.value, now, NoCrash);
    }

    // The loop over the index's candidates.
    method ReleaseCandidates(ids: seq<string>, now: int) returns (released: nat)
      modifies this, ledger, index
      ensures State() == IndexPass(old(State()), ids, now, ledger.tbOn)
      ensures released == Reported(old(State()), ids, now, ledger.tbOn)
    {
      released := 0;
      for k := 0 to |ids|
        invariant State() == IndexPass(old(State()), ids[..k], now, ledger.tbOn)
        invariant released == Reported(old(State()), ids[..k], now, ledger.tbOn)
      {
        assert ids[..k + 1][..k] == ids[..k];
        var ok := ReleaseOneHold(ids[k], now);
        if ok {
          released := released + 1;
        }
      }
      assert ids[..|ids|] == ids;
    }

    // Claims the first expired held hold, if there is one, and processes it.
    method ScanOnce(now: int) returns (found: bool, ok: bool)
      modifies this, ledger, index
      ensures found <==> FirstExpired(old(holds), now).Some?
      ensures State() == Scan(old(State()), now, ledger.tbOn)
      ensures ok <==> ScanReturnsNil(old(State()), now)
    {
      var first := FirstExpired(holds, now);
      if first.None? {
        return false, false;
      }
      found := true;
      ok := ProcessHoldTx(first.value, now, NoCrash);
    }

    // The loop over the table scan, for as many iterations as its context lives.
    method ReleaseByScan(now: int, budget: nat) returns (released: nat)
      modifies this, ledger, index
      ensures State() == ScanPass(old(State()), budget, now, ledger.tbOn)
      ensures released == ReportedByScan(old(State()), budget, now, ledger.tbOn)
    {
      released := 0;
      for n := 0 to budget
        invariant State() == ScanPass(old(State()), n, now, ledger.tbOn)
        invariant released == ReportedByScan(old(State()), n, now, ledger.tbOn)
      {
        var found, ok := ScanOnce(now);
        if !found {
          ScanIsOver(old(State()), n, budget, now, ledger.tbOn);
          return;
        }
        if ok {
          released := released + 1;
        }
      }
    }

    method ReleaseExpiredHolds(now: int, budget: nat) returns (released: nat, ghost ids: seq<string>)
      modifies this, ledger, index
      ensures ClaimOf(old(index.scores), now, 50, ids)
      ensures State() == PassAfter(old(State()), ids, budget, now, ledger.tbOn)
      ensures released == if ids != [] then Reported(old(State()), ids, now, ledger.tbOn)
                          else ReportedByScan(old(State()), budget, now, ledger.tbOn)
    {
      var candidates := index.ClaimExpired(now, CLAIM_BATCH);
      ids := candidates;
      if |candidates| > 0 {
        released := ReleaseCandidates(candidates, now);
      } else {
        released := ReleaseByScan(now, budget);
      }
    }

    // ----- Disputes and cancellations -----

    method FreezeForDispute(order: string, disputeId: string)
      modifies this`holds, index
      ensures State() == Freeze(old(State()), order, disputeId)
      ensures index.scores == old(index.scores) - ClosedIds(holds, order)
    {
      holds := MapRows(holds, h => FreezeRow(h, order, disputeId));
      RemoveHoldsFromIndex(order);
    }

    method CancelForOrder(order: string)
      modifies this`holds, index
      ensures State() == Cancel(old(State()), order)
      ensures index.scores == old(index.scores) - ClosedIds(holds, order)
    {
      holds := MapRows(holds, h => CancelRow(h, order));
      RemoveHoldsFromIndex(order);
    }

    method RemoveHoldsFromIndex(order: string)
      modifies index
      ensures index.scores == old(index.scores) - ClosedIds(holds, order)
    {
      for i := 0 to |holds|
        invariant index.scores == old(index.scores) - ClosedIds(holds[..i], order)
      {
        assert holds[..i + 1][..i] == holds[..i];
        if IsClosed(holds[i], order) {
          index.Remove(holds[i].id);
        }
      }
      assert holds[..|holds|] == holds;
    }

    // The query runs after the update that clears dispute_id.
    method UnfreezeOnRejection(disputeId: string)
      modifies this`holds, index
      ensures State() == Unfreeze(old(State()), disputeId)
      ensures index.scores == old(index.scores) + HeldScores(holds, disputeId)
    {
      holds := MapRows(holds, h => UnfreezeRow(h, disputeId));
      ReAddHoldsToIndex(disputeId);
    }

    method ReAddHoldsToIndex(disputeId: string)
      modifies index
      ensures index.scores == old(index.scores) + HeldScores(holds, disputeId)
    {
      for i := 0 to |holds|
        invariant index.scores == old(index.scores) + HeldScores(holds[..i], disputeId)
      {
        assert holds[..i + 1][..i] == holds[..i];
        if holds[i].disputeId == Some(disputeId) && holds[i].status == Held {
          index.Add(holds[i].id, holds[i].holdUntil);
        }
      }
      assert holds[..|holds|] == holds;
    }

    // Adds every held hold; the other entries stay as they are.
    method RebuildIndex()
      modifies index
      ensures index.scores == old(index.scores) + AllHeldScores(holds)
    {
      for i := 0 to |holds|
        invariant index.scores == old(index.scores) + AllHeldScores(holds[..i])
      {
        assert holds[..i + 1][..i] == holds[..i];
        if holds[i].status == Held {
          index.Add(holds[i].id, holds[i].holdUntil);
        }
      }
      assert holds[..|holds|] == holds;
    }

    // ----- Refunds -----

    // The row is any disputed hold of the dispute.
    method RefundDispute(disputeId: string, crash: CrashPoint) returns (ok: bool, ghost row: Option<nat>)
      modifies this, ledger, index
      ensures row.None? <==> forall i :: 0 <= i < |old(holds)| ==>
        old(holds)[i].disputeId != Some(disputeId) || old(holds)[i].status != Disputed
      ensures row.Some? ==> row.value < |old(holds)| && DisputedBy(old(holds)[row.value], disputeId)
      ensures var plan := if row.None? then None else PlanDisputeRefund(old(State()), row.value, disputeId);
        && State() == (if plan.None? then old(State()) else RunPlan(old(State()), plan.value, crash, ledger.tbOn))
        && (ok <==> plan.Some? && Succeeds(old(ledger.State()), plan.value.request) && crash == NoCrash)
        && index.scores == if ok then old(index.scores) - {old(holds)[row.value].id} else old(index.scores)
      ensures ok ==> exists p ::
        && ReadsDispute(old(State()), p, disputeId) && row == Some(p.hold)
        && RefundCommitted(old(State()).(ledger := ledger.State()), State(), p)
    {
      row := None;
      ok := false;
      if exists i :: 0 <= i < |holds| && DisputedBy(holds[i], disputeId) {
        var i: nat :| i < |holds| && DisputedBy(holds[i], disputeId);
        row := Some(i);
        var plan := PlanDisputeRefund(State(), i, disputeId);
        if plan.Some? {
          DisputePlanReads(State(), i, disputeId);
          if Succeeds(ledger.State(), plan.value.request) {
            RunCommits(State(), plan.value, ledger.tbOn);
          }
          ok := PayPlan(plan.value, crash);
        }
      }
    }

    // The row is any open hold of the order.
    method RefundForReturn(order: string, amount: int, crash: CrashPoint) returns (outcome: ReturnOutcome, ghost row: Option<nat>)
      modifies this, ledger, index
      ensures row.Some? ==> row.value < |old(holds)| && OpenFor(old(holds)[row.value], order)
      ensures row.None? <==> order !in old(orders) || !HasActiveHold(old(holds), order)
      ensures var plan := if row.None? then None else PlanReturnRefund(old(State()), row.value, amount);
        && State() == (if plan.None? then old(State()) else RunPlan(old(State()), plan.value, crash, ledger.tbOn))
        && (plan.None? ==> outcome == WithoutHold(old(orders), order))
        && (plan.Some? ==> outcome == if Succeeds(old(ledger.State()), plan.value.request) && crash == NoCrash then Done else Rejected)
        && index.scores == if outcome == Done then old(index.scores) - {old(holds)[row.value].id} else old(index.scores)
      ensures outcome == Done ==> exists p ::
        && ReadsReturn(old(State()), p, amount) && row == Some(p.hold)
        && RefundCommitted(old(State()).(ledger := ledger.State()), State(), p)
    {
      row, outcome := None, WithoutHold(orders, order);
      if order in orders && HasActiveHold(holds, order) {
        var i: nat :| i < |holds| && OpenFor(holds[i], order);
        row := Some(i);
        var plan := PlanReturnRefund(State(), i, amount);
        if plan.Some? {
          ReturnPlanReads(State(), i, amount);
          if Succeeds(ledger.State(), plan.value.request) {
            RunCommits(State(), plan.value, ledger.tbOn);
          }
          var ok := PayPlan(plan.value, crash);
          outcome := if ok then Done else Rejected;
        }
      }
    }

    // Ledger first, then hold, wallet, order and debts in one transaction.
    method PayPlan(plan: Plan, crash: CrashPoint) returns (ok: bool)
      requires plan.hold < |holds|
      modifies this, ledger, index
      ensures State() == RunPlan(old(State()), plan, crash, ledger.tbOn)
      ensures ok <==> Succeeds(old(State()).ledger, plan.request) && crash == NoCrash
      ensures index.scores == if ok then old(index.scores) - {old(holds)[plan.hold].id} else old(index.scores)
    {
      var reply := ledger.Transfer(plan.request);
      if reply.Failure? || crash == AfterLedger {
        return false;
      }
      CommitRefund(plan);
      ok := true;
    }

    // The final commit: hold, wallet, order and debts.
    method CommitRefund(plan: Plan)
      requires plan.hold < |holds|
      modifies this, index
      ensures State() == MarkRefunded(old(State()), plan)
      ensures index.scores == old(index.scores) - {old(holds)[plan.hold].id}
    {
      var h := holds[plan.hold];
      holds := SetStatus(holds, plan.hold, Refunded);
      customerWallets := CreditCustomer(customerWallets, plan.customer, plan.amount);
      if h.order in orders {
        orders := orders[h.order := orders[h.order].(paymentStatus := "refunded")];
      }
      if plan.cancelsDebts {
        codDebts := CancelDebts(codDebts, h.order);
      }
      index.Remove(h.id);
    }
  }

  predicate DisputedBy(h: Hold, disputeId: string) {
    h.disputeId == Some(disputeId) && h.status == Disputed
  }

  predicate OpenFor(h: Hold, order: string) {
    h.order == order && h.status in {Held, Disputed}
  }

  predicate HasActiveHold(holds: seq<Hold>, order: string) {
    exists i :: 0 <= i < |holds| && OpenFor(holds[i], order)
  }

  // No hold to refund from: a released order is clawed back from the vendor, an unsettled COD
  // order is refunded from the rider's debt.
  function WithoutHold(orders: map<string, Order>, order: string): ReturnOutcome {
    if order !in orders then Rejected
    else if orders[order].escrowReleased then Clawback
    else if EqualFold(orders[order].gateway, "cod") then CodFallback
    else Rejected
  }

  predicate IsClosed(h: Hold, order: string) {
    h.order == order && h.status in {Cancelled, Released, Refunded, Disputed}
  }

  function ClosedIds(holds: seq<Hold>, order: string): set<string> {
    if holds == [] then {}
    else
      var last := holds[|holds| - 1];
      ClosedIds(holds[..|holds| - 1], order) + if IsClosed(last, order) then {last.id} else {}
  }

  function HeldScores(holds: seq<Hold>, disputeId: string): map<string, int> {
    if holds == [] then map[]
    else
      var last := holds[|holds| - 1];
      var rest := HeldScores(holds[..|holds| - 1], disputeId);
      if last.disputeId == Some(disputeId) && last.status == Held then rest[last.id := last.holdUntil] else rest
  }

  function AllHeldScores(holds: seq<Hold>): map<string, int> {
    if holds == [] then map[]
    else
      var last := holds[|holds| - 1];
      var rest := AllHeldScores(holds[..|holds| - 1]);
      if last.status == Held then rest[last.id := last.holdUntil] else rest
  }

  // What a rebuild adds: the ids of the held holds and no other, each at its hold_until.
  lemma {:induction false} AllHeldScoresExactly(holds: seq<Hold>, id: string)
    requires DistinctHolds(holds)
    ensures id in AllHeldScores(holds) <==> exists i :: 0 <= i < |holds| && holds[i].status == Held && holds[i].id == id
    ensures forall i :: 0 <= i < |holds| && holds[i].status == Held && holds[i].id == id ==>
      id in AllHeldScores(holds) && AllHeldScores(holds)[id] == holds[i].holdUntil
  {
    if holds != [] {
      var n := |holds| - 1;
      AllHeldScoresExactly(holds[..n], id);
      forall i | 0 <= i < n ensures holds[i] == holds[..n][i] && holds[i].id != holds[n].id {
      }
    }
  }
}
