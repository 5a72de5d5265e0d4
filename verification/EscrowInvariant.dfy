// Every step of the escrow protocol keeps its invariant.
module EscrowInvariant {
  import opened Ledger
  import opened LedgerLaws
  import opened Escrow
  import opened EscrowProtocol

  // ----- Changes to the holds table -----

  ghost predicate SameRow(h: Hold, h': Hold) {
    h'.id == h.id && h'.order == h.order && h'.vendor == h.vendor && h'.amountPaisa == h.amountPaisa
  }

  // The rows keep their identity and amount; only statuses, deadlines and disputes change.
  ghost predicate SameRows(holds: seq<Hold>, holds': seq<Hold>) {
    |holds'| == |holds| && forall i :: 0 <= i < |holds| ==> SameRow(holds[i], holds'[i])
  }

  lemma {:induction false} SameSums(holds: seq<Hold>, holds': seq<Hold>, reserved: set<string>, log: seq<Credit>)
    requires SameRows(holds, holds')
    ensures SumKeyed(holds', reserved) == SumKeyed(holds, reserved)
    ensures SumCredited(holds', log) == SumCredited(holds, log)
    ensures SumGap(holds', reserved, log) == SumGap(holds, reserved, log)
  {
    if holds != [] {
      var n := |holds| - 1;
      assert SameRow(holds[n], holds'[n]);
      forall i | 0 <= i < n ensures SameRow(holds[..n][i], holds'[..n][i]) {
        assert SameRow(holds[i], holds'[i]);
      }
      SameSums(holds[..n], holds'[..n], reserved, log);
    }
  }

  // What depends on the rows alone survives any change of statuses.
  lemma {:induction false} SameRowsKeep(t: Tables, holds': seq<Hold>, log: seq<Credit>, refunders: seq<Refunder>, others: int)
    requires SameRows(t.holds, holds')
    requires DistinctHolds(t.holds) && LegsOk(t.holds, t.ledger.entries) && LedgerOk(t, others)
    requires CreditedKeyed(t.holds, log, t.ledger.reserved) && RefundersOk(refunders, t.holds)
    ensures DistinctHolds(holds') && LegsOk(holds', t.ledger.entries) && LedgerOk(t.(holds := holds'), others)
    ensures CreditedKeyed(holds', log, t.ledger.reserved) && RefundersOk(refunders, holds')
  {
    SameSums(t.holds, holds', t.ledger.reserved, log);
    forall i | 0 <= i < |holds'| ensures SameRow(t.holds[i], holds'[i]) {
    }
  }

  // The statuses move only among those without a credit.
  ghost predicate BenignRow(h: Hold, h': Hold) {
    SameRow(h, h') && (h'.status != h.status ==> h.status in {Held, Disputed, PaidOut} && h'.status in {Held, Disputed, Cancelled})
  }

  ghost predicate Benign(holds: seq<Hold>, holds': seq<Hold>) {
    |holds'| == |holds| && forall i :: 0 <= i < |holds| ==> BenignRow(holds[i], holds'[i])
  }

  lemma {:induction false} BenignIsSame(holds: seq<Hold>, holds': seq<Hold>)
    requires Benign(holds, holds')
    ensures SameRows(holds, holds')
  {
    forall i | 0 <= i < |holds| ensures SameRow(holds[i], holds'[i]) {
      assert BenignRow(holds[i], holds'[i]);
    }
  }

  lemma {:induction false} BenignKeepsRows(s: Sys, holds': seq<Hold>)
    requires Benign(s.t.holds, holds') && Core(s)
    ensures NoPaidOut(holds') && FlagsOk(s.t.(holds := holds'))
  {
    forall i | 0 <= i < |holds'| ensures BenignRow(s.t.holds[i], holds'[i]) {
    }
  }

  lemma {:induction false} BenignKeepsCredits(holds: seq<Hold>, holds': seq<Hold>, log: seq<Credit>)
    requires Benign(holds, holds') && NoPaidOut(holds) && CreditsOk(holds, log)
    ensures CreditsOk(holds', log) && (ExactlyOnce(holds', log) <==> ExactlyOnce(holds, log))
  {
    BenignIsSame(holds, holds');
    SameSums(holds, holds', {}, log);
    forall i: nat | i < |holds'|
      ensures CreditOk(holds'[i].status, VendorCredits(log, i), CustomerCredits(log, i))
      ensures holds'[i].status == holds[i].status || {holds[i].status, holds'[i].status} !! {Released, Refunded}
    {
      assert BenignRow(holds[i], holds'[i]) && CreditOk(holds[i].status, VendorCredits(log, i), CustomerCredits(log, i));
    }
  }

  lemma {:induction false} BenignKeepsLocks(s: Sys, holds': seq<Hold>)
    requires Benign(s.t.holds, holds') && LocksOk(s) && Unlocked(s, holds')
    ensures LocksOk(s.(t := s.t.(holds := holds')))
  {
    forall w | 0 <= w < |s.workers| && !s.workers[w].Idle?
      ensures holds'[s.workers[w].hold] == s.t.holds[s.workers[w].hold]
    {
      assert Locks(s.workers[w], s.workers[w].hold);
      assert Locked(s, s.workers[w].hold);
    }
  }

  lemma {:induction false} BenignKeepsInv(s: Sys, holds': seq<Hold>)
    requires Core(s) && Benign(s.t.holds, holds') && Unlocked(s, holds')
    ensures var s' := s.(t := s.t.(holds := holds'));
      Core(s') && (Exact(s') <==> Exact(s))
  {
    BenignIsSame(s.t.holds, holds');
    SameRowsKeep(s.t, holds', s.log, s.refunders, s.others);
    BenignKeepsRows(s, holds');
    BenignKeepsCredits(s.t.holds, holds', s.log);
    BenignKeepsLocks(s, holds');
  }

  lemma {:induction false} FreezeKeepsInv(s: Sys, order: string, d: string)
    requires Core(s) && Unlocked(s, Freeze(s.t, order, d).holds)
    ensures var s' := s.(t := Freeze(s.t, order, d));
      Core(s') && (Exact(s') <==> Exact(s))
  {
    assert Benign(s.t.holds, Freeze(s.t, order, d).holds);
    BenignKeepsInv(s, Freeze(s.t, order, d).holds);
  }

  lemma {:induction false} UnfreezeKeepsInv(s: Sys, d: string)
    requires Core(s) && Unlocked(s, Unfreeze(s.t, d).holds)
    ensures var s' := s.(t := Unfreeze(s.t, d));
      Core(s') && (Exact(s') <==> Exact(s))
  {
    assert Benign(s.t.holds, Unfreeze(s.t, d).holds);
    BenignKeepsInv(s, Unfreeze(s.t, d).holds);
  }

  lemma {:induction false} CancelKeepsInv(s: Sys, order: string)
    requires Core(s) && Unlocked(s, Cancel(s.t, order).holds)
    ensures var s' := s.(t := Cancel(s.t, order));
      Core(s') && (Exact(s') <==> Exact(s))
  {
    assert Benign(s.t.holds, Cancel(s.t, order).holds);
    BenignKeepsInv(s, Cancel(s.t, order).holds);
  }

  lemma {:induction false} ExtendKeepsInv(s: Sys, order: string, until: int)
    requires Core(s) && Unlocked(s, Extend(s.t, order, until).holds)
    ensures var s' := s.(t := Extend(s.t, order, until));
      Core(s') && (Exact(s') <==> Exact(s))
  {
    assert Benign(s.t.holds, Extend(s.t, order, until).holds);
    BenignKeepsInv(s, Extend(s.t, order, until).holds);
  }

  // ----- A new hold -----

  // Neither its release key nor its order has been used for a release.
  ghost predicate Unused(t: Tables, h: Hold) {
    ReleaseKey(h.id) !in t.ledger.reserved && (h.order in t.orders ==> !t.orders[h.order].escrowReleased)
  }

  lemma {:induction false} NewHoldIsUnused(t: Tables, h: Hold)
    requires Origins(t) && MayCreate(t, h)
    ensures Unused(t, h)
  {
    assert ReleaseKey(h.id)[..|RELEASE_PREFIX|] == RELEASE_PREFIX;
    forall i | 0 <= i < |t.holds| ensures ReleaseKey(t.holds[i].id) != ReleaseKey(h.id) {
      DistinctReleaseKeys(t.holds[i].id, h.id);
    }
  }

  lemma {:induction false} UncreditedBeyond(log: seq<Credit>, n: nat)
    requires forall k :: 0 <= k < |log| ==> log[k].hold < n
    ensures VendorCredits(log, n) == 0 && CustomerCredits(log, n) == 0
  {
    if log != [] {
      UncreditedBeyond(log[..|log| - 1], n);
    }
  }

  lemma {:induction false} CreateKeepsLegs(db: Db, holds: seq<Hold>, h: Hold)
    requires Consistent(db) && LegsOk(holds, db.entries) && ReleaseKey(h.id) !in db.reserved
    ensures LegsOk(holds + [h], db.entries)
  {
    forall k | 0 <= k < |db.entries| ensures db.entries[k].idempotencyKey != ReleaseKey(h.id) + CREDIT {
      KeyIsSuffixed(db, k);
      var key := PairKey(db.entries, k / 2);
      SuffixesDiffer(key, ReleaseKey(h.id));
      assert key != "" ==> key in db.reserved;
    }
  }

  lemma {:induction false} CreateKeepsCredits(holds: seq<Hold>, log: seq<Credit>, h: Hold)
    requires CreditsOk(holds, log) && h.status == Held
    ensures CreditsOk(holds + [h], log) && (ExactlyOnce(holds + [h], log) <==> ExactlyOnce(holds, log))
  {
    var all := holds + [h];
    UncreditedBeyond(log, |holds|);
    assert all[..|holds|] == holds;
    forall i: nat | i < |holds| ensures all[i] == holds[i] {
    }
  }

  lemma {:induction false} CreateKeepsLedger(t: Tables, h: Hold, others: int)
    requires LedgerOk(t, others) && ReleaseKey(h.id) !in t.ledger.reserved
    ensures LedgerOk(t.(holds := t.holds + [h]), others)
  {
    assert (t.holds + [h])[..|t.holds|] == t.holds;
  }

  lemma {:induction false} CreateKeepsRows(s: Sys, h: Hold)
    requires Core(s) && MayCreate(s.t, h) && Unused(s.t, h)
    ensures var holds' := s.t.holds + [h];
      && DistinctHolds(holds') && NoPaidOut(holds') && FlagsOk(s.t.(holds := holds'))
      && CreditedKeyed(holds', s.log, s.t.ledger.reserved) && RefundersOk(s.refunders, holds')
  {
    var holds' := s.t.holds + [h];
    UncreditedBeyond(s.log, |s.t.holds|);
    forall i | 0 <= i < |s.t.holds| ensures holds'[i] == s.t.holds[i] {
    }
  }

  lemma {:induction false} CreateKeepsLocks(s: Sys, h: Hold)
    requires LocksOk(s)
    ensures LocksOk(s.(t := s.t.(holds := s.t.holds + [h])))
  {
    forall i | 0 <= i < |s.t.holds| ensures (s.t.holds + [h])[i] == s.t.holds[i] {
    }
  }

  lemma {:induction false} CreateKeepsInv(s: Sys, h: Hold)
    requires Core(s) && MayCreate(s.t, h) && Unused(s.t, h)
    ensures var s' := s.(t := s.t.(holds := s.t.holds + [h]));
      Core(s') && (Exact(s') <==> Exact(s))
  {
    CreateKeepsCredits(s.t.holds, s.log, h);
    CreateKeepsLegs(s.t.ledger, s.t.holds, h);
    CreateKeepsLedger(s.t, h, s.others);
    CreateKeepsRows(s, h);
    CreateKeepsLocks(s, h);
  }

  // ----- Calls of the rest of the platform, and the ledger leg of a refund -----

  ghost function ReqsOf(call: Call): seq<Request> {
    match call
    case Single(r) => [r]
    case Multi(reqs) => reqs
  }

  lemma {:induction false} CallCommitsOrNot(db: Db, call: Call)
    ensures var db' := After(db, call, true);
      db' == db ||
      (db'.reserved == db.reserved + KeysOf(ReqsOf(call)) && db'.entries == db.entries + Rows(db.nextTx, ReqsOf(call)))
  {
  }

  lemma {:induction false} ReleaseKeyIsNotForeign(id: string, r: Request)
    requires Foreign(r)
    ensures r.idempotencyKey != ReleaseKey(id)
    ensures r.idempotencyKey + CREDIT != ReleaseKey(id) + CREDIT && r.idempotencyKey + DEBIT != ReleaseKey(id) + CREDIT
  {
    assert ReleaseKey(id)[..|RELEASE_PREFIX|] == RELEASE_PREFIX;
    SuffixesDiffer(r.idempotencyKey, ReleaseKey(id));
  }

  lemma {:induction false} ForeignKeepsKeyed(db: Db, call: Call, h: Hold)
    requires ForeignCall(call)
    ensures Keyed(h, After(db, call, true).reserved) <==> Keyed(h, db.reserved)
  {
    CallCommitsOrNot(db, call);
    forall r | r in ReqsOf(call) ensures r.idempotencyKey != ReleaseKey(h.id) {
      assert Foreign(r);
      ReleaseKeyIsNotForeign(h.id, r);
    }
  }

  lemma {:induction false} ForeignSums(holds: seq<Hold>, db: Db, call: Call)
    requires ForeignCall(call)
    ensures SumKeyed(holds, After(db, call, true).reserved) == SumKeyed(holds, db.reserved)
  {
    if holds != [] {
      ForeignKeepsKeyed(db, call, holds[|holds| - 1]);
      ForeignSums(holds[..|holds| - 1], db, call);
    }
  }

  lemma {:induction false} ForeignKeepsLegs(holds: seq<Hold>, db: Db, call: Call)
    requires ForeignCall(call) && LegsOk(holds, db.entries)
    ensures LegsOk(holds, After(db, call, true).entries)
  {
    CallCommitsOrNot(db, call);
    var reqs := ReqsOf(call);
    forall i, k | 0 <= i < |holds| && 0 <= k < 2 * |reqs|
      ensures Rows(db.nextTx, reqs)[k].idempotencyKey != ReleaseKey(holds[i].id) + CREDIT
    {
      RowsAt(db.nextTx, reqs, k / 2);
      assert Foreign(reqs[k / 2]);
      ReleaseKeyIsNotForeign(holds[i].id, reqs[k / 2]);
    }
  }

  lemma {:induction false} ForeignKeepsLedger(t: Tables, call: Call, others: int)
    requires ForeignCall(call) && LedgerOk(t, others)
    ensures LedgerOk(t.(ledger := After(t.ledger, call, true)), others + CallMoves(t.ledger, call, VENDOR_WITHDRAWABLE))
  {
    AfterKeepsConsistent(t.ledger, call, true);
    BalanceAfterCall(t.ledger, call, true, VENDOR_WITHDRAWABLE);
    ForeignSums(t.holds, t.ledger, call);
  }

  lemma {:induction false} OtherCallKeepsInv(s: Sys, call: Call)
    requires Core(s) && ForeignCall(call)
    ensures Core(OtherCall(s, call))
  {
    ForeignKeepsLedger(s.t, call, s.others);
    ForeignKeepsLegs(s.t.holds, s.t.ledger, call);
    forall i | 0 <= i < |s.t.holds|
      ensures Keyed(s.t.holds[i], After(s.t.ledger, call, true).reserved) <==> Keyed(s.t.holds[i], s.t.ledger.reserved)
    {
      ForeignKeepsKeyed(s.t.ledger, call, s.t.holds[i]);
    }
  }

  // ----- The ledger leg of a release -----

  lemma {:induction false} DistinctReleaseKeys(a: string, b: string)
    requires a != b
    ensures ReleaseKey(a) != ReleaseKey(b)
  {
    assert ReleaseKey(a)[|RELEASE_PREFIX|..] == a && ReleaseKey(b)[|RELEASE_PREFIX|..] == b;
  }

  // Reserving the key of row i adds its amount to the keyed sum, once.
  lemma {:induction false} SumOfNewKey(holds: seq<Hold>, reserved: set<string>, i: nat)
    requires DistinctHolds(holds) && i < |holds| && !Keyed(holds[i], reserved)
    ensures SumKeyed(holds, reserved + {ReleaseKey(holds[i].id)}) == SumKeyed(holds, reserved) + holds[i].amountPaisa
  {
    var n := |holds| - 1;
    if i < n {
      DistinctReleaseKeys(holds[i].id, holds[n].id);
      SumOfNewKey(holds[..n], reserved, i);
    } else {
      SumOfOtherKey(holds[..n], reserved, holds[n].id);
    }
  }

  lemma {:induction false} SumOfOtherKey(holds: seq<Hold>, reserved: set<string>, id: string)
    requires forall i :: 0 <= i < |holds| ==> holds[i].id != id
    ensures SumKeyed(holds, reserved + {ReleaseKey(id)}) == SumKeyed(holds, reserved)
  {
    if holds != [] {
      DistinctReleaseKeys(holds[|holds| - 1].id, id);
      SumOfOtherKey(holds[..|holds| - 1], reserved, id);
    }
  }

  lemma {:induction false} ReleaseCommit(db: Db, h: Hold)
    requires Consistent(db) && SingleCommits(db, ReleaseRequest(h))
    ensures var db' := SingleAfter(db, ReleaseRequest(h), true);
      && db'.reserved == db.reserved + {ReleaseKey(h.id)}
      && db'.entries == db.entries + [DebitRow(db.nextTx, ReleaseRequest(h)), CreditRow(db.nextTx, ReleaseRequest(h))]
      && Balance(db'.entries, VENDOR_WITHDRAWABLE) == Balance(db.entries, VENDOR_WITHDRAWABLE) + h.amountPaisa
  {
    var r := ReleaseRequest(h);
    SingleCommitsExactly(db, r);
    CommitOne(db, r, true);
    var all := db.entries + [DebitRow(db.nextTx, r), CreditRow(db.nextTx, r)];
    assert all[..|all| - 1] == db.entries + [DebitRow(db.nextTx, r)];
    assert (db.entries + [DebitRow(db.nextTx, r)])[..|db.entries|] == db.entries;
  }

  lemma {:induction false} ReleaseLegKeepsLegs(holds: seq<Hold>, entries: seq<Entry>, tx: TxId, i: nat)
    requires DistinctHolds(holds) && i < |holds| && LegsOk(holds, entries)
    ensures LegsOk(holds, entries + [DebitRow(tx, ReleaseRequest(holds[i])), CreditRow(tx, ReleaseRequest(holds[i]))])
  {
    var r := ReleaseRequest(holds[i]);
    forall j | 0 <= j < |holds|
      ensures DebitRow(tx, r).idempotencyKey != ReleaseKey(holds[j].id) + CREDIT
      ensures CreditRow(tx, r).idempotencyKey == ReleaseKey(holds[j].id) + CREDIT ==> j == i
    {
      SuffixesDiffer(r.idempotencyKey, ReleaseKey(holds[j].id));
      if j != i {
        DistinctReleaseKeys(holds[i].id, holds[j].id);
      }
    }
  }

  lemma {:induction false} ReleaseLegKeepsLedger(t: Tables, i: nat, others: int)
    requires LedgerOk(t, others) && DistinctHolds(t.holds) && LegsOk(t.holds, t.ledger.entries) && i < |t.holds|
    requires Succeeds(t.ledger, ReleaseRequest(t.holds[i]))
    ensures var t' := PayLedger(t, ReleaseRequest(t.holds[i]), true);
      && LedgerOk(t', others) && LegsOk(t.holds, t'.ledger.entries)
      && t'.ledger.reserved == t.ledger.reserved + {ReleaseKey(t.holds[i].id)}
  {
    var r := ReleaseRequest(t.holds[i]);
    AfterKeepsConsistent(t.ledger, Single(r), true);
    if r.idempotencyKey !in t.ledger.reserved {
      ReleaseCommit(t.ledger, t.holds[i]);
      ReleaseLegKeepsLegs(t.holds, t.ledger.entries, t.ledger.nextTx, i);
      SumOfNewKey(t.holds, t.ledger.reserved, i);
    } else {
      assert t.ledger.reserved == t.ledger.reserved + {ReleaseKey(t.holds[i].id)};
    }
  }

  lemma {:induction false} PayKeepsLocks(s: Sys, s': Sys, w: nat)
    requires LocksOk(s) && w < |s.workers| && s.workers[w].Cleared? && s'.workers == s.workers[w := Paid(s.workers[w].hold)]
    requires s'.t.holds == s.t.holds && s.t.ledger.reserved <= s'.t.ledger.reserved
    requires Keyed(s.t.holds[s.workers[w].hold], s'.t.ledger.reserved)
    ensures LocksOk(s')
  {
  }

  lemma {:induction false} PayKeepsInv(s: Sys, w: nat)
    requires Core(s) && Enabled(s, Pay(w))
    ensures Core(Next(s, Pay(w))) && (Exact(Next(s, Pay(w))) <==> Exact(s))
  {
    var i := s.workers[w].hold;
    var s' := Next(s, Pay(w));
    if Succeeds(s.t.ledger, ReleaseRequest(s.t.holds[i])) {
      ReleaseLegKeepsLedger(s.t, i, s.others);
      PayKeepsLocks(s, s', w);
    } else {
      assert LocksOk(s');
    }
  }

  // ----- The final commit of a release -----

  // A vendor credit of an uncredited row adds its amount; the other rows keep theirs.
  lemma {:induction false} VendorCreditsAfter(log: seq<Credit>, c: Credit, i: nat)
    ensures VendorCredits(log + [c], i) == VendorCredits(log, i) + if c.VendorCredit? && c.hold == i then 1 else 0
  {
    assert (log + [c])[..|log|] == log;
  }

  lemma {:induction false} SumAfterVendorCredit(holds: seq<Hold>, log: seq<Credit>, c: Credit)
    requires c.VendorCredit? && VendorCredits(log, c.hold) == 0
    ensures SumCredited(holds, log + [c])
      == SumCredited(holds, log) + if c.hold < |holds| then holds[c.hold].amountPaisa else 0
  {
    if holds != [] {
      VendorCreditsAfter(log, c, |holds| - 1);
      SumAfterVendorCredit(holds[..|holds| - 1], log, c);
    }
  }

  lemma {:induction false} SumAfterCustomerCredit(holds: seq<Hold>, log: seq<Credit>, c: Credit)
    requires c.CustomerCredit?
    ensures SumCredited(holds, log + [c]) == SumCredited(holds, log)
  {
    if holds != [] {
      VendorCreditsAfter(log, c, |holds| - 1);
      SumAfterCustomerCredit(holds[..|holds| - 1], log, c);
    }
  }

  lemma {:induction false} LogAfterCredit(log: seq<Credit>, c: Credit)
    ensures (log + [c])[..|log|] == log
    ensures forall i :: VendorCredits(log + [c], i) == VendorCredits(log, i) + if c.VendorCredit? && c.hold == i then 1 else 0
    ensures forall i :: CustomerCredits(log + [c], i) == CustomerCredits(log, i) + if c.CustomerCredit? && c.hold == i then 1 else 0
    ensures CreditedToVendors(log + [c]) == CreditedToVendors(log) + if c.VendorCredit? then c.amount else 0
    ensures forall v :: CreditedToVendor(log + [c], v) == CreditedToVendor(log, v) + if c.VendorCredit? && c.vendor == v then c.amount else 0
    ensures forall u :: CreditedToCustomer(log + [c], u) == CreditedToCustomer(log, u) + if c.CustomerCredit? && c.customer == u then c.amount else 0
  {
    assert (log + [c])[..|log|] == log;
  }

  // The locks of the other workers survive when row i changes and nobody else holds it.
  lemma {:induction false} LocksAfterRow(s: Sys, s': Sys, i: nat)
    requires LocksOk(s) && |s'.workers| == |s.workers| && |s'.t.holds| == |s.t.holds|
    requires forall j :: 0 <= j < |s.t.holds| && j != i ==> s'.t.holds[j] == s.t.holds[j]
    requires s.t.ledger.reserved <= s'.t.ledger.reserved
    requires forall v :: 0 <= v < |s.workers| ==>
      s'.workers[v].Idle? || (s'.workers[v] == s.workers[v] && s.workers[v].hold != i)
    ensures LocksOk(s')
  {
  }

  lemma {:induction false} StatusIsSame(holds: seq<Hold>, i: nat, status: Status)
    requires i < |holds|
    ensures SameRows(holds, SetStatus(holds, i, status))
  {
    forall j | 0 <= j < |holds| ensures SameRow(holds[j], SetStatus(holds, i, status)[j]) {
    }
  }

  lemma {:induction false} FinishKeepsCredits(holds: seq<Hold>, log: seq<Credit>, i: nat)
    requires CreditsOk(holds, log) && i < |holds| && holds[i].status == Held
    ensures CreditsOk(SetStatus(holds, i, Released), log + [VendorCredit(i, holds[i].vendor, holds[i].amountPaisa)])
  {
    assert CreditOk(holds[i].status, VendorCredits(log, i), CustomerCredits(log, i));
    FinishKeepsSums(holds, log, i);
    FinishKeepsStatuses(holds, log, i);
  }

  ghost predicate StatusesOk(holds: seq<Hold>, log: seq<Credit>) {
    forall i: nat :: i < |holds| ==> CreditOk(holds[i].status, VendorCredits(log, i), CustomerCredits(log, i))
  }

  lemma {:induction false} FinishKeepsStatuses(holds: seq<Hold>, log: seq<Credit>, i: nat)
    requires StatusesOk(holds, log) && i < |holds| && holds[i].status == Held
    ensures StatusesOk(SetStatus(holds, i, Released), log + [VendorCredit(i, holds[i].vendor, holds[i].amountPaisa)])
  {
    var holds', log' := SetStatus(holds, i, Released), log + [VendorCredit(i, holds[i].vendor, holds[i].amountPaisa)];
    forall j: nat | j < |holds'| ensures CreditOk(holds'[j].status, VendorCredits(log', j), CustomerCredits(log', j)) {
      FinishRow(holds, log, i, j);
    }
  }

  lemma {:induction false} FinishKeepsOnce(holds: seq<Hold>, log: seq<Credit>, i: nat)
    requires CreditsOk(holds, log) && i < |holds| && holds[i].status == Held
    ensures var log' := log + [VendorCredit(i, holds[i].vendor, holds[i].amountPaisa)];
      ExactlyOnce(SetStatus(holds, i, Released), log') <==> ExactlyOnce(holds, log)
  {
    var log' := log + [VendorCredit(i, holds[i].vendor, holds[i].amountPaisa)];
    forall j: nat | j < |holds|
      ensures OnceOk(SetStatus(holds, i, Released)[j].status, VendorCredits(log', j), CustomerCredits(log', j))
        == OnceOk(holds[j].status, VendorCredits(log, j), CustomerCredits(log, j))
    {
      FinishRow(holds, log, i, j);
    }
  }

  lemma {:induction false} FinishRow(holds: seq<Hold>, log: seq<Credit>, i: nat, j: nat)
    requires i < |holds| && holds[i].status == Held && j < |holds|
    requires CreditOk(holds[j].status, VendorCredits(log, j), CustomerCredits(log, j))
    ensures var log' := log + [VendorCredit(i, holds[i].vendor, holds[i].amountPaisa)];
      var status := SetStatus(holds, i, Released)[j].status;
      && CreditOk(status, VendorCredits(log', j), CustomerCredits(log', j))
      && OnceOk(status, VendorCredits(log', j), CustomerCredits(log', j))
           == OnceOk(holds[j].status, VendorCredits(log, j), CustomerCredits(log, j))
  {
    LogAfterCredit(log, VendorCredit(i, holds[i].vendor, holds[i].amountPaisa));
  }

  lemma {:induction false} FinishKeepsSums(holds: seq<Hold>, log: seq<Credit>, i: nat)
    requires CreditedToVendors(log) == SumCredited(holds, log) && i < |holds| && VendorCredits(log, i) == 0
    ensures var log' := log + [VendorCredit(i, holds[i].vendor, holds[i].amountPaisa)];
      CreditedToVendors(log') == SumCredited(SetStatus(holds, i, Released), log')
  {
    var c := VendorCredit(i, holds[i].vendor, holds[i].amountPaisa);
    assert (log + [c])[..|log|] == log;
    StatusIsSame(holds, i, Released);
    SameSums(holds, SetStatus(holds, i, Released), {}, log + [c]);
    SumAfterVendorCredit(holds, log, c);
  }

  lemma {:induction false} FinishKeepsWallets(s: Sys, i: nat)
    requires WalletsOk(s.t, s.log, s.moves) && i < |s.t.holds|
    ensures WalletsOk(MarkReleased(s.t, i), s.log + [VendorCredit(i, s.t.holds[i].vendor, s.t.holds[i].amountPaisa)], s.moves)
  {
    LogAfterCredit(s.log, VendorCredit(i, s.t.holds[i].vendor, s.t.holds[i].amountPaisa));
  }

  lemma {:induction false} FinishKeepsFlags(s: Sys, i: nat)
    requires FlagsOk(s.t) && DistinctHolds(s.t.holds) && NoPaidOut(s.t.holds) && i < |s.t.holds|
    ensures FlagsOk(MarkReleased(s.t, i)) && NoPaidOut(SetStatus(s.t.holds, i, Released))
  {
  }

  lemma {:induction false} FinishKeepsKeyed(holds: seq<Hold>, log: seq<Credit>, reserved: set<string>, i: nat)
    requires CreditedKeyed(holds, log, reserved) && i < |holds| && Keyed(holds[i], reserved)
    ensures CreditedKeyed(holds, log + [VendorCredit(i, holds[i].vendor, holds[i].amountPaisa)], reserved)
  {
    LogAfterCredit(log, VendorCredit(i, holds[i].vendor, holds[i].amountPaisa));
  }

  lemma {:induction false} FinishKeepsRows(s: Sys, i: nat)
    requires Core(s) && i < |s.t.holds| && Keyed(s.t.holds[i], s.t.ledger.reserved)
    ensures var t', log' := MarkReleased(s.t, i), s.log + [VendorCredit(i, s.t.holds[i].vendor, s.t.holds[i].amountPaisa)];
      && DistinctHolds(t'.holds) && LegsOk(t'.holds, t'.ledger.entries) && LedgerOk(t', s.others)
      && CreditedKeyed(t'.holds, log', t'.ledger.reserved) && RefundersOk(s.refunders, t'.holds)
  {
    FinishKeepsKeyed(s.t.holds, s.log, s.t.ledger.reserved, i);
    StatusIsSame(s.t.holds, i, Released);
    var t' := MarkReleased(s.t, i);
    SameRowsKeep(s.t, t'.holds, s.log + [VendorCredit(i, s.t.holds[i].vendor, s.t.holds[i].amountPaisa)], s.refunders, s.others);
  }

  lemma {:induction false} FinishKeepsInv(s: Sys, w: nat)
    requires Core(s) && Enabled(s, Finish(w))
    ensures Core(Next(s, Finish(w))) && (Exact(Next(s, Finish(w))) <==> Exact(s))
  {
    var i := s.workers[w].hold;
    var s' := Next(s, Finish(w));
    FinishKeepsRows(s, i);
    FinishKeepsCredits(s.t.holds, s.log, i);
    FinishKeepsOnce(s.t.holds, s.log, i);
    FinishKeepsWallets(s, i);
    FinishKeepsFlags(s, i);
    LocksAfterRow(s, s', i);
  }

  // ----- A refund -----

  lemma {:induction false} PrefixChar(s: string, prefix: string, i: nat)
    requires i < |prefix|
    ensures HasPrefix(s, prefix) ==> i < |s| && s[i] == prefix[i]
  {
    if HasPrefix(s, prefix) {
      assert s[..|prefix|][i] == prefix[i];
    }
  }

  lemma {:induction false} RefundRequestIsForeign(r: Request, tail: string)
    requires r.idempotencyKey == DISPUTE_REFUND_PREFIX + tail || r.idempotencyKey == RETURN_REFUND_PREFIX + tail
    ensures Foreign(r)
  {
    PrefixChar(r.idempotencyKey, RELEASE_PREFIX, 0);
    PrefixChar(r.idempotencyKey, RELEASE_PREFIX, 9);
    assert RELEASE_PREFIX[0] == 'e' && RELEASE_PREFIX[9] == 'l';
    assert DISPUTE_REFUND_PREFIX[9] == 'f' && RETURN_REFUND_PREFIX[0] == 'r';
  }

  lemma {:induction false} RefunderMoveKeepsInv(s: Sys, r: nat, refunder: Refunder)
    requires Core(s) && r < |s.refunders|
    requires !refunder.NoRefund? ==> refunder.p.hold < |s.t.holds| && Foreign(refunder.p.request)
    ensures Core(SetRefunder(s, r, refunder)) && (Exact(SetRefunder(s, r, refunder)) <==> Exact(s))
  {
    assert LocksOk(SetRefunder(s, r, refunder));
  }

  lemma {:induction false} ReadKeepsInv(s: Sys, step: Step)
    requires Core(s) && Enabled(s, step) && (step.ReadDisputeRefund? || step.ReadReturnRefund?)
    ensures Core(Next(s, step)) && (Exact(Next(s, step)) <==> Exact(s))
  {
    if step.ReadDisputeRefund? {
      var p := PlanDisputeRefund(s.t, step.i, step.disputeId).value;
      RefundRequestIsForeign(p.request, step.disputeId);
      RefunderMoveKeepsInv(s, step.r, Planned(p));
    } else {
      var p := PlanReturnRefund(s.t, step.i, step.amount).value;
      RefundRequestIsForeign(p.request, s.t.holds[step.i].order);
      RefunderMoveKeepsInv(s, step.r, Planned(p));
    }
  }

  lemma {:induction false} PayRefundKeepsInv(s: Sys, r: nat)
    requires Core(s) && Enabled(s, PayRefund(r))
    ensures Core(Next(s, PayRefund(r))) && (Exact(Next(s, PayRefund(r))) <==> Exact(s))
  {
    var p := s.refunders[r].p;
    OtherCallKeepsInv(s, Single(p.request));
    RefunderMoveKeepsInv(OtherCall(s, Single(p.request)), r, if Succeeds(s.t.ledger, p.request) then Transferred(p) else NoRefund);
  }

  lemma {:induction false} RefundKeepsCredits(holds: seq<Hold>, log: seq<Credit>, p: Plan)
    requires CreditsOk(holds, log) && p.hold < |holds|
    ensures CreditsOk(SetStatus(holds, p.hold, Refunded), log + [CustomerCredit(p.hold, p.customer, p.amount)])
  {
    var c := CustomerCredit(p.hold, p.customer, p.amount);
    var holds' := SetStatus(holds, p.hold, Refunded);
    LogAfterCredit(log, c);
    StatusIsSame(holds, p.hold, Refunded);
    SameSums(holds, holds', {}, log + [c]);
    SumAfterCustomerCredit(holds, log, c);
    forall j: nat | j < |holds|
      ensures CreditOk(holds[j].status, VendorCredits(log, j), CustomerCredits(log, j))
      ensures j != p.hold ==> holds'[j].status == holds[j].status
    {
    }
  }

  // A refund commit keeps the credits exactly once if and only if it finds its hold neither
  // released nor refunded: the guard that its update lacks.
  lemma {:induction false} CommitIsExactlyOnceIff(holds: seq<Hold>, log: seq<Credit>, p: Plan)
    requires CreditsOk(holds, log) && p.hold < |holds|
    ensures ExactlyOnce(SetStatus(holds, p.hold, Refunded), log + [CustomerCredit(p.hold, p.customer, p.amount)])
      <==> ExactlyOnce(holds, log) && holds[p.hold].status !in {Released, Refunded}
  {
    var c := CustomerCredit(p.hold, p.customer, p.amount);
    var holds' := SetStatus(holds, p.hold, Refunded);
    LogAfterCredit(log, c);
    assert CreditOk(holds[p.hold].status, VendorCredits(log, p.hold), CustomerCredits(log, p.hold));
    forall j: nat | j < |holds| && j != p.hold
      ensures holds'[j].status == holds[j].status
      ensures VendorCredits(log + [c], j) == VendorCredits(log, j) && CustomerCredits(log + [c], j) == CustomerCredits(log, j)
    {
    }
  }

  lemma {:induction false} RefundKeepsWallets(t: Tables, log: seq<Credit>, moves: Moves, p: Plan)
    requires WalletsOk(t, log, moves) && p.hold < |t.holds|
    ensures WalletsOk(MarkRefunded(t, p), log + [CustomerCredit(p.hold, p.customer, p.amount)], moves)
  {
    LogAfterCredit(log, CustomerCredit(p.hold, p.customer, p.amount));
  }

  lemma {:induction false} RefundKeepsKeyed(holds: seq<Hold>, log: seq<Credit>, reserved: set<string>, p: Plan)
    requires CreditedKeyed(holds, log, reserved) && p.hold < |holds|
    ensures CreditedKeyed(holds, log + [CustomerCredit(p.hold, p.customer, p.amount)], reserved)
  {
    LogAfterCredit(log, CustomerCredit(p.hold, p.customer, p.amount));
  }

  lemma {:induction false} RefundKeepsFlags(t: Tables, p: Plan)
    requires FlagsOk(t) && NoPaidOut(t.holds) && p.hold < |t.holds|
    ensures FlagsOk(MarkRefunded(t, p)) && NoPaidOut(MarkRefunded(t, p).holds)
  {
  }

  lemma {:induction false} RefundingKeepsInv(s: Sys, p: Plan)
    requires Core(s) && p.hold < |s.t.holds| && !Locked(s, p.hold)
    ensures Core(Refunding(s, p)) && (Exact(Refunding(s, p)) <==> Exact(s) && s.t.holds[p.hold].status !in {Released, Refunded})
  {
    var s' := Refunding(s, p);
    RefundKeepsKeyed(s.t.holds, s.log, s.t.ledger.reserved, p);
    StatusIsSame(s.t.holds, p.hold, Refunded);
    SameRowsKeep(s.t, s'.t.holds, s'.log, s.refunders, s.others);
    RefundKeepsCredits(s.t.holds, s.log, p);
    CommitIsExactlyOnceIff(s.t.holds, s.log, p);
    RefundKeepsWallets(s.t, s.log, s.moves, p);
    RefundKeepsFlags(s.t, p);
    forall v | 0 <= v < |s.workers| && !s.workers[v].Idle? ensures s.workers[v].hold != p.hold {
      assert !Locks(s.workers[v], p.hold);
    }
    LocksAfterRow(s, s', p.hold);
  }

  // A refund commits over a hold that has been released or refunded since it was read.
  ghost predicate IsStale(s: Sys, step: Step)
    requires Enabled(s, step)
  {
    step.CommitRefund? && s.t.holds[s.refunders[step.r].p.hold].status in {Released, Refunded}
  }

  lemma {:induction false} CommitRefundKeepsInv(s: Sys, r: nat)
    requires Core(s) && Enabled(s, CommitRefund(r))
    ensures Core(Next(s, CommitRefund(r))) && (Exact(Next(s, CommitRefund(r))) <==> Exact(s) && !IsStale(s, CommitRefund(r)))
  {
    RefundingKeepsInv(s, s.refunders[r].p);
    RefunderMoveKeepsInv(Refunding(s, s.refunders[r].p), r, NoRefund);
  }

  lemma {:induction false} WorldKeepsInv(s: Sys, orders: map<string, Order>, disputes: seq<Dispute>, debts: seq<CodDebt>)
    requires Core(s) && KeepsFlags(s.t.orders, orders)
    ensures var s' := s.(t := s.t.(orders := orders, disputes := disputes, codDebts := debts));
      Core(s') && (Exact(s') <==> Exact(s))
  {
    var s' := s.(t := s.t.(orders := orders, disputes := disputes, codDebts := debts));
    assert LocksOk(s');
    assert WalletsOk(s'.t, s'.log, s'.moves);
    assert FlagsOk(s'.t);
  }

  lemma {:induction false} AdminRefundKeepsInv(s: Sys, i: nat, customer: string, amount: int)
    requires Core(s) && Enabled(s, AdminRefund(i, customer, amount))
    ensures Core(AdminRefunding(s, i, customer, amount)) && (Exact(AdminRefunding(s, i, customer, amount)) <==> Exact(s))
  {
    var p := Plan(i, customer, amount, RefundRequest(amount, "", "", ""), false);
    RefundingKeepsInv(s, p);
    WorldKeepsInv(Refunding(s, p), s.t.orders, s.t.disputes, s.t.codDebts);
    AdminRefundIsRefund(s, p);
  }

  // An admin's refund leaves the order to the rest of the platform.
  lemma {:induction false} AdminRefundIsRefund(s: Sys, p: Plan)
    requires p.hold < |s.t.holds| && !p.cancelsDebts
    ensures KeepsFlags(Refunding(s, p).t.orders, s.t.orders)
    ensures var r := Refunding(s, p);
      AdminRefunding(s, p.hold, p.customer, p.amount)
        == r.(t := r.t.(orders := s.t.orders, disputes := s.t.disputes, codDebts := s.t.codDebts))
  {
  }

  lemma {:induction false} AdminUnfreezeKeepsInv(s: Sys, order: string)
    requires Core(s) && Unlocked(s, UnfreezeOrder(s.t, order).holds)
    ensures var s' := s.(t := UnfreezeOrder(s.t, order));
      Core(s') && (Exact(s') <==> Exact(s))
  {
    assert Benign(s.t.holds, UnfreezeOrder(s.t, order).holds);
    BenignKeepsInv(s, UnfreezeOrder(s.t, order).holds);
  }

  // ----- Worker moves and the rest of the platform -----

  lemma {:induction false} WorkerMoveKeepsInv(s: Sys, step: Step)
    requires Core(s) && Enabled(s, step) && (step.Claim? || step.Check? || step.Crash?)
    ensures Core(Next(s, step)) && (Exact(Next(s, step)) <==> Exact(s))
  {
    if step.Claim? {
      forall v | 0 <= v < |s.workers| && !s.workers[v].Idle? ensures s.workers[v].hold != step.i {
        assert !Locks(s.workers[v], step.i);
      }
    }
    assert LocksOk(Next(s, step));
  }

  lemma {:induction false} WalletMoveKeepsInv(s: Sys, step: Step)
    requires Core(s) && Enabled(s, step) && (step.Payout? || step.CustomerMove?)
    ensures Core(Next(s, step)) && (Exact(Next(s, step)) <==> Exact(s))
  {
    var s' := Next(s, step);
    assert LocksOk(s');
    assert WalletsOk(s'.t, s'.log, s'.moves);
  }

  // What every step does to the invariant and to the credits.
  ghost predicate Keeps(s: Sys, step: Step)
    requires Enabled(s, step)
  {
    Core(Next(s, step)) && (Exact(Next(s, step)) <==> Exact(s) && !IsStale(s, step))
  }

  lemma {:induction false} PayOrFinishKeeps(s: Sys, step: Step)
    requires Core(s) && Enabled(s, step) && (step.Pay? || step.Finish?)
    ensures Keeps(s, step)
  {
    match step
    case Pay(w) => PayKeepsInv(s, w);
    case Finish(w) => FinishKeepsInv(s, w);
  }

  lemma {:induction false} WorkerMoveKeeps(s: Sys, step: Step)
    requires Core(s) && Enabled(s, step) && (step.Claim? || step.Check? || step.Crash?)
    ensures Keeps(s, step)
  {
    WorkerMoveKeepsInv(s, step);
  }

  lemma {:induction false} RefundReadKeeps(s: Sys, step: Step)
    requires Core(s) && Enabled(s, step) && (step.ReadDisputeRefund? || step.ReadReturnRefund?)
    ensures Keeps(s, step)
  {
    ReadKeepsInv(s, step);
  }

  lemma {:induction false} RefundCrashKeeps(s: Sys, r: nat)
    requires Core(s) && Enabled(s, CrashRefund(r))
    ensures Keeps(s, CrashRefund(r))
  {
    RefunderMoveKeepsInv(s, r, NoRefund);
  }

  lemma {:induction false} RefundPaymentKeeps(s: Sys, step: Step)
    requires Core(s) && Enabled(s, step) && (step.PayRefund? || step.CommitRefund?)
    ensures Keeps(s, step)
  {
    match step
    case PayRefund(r) => PayRefundKeepsInv(s, r);
    case CommitRefund(r) => CommitRefundKeepsInv(s, r);
  }

  lemma {:induction false} DisputeKeeps(s: Sys, step: Step)
    requires Core(s) && Enabled(s, step) && (step.FreezeForDispute? || step.UnfreezeOnRejection?)
    ensures Keeps(s, step)
  {
    match step
    case FreezeForDispute(order, d) => FreezeKeepsInv(s, order, d);
    case UnfreezeOnRejection(d) => UnfreezeKeepsInv(s, d);
  }

  lemma {:induction false} AdminUnfreezeKeeps(s: Sys, order: string)
    requires Core(s) && Enabled(s, AdminUnfreeze(order))
    ensures Keeps(s, AdminUnfreeze(order))
  {
    AdminUnfreezeKeepsInv(s, order);
  }

  lemma {:induction false} OrderUpdateKeeps(s: Sys, step: Step)
    requires Core(s) && Enabled(s, step) && (step.CancelForOrder? || step.ExtendHoldUntil?)
    ensures Keeps(s, step)
  {
    match step
    case CancelForOrder(order) => CancelKeepsInv(s, order);
    case ExtendHoldUntil(order, until) => ExtendKeepsInv(s, order, until);
  }

  lemma {:induction false} CreateOrRefundKeeps(s: Sys, step: Step)
    requires Core(s) && Enabled(s, step) && (step.CreateHold? || step.AdminRefund?) && (step.CreateHold? ==> Unused(s.t, step.h))
    ensures Keeps(s, step)
  {
    match step
    case CreateHold(h) => CreateKeepsInv(s, h);
    case AdminRefund(i, customer, amount) => AdminRefundKeepsInv(s, i, customer, amount);
  }

  lemma {:induction false} OtherCallKeeps(s: Sys, step: Step)
    requires Core(s) && Enabled(s, step) && step.OtherLedgerCall?
    ensures Keeps(s, step)
  {
    OtherCallKeepsInv(s, step.call);
  }

  lemma {:induction false} WalletMoveKeeps(s: Sys, step: Step)
    requires Core(s) && Enabled(s, step) && (step.Payout? || step.CustomerMove?)
    ensures Keeps(s, step)
  {
    WalletMoveKeepsInv(s, step);
  }

  lemma {:induction false} WorldKeeps(s: Sys, step: Step)
    requires Core(s) && Enabled(s, step) && step.World?
    ensures Keeps(s, step)
  {
    WorldKeepsInv(s, step.orders, step.disputes, step.codDebts);
  }

  // ----- Where release keys and released orders come from -----

  ghost predicate SameOrigins(holds: seq<Hold>, holds': seq<Hold>) {
    |holds| <= |holds'| && forall i :: 0 <= i < |holds| ==> holds'[i].id == holds[i].id && holds'[i].order == holds[i].order
  }

  lemma {:induction false} StepKeepsRows(s: Sys, step: Step)
    requires Enabled(s, step)
    ensures SameOrigins(s.t.holds, Next(s, step).t.holds)
  {
  }

  lemma {:induction false} StepReserves(s: Sys, step: Step)
    requires RefundersOk(s.refunders, s.t.holds) && Enabled(s, step)
    ensures var used, used' := s.t.ledger.reserved, Next(s, step).t.ledger.reserved;
      if step.Pay? then used' <= used + {ReleaseKey(s.t.holds[s.workers[step.w].hold].id)}
      else forall key :: key in used' && HasPrefix(key, RELEASE_PREFIX) ==> key in used
  {
    match step
    case PayRefund(r) => ForeignReserves(s.t.ledger, Single(s.refunders[r].p.request));
    case OtherLedgerCall(call) => ForeignReserves(s.t.ledger, call);
    case _ =>
  }

  lemma {:induction false} ForeignReserves(db: Db, call: Call)
    requires ForeignCall(call)
    ensures forall key :: key in After(db, call, true).reserved && HasPrefix(key, RELEASE_PREFIX) ==> key in db.reserved
  {
    CallCommitsOrNot(db, call);
    assert forall r :: r in ReqsOf(call) ==> Foreign(r);
  }

  lemma {:induction false} StepReleasesOrder(s: Sys, step: Step, o: string)
    requires Enabled(s, step) && o in Next(s, step).t.orders && Next(s, step).t.orders[o].escrowReleased
    requires !(o in s.t.orders && s.t.orders[o].escrowReleased)
    ensures step.Finish? && o == s.t.holds[s.workers[step.w].hold].order
  {
  }

  lemma {:induction false} StepKeepsOrigins(s: Sys, step: Step)
    requires Origins(s.t) && RefundersOk(s.refunders, s.t.holds) && Enabled(s, step)
    ensures Origins(Next(s, step).t)
  {
    var t' := Next(s, step).t;
    StepKeepsRows(s, step);
    StepReserves(s, step);
    forall key | key in t'.ledger.reserved && HasPrefix(key, RELEASE_PREFIX) ensures IsHoldKey(t'.holds, key) {
      var i :| 0 <= i < |s.t.holds| && ReleaseKey(s.t.holds[i].id) == key;
      assert t'.holds[i].id == s.t.holds[i].id;
    }
    forall o | o in t'.orders && t'.orders[o].escrowReleased ensures HasHold(t'.holds, o) {
      if !(o in s.t.orders && s.t.orders[o].escrowReleased) {
        StepReleasesOrder(s, step, o);
      }
      var i :| 0 <= i < |s.t.holds| && s.t.holds[i].order == o;
      assert t'.holds[i].order == o;
    }
  }

  ghost predicate IsMoneyStep(step: Step) {
    || step.Claim? || step.Check? || step.Crash? || step.Pay? || step.Finish?
    || step.ReadDisputeRefund? || step.ReadReturnRefund? || step.PayRefund? || step.CommitRefund? || step.CrashRefund?
  }

  lemma {:induction false} MoneyStepKeeps(s: Sys, step: Step)
    requires Core(s) && Enabled(s, step) && IsMoneyStep(step)
    ensures Keeps(s, step)
  {
    match step {
      case Claim(_, _, _) | Check(_, _) | Crash(_) => WorkerMoveKeeps(s, step);
      case Pay(_) | Finish(_) => PayOrFinishKeeps(s, step);
      case ReadDisputeRefund(_, _, _) | ReadReturnRefund(_, _, _) => RefundReadKeeps(s, step);
      case CrashRefund(r) => RefundCrashKeeps(s, r);
      case PayRefund(_) | CommitRefund(_) => RefundPaymentKeeps(s, step);
    }
  }

  lemma {:induction false} StepKeeps(s: Sys, step: Step)
    requires Inv(s) && Enabled(s, step)
    ensures Keeps(s, step)
  {
    if IsMoneyStep(step) {
      MoneyStepKeeps(s, step);
    } else {
      OtherStepKeeps(s, step);
    }
  }

  lemma {:induction false} OtherStepKeeps(s: Sys, step: Step)
    requires Inv(s) && Enabled(s, step) && !IsMoneyStep(step)
    ensures Keeps(s, step)
  {
    match step {
      case CreateHold(h) =>
        NewHoldIsUnused(s.t, h);
        CreateOrRefundKeeps(s, step);
      case AdminRefund(_, _, _) => CreateOrRefundKeeps(s, step);
      case FreezeForDispute(_, _) | UnfreezeOnRejection(_) => DisputeKeeps(s, step);
      case AdminUnfreeze(order) => AdminUnfreezeKeeps(s, order);
      case CancelForOrder(_) | ExtendHoldUntil(_, _) => OrderUpdateKeeps(s, step);
      case OtherLedgerCall(_) => OtherCallKeeps(s, step);
      case Payout(_, _) | CustomerMove(_, _) => WalletMoveKeeps(s, step);
      case World(_, _, _) => WorldKeeps(s, step);
    }
  }

  // Every step keeps the invariant, and it keeps the credits exactly once if and only if it is not
  // a stale refund commit; what was not exactly once never becomes so again.
  lemma {:induction false} NextKeepsInv(s: Sys, step: Step)
    requires Inv(s) && Enabled(s, step)
    ensures Inv(Next(s, step)) && (Exact(Next(s, step)) <==> Exact(s) && !IsStale(s, step))
  {
    StepKeeps(s, step);
    StepKeepsOrigins(s, step);
  }

  lemma {:induction false} RunKeepsInv(s: Sys, steps: seq<Step>)
    requires Inv(s)
    ensures Inv(Exec(s, steps))
  {
    if steps != [] {
      var mid, last := Exec(s, steps[..|steps| - 1]), steps[|steps| - 1];
      RunKeepsInv(s, steps[..|steps| - 1]);
      if Enabled(mid, last) {
        NextKeepsInv(mid, last);
      }
    }
  }

  lemma {:induction false} InitialInv(s: Sys)
    requires Initial(s)
    ensures Inv(s) && Exact(s)
  {
  }
}
