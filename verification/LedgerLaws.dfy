// What the ledger keeps over every run of Transfer and MultiTransfer.
module LedgerLaws {
  import opened Wrappers
  import opened Ledger

  // ----- Runs -----

  datatype Call = Single(r: Request) | Multi(reqs: seq<Request>)

  ghost function After(db: Db, call: Call, tbOn: bool): Db {
    match call
    case Single(r) => SingleAfter(db, r, tbOn)
    case Multi(reqs) => MultiAfter(db, reqs, tbOn)
  }

  ghost function Run(calls: seq<Call>, tbOn: bool): Db {
    if calls == [] then EMPTY_DB else After(Run(calls[..|calls| - 1], tbOn), calls[|calls| - 1], tbOn)
  }

  // ----- The invariant: the table is a sequence of debit/credit pairs -----

  ghost function PairKey(entries: seq<Entry>, j: nat): string {
    if 2 * j < |entries| && |entries[2 * j].idempotencyKey| >= |DEBIT|
    then var key := entries[2 * j].idempotencyKey; key[..|key| - |DEBIT|]
    else ""
  }

  ghost predicate IsPair(entries: seq<Entry>, j: nat)
    requires 2 * j + 1 < |entries|
  {
    var d, c := entries[2 * j], entries[2 * j + 1];
    && d.idempotencyKey == PairKey(entries, j) + DEBIT
    && c.idempotencyKey == PairKey(entries, j) + CREDIT
    && d.transactionId == c.transactionId
    && d.currency == c.currency
    && d.referenceType == c.referenceType && d.referenceId == c.referenceId
    && c.amount > 0
    && d.amount == -c.amount
  }

  ghost predicate Paired(entries: seq<Entry>) {
    && |entries| % 2 == 0
    && forall j: nat :: 2 * j + 1 < |entries| ==> IsPair(entries, j)
  }

  ghost predicate DistinctPairKeys(entries: seq<Entry>) {
    forall i: nat, j: nat :: i < j && 2 * j + 1 < |entries| ==> PairKey(entries, i) != PairKey(entries, j)
  }

  // The reserved keys are exactly the non-empty pair keys.
  ghost predicate ReservedMatch(entries: seq<Entry>, reserved: set<string>) {
    && (forall j: nat :: 2 * j + 1 < |entries| && PairKey(entries, j) != "" ==> PairKey(entries, j) in reserved)
    && (forall k :: k in reserved ==> k != "" && exists j: nat :: 2 * j + 1 < |entries| && PairKey(entries, j) == k)
  }

  ghost predicate EntriesBelow(entries: seq<Entry>, nextTx: TxId) {
    forall i :: 0 <= i < |entries| ==> entries[i].transactionId < nextTx
  }

  ghost predicate OutboxBelow(outbox: seq<OutboxRow>, nextTx: TxId) {
    forall i :: 0 <= i < |outbox| ==> outbox[i].transactionId < nextTx
  }

  ghost predicate Consistent(db: Db) {
    && Paired(db.entries)
    && DistinctPairKeys(db.entries)
    && ReservedMatch(db.entries, db.reserved)
    && EntriesBelow(db.entries, db.nextTx)
    && OutboxBelow(db.outbox, db.nextTx)
  }

  lemma {:induction false} RowsAt(tx: TxId, reqs: seq<Request>, i: nat)
    requires i < |reqs|
    ensures Rows(tx, reqs)[2 * i] == DebitRow(tx, reqs[i])
    ensures Rows(tx, reqs)[2 * i + 1] == CreditRow(tx, reqs[i])
  {
    if i < |reqs| - 1 {
      RowsAt(tx, reqs[..|reqs| - 1], i);
    }
  }

  lemma {:induction false} SuffixesDiffer(a: string, b: string)
    ensures a + DEBIT == b + DEBIT ==> a == b
    ensures a + CREDIT == b + CREDIT ==> a == b
    ensures a + DEBIT != b + CREDIT
  {
    assert (a + DEBIT)[..|a|] == a && (b + DEBIT)[..|b|] == b;
    assert (a + CREDIT)[..|a|] == a && (b + CREDIT)[..|b|] == b;
    assert (a + DEBIT)[|a + DEBIT| - 3] == 'b';
    assert (b + CREDIT)[|b + CREDIT| - 3] == 'd';
  }

  // ----- When a call commits -----

  ghost predicate KeylessPairExists(db: Db) {
    exists j: nat :: 2 * j + 1 < |db.entries| && PairKey(db.entries, j) == ""
  }

  // Every key of the table is a pair key with one of the two suffixes.
  lemma {:induction false} KeyIsSuffixed(db: Db, i: nat)
    requires Consistent(db) && i < |db.entries|
    ensures 2 * (i / 2) + 1 < |db.entries|
    ensures db.entries[i].idempotencyKey == PairKey(db.entries, i / 2) + (if i % 2 == 0 then DEBIT else CREDIT)
  {
    var j: nat := i / 2;
    assert IsPair(db.entries, j);
  }

  lemma {:induction false} InsertableOne(db: Db, tx: TxId, r: Request)
    requires Consistent(db)
    ensures Insertable(db.entries, [DebitRow(tx, r), CreditRow(tx, r)])
      <==> forall j: nat :: 2 * j + 1 < |db.entries| ==> PairKey(db.entries, j) != r.idempotencyKey
  {
    var rows := [DebitRow(tx, r), CreditRow(tx, r)];
    var k := r.idempotencyKey;
    SuffixesDiffer(k, k);
    if j: nat :| 2 * j + 1 < |db.entries| && PairKey(db.entries, j) == k {
      KeyIsSuffixed(db, 2 * j);
      assert rows[0].idempotencyKey == db.entries[2 * j].idempotencyKey;
    } else {
      forall b | 0 <= b < |db.entries|
        ensures k + DEBIT != db.entries[b].idempotencyKey && k + CREDIT != db.entries[b].idempotencyKey
      {
        KeyIsSuffixed(db, b);
        SuffixesDiffer(k, PairKey(db.entries, b / 2));
        SuffixesDiffer(PairKey(db.entries, b / 2), k);
      }
    }
  }

  // In a consistent ledger a valid transfer with a fresh key always commits; a keyless one
  // commits only while no keyless pair exists, because every keyless row has the key ":debit".
  lemma {:induction false} SingleCommitsExactly(db: Db, r: Request)
    requires Consistent(db)
    ensures SingleCommits(db, r) <==>
      && ValidateSingle(r).None?
      && (if r.idempotencyKey == "" then !KeylessPairExists(db) else r.idempotencyKey !in db.reserved)
  {
    InsertableOne(db, db.nextTx, r);
  }

  // A keyed transfer never fails for a consistency reason: fresh or repeated, it is answered with
  // a transaction exactly when the request itself is valid.
  lemma {:induction false} KeyedTransferSucceedsExactly(db: Db, r: Request, reply: Reply)
    requires Consistent(db) && r.idempotencyKey != "" && SingleReply(db, r, reply)
    ensures reply.Success? <==> ValidateSingle(r).None?
  {
    SingleCommitsExactly(db, r);
    if r.idempotencyKey in db.reserved {
      var j: nat :| 2 * j + 1 < |db.entries| && PairKey(db.entries, j) == r.idempotencyKey;
      KeyIsSuffixed(db, 2 * j);
      assert db.entries[2 * j].idempotencyKey in {r.idempotencyKey, r.idempotencyKey + DEBIT};
    }
  }

  ghost predicate KeysFreshAndDistinct(db: Db, reqs: seq<Request>) {
    && (forall i :: 0 <= i < |reqs| && reqs[i].idempotencyKey != "" ==> reqs[i].idempotencyKey !in db.reserved)
    && (forall i, j :: 0 <= i < j < |reqs| ==> reqs[i].idempotencyKey != reqs[j].idempotencyKey)
    && (forall i :: 0 <= i < |reqs| && reqs[i].idempotencyKey == "" ==> !KeylessPairExists(db))
  }

  lemma {:induction false} RowAgainstTable(db: Db, tx: TxId, reqs: seq<Request>, a: nat, b: nat)
    requires Consistent(db) && KeysFreshAndDistinct(db, reqs)
    requires a < 2 * |reqs| && b < |db.entries|
    ensures Rows(tx, reqs)[a].idempotencyKey != db.entries[b].idempotencyKey
  {
    var key, other := reqs[a / 2].idempotencyKey, PairKey(db.entries, b / 2);
    RowsAt(tx, reqs, a / 2);
    KeyIsSuffixed(db, b);
    SuffixesDiffer(key, other);
    SuffixesDiffer(other, key);
    assert key == "" ==> !KeylessPairExists(db);
    assert other != "" ==> other in db.reserved;
  }

  lemma {:induction false} RowAgainstRow(db: Db, tx: TxId, reqs: seq<Request>, a: nat, b: nat)
    requires KeysFreshAndDistinct(db, reqs)
    requires a < b < 2 * |reqs|
    ensures Rows(tx, reqs)[a].idempotencyKey != Rows(tx, reqs)[b].idempotencyKey
  {
    RowsAt(tx, reqs, a / 2);
    RowsAt(tx, reqs, b / 2);
    SuffixesDiffer(reqs[a / 2].idempotencyKey, reqs[b / 2].idempotencyKey);
    SuffixesDiffer(reqs[b / 2].idempotencyKey, reqs[a / 2].idempotencyKey);
  }

  lemma {:induction false} FreshKeysAreInsertable(db: Db, tx: TxId, reqs: seq<Request>)
    requires Consistent(db) && KeysFreshAndDistinct(db, reqs)
    ensures Insertable(db.entries, Rows(tx, reqs))
  {
    forall a, b | 0 <= a < 2 * |reqs| && 0 <= b < |db.entries|
      ensures Rows(tx, reqs)[a].idempotencyKey != db.entries[b].idempotencyKey
    {
      RowAgainstTable(db, tx, reqs, a, b);
    }
    forall a, b | 0 <= a < b < 2 * |reqs|
      ensures Rows(tx, reqs)[a].idempotencyKey != Rows(tx, reqs)[b].idempotencyKey
    {
      RowAgainstRow(db, tx, reqs, a, b);
    }
  }

  lemma {:induction false} InsertableKeysAreFresh(db: Db, tx: TxId, reqs: seq<Request>)
    requires Consistent(db) && NoConflict(db, reqs) && Insertable(db.entries, Rows(tx, reqs))
    ensures KeysFreshAndDistinct(db, reqs)
  {
    var rows := Rows(tx, reqs);
    forall i, j | 0 <= i < j < |reqs| ensures reqs[i].idempotencyKey != reqs[j].idempotencyKey {
      RowsAt(tx, reqs, i);
      RowsAt(tx, reqs, j);
      assert rows[2 * i].idempotencyKey != rows[2 * j].idempotencyKey;
    }
    forall i | 0 <= i < |reqs| && reqs[i].idempotencyKey != "" ensures reqs[i].idempotencyKey !in db.reserved {
      assert !ConflictAt(db, reqs, i);
    }
    forall i | 0 <= i < |reqs| && reqs[i].idempotencyKey == "" ensures !KeylessPairExists(db) {
      forall j: nat | 2 * j + 1 < |db.entries| ensures PairKey(db.entries, j) != "" {
        assert rows[2 * i].idempotencyKey != db.entries[2 * j].idempotencyKey;
        RowsAt(tx, reqs, i);
        KeyIsSuffixed(db, 2 * j);
      }
    }
  }

  // A multi-transfer is all or nothing: it commits exactly when it is non-empty, every leg is
  // valid and no key of the call is used or repeated. Otherwise no leg is applied.
  lemma {:induction false} MultiCommitsExactly(db: Db, reqs: seq<Request>, tbOn: bool)
    requires Consistent(db)
    ensures MultiCommits(db, reqs) <==> reqs != [] && AllValid(reqs) && KeysFreshAndDistinct(db, reqs)
    ensures !(reqs != [] && AllValid(reqs) && KeysFreshAndDistinct(db, reqs)) ==> MultiAfter(db, reqs, tbOn) == db
  {
    if NoConflict(db, reqs) && Insertable(db.entries, Rows(db.nextTx, reqs)) {
      InsertableKeysAreFresh(db, db.nextTx, reqs);
    }
    if KeysFreshAndDistinct(db, reqs) {
      FreshKeysAreInsertable(db, db.nextTx, reqs);
      forall i | 0 <= i < |reqs| ensures !ConflictAt(db, reqs, i) {
      }
    }
  }

  // ----- The invariant is kept -----

  lemma {:induction false} RowsFormPair(entries: seq<Entry>, j: nat, tx: TxId, r: Request)
    requires 2 * j + 1 < |entries| && r.amount > 0
    requires entries[2 * j] == DebitRow(tx, r) && entries[2 * j + 1] == CreditRow(tx, r)
    ensures PairKey(entries, j) == r.idempotencyKey && IsPair(entries, j)
  {
    assert (r.idempotencyKey + DEBIT)[..|r.idempotencyKey|] == r.idempotencyKey;
  }

  lemma {:induction false} ValidAmount(reqs: seq<Request>, i: nat)
    requires i < |reqs| && AllValid(reqs)
    ensures reqs[i].amount > 0
  {
    assert Validate(reqs[i]).None?;
  }

  lemma {:induction false} NewPair(db: Db, reqs: seq<Request>, i: nat)
    requires i < |reqs| && reqs[i].amount > 0 && |db.entries| % 2 == 0
    ensures var entries := db.entries + Rows(db.nextTx, reqs);
      var j := |db.entries| / 2 + i;
      && 2 * j + 1 < |entries|
      && PairKey(entries, j) == reqs[i].idempotencyKey
      && IsPair(entries, j)
      && entries[2 * j].transactionId == db.nextTx
  {
    var rows := Rows(db.nextTx, reqs);
    var j := |db.entries| / 2 + i;
    RowsAt(db.nextTx, reqs, i);
    RowsFormPair(db.entries + rows, j, db.nextTx, reqs[i]);
  }

  lemma {:induction false} OldPair(entries: seq<Entry>, rows: seq<Entry>, j: nat)
    requires 2 * j + 1 < |entries|
    ensures PairKey(entries + rows, j) == PairKey(entries, j)
    ensures IsPair(entries, j) ==> IsPair(entries + rows, j)
  {
  }

  lemma {:induction false} PairKeyAfter(db: Db, reqs: seq<Request>, j: nat)
    requires Consistent(db) && AllValid(reqs)
    requires 2 * j + 1 < |db.entries + Rows(db.nextTx, reqs)|
    ensures var entries := db.entries + Rows(db.nextTx, reqs);
      && IsPair(entries, j)
      && PairKey(entries, j) ==
          if 2 * j + 1 < |db.entries| then PairKey(db.entries, j) else reqs[j - |db.entries| / 2].idempotencyKey
  {
    if 2 * j + 1 < |db.entries| {
      OldPair(db.entries, Rows(db.nextTx, reqs), j);
    } else {
      ValidAmount(reqs, j - |db.entries| / 2);
      NewPair(db, reqs, j - |db.entries| / 2);
    }
  }

  lemma {:induction false} PairKeysStayDistinct(db: Db, reqs: seq<Request>, i: nat, j: nat)
    requires Consistent(db) && AllValid(reqs) && KeysFreshAndDistinct(db, reqs)
    requires i < j && 2 * j + 1 < |db.entries + Rows(db.nextTx, reqs)|
    ensures PairKey(db.entries + Rows(db.nextTx, reqs), i) != PairKey(db.entries + Rows(db.nextTx, reqs), j)
  {
    var n := |db.entries| / 2;
    PairKeyAfter(db, reqs, i);
    PairKeyAfter(db, reqs, j);
    assert j >= n ==> reqs[j - n].idempotencyKey == "" || reqs[j - n].idempotencyKey !in db.reserved;
    assert j >= n && reqs[j - n].idempotencyKey == "" ==> !KeylessPairExists(db);
    assert 2 * i + 1 < |db.entries| && PairKey(db.entries, i) != "" ==> PairKey(db.entries, i) in db.reserved;
  }

  lemma {:induction false} ReservedKeysOwnPairs(db: Db, reqs: seq<Request>)
    requires Consistent(db) && AllValid(reqs)
    ensures ReservedMatch(db.entries + Rows(db.nextTx, reqs), db.reserved + KeysOf(reqs))
  {
    var entries := db.entries + Rows(db.nextTx, reqs);
    forall j: nat | 2 * j + 1 < |entries| && PairKey(entries, j) != ""
      ensures PairKey(entries, j) in db.reserved + KeysOf(reqs)
    {
      PairKeyAfter(db, reqs, j);
      assert 2 * j + 1 >= |db.entries| ==> reqs[j - |db.entries| / 2] in reqs;
    }
    forall k | k in db.reserved + KeysOf(reqs)
      ensures k != "" && exists j: nat :: 2 * j + 1 < |entries| && PairKey(entries, j) == k
    {
      if k in db.reserved {
        var j: nat :| 2 * j + 1 < |db.entries| && PairKey(db.entries, j) == k;
        PairKeyAfter(db, reqs, j);
      } else {
        var i :| 0 <= i < |reqs| && reqs[i].idempotencyKey == k;
        ValidAmount(reqs, i);
        NewPair(db, reqs, i);
      }
    }
  }

  lemma {:induction false} RowsCarryTx(tx: TxId, reqs: seq<Request>)
    ensures forall i :: 0 <= i < 2 * |reqs| ==> Rows(tx, reqs)[i].transactionId == tx
  {
    forall i | 0 <= i < 2 * |reqs| ensures Rows(tx, reqs)[i].transactionId == tx {
      RowsAt(tx, reqs, i / 2);
    }
  }

  lemma {:induction false} PairsExtend(db: Db, reqs: seq<Request>)
    requires Consistent(db) && AllValid(reqs) && KeysFreshAndDistinct(db, reqs)
    ensures Paired(db.entries + Rows(db.nextTx, reqs))
  {
    var entries := db.entries + Rows(db.nextTx, reqs);
    assert |entries| % 2 == 0;
    forall j: nat | 2 * j + 1 < |entries| ensures IsPair(entries, j) {
      PairKeyAfter(db, reqs, j);
    }
  }

  lemma {:induction false} PairKeysExtend(db: Db, reqs: seq<Request>)
    requires Consistent(db) && AllValid(reqs) && KeysFreshAndDistinct(db, reqs)
    ensures DistinctPairKeys(db.entries + Rows(db.nextTx, reqs))
  {
    var entries := db.entries + Rows(db.nextTx, reqs);
    forall i: nat, j: nat | i < j && 2 * j + 1 < |entries| ensures PairKey(entries, i) != PairKey(entries, j) {
      PairKeysStayDistinct(db, reqs, i, j);
    }
  }

  lemma {:induction false} CommitKeepsConsistent(db: Db, reqs: seq<Request>, payload: seq<TbTransfer>, tbOn: bool)
    requires Consistent(db) && AllValid(reqs) && KeysFreshAndDistinct(db, reqs)
    ensures Consistent(Commit(db, reqs, payload, tbOn))
  {
    PairsExtend(db, reqs);
    PairKeysExtend(db, reqs);
    ReservedKeysOwnPairs(db, reqs);
    RowsCarryTx(db.nextTx, reqs);
    assert EntriesBelow(db.entries + Rows(db.nextTx, reqs), db.nextTx + 1);
    assert OutboxBelow(Commit(db, reqs, payload, tbOn).outbox, db.nextTx + 1);
  }

  lemma {:induction false} AfterKeepsConsistent(db: Db, call: Call, tbOn: bool)
    requires Consistent(db)
    ensures Consistent(After(db, call, tbOn))
  {
    match call
    case Single(r) =>
      SingleCommitsExactly(db, r);
      if SingleCommits(db, r) {
        CommitKeepsConsistent(db, [r], SinglePayload(db.nextTx, r), tbOn);
      }
    case Multi(reqs) =>
      MultiCommitsExactly(db, reqs, tbOn);
      if MultiCommits(db, reqs) {
        CommitKeepsConsistent(db, reqs, MultiPayload(db.nextTx, reqs), tbOn);
      }
  }

  lemma {:induction false} RunIsConsistent(calls: seq<Call>, tbOn: bool)
    ensures Consistent(Run(calls, tbOn))
  {
    if calls != [] {
      RunIsConsistent(calls[..|calls| - 1], tbOn);
      AfterKeepsConsistent(Run(calls[..|calls| - 1], tbOn), calls[|calls| - 1], tbOn);
    }
  }

  // ----- Conservation -----

  // The sum of the rows of one transaction in one currency.
  ghost function Sum(entries: seq<Entry>, tx: TxId, currency: string): int {
    if entries == [] then 0
    else
      var last := entries[|entries| - 1];
      Sum(entries[..|entries| - 1], tx, currency)
        + if last.transactionId == tx && last.currency == currency then last.amount else 0
  }

  ghost function Total(entries: seq<Entry>): int {
    if entries == [] then 0 else Total(entries[..|entries| - 1]) + entries[|entries| - 1].amount
  }

  lemma {:induction false} PairedSumsToZero(entries: seq<Entry>, tx: TxId, currency: string)
    requires Paired(entries)
    ensures Total(entries) == 0 && Sum(entries, tx, currency) == 0
  {
    if entries != [] {
      var n := |entries|;
      var rest := entries[..n - 2];
      assert IsPair(entries, n / 2 - 1);
      assert entries[..n - 1][..n - 2] == rest;
      forall j: nat | 2 * j + 1 < |rest| ensures IsPair(rest, j) {
        assert IsPair(entries, j);
      }
      PairedSumsToZero(rest, tx, currency);
    }
  }

  // Conservation: after any run the rows sum to zero overall, and per transaction and currency.
  lemma {:induction false} Conservation(calls: seq<Call>, tbOn: bool, tx: TxId, currency: string)
    ensures Total(Run(calls, tbOn).entries) == 0
    ensures Sum(Run(calls, tbOn).entries, tx, currency) == 0
  {
    RunIsConsistent(calls, tbOn);
    PairedSumsToZero(Run(calls, tbOn).entries, tx, currency);
  }

  // ----- Balances -----

  lemma {:induction false} BalanceConcat(a: seq<Entry>, b: seq<Entry>, account: Account)
    ensures Balance(a + b, account) == Balance(a, account) + Balance(b, account)
  {
    if b == [] {
      assert a + b == a;
    } else {
      assert (a + b)[..|a + b| - 1] == a + b[..|b| - 1];
      BalanceConcat(a, b[..|b| - 1], account);
    }
  }

  function Moved(r: Request, account: Account): int {
    (if r.creditAccount == account then r.amount else 0) - (if r.debitAccount == account then r.amount else 0)
  }

  function MovedBy(reqs: seq<Request>, account: Account): int {
    if reqs == [] then 0 else MovedBy(reqs[..|reqs| - 1], account) + Moved(reqs[|reqs| - 1], account)
  }

  lemma {:induction false} BalanceOfRows(tx: TxId, reqs: seq<Request>, account: Account)
    ensures Balance(Rows(tx, reqs), account) == MovedBy(reqs, account)
  {
    if reqs != [] {
      var n := |reqs| - 1;
      var d, c := DebitRow(tx, reqs[n]), CreditRow(tx, reqs[n]);
      BalanceOfRows(tx, reqs[..n], account);
      BalanceConcat(Rows(tx, reqs[..n]), [d, c], account);
      assert [d, c][..1] == [d] && [d][..0] == [];
      assert Balance([d], account) == if d.account == account then d.amount else 0;
    }
  }

  // A committed call changes an account by what its requests move there.
  lemma {:induction false} BalanceAfterCommit(db: Db, reqs: seq<Request>, payload: seq<TbTransfer>, tbOn: bool, account: Account)
    ensures Balance(Commit(db, reqs, payload, tbOn).entries, account) == Balance(db.entries, account) + MovedBy(reqs, account)
  {
    BalanceOfRows(db.nextTx, reqs, account);
    BalanceConcat(db.entries, Rows(db.nextTx, reqs), account);
  }

  // What one call moves into an account: nothing if it does not commit.
  ghost function CallMoves(db: Db, call: Call, account: Account): int {
    match call
    case Single(r) => if SingleCommits(db, r) then Moved(r, account) else 0
    case Multi(reqs) => if MultiCommits(db, reqs) then MovedBy(reqs, account) else 0
  }

  lemma {:induction false} MovedByOne(r: Request, account: Account)
    ensures MovedBy([r], account) == Moved(r, account)
  {
    assert [r][..0] == [];
  }

  lemma {:induction false} BalanceAfterCall(db: Db, call: Call, tbOn: bool, account: Account)
    ensures Balance(After(db, call, tbOn).entries, account) == Balance(db.entries, account) + CallMoves(db, call, account)
  {
    match call
    case Single(r) =>
      BalanceAfterCommit(db, [r], SinglePayload(db.nextTx, r), tbOn, account);
      MovedByOne(r, account);
    case Multi(reqs) =>
      BalanceAfterCommit(db, reqs, MultiPayload(db.nextTx, reqs), tbOn, account);
  }

  // ----- Idempotency -----

  // A committed key owns exactly one debit row and one credit row, of one transaction.
  ghost predicate OwnsRows(db: Db, key: string, d: nat, c: nat) {
    && d < |db.entries| && c < |db.entries|
    && (forall i :: 0 <= i < |db.entries| ==> (db.entries[i].idempotencyKey == key + DEBIT <==> i == d))
    && (forall i :: 0 <= i < |db.entries| ==> (db.entries[i].idempotencyKey == key + CREDIT <==> i == c))
    && db.entries[d].transactionId == db.entries[c].transactionId
    && db.entries[d].currency == db.entries[c].currency
    && db.entries[c].amount > 0
    && db.entries[d].amount == -db.entries[c].amount
  }

  lemma {:induction false} PairOwnsRows(db: Db, j: nat)
    requires Consistent(db) && 2 * j + 1 < |db.entries|
    ensures OwnsRows(db, PairKey(db.entries, j), 2 * j, 2 * j + 1)
  {
    var key := PairKey(db.entries, j);
    assert IsPair(db.entries, j);
    forall i | 0 <= i < |db.entries|
      ensures db.entries[i].idempotencyKey == key + DEBIT <==> i == 2 * j
      ensures db.entries[i].idempotencyKey == key + CREDIT <==> i == 2 * j + 1
    {
      KeyIsSuffixed(db, i);
      SuffixesDiffer(PairKey(db.entries, i / 2), key);
      SuffixesDiffer(key, PairKey(db.entries, i / 2));
    }
  }

  lemma {:induction false} CommittedKeyOwnsOnePair(calls: seq<Call>, tbOn: bool, key: string)
    requires key in Run(calls, tbOn).reserved
    ensures exists d: nat, c: nat :: OwnsRows(Run(calls, tbOn), key, d, c)
  {
    var db := Run(calls, tbOn);
    RunIsConsistent(calls, tbOn);
    var j: nat :| 2 * j + 1 < |db.entries| && PairKey(db.entries, j) == key;
    PairOwnsRows(db, j);
  }

  // The transaction that committed a key.
  ghost function Owner(db: Db, key: string): TxId
    requires Consistent(db) && key in db.reserved
  {
    var j: nat :| 2 * j + 1 < |db.entries| && PairKey(db.entries, j) == key;
    db.entries[2 * j].transactionId
  }

  // Another transaction's row carries this very key: that transaction's own key is this one
  // without its ":debit" or ":credit" ending.
  ghost predicate Shadowed(db: Db, key: string)
    requires Consistent(db) && key in db.reserved
  {
    exists j: nat :: 2 * j + 1 < |db.entries| && db.entries[2 * j].transactionId != Owner(db, key)
      && (key == PairKey(db.entries, j) + DEBIT || key == PairKey(db.entries, j) + CREDIT)
  }

  lemma {:induction false} OwnerOfDebitRow(db: Db, key: string, i: nat)
    requires Consistent(db) && key in db.reserved && i < |db.entries|
    requires db.entries[i].idempotencyKey == key + DEBIT
    ensures db.entries[i].transactionId == Owner(db, key)
  {
    var j: nat :| 2 * j + 1 < |db.entries| && PairKey(db.entries, j) == key
      && Owner(db, key) == db.entries[2 * j].transactionId;
    PairOwnsRows(db, j);
  }

  // A retried multi-transfer key always finds its own transaction: only key + ":debit" is looked up.
  lemma {:induction false} MultiLookupFindsOwner(db: Db, key: string, reply: Reply)
    requires Consistent(db) && key in db.reserved
    ensures FoundBy(db.entries, {key + DEBIT}, reply) <==> reply == Success(Owner(db, key))
  {
    var j: nat :| 2 * j + 1 < |db.entries| && PairKey(db.entries, j) == key;
    PairOwnsRows(db, j);
    OwnerOfDebitRow(db, key, 2 * j);
    forall i | 0 <= i < |db.entries| && db.entries[i].idempotencyKey in {key + DEBIT}
      ensures db.entries[i].transactionId == Owner(db, key)
    {
      OwnerOfDebitRow(db, key, i);
    }
  }

  lemma {:induction false} OriginalIsFound(db: Db, key: string)
    requires Consistent(db) && key in db.reserved
    ensures FoundBy(db.entries, {key, key + DEBIT}, Success(Owner(db, key)))
  {
    var j: nat :| 2 * j + 1 < |db.entries| && PairKey(db.entries, j) == key;
    KeyIsSuffixed(db, 2 * j);
    OwnerOfDebitRow(db, key, 2 * j);
    assert db.entries[2 * j].idempotencyKey in {key, key + DEBIT};
  }

  lemma {:induction false} ShadowIsFound(db: Db, key: string)
    requires Consistent(db) && key in db.reserved && Shadowed(db, key)
    ensures exists tx :: tx != Owner(db, key) && FoundBy(db.entries, {key, key + DEBIT}, Success(tx))
  {
    var i: nat :| 2 * i + 1 < |db.entries| && db.entries[2 * i].transactionId != Owner(db, key)
      && (key == PairKey(db.entries, i) + DEBIT || key == PairKey(db.entries, i) + CREDIT);
    assert IsPair(db.entries, i);
    var row := if key == PairKey(db.entries, i) + DEBIT then 2 * i else 2 * i + 1;
    assert db.entries[row].idempotencyKey == key;
    assert FoundBy(db.entries, {key, key + DEBIT}, Success(db.entries[row].transactionId));
  }

  lemma {:induction false} OnlyOriginalIsFound(db: Db, key: string, reply: Reply)
    requires Consistent(db) && key in db.reserved && !Shadowed(db, key)
    requires FoundBy(db.entries, {key, key + DEBIT}, reply)
    ensures reply == Success(Owner(db, key))
  {
    OriginalIsFound(db, key);
    var i :| 0 <= i < |db.entries| && db.entries[i].idempotencyKey in {key, key + DEBIT}
      && db.entries[i].transactionId == reply.value;
    if db.entries[i].idempotencyKey == key {
      KeyIsSuffixed(db, i);
      assert IsPair(db.entries, i / 2);
    } else {
      OwnerOfDebitRow(db, key, i);
    }
  }

  // A retried transfer changes nothing. It is certain to return the original transaction exactly
  // when no other transaction's row carries the key itself, which the lookup also matches.
  lemma {:induction false} RetryReturnsOriginal(db: Db, r: Request, tbOn: bool)
    requires Consistent(db) && ValidateSingle(r).None? && r.idempotencyKey in db.reserved
    ensures SingleAfter(db, r, tbOn) == db
    ensures SingleReply(db, r, Success(Owner(db, r.idempotencyKey)))
    ensures (forall reply :: SingleReply(db, r, reply) ==> reply == Success(Owner(db, r.idempotencyKey)))
      <==> !Shadowed(db, r.idempotencyKey)
  {
    var key := r.idempotencyKey;
    OriginalIsFound(db, key);
    if Shadowed(db, key) {
      ShadowIsFound(db, key);
      var tx :| tx != Owner(db, key) && FoundBy(db.entries, {key, key + DEBIT}, Success(tx));
      assert SingleReply(db, r, Success(tx));
    } else {
      forall reply | SingleReply(db, r, reply) ensures reply == Success(Owner(db, key)) {
        OnlyOriginalIsFound(db, key, reply);
      }
    }
  }

  // The key's owner is fixed at its commit: no later call changes it.
  lemma {:induction false} OwnerIsStable(db: Db, call: Call, tbOn: bool, key: string)
    requires Consistent(db) && Consistent(After(db, call, tbOn)) && key in db.reserved
    ensures key in After(db, call, tbOn).reserved && Owner(After(db, call, tbOn), key) == Owner(db, key)
  {
    var db' := After(db, call, tbOn);
    var j: nat :| 2 * j + 1 < |db.entries| && PairKey(db.entries, j) == key;
    KeyIsSuffixed(db, 2 * j);
    OwnerOfDebitRow(db, key, 2 * j);
    assert |db.entries| <= |db'.entries| && db'.entries[2 * j] == db.entries[2 * j];
    OwnerOfDebitRow(db', key, 2 * j);
  }

  lemma {:induction false} CommitOwnsKeys(db: Db, db': Db, reqs: seq<Request>, i: nat)
    requires Consistent(db) && AllValid(reqs) && i < |reqs| && reqs[i].idempotencyKey != ""
    requires Consistent(db') && db'.reserved == db.reserved + KeysOf(reqs)
    requires db'.entries == db.entries + Rows(db.nextTx, reqs)
    ensures reqs[i].idempotencyKey in db'.reserved && Owner(db', reqs[i].idempotencyKey) == db.nextTx
  {
    var row := |db.entries| + 2 * i;
    ValidAmount(reqs, i);
    NewPair(db, reqs, i);
    assert reqs[i] in reqs;
    assert row == 2 * (|db.entries| / 2 + i);
    KeyIsSuffixed(db', row);
    OwnerOfDebitRow(db', reqs[i].idempotencyKey, row);
  }

  ghost function RunFrom(db: Db, calls: seq<Call>, tbOn: bool): Db {
    if calls == [] then db else After(RunFrom(db, calls[..|calls| - 1], tbOn), calls[|calls| - 1], tbOn)
  }

  lemma {:induction false} RunFromKeepsOwner(db: Db, calls: seq<Call>, tbOn: bool, key: string)
    requires Consistent(db) && key in db.reserved
    ensures var db' := RunFrom(db, calls, tbOn);
      Consistent(db') && key in db'.reserved && Owner(db', key) == Owner(db, key)
  {
    if calls != [] {
      RunFromKeepsOwner(db, calls[..|calls| - 1], tbOn, key);
      var mid := RunFrom(db, calls[..|calls| - 1], tbOn);
      AfterKeepsConsistent(mid, calls[|calls| - 1], tbOn);
      OwnerIsStable(mid, calls[|calls| - 1], tbOn, key);
    }
  }

  // However many calls come between, repeating a committed keyed transfer leaves the ledger as it
  // is and, unless the key is shadowed, answers with the transaction of the first attempt.
  lemma {:induction false} RetryAfterAnyRun(db: Db, r: Request, later: seq<Call>, tbOn: bool, reply: Reply)
    requires Consistent(db) && SingleCommits(db, r) && r.idempotencyKey != ""
    ensures var db' := RunFrom(SingleAfter(db, r, tbOn), later, tbOn);
      && SingleReply(db, r, Success(db.nextTx))
      && SingleAfter(db', r, tbOn) == db'
      && Consistent(db') && r.idempotencyKey in db'.reserved
      && (!Shadowed(db', r.idempotencyKey) && SingleReply(db', r, reply) ==> reply == Success(db.nextTx))
  {
    SingleCommitsExactly(db, r);
    var db1 := SingleAfter(db, r, tbOn);
    AfterKeepsConsistent(db, Single(r), tbOn);
    CommitOwnsKeys(db, db1, [r], 0);
    RunFromKeepsOwner(db1, later, tbOn, r.idempotencyKey);
    RetryReturnsOriginal(RunFrom(db1, later, tbOn), r, tbOn);
  }

  // The same for a multi-transfer: any later multi-transfer whose first request repeats one of its
  // keys applies none of its legs and answers with the transaction of the first attempt.
  lemma {:induction false} MultiRetryAfterAnyRun(
    db: Db, reqs: seq<Request>, i: nat, later: seq<Call>, retry: seq<Request>, tbOn: bool, reply: Reply)
    requires Consistent(db) && MultiCommits(db, reqs) && i < |reqs| && reqs[i].idempotencyKey != ""
    requires retry != [] && retry[0].idempotencyKey == reqs[i].idempotencyKey
    ensures var db' := RunFrom(MultiAfter(db, reqs, tbOn), later, tbOn);
      && MultiAfter(db', retry, tbOn) == db'
      && (MultiReply(db', retry, reply) <==> reply == Success(db.nextTx))
  {
    var key := reqs[i].idempotencyKey;
    MultiCommitsExactly(db, reqs, tbOn);
    var db1 := MultiAfter(db, reqs, tbOn);
    AfterKeepsConsistent(db, Multi(reqs), tbOn);
    CommitOwnsKeys(db, db1, reqs, i);
    RunFromKeepsOwner(db1, later, tbOn, key);
    var db' := RunFrom(db1, later, tbOn);
    assert ConflictAt(db', retry, 0);
    MultiLookupFindsOwner(db', key, reply);
  }

  ghost predicate EndsWith(s: string, suffix: string) {
    |s| >= |suffix| && s[|s| - |suffix|..] == suffix
  }

  // When no key ends in ":debit" or ":credit" every retry returns the original transaction.
  lemma {:induction false} PlainKeysAreNeverShadowed(db: Db, key: string)
    requires Consistent(db) && key in db.reserved
    requires !EndsWith(key, DEBIT) && !EndsWith(key, CREDIT)
    ensures !Shadowed(db, key)
  {
    forall p: string ensures key != p + DEBIT && key != p + CREDIT {
      assert (p + DEBIT)[|p|..] == DEBIT;
      assert (p + CREDIT)[|p|..] == CREDIT;
    }
  }

  lemma {:induction false} RunOfOne(call: Call, tbOn: bool)
    ensures Run([call], tbOn) == After(EMPTY_DB, call, tbOn)
  {
    assert [call][..0] == [];
  }

  lemma {:induction false} RunOfTwo(first: Call, second: Call, tbOn: bool)
    ensures Run([first, second], tbOn) == After(Run([first], tbOn), second, tbOn)
  {
    assert [first, second][..1] == [first];
  }

  lemma {:induction false} CommitOne(db: Db, r: Request, tbOn: bool)
    requires Consistent(db) && ValidateSingle(r).None? && r.idempotencyKey != "" && r.idempotencyKey !in db.reserved
    ensures var db' := SingleAfter(db, r, tbOn);
      && db'.reserved == db.reserved + {r.idempotencyKey}
      && db'.entries == db.entries + [DebitRow(db.nextTx, r), CreditRow(db.nextTx, r)]
      && db'.nextTx == db.nextTx + 1
      && SingleReply(db, r, Success(db.nextTx))
  {
    SingleCommitsExactly(db, r);
    assert KeysOf([r]) == {r.idempotencyKey} by {
      assert [r][0] in [r];
    }
    RowsAt(db.nextTx, [r], 0);
    assert Rows(db.nextTx, [r]) == [DebitRow(db.nextTx, r), CreditRow(db.nextTx, r)];
  }

  lemma {:induction false} CommitTwo(first: Request, second: Request, tbOn: bool)
    requires ValidateSingle(first).None? && ValidateSingle(second).None?
    requires first.idempotencyKey != "" && second.idempotencyKey != "" && first.idempotencyKey != second.idempotencyKey
    ensures SingleReply(Run([Single(first)], tbOn), second, Success(1))
    ensures var db := Run([Single(first), Single(second)], tbOn);
      && db.reserved == {first.idempotencyKey, second.idempotencyKey}
      && db.entries == [DebitRow(0, first), CreditRow(0, first), DebitRow(1, second), CreditRow(1, second)]
  {
    RunIsConsistent([], tbOn);
    RunIsConsistent([Single(first)], tbOn);
    RunOfOne(Single(first), tbOn);
    CommitOne(EMPTY_DB, first, tbOn);
    var db := Run([Single(first)], tbOn);
    assert db.reserved == {first.idempotencyKey} && db.entries == [DebitRow(0, first), CreditRow(0, first)];
    CommitOne(db, second, tbOn);
    RunOfTwo(Single(first), Single(second), tbOn);
  }

  // The premise is needed: after a transfer keyed "a" and one keyed "a:debit", which was answered
  // with transaction 1, a retry of the second may be answered with transaction 0.
  lemma {:induction false} ShadowedRetryExists(r: Request, tbOn: bool)
    requires ValidateSingle(r).None?
    ensures var first, second := r.(idempotencyKey := "a"), r.(idempotencyKey := "a:debit");
      && SingleReply(Run([Single(first)], tbOn), second, Success(1))
      && SingleReply(Run([Single(first), Single(second)], tbOn), second, Success(0))
  {
    var first, second := r.(idempotencyKey := "a"), r.(idempotencyKey := "a:debit");
    CommitTwo(first, second, tbOn);
    var db := Run([Single(first), Single(second)], tbOn);
    assert db.entries[0].idempotencyKey == "a:debit";
    assert FoundBy(db.entries, {"a:debit", "a:debit" + DEBIT}, Success(0));
  }
}
