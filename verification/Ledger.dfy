// The double-entry ledger: Transfer and MultiTransfer write balanced pairs of rows,
// reserve idempotency keys and enqueue one TigerBeetle outbox row, all in one commit.
module Ledger {
  import opened Wrappers

  // ----- Tables -----

  type Account = string

  // uuid.New() is a counter: an identifier is drawn when a transaction commits.
  type TxId = nat

  const ADMIN_REVENUE: Account := "admin_revenue_account"
  const CENTRAL_ESCROW: Account := "central_escrow_account"
  const GATEWAY_CLEARING: Account := "gateway_clearing_account"
  const VENDOR_PENDING_ESCROW: Account := "vendor_pending_escrow_account"
  const VENDOR_WALLET: Account := "vendor_wallet_account"
  const CUSTOMER_REFUND: Account := "customer_refund_account"
  const CUSTOMER_WALLET: Account := "customer_wallet_account"
  const RIDER_WALLET: Account := "rider_wallet"
  const RIDER_COD_DEBT: Account := "rider_cod_debt"
  const CASH_RECEIVABLE: Account := "cash_receivable"
  const VENDOR_LOCKED_ESCROW: Account := "vendor_locked_escrow_account"
  const VENDOR_WITHDRAWABLE: Account := "vendor_withdrawable_account"
  const STRIPE_HOLDING: Account := "stripe_holding_account"
  const PAYFAST_HOLDING: Account := "payfast_holding_account"
  const VENDOR_BANK_PAYOUT: Account := "vendor_bank_payout_account"
  const VENDOR_CLAWBACK: Account := "vendor_clawback_account"

  const VALID_ACCOUNTS: set<Account> := {
    ADMIN_REVENUE, CENTRAL_ESCROW, GATEWAY_CLEARING, VENDOR_PENDING_ESCROW,
    VENDOR_WALLET, CUSTOMER_REFUND, CUSTOMER_WALLET, RIDER_WALLET,
    RIDER_COD_DEBT, CASH_RECEIVABLE, VENDOR_LOCKED_ESCROW, VENDOR_WITHDRAWABLE,
    STRIPE_HOLDING, PAYFAST_HOLDING, VENDOR_BANK_PAYOUT, VENDOR_CLAWBACK
  }

  const DEFAULT_CURRENCY := "PKR"
  const DEBIT := ":debit"
  const CREDIT := ":credit"
  const MAX_RETRIES: nat := 10

  datatype Request = Request(
    debitAccount: Account, creditAccount: Account, amount: int, currency: string,
    referenceType: string, referenceId: string, idempotencyKey: string)

  // A row of ledger_entries: a negative amount is a debit, a positive one a credit.
  datatype Entry = Entry(
    transactionId: TxId, account: Account, amount: int, currency: string,
    referenceType: string, referenceId: string, idempotencyKey: string)

  // Whole(tx) is the identifier of a single transfer, Leg(tx, i) that of leg i of a multi-transfer.
  datatype TransferId = Whole(tx: TxId) | Leg(tx: TxId, index: nat)

  datatype TbTransfer = TbTransfer(id: TransferId, debitAccount: Account, creditAccount: Account, amount: int)

  datatype OutboxStatus = Pending | Completed | Failed

  datatype OutboxRow = OutboxRow(
    transactionId: TxId, payload: seq<TbTransfer>, status: OutboxStatus, retryCount: nat, maxRetries: nat)

  // The committed contents of ledger_idempotency, ledger_entries and tigerbeetle_outbox.
  // An outbox row's id is its position.
  datatype Db = Db(reserved: set<string>, entries: seq<Entry>, outbox: seq<OutboxRow>, nextTx: TxId)

  const EMPTY_DB := Db({}, [], [], 0)

  datatype Error =
    | InvalidDebitAccount | InvalidCreditAccount | NonPositiveAmount | SameAccount
    | NoTransfers | KeyWithoutEntry | InsertFailed | InvalidRate

  type Reply = Result<TxId, Error>

  // ----- Rows written for a request -----

  function CurrencyOf(r: Request): string {
    if r.currency == "" then DEFAULT_CURRENCY else r.currency
  }

  function DebitRow(tx: TxId, r: Request): Entry {
    Entry(tx, r.debitAccount, -r.amount, CurrencyOf(r), r.referenceType, r.referenceId, r.idempotencyKey + DEBIT)
  }

  function CreditRow(tx: TxId, r: Request): Entry {
    Entry(tx, r.creditAccount, r.amount, CurrencyOf(r), r.referenceType, r.referenceId, r.idempotencyKey + CREDIT)
  }

  // The rows of a multi-transfer: a debit row and a credit row per request, in order.
  function Rows(tx: TxId, reqs: seq<Request>): (rows: seq<Entry>)
    ensures |rows| == 2 * |reqs|
  {
    if reqs == [] then []
    else Rows(tx, reqs[..|reqs| - 1]) + [DebitRow(tx, reqs[|reqs| - 1]), CreditRow(tx, reqs[|reqs| - 1])]
  }

  function SinglePayload(tx: TxId, r: Request): seq<TbTransfer> {
    [TbTransfer(Whole(tx), r.debitAccount, r.creditAccount, r.amount)]
  }

  function MultiPayload(tx: TxId, reqs: seq<Request>): seq<TbTransfer> {
    seq(|reqs|, i requires 0 <= i < |reqs| =>
      TbTransfer(Leg(tx, i), reqs[i].debitAccount, reqs[i].creditAccount, reqs[i].amount))
  }

  function KeysOf(reqs: seq<Request>): set<string> {
    set r | r in reqs && r.idempotencyKey != "" :: r.idempotencyKey
  }

  // ----- What one call does -----

  function Validate(r: Request): Option<Error> {
    if r.debitAccount !in VALID_ACCOUNTS then Some(InvalidDebitAccount)
    else if r.creditAccount !in VALID_ACCOUNTS then Some(InvalidCreditAccount)
    else if r.amount <= 0 then Some(NonPositiveAmount)
    else None
  }

  function ValidateSingle(r: Request): Option<Error> {
    if Validate(r).Some? then Validate(r)
    else if r.debitAccount == r.creditAccount then Some(SameAccount)
    else None
  }

  // The UNIQUE index on ledger_entries.idempotency_key accepts the new rows.
  ghost predicate Insertable(entries: seq<Entry>, rows: seq<Entry>) {
    && (forall i, j :: 0 <= i < |rows| && 0 <= j < |entries| ==> rows[i].idempotencyKey != entries[j].idempotencyKey)
    && (forall i, j :: 0 <= i < j < |rows| ==> rows[i].idempotencyKey != rows[j].idempotencyKey)
  }

  // The key of request i is already reserved, or repeats an earlier key of the same call.
  ghost predicate ConflictAt(db: Db, reqs: seq<Request>, i: nat)
    requires i < |reqs|
  {
    && reqs[i].idempotencyKey != ""
    && (reqs[i].idempotencyKey in db.reserved || exists j :: 0 <= j < i && reqs[j].idempotencyKey == reqs[i].idempotencyKey)
  }

  ghost predicate NoConflict(db: Db, reqs: seq<Request>) {
    forall i :: 0 <= i < |reqs| ==> !ConflictAt(db, reqs, i)
  }

  ghost predicate AllValid(reqs: seq<Request>) {
    forall i :: 0 <= i < |reqs| ==> Validate(reqs[i]).None?
  }

  ghost predicate SingleCommits(db: Db, r: Request) {
    && ValidateSingle(r).None?
    && !(r.idempotencyKey != "" && r.idempotencyKey in db.reserved)
    && Insertable(db.entries, [DebitRow(db.nextTx, r), CreditRow(db.nextTx, r)])
  }

  ghost predicate MultiCommits(db: Db, reqs: seq<Request>) {
    && reqs != []
    && NoConflict(db, reqs)
    && AllValid(reqs)
    && Insertable(db.entries, Rows(db.nextTx, reqs))
  }

  // ON CONFLICT (transaction_id) WHERE status IN ('PENDING', 'PROCESSING') DO NOTHING.
  function Enqueue(outbox: seq<OutboxRow>, tx: TxId, payload: seq<TbTransfer>): seq<OutboxRow> {
    if exists i :: 0 <= i < |outbox| && outbox[i].transactionId == tx && outbox[i].status == Pending then outbox
    else outbox + [OutboxRow(tx, payload, Pending, 0, MAX_RETRIES)]
  }

  function Commit(db: Db, reqs: seq<Request>, payload: seq<TbTransfer>, tbOn: bool): Db {
    Db(db.reserved + KeysOf(reqs),
       db.entries + Rows(db.nextTx, reqs),
       if tbOn then Enqueue(db.outbox, db.nextTx, payload) else db.outbox,
       db.nextTx + 1)
  }

  ghost function SingleAfter(db: Db, r: Request, tbOn: bool): Db {
    if SingleCommits(db, r) then Commit(db, [r], SinglePayload(db.nextTx, r), tbOn) else db
  }

  ghost function MultiAfter(db: Db, reqs: seq<Request>, tbOn: bool): Db {
    if MultiCommits(db, reqs) then Commit(db, reqs, MultiPayload(db.nextTx, reqs), tbOn) else db
  }

  // SELECT ... LIMIT 1 without an order: any matching row may be the one returned.
  ghost predicate FoundBy(entries: seq<Entry>, keys: set<string>, reply: Reply) {
    if exists i :: 0 <= i < |entries| && entries[i].idempotencyKey in keys then
      reply.Success? && exists i :: 0 <= i < |entries| && entries[i].idempotencyKey in keys && entries[i].transactionId == reply.value
    else
      reply == Failure(KeyWithoutEntry)
  }

  ghost predicate SingleReply(db: Db, r: Request, reply: Reply) {
    if ValidateSingle(r).Some? then reply == Failure(ValidateSingle(r).value)
    else if r.idempotencyKey != "" && r.idempotencyKey in db.reserved then
      FoundBy(db.entries, {r.idempotencyKey, r.idempotencyKey + DEBIT}, reply)
    else if SingleCommits(db, r) then reply == Success(db.nextTx)
    else reply == Failure(InsertFailed)
  }

  ghost predicate MultiReply(db: Db, reqs: seq<Request>, reply: Reply) {
    if reqs == [] then reply == Failure(NoTransfers)
    else if !NoConflict(db, reqs) then
      exists i :: 0 <= i < |reqs| && ConflictAt(db, reqs, i) && (forall j :: 0 <= j < i ==> !ConflictAt(db, reqs, j))
        && FoundBy(db.entries, {reqs[i].idempotencyKey + DEBIT}, reply)
    else if !AllValid(reqs) then
      exists i :: 0 <= i < |reqs| && Validate(reqs[i]).Some? && (forall j :: 0 <= j < i ==> Validate(reqs[j]).None?)
        && reply == Failure(Validate(reqs[i]).value)
    else if MultiCommits(db, reqs) then reply == Success(db.nextTx)
    else reply == Failure(InsertFailed)
  }

  // SELECT SUM(amount_paisa) WHERE account = a.
  function Balance(entries: seq<Entry>, a: Account): int {
    if entries == [] then 0
    else
      var last := entries[|entries| - 1];
      Balance(entries[..|entries| - 1], a) + if last.account == a then last.amount else 0
  }

  // ----- The repository and the service -----

  predicate KeyTaken(entries: seq<Entry>, key: string) {
    exists i :: 0 <= i < |entries| && entries[i].idempotencyKey == key
  }

  // Writes rows one at a time; the first key already present makes the whole insert fail.
  method InsertEntries(table: seq<Entry>, rows: seq<Entry>) returns (ok: bool, after: seq<Entry>)
    ensures ok <==> Insertable(table, rows)
    ensures after == if ok then table + rows else table
  {
    after := table;
    for i := 0 to |rows|
      invariant after == table + rows[..i]
      invariant Insertable(table, rows[..i])
    {
      if KeyTaken(after, rows[i].idempotencyKey) {
        KeyTakenBlocks(table, rows, i);
        return false, table;
      }
      FreeKeyExtends(table, rows, i);
      after := after + [rows[i]];
    }
    ok := true;
    assert rows[..|rows|] == rows;
  }

  lemma {:induction false} KeyTakenBlocks(table: seq<Entry>, rows: seq<Entry>, i: nat)
    requires i < |rows| && KeyTaken(table + rows[..i], rows[i].idempotencyKey)
    ensures !Insertable(table, rows)
  {
    var k :| 0 <= k < |table + rows[..i]| && (table + rows[..i])[k].idempotencyKey == rows[i].idempotencyKey;
    if k >= |table| {
      assert rows[k - |table|].idempotencyKey == rows[i].idempotencyKey;
    }
  }

  lemma {:induction false} FreeKeyExtends(table: seq<Entry>, rows: seq<Entry>, i: nat)
    requires i < |rows| && Insertable(table, rows[..i]) && !KeyTaken(table + rows[..i], rows[i].idempotencyKey)
    ensures Insertable(table, rows[..i + 1])
  {
    var all := table + rows[..i];
    forall k | 0 <= k < |table| ensures table[k].idempotencyKey != rows[i].idempotencyKey {
      assert all[k] == table[k];
    }
    forall k | 0 <= k < i ensures rows[k].idempotencyKey != rows[i].idempotencyKey {
      assert all[|table| + k] == rows[k];
    }
    forall k, j | 0 <= k < j < i + 1 ensures rows[k].idempotencyKey != rows[j].idempotencyKey {
      if j < i {
        assert rows[..i][k].idempotencyKey != rows[..i][j].idempotencyKey;
      }
    }
    forall k, j | 0 <= k < i + 1 && 0 <= j < |table| ensures rows[k].idempotencyKey != table[j].idempotencyKey {
      if k < i {
        assert rows[..i][k].idempotencyKey != table[j].idempotencyKey;
      }
    }
  }

  method FindByKey(entries: seq<Entry>, keys: set<string>) returns (reply: Reply)
    ensures FoundBy(entries, keys, reply)
  {
    if exists i :: 0 <= i < |entries| && entries[i].idempotencyKey in keys {
      var i :| 0 <= i < |entries| && entries[i].idempotencyKey in keys;
      reply := Success(entries[i].transactionId);
    } else {
      reply := Failure(KeyWithoutEntry);
    }
  }

  method SumBalance(entries: seq<Entry>, a: Account) returns (total: int)
    ensures total == Balance(entries, a)
  {
    total := 0;
    for i := 0 to |entries|
      invariant total == Balance(entries[..i], a)
    {
      assert entries[..i + 1][..i] == entries[..i];
      if entries[i].account == a {
        total := total + entries[i].amount;
      }
    }
    assert entries[..|entries|] == entries;
  }

  class LedgerService {
    var reserved: set<string>
    var entries: seq<Entry>
    var outbox: seq<OutboxRow>
    var nextTx: TxId
    const tbOn: bool

    function State(): Db
      reads this
    {
      Db(reserved, entries, outbox, nextTx)
    }

    constructor (tbOn: bool)
      ensures State() == EMPTY_DB && this.tbOn == tbOn
    {
      reserved, entries, outbox, nextTx := {}, [], [], 0;
      this.tbOn := tbOn;
    }

    method GetBalance(a: Account) returns (total: int)
      ensures total == Balance(entries, a)
    {
      total := SumBalance(entries, a);
    }

    // Locals stand for the open transaction; the fields change only at its commit.
    method Transfer(r: Request) returns (reply: Reply)
      modifies this
      ensures State() == SingleAfter(old(State()), r, tbOn)
      ensures SingleReply(old(State()), r, reply)
    {
      var invalid := ValidateSingle(r);
      if invalid.Some? {
        return Failure(invalid.value);
      }
      var reserved' := reserved;
      if r.idempotencyKey != "" {
        if r.idempotencyKey in reserved {
          reply := FindByKey(entries, {r.idempotencyKey, r.idempotencyKey + DEBIT});
          return;
        }
        reserved' := reserved' + {r.idempotencyKey};
      }
      var ok, entries' := InsertEntries(entries, [DebitRow(nextTx, r), CreditRow(nextTx, r)]);
      if !ok {
        return Failure(InsertFailed);
      }
      assert Rows(nextTx, [r]) == [DebitRow(nextTx, r), CreditRow(nextTx, r)];
      assert reserved' == reserved + KeysOf([r]);
      var outbox' := outbox;
      if tbOn {
        outbox' := Enqueue(outbox, nextTx, SinglePayload(nextTx, r));
      }
      reply := Success(nextTx);
      reserved, entries, outbox, nextTx := reserved', entries', outbox', nextTx + 1;
    }

    method MultiTransfer(reqs: seq<Request>) returns (reply: Reply)
      modifies this
      ensures State() == MultiAfter(old(State()), reqs, tbOn)
      ensures MultiReply(old(State()), reqs, reply)
    {
      if |reqs| == 0 {
        return Failure(NoTransfers);
      }
      var conflict, reserved' := ReserveKeys(State(), reqs);
      if conflict < |reqs| {
        assert ConflictAt(State(), reqs, conflict);
        reply := FindByKey(entries, {reqs[conflict].idempotencyKey + DEBIT});
        return;
      }
      var invalid, rows := BuildRows(nextTx, reqs);
      if invalid < |reqs| {
        return Failure(Validate(reqs[invalid]).value);
      }
      var ok, entries' := InsertEntries(entries, rows);
      if !ok {
        return Failure(InsertFailed);
      }
      var outbox' := outbox;
      if tbOn {
        var transfers := BuildPayload(nextTx, reqs);
        outbox' := Enqueue(outbox, nextTx, transfers);
      }
      reply := Success(nextTx);
      reserved, entries, outbox, nextTx := reserved', entries', outbox', nextTx + 1;
    }
  }

  // The reservation loop: stops at the first key whose INSERT affects no row.
  method ReserveKeys(db: Db, reqs: seq<Request>) returns (i: nat, reserved: set<string>)
    ensures i <= |reqs|
    ensures forall j :: 0 <= j < i ==> !ConflictAt(db, reqs, j)
    ensures i < |reqs| ==> ConflictAt(db, reqs, i)
    ensures i == |reqs| ==> reserved == db.reserved + KeysOf(reqs)
  {
    i, reserved := 0, db.reserved;
    while i < |reqs|
      invariant i <= |reqs|
      invariant reserved == db.reserved + KeysOf(reqs[..i])
      invariant forall j :: 0 <= j < i ==> !ConflictAt(db, reqs, j)
    {
      var key := reqs[i].idempotencyKey;
      if key != "" {
        if key in reserved {
          return;
        }
        reserved := reserved + {key};
      }
      assert forall j :: 0 <= j < i ==> reqs[j] == reqs[..i][j];
      assert reqs[..i + 1] == reqs[..i] + [reqs[i]];
      i := i + 1;
    }
    assert reqs[..|reqs|] == reqs;
  }

  // The validation loop: stops at the first invalid request.
  method BuildRows(tx: TxId, reqs: seq<Request>) returns (i: nat, rows: seq<Entry>)
    ensures i <= |reqs|
    ensures forall j :: 0 <= j < i ==> Validate(reqs[j]).None?
    ensures i < |reqs| ==> Validate(reqs[i]).Some?
    ensures i == |reqs| ==> rows == Rows(tx, reqs)
  {
    i, rows := 0, [];
    while i < |reqs|
      invariant i <= |reqs|
      invariant rows == Rows(tx, reqs[..i])
      invariant forall j :: 0 <= j < i ==> Validate(reqs[j]).None?
    {
      if Validate(reqs[i]).Some? {
        return;
      }
      assert reqs[..i + 1][..i] == reqs[..i];
      rows := rows + [DebitRow(tx, reqs[i])];
      rows := rows + [CreditRow(tx, reqs[i])];
      i := i + 1;
    }
    assert reqs[..|reqs|] == reqs;
  }

  method BuildPayload(tx: TxId, reqs: seq<Request>) returns (transfers: seq<TbTransfer>)
    ensures transfers == MultiPayload(tx, reqs)
  {
    transfers := [];
    for i := 0 to |reqs|
      invariant transfers == MultiPayload(tx, reqs)[..i]
    {
      transfers := transfers + [TbTransfer(Leg(tx, i), reqs[i].debitAccount, reqs[i].creditAccount, reqs[i].amount)];
    }
  }
}
