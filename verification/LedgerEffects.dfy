// What a committed transfer writes, field by field.
module LedgerEffects {
  import opened Wrappers
  import opened Ledger
  import opened LedgerLaws

  // ----- Which requests are valid -----

  predicate Known(account: string) {
    || account == "admin_revenue_account" || account == "central_escrow_account" || account == "gateway_clearing_account"
    || account == "vendor_pending_escrow_account" || account == "vendor_wallet_account" || account == "customer_refund_account"
    || account == "customer_wallet_account" || account == "rider_wallet" || account == "rider_cod_debt"
    || account == "cash_receivable" || account == "vendor_locked_escrow_account" || account == "vendor_withdrawable_account"
    || account == "stripe_holding_account" || account == "payfast_holding_account" || account == "vendor_bank_payout_account"
    || account == "vendor_clawback_account"
  }

  lemma {:induction false} KnownExactly(account: string)
    ensures account in VALID_ACCOUNTS <==> Known(account)
  {
  }

  // A leg is valid between known accounts for a positive amount; a single transfer also between two
  // different ones. The error names the first of these that fails.
  lemma {:induction false} ValidExactly(r: Request)
    ensures Validate(r) == None <==> Known(r.debitAccount) && Known(r.creditAccount) && r.amount > 0
    ensures Validate(r) == Some(InvalidDebitAccount) <==> !Known(r.debitAccount)
    ensures Validate(r) == Some(InvalidCreditAccount) <==> Known(r.debitAccount) && !Known(r.creditAccount)
    ensures ValidateSingle(r) == None <==> Validate(r) == None && r.debitAccount != r.creditAccount
    ensures ValidateSingle(r) == Some(SameAccount) <==> Validate(r) == None && r.debitAccount == r.creditAccount
    ensures Validate(r).Some? ==> ValidateSingle(r) == Validate(r)
    ensures Validate(r) in {None, Some(InvalidDebitAccount), Some(InvalidCreditAccount), Some(NonPositiveAmount)}
  {
    KnownExactly(r.debitAccount);
    KnownExactly(r.creditAccount);
  }

  // ----- The rows of a leg -----

  // The row moves the amount into the account, negative for a debit, in the request's currency or in
  // rupees, and carries the request's reference and its suffixed key.
  ghost predicate Writes(e: Entry, tx: TxId, r: Request, account: string, amount: int, suffix: string) {
    && e.transactionId == tx && e.account == account && e.amount == amount
    && (|r.currency| > 0 ==> e.currency == r.currency) && (|r.currency| == 0 ==> e.currency == "PKR")
    && e.referenceType == r.referenceType && e.referenceId == r.referenceId
    && e.idempotencyKey == r.idempotencyKey + suffix
  }

  ghost predicate WritesLeg(entries: seq<Entry>, at: nat, tx: TxId, r: Request) {
    && at + 1 < |entries|
    && Writes(entries[at], tx, r, r.debitAccount, -r.amount, ":debit")
    && Writes(entries[at + 1], tx, r, r.creditAccount, r.amount, ":credit")
  }

  ghost predicate Enqueues(before: Db, after: Db, payload: seq<TbTransfer>, tbOn: bool) {
    if tbOn then after.outbox == before.outbox + [OutboxRow(before.nextTx, payload, Pending, 0, 10)]
    else after.outbox == before.outbox
  }

  // A transaction is queued unless it has a pending row already.
  lemma {:induction false} QueuesExactly(outbox: seq<OutboxRow>, tx: TxId, payload: seq<TbTransfer>)
    ensures var queued := exists i :: 0 <= i < |outbox| && outbox[i].transactionId == tx && outbox[i].status.Pending?;
      Enqueue(outbox, tx, payload) == if queued then outbox else outbox + [OutboxRow(tx, payload, Pending, 0, 10)]
  {
  }

  lemma {:induction false} NothingQueuedYet(db: Db, payload: seq<TbTransfer>)
    requires Consistent(db)
    ensures Enqueue(db.outbox, db.nextTx, payload) == db.outbox + [OutboxRow(db.nextTx, payload, Pending, 0, 10)]
  {
  }

  // A single transfer that commits: one debit and one credit row, its key if it has one, and one
  // transfer for TigerBeetle if that is switched on. One that does not commit writes nothing.
  lemma {:induction false} TransferWrites(db: Db, r: Request, tbOn: bool)
    requires Consistent(db)
    ensures var after, n := SingleAfter(db, r, tbOn), |db.entries|;
      if SingleCommits(db, r) then
        && |after.entries| == n + 2 && after.entries[..n] == db.entries && WritesLeg(after.entries, n, db.nextTx, r)
        && (forall k :: k in after.reserved <==> k in db.reserved || (k == r.idempotencyKey && k != ""))
        && after.nextTx == db.nextTx + 1
        && Enqueues(db, after, [TbTransfer(Whole(db.nextTx), r.debitAccount, r.creditAccount, r.amount)], tbOn)
      else after == db
  {
    if SingleCommits(db, r) {
      NothingQueuedYet(db, SinglePayload(db.nextTx, r));
      RowsAt(db.nextTx, [r], 0);
      assert Rows(db.nextTx, [r])[0] == DebitRow(db.nextTx, r) && Rows(db.nextTx, [r])[1] == CreditRow(db.nextTx, r);
      assert r in [r];
    }
  }

  // A multi-transfer meets no conflict exactly when none of its keys is used and no two are the same;
  // requests without a key never conflict.
  lemma {:induction false} NoConflictExactly(db: Db, reqs: seq<Request>)
    ensures NoConflict(db, reqs) <==>
      && (forall i :: 0 <= i < |reqs| && reqs[i].idempotencyKey != "" ==> reqs[i].idempotencyKey !in db.reserved)
      && (forall i, j :: 0 <= i < j < |reqs| && reqs[i].idempotencyKey == reqs[j].idempotencyKey ==> reqs[i].idempotencyKey == "")
  {
    if NoConflict(db, reqs) {
      forall i, j | 0 <= i < j < |reqs| && reqs[i].idempotencyKey == reqs[j].idempotencyKey ensures reqs[i].idempotencyKey == "" {
        assert !ConflictAt(db, reqs, j);
      }
      forall i | 0 <= i < |reqs| && reqs[i].idempotencyKey != "" ensures reqs[i].idempotencyKey !in db.reserved {
        assert !ConflictAt(db, reqs, i);
      }
    }
  }

  ghost predicate QueuesLeg(payload: seq<TbTransfer>, k: nat, tx: TxId, r: Request) {
    k < |payload| && payload[k] == TbTransfer(Leg(tx, k), r.debitAccount, r.creditAccount, r.amount)
  }

  // A multi-transfer that commits: the same for every leg, in order, under one transaction and in one
  // outbox row.
  lemma {:induction false} MultiWrites(db: Db, reqs: seq<Request>, tbOn: bool)
    requires Consistent(db)
    ensures var after, n := MultiAfter(db, reqs, tbOn), |db.entries|;
      if MultiCommits(db, reqs) then
        && |after.entries| == n + 2 * |reqs| && after.entries[..n] == db.entries
        && (forall k :: 0 <= k < |reqs| ==> WritesLeg(after.entries, n + 2 * k, db.nextTx, reqs[k]))
        && (forall key :: key in after.reserved <==> key in db.reserved || (key != "" && exists k :: 0 <= k < |reqs| && reqs[k].idempotencyKey == key))
        && after.nextTx == db.nextTx + 1
        && exists payload ::
             && |payload| == |reqs| && Enqueues(db, after, payload, tbOn)
             && forall k :: 0 <= k < |reqs| ==> QueuesLeg(payload, k, db.nextTx, reqs[k])
      else after == db
  {
    if MultiCommits(db, reqs) {
      var payload := MultiPayload(db.nextTx, reqs);
      NothingQueuedYet(db, payload);
      LegsWritten(db, reqs, tbOn);
      KeysReserved(reqs);
      assert Enqueues(db, MultiAfter(db, reqs, tbOn), payload, tbOn);
      assert forall k :: 0 <= k < |reqs| ==> QueuesLeg(payload, k, db.nextTx, reqs[k]);
    }
  }

  lemma {:induction false} LegsWritten(db: Db, reqs: seq<Request>, tbOn: bool)
    requires MultiCommits(db, reqs)
    ensures var after, n := MultiAfter(db, reqs, tbOn), |db.entries|;
      && |after.entries| == n + 2 * |reqs| && after.entries[..n] == db.entries
      && forall k :: 0 <= k < |reqs| ==> WritesLeg(after.entries, n + 2 * k, db.nextTx, reqs[k])
  {
    var entries, rows := db.entries, Rows(db.nextTx, reqs);
    assert MultiAfter(db, reqs, tbOn).entries == entries + rows;
    forall k | 0 <= k < |reqs| ensures WritesLeg(entries + rows, |entries| + 2 * k, db.nextTx, reqs[k]) {
      LegWritten(entries, db.nextTx, reqs, k);
    }
  }

  lemma {:induction false} LegWritten(entries: seq<Entry>, tx: TxId, reqs: seq<Request>, k: nat)
    requires k < |reqs|
    ensures WritesLeg(entries + Rows(tx, reqs), |entries| + 2 * k, tx, reqs[k])
  {
    RowsAt(tx, reqs, k);
    var rows := Rows(tx, reqs);
    assert (entries + rows)[|entries| + 2 * k] == rows[2 * k] && (entries + rows)[|entries| + 2 * k + 1] == rows[2 * k + 1];
  }

  lemma {:induction false} KeysReserved(reqs: seq<Request>)
    ensures forall key :: key in KeysOf(reqs) <==> key != "" && exists k :: 0 <= k < |reqs| && reqs[k].idempotencyKey == key
  {
    forall k | 0 <= k < |reqs| && reqs[k].idempotencyKey != "" ensures reqs[k].idempotencyKey in KeysOf(reqs) {
      assert reqs[k] in reqs;
    }
  }

  // ----- The replies -----

  // A single transfer: the first fault of an invalid one; the new transaction if it commits; and an
  // insert failure for a valid one with a fresh key or none that clashes with a row.
  lemma {:induction false} SingleRepliesExactly(db: Db, r: Request, reply: Reply)
    requires SingleReply(db, r, reply)
    ensures ValidateSingle(r).Some? ==> reply == Result.Failure(ValidateSingle(r).value)
    ensures SingleCommits(db, r) ==> reply == Result.Success(db.nextTx)
    ensures ValidateSingle(r).None? && r.idempotencyKey !in db.reserved && !SingleCommits(db, r) ==> reply == Result.Failure(InsertFailed)
    ensures ValidateSingle(r).None? && r.idempotencyKey in db.reserved && r.idempotencyKey != "" ==>
      Answers(db.entries, reply, r.idempotencyKey, r.idempotencyKey + ":debit")
  {
  }

  // The reply is the transaction of some row with one of the two keys, or an error without such a row.
  ghost predicate Answers(entries: seq<Entry>, reply: Reply, key: string, other: string) {
    match reply
    case Success(tx) =>
      exists i :: 0 <= i < |entries| && (entries[i].idempotencyKey == key || entries[i].idempotencyKey == other) && entries[i].transactionId == tx
    case Failure(error) =>
      error == KeyWithoutEntry && forall i :: 0 <= i < |entries| ==> entries[i].idempotencyKey != key && entries[i].idempotencyKey != other
  }

  // Request i is the first that meets a conflict, and the first with a fault.
  ghost predicate FirstConflict(db: Db, reqs: seq<Request>, i: nat) {
    i < |reqs| && !NoConflict(db, reqs[..i + 1]) && NoConflict(db, reqs[..i])
  }

  ghost predicate FirstFault(reqs: seq<Request>, i: nat) {
    i < |reqs| && Validate(reqs[i]).Some? && forall j :: 0 <= j < i ==> Validate(reqs[j]) == None
  }

  lemma {:induction false} ConflictInPrefix(db: Db, reqs: seq<Request>, n: nat, i: nat)
    requires i < n <= |reqs|
    ensures ConflictAt(db, reqs[..n], i) <==> ConflictAt(db, reqs, i)
  {
    assert forall j :: 0 <= j <= i ==> reqs[..n][j] == reqs[j];
  }

  lemma {:induction false} FirstConflictIs(db: Db, reqs: seq<Request>, i: nat, k: nat)
    requires FirstConflict(db, reqs, i) && k < |reqs| && ConflictAt(db, reqs, k) && forall j :: 0 <= j < k ==> !ConflictAt(db, reqs, j)
    ensures k == i
  {
    if k < i {
      ConflictInPrefix(db, reqs, i, k);
    }
    if k > i {
      var front := reqs[..i + 1];
      forall j | 0 <= j < |front| ensures !ConflictAt(db, front, j) {
        ConflictInPrefix(db, reqs, i + 1, j);
      }
    }
  }

  // A multi-transfer: nothing to do; the lookup for the first conflict; the error of the first fault;
  // the new transaction; or an insert failure, in this order.
  lemma {:induction false} MultiRepliesExactly(db: Db, reqs: seq<Request>, reply: Reply, i: nat)
    requires MultiReply(db, reqs, reply)
    ensures |reqs| == 0 ==> reply == Result.Failure(NoTransfers)
    ensures FirstConflict(db, reqs, i) ==> Answers(db.entries, reply, reqs[i].idempotencyKey + ":debit", reqs[i].idempotencyKey + ":debit")
    ensures NoConflict(db, reqs) && FirstFault(reqs, i) ==> reply == Result.Failure(Validate(reqs[i]).value)
    ensures MultiCommits(db, reqs) ==> reply == Result.Success(db.nextTx)
    ensures |reqs| > 0 && NoConflict(db, reqs) && !MultiCommits(db, reqs) && (forall k: nat :: !FirstFault(reqs, k)) ==>
      reply == Result.Failure(InsertFailed)
  {
    FaultyHasFirst(reqs);
    if FirstConflict(db, reqs, i) {
      ConflictStays(db, reqs, i);
      var k :| 0 <= k < |reqs| && ConflictAt(db, reqs, k) && (forall j :: 0 <= j < k ==> !ConflictAt(db, reqs, j))
        && FoundBy(db.entries, {reqs[k].idempotencyKey + DEBIT}, reply);
      FirstConflictIs(db, reqs, i, k);
    } else if NoConflict(db, reqs) && FirstFault(reqs, i) {
      var k :| 0 <= k < |reqs| && Validate(reqs[k]).Some? && (forall j :: 0 <= j < k ==> Validate(reqs[j]).None?)
        && reply == Failure(Validate(reqs[k]).value);
      assert k == i;
    }
  }

  lemma {:induction false} FaultyHasFirst(reqs: seq<Request>)
    ensures AllValid(reqs) || exists k: nat :: FirstFault(reqs, k)
  {
    if reqs != [] {
      var n := |reqs| - 1;
      FaultyHasFirst(reqs[..n]);
      if AllValid(reqs[..n]) {
        assert forall j :: 0 <= j < n ==> Validate(reqs[..n][j]) == Validate(reqs[j]);
        assert AllValid(reqs) || FirstFault(reqs, n);
      } else {
        var k: nat :| FirstFault(reqs[..n], k);
        assert FirstFault(reqs, k);
      }
    }
  }

  lemma {:induction false} ConflictStays(db: Db, reqs: seq<Request>, i: nat)
    requires FirstConflict(db, reqs, i)
    ensures reqs != [] && !NoConflict(db, reqs)
  {
    var k :| 0 <= k < i + 1 && ConflictAt(db, reqs[..i + 1], k);
    ConflictInPrefix(db, reqs, i + 1, k);
  }
}
