// Moves between the ledger's escrow accounts for one order.
module EscrowMoves {
  import opened Wrappers
  import opened Ledger
  import opened LedgerLaws
  import opened LedgerEffects
  import opened Commission

  function MoveRequest(order: string, amount: int): Request {
    Request(CENTRAL_ESCROW, VENDOR_PENDING_ESCROW, amount, "PKR", "order_escrow_hold", order, "escrow_hold_" + order)
  }

  function ReverseRequest(order: string, amount: int): Request {
    Request(VENDOR_PENDING_ESCROW, CUSTOMER_REFUND, amount, "PKR", "order_refund", order, "refund_" + order)
  }

  function AdminShare(amount: int, rate: real): int {
    Round(Share(amount, rate))
  }

  function ReleaseRequests(order: string, amount: int, rate: real): seq<Request> {
    [Request(VENDOR_PENDING_ESCROW, ADMIN_REVENUE, AdminShare(amount, rate), "PKR", "admin_commission", order, "commission_" + order),
     Request(VENDOR_PENDING_ESCROW, VENDOR_WALLET, amount - AdminShare(amount, rate), "PKR", "vendor_payout", order, "vendor_payout_" + order)]
  }

  predicate ValidRate(rate: real) {
    0.0 <= rate <= 100.0
  }

  ghost function ReleaseAfter(db: Db, order: string, amount: int, rate: real, tbOn: bool): Db {
    if ValidRate(rate) then MultiAfter(db, ReleaseRequests(order, amount, rate), tbOn) else db
  }

  method MoveToVendorPendingEscrow(s: LedgerService, order: string, amount: int) returns (reply: Reply)
    modifies s
    ensures s.State() == SingleAfter(old(s.State()), MoveRequest(order, amount), s.tbOn)
    ensures SingleReply(old(s.State()), MoveRequest(order, amount), reply)
  {
    reply := s.Transfer(MoveRequest(order, amount));
  }

  method ReleaseEscrowToVendor(s: LedgerService, order: string, amount: int, rate: real) returns (reply: Reply)
    modifies s
    ensures s.State() == ReleaseAfter(old(s.State()), order, amount, rate, s.tbOn)
    ensures rate < 0.0 || rate > 100.0 ==> s.State() == old(s.State())
    ensures if rate >= 0.0 && 100.0 >= rate then MultiReply(old(s.State()), ReleaseRequests(order, amount, rate), reply)
            else reply == Failure(InvalidRate)
  {
    if rate < 0.0 || rate > 100.0 {
      return Failure(InvalidRate);
    }
    reply := s.MultiTransfer(ReleaseRequests(order, amount, rate));
  }

  method ReverseEscrowToCustomer(s: LedgerService, order: string, amount: int) returns (reply: Reply)
    modifies s
    ensures s.State() == SingleAfter(old(s.State()), ReverseRequest(order, amount), s.tbOn)
    ensures SingleReply(old(s.State()), ReverseRequest(order, amount), reply)
  {
    reply := s.Transfer(ReverseRequest(order, amount));
  }

  // ----- What the moves write -----

  // Holding moves the amount of the order from the central escrow to the vendors' pending escrow, and
  // a reversal from there to the customers' refunds, each under a key of its own. A move that does not
  // commit writes nothing.
  lemma {:induction false} MovesWrite(db: Db, order: string, amount: int, tbOn: bool)
    requires Consistent(db)
    ensures SingleCommits(db, MoveRequest(order, amount)) ==>
      WritesLeg(SingleAfter(db, MoveRequest(order, amount), tbOn).entries, |db.entries|, db.nextTx, Request(
        "central_escrow_account", "vendor_pending_escrow_account", amount, "PKR", "order_escrow_hold", order, "escrow_hold_" + order))
    ensures SingleCommits(db, ReverseRequest(order, amount)) ==>
      WritesLeg(SingleAfter(db, ReverseRequest(order, amount), tbOn).entries, |db.entries|, db.nextTx, Request(
        "vendor_pending_escrow_account", "customer_refund_account", amount, "PKR", "order_refund", order, "refund_" + order))
  {
    TransferWrites(db, MoveRequest(order, amount), tbOn);
    TransferWrites(db, ReverseRequest(order, amount), tbOn);
  }

  // Releasing moves the platform's share to its revenue and the rest to the vendor: the share is that
  // percentage of the amount to within half a paisa.
  lemma {:induction false} ReleaseWrites(db: Db, order: string, amount: int, rate: real, tbOn: bool)
    requires Consistent(db) && 0.0 <= rate <= 100.0 && MultiCommits(db, ReleaseRequests(order, amount, rate))
    ensures var entries := ReleaseAfter(db, order, amount, rate, tbOn).entries;
      exists share: int ::
        && -50.0 <= 100.0 * share as real - amount as real * rate <= 50.0
        && WritesLeg(entries, |db.entries|, db.nextTx, Request(
             "vendor_pending_escrow_account", "admin_revenue_account", share, "PKR", "admin_commission", order, "commission_" + order))
        && WritesLeg(entries, |db.entries| + 2, db.nextTx, Request(
             "vendor_pending_escrow_account", "vendor_wallet_account", amount - share, "PKR", "vendor_payout", order, "vendor_payout_" + order))
  {
    var reqs, share := ReleaseRequests(order, amount, rate), AdminShare(amount, rate);
    MultiWrites(db, reqs, tbOn);
    RoundIsNearest(Share(amount, rate));
    assert 100.0 * (amount as real * rate / 100.0) == amount as real * rate;
    var entries := ReleaseAfter(db, order, amount, rate, tbOn).entries;
    assert WritesLeg(entries, |db.entries| + 2 * 0, db.nextTx, reqs[0]) && WritesLeg(entries, |db.entries| + 2 * 1, db.nextTx, reqs[1]);
  }

  // ----- Release moves all or nothing -----

  lemma {:induction false} AccountsDiffer()
    ensures VENDOR_PENDING_ESCROW != ADMIN_REVENUE && VENDOR_PENDING_ESCROW != VENDOR_WALLET
    ensures VENDOR_PENDING_ESCROW != CENTRAL_ESCROW && VENDOR_PENDING_ESCROW != CUSTOMER_REFUND
    ensures ADMIN_REVENUE != VENDOR_WALLET
  {
    assert VENDOR_PENDING_ESCROW[0] == 'v' && VENDOR_PENDING_ESCROW[7] == 'p' && VENDOR_WALLET[7] == 'w';
    assert ADMIN_REVENUE[0] == 'a' && CENTRAL_ESCROW[0] == 'c' && CUSTOMER_REFUND[0] == 'c' && VENDOR_WALLET[0] == 'v';
  }

  lemma {:induction false} KeysDiffer(order: string)
    ensures "commission_" + order != "vendor_payout_" + order
    ensures "refund_" + order != "commission_" + order && "refund_" + order != "vendor_payout_" + order
    ensures "escrow_hold_" + order != "commission_" + order && "escrow_hold_" + order != "vendor_payout_" + order
  {
    assert ("commission_" + order)[0] == 'c' && ("vendor_payout_" + order)[0] == 'v';
    assert ("refund_" + order)[0] == 'r' && ("escrow_hold_" + order)[0] == 'e';
  }

  // Neither leg rounds to nothing.
  predicate BothLegsCount(amount: int, rate: real) {
    Share(amount, rate) >= 0.5 && Share(amount, 100.0 - rate) > 0.5
  }

  lemma {:induction false} LegsCountExactly(amount: int, rate: real)
    ensures BothLegsCount(amount, rate) <==> 0 < AdminShare(amount, rate) < amount
  {
    var share := Share(amount, rate);
    assert Share(amount, 100.0 - rate) == amount as real - share by {
      assert amount as real * (100.0 - rate) == amount as real * 100.0 - amount as real * rate;
    }
    RoundReaches(share, 1);
    if amount > 0 {
      RoundReaches(share, amount);
    } else {
      RoundIsNearest(share);
    }
  }

  ghost predicate ReleaseKeysFresh(db: Db, order: string) {
    "commission_" + order !in db.reserved && "vendor_payout_" + order !in db.reserved
  }

  lemma {:induction false} ReleaseCommitsExactly(db: Db, order: string, amount: int, rate: real)
    requires Consistent(db)
    ensures MultiCommits(db, ReleaseRequests(order, amount, rate)) <==> BothLegsCount(amount, rate) && ReleaseKeysFresh(db, order)
  {
    var reqs := ReleaseRequests(order, amount, rate);
    MultiCommitsExactly(db, reqs, false);
    LegsCountExactly(amount, rate);
    KeysDiffer(order);
    assert AllValid(reqs) <==> Validate(reqs[0]).None? && Validate(reqs[1]).None?;
    assert reqs[0].idempotencyKey == "commission_" + order && reqs[1].idempotencyKey == "vendor_payout_" + order;
  }

  lemma {:induction false} ReleaseMoves(order: string, amount: int, rate: real)
    ensures var reqs := ReleaseRequests(order, amount, rate);
      && MovedBy(reqs, VENDOR_PENDING_ESCROW) == -amount
      && MovedBy(reqs, ADMIN_REVENUE) == AdminShare(amount, rate)
      && MovedBy(reqs, VENDOR_WALLET) == amount - AdminShare(amount, rate)
  {
    AccountsDiffer();
    var reqs := ReleaseRequests(order, amount, rate);
    assert reqs[..1] == [reqs[0]];
    forall account: Account ensures MovedBy(reqs, account) == Moved(reqs[0], account) + Moved(reqs[1], account) {
      MovedByOne(reqs[0], account);
    }
  }

  // The release takes exactly the amount out of the pending escrow, splitting it between platform
  // and vendor, exactly when the rate is a percentage, both legs count and the order has not been
  // released; otherwise it applies nothing.
  lemma {:induction false} ReleaseIsAllOrNothing(db: Db, order: string, amount: int, rate: real, tbOn: bool)
    requires Consistent(db)
    ensures var after := ReleaseAfter(db, order, amount, rate, tbOn);
      if ValidRate(rate) && BothLegsCount(amount, rate) && ReleaseKeysFresh(db, order) then
        && Consistent(after) && !ReleaseKeysFresh(after, order)
        && Balance(after.entries, VENDOR_PENDING_ESCROW) == Balance(db.entries, VENDOR_PENDING_ESCROW) - amount
        && Balance(after.entries, ADMIN_REVENUE) == Balance(db.entries, ADMIN_REVENUE) + AdminShare(amount, rate)
        && Balance(after.entries, VENDOR_WALLET) == Balance(db.entries, VENDOR_WALLET) + amount - AdminShare(amount, rate)
      else after == db
  {
    var reqs := ReleaseRequests(order, amount, rate);
    ReleaseCommitsExactly(db, order, amount, rate);
    if ValidRate(rate) && MultiCommits(db, reqs) {
      var payload := MultiPayload(db.nextTx, reqs);
      AfterKeepsConsistent(db, Multi(reqs), tbOn);
      BalanceAfterCommit(db, reqs, payload, tbOn, VENDOR_PENDING_ESCROW);
      BalanceAfterCommit(db, reqs, payload, tbOn, ADMIN_REVENUE);
      BalanceAfterCommit(db, reqs, payload, tbOn, VENDOR_WALLET);
      ReleaseMoves(order, amount, rate);
      assert reqs[0] in reqs;
    }
  }

  // At a commission of nothing or of everything no amount can ever be released.
  lemma {:induction false} ExtremeRatesNeverRelease(db: Db, order: string, amount: int, rate: real, tbOn: bool)
    requires Consistent(db) && (rate == 0.0 || rate == 100.0)
    ensures ReleaseAfter(db, order, amount, rate, tbOn) == db
  {
    assert !BothLegsCount(amount, rate) by {
      assert amount as real * 0.0 == 0.0;
    }
    ReleaseIsAllOrNothing(db, order, amount, rate, tbOn);
  }

  // ----- One order from hold to payout -----

  lemma {:induction false} SingleMoves(db: Db, r: Request, tbOn: bool, account: Account)
    requires Consistent(db) && ValidateSingle(r).None? && r.idempotencyKey != "" && r.idempotencyKey !in db.reserved
    ensures var after := SingleAfter(db, r, tbOn);
      && Consistent(after) && after.reserved == db.reserved + {r.idempotencyKey}
      && Balance(after.entries, account) == Balance(db.entries, account) + Moved(r, account)
  {
    SingleCommitsExactly(db, r);
    AfterKeepsConsistent(db, Single(r), tbOn);
    BalanceAfterCommit(db, [r], SinglePayload(db.nextTx, r), tbOn, account);
    MovedByOne(r, account);
  }

  // Holding an amount and releasing it leaves the pending escrow as it was.
  lemma {:induction false} HoldThenReleaseCancelsOut(db: Db, order: string, amount: int, rate: real, tbOn: bool)
    requires Consistent(db) && amount > 0 && "escrow_hold_" + order !in db.reserved
    requires ValidRate(rate) && BothLegsCount(amount, rate) && ReleaseKeysFresh(db, order)
    ensures var held := SingleAfter(db, MoveRequest(order, amount), tbOn);
      var released := ReleaseAfter(held, order, amount, rate, tbOn);
      && Balance(held.entries, VENDOR_PENDING_ESCROW) == Balance(db.entries, VENDOR_PENDING_ESCROW) + amount
      && Balance(released.entries, VENDOR_PENDING_ESCROW) == Balance(db.entries, VENDOR_PENDING_ESCROW)
  {
    AccountsDiffer();
    KeysDiffer(order);
    var held := SingleAfter(db, MoveRequest(order, amount), tbOn);
    SingleMoves(db, MoveRequest(order, amount), tbOn, VENDOR_PENDING_ESCROW);
    ReleaseIsAllOrNothing(held, order, amount, rate, tbOn);
  }

  // Nothing ties the refund to the release. The pending escrow pays the amount once for each of
  // the two that commits: twice exactly when the release would commit and the refund key is fresh.
  lemma {:induction false} ReleaseThenReversePaysTwiceExactly(db: Db, order: string, amount: int, rate: real, tbOn: bool)
    requires Consistent(db) && amount > 0
    ensures var released := ReleaseAfter(db, order, amount, rate, tbOn);
      var reversed := SingleAfter(released, ReverseRequest(order, amount), tbOn);
      var paid := Balance(db.entries, VENDOR_PENDING_ESCROW) - Balance(reversed.entries, VENDOR_PENDING_ESCROW);
      && paid == amount * ((if ReleaseCommits(db, order, amount, rate) then 1 else 0)
                         + (if "refund_" + order !in db.reserved then 1 else 0))
      && (paid == 2 * amount <==>
            ValidRate(rate) && BothLegsCount(amount, rate) && ReleaseKeysFresh(db, order) && "refund_" + order !in db.reserved)
  {
    AccountsDiffer();
    ReleaseIsAllOrNothing(db, order, amount, rate, tbOn);
    ReleaseKeepsRefundKey(db, order, amount, rate, tbOn);
    var released := ReleaseAfter(db, order, amount, rate, tbOn);
    if "refund_" + order !in db.reserved {
      SingleMoves(released, ReverseRequest(order, amount), tbOn, VENDOR_PENDING_ESCROW);
    } else {
      SingleCommitsExactly(released, ReverseRequest(order, amount));
    }
  }

  ghost predicate ReleaseCommits(db: Db, order: string, amount: int, rate: real) {
    ValidRate(rate) && BothLegsCount(amount, rate) && ReleaseKeysFresh(db, order)
  }

  lemma {:induction false} ReleaseKeepsRefundKey(db: Db, order: string, amount: int, rate: real, tbOn: bool)
    requires Consistent(db)
    ensures var released := ReleaseAfter(db, order, amount, rate, tbOn);
      Consistent(released) && ("refund_" + order in released.reserved <==> "refund_" + order in db.reserved)
  {
    KeysDiffer(order);
    var reqs := ReleaseRequests(order, amount, rate);
    AfterKeepsConsistent(db, Multi(reqs), tbOn);
    if ValidRate(rate) && MultiCommits(db, reqs) {
      assert ReleaseAfter(db, order, amount, rate, tbOn).reserved == db.reserved + KeysOf(reqs);
    }
  }
}
