// The escrow tables and what each operation of the escrow service does to them.
module Escrow {
  import opened Wrappers
  import opened Ledger

  // ----- Tables -----

  // 'releasing' is written only inside a transaction that later commits 'held' or 'released', so
  // no other transaction ever sees it.
  datatype Status = Held | Disputed | Released | Refunded | Cancelled | PaidOut

  datatype Hold = Hold(
    id: string, order: string, vendor: string, amountPaisa: int, status: Status,
    holdUntil: int, createdAt: int, disputeId: Option<string>)

  // Columns read through COALESCE hold the default already.
  datatype Order = Order(
    customer: string, gateway: string, paymentStatus: string, disputeStatus: string, status: string,
    escrowReleased: bool)

  datatype Dispute = Dispute(order: string, status: string)

  // In created_at order.
  datatype CodDebt = CodDebt(order: string, status: string)

  datatype VendorWallet = VendorWallet(balance: int, lifetime: int)

  datatype Tables = Tables(
    holds: seq<Hold>, orders: map<string, Order>, disputes: seq<Dispute>, codDebts: seq<CodDebt>,
    vendorWallets: map<string, VendorWallet>, customerWallets: map<string, int>, ledger: Db)

  const RELEASE_PREFIX := "escrow:release:"
  const DISPUTE_REFUND_PREFIX := "escrow:refund:"
  const RETURN_REFUND_PREFIX := "return:refund:"
  const STALE_COD_SECONDS := 72 * 3600

  const OPEN_DISPUTE_STATUSES: set<string> := {"open", "investigating", "pending", "under_review"}

  function ReleaseKey(id: string): string {
    RELEASE_PREFIX + id
  }

  // ----- Comparing status strings -----

  // strings.EqualFold against an ASCII word: besides the other case, the Kelvin sign folds to k and
  // the long s to s.
  function LowerChar(c: char): char {
    if 'A' <= c <= 'Z' then c + 32 as char
    else if c == '\U{212A}' then 'k'
    else if c == '\U{017F}' then 's'
    else c
  }

  predicate EqualFold(a: string, b: string) {
    |a| == |b| && forall i :: 0 <= i < |a| ==> LowerChar(a[i]) == LowerChar(b[i])
  }

  // ----- The release gates -----

  predicate HasOpenDispute(disputes: seq<Dispute>, order: string) {
    exists i :: 0 <= i < |disputes| && disputes[i].order == order && disputes[i].status in OPEN_DISPUTE_STATUSES
  }

  // SELECT status FROM cod_debts WHERE order = $1 ORDER BY created_at DESC LIMIT 1.
  function LatestDebt(debts: seq<CodDebt>, order: string): Option<string> {
    if debts == [] then None
    else if debts[|debts| - 1].order == order then Some(debts[|debts| - 1].status)
    else LatestDebt(debts[..|debts| - 1], order)
  }

  // Pass goes on to the ledger; PutBack commits the hold as 'held' and returns nil; GiveUp rolls
  // the claim back, returning nil or an error.
  datatype Verdict = Pass | PutBack | GiveUp(isError: bool)

  predicate DisputeStatusBlocks(status: string) {
    status != "NONE" && status != "" && !EqualFold(status, "resolved")
  }

  // The checks of processHoldTx in order. A COD order without a debt record passes none of them,
  // however old the hold: the stale case falls into the rollback that follows it.
  function Gate(t: Tables, i: nat, now: int): Verdict
    requires i < |t.holds|
  {
    var h := t.holds[i];
    if h.order !in t.orders then GiveUp(false)
    else
      var o := t.orders[h.order];
      if o.escrowReleased then GiveUp(false)
      else if HasOpenDispute(t.disputes, h.order) || DisputeStatusBlocks(o.disputeStatus) then PutBack
      else if !EqualFold(o.status, "delivered") && !EqualFold(o.status, "completed") then PutBack
      else if EqualFold(o.gateway, "cod") then
        match LatestDebt(t.codDebts, h.order)
        case None => if now - h.createdAt > STALE_COD_SECONDS then GiveUp(true) else PutBack
        case Some(status) => if EqualFold(status, "settled") then Pass else PutBack
      else if o.paymentStatus != "" && !EqualFold(o.paymentStatus, "paid") then PutBack
      else Pass
  }

  // ----- Release -----

  predicate Expired(h: Hold, now: int) {
    h.status == Held && h.holdUntil <= now
  }

  function ReleaseRequest(h: Hold): Request {
    Request(VENDOR_LOCKED_ESCROW, VENDOR_WITHDRAWABLE, h.amountPaisa, "", "escrow_release", h.order, ReleaseKey(h.id))
  }

  // A transfer is answered with a transaction id rather than an error.
  ghost predicate Succeeds(db: Db, r: Request) {
    && ValidateSingle(r).None?
    && if r.idempotencyKey != "" && r.idempotencyKey in db.reserved
       then exists i :: 0 <= i < |db.entries| && db.entries[i].idempotencyKey in {r.idempotencyKey, r.idempotencyKey + DEBIT}
       else SingleCommits(db, r)
  }

  function CreditVendor(wallets: map<string, VendorWallet>, vendor: string, amount: int): map<string, VendorWallet> {
    if vendor in wallets
    then wallets[vendor := VendorWallet(wallets[vendor].balance + amount, wallets[vendor].lifetime + amount)]
    else wallets[vendor := VendorWallet(amount, amount)]
  }

  function CreditCustomer(wallets: map<string, int>, customer: string, amount: int): map<string, int> {
    wallets[customer := (if customer in wallets then wallets[customer] else 0) + amount]
  }

  function SetStatus(holds: seq<Hold>, i: nat, status: Status): seq<Hold>
    requires i < |holds|
  {
    holds[i := holds[i].(status := status)]
  }

  // The final commit of a release: hold, order and wallet together.
  function MarkReleased(t: Tables, i: nat): Tables
    requires i < |t.holds|
  {
    var h := t.holds[i];
    t.(holds := SetStatus(t.holds, i, Released),
       orders := if h.order in t.orders then t.orders[h.order := t.orders[h.order].(escrowReleased := true)] else t.orders,
       vendorWallets := CreditVendor(t.vendorWallets, h.vendor, h.amountPaisa))
  }

  ghost function PayLedger(t: Tables, r: Request, tbOn: bool): Tables {
    t.(ledger := SingleAfter(t.ledger, r, tbOn))
  }

  // Where the process dies: nowhere, or between the ledger's commit and the final one.
  datatype CrashPoint = NoCrash | AfterLedger

  // processHoldTx on a claimed hold.
  ghost function ProcessHold(t: Tables, i: nat, now: int, crash: CrashPoint, tbOn: bool): Tables
    requires i < |t.holds|
  {
    if Gate(t, i, now) != Pass || !Succeeds(t.ledger, ReleaseRequest(t.holds[i])) then t
    else
      var paid := PayLedger(t, ReleaseRequest(t.holds[i]), tbOn);
      if crash == AfterLedger then paid else MarkReleased(paid, i)
  }

  // ----- Guarded status updates -----

  function FreezeRow(h: Hold, order: string, disputeId: string): Hold {
    if h.order == order && h.status in {Held, PaidOut} then h.(status := Disputed, disputeId := Some(disputeId)) else h
  }

  function UnfreezeRow(h: Hold, disputeId: string): Hold {
    if h.disputeId == Some(disputeId) && h.status == Disputed then h.(status := Held, disputeId := None) else h
  }

  // The admin's version, by order.
  function UnfreezeOrderRow(h: Hold, order: string): Hold {
    if h.order == order && h.status == Disputed then h.(status := Held, disputeId := None) else h
  }

  function CancelRow(h: Hold, order: string): Hold {
    if h.order == order && h.status in {Held, PaidOut} then h.(status := Cancelled) else h
  }

  function ExtendRow(h: Hold, order: string, until: int): Hold {
    if h.order == order && h.status == Held then h.(holdUntil := until) else h
  }

  function MapRows(holds: seq<Hold>, f: Hold -> Hold): (rows: seq<Hold>)
    ensures |rows| == |holds| && forall i :: 0 <= i < |holds| ==> rows[i] == f(holds[i])
  {
    seq(|holds|, i requires 0 <= i < |holds| => f(holds[i]))
  }

  function Freeze(t: Tables, order: string, disputeId: string): Tables {
    t.(holds := MapRows(t.holds, h => FreezeRow(h, order, disputeId)))
  }

  function Unfreeze(t: Tables, disputeId: string): Tables {
    t.(holds := MapRows(t.holds, h => UnfreezeRow(h, disputeId)))
  }

  function UnfreezeOrder(t: Tables, order: string): Tables {
    t.(holds := MapRows(t.holds, h => UnfreezeOrderRow(h, order)))
  }

  function Cancel(t: Tables, order: string): Tables {
    t.(holds := MapRows(t.holds, h => CancelRow(h, order)))
  }

  function Extend(t: Tables, order: string, until: int): Tables {
    t.(holds := MapRows(t.holds, h => ExtendRow(h, order, until)))
  }

  // ----- Refunds -----

  // The refunds scan the column amount, NUMERIC rupees, into an int64: the scan fails unless the
  // hold is a whole number of rupees, and the number it yields is then used as paisa.
  function AmountColumn(h: Hold): Option<int> {
    if h.amountPaisa % 100 == 0 then Some(h.amountPaisa / 100) else None
  }

  // What a refund has read before it moves money.
  datatype Plan = Plan(hold: nat, customer: string, amount: int, request: Request, cancelsDebts: bool)

  function RefundRequest(amount: int, kind: string, order: string, key: string): Request {
    Request(VENDOR_LOCKED_ESCROW, CUSTOMER_WALLET, amount, "PKR", kind, order, key)
  }

  function PlanDisputeRefund(t: Tables, i: nat, disputeId: string): Option<Plan>
    requires i < |t.holds|
  {
    var h := t.holds[i];
    if h.disputeId == Some(disputeId) && h.status == Disputed && AmountColumn(h).Some? && h.order in t.orders then
      Some(Plan(i, t.orders[h.order].customer, AmountColumn(h).value,
                RefundRequest(AmountColumn(h).value, "dispute_refund", h.order, DISPUTE_REFUND_PREFIX + disputeId), false))
    else None
  }

  // amount 0 asks for the whole hold.
  function PlanReturnRefund(t: Tables, i: nat, amount: int): Option<Plan>
    requires i < |t.holds|
  {
    var h := t.holds[i];
    if h.status in {Held, Disputed} && AmountColumn(h).Some? && h.order in t.orders then
      var refund := if amount == 0 then AmountColumn(h).value else amount;
      Some(Plan(i, t.orders[h.order].customer, refund,
                RefundRequest(refund, "return_refund", h.order, RETURN_REFUND_PREFIX + h.order), true))
    else None
  }

  function CancelDebts(debts: seq<CodDebt>, order: string): seq<CodDebt> {
    seq(|debts|, i requires 0 <= i < |debts| =>
      if debts[i].order == order && debts[i].status != "cancelled" then debts[i].(status := "cancelled") else debts[i])
  }

  // The final commit of a refund. The update of the hold is by id alone: no status guard.
  function MarkRefunded(t: Tables, p: Plan): Tables
    requires p.hold < |t.holds|
  {
    var order := t.holds[p.hold].order;
    t.(holds := SetStatus(t.holds, p.hold, Refunded),
       customerWallets := CreditCustomer(t.customerWallets, p.customer, p.amount),
       orders := if order in t.orders then t.orders[order := t.orders[order].(paymentStatus := "refunded")] else t.orders,
       codDebts := if p.cancelsDebts then CancelDebts(t.codDebts, order) else t.codDebts)
  }

  ghost function RunPlan(t: Tables, p: Plan, crash: CrashPoint, tbOn: bool): Tables
    requires p.hold < |t.holds|
  {
    if !Succeeds(t.ledger, p.request) then t
    else
      var paid := PayLedger(t, p.request, tbOn);
      if crash == AfterLedger then paid else MarkRefunded(paid, p)
  }
}
