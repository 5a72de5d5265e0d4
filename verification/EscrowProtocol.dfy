// Every interleaving of release workers, crashes, freezes, unfreezes, cancellations, extensions
// and refunds over the escrow tables and the ledger.
//
// A release worker runs as two commits: the ledger transfer commits in its own transaction while
// the claim still holds the row lock, then hold, order and wallet commit together. Updates wait for
// a locked row. A refund holds no lock: it reads its hold, pays in the ledger and commits in three
// steps, between which anything may happen to the hold.
module EscrowProtocol {
  import opened Ledger
  import opened LedgerLaws
  import opened Escrow

  // ----- The transition system -----

  datatype Worker = Idle | Claimed(hold: nat) | Cleared(hold: nat) | Paid(hold: nat)

  // A refund in progress: what it has read, and whether its ledger transfer has been answered.
  datatype Refunder = NoRefund | Planned(p: Plan) | Transferred(p: Plan)

  // The history of committed wallet credits.
  datatype Credit =
    | VendorCredit(hold: nat, vendor: string, amount: int)
    | CustomerCredit(hold: nat, customer: string, amount: int)

  // What writers other than the release job and the refunds of holds have moved into the wallets.
  datatype Moves = Moves(vendors: map<string, int>, customers: map<string, int>)

  // others is the net amount that ledger calls other than release transfers have moved into the
  // withdrawable account.
  datatype Sys = Sys(
    t: Tables, workers: seq<Worker>, refunders: seq<Refunder>, log: seq<Credit>, others: int, moves: Moves)

  datatype Step =
    // release workers
    | Claim(w: nat, i: nat, now: int)
    | Check(w: nat, now: int)
    | Pay(w: nat)
    | Finish(w: nat)
    | Crash(w: nat)
    // refunds
    | ReadDisputeRefund(r: nat, i: nat, disputeId: string)
    | ReadReturnRefund(r: nat, i: nat, amount: int)
    | PayRefund(r: nat)
    | CommitRefund(r: nat)
    | CrashRefund(r: nat)
    // other escrow operations
    | CreateHold(h: Hold)
    | FreezeForDispute(order: string, disputeId: string)
    | UnfreezeOnRejection(disputeId: string)
    | CancelForOrder(order: string)
    | ExtendHoldUntil(order: string, until: int)
    // the admin's resolution of a dispute or manual refund, guarded by the hold's status
    | AdminRefund(i: nat, customer: string, amount: int)
    | AdminUnfreeze(order: string)
    // the rest of the platform
    | OtherLedgerCall(call: Call)
    | Payout(vendor: string, amount: int)
    | CustomerMove(customer: string, amount: int)
    | World(orders: map<string, Order>, disputes: seq<Dispute>, codDebts: seq<CodDebt>)

  predicate Locks(worker: Worker, i: nat) {
    !worker.Idle? && worker.hold == i
  }

  ghost predicate Locked(s: Sys, i: nat) {
    exists w :: 0 <= w < |s.workers| && Locks(s.workers[w], i)
  }

  ghost predicate HasPrefix(s: string, prefix: string) {
    |prefix| <= |s| && s[..|prefix|] == prefix
  }

  // Only the release job uses release keys.
  ghost predicate Foreign(r: Request) {
    !HasPrefix(r.idempotencyKey, RELEASE_PREFIX)
  }

  ghost predicate ForeignCall(call: Call) {
    match call
    case Single(r) => Foreign(r)
    case Multi(reqs) => forall i :: 0 <= i < |reqs| ==> Foreign(reqs[i])
  }

  // An update waits until no release worker has a row it changes.
  ghost predicate Unlocked(s: Sys, after: seq<Hold>)
    requires |after| == |s.t.holds|
  {
    forall i :: 0 <= i < |s.t.holds| && after[i] != s.t.holds[i] ==> !Locked(s, i)
  }

  // One hold per order, with a fresh id.
  ghost predicate MayCreate(t: Tables, h: Hold) {
    && h.status == Held
    && forall i :: 0 <= i < |t.holds| ==> t.holds[i].id != h.id && t.holds[i].order != h.order
  }

  // The rest of the platform leaves escrow_released alone.
  ghost predicate KeepsFlags(before: map<string, Order>, after: map<string, Order>) {
    forall o :: o in after && after[o].escrowReleased ==> o in before && before[o].escrowReleased
  }

  ghost predicate Enabled(s: Sys, step: Step) {
    match step
    case Claim(w, i, now) =>
      w < |s.workers| && s.workers[w].Idle? && i < |s.t.holds| && Expired(s.t.holds[i], now) && !Locked(s, i)
    case Check(w, _) => w < |s.workers| && s.workers[w].Claimed? && s.workers[w].hold < |s.t.holds|
    case Pay(w) => w < |s.workers| && s.workers[w].Cleared? && s.workers[w].hold < |s.t.holds|
    case Finish(w) => w < |s.workers| && s.workers[w].Paid? && s.workers[w].hold < |s.t.holds|
    case Crash(w) => w < |s.workers|
    case CreateHold(h) => MayCreate(s.t, h)
    case FreezeForDispute(order, d) => Unlocked(s, Freeze(s.t, order, d).holds)
    case UnfreezeOnRejection(d) => Unlocked(s, Unfreeze(s.t, d).holds)
    case CancelForOrder(order) => Unlocked(s, Cancel(s.t, order).holds)
    case ExtendHoldUntil(order, until) => Unlocked(s, Extend(s.t, order, until).holds)
    case AdminRefund(i, _, _) => i < |s.t.holds| && s.t.holds[i].status in {Held, Disputed} && !Locked(s, i)
    case AdminUnfreeze(order) => Unlocked(s, UnfreezeOrder(s.t, order).holds)
    case ReadDisputeRefund(r, i, d) =>
      r < |s.refunders| && s.refunders[r].NoRefund? && i < |s.t.holds| && PlanDisputeRefund(s.t, i, d).Some?
    case ReadReturnRefund(r, i, amount) =>
      r < |s.refunders| && s.refunders[r].NoRefund? && i < |s.t.holds| && PlanReturnRefund(s.t, i, amount).Some?
    case PayRefund(r) => r < |s.refunders| && s.refunders[r].Planned?
    case CommitRefund(r) =>
      r < |s.refunders| && s.refunders[r].Transferred? && s.refunders[r].p.hold < |s.t.holds| && !Locked(s, s.refunders[r].p.hold)
    case CrashRefund(r) => r < |s.refunders|
    case OtherLedgerCall(call) => ForeignCall(call)
    case Payout(vendor, _) => vendor in s.t.vendorWallets
    case CustomerMove(_, _) => true
    case World(orders, _, _) => KeepsFlags(s.t.orders, orders)
  }

  // Any ledger call but a release transfer.
  ghost function OtherCall(s: Sys, call: Call): Sys {
    s.(t := s.t.(ledger := After(s.t.ledger, call, true)),
       others := s.others + CallMoves(s.t.ledger, call, VENDOR_WITHDRAWABLE))
  }

  ghost function SetRefunder(s: Sys, r: nat, refunder: Refunder): Sys
    requires r < |s.refunders|
  {
    s.(refunders := s.refunders[r := refunder])
  }

  // The final commit of a refund: its update of the hold is by id, with no status guard.
  ghost function Refunding(s: Sys, p: Plan): Sys
    requires p.hold < |s.t.holds|
  {
    s.(t := MarkRefunded(s.t, p), log := s.log + [CustomerCredit(p.hold, p.customer, p.amount)])
  }

  ghost function AdminRefunding(s: Sys, i: nat, customer: string, amount: int): Sys
    requires i < |s.t.holds|
  {
    s.(t := s.t.(holds := SetStatus(s.t.holds, i, Refunded), customerWallets := CreditCustomer(s.t.customerWallets, customer, amount)),
       log := s.log + [CustomerCredit(i, customer, amount)])
  }

  ghost function Next(s: Sys, step: Step): Sys
    requires Enabled(s, step)
  {
    match step
    case Claim(w, i, now) => s.(workers := s.workers[w := Claimed(i)])
    case Check(w, now) =>
      var i := s.workers[w].hold;
      s.(workers := s.workers[w := if Gate(s.t, i, now) == Pass then Cleared(i) else Idle])
    case Pay(w) =>
      var i := s.workers[w].hold;
      var r := ReleaseRequest(s.t.holds[i]);
      if Succeeds(s.t.ledger, r)
      then s.(t := PayLedger(s.t, r, true), workers := s.workers[w := Paid(i)])
      else s.(workers := s.workers[w := Idle])
    case Finish(w) =>
      var i := s.workers[w].hold;
      s.(t := MarkReleased(s.t, i), workers := s.workers[w := Idle],
         log := s.log + [VendorCredit(i, s.t.holds[i].vendor, s.t.holds[i].amountPaisa)])
    case Crash(w) => s.(workers := s.workers[w := Idle])
    case CreateHold(h) => s.(t := s.t.(holds := s.t.holds + [h]))
    case FreezeForDispute(order, d) => s.(t := Freeze(s.t, order, d))
    case UnfreezeOnRejection(d) => s.(t := Unfreeze(s.t, d))
    case CancelForOrder(order) => s.(t := Cancel(s.t, order))
    case ExtendHoldUntil(order, until) => s.(t := Extend(s.t, order, until))
    case AdminRefund(i, customer, amount) => AdminRefunding(s, i, customer, amount)
    case AdminUnfreeze(order) => s.(t := UnfreezeOrder(s.t, order))
    case ReadDisputeRefund(r, i, d) => SetRefunder(s, r, Planned(PlanDisputeRefund(s.t, i, d).value))
    case ReadReturnRefund(r, i, amount) => SetRefunder(s, r, Planned(PlanReturnRefund(s.t, i, amount).value))
    case PayRefund(r) =>
      var p := s.refunders[r].p;
      SetRefunder(OtherCall(s, Single(p.request)), r, if Succeeds(s.t.ledger, p.request) then Transferred(p) else NoRefund)
    case CommitRefund(r) => SetRefunder(Refunding(s, s.refunders[r].p), r, NoRefund)
    case CrashRefund(r) => SetRefunder(s, r, NoRefund)
    case OtherLedgerCall(call) => OtherCall(s, call)
    case Payout(vendor, amount) =>
      var wallet := s.t.vendorWallets[vendor];
      s.(t := s.t.(vendorWallets := s.t.vendorWallets[vendor := wallet.(balance := wallet.balance - amount)]),
         moves := s.moves.(vendors := s.moves.vendors[vendor := AmountOf(s.moves.vendors, vendor) - amount]))
    case CustomerMove(customer, amount) =>
      s.(t := s.t.(customerWallets := CreditCustomer(s.t.customerWallets, customer, amount)),
         moves := s.moves.(customers := s.moves.customers[customer := AmountOf(s.moves.customers, customer) + amount]))
    case World(orders, disputes, debts) => s.(t := s.t.(orders := orders, disputes := disputes, codDebts := debts))
  }

  // A step that is not enabled is skipped, so every sequence of steps is a run.
  ghost function Exec(s: Sys, steps: seq<Step>): Sys {
    if steps == [] then s
    else
      var mid, last := Exec(s, steps[..|steps| - 1]), steps[|steps| - 1];
      if Enabled(mid, last) then Next(mid, last) else mid
  }

  ghost predicate Initial(s: Sys) {
    && s.t.holds == [] && s.log == [] && s.t.ledger == EMPTY_DB && s.others == 0
    && s.t.vendorWallets == map[] && s.t.customerWallets == map[] && s.moves == Moves(map[], map[])
    && (forall o :: o in s.t.orders ==> !s.t.orders[o].escrowReleased)
    && (forall w :: 0 <= w < |s.workers| ==> s.workers[w].Idle?)
    && (forall r :: 0 <= r < |s.refunders| ==> s.refunders[r].NoRefund?)
  }

  // ----- Sums -----

  function Keyed(h: Hold, reserved: set<string>): bool {
    ReleaseKey(h.id) in reserved
  }

  ghost function SumKeyed(holds: seq<Hold>, reserved: set<string>): int {
    if holds == [] then 0
    else
      var last := holds[|holds| - 1];
      SumKeyed(holds[..|holds| - 1], reserved) + if Keyed(last, reserved) then last.amountPaisa else 0
  }

  ghost function VendorCredits(log: seq<Credit>, i: nat): nat {
    if log == [] then 0
    else VendorCredits(log[..|log| - 1], i) + if log[|log| - 1].VendorCredit? && log[|log| - 1].hold == i then 1 else 0
  }

  ghost function CustomerCredits(log: seq<Credit>, i: nat): nat {
    if log == [] then 0
    else CustomerCredits(log[..|log| - 1], i) + if log[|log| - 1].CustomerCredit? && log[|log| - 1].hold == i then 1 else 0
  }

  // Holds whose ledger transfer has committed but whose final commit has not.
  ghost function SumGap(holds: seq<Hold>, reserved: set<string>, log: seq<Credit>): int {
    if holds == [] then 0
    else
      var n := |holds| - 1;
      SumGap(holds[..n], reserved, log) + if Keyed(holds[n], reserved) && VendorCredits(log, n) == 0 then holds[n].amountPaisa else 0
  }

  ghost function SumCredited(holds: seq<Hold>, log: seq<Credit>): int {
    if holds == [] then 0
    else
      var n := |holds| - 1;
      SumCredited(holds[..n], log) + if VendorCredits(log, n) > 0 then holds[n].amountPaisa else 0
  }

  ghost function CreditedToVendor(log: seq<Credit>, vendor: string): int {
    if log == [] then 0
    else
      var last := log[|log| - 1];
      CreditedToVendor(log[..|log| - 1], vendor) + if last.VendorCredit? && last.vendor == vendor then last.amount else 0
  }

  ghost function CreditedToCustomer(log: seq<Credit>, customer: string): int {
    if log == [] then 0
    else
      var last := log[|log| - 1];
      CreditedToCustomer(log[..|log| - 1], customer) + if last.CustomerCredit? && last.customer == customer then last.amount else 0
  }

  ghost function CreditedToVendors(log: seq<Credit>): int {
    if log == [] then 0
    else CreditedToVendors(log[..|log| - 1]) + if log[|log| - 1].VendorCredit? then log[|log| - 1].amount else 0
  }

  function Lifetime(wallets: map<string, VendorWallet>, vendor: string): int {
    if vendor in wallets then wallets[vendor].lifetime else 0
  }

  function VendorBalance(wallets: map<string, VendorWallet>, vendor: string): int {
    if vendor in wallets then wallets[vendor].balance else 0
  }

  function AmountOf(amounts: map<string, int>, who: string): int {
    if who in amounts then amounts[who] else 0
  }

  // ----- The invariant -----

  ghost predicate DistinctHolds(holds: seq<Hold>) {
    forall i, j :: 0 <= i < j < |holds| ==> holds[i].id != holds[j].id && holds[i].order != holds[j].order
  }

  ghost predicate LocksOk(s: Sys) {
    && (forall w :: 0 <= w < |s.workers| && !s.workers[w].Idle? ==>
          s.workers[w].hold < |s.t.holds| && s.t.holds[s.workers[w].hold].status == Held)
    && (forall v, w :: 0 <= v < w < |s.workers| && !s.workers[v].Idle? && !s.workers[w].Idle? ==>
          s.workers[v].hold != s.workers[w].hold)
    && (forall w :: 0 <= w < |s.workers| && s.workers[w].Paid? ==>
          Keyed(s.t.holds[s.workers[w].hold], s.t.ledger.reserved))
  }

  ghost predicate CreditedKeyed(holds: seq<Hold>, log: seq<Credit>, reserved: set<string>) {
    forall i: nat :: i < |holds| && VendorCredits(log, i) > 0 ==> Keyed(holds[i], reserved)
  }

  // The release rows of a keyed hold move exactly its amount to the withdrawable account.
  ghost predicate LegsOk(holds: seq<Hold>, entries: seq<Entry>) {
    forall i, k :: 0 <= i < |holds| && 0 <= k < |entries| && entries[k].idempotencyKey == ReleaseKey(holds[i].id) + CREDIT ==>
      entries[k].account == VENDOR_WITHDRAWABLE && entries[k].amount == holds[i].amountPaisa
  }

  // What a hold's status says about its credits, stale refunds included: the vendor is credited at
  // most once, and always when the hold is released; the customer is credited if and only if it is
  // refunded.
  ghost predicate CreditOk(status: Status, vendor: nat, customer: nat) {
    && vendor <= 1
    && (status == Released ==> vendor == 1)
    && (vendor == 1 ==> status in {Released, Refunded})
    && (customer > 0 <==> status == Refunded)
  }

  ghost predicate CreditsOk(holds: seq<Hold>, log: seq<Credit>) {
    && (forall k :: 0 <= k < |log| ==> log[k].hold < |holds|)
    && (forall i: nat :: i < |holds| ==> CreditOk(holds[i].status, VendorCredits(log, i), CustomerCredits(log, i)))
    && CreditedToVendors(log) == SumCredited(holds, log)
  }

  // The vendor is credited exactly once if the hold is released and never otherwise, the customer
  // exactly once if it is refunded and never otherwise.
  ghost predicate OnceOk(status: Status, vendor: nat, customer: nat) {
    vendor == (if status == Released then 1 else 0) && customer == (if status == Refunded then 1 else 0)
  }

  ghost predicate ExactlyOnce(holds: seq<Hold>, log: seq<Credit>) {
    forall i: nat :: i < |holds| ==> OnceOk(holds[i].status, VendorCredits(log, i), CustomerCredits(log, i))
  }

  ghost predicate Exact(s: Sys) {
    ExactlyOnce(s.t.holds, s.log)
  }

  ghost predicate WalletsOk(t: Tables, log: seq<Credit>, moves: Moves) {
    && (forall v :: Lifetime(t.vendorWallets, v) == CreditedToVendor(log, v))
    && (forall v :: VendorBalance(t.vendorWallets, v) == CreditedToVendor(log, v) + AmountOf(moves.vendors, v))
    && (forall c :: AmountOf(t.customerWallets, c) == CreditedToCustomer(log, c) + AmountOf(moves.customers, c))
  }

  ghost predicate FlagsOk(t: Tables) {
    forall i :: 0 <= i < |t.holds| && t.holds[i].order in t.orders && t.orders[t.holds[i].order].escrowReleased ==>
      t.holds[i].status in {Released, Refunded}
  }

  ghost predicate NoPaidOut(holds: seq<Hold>) {
    forall i :: 0 <= i < |holds| ==> holds[i].status != PaidOut
  }

  ghost predicate LedgerOk(t: Tables, others: int) {
    && Consistent(t.ledger)
    && Balance(t.ledger.entries, VENDOR_WITHDRAWABLE) == SumKeyed(t.holds, t.ledger.reserved) + others
  }

  ghost predicate RefundersOk(refunders: seq<Refunder>, holds: seq<Hold>) {
    forall r :: 0 <= r < |refunders| && !refunders[r].NoRefund? ==>
      refunders[r].p.hold < |holds| && Foreign(refunders[r].p.request)
  }

  ghost predicate Core(s: Sys) {
    && DistinctHolds(s.t.holds)
    && NoPaidOut(s.t.holds)
    && LocksOk(s)
    && RefundersOk(s.refunders, s.t.holds)
    && CreditedKeyed(s.t.holds, s.log, s.t.ledger.reserved)
    && LegsOk(s.t.holds, s.t.ledger.entries)
    && CreditsOk(s.t.holds, s.log)
    && WalletsOk(s.t, s.log, s.moves)
    && FlagsOk(s.t)
    && LedgerOk(s.t, s.others)
  }

  ghost predicate IsHoldKey(holds: seq<Hold>, key: string) {
    exists i :: 0 <= i < |holds| && ReleaseKey(holds[i].id) == key
  }

  ghost predicate HasHold(holds: seq<Hold>, order: string) {
    exists i :: 0 <= i < |holds| && holds[i].order == order
  }

  // Used release keys and released orders come from holds.
  ghost predicate Origins(t: Tables) {
    && (forall key :: key in t.ledger.reserved && HasPrefix(key, RELEASE_PREFIX) ==> IsHoldKey(t.holds, key))
    && (forall o :: o in t.orders && t.orders[o].escrowReleased ==> HasHold(t.holds, o))
  }

  ghost predicate Inv(s: Sys) {
    Core(s) && Origins(s.t)
  }
}
