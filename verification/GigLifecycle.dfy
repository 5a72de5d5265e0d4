// Delivery gigs: creation, acceptance, status updates, cancellation and the rider's payment.
module GigLifecycle {
  import opened Wrappers

  // ----- Tables -----

  datatype Status = Broadcasting | Accepted | PickedUp | InTransit | Completed | Failed | Cancelled

  datatype Gig = Gig(id: string, order: string, status: Status, rider: Option<string>, isCod: bool, hasPickup: bool)

  datatype Order = Order(status: string, paymentStatus: string, rider: Option<string>, otp: string)

  datatype Wallet = Wallet(balance: int, lifetime: int, cashInHand: int, cashBlocked: bool)

  // riders holds is_verified of the riders that have a user row.
  datatype Db = Db(gigs: seq<Gig>, orders: map<string, Order>, wallets: map<string, Wallet>, riders: map<string, bool>)

  function Transitions(status: Status): set<Status> {
    match status
    case Broadcasting => {Accepted}
    case Accepted => {PickedUp, Failed, Broadcasting}
    case PickedUp => {InTransit, Failed}
    case InTransit => {Completed, Failed}
    case _ => {}
  }

  function FindGig(gigs: seq<Gig>, id: string): (row: Option<nat>)
    ensures row.None? ==> forall i :: 0 <= i < |gigs| ==> gigs[i].id != id
    ensures row.Some? ==> row.value < |gigs| && gigs[row.value].id == id
  {
    if gigs == [] then None
    else if gigs[|gigs| - 1].id == id then Some(|gigs| - 1)
    else FindGig(gigs[..|gigs| - 1], id)
  }

  // NOT IN ('cancelled', 'completed').
  predicate Active(g: Gig, order: string) {
    g.order == order && g.status !in {Cancelled, Completed}
  }

  predicate HasActive(gigs: seq<Gig>, order: string) {
    exists i :: 0 <= i < |gigs| && Active(gigs[i], order)
  }

  // ----- What each operation does -----

  function Create(db: Db, id: string, order: string, isCod: bool, hasPickup: bool, otp: string, partiesExist: bool): Db {
    if order !in db.orders || !partiesExist || HasActive(db.gigs, order) || FindGig(db.gigs, id).Some? then db
    else
      db.(gigs := db.gigs + [Gig(id, order, Broadcasting, None, isCod, hasPickup)],
          orders := if otp != "" then db.orders[order := db.orders[order].(otp := otp)] else db.orders)
  }

  function AssignOrder(orders: map<string, Order>, order: string, rider: string): map<string, Order> {
    if order in orders then orders[order := orders[order].(rider := Some(rider))] else orders
  }

  function Assign(db: Db, i: nat, rider: string): Db
    requires i < |db.gigs|
  {
    db.(gigs := db.gigs[i := db.gigs[i].(status := Accepted, rider := Some(rider))],
        orders := AssignOrder(db.orders, db.gigs[i].order, rider))
  }

  function Accept(db: Db, id: string, rider: string): Db {
    match FindGig(db.gigs, id)
    case None => db
    case Some(i) => if db.gigs[i].status == Broadcasting then Assign(db, i, rider) else db
  }

  predicate PaymentConfirmed(db: Db, g: Gig) {
    && g.order in db.orders
    && var p := db.orders[g.order].paymentStatus;
    p == "paid" || p == "settlement_pending" || (g.isCod && p == "pending")
  }

  // A rider without a user row counts as verified.
  predicate Verified(db: Db, rider: string) {
    rider in db.riders ==> db.riders[rider]
  }

  // COD needs a wallet that is neither blocked nor at the cash limit.
  predicate CashAllowed(db: Db, g: Gig, rider: string, limit: int) {
    g.isCod ==> rider in db.wallets && !db.wallets[rider].cashBlocked && db.wallets[rider].cashInHand < limit
  }

  predicate OnTheRoad(gigs: seq<Gig>, rider: string) {
    exists i :: 0 <= i < |gigs| && gigs[i].rider == Some(rider) && gigs[i].status in {InTransit, PickedUp}
  }

  predicate Eligible(db: Db, i: nat, rider: string, inZone: bool, limit: int)
    requires i < |db.gigs|
  {
    && db.gigs[i].status == Broadcasting
    && PaymentConfirmed(db, db.gigs[i])
    && db.gigs[i].hasPickup && inZone
    && Verified(db, rider)
    && CashAllowed(db, db.gigs[i], rider, limit)
    && !OnTheRoad(db.gigs, rider)
  }

  // What the check asks of gig, order and rider, condition by condition. A COD gig may be accepted
  // before it is paid, by a rider who can take the cash; any other only once its payment is confirmed.
  ghost predicate MayTake(db: Db, i: nat, rider: string, inZone: bool, limit: int) {
    && i < |db.gigs|
    && var g := db.gigs[i];
    && g.status == Broadcasting && g.hasPickup && inZone
    && g.order in db.orders
    && var payment := db.orders[g.order].paymentStatus;
    && (payment != "paid" && payment != "settlement_pending" ==> g.isCod && payment == "pending")
    && !(rider in db.riders && db.riders[rider] == false)
    && (g.isCod ==> rider in db.wallets && db.wallets[rider].cashBlocked == false && limit > db.wallets[rider].cashInHand)
    && forall j :: 0 <= j < |db.gigs| && db.gigs[j].rider == Some(rider) ==>
         db.gigs[j].status != PickedUp && db.gigs[j].status != InTransit
  }

  lemma {:induction false} EligibleExactly(db: Db, i: nat, rider: string, inZone: bool, limit: int)
    requires i < |db.gigs|
    ensures Eligible(db, i, rider, inZone, limit) <==> MayTake(db, i, rider, inZone, limit)
  {
  }

  // An unpaid gig: with cash on delivery it may be taken, otherwise it may not.
  lemma {:induction false} UnpaidOnlyForCash(db: Db, i: nat, rider: string, inZone: bool, limit: int)
    requires i < |db.gigs| && db.gigs[i].order in db.orders && db.orders[db.gigs[i].order].paymentStatus == "pending"
    requires db.gigs[i].status == Broadcasting && db.gigs[i].hasPickup && inZone
    requires rider in db.riders && db.riders[rider] && rider in db.wallets && forall j :: 0 <= j < |db.gigs| ==> db.gigs[j].rider != Some(rider)
    requires !db.wallets[rider].cashBlocked && db.wallets[rider].cashInHand < limit
    ensures Eligible(db, i, rider, inZone, limit) <==> db.gigs[i].isCod
  {
    var payment: string := "pending";
    assert payment[0] == 'p' && payment[1] == 'e' && payment != "paid" && payment != "settlement_pending";
  }

  function AcceptEligible(db: Db, id: string, rider: string, inZone: bool, limit: int): Db {
    match FindGig(db.gigs, id)
    case None => db
    case Some(i) => if Eligible(db, i, rider, inZone, limit) then Assign(db, i, rider) else db
  }

  function Credit(wallets: map<string, Wallet>, rider: string, amount: int): map<string, Wallet> {
    if rider in wallets
    then wallets[rider := wallets[rider].(balance := wallets[rider].balance + amount, lifetime := wallets[rider].lifetime + amount)]
    else wallets[rider := Wallet(amount, amount, 0, false)]
  }

  predicate Earns(rider: Option<string>, earning: int) {
    rider.Some? && rider.value != "" && earning > 0
  }

  predicate CanMove(db: Db, id: string, status: Status) {
    match FindGig(db.gigs, id)
    case None => false
    case Some(i) => status in Transitions(db.gigs[i].status)
  }

  // A revert to broadcasting clears the rider; a completion pays the rider in the same commit.
  function Update(db: Db, id: string, status: Status, earning: int): Db {
    if !CanMove(db, id, status) then db
    else
      var i := FindGig(db.gigs, id).value;
      var g := db.gigs[i];
      db.(gigs := db.gigs[i := if status == Broadcasting then g.(status := status, rider := None) else g.(status := status)],
          wallets := if status == Completed && Earns(g.rider, earning) then Credit(db.wallets, g.rider.value, earning) else db.wallets)
  }

  function CancelRow(g: Gig, order: string): Gig {
    if g.order == order && g.status in {Broadcasting, Accepted, PickedUp, InTransit} then g.(status := Cancelled) else g
  }

  function CancelRows(gigs: seq<Gig>, order: string): seq<Gig> {
    seq(|gigs|, i requires 0 <= i < |gigs| => CancelRow(gigs[i], order))
  }

  function CancelForOrder(db: Db, order: string): Db {
    db.(gigs := CancelRows(db.gigs, order))
  }

  // The timeout worker: both updates carry their own guard.
  function Timeout(db: Db, id: string, order: string): Db {
    var row := FindGig(db.gigs, id);
    db.(gigs := if row.Some? && db.gigs[row.value].status == Broadcasting
                then db.gigs[row.value := db.gigs[row.value].(status := Cancelled)] else db.gigs,
        orders := if order in db.orders && db.orders[order].status in {"pending", "paid", "accepted"}
                  then db.orders[order := db.orders[order].(status := "cancelled")] else db.orders)
  }

  // NOT IN ('completed', 'cancelled'): unlike the cancellations above it takes failed gigs too.
  function CancelUnfinishedRow(g: Gig, order: string): Gig {
    if g.order == order && g.status !in {Completed, Cancelled} then g.(status := Cancelled) else g
  }

  function CancelUnfinished(gigs: seq<Gig>, order: string): seq<Gig> {
    seq(|gigs|, i requires 0 <= i < |gigs| => CancelUnfinishedRow(gigs[i], order))
  }

  // An order that has been pending for too long is cancelled with its gigs.
  function TimeOutOrder(db: Db, order: string): Db {
    if order in db.orders && db.orders[order].status == "pending" then
      db.(gigs := CancelUnfinished(db.gigs, order),
          orders := db.orders[order := db.orders[order].(status := "cancelled", paymentStatus := "failed")])
    else db
  }

  // What a failed payment does to the gigs. It is a commit of its own, after the order was read.
  function FailPayment(db: Db, order: string): Db {
    db.(gigs := CancelUnfinished(db.gigs, order))
  }

  function DropRow(g: Gig, order: string): Gig {
    if g.order == order && g.status in {Broadcasting, Accepted} then g.(status := Cancelled) else g
  }

  function DropRows(gigs: seq<Gig>, order: string): seq<Gig> {
    seq(|gigs|, i requires 0 <= i < |gigs| => DropRow(gigs[i], order))
  }

  // A return that nobody picked up in time.
  function CancelReturn(db: Db, order: string): Db {
    db.(gigs := DropRows(db.gigs, order))
  }

  // NOT IN ('delivered', 'cancelled'): no gig is ever 'delivered', so completed, failed and offered
  // gigs get the new rider too.
  predicate Reassignable(g: Gig, order: string) {
    g.order == order && g.status != Cancelled
  }

  function ReassignRow(g: Gig, order: string, rider: string): Gig {
    if Reassignable(g, order) then g.(rider := Some(rider)) else g
  }

  function ReassignRows(gigs: seq<Gig>, order: string, rider: string): seq<Gig> {
    seq(|gigs|, i requires 0 <= i < |gigs| => ReassignRow(gigs[i], order, rider))
  }

  predicate CanReassign(gigs: seq<Gig>, order: string) {
    exists i :: 0 <= i < |gigs| && Reassignable(gigs[i], order)
  }

  function Reassign(db: Db, order: string, rider: string, approved: bool): Db {
    if approved && CanReassign(db.gigs, order) then
      db.(gigs := ReassignRows(db.gigs, order, rider),
          orders := AssignOrder(db.orders, order, rider))
    else db
  }

  // ----- What the operations come to -----

  // The orders but for this one are as they were.
  ghost predicate OthersKept(orders: map<string, Order>, orders': map<string, Order>, order: string) {
    && (forall o :: o in orders' <==> o in orders)
    && forall o :: o in orders && o != order ==> orders'[o] == orders[o]
  }

  // A creation goes through exactly for a known order and known parties, with a fresh id, when all
  // gigs of the order are cancelled or completed. It puts one gig on offer, and a given code onto the
  // order.
  lemma {:induction false} CreatesExactly(
      db: Db, id: string, order: string, isCod: bool, hasPickup: bool, otp: string, partiesExist: bool)
    ensures var db' := Create(db, id, order, isCod, hasPickup, otp, partiesExist);
      var open := exists i :: 0 <= i < |db.gigs| && db.gigs[i].order == order && db.gigs[i].status != Cancelled && db.gigs[i].status != Completed;
      var known := exists i :: 0 <= i < |db.gigs| && db.gigs[i].id == id;
      && (db'.gigs != db.gigs <==> order in db.orders && partiesExist && !open && !known)
      && (db'.gigs == db.gigs ==> db' == db)
      && (db'.gigs != db.gigs ==>
            && db'.gigs == db.gigs + [Gig(id, order, Broadcasting, None, isCod, hasPickup)]
            && OthersKept(db.orders, db'.orders, order) && db'.wallets == db.wallets && db'.riders == db.riders
            && db'.orders[order] == db.orders[order].(otp := if |otp| > 0 then otp else db.orders[order].otp))
  {
    assert Create(db, id, order, isCod, hasPickup, otp, partiesExist).gigs != db.gigs ==>
      |Create(db, id, order, isCod, hasPickup, otp, partiesExist).gigs| > |db.gigs|;
  }

  // An assignment writes the rider to its gig and to the gig's order, if that is there.
  lemma {:induction false} AssignsExactly(db: Db, i: nat, rider: string)
    requires i < |db.gigs|
    ensures var db', order := Assign(db, i, rider), db.gigs[i].order;
      && |db'.gigs| == |db.gigs| && (forall j :: 0 <= j < |db.gigs| && j != i ==> db'.gigs[j] == db.gigs[j])
      && db'.gigs[i] == Gig(db.gigs[i].id, order, Accepted, Some(rider), db.gigs[i].isCod, db.gigs[i].hasPickup)
      && OthersKept(db.orders, db'.orders, order) && db'.wallets == db.wallets && db'.riders == db.riders
      && (order in db.orders ==> db'.orders[order] == db.orders[order].(rider := Some(rider)))
  {
  }

  // The plain acceptance looks at the status alone.
  lemma {:induction false} AcceptsExactly(db: Db, id: string, rider: string)
    ensures match FindGig(db.gigs, id)
      case None => Accept(db, id, rider) == db
      case Some(i) => i < |db.gigs| && Accept(db, id, rider) == if db.gigs[i].status == Broadcasting then Assign(db, i, rider) else db
  {
  }

  // A completion with a positive earning adds it to the rider's balance and lifetime earnings, leaves
  // the cash as it is, and starts a wallet without cash.
  lemma {:induction false} CreditsExactly(wallets: map<string, Wallet>, rider: string, amount: int)
    ensures var wallets' := Credit(wallets, rider, amount);
      && rider in wallets' && (forall r :: r != rider ==> (r in wallets' <==> r in wallets) && (r in wallets ==> wallets'[r] == wallets[r]))
      && (rider !in wallets ==> wallets'[rider] == Wallet(amount, amount, 0, false))
      && (rider in wallets ==> wallets'[rider] == Wallet(
            wallets[rider].balance + amount, wallets[rider].lifetime + amount, wallets[rider].cashInHand, wallets[rider].cashBlocked))
  {
  }

  // Which gigs each of the four cancellations of an order ends: those on offer or on their way; all but
  // the completed ones, which for a timeout depends on the order; or those not picked up yet.
  lemma {:induction false} CancelsExactly(db: Db, order: string, i: nat)
    requires i < |db.gigs|
    ensures var g, cancelled := db.gigs[i], db.gigs[i].(status := Cancelled);
      var pending := order in db.orders && db.orders[order].status == "pending";
      && CancelForOrder(db, order).gigs[i] == (if g.order == order && g.status != Completed && g.status != Failed then cancelled else g)
      && FailPayment(db, order).gigs[i] == (if g.order == order && g.status != Completed then cancelled else g)
      && TimeOutOrder(db, order).gigs[i] == (if pending && g.order == order && g.status != Completed then cancelled else g)
      && CancelReturn(db, order).gigs[i] ==
           (if g.order == order && (g.status == Broadcasting || g.status == Accepted) then cancelled else g)
  {
  }

  // None of them touches anything else, but for the timeout, which cancels the pending order too.
  lemma {:induction false} CancelsNothingElse(db: Db, order: string)
    ensures CancelForOrder(db, order) == db.(gigs := CancelForOrder(db, order).gigs)
    ensures FailPayment(db, order) == db.(gigs := FailPayment(db, order).gigs)
    ensures CancelReturn(db, order) == db.(gigs := CancelReturn(db, order).gigs)
    ensures var db' := TimeOutOrder(db, order);
      && OthersKept(db.orders, db'.orders, order) && db'.wallets == db.wallets && db'.riders == db.riders
      && (order in db.orders && db.orders[order].status == "pending" ==>
            db'.orders[order] == db.orders[order].(status := "cancelled", paymentStatus := "failed"))
      && (order in db.orders && db.orders[order].status != "pending" ==> db'.orders[order] == db.orders[order])
  {
  }

  // The gig timeout: each update by its own guard.
  lemma {:induction false} TimesOutExactly(db: Db, id: string, order: string)
    ensures var db', row := Timeout(db, id, order), FindGig(db.gigs, id);
      && |db'.gigs| == |db.gigs|
      && (forall i :: 0 <= i < |db.gigs| ==>
            db'.gigs[i] == if row == Some(i) && db.gigs[i].status == Broadcasting then db.gigs[i].(status := Cancelled) else db.gigs[i])
      && OthersKept(db.orders, db'.orders, order) && db'.wallets == db.wallets && db'.riders == db.riders
      && (order in db.orders ==> db'.orders[order] == db.orders[order].(status :=
            var s := db.orders[order].status; if s == "pending" || s == "paid" || s == "accepted" then "cancelled" else s))
  {
  }

  // A reassignment by an approved rider takes every gig of the order that is not cancelled, and with
  // at least one such gig the order.
  lemma {:induction false} ReassignsExactly(db: Db, order: string, rider: string, approved: bool)
    ensures var db' := Reassign(db, order, rider, approved);
      var any := exists i :: 0 <= i < |db.gigs| && db.gigs[i].order == order && db.gigs[i].status != Cancelled;
      && |db'.gigs| == |db.gigs|
      && (forall i :: 0 <= i < |db.gigs| ==>
            db'.gigs[i] == if approved && db.gigs[i].order == order && db.gigs[i].status != Cancelled
                           then db.gigs[i].(rider := Some(rider)) else db.gigs[i])
      && OthersKept(db.orders, db'.orders, order) && db'.wallets == db.wallets && db'.riders == db.riders
      && (order in db.orders && approved && any ==> db'.orders[order] == db.orders[order].(rider := Some(rider)))
      && (order in db.orders && !(approved && any) ==> db'.orders[order] == db.orders[order])
  {
  }

  // ----- The repository -----

  class DeliveryRepository {
    var gigs: seq<Gig>
    var orders: map<string, Order>
    var wallets: map<string, Wallet>
    var riders: map<string, bool>

    constructor ()
      ensures State() == Db([], map[], map[], map[])
    {
      gigs, orders, wallets, riders := [], map[], map[], map[];
    }

    function State(): Db
      reads this
    {
      Db(gigs, orders, wallets, riders)
    }

    method CreateGig(id: string, order: string, isCod: bool, hasPickup: bool, otp: string, partiesExist: bool) returns (ok: bool)
      modifies this`gigs, this`orders
      ensures State() == Create(old(State()), id, order, isCod, hasPickup, otp, partiesExist)
      ensures ok <==> |gigs| == |old(gigs)| + 1
    {
      if order !in orders || !partiesExist {
        return false;
      }
      var count := CountActive(order);
      if count > 0 {
        return false;
      }
      if FindGig(gigs, id).Some? {
        return false;
      }
      gigs := gigs + [Gig(id, order, Broadcasting, None, isCod, hasPickup)];
      if otp != "" {
        orders := orders[order := orders[order].(otp := otp)];
      }
      ok := true;
    }

    method CountActive(order: string) returns (count: nat)
      ensures count > 0 <==> HasActive(gigs, order)
    {
      count := 0;
      for i := 0 to |gigs|
        invariant count > 0 <==> exists j :: 0 <= j < i && Active(gigs[j], order)
      {
        if Active(gigs[i], order) {
          count := count + 1;
        }
      }
    }

    method AcceptGig(id: string, rider: string) returns (ok: bool)
      modifies this`gigs, this`orders
      ensures State() == Accept(old(State()), id, rider)
      ensures ok <==> FindGig(old(gigs), id).Some? && old(gigs)[FindGig(old(gigs), id).value].status == Broadcasting
    {
      var row := FindGig(gigs, id);
      if row.None? || gigs[row.value].status != Broadcasting {
        return false;
      }
      WriteAssignment(row.value, rider);
      ok := true;
    }

    method WriteAssignment(i: nat, rider: string)
      requires i < |gigs|
      modifies this`gigs, this`orders
      ensures State() == Assign(old(State()), i, rider)
    {
      var order := gigs[i].order;
      gigs := gigs[i := gigs[i].(status := Accepted, rider := Some(rider))];
      if order in orders {
        orders := orders[order := orders[order].(rider := Some(rider))];
      }
    }

    method AcceptGigWithEligibility(id: string, rider: string, inZone: bool, limit: int) returns (ok: bool)
      modifies this`gigs, this`orders
      ensures State() == AcceptEligible(old(State()), id, rider, inZone, limit)
      ensures ok <==>
        FindGig(old(gigs), id).Some? && MayTake(old(State()), FindGig(old(gigs), id).value, rider, inZone, limit)
    {
      var row := FindGig(gigs, id);
      if row.None? {
        return false;
      }
      EligibleExactly(State(), row.value, rider, inZone, limit);
      var g := gigs[row.value];
      if g.status != Broadcasting || g.order !in orders {
        return false;
      }
      var payment := orders[g.order].paymentStatus;
      var paymentOk := payment == "paid" || payment == "settlement_pending";
      if g.isCod {
        paymentOk := paymentOk || payment == "pending";
      }
      if !paymentOk || !g.hasPickup || !inZone {
        return false;
      }
      if rider in riders && !riders[rider] {
        return false;
      }
      if g.isCod {
        if rider !in wallets || wallets[rider].cashBlocked || wallets[rider].cashInHand >= limit {
          return false;
        }
      }
      if OnTheRoad(gigs, rider) {
        return false;
      }
      WriteAssignment(row.value, rider);
      ok := true;
    }

    method UpdateGigStatus(id: string, status: Status, earning: int) returns (ok: bool)
      modifies this`gigs, this`wallets
      ensures State() == Update(old(State()), id, status, earning)
      ensures ok <==> CanMove(old(State()), id, status)
    {
      var row := FindGig(gigs, id);
      if row.None? {
        return false;
      }
      var g := gigs[row.value];
      if status !in Transitions(g.status) {
        return false;
      }
      if status == Broadcasting {
        gigs := gigs[row.value := g.(status := status, rider := None)];
      } else {
        gigs := gigs[row.value := g.(status := status)];
      }
      if status == Completed && Earns(g.rider, earning) {
        wallets := Credit(wallets, g.rider.value, earning);
      }
      ok := true;
    }

    method CancelDeliveryForOrder(order: string)
      modifies this`gigs
      ensures State() == CancelForOrder(old(State()), order)
    {
      gigs := CancelRows(gigs, order);
    }

    method CancelGigAndOrder(id: string, order: string)
      modifies this`gigs, this`orders
      ensures State() == Timeout(old(State()), id, order)
    {
      var row := FindGig(gigs, id);
      if row.Some? && gigs[row.value].status == Broadcasting {
        gigs := gigs[row.value := gigs[row.value].(status := Cancelled)];
      }
      if order in orders && orders[order].status in {"pending", "paid", "accepted"} {
        orders := orders[order := orders[order].(status := "cancelled")];
      }
    }

    // The writers of the table outside the repository.

    method CancelOrder(order: string)
      modifies this`gigs, this`orders
      ensures State() == TimeOutOrder(old(State()), order)
    {
      if order !in orders || orders[order].status != "pending" {
        return;
      }
      orders := orders[order := orders[order].(status := "cancelled", paymentStatus := "failed")];
      gigs := CancelUnfinished(gigs, order);
    }

    method CancelGigsOfFailedPayment(order: string)
      modifies this`gigs
      ensures State() == FailPayment(old(State()), order)
    {
      gigs := CancelUnfinished(gigs, order);
    }

    method CancelExpiredReturn(order: string)
      modifies this`gigs
      ensures State() == CancelReturn(old(State()), order)
    {
      gigs := DropRows(gigs, order);
    }

    method ReassignRider(order: string, rider: string, approved: bool) returns (ok: bool)
      modifies this`gigs, this`orders
      ensures State() == Reassign(old(State()), order, rider, approved)
      ensures ok <==> approved && CanReassign(old(gigs), order)
    {
      if !approved || !CanReassign(gigs, order) {
        return false;
      }
      gigs := ReassignRows(gigs, order, rider);
      if order in orders {
        orders := orders[order := orders[order].(rider := Some(rider))];
      }
      ok := true;
    }
  }
}
