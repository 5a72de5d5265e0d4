// What every run over the delivery gigs keeps, and where the guards of their writers fall short.
module GigTheorems {
  import opened Wrappers
  import opened GigLifecycle

  // ----- Runs -----

  datatype Step =
    | CreateGig(id: string, order: string, isCod: bool, hasPickup: bool, otp: string, partiesExist: bool)
    | AcceptGig(id: string, rider: string)
    | AcceptGigWithEligibility(id: string, rider: string, inZone: bool, limit: int)
    | UpdateGigStatus(id: string, status: Status, earning: int)
    | CancelDeliveryForOrder(order: string)
    | CancelGigAndOrder(id: string, order: string)
    // the other writers of gigs
    | OrderTimeout(order: string)
    | PaymentFailed(order: string)
    | ReturnExpired(order: string)
    | ReassignRider(order: string, rider: string, approved: bool)
    // the rest of the platform: orders, riders, payouts and cash, but not lifetime earnings
    | World(orders: map<string, Order>, riders: map<string, bool>)
    | Cash(rider: string, balance: int, cashInHand: int, cashBlocked: bool)

  // The completions committed so far, with the rider assigned and the earning passed.
  datatype Completion = Completion(gig: nat, rider: Option<string>, earning: int)

  // moved is what payouts, fees and cash have changed in the balances of the riders.
  datatype Sys = Sys(db: Db, log: seq<Completion>, moved: map<string, int>)

  function NextDb(db: Db, step: Step): Db {
    match step
    case CreateGig(id, order, isCod, hasPickup, otp, partiesExist) => Create(db, id, order, isCod, hasPickup, otp, partiesExist)
    case AcceptGig(id, rider) => Accept(db, id, rider)
    case AcceptGigWithEligibility(id, rider, inZone, limit) => AcceptEligible(db, id, rider, inZone, limit)
    case UpdateGigStatus(id, status, earning) => Update(db, id, status, earning)
    case CancelDeliveryForOrder(order) => CancelForOrder(db, order)
    case CancelGigAndOrder(id, order) => Timeout(db, id, order)
    case OrderTimeout(order) => TimeOutOrder(db, order)
    case PaymentFailed(order) => FailPayment(db, order)
    case ReturnExpired(order) => CancelReturn(db, order)
    case ReassignRider(order, rider, approved) => Reassign(db, order, rider, approved)
    case World(orders, riders) => db.(orders := orders, riders := riders)
    case Cash(rider, balance, cash, blocked) =>
      db.(wallets := db.wallets[rider := Wallet(balance, Lifetime(db.wallets, rider), cash, blocked)])
  }

  predicate Completes(db: Db, step: Step) {
    step.UpdateGigStatus? && step.status == Completed && CanMove(db, step.id, Completed)
  }

  function Next(s: Sys, step: Step): Sys {
    Sys(NextDb(s.db, step),
        if Completes(s.db, step)
        then var i := FindGig(s.db.gigs, step.id).value; s.log + [Completion(i, s.db.gigs[i].rider, step.earning)]
        else s.log,
        if step.Cash? then s.moved[step.rider := Moved(s.moved, step.rider) + step.balance - Balance(s.db.wallets, step.rider)]
        else s.moved)
  }

  function Exec(s: Sys, steps: seq<Step>): Sys {
    if steps == [] then s else Next(Exec(s, steps[..|steps| - 1]), steps[|steps| - 1])
  }

  function Lifetime(wallets: map<string, Wallet>, rider: string): int {
    if rider in wallets then wallets[rider].lifetime else 0
  }

  function Balance(wallets: map<string, Wallet>, rider: string): int {
    if rider in wallets then wallets[rider].balance else 0
  }

  function Moved(moved: map<string, int>, rider: string): int {
    if rider in moved then moved[rider] else 0
  }

  ghost function Completions(log: seq<Completion>, i: nat): nat {
    if log == [] then 0 else Completions(log[..|log| - 1], i) + if log[|log| - 1].gig == i then 1 else 0
  }

  // The sum of the earnings of the completions that pay this rider.
  ghost function Earned(log: seq<Completion>, rider: string): int {
    if log == [] then 0
    else
      var last := log[|log| - 1];
      Earned(log[..|log| - 1], rider) + if Earns(last.rider, last.earning) && last.rider.value == rider then last.earning else 0
  }

  // ----- At most one active gig per order -----

  ghost predicate OneActive(gigs: seq<Gig>) {
    forall i, j :: 0 <= i < j < |gigs| && gigs[i].order == gigs[j].order ==>
      !Active(gigs[i], gigs[i].order) || !Active(gigs[j], gigs[j].order)
  }

  ghost predicate DistinctIds(gigs: seq<Gig>) {
    forall i, j :: 0 <= i < j < |gigs| ==> gigs[i].id != gigs[j].id
  }

  // What a step may do to a row: nothing, or a move to a status that is no more active.
  ghost predicate RowStep(g: Gig, g': Gig) {
    && g'.id == g.id && g'.order == g.order && g'.isCod == g.isCod && g'.hasPickup == g.hasPickup
    && (g.status == Cancelled ==> g' == g)
    && (g.status == Completed ==> g'.status == Completed)
    && (g.status == Failed ==> g'.status in {Failed, Cancelled})
  }

  ghost predicate RowsStep(gigs: seq<Gig>, gigs': seq<Gig>) {
    && |gigs'| >= |gigs|
    && forall i :: 0 <= i < |gigs| ==> RowStep(gigs[i], gigs'[i])
  }

  lemma {:induction false} StepRow(db: Db, step: Step, i: nat)
    requires i < |db.gigs|
    ensures i < |NextDb(db, step).gigs| && RowStep(db.gigs[i], NextDb(db, step).gigs[i])
  {
  }

  lemma {:induction false} StepKeepsLength(db: Db, step: Step)
    ensures |NextDb(db, step).gigs| >= |db.gigs|
  {
  }

  lemma {:induction false} StepRows(db: Db, step: Step)
    ensures RowsStep(db.gigs, NextDb(db, step).gigs)
  {
    StepKeepsLength(db, step);
    forall i: nat | i < |db.gigs| ensures RowStep(db.gigs[i], NextDb(db, step).gigs[i]) {
      StepRow(db, step, i);
    }
  }

  lemma {:induction false} NewRow(db: Db, step: Step)
    ensures |NextDb(db, step).gigs| > |db.gigs| ==>
      && step.CreateGig? && !HasActive(db.gigs, step.order) && FindGig(db.gigs, step.id).None?
      && NextDb(db, step).gigs == db.gigs + [Gig(step.id, step.order, Broadcasting, None, step.isCod, step.hasPickup)]
  {
  }

  lemma {:induction false} StepKeepsGigs(db: Db, step: Step)
    requires OneActive(db.gigs) && DistinctIds(db.gigs)
    ensures OneActive(NextDb(db, step).gigs) && DistinctIds(NextDb(db, step).gigs)
  {
    StepRows(db, step);
    NewRow(db, step);
    var gigs := NextDb(db, step).gigs;
    forall i | 0 <= i < |db.gigs| ensures Active(gigs[i], gigs[i].order) ==> Active(db.gigs[i], db.gigs[i].order) {
      assert RowStep(db.gigs[i], gigs[i]);
    }
    if |gigs| > |db.gigs| {
      forall i | 0 <= i < |db.gigs| && gigs[i].order == step.order ensures !Active(gigs[i], gigs[i].order) {
        assert !Active(db.gigs[i], step.order);
      }
    }
  }

  // ----- Payments -----

  ghost predicate PaidOnce(s: Sys) {
    && (forall k :: 0 <= k < |s.log| ==> s.log[k].gig < |s.db.gigs|)
    && forall i :: 0 <= i < |s.db.gigs| ==> Completions(s.log, i) == if s.db.gigs[i].status == Completed then 1 else 0
  }

  lemma {:induction false} NoCompletions(log: seq<Completion>, i: nat)
    requires forall k :: 0 <= k < |log| ==> log[k].gig < i
    ensures Completions(log, i) == 0
  {
    if log != [] {
      NoCompletions(log[..|log| - 1], i);
    }
  }

  lemma {:induction false} OneMoreCompletion(log: seq<Completion>, c: Completion, i: nat, rider: string)
    ensures Completions(log + [c], i) == Completions(log, i) + (if c.gig == i then 1 else 0)
    ensures Earned(log + [c], rider) == Earned(log, rider) + if Earns(c.rider, c.earning) && c.rider.value == rider then c.earning else 0
  {
    assert (log + [c])[..|log|] == log;
  }

  // Only a completing update makes a gig completed.
  lemma {:induction false} CompletedRows(db: Db, step: Step, i: nat)
    requires i < |db.gigs|
    ensures i < |NextDb(db, step).gigs|
    ensures NextDb(db, step).gigs[i].status == Completed <==>
      db.gigs[i].status == Completed || (Completes(db, step) && FindGig(db.gigs, step.id) == Some(i))
    ensures Completes(db, step) && FindGig(db.gigs, step.id) == Some(i) ==> db.gigs[i].status == InTransit
  {
  }

  lemma {:induction false} StepKeepsPaidOnce(s: Sys, step: Step)
    requires PaidOnce(s)
    ensures PaidOnce(Next(s, step))
  {
    var s' := Next(s, step);
    StepRows(s.db, step);
    NewRow(s.db, step);
    forall i | 0 <= i < |s'.db.gigs|
      ensures Completions(s'.log, i) == if s'.db.gigs[i].status == Completed then 1 else 0
    {
      if i < |s.db.gigs| {
        CompletedRows(s.db, step, i);
      } else {
        NoCompletions(s.log, i);
      }
      if Completes(s.db, step) {
        var row := FindGig(s.db.gigs, step.id).value;
        OneMoreCompletion(s.log, Completion(row, s.db.gigs[row].rider, step.earning), i, "");
      }
    }
  }

  // Only completions and cash change the wallets.
  lemma {:induction false} WalletsKept(db: Db, step: Step)
    requires !Completes(db, step) && !step.Cash?
    ensures NextDb(db, step).wallets == db.wallets
  {
  }

  lemma {:induction false} CreditPays(wallets: map<string, Wallet>, paid: string, amount: int, rider: string)
    ensures Lifetime(Credit(wallets, paid, amount), rider) == Lifetime(wallets, rider) + (if paid == rider then amount else 0)
    ensures Balance(Credit(wallets, paid, amount), rider) == Balance(wallets, rider) + (if paid == rider then amount else 0)
  {
  }

  lemma {:induction false} CompletionPays(db: Db, step: Step, rider: string)
    requires Completes(db, step)
    ensures var g, wallets' := db.gigs[FindGig(db.gigs, step.id).value], NextDb(db, step).wallets;
      var pay := if Earns(g.rider, step.earning) && g.rider.value == rider then step.earning else 0;
      Lifetime(wallets', rider) == Lifetime(db.wallets, rider) + pay && Balance(wallets', rider) == Balance(db.wallets, rider) + pay
  {
    var g := db.gigs[FindGig(db.gigs, step.id).value];
    if Earns(g.rider, step.earning) {
      CreditPays(db.wallets, g.rider.value, step.earning, rider);
    }
  }

  // What the wallets of a rider hold beyond its earnings and the other moves.
  ghost function LifetimeBeyond(s: Sys, rider: string): int {
    Lifetime(s.db.wallets, rider) - Earned(s.log, rider)
  }

  ghost function BalanceBeyond(s: Sys, rider: string): int {
    Balance(s.db.wallets, rider) - Earned(s.log, rider) - Moved(s.moved, rider)
  }

  lemma {:induction false} StepPays(s: Sys, step: Step, rider: string)
    ensures LifetimeBeyond(Next(s, step), rider) == LifetimeBeyond(s, rider)
    ensures BalanceBeyond(Next(s, step), rider) == BalanceBeyond(s, rider)
  {
    if Completes(s.db, step) {
      var row := FindGig(s.db.gigs, step.id).value;
      OneMoreCompletion(s.log, Completion(row, s.db.gigs[row].rider, step.earning), row, rider);
      CompletionPays(s.db, step, rider);
    } else if !step.Cash? {
      WalletsKept(s.db, step);
    }
  }

  // ----- Theorems over runs -----

  ghost predicate Inv(s: Sys) {
    OneActive(s.db.gigs) && DistinctIds(s.db.gigs) && PaidOnce(s)
  }

  lemma {:induction false} RunKeepsInv(s: Sys, steps: seq<Step>)
    requires Inv(s)
    ensures Inv(Exec(s, steps))
  {
    if steps != [] {
      var mid, last := Exec(s, steps[..|steps| - 1]), steps[|steps| - 1];
      RunKeepsInv(s, steps[..|steps| - 1]);
      StepKeepsGigs(mid.db, last);
      StepKeepsPaidOnce(mid, last);
    }
  }

  // However creations, acceptances, updates, cancellations, timeouts and reassignments interleave, an
  // order has at most one gig that is neither cancelled nor completed.
  lemma {:induction false} OneActiveGigPerOrder(db: Db, steps: seq<Step>, i: nat, j: nat)
    requires db.gigs == []
    ensures var gigs := Exec(Sys(db, [], map[]), steps).db.gigs;
      i < j < |gigs| && gigs[i].order == gigs[j].order ==> gigs[i].status in {Cancelled, Completed} || gigs[j].status in {Cancelled, Completed}
  {
    RunKeepsInv(Sys(db, [], map[]), steps);
  }

  lemma {:induction false} RunRows(s: Sys, steps: seq<Step>)
    ensures |s.db.gigs| <= |Exec(s, steps).db.gigs|
  {
    if steps != [] {
      RunRows(s, steps[..|steps| - 1]);
      StepRows(Exec(s, steps[..|steps| - 1]).db, steps[|steps| - 1]);
    }
  }

  // The rider of the last reassignment of the order.
  ghost function LastReassigned(steps: seq<Step>, order: string): Option<string> {
    if steps == [] then None
    else
      var last := steps[|steps| - 1];
      if last.ReassignRider? && last.approved && last.order == order then Some(last.rider)
      else LastReassigned(steps[..|steps| - 1], order)
  }

  lemma {:induction false} StepOnFinished(db: Db, step: Step, i: nat)
    requires i < |db.gigs| && db.gigs[i].status in {Completed, Cancelled}
    ensures i < |NextDb(db, step).gigs|
    ensures NextDb(db, step).gigs[i] ==
      if db.gigs[i].status == Completed && step.ReassignRider? && step.approved && step.order == db.gigs[i].order
      then db.gigs[i].(rider := Some(step.rider)) else db.gigs[i]
  {
  }

  // A cancelled gig never changes again. A completed one stays completed and changes its rider only,
  // to that of the last reassignment of its order.
  lemma {:induction false} FinishedGigsNeverChange(s: Sys, steps: seq<Step>, i: nat)
    requires i < |s.db.gigs| && s.db.gigs[i].status in {Completed, Cancelled}
    ensures i < |Exec(s, steps).db.gigs|
    ensures var g, to := s.db.gigs[i], LastReassigned(steps, s.db.gigs[i].order);
      Exec(s, steps).db.gigs[i] == if g.status == Completed && to.Some? then g.(rider := to) else g
  {
    if steps != [] {
      FinishedGigsNeverChange(s, steps[..|steps| - 1], i);
      StepOnFinished(Exec(s, steps[..|steps| - 1]).db, steps[|steps| - 1], i);
    }
  }

  // A rider's lifetime earnings are the earnings passed at the completions of the gigs it had, its
  // balance these and what payouts, fees and cash have changed, and each gig has one completion if it is completed and none otherwise.
  lemma {:induction false} RidersArePaidOnce(db: Db, steps: seq<Step>, rider: string, i: nat)
    requires db.gigs == []
    ensures var s := Exec(Sys(db, [], map[]), steps);
      && Lifetime(s.db.wallets, rider) == Lifetime(db.wallets, rider) + Earned(s.log, rider)
      && Balance(s.db.wallets, rider) == Balance(db.wallets, rider) + Earned(s.log, rider) + Moved(s.moved, rider)
      && (i < |s.db.gigs| ==> Completions(s.log, i) == if s.db.gigs[i].status == Completed then 1 else 0)
  {
    RunKeepsInv(Sys(db, [], map[]), steps);
    RunPays(Sys(db, [], map[]), steps, rider);
  }

  lemma {:induction false} RunPays(s: Sys, steps: seq<Step>, rider: string)
    ensures LifetimeBeyond(Exec(s, steps), rider) == LifetimeBeyond(s, rider)
    ensures BalanceBeyond(Exec(s, steps), rider) == BalanceBeyond(s, rider)
  {
    if steps != [] {
      RunPays(s, steps[..|steps| - 1], rider);
      StepPays(Exec(s, steps[..|steps| - 1]), steps[|steps| - 1], rider);
    }
  }

  // ----- The moves of a gig -----

  const WAY := [Broadcasting, Accepted, PickedUp, InTransit, Completed]

  // One place further on the way; a failure on it; or back on offer before the pickup.
  ghost predicate Moves(from: Status, to: Status) {
    || (exists k :: 0 <= k < 4 && WAY[k] == from && WAY[k + 1] == to)
    || (exists k :: 1 <= k < 4 && WAY[k] == from && to == Failed)
    || (from == Accepted && to == Broadcasting)
  }

  lemma {:induction false} TransitionsAreMoves(from: Status, to: Status)
    ensures to in Transitions(from) <==> Moves(from, to)
  {
    assert WAY[0] == Broadcasting && WAY[1] == Accepted && WAY[2] == PickedUp && WAY[3] == InTransit && WAY[4] == Completed;
  }

  // An update goes through exactly for one of these moves, and then takes its gig to that status: back
  // on offer without a rider, and otherwise with the one it has.
  lemma {:induction false} UpdatesMoveExactly(db: Db, i: nat, status: Status, earning: int)
    requires DistinctIds(db.gigs) && i < |db.gigs|
    ensures var g := db.gigs[i];
      var moved := g.(status := status, rider := if status == Broadcasting then None else g.rider);
      Update(db, g.id, status, earning).gigs == if Moves(g.status, status) then db.gigs[i := moved] else db.gigs
    ensures CanMove(db, db.gigs[i].id, status) <==> Moves(db.gigs[i].status, status)
  {
    assert FindGig(db.gigs, db.gigs[i].id) == Some(i);
    TransitionsAreMoves(db.gigs[i].status, status);
  }

  // ----- Where it falls short -----

  // The step cancels every gig of the order that is not completed.
  ghost predicate CancelsAll(db: Db, step: Step, order: string) {
    || (step == OrderTimeout(order) && order in db.orders && db.orders[order].status == "pending")
    || step == PaymentFailed(order)
  }

  ghost predicate CancelledAll(s: Sys, steps: seq<Step>, order: string) {
    steps != [] &&
    var mid, last := Exec(s, steps[..|steps| - 1]), steps[|steps| - 1];
    CancelledAll(s, steps[..|steps| - 1], order) || CancelsAll(mid.db, last, order)
  }

  lemma {:induction false} StepOnFailed(db: Db, step: Step, i: nat)
    requires i < |db.gigs| && db.gigs[i].status == Failed
    ensures i < |NextDb(db, step).gigs| && NextDb(db, step).gigs[i].order == db.gigs[i].order
    ensures NextDb(db, step).gigs[i].status == if CancelsAll(db, step, db.gigs[i].order) then Cancelled else Failed
  {
  }

  // A failed gig leaves that status in a run if and only if the run times its order out while that
  // is pending, or fails its payment; then it is cancelled.
  lemma {:induction false} FailedGigIsCancelledExactly(s: Sys, steps: seq<Step>, i: nat)
    requires i < |s.db.gigs| && s.db.gigs[i].status == Failed
    ensures i < |Exec(s, steps).db.gigs| && Exec(s, steps).db.gigs[i].order == s.db.gigs[i].order
    ensures Exec(s, steps).db.gigs[i].status == if CancelledAll(s, steps, s.db.gigs[i].order) then Cancelled else Failed
  {
    if steps != [] {
      var mid, last := Exec(s, steps[..|steps| - 1]), steps[|steps| - 1];
      FailedGigIsCancelledExactly(s, steps[..|steps| - 1], i);
      if mid.db.gigs[i].status == Failed {
        StepOnFailed(mid.db, last, i);
      } else {
        StepOnFinished(mid.db, last, i);
      }
    }
  }

  // A failed gig counts as active: its order gets another gig only after such a cancellation.
  lemma {:induction false} FailedGigBlocksOrder(s: Sys, steps: seq<Step>, i: nat, j: nat)
    requires i < |s.db.gigs| && s.db.gigs[i].status == Failed
    requires |s.db.gigs| <= j < |Exec(s, steps).db.gigs| && Exec(s, steps).db.gigs[j].order == s.db.gigs[i].order
    ensures CancelledAll(s, steps, s.db.gigs[i].order)
  {
    var n := |steps| - 1;
    var mid, last := Exec(s, steps[..n]), steps[n];
    FailedGigIsCancelledExactly(s, steps[..n], i);
    StepRows(mid.db, last);
    NewRow(mid.db, last);
    if j < |mid.db.gigs| {
      assert RowStep(mid.db.gigs[j], Exec(s, steps).db.gigs[j]);
      FailedGigBlocksOrder(s, steps[..n], i, j);
    } else {
      assert !Active(mid.db.gigs[i], s.db.gigs[i].order);
    }
  }

  lemma {:induction false} NothingActiveLeft(db: Db, step: Step, order: string)
    requires CancelsAll(db, step, order)
    ensures |NextDb(db, step).gigs| == |db.gigs| && !HasActive(NextDb(db, step).gigs, order)
    ensures order in db.orders ==> order in NextDb(db, step).orders
    ensures forall i :: 0 <= i < |db.gigs| ==> NextDb(db, step).gigs[i].id == db.gigs[i].id
  {
  }

  // After one it does: the next creation goes through.
  lemma {:induction false} CancelledOrderGetsAnother(s: Sys, cancel: Step, create: Step)
    requires create.CreateGig? && CancelsAll(s.db, cancel, create.order)
    requires create.order in s.db.orders && create.partiesExist && forall i :: 0 <= i < |s.db.gigs| ==> s.db.gigs[i].id != create.id
    ensures var gigs := Exec(s, [cancel] + [create]).db.gigs;
      |gigs| == |s.db.gigs| + 1 && gigs[|s.db.gigs|].order == create.order && gigs[|s.db.gigs|].status == Broadcasting
  {
    NothingActiveLeft(s.db, cancel, create.order);
    ExecTwo(s, cancel, create);
    var db := NextDb(s.db, cancel);
    assert FindGig(db.gigs, create.id).None?;
    assert |NextDb(db, create).gigs| == |db.gigs| + 1;
  }

  lemma {:induction false} ExecTwo(s: Sys, first: Step, second: Step)
    ensures Exec(s, [first] + [second]) == Next(Next(s, first), second)
  {
    var two := [first] + [second];
    assert two[..1] == [first] && two[1] == second;
    assert [first][..0] == [];
    assert Exec(s, [first]) == Next(s, first);
  }

  // The timeout worker acts on what it read before: it cancels the order of a gig that is not
  // cancelled exactly when the gig has left broadcasting since and the order is still open.
  lemma {:induction false} TimeoutCancelsOrderOnlyExactly(db: Db, i: nat)
    requires DistinctIds(db.gigs) && i < |db.gigs| && db.gigs[i].order in db.orders
    requires db.gigs[i].status != Cancelled && db.orders[db.gigs[i].order].status != "cancelled"
    ensures var db' := Timeout(db, db.gigs[i].id, db.gigs[i].order);
      db'.orders[db.gigs[i].order].status == "cancelled" && db'.gigs[i].status != Cancelled <==>
        db.gigs[i].status != Broadcasting && db.orders[db.gigs[i].order].status in {"pending", "paid", "accepted"}
  {
    assert FindGig(db.gigs, db.gigs[i].id) == Some(i);
  }

  // ----- Gigs without a rider -----

  predicate PutsBack(g: Gig, g': Gig) {
    g.status != Broadcasting && g'.status == Broadcasting
  }

  // The step that last took gig i off offer.
  ghost function Departure(s: Sys, steps: seq<Step>, i: nat): Option<Step> {
    if steps == [] then None
    else
      var mid, last := Exec(s, steps[..|steps| - 1]), steps[|steps| - 1];
      var gigs := Next(mid, last).db.gigs;
      if i >= |gigs| || gigs[i].status == Broadcasting then None
      else if i >= |mid.db.gigs| || mid.db.gigs[i].status == Broadcasting then Some(last)
      else Departure(s, steps[..|steps| - 1], i)
  }

  ghost predicate Reassigns(db: Db, step: Step, i: nat)
    requires i < |db.gigs|
  {
    step.ReassignRider? && step.approved && Reassignable(db.gigs[i], step.order)
  }

  // Gig i has been reassigned since it was created or last put back on offer.
  ghost predicate Reassigned(s: Sys, steps: seq<Step>, i: nat) {
    steps != [] &&
    var mid, last := Exec(s, steps[..|steps| - 1]), steps[|steps| - 1];
    var gigs := Next(mid, last).db.gigs;
    && i < |mid.db.gigs| && i < |gigs| && !PutsBack(mid.db.gigs[i], gigs[i])
    && (Reassigned(s, steps[..|steps| - 1], i) || Reassigns(mid.db, last, i))
  }

  predicate IsAcceptance(step: Step) {
    step.AcceptGig? || step.AcceptGigWithEligibility?
  }

  // What a step does to the rider of a gig.
  lemma {:induction false} RiderStep(db: Db, step: Step, i: nat)
    requires i < |db.gigs|
    ensures i < |NextDb(db, step).gigs|
    ensures var g, g' := db.gigs[i], NextDb(db, step).gigs[i];
      && (Reassigns(db, step, i) ==> g'.rider.Some? && g'.status == g.status)
      && (PutsBack(g, g') ==> g'.rider == None)
      && (g.status == Broadcasting && g'.status != Broadcasting && IsAcceptance(step) ==> g'.rider.Some?)
      && (g.status == Broadcasting && g'.status != Broadcasting ==> IsAcceptance(step) || step.UpdateGigStatus? || g'.status == Cancelled)
      && (!Reassigns(db, step, i) && !PutsBack(g, g') && !(g.status == Broadcasting && g'.status != Broadcasting && IsAcceptance(step)) ==>
            g'.rider == g.rider)
  {
  }

  // The history decides who has a rider.
  ghost predicate RiderOk(s: Sys, steps: seq<Step>, i: nat)
    requires i < |Exec(s, steps).db.gigs|
  {
    var g, departure := Exec(s, steps).db.gigs[i], Departure(s, steps, i);
    && (departure.None? <==> g.status == Broadcasting)
    && (departure.Some? ==> IsAcceptance(departure.value) || departure.value.UpdateGigStatus? || g.status == Cancelled)
    && (g.rider == None <==> !Reassigned(s, steps, i) && !(departure.Some? && IsAcceptance(departure.value)))
  }

  lemma {:induction false} RiderHistory(db: Db, steps: seq<Step>, i: nat)
    requires db.gigs == [] && i < |Exec(Sys(db, [], map[]), steps).db.gigs|
    ensures RiderOk(Sys(db, [], map[]), steps, i)
  {
    var s := Sys(db, [], map[]);
    var mid, last := Exec(s, steps[..|steps| - 1]), steps[|steps| - 1];
    StepRows(mid.db, last);
    NewRow(mid.db, last);
    if i < |mid.db.gigs| {
      RiderHistory(db, steps[..|steps| - 1], i);
      RiderStep(mid.db, last, i);
      assert RowStep(mid.db.gigs[i], Next(mid, last).db.gigs[i]);
    }
  }

  // In every run, a gig that has been taken on - accepted, under way, completed or failed - has no
  // rider if and only if a status update took it off offer and nobody reassigned it since it was put
  // there.
  lemma {:induction false} WithoutRiderExactly(db: Db, steps: seq<Step>, i: nat)
    requires db.gigs == []
    ensures var s := Sys(db, [], map[]);
      i < |Exec(s, steps).db.gigs| && Exec(s, steps).db.gigs[i].status in {Accepted, PickedUp, InTransit, Completed, Failed} ==>
        && Departure(s, steps, i).Some?
        && (Exec(s, steps).db.gigs[i].rider == None <==> Departure(s, steps, i).value.UpdateGigStatus? && !Reassigned(s, steps, i))
  {
    if i < |Exec(Sys(db, [], map[]), steps).db.gigs| {
      RiderHistory(db, steps, i);
    }
  }

  // A gig on offer has a rider if and only if somebody reassigned it there.
  lemma {:induction false} OfferedGigHasRiderExactly(db: Db, steps: seq<Step>, i: nat)
    requires db.gigs == []
    ensures var s := Sys(db, [], map[]);
      i < |Exec(s, steps).db.gigs| && Exec(s, steps).db.gigs[i].status == Broadcasting ==>
        (Exec(s, steps).db.gigs[i].rider.Some? <==> Reassigned(s, steps, i))
  {
    if i < |Exec(Sys(db, [], map[]), steps).db.gigs| {
      RiderHistory(db, steps, i);
    }
  }

  // So a completion pays nobody if and only if its earning is not positive, the gig's rider has an
  // empty id, or a status update took the gig off offer and nobody reassigned it.
  lemma {:induction false} CompletionPaysNobodyExactly(db: Db, steps: seq<Step>, i: nat, earning: int)
    requires db.gigs == [] && i < |Exec(Sys(db, [], map[]), steps).db.gigs| && Exec(Sys(db, [], map[]), steps).db.gigs[i].status == InTransit
    ensures var s := Sys(db, [], map[]);
      var before := Exec(s, steps).db;
      var after := Update(before, before.gigs[i].id, Completed, earning);
      && after.gigs[i].status == Completed
      && Departure(s, steps, i).Some?
      && (after.wallets == before.wallets <==>
            || earning <= 0
            || before.gigs[i].rider == Some("")
            || (Departure(s, steps, i).value.UpdateGigStatus? && !Reassigned(s, steps, i)))
  {
    var before := Exec(Sys(db, [], map[]), steps).db;
    RunKeepsInv(Sys(db, [], map[]), steps);
    WithoutRiderExactly(db, steps, i);
    PaysExactly(before, i, earning);
  }

  lemma {:induction false} PaysExactly(db: Db, i: nat, earning: int)
    requires DistinctIds(db.gigs) && i < |db.gigs| && db.gigs[i].status == InTransit
    ensures var after := Update(db, db.gigs[i].id, Completed, earning);
      i < |after.gigs| && after.gigs[i].status == Completed && (after.wallets != db.wallets <==> Earns(db.gigs[i].rider, earning))
  {
    assert FindGig(db.gigs, db.gigs[i].id) == Some(i);
    if Earns(db.gigs[i].rider, earning) {
      CreditChanges(db.wallets, db.gigs[i].rider.value, earning);
    }
  }

  lemma {:induction false} CreditChanges(wallets: map<string, Wallet>, rider: string, amount: int)
    requires amount > 0
    ensures Credit(wallets, rider, amount) != wallets
  {
    if rider in wallets {
      assert Credit(wallets, rider, amount)[rider].balance != wallets[rider].balance;
    }
  }

  // A gig on offer that nobody has reassigned goes to its end by updates alone, and pays nobody.
  lemma {:induction false} UnassignedGigPaysNobody(db0: Db, steps: seq<Step>, i: nat, earning: int)
    requires db0.gigs == [] && i < |Exec(Sys(db0, [], map[]), steps).db.gigs|
    requires Exec(Sys(db0, [], map[]), steps).db.gigs[i].status == Broadcasting && !Reassigned(Sys(db0, [], map[]), steps, i)
    ensures var db := Exec(Sys(db0, [], map[]), steps).db;
      var id := db.gigs[i].id;
      var pickedUp := Update(Update(db, id, Accepted, earning), id, PickedUp, earning);
      Update(Update(pickedUp, id, InTransit, earning), id, Completed, earning)
        == db.(gigs := db.gigs[i := db.gigs[i].(status := Completed)])
  {
    RunKeepsInv(Sys(db0, [], map[]), steps);
    OfferedGigHasRiderExactly(db0, steps, i);
    MoveToEnd(Exec(Sys(db0, [], map[]), steps).db, i, earning);
  }

  lemma {:induction false} MoveToEnd(db: Db, i: nat, earning: int)
    requires DistinctIds(db.gigs) && i < |db.gigs| && db.gigs[i].rider == None && db.gigs[i].status == Broadcasting
    ensures var id := db.gigs[i].id;
      var pickedUp := Update(Update(db, id, Accepted, earning), id, PickedUp, earning);
      Update(Update(pickedUp, id, InTransit, earning), id, Completed, earning)
        == db.(gigs := db.gigs[i := db.gigs[i].(status := Completed)])
  {
    var id := db.gigs[i].id;
    MoveOn(db, i, Accepted, earning);
    var db1 := Update(db, id, Accepted, earning);
    MoveOn(db1, i, PickedUp, earning);
    var db2 := Update(db1, id, PickedUp, earning);
    MoveOn(db2, i, InTransit, earning);
    var db3 := Update(db2, id, InTransit, earning);
    MoveOn(db3, i, Completed, earning);
    assert db3.gigs[i := db3.gigs[i].(status := Completed)] == db.gigs[i := db.gigs[i].(status := Completed)];
  }

  lemma {:induction false} MoveOn(db: Db, i: nat, status: Status, earning: int)
    requires DistinctIds(db.gigs) && i < |db.gigs| && db.gigs[i].rider == None && status in Transitions(db.gigs[i].status)
    requires status != Broadcasting
    ensures Update(db, db.gigs[i].id, status, earning) == db.(gigs := db.gigs[i := db.gigs[i].(status := status)])
    ensures DistinctIds(db.gigs[i := db.gigs[i].(status := status)])
  {
    assert FindGig(db.gigs, db.gigs[i].id) == Some(i);
  }

  // ----- Acceptances through the check -----

  // The acceptance of step k gives the gig to the rider, who may take it at that moment.
  ghost predicate TakenAt(s: Sys, steps: seq<Step>, k: int, i: nat) {
    && 0 <= k < |steps| && steps[k].AcceptGigWithEligibility?
    && var db := Exec(s, steps[..k]).db;
    && MayTake(db, i, steps[k].rider, steps[k].inZone, steps[k].limit) && db.gigs[i].id == steps[k].id
  }

  lemma {:induction false} CheckedStep(db: Db, step: Step, i: nat)
    requires step.AcceptGigWithEligibility? && i < |db.gigs| && DistinctIds(db.gigs)
    ensures i < |NextDb(db, step).gigs|
    ensures NextDb(db, step).gigs[i] == if db.gigs[i].id == step.id && MayTake(db, i, step.rider, step.inZone, step.limit)
      then db.gigs[i].(status := Accepted, rider := Some(step.rider)) else db.gigs[i]
  {
    var row := FindGig(db.gigs, step.id);
    if row.Some? {
      EligibleExactly(db, row.value, step.rider, step.inZone, step.limit);
    }
  }

  // In every run, a gig that the check took off offer was taken in a step at which its order was paid,
  // about to be settled, or unpaid cash on delivery; its rider not known to be unverified, able to take
  // the cash, in the zone and not on the road; and its pickup point known.
  lemma {:induction false} EveryCheckedGigMayBeTaken(db: Db, steps: seq<Step>, i: nat)
    requires db.gigs == []
    ensures Departure(Sys(db, [], map[]), steps, i).Some? && Departure(Sys(db, [], map[]), steps, i).value.AcceptGigWithEligibility? ==>
      exists k :: TakenAt(Sys(db, [], map[]), steps, k, i) && steps[k] == Departure(Sys(db, [], map[]), steps, i).value
  {
    var s := Sys(db, [], map[]);
    if Departure(s, steps, i).Some? && Departure(s, steps, i).value.AcceptGigWithEligibility? {
      var n := |steps| - 1;
      var mid := Exec(s, steps[..n]);
      RunKeepsInv(s, steps[..n]);
      StepRows(mid.db, steps[n]);
      NewRow(mid.db, steps[n]);
      if i < |mid.db.gigs| && mid.db.gigs[i].status == Broadcasting {
        CheckedStep(mid.db, steps[n], i);
        assert TakenAt(s, steps, n, i);
      } else {
        EveryCheckedGigMayBeTaken(db, steps[..n], i);
        var k :| TakenAt(s, steps[..n], k, i) && steps[..n][k] == Departure(s, steps[..n], i).value;
        assert steps[..n][..k] == steps[..k];
        assert TakenAt(s, steps, k, i);
      }
    }
  }

  // ----- One gig at a time -----

  predicate UnderWay(g: Gig, rider: string) {
    g.rider == Some(rider) && g.status in {Accepted, PickedUp, InTransit}
  }

  ghost predicate OneAtATime(gigs: seq<Gig>, rider: string) {
    forall i, j :: 0 <= i < j < |gigs| ==> !UnderWay(gigs[i], rider) || !UnderWay(gigs[j], rider)
  }

  ghost predicate HasAccepted(gigs: seq<Gig>, rider: string) {
    exists i :: 0 <= i < |gigs| && gigs[i].rider == Some(rider) && gigs[i].status == Accepted
  }

  ghost predicate OfferedHaveNoRider(gigs: seq<Gig>) {
    forall i :: 0 <= i < |gigs| && gigs[i].status == Broadcasting ==> gigs[i].rider == None
  }

  // The check for a delivery under way does not look for accepted gigs: an eligible acceptance gives
  // a rider a second gig if and only if the first is still accepted.
  lemma {:induction false} EligibleKeepsOneExactly(db: Db, i: nat, rider: string, inZone: bool, limit: int)
    requires i < |db.gigs| && Eligible(db, i, rider, inZone, limit) && OneAtATime(db.gigs, rider)
    ensures OneAtATime(Assign(db, i, rider).gigs, rider) <==> !HasAccepted(db.gigs, rider)
  {
    var gigs := Assign(db, i, rider).gigs;
    assert UnderWay(gigs[i], rider);
    if j :| 0 <= j < |db.gigs| && db.gigs[j].rider == Some(rider) && db.gigs[j].status == Accepted {
      assert UnderWay(gigs[j], rider) && j != i;
    } else {
      forall j | 0 <= j < |db.gigs| && j != i ensures !UnderWay(gigs[j], rider) {
        assert gigs[j] == db.gigs[j] && !(gigs[j].rider == Some(rider) && gigs[j].status in {InTransit, PickedUp});
      }
    }
  }

  // The step accepts a gig for a rider that has an accepted one.
  ghost predicate TakesSecond(db: Db, step: Step, rider: string) {
    && step.AcceptGigWithEligibility? && step.rider == rider && HasAccepted(db.gigs, rider)
    && FindGig(db.gigs, step.id).Some? && Eligible(db, FindGig(db.gigs, step.id).value, rider, step.inZone, step.limit)
  }

  // No step puts a gig into the hands of a rider other than through the eligibility check.
  ghost predicate ThroughCheck(step: Step) {
    !step.AcceptGig? && !step.ReassignRider?
  }

  lemma {:induction false} NotUnderWayAnew(db: Db, step: Step, rider: string, j: nat)
    requires j < |db.gigs| && ThroughCheck(step) && OfferedHaveNoRider(db.gigs)
    requires !(step.AcceptGigWithEligibility? && step.rider == rider)
    ensures j < |NextDb(db, step).gigs| && (UnderWay(NextDb(db, step).gigs[j], rider) ==> UnderWay(db.gigs[j], rider))
  {
  }

  lemma {:induction false} StepKeepsOneExactly(db: Db, step: Step, rider: string)
    requires ThroughCheck(step) && OfferedHaveNoRider(db.gigs) && OneAtATime(db.gigs, rider)
    ensures OneAtATime(NextDb(db, step).gigs, rider) <==> !TakesSecond(db, step, rider)
  {
    if step.AcceptGigWithEligibility? && step.rider == rider {
      var row := FindGig(db.gigs, step.id);
      if row.Some? && Eligible(db, row.value, rider, step.inZone, step.limit) {
        EligibleKeepsOneExactly(db, row.value, rider, step.inZone, step.limit);
      }
    } else {
      NewRow(db, step);
      StepRows(db, step);
      forall j: nat | j < |db.gigs| ensures UnderWay(NextDb(db, step).gigs[j], rider) ==> UnderWay(db.gigs[j], rider) {
        NotUnderWayAnew(db, step, rider, j);
      }
    }
  }

  ghost predicate AlwaysOne(s: Sys, steps: seq<Step>, rider: string) {
    OneAtATime(Exec(s, steps).db.gigs, rider) && (steps == [] || AlwaysOne(s, steps[..|steps| - 1], rider))
  }

  ghost predicate SomeSecond(s: Sys, steps: seq<Step>, rider: string) {
    steps != [] &&
    (SomeSecond(s, steps[..|steps| - 1], rider) || TakesSecond(Exec(s, steps[..|steps| - 1]).db, steps[|steps| - 1], rider))
  }

  lemma {:induction false} NeverReassigned(s: Sys, steps: seq<Step>, i: nat)
    requires forall k :: 0 <= k < |steps| ==> ThroughCheck(steps[k])
    ensures !Reassigned(s, steps, i)
  {
    if steps != [] {
      NeverReassigned(s, steps[..|steps| - 1], i);
    }
  }

  lemma {:induction false} NobodyOffered(db: Db, steps: seq<Step>)
    requires db.gigs == [] && forall k :: 0 <= k < |steps| ==> ThroughCheck(steps[k])
    ensures OfferedHaveNoRider(Exec(Sys(db, [], map[]), steps).db.gigs)
  {
    var gigs := Exec(Sys(db, [], map[]), steps).db.gigs;
    forall i: nat | i < |gigs| && gigs[i].status == Broadcasting ensures gigs[i].rider == None {
      NeverReassigned(Sys(db, [], map[]), steps, i);
      OfferedGigHasRiderExactly(db, steps, i);
    }
  }

  // So a rider has at most one gig under way throughout a run without reassignments if and only if
  // no acceptance of it found it with an accepted gig.
  lemma {:induction false} OneGigAtATimeExactly(db: Db, steps: seq<Step>, rider: string)
    requires db.gigs == [] && forall k :: 0 <= k < |steps| ==> ThroughCheck(steps[k])
    ensures AlwaysOne(Sys(db, [], map[]), steps, rider) <==> !SomeSecond(Sys(db, [], map[]), steps, rider)
  {
    if steps != [] {
      var n := |steps| - 1;
      OneGigAtATimeExactly(db, steps[..n], rider);
      NobodyOffered(db, steps[..n]);
      if OneAtATime(Exec(Sys(db, [], map[]), steps[..n]).db.gigs, rider) {
        StepKeepsOneExactly(Exec(Sys(db, [], map[]), steps[..n]).db, steps[n], rider);
      }
    }
  }
}
