// The stock reservation saga of the checkout: reserve in one transaction, compensate in another.
module Checkout {
  import opened Wrappers

  datatype Item = Item(productId: string, quantity: int)

  // product_tracking_id to stock.
  type Stock = map<string, int>

  // ----- Product ids -----

  // The white space of Unicode beyond ASCII.
  const OTHER_SPACES := [
    0x85, 0xA0, 0x1680, 0x2000, 0x2001, 0x2002, 0x2003, 0x2004, 0x2005, 0x2006, 0x2007, 0x2008, 0x2009, 0x200A,
    0x2028, 0x2029, 0x202F, 0x205F, 0x3000]

  predicate Listed(code: int, codes: seq<int>) {
    codes != [] && (codes[|codes| - 1] == code || Listed(code, codes[..|codes| - 1]))
  }

  predicate IsSpace(c: char) {
    9 <= c as int <= 13 || c == ' ' || Listed(c as int, OTHER_SPACES)
  }

  function TrimSpace(s: string): string {
    if s != "" && IsSpace(s[0]) then TrimSpace(s[1..])
    else if s != "" && IsSpace(s[|s| - 1]) then TrimSpace(s[..|s| - 1])
    else s
  }

  function ProductOf(item: Item): string {
    TrimSpace(item.productId)
  }

  lemma {:induction false} ListedIsIn(code: int, codes: seq<int>)
    ensures Listed(code, codes) <==> code in codes
  {
    if codes != [] {
      ListedIsIn(code, codes[..|codes| - 1]);
      assert codes == codes[..|codes| - 1] + [codes[|codes| - 1]];
    }
  }

  // The white space of Unicode.
  predicate WhiteSpace(code: int) {
    || 0x9 <= code <= 0xD || code == 0x20 || code == 0x85 || code == 0xA0 || code == 0x1680
    || 0x2000 <= code <= 0x200A || code == 0x2028 || code == 0x2029 || code == 0x202F || code == 0x205F || code == 0x3000
  }

  lemma {:induction false} SpacesExactly(c: char)
    ensures IsSpace(c) <==> WhiteSpace(c as int)
  {
    ListedIsIn(c as int, OTHER_SPACES);
  }

  predicate Blank(s: string) {
    forall k :: 0 <= k < |s| ==> WhiteSpace(s[k] as int)
  }

  lemma {:induction false} TrimsFront(before: string, s: string)
    requires Blank(before)
    ensures TrimSpace(before + s) == TrimSpace(s)
  {
    if before == "" {
      assert before + s == s;
    } else {
      SpacesExactly(before[0]);
      assert (before + s)[1..] == before[1..] + s;
      TrimsFront(before[1..], s);
    }
  }

  lemma {:induction false} TrimsBack(s: string, after: string)
    requires s != "" && !WhiteSpace(s[0] as int) && Blank(after)
    ensures TrimSpace(s + after) == TrimSpace(s)
  {
    if after == "" {
      assert s + after == s;
    } else {
      SpacesExactly(s[0]);
      SpacesExactly(after[|after| - 1]);
      assert (s + after)[..|s + after| - 1] == s + after[..|after| - 1];
      TrimsBack(s, after[..|after| - 1]);
    }
  }

  // White space around a product's id does not matter, and nothing else does.
  lemma {:induction false} PaddedIdNamesProduct(before: string, id: string, after: string, quantity: int)
    requires Blank(before) && Blank(after)
    requires id != "" ==> !WhiteSpace(id[0] as int) && !WhiteSpace(id[|id| - 1] as int)
    ensures ProductOf(Item(before + (id + after), quantity)) == id
  {
    TrimsFront(before, id + after);
    if id == "" {
      assert id + after == after + "";
      TrimsFront(after, "");
    } else {
      TrimsBack(id, after);
      SpacesExactly(id[0]);
      SpacesExactly(id[|id| - 1]);
    }
  }

  // ----- The two transactions -----

  // An UPDATE guarded by stock >= quantity; no row affected aborts the transaction.
  function Reserve(stock: Stock, items: seq<Item>): Option<Stock> {
    if items == [] then Some(stock)
    else
      var rest, item := Reserve(stock, items[..|items| - 1]), items[|items| - 1];
      var p := ProductOf(item);
      if rest.Some? && p != "" && p in rest.value && rest.value[p] >= item.quantity
      then Some(rest.value[p := rest.value[p] - item.quantity])
      else None
  }

  function Compensate(stock: Stock, items: seq<Item>): Stock {
    if items == [] then stock
    else
      var rest, item := Compensate(stock, items[..|items| - 1]), items[|items| - 1];
      var p := ProductOf(item);
      if p != "" && p in rest then rest[p := rest[p] + item.quantity] else rest
  }

  // How much of product p the items ask for, together.
  function Total(items: seq<Item>, p: string): int {
    if items == [] then 0
    else Total(items[..|items| - 1], p) + if ProductOf(items[|items| - 1]) == p then items[|items| - 1].quantity else 0
  }

  class CheckoutService {
    var stock: Stock

    constructor (stock: Stock)
      ensures this.stock == stock
    {
      this.stock := stock;
    }

    // The fields change only at the commit.
    method ReserveInventory(items: seq<Item>) returns (ok: bool)
      modifies this
      ensures ok <==> Reserve(old(stock), items).Some?
      ensures stock == if ok then Reserve(old(stock), items).value else old(stock)
    {
      var after := stock;
      for i := 0 to |items|
        invariant Reserve(stock, items[..i]) == Some(after)
      {
        assert items[..i + 1][..i] == items[..i];
        var p := ProductOf(items[i]);
        if p == "" || p !in after || after[p] < items[i].quantity {
          FailureSpreads(stock, items, i + 1);
          return false;
        }
        after := after[p := after[p] - items[i].quantity];
      }
      assert items[..|items|] == items;
      stock := after;
      ok := true;
    }

    method CompensateFailedInventory(items: seq<Item>)
      modifies this
      ensures stock == Compensate(old(stock), items)
    {
      var after := stock;
      for i := 0 to |items|
        invariant after == Compensate(stock, items[..i])
      {
        assert items[..i + 1][..i] == items[..i];
        var p := ProductOf(items[i]);
        if p == "" {
          continue;
        }
        if p in after {
          after := after[p := after[p] + items[i].quantity];
        }
      }
      assert items[..|items|] == items;
      stock := after;
    }

    // With nobody in between, a checkout whose payment cannot be set up leaves the stock as it was.
    method CreateCheckoutTransaction(items: seq<Item>, paymentOk: bool) returns (ok: bool)
      modifies this
      ensures ok <==> Reserve(old(stock), items).Some? && paymentOk
      ensures stock == if ok then Reserve(old(stock), items).value else old(stock)
    {
      var reserved := ReserveInventory(items);
      if !reserved {
        return false;
      }
      if !paymentOk {
        CompensateUndoesReserve(old(stock), items);
        CompensateFailedInventory(items);
        return false;
      }
      ok := true;
    }
  }

  lemma {:induction false} FailureSpreads(stock: Stock, items: seq<Item>, i: nat)
    requires i <= |items| && Reserve(stock, items[..i]).None?
    ensures Reserve(stock, items).None?
  {
    if i == |items| {
      assert items[..i] == items;
    } else {
      assert items[..|items| - 1][..i] == items[..i];
      FailureSpreads(stock, items[..|items| - 1], i);
    }
  }

  // ----- What the transactions do to each product -----

  lemma {:induction false} ReserveTakes(stock: Stock, items: seq<Item>, p: string)
    requires Reserve(stock, items).Some?
    ensures var after := Reserve(stock, items).value;
      && (p in after <==> p in stock)
      && (p in stock ==> after[p] == stock[p] - Total(items, p))
      && (p !in stock || p == "" ==> forall k :: 0 <= k < |items| ==> ProductOf(items[k]) != p)
  {
    if items != [] {
      ReserveTakes(stock, items[..|items| - 1], p);
    }
  }

  lemma {:induction false} CompensateReturns(stock: Stock, items: seq<Item>, p: string)
    ensures var after := Compensate(stock, items);
      && (p in after <==> p in stock)
      && (p in stock ==> after[p] == stock[p] + if p == "" then 0 else Total(items, p))
  {
    if items != [] {
      CompensateReturns(stock, items[..|items| - 1], p);
    }
  }

  lemma {:induction false} NobodyAsks(items: seq<Item>, p: string)
    requires forall k :: 0 <= k < |items| ==> ProductOf(items[k]) != p
    ensures Total(items, p) == 0
  {
    if items != [] {
      NobodyAsks(items[..|items| - 1], p);
    }
  }

  // Compensating right after reserving restores the stock, repeated items included.
  lemma {:induction false} CompensateUndoesReserve(stock: Stock, items: seq<Item>)
    requires Reserve(stock, items).Some?
    ensures Compensate(Reserve(stock, items).value, items) == stock
  {
    var reserved := Reserve(stock, items).value;
    var after := Compensate(reserved, items);
    forall p ensures (p in after <==> p in stock) && (p in stock ==> after[p] == stock[p]) {
      ReserveTakes(stock, items, p);
      CompensateReturns(reserved, items, p);
      if p == "" {
        NobodyAsks(items, p);
      }
    }
  }

  // ----- When a reservation succeeds -----

  ghost predicate Sane(items: seq<Item>) {
    forall k :: 0 <= k < |items| ==> items[k].quantity >= 0
  }

  // The product of item k is stocked, and with enough for all the items that ask for it.
  ghost predicate CoveredAt(stock: Stock, items: seq<Item>, k: nat)
    requires k < |items|
  {
    var p := ProductOf(items[k]);
    p != "" && p in stock && Total(items, p) <= stock[p]
  }

  ghost predicate Covered(stock: Stock, items: seq<Item>) {
    forall k :: 0 <= k < |items| ==> CoveredAt(stock, items, k)
  }

  lemma {:induction false} TotalGrows(items: seq<Item>, n: nat, p: string)
    requires Sane(items) && n <= |items|
    ensures 0 <= Total(items[..n], p) <= Total(items, p)
  {
    if n < |items| {
      var front := items[..|items| - 1];
      assert front[..n] == items[..n];
      TotalGrows(front, n, p);
    } else {
      assert items[..n] == items;
      if items != [] {
        TotalGrows(items[..|items| - 1], |items| - 1, p);
        assert items[..|items| - 1][..|items| - 1] == items[..|items| - 1];
      }
    }
  }

  lemma {:induction false} FrontIsCovered(stock: Stock, items: seq<Item>)
    requires Sane(items) && items != [] && Covered(stock, items)
    ensures Covered(stock, items[..|items| - 1])
  {
    var front := items[..|items| - 1];
    forall k | 0 <= k < |front| ensures CoveredAt(stock, front, k) {
      assert front[k] == items[k] && CoveredAt(stock, items, k);
      TotalGrows(items, |front|, ProductOf(front[k]));
    }
  }

  lemma {:induction false} LastIsCovered(stock: Stock, items: seq<Item>, k: nat)
    requires Sane(items) && k < |items| && Reserve(stock, items).Some? && Covered(stock, items[..|items| - 1])
    ensures CoveredAt(stock, items, k)
  {
    var n := |items| - 1;
    ReserveTakes(stock, items[..n], ProductOf(items[n]));
    if k < n {
      assert items[..n][k] == items[k] && CoveredAt(stock, items[..n], k);
    }
  }

  // With quantities that are not negative a reservation succeeds exactly when every item names a
  // stocked product that covers all the items that ask for it, taken together.
  lemma {:induction false} ReserveSucceedsExactly(stock: Stock, items: seq<Item>)
    requires Sane(items)
    ensures Reserve(stock, items).Some? <==> Covered(stock, items)
  {
    if items != [] {
      var n := |items| - 1;
      ReserveSucceedsExactly(stock, items[..n]);
      if Reserve(stock, items).Some? {
        forall k | 0 <= k < |items| ensures CoveredAt(stock, items, k) {
          LastIsCovered(stock, items, k);
        }
      }
      if Covered(stock, items) {
        FrontIsCovered(stock, items);
        ReserveTakes(stock, items[..n], ProductOf(items[n]));
        assert CoveredAt(stock, items, n);
      }
    }
  }

  // ----- Many checkouts at once -----

  // pending are the reservations whose payment is undecided, sold those whose payment was set up, and
  // moved is what the other writers of the stock have added to each product.
  datatype Sys = Sys(stock: Stock, pending: seq<seq<Item>>, sold: seq<seq<Item>>, moved: map<string, int>)

  datatype Step =
    | Checkout(items: seq<Item>)
    | PaymentFails(k: nat)
    | PaymentSucceeds(k: nat)
    // the product service: reserve under a guard, release, and a vendor's new value
    | TakeStock(product: string, quantity: int)
    | ReturnStock(product: string, quantity: int)
    | SetStock(product: string, value: int)

  function Moved(moved: map<string, int>, p: string): int {
    if p in moved then moved[p] else 0
  }

  // An update of a product's stock outside the checkout; without the product it matches no row.
  function Move(s: Sys, p: string, amount: int): Sys {
    if p in s.stock
    then s.(stock := s.stock[p := s.stock[p] + amount], moved := s.moved[p := Moved(s.moved, p) + amount])
    else s
  }

  function Without(all: seq<seq<Item>>, k: nat): seq<seq<Item>>
    requires k < |all|
  {
    all[..k] + all[k + 1..]
  }

  function Next(s: Sys, step: Step): Sys {
    match step
    case Checkout(items) =>
      var after := Reserve(s.stock, items);
      if after.Some? then s.(stock := after.value, pending := s.pending + [items]) else s
    case PaymentFails(k) =>
      if k < |s.pending| then s.(stock := Compensate(s.stock, s.pending[k]), pending := Without(s.pending, k)) else s
    case PaymentSucceeds(k) =>
      if k < |s.pending| then s.(pending := Without(s.pending, k), sold := s.sold + [s.pending[k]]) else s
    case TakeStock(p, quantity) => if p in s.stock && 0 < quantity <= s.stock[p] then Move(s, p, -quantity) else s
    case ReturnStock(p, quantity) => Move(s, p, quantity)
    case SetStock(p, value) => if p in s.stock then Move(s, p, value - s.stock[p]) else s
  }

  // The product service's updates of one product: a guarded reservation, a release, a new value.
  lemma {:induction false} ProductServiceExactly(s: Sys, p: string, amount: int)
    requires p in s.stock
    ensures Next(s, TakeStock(p, amount)).stock == if amount > 0 && s.stock[p] - amount >= 0 then s.stock[p := s.stock[p] - amount] else s.stock
    ensures Next(s, ReturnStock(p, amount)).stock == s.stock[p := s.stock[p] + amount]
    ensures Next(s, SetStock(p, amount)).stock == s.stock[p := amount]
  {
  }

  function Exec(s: Sys, steps: seq<Step>): Sys {
    if steps == [] then s else Next(Exec(s, steps[..|steps| - 1]), steps[|steps| - 1])
  }

  function TotalOf(all: seq<seq<Item>>, p: string): int {
    if all == [] then 0 else TotalOf(all[..|all| - 1], p) + Total(all[|all| - 1], p)
  }

  lemma {:induction false} TotalOfConcat(a: seq<seq<Item>>, b: seq<seq<Item>>, p: string)
    ensures TotalOf(a + b, p) == TotalOf(a, p) + TotalOf(b, p)
  {
    if b == [] {
      assert a + b == a;
    } else {
      assert (a + b)[..|a + b| - 1] == a + b[..|b| - 1];
      TotalOfConcat(a, b[..|b| - 1], p);
    }
  }

  lemma {:induction false} TotalOfOne(items: seq<Item>, p: string)
    ensures TotalOf([items], p) == Total(items, p)
  {
    assert [items][..0] == [];
  }

  lemma {:induction false} TotalOfWithout(all: seq<seq<Item>>, k: nat, p: string)
    requires k < |all|
    ensures TotalOf(all, p) == TotalOf(Without(all, k), p) + Total(all[k], p)
  {
    assert all == all[..k] + ([all[k]] + all[k + 1..]);
    TotalOfConcat(all[..k], [all[k]] + all[k + 1..], p);
    TotalOfConcat([all[k]], all[k + 1..], p);
    TotalOfConcat(all[..k], all[k + 1..], p);
    TotalOfOne(all[k], p);
  }

  // Items of a committed reservation never have an empty product.
  ghost predicate Named(all: seq<seq<Item>>) {
    forall k, m :: 0 <= k < |all| && 0 <= m < |all[k]| ==> ProductOf(all[k][m]) != ""
  }

  // What a step has to keep: reservations name products, and what there was of p is accounted for.
  ghost predicate Conserves(s: Sys, s': Sys, p: string) {
    && Named(s'.pending) && p in s'.stock && p in s.stock
    && s'.stock[p] + TotalOf(s'.pending, p) + TotalOf(s'.sold, p) - Moved(s'.moved, p)
         == s.stock[p] + TotalOf(s.pending, p) + TotalOf(s.sold, p) - Moved(s.moved, p)
  }

  lemma {:induction false} CheckoutConserves(s: Sys, items: seq<Item>, p: string)
    requires Named(s.pending) && p in s.stock
    ensures Conserves(s, Next(s, Checkout(items)), p)
  {
    if Reserve(s.stock, items).Some? {
      ReserveTakes(s.stock, items, p);
      ReserveTakes(s.stock, items, "");
      TotalOfConcat(s.pending, [items], p);
      TotalOfOne(items, p);
    }
  }

  lemma {:induction false} FailureConserves(s: Sys, k: nat, p: string)
    requires Named(s.pending) && p in s.stock && k < |s.pending|
    ensures Conserves(s, Next(s, PaymentFails(k)), p)
  {
    TotalOfWithout(s.pending, k, p);
    CompensateReturns(s.stock, s.pending[k], p);
    if p == "" {
      NobodyAsks(s.pending[k], p);
    }
  }

  lemma {:induction false} SuccessConserves(s: Sys, k: nat, p: string)
    requires Named(s.pending) && p in s.stock && k < |s.pending|
    ensures Conserves(s, Next(s, PaymentSucceeds(k)), p)
  {
    TotalOfWithout(s.pending, k, p);
    TotalOfConcat(s.sold, [s.pending[k]], p);
    TotalOfOne(s.pending[k], p);
  }

  lemma {:induction false} StepConserves(s: Sys, step: Step, p: string)
    requires Named(s.pending) && p in s.stock
    ensures Conserves(s, Next(s, step), p)
  {
    match step
    case Checkout(items) => CheckoutConserves(s, items, p);
    case PaymentFails(k) => if k < |s.pending| { FailureConserves(s, k, p); }
    case PaymentSucceeds(k) => if k < |s.pending| { SuccessConserves(s, k, p); }
    case _ =>
  }

  // However checkouts, failed payments, successful ones and the product service interleave, each
  // product's stock plus what is reserved plus what is sold is what there was and what the product
  // service added: a compensation restores exactly its own reservation, whatever others did in between.
  lemma {:induction false} StockIsConserved(stock: Stock, steps: seq<Step>, p: string)
    requires p in stock
    ensures var s := Exec(Sys(stock, [], [], map[]), steps);
      && Named(s.pending) && p in s.stock
      && s.stock[p] + TotalOf(s.pending, p) + TotalOf(s.sold, p) == stock[p] + Moved(s.moved, p)
  {
    if steps != [] {
      StockIsConserved(stock, steps[..|steps| - 1], p);
      StepConserves(Exec(Sys(stock, [], [], map[]), steps[..|steps| - 1]), steps[|steps| - 1], p);
    }
  }

  lemma {:induction false} StepKeepsProducts(s: Sys, step: Step, p: string)
    ensures p in Next(s, step).stock <==> p in s.stock
  {
    match step
    case Checkout(items) =>
      if Reserve(s.stock, items).Some? {
        ReserveTakes(s.stock, items, p);
      }
    case PaymentFails(k) =>
      if k < |s.pending| {
        CompensateReturns(s.stock, s.pending[k], p);
      }
    case _ =>
  }

  lemma {:induction false} ProductsStay(stock: Stock, steps: seq<Step>, p: string)
    requires p in Exec(Sys(stock, [], [], map[]), steps).stock
    ensures p in stock
  {
    if steps != [] {
      var mid, last := Exec(Sys(stock, [], [], map[]), steps[..|steps| - 1]), steps[|steps| - 1];
      StepKeepsProducts(mid, last, p);
      ProductsStay(stock, steps[..|steps| - 1], p);
    }
  }

  // When every payment has failed and been compensated the stock is what it was, but for what the
  // product service added.
  lemma {:induction false} AllFailedRestoresStock(stock: Stock, steps: seq<Step>)
    requires var s := Exec(Sys(stock, [], [], map[]), steps); s.pending == [] && s.sold == []
    ensures var s := Exec(Sys(stock, [], [], map[]), steps);
      && s.stock.Keys == stock.Keys
      && forall p :: p in stock ==> s.stock[p] == stock[p] + Moved(s.moved, p)
  {
    var s := Exec(Sys(stock, [], [], map[]), steps);
    forall p ensures (p in s.stock <==> p in stock) && (p in stock ==> s.stock[p] == stock[p] + Moved(s.moved, p)) {
      if p in stock {
        StockIsConserved(stock, steps, p);
      }
      if p in s.stock {
        ProductsStay(stock, steps, p);
      }
    }
  }

  // No product goes below zero, even with negative quantities in a reservation, until one with a
  // negative quantity is compensated.
  lemma {:induction false} ReserveNeverOversells(stock: Stock, items: seq<Item>)
    requires Reserve(stock, items).Some? && forall p :: p in stock ==> stock[p] >= 0
    ensures forall p :: p in Reserve(stock, items).value ==> Reserve(stock, items).value[p] >= 0
  {
    if items != [] {
      ReserveNeverOversells(stock, items[..|items| - 1]);
    }
  }

  ghost predicate AllSane(s: Sys) {
    (forall k :: 0 <= k < |s.pending| ==> Sane(s.pending[k])) && forall p :: p in s.stock ==> s.stock[p] >= 0
  }

  ghost predicate SaneStep(step: Step) {
    && (step.Checkout? ==> Sane(step.items))
    && (step.ReturnStock? ==> step.quantity >= 0)
    && (step.SetStock? ==> step.value >= 0)
  }

  lemma {:induction false} NeverOversold(stock: Stock, steps: seq<Step>)
    requires (forall p :: p in stock ==> stock[p] >= 0) && forall k :: 0 <= k < |steps| ==> SaneStep(steps[k])
    ensures AllSane(Exec(Sys(stock, [], [], map[]), steps))
  {
    if steps != [] {
      var mid, last := Exec(Sys(stock, [], [], map[]), steps[..|steps| - 1]), steps[|steps| - 1];
      NeverOversold(stock, steps[..|steps| - 1]);
      match last
      case Checkout(items) =>
        if Reserve(mid.stock, items).Some? {
          ReserveNeverOversells(mid.stock, items);
        }
      case PaymentFails(k) =>
        if k < |mid.pending| {
          forall p | p in Compensate(mid.stock, mid.pending[k]) ensures Compensate(mid.stock, mid.pending[k])[p] >= 0 {
            CompensateReturns(mid.stock, mid.pending[k], p);
            TotalGrows(mid.pending[k], |mid.pending[k]|, p);
            assert mid.pending[k][..|mid.pending[k]|] == mid.pending[k];
          }
        }
      case _ =>
    }
  }
}
