/** Weighted-average costing: each purchase receipt recomputes the item's average, rounding down. */
module Costing {
  import opened Wrappers
  import opened Sums
  import opened InventoryLedger

  // The weighted-average rows of the cost table; older rows stay as history.
  datatype CostRow = CostRow(item: string, unitCost: int, isCurrent: bool)

  predicate IsCurrent(row: CostRow, item: string) { row.item == item && row.isCurrent }

  // The position of the item's current row among the first n.
  function CurrentAt(rows: seq<CostRow>, n: nat, item: string): Option<nat>
    requires n <= |rows|
  {
    if n == 0 then None else if IsCurrent(rows[n - 1], item) then Some(n - 1) else CurrentAt(rows, n - 1, item)
  }

  lemma {:induction false} CurrentFound(rows: seq<CostRow>, n: nat, item: string)
    requires n <= |rows|
    ensures var r := CurrentAt(rows, n, item);
      if r.Some? then r.value < n && IsCurrent(rows[r.value], item)
      else forall i :: 0 <= i < n ==> !IsCurrent(rows[i], item)
  {
    if n > 0 && !IsCurrent(rows[n - 1], item) { CurrentFound(rows, n - 1, item); }
  }

  function CurrentCost(rows: seq<CostRow>, item: string): Option<int> {
    CurrentFound(rows, |rows|, item);
    match CurrentAt(rows, |rows|, item) case None => None case Some(i) => Some(rows[i].unitCost)
  }

  // Division as on machine integers: toward zero.
  function Quotient(a: int, b: int): int
    requires b != 0
  {
    if (a >= 0) == (b > 0) then Abs(a) / Abs(b) else -(Abs(a) / Abs(b))
  }

  function Abs(a: int): nat { if a >= 0 then a else -a }

  // A negative receipt that takes all of a positive stock makes the program divide by zero.
  predicate Divides(current: Option<int>, total: int, qty: int) { current.Some? && total - qty > 0 ==> total != 0 }

  // `total` already includes the receipt.
  function NewAverage(current: Option<int>, total: int, qty: int, price: int): int
    requires Divides(current, total, qty)
  {
    var stockBefore := total - qty;
    if current.Some? && stockBefore > 0 then Quotient(stockBefore * current.value + qty * price, stockBefore + qty)
    else price
  }

  // The old current row becomes history and a new one is added.
  function Recosted(rows: seq<CostRow>, item: string, average: int): seq<CostRow> {
    CurrentFound(rows, |rows|, item);
    var flipped := match CurrentAt(rows, |rows|, item)
      case None => rows
      case Some(i) => rows[i := rows[i].(isCurrent := false)];
    flipped + [CostRow(item, average, true)]
  }

  method TotalStock(stock: Stocks, item: string) returns (total: int)
    ensures total == Total(stock, item)
  {
    total := 0;
    var todo := set p | p in stock && p.item == item;
    assert todo == ItemPlaces(stock, item);
    while todo != {}
      invariant todo <= ItemPlaces(stock, item)
      invariant total + Sum(QuantityAt(stock), todo) == Total(stock, item)
      decreases todo
    {
      var p :| p in todo;
      SumRemove(QuantityAt(stock), todo, p);
      total := total + stock[p].quantity;
      todo := todo - {p};
    }
  }

  class CostBook {
    var rows: seq<CostRow>

    constructor ()
      ensures rows == []
    {
      rows := [];
    }

    // None when the division fails: then the transaction is rolled back.
    method RecalcWeightedAverage(stock: Stocks, item: string, qty: int, price: int) returns (r: Option<int>)
      modifies this
      ensures r == if Divides(CurrentCost(old(rows), item), Total(stock, item), qty)
                   then Some(NewAverage(CurrentCost(old(rows), item), Total(stock, item), qty, price)) else None
      ensures rows == if r.Some? then Recosted(old(rows), item, r.value) else old(rows)
    {
      var current := CurrentAt(rows, |rows|, item);
      CurrentFound(rows, |rows|, item);
      var total := TotalStock(stock, item);
      var stockBefore := total - qty;
      var average: int;
      if current.Some? && stockBefore > 0 {
        if total == 0 { return None; }
        average := Quotient(stockBefore * rows[current.value].unitCost + qty * price, stockBefore + qty);
      } else {
        average := price;
      }
      if current.Some? {
        rows := rows[current.value := rows[current.value].(isCurrent := false)];
      }
      rows := rows + [CostRow(item, average, true)];
      return Some(average);
    }
  }

  // ---- One current row per item ----

  ghost predicate OneCurrent(rows: seq<CostRow>) {
    forall i, j :: 0 <= i < j < |rows| && rows[i].isCurrent && rows[j].isCurrent ==> rows[i].item != rows[j].item
  }

  lemma CurrentIs(rows: seq<CostRow>, item: string, i: nat)
    requires OneCurrent(rows) && i < |rows| && IsCurrent(rows[i], item)
    ensures CurrentCost(rows, item) == Some(rows[i].unitCost)
  {
    CurrentFound(rows, |rows|, item);
  }

  // Recosting keeps at most one current row per item, makes the new average the item's current cost, leaves
  // other items alone and rewrites no cost of the past.
  lemma RecostedOne(rows: seq<CostRow>, item: string, average: int, other: string)
    requires OneCurrent(rows)
    ensures var r := Recosted(rows, item, average);
      && OneCurrent(r)
      && CurrentCost(r, item) == Some(average)
      && (other != item ==> CurrentCost(r, other) == CurrentCost(rows, other))
      && |r| == |rows| + 1
      && forall i :: 0 <= i < |rows| ==> r[i].item == rows[i].item && r[i].unitCost == rows[i].unitCost
  {
    var r := Recosted(rows, item, average);
    CurrentFound(rows, |rows|, item);
    CurrentIs(r, item, |rows|);
    CurrentFound(rows, |rows|, other);
    CurrentFound(r, |r|, other);
    if other != item && CurrentCost(rows, other).Some? {
      CurrentIs(r, other, CurrentAt(rows, |rows|, other).value);
    }
  }

  // ---- Rounding ----

  lemma ScaleMono(d: int, a: int, b: int)
    requires d >= 0 && a <= b
    ensures d * a <= d * b
  {
  }

  lemma Unscale(d: int, a: int, b: int)
    requires d > 0 && d * a < d * b
    ensures a < b
  {
    if a >= b { ScaleMono(d, b, a); }
  }

  lemma Distribute(a: int, b: int, c: int)
    ensures (a + b) * c == a * c + b * c
  {
  }

  lemma QuotientBounds(a: int, d: int, low: int, high: int)
    requires d > 0 && d * low <= a <= d * high
    ensures low <= a / d <= high && 0 <= a - d * (a / d) < d
  {
    var q := a / d;
    assert a == d * q + a % d;
    Distribute(q, 1, d);
    Distribute(high, 1, d);
    Unscale(d, low, q + 1);
    Unscale(d, q, high + 1);
  }

  // A mix of two costs lies between bounds on them.
  lemma MixBounds(stock: int, average: int, qty: int, price: int, low: int, high: int)
    requires stock >= 0 && qty >= 0 && low <= average <= high && low <= price <= high
    ensures (stock + qty) * low <= stock * average + qty * price <= (stock + qty) * high
  {
    ScaleMono(stock, low, average);
    ScaleMono(stock, average, high);
    ScaleMono(qty, low, price);
    ScaleMono(qty, price, high);
    Distribute(stock, qty, low);
    Distribute(stock, qty, high);
  }

  lemma QuotientNat(a: int, b: int)
    requires a >= 0 && b > 0
    ensures Quotient(a, b) == a / b
  {
  }

  // The average of non-negative costs lies between them, and rounding loses less than one unit of cost per
  // unit of stock.
  lemma AverageBetween(stock: int, average: int, qty: int, price: int)
    requires stock > 0 && qty > 0 && average >= 0 && price >= 0
    ensures var r := NewAverage(Some(average), stock + qty, qty, price);
      && (if average <= price then average <= r <= price else price <= r <= average)
      && 0 <= stock * average + qty * price - (stock + qty) * r < stock + qty
  {
    var a, d := stock * average + qty * price, stock + qty;
    var low, high := if average <= price then average else price, if average <= price then price else average;
    MixBounds(stock, average, qty, price, low, high);
    ScaleMono(d, 0, low);
    QuotientBounds(a, d, low, high);
    QuotientNat(a, d);
  }

  lemma DivMod(a: nat, b: nat)
    requires b > 0
    ensures a == b * (a / b) + a % b && 0 <= a % b < b && 0 <= a / b
  {
  }

  // Division is toward zero: in size it loses less than the divisor, and its sign is that of the exact quotient.
  lemma QuotientTruncates(a: int, b: int)
    requires b != 0
    ensures var m := Abs(Quotient(a, b)); Abs(b) * m <= Abs(a) < Abs(b) * m + Abs(b)
    ensures Quotient(a, b) > 0 ==> (a > 0) == (b > 0)
    ensures Quotient(a, b) < 0 ==> (a > 0) != (b > 0)
  {
    DivMod(Abs(a), Abs(b));
    var m := Abs(a) / Abs(b);
    assert Abs(Quotient(a, b)) == m;
  }

  // Without stock before the receipt, or with less than none, the new average is the receipt's price; so it is for
  // an item without a cost.
  lemma PriceWithoutStock(current: Option<int>, total: int, qty: int, price: int)
    requires current == None || total - qty <= 0
    ensures Divides(current, total, qty) && NewAverage(current, total, qty, price) == price
  {
  }

  // Otherwise it is the cost of old stock and receipt over their quantity, toward zero.
  lemma AverageWithStock(average: int, stock: int, qty: int, price: int)
    requires stock > 0 && stock + qty != 0
    ensures NewAverage(Some(average), stock + qty, qty, price) == Quotient(stock * average + qty * price, stock + qty)
  {
  }

  // ---- Runs of purchases and sales of one item ----

  datatype State = State(books: Books, rows: seq<CostRow>, costIn: int, costOut: int)

  datatype Step =
    | Purchase(warehouse: string, qty: int, price: int)
    | Sale(warehouse: string, qty: int)
    | Move(source: string, target: string, qty: int)

  function Average(s: State, item: string): int {
    match CurrentCost(s.rows, item) case None => 0 case Some(c) => c
  }

  ghost function StockOf(s: State, item: string): int { Total(s.books.stock, item) }

  // What was paid, less what left at average, less what the stock on hand is worth at average.
  ghost function Gap(s: State, item: string): int { s.costIn - s.costOut - StockOf(s, item) * Average(s, item) }

  ghost predicate Next(item: string, s: State, step: Step, s': State) {
    match step
    case Purchase(warehouse, qty, price) =>
      var books := Received(s.books, Command(Place(item, warehouse), qty, Inbound));
      var total := Total(books.stock, item);
      && qty > 0 && price >= 0
      && Divides(CurrentCost(s.rows, item), total, qty)
      && s' == State(books, Recosted(s.rows, item, NewAverage(CurrentCost(s.rows, item), total, qty, price)),
                     s.costIn + qty * price, s.costOut)
    case Sale(warehouse, qty) =>
      && qty >= 0 && TryIssued(s.books, Command(Place(item, warehouse), qty, Outbound)) == Some(s'.books)
      && s' == State(s'.books, s.rows, s.costIn, s.costOut + qty * Average(s, item))
    case Move(source, target, qty) =>
      && qty >= 0 && TryTransferred(s.books, item, source, target, qty) == Some(s'.books)
      && s' == s.(books := s'.books)
  }

  ghost predicate Inv(item: string, s: State) {
    && NonNegative(s.books.stock) && OneCurrent(s.rows) && Average(s, item) >= 0
    && (CurrentCost(s.rows, item) == None ==> StockOf(s, item) == 0)
  }

  lemma TotalNonNegative(stock: Stocks, item: string)
    requires NonNegative(stock)
    ensures Total(stock, item) >= 0
  {
    SumMono((_: Place) => 0, QuantityAt(stock), ItemPlaces(stock, item));
    SumBound((_: Place) => 0, ItemPlaces(stock, item), 0);
  }

  // A purchase: the new average lies between the old one and the price, and is the price when there was no
  // stock; the gap grows by less than the stock on hand, and not at all when there was no stock.
  lemma PurchaseDrift(item: string, s: State, step: Step, s': State)
    requires Inv(item, s) && step.Purchase? && Next(item, s, step, s')
    ensures Inv(item, s') && StockOf(s', item) == StockOf(s, item) + step.qty
    ensures Gap(s, item) <= Gap(s', item) < Gap(s, item) + StockOf(s', item)
    ensures StockOf(s, item) == 0 ==> Average(s', item) == step.price && Gap(s', item) == Gap(s, item)
    ensures StockOf(s, item) > 0 ==> var was, became := Average(s, item), Average(s', item);
      if was <= step.price then was <= became <= step.price else step.price <= became <= was
  {
    var cmd := Command(Place(item, step.warehouse), step.qty, Inbound);
    TotalNonNegative(s.books.stock, item);
    TotalReceived(s.books, cmd, item);
    StepNonNegative(s.books, Receive(cmd));
    var stock := StockOf(s, item);
    var average := NewAverage(CurrentCost(s.rows, item), stock + step.qty, step.qty, step.price);
    RecostedOne(s.rows, item, average, item);
    assert Average(s', item) == average;
    if stock > 0 { AverageBetween(stock, Average(s, item), step.qty, step.price); }
  }

  // Sales and moves leave the average and the gap as they are.
  lemma OtherDrift(item: string, s: State, step: Step, s': State)
    requires Inv(item, s) && !step.Purchase? && Next(item, s, step, s')
    ensures Inv(item, s') && Gap(s', item) == Gap(s, item) && Average(s', item) == Average(s, item)
  {
    match step
    case Sale(warehouse, qty) =>
      var cmd := Command(Place(item, warehouse), qty, Outbound);
      TotalIssued(s.books, cmd, item);
      StepNonNegative(s.books, Issue(cmd));
      TotalNonNegative(s'.books.stock, item);
      Distribute(StockOf(s', item), qty, Average(s, item));
    case Move(source, target, qty) =>
      TotalChanges(s.books, Transfer(item, source, target, qty), item);
      StepNonNegative(s.books, Transfer(item, source, target, qty));
  }

  ghost predicate IsRun(item: string, states: seq<State>, steps: seq<Step>) {
    && |states| == |steps| + 1 && states[0] == State(Books(map[], []), [], 0, 0)
    && forall i :: 0 <= i < |steps| ==> Next(item, states[i], steps[i], states[i + 1])
  }

  // One less than the stock on hand after each purchase.
  ghost function RoundingRoom(item: string, states: seq<State>, steps: seq<Step>, n: nat): int
    requires n <= |steps| < |states|
  {
    if n == 0 then 0
    else RoundingRoom(item, states, steps, n - 1) + if steps[n - 1].Purchase? then StockOf(states[n], item) - 1 else 0
  }

  // Over any run from zero stock, what was paid never falls short of what left plus what is on hand, both at
  // average, and exceeds it by no more than rounding can lose.
  lemma {:induction false} DriftBounded(item: string, states: seq<State>, steps: seq<Step>, n: nat)
    requires IsRun(item, states, steps) && n <= |steps|
    ensures Inv(item, states[n]) && 0 <= Gap(states[n], item) <= RoundingRoom(item, states, steps, n)
  {
    if n > 0 {
      DriftBounded(item, states, steps, n - 1);
      if steps[n - 1].Purchase? {
        PurchaseDrift(item, states[n - 1], steps[n - 1], states[n]);
      } else {
        OtherDrift(item, states[n - 1], steps[n - 1], states[n]);
      }
    } else {
      assert ItemPlaces(map[], item) == {};
    }
  }

  // The gap never shrinks.
  lemma {:induction false} GapGrows(item: string, states: seq<State>, steps: seq<Step>, i: nat, j: nat)
    requires IsRun(item, states, steps) && i <= j < |states|
    ensures Gap(states[i], item) <= Gap(states[j], item)
    decreases j
  {
    if i < j {
      GapGrows(item, states, steps, i, j - 1);
      DriftBounded(item, states, steps, j - 1);
      if steps[j - 1].Purchase? {
        PurchaseDrift(item, states[j - 1], steps[j - 1], states[j]);
      } else {
        OtherDrift(item, states[j - 1], steps[j - 1], states[j]);
      }
    }
  }
}
