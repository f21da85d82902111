/** The inventory ledger: a quantity per item and warehouse, and a log row for every change of one. */
module InventoryLedger {
  import opened Wrappers
  import opened Sums

  datatype Place = Place(item: string, warehouse: string)

  datatype Stock = Stock(quantity: int, version: int)

  type Stocks = map<Place, Stock>

  datatype TransactionType =
    | Inbound | Outbound | TransferIn | TransferOut | InventoryCheck | PurchaseReturn | MaterialPick

  datatype LogRow = LogRow(place: Place, txType: TransactionType, quantity: int, before: int, after: int)

  datatype Books = Books(stock: Stocks, log: seq<LogRow>)

  datatype Command = Command(place: Place, quantity: int, txType: TransactionType)

  // A place without a row holds nothing.
  function Quantity(stock: Stocks, p: Place): int { if p in stock then stock[p].quantity else 0 }

  function Version(stock: Stocks, p: Place): int { if p in stock then stock[p].version else 0 }

  // ---- Operations ----

  function Upserted(stock: Stocks, p: Place, quantity: int): Stocks {
    stock[p := Stock(quantity, Version(stock, p) + 1)]
  }

  function Recorded(b: Books, cmd: Command, after: int, before: int): Books {
    Books(Upserted(b.stock, cmd.place, after), b.log + [LogRow(cmd.place, cmd.txType, cmd.quantity, before, after)])
  }

  datatype Operation =
    | Receive(cmd: Command)
    | ForceIssue(cmd: Command)
    | Issue(cmd: Command)
    | Adjust(place: Place, newQuantity: int)
    | Transfer(item: string, source: string, target: string, quantity: int)

  function Received(b: Books, cmd: Command): Books {
    var before := Quantity(b.stock, cmd.place);
    Recorded(b, cmd, before + cmd.quantity, before)
  }

  function ForceIssued(b: Books, cmd: Command): Books {
    var before := Quantity(b.stock, cmd.place);
    Recorded(b, cmd, before - cmd.quantity, before)
  }

  // None when the stock does not suffice.
  function TryIssued(b: Books, cmd: Command): Option<Books> {
    if Quantity(b.stock, cmd.place) < cmd.quantity then None else Some(ForceIssued(b, cmd))
  }

  function Adjusted(b: Books, p: Place, newQuantity: int): Books {
    var before := Quantity(b.stock, p);
    if newQuantity == before then b
    else Recorded(b, Command(p, newQuantity - before, InventoryCheck), newQuantity, before)
  }

  function TryTransferred(b: Books, item: string, source: string, target: string, quantity: int): Option<Books> {
    match TryIssued(b, Command(Place(item, source), quantity, TransferOut))
    case None => None
    case Some(mid) => Some(Received(mid, Command(Place(item, target), quantity, TransferIn)))
  }

  function Applied(b: Books, op: Operation): Option<Books> {
    match op
    case Receive(cmd) => Some(Received(b, cmd))
    case ForceIssue(cmd) => Some(ForceIssued(b, cmd))
    case Issue(cmd) => TryIssued(b, cmd)
    case Adjust(p, q) => Some(Adjusted(b, p, q))
    case Transfer(item, source, target, quantity) => TryTransferred(b, item, source, target, quantity)
  }

  class Ledger {
    var stock: Stocks
    var log: seq<LogRow>

    ghost function Now(): Books reads this { Books(stock, log) }

    constructor (opening: Stocks)
      ensures Now() == Books(opening, [])
    {
      stock, log := opening, [];
    }

    method ReadQty(p: Place) returns (q: int)
      ensures q == Quantity(stock, p)
    {
      q := if p in stock then stock[p].quantity else 0;
    }

    method UpsertAndLog(cmd: Command, newQuantity: int, before: int)
      modifies this
      ensures Now() == Recorded(old(Now()), cmd, newQuantity, before)
    {
      if cmd.place in stock {
        stock := stock[cmd.place := Stock(newQuantity, stock[cmd.place].version + 1)];
      } else {
        stock := stock[cmd.place := Stock(newQuantity, 1)];
      }
      log := log + [LogRow(cmd.place, cmd.txType, cmd.quantity, before, newQuantity)];
    }

    method ReceiveStock(cmd: Command)
      modifies this
      ensures Applied(old(Now()), Receive(cmd)) == Some(Now())
    {
      var before := ReadQty(cmd.place);
      UpsertAndLog(cmd, before + cmd.quantity, before);
    }

    method ForceIssueStock(cmd: Command)
      modifies this
      ensures Applied(old(Now()), ForceIssue(cmd)) == Some(Now())
    {
      var before := ReadQty(cmd.place);
      UpsertAndLog(cmd, before - cmd.quantity, before);
    }

    method IssueStock(cmd: Command) returns (ok: bool)
      modifies this
      ensures Applied(old(Now()), Issue(cmd)) == if ok then Some(Now()) else None
      ensures !ok ==> Now() == old(Now())
    {
      var before := ReadQty(cmd.place);
      if before < cmd.quantity { return false; }
      UpsertAndLog(cmd, before - cmd.quantity, before);
      return true;
    }

    method AdjustStock(p: Place, newQuantity: int)
      modifies this
      ensures Applied(old(Now()), Adjust(p, newQuantity)) == Some(Now())
    {
      var before := ReadQty(p);
      var adjustment := newQuantity - before;
      if adjustment == 0 { return; }
      UpsertAndLog(Command(p, adjustment, InventoryCheck), newQuantity, before);
    }

    method TransferStock(item: string, source: string, target: string, quantity: int) returns (ok: bool)
      modifies this
      ensures Applied(old(Now()), Transfer(item, source, target, quantity)) == if ok then Some(Now()) else None
      ensures !ok ==> Now() == old(Now())
    {
      ok := IssueStock(Command(Place(item, source), quantity, TransferOut));
      if ok { ReceiveStock(Command(Place(item, target), quantity, TransferIn)); }
    }
  }

  // ---- Replay ----

  // The stock that the log leads to.
  function Replay(opening: Stocks, log: seq<LogRow>): Stocks
    decreases |log|
  {
    if log == [] then opening
    else
      var row := log[|log| - 1];
      Upserted(Replay(opening, log[..|log| - 1]), row.place, row.after)
  }

  // Each row starts from what the rows before it lead to.
  ghost predicate Chained(opening: Stocks, log: seq<LogRow>) {
    forall i :: 0 <= i < |log| ==> log[i].before == Quantity(Replay(opening, log[..i]), log[i].place)
  }

  ghost predicate InStep(opening: Stocks, b: Books) { b.stock == Replay(opening, b.log) && Chained(opening, b.log) }

  lemma RecordedInStep(opening: Stocks, b: Books, cmd: Command, after: int, before: int, r: Books)
    requires InStep(opening, b) && before == Quantity(b.stock, cmd.place) && r == Recorded(b, cmd, after, before)
    ensures InStep(opening, r)
  {
    var n := |b.log|;
    assert r.log[..n] == b.log;
    forall i | 0 <= i <= n ensures r.log[i].before == Quantity(Replay(opening, r.log[..i]), r.log[i].place) {
      if i < n { assert r.log[..i] == b.log[..i]; }
    }
  }

  lemma ReceivedInStep(opening: Stocks, b: Books, cmd: Command)
    requires InStep(opening, b)
    ensures InStep(opening, Received(b, cmd))
  {
    var before := Quantity(b.stock, cmd.place);
    RecordedInStep(opening, b, cmd, before + cmd.quantity, before, Received(b, cmd));
  }

  lemma IssuedInStep(opening: Stocks, b: Books, cmd: Command)
    requires InStep(opening, b)
    ensures InStep(opening, ForceIssued(b, cmd))
  {
    var before := Quantity(b.stock, cmd.place);
    RecordedInStep(opening, b, cmd, before - cmd.quantity, before, ForceIssued(b, cmd));
  }

  lemma AdjustedInStep(opening: Stocks, b: Books, p: Place, q: int)
    requires InStep(opening, b)
    ensures InStep(opening, Adjusted(b, p, q))
  {
    var before := Quantity(b.stock, p);
    if q != before {
      RecordedInStep(opening, b, Command(p, q - before, InventoryCheck), q, before, Adjusted(b, p, q));
    }
  }

  lemma AppliedInStep(opening: Stocks, b: Books, op: Operation)
    requires InStep(opening, b) && Applied(b, op).Some?
    ensures InStep(opening, Applied(b, op).value)
  {
    match op
    case Receive(cmd) => ReceivedInStep(opening, b, cmd);
    case ForceIssue(cmd) => IssuedInStep(opening, b, cmd);
    case Issue(cmd) => IssuedInStep(opening, b, cmd);
    case Adjust(p, q) => AdjustedInStep(opening, b, p, q);
    case Transfer(item, source, target, quantity) =>
      var give := Command(Place(item, source), quantity, TransferOut);
      IssuedInStep(opening, b, give);
      ReceivedInStep(opening, ForceIssued(b, give), Command(Place(item, target), quantity, TransferIn));
  }

  // A failed operation changes nothing.
  function AfterAll(b: Books, ops: seq<Operation>): Books
    decreases |ops|
  {
    if ops == [] then b
    else
      var mid := AfterAll(b, ops[..|ops| - 1]);
      match Applied(mid, ops[|ops| - 1]) case None => mid case Some(r) => r
  }

  // After any run of operations the log, replayed from the opening stock, gives every quantity and every
  // version, and each of its rows starts where the rows before it end.
  lemma {:induction false} LedgerReplays(opening: Stocks, ops: seq<Operation>)
    ensures InStep(opening, AfterAll(Books(opening, []), ops))
    decreases |ops|
  {
    if ops != [] {
      var n := |ops| - 1;
      LedgerReplays(opening, ops[..n]);
      var mid := AfterAll(Books(opening, []), ops[..n]);
      if Applied(mid, ops[n]).Some? { AppliedInStep(opening, mid, ops[n]); }
    }
  }

  // Consecutive rows of a place chain: the later starts where the earlier ends.
  lemma ConsecutiveRows(opening: Stocks, log: seq<LogRow>, i: nat, j: nat)
    requires Chained(opening, log) && i < j < |log| && log[i].place == log[j].place
    requires forall k :: i < k < j ==> log[k].place != log[j].place
    ensures log[j].before == log[i].after
  {
    QuantitySince(opening, log, log[j].place, i, j);
  }

  lemma {:induction false} QuantitySince(opening: Stocks, log: seq<LogRow>, p: Place, i: nat, j: nat)
    requires i < j <= |log| && log[i].place == p && forall k :: i < k < j ==> log[k].place != p
    ensures Quantity(Replay(opening, log[..j]), p) == log[i].after
    decreases j
  {
    assert log[..j][..j - 1] == log[..j - 1];
    if i < j - 1 { QuantitySince(opening, log, p, i, j - 1); }
  }

  function Moved(log: seq<LogRow>, p: Place): int
    decreases |log|
  {
    if log == [] then 0
    else
      var row := log[|log| - 1];
      Moved(log[..|log| - 1], p) + if row.place == p then row.after - row.before else 0
  }

  function RowCount(log: seq<LogRow>, p: Place): int
    decreases |log|
  {
    if log == [] then 0 else RowCount(log[..|log| - 1], p) + if log[|log| - 1].place == p then 1 else 0
  }

  // The quantity of a place is its opening quantity plus all that moved, and its version counts the moves.
  lemma {:induction false} QuantityIsSum(opening: Stocks, log: seq<LogRow>, p: Place)
    requires Chained(opening, log)
    ensures Quantity(Replay(opening, log), p) == Quantity(opening, p) + Moved(log, p)
    ensures Version(Replay(opening, log), p) == Version(opening, p) + RowCount(log, p)
    decreases |log|
  {
    if log != [] {
      var n := |log| - 1;
      forall i | 0 <= i < n ensures log[..n][i].before == Quantity(Replay(opening, log[..n][..i]), log[..n][i].place) {
        assert log[..n][..i] == log[..i];
      }
      QuantityIsSum(opening, log[..n], p);
      assert log[n].before == Quantity(Replay(opening, log[..n]), log[n].place);
    }
  }

  // ---- What the log says ----

  // The logged quantity is the size of the change; the types the ledger picks itself fix its sign.
  predicate Explained(row: LogRow) {
    match row.txType
    case TransferOut => row.after - row.before == -row.quantity
    case TransferIn => row.after - row.before == row.quantity
    case InventoryCheck => row.after - row.before == row.quantity && row.quantity != 0
    case _ => row.after - row.before == row.quantity || row.after - row.before == -row.quantity
  }

  // Callers leave the ledger's own types to the ledger.
  predicate CallerType(op: Operation) {
    (op.Receive? || op.ForceIssue? || op.Issue?) ==> op.cmd.txType !in {TransferIn, TransferOut, InventoryCheck}
  }

  ghost predicate AllExplained(log: seq<LogRow>) { forall i :: 0 <= i < |log| ==> Explained(log[i]) }

  lemma StepExplained(b: Books, op: Operation)
    requires AllExplained(b.log) && CallerType(op) && Applied(b, op).Some?
    ensures AllExplained(Applied(b, op).value.log) && b.log <= Applied(b, op).value.log
  {
  }

  // Every row of the log of any run explains its own change.
  lemma {:induction false} LogExplains(opening: Stocks, ops: seq<Operation>)
    requires forall i :: 0 <= i < |ops| ==> CallerType(ops[i])
    ensures AllExplained(AfterAll(Books(opening, []), ops).log)
    decreases |ops|
  {
    if ops != [] {
      var n := |ops| - 1;
      LogExplains(opening, ops[..n]);
      var mid := AfterAll(Books(opening, []), ops[..n]);
      if Applied(mid, ops[n]).Some? { StepExplained(mid, ops[n]); }
    }
  }

  function Places(op: Operation): set<Place> {
    match op
    case Receive(cmd) => {cmd.place}
    case ForceIssue(cmd) => {cmd.place}
    case Issue(cmd) => {cmd.place}
    case Adjust(p, _) => {p}
    case Transfer(item, source, target, _) => {Place(item, source), Place(item, target)}
  }

  // An operation leaves all other places alone, and never takes a row away.
  lemma OthersUntouched(b: Books, op: Operation, p: Place)
    requires Applied(b, op).Some? && p !in Places(op)
    ensures var r := Applied(b, op).value.stock; (p in r <==> p in b.stock) && (p in r ==> r[p] == b.stock[p])
  {
  }

  // ---- Conservation ----

  ghost function ItemPlaces(stock: Stocks, item: string): set<Place> { set p | p in stock && p.item == item }

  ghost function QuantityAt(stock: Stocks): Place -> int { p => Quantity(stock, p) }

  // The item's stock over all warehouses.
  ghost function Total(stock: Stocks, item: string): int { Sum(QuantityAt(stock), ItemPlaces(stock, item)) }

  lemma TotalUpserted(stock: Stocks, p: Place, q: int, item: string)
    ensures Total(Upserted(stock, p, q), item) ==
      Total(stock, item) + if p.item == item then q - Quantity(stock, p) else 0
  {
    var after := Upserted(stock, p, q);
    var had, has := ItemPlaces(stock, item), ItemPlaces(after, item);
    if p.item == item {
      SumRemove(QuantityAt(after), has, p);
      if p in stock { SumRemove(QuantityAt(stock), had, p); } else { assert had - {p} == had; }
      assert has - {p} == had - {p};
      SumEq(QuantityAt(after), QuantityAt(stock), has - {p});
    } else {
      assert has == had;
      SumEq(QuantityAt(after), QuantityAt(stock), had);
    }
  }

  lemma TotalReceived(b: Books, cmd: Command, item: string)
    ensures Total(Received(b, cmd).stock, item) ==
      Total(b.stock, item) + if cmd.place.item == item then cmd.quantity else 0
  {
    TotalUpserted(b.stock, cmd.place, Quantity(b.stock, cmd.place) + cmd.quantity, item);
  }

  lemma TotalIssued(b: Books, cmd: Command, item: string)
    ensures Total(ForceIssued(b, cmd).stock, item) ==
      Total(b.stock, item) - if cmd.place.item == item then cmd.quantity else 0
  {
    TotalUpserted(b.stock, cmd.place, Quantity(b.stock, cmd.place) - cmd.quantity, item);
  }

  // What an operation adds to an item's total, when it goes through.
  function Change(b: Books, op: Operation, item: string): int {
    match op
    case Receive(cmd) => if cmd.place.item == item then cmd.quantity else 0
    case ForceIssue(cmd) => if cmd.place.item == item then -cmd.quantity else 0
    case Issue(cmd) => if cmd.place.item == item then -cmd.quantity else 0
    case Adjust(p, q) => if p.item == item then q - Quantity(b.stock, p) else 0
    case Transfer(_, _, _, _) => 0
  }

  // A transfer conserves every item's total, also from a warehouse to itself; the other operations change
  // the total of their own item only, by their own quantity.
  lemma TotalChanges(b: Books, op: Operation, item: string)
    requires Applied(b, op).Some?
    ensures Total(Applied(b, op).value.stock, item) == Total(b.stock, item) + Change(b, op, item)
  {
    match op
    case Receive(cmd) => TotalReceived(b, cmd, item);
    case ForceIssue(cmd) => TotalIssued(b, cmd, item);
    case Issue(cmd) => TotalIssued(b, cmd, item);
    case Adjust(p, q) => TotalUpserted(b.stock, p, q, item);
    case Transfer(it, source, target, quantity) =>
      var give := Command(Place(it, source), quantity, TransferOut);
      TotalIssued(b, give, item);
      TotalReceived(ForceIssued(b, give), Command(Place(it, target), quantity, TransferIn), item);
  }

  // ---- When operations go through, and what they log ----

  // An issue or a transfer goes through exactly when the stock it takes from suffices; the others always do.
  lemma AppliedExactly(b: Books, op: Operation)
    ensures Applied(b, op).Some? <==>
      match op
      case Issue(cmd) => cmd.quantity <= Quantity(b.stock, cmd.place)
      case Transfer(item, source, _, quantity) => quantity <= Quantity(b.stock, Place(item, source))
      case _ => true
  {
  }

  // The rows an operation that goes through adds to the log.
  lemma LogsExactly(b: Books, op: Operation)
    requires Applied(b, op).Some?
    ensures var log, before := Applied(b, op).value.log, (p: Place) => Quantity(b.stock, p);
      match op
      case Receive(c) =>
        log == b.log + [LogRow(c.place, c.txType, c.quantity, before(c.place), before(c.place) + c.quantity)]
      case ForceIssue(c) =>
        log == b.log + [LogRow(c.place, c.txType, c.quantity, before(c.place), before(c.place) - c.quantity)]
      case Issue(c) =>
        log == b.log + [LogRow(c.place, c.txType, c.quantity, before(c.place), before(c.place) - c.quantity)]
      case Adjust(p, q) =>
        if q == before(p) then log == b.log
        else log == b.log + [LogRow(p, InventoryCheck, q - before(p), before(p), q)]
      case Transfer(item, source, target, q) =>
        var give, take := Place(item, source), Place(item, target);
        var there := if give == take then before(give) - q else before(take);
        log == b.log + [LogRow(give, TransferOut, q, before(give), before(give) - q)]
                     + [LogRow(take, TransferIn, q, there, there + q)]
  {
  }

  // The quantity of a place after an operation that goes through.
  lemma QuantityExactly(b: Books, op: Operation, p: Place)
    requires Applied(b, op).Some?
    ensures var now, after := Quantity(b.stock, p), Quantity(Applied(b, op).value.stock, p);
      match op
      case Receive(c) => after == if p == c.place then now + c.quantity else now
      case ForceIssue(c) => after == if p == c.place then now - c.quantity else now
      case Issue(c) => after == if p == c.place then now - c.quantity else now
      case Adjust(place, q) => after == if p == place then q else now
      case Transfer(item, source, target, q) =>
        after == now - (if p == Place(item, source) then q else 0) + (if p == Place(item, target) then q else 0)
  {
  }

  // ---- No negative stock ----

  ghost predicate NonNegative(stock: Stocks) { forall p :: Quantity(stock, p) >= 0 }

  // Operations as the callers use them: what comes in is not negative, and no issue is forced.
  predicate Orderly(op: Operation) {
    match op
    case Receive(cmd) => cmd.quantity >= 0
    case ForceIssue(_) => false
    case Issue(_) => true
    case Adjust(_, q) => q >= 0
    case Transfer(_, _, _, quantity) => quantity >= 0
  }

  // A successful issue never leaves a negative quantity behind.
  lemma IssueLeavesStock(b: Books, cmd: Command)
    requires TryIssued(b, cmd).Some?
    ensures Quantity(TryIssued(b, cmd).value.stock, cmd.place) >= 0
  {
  }

  // From stock that is nowhere negative, only a forced issue leads to a negative quantity.
  lemma {:induction false} NeverNegative(b: Books, ops: seq<Operation>)
    requires NonNegative(b.stock) && forall i :: 0 <= i < |ops| ==> Orderly(ops[i])
    ensures NonNegative(AfterAll(b, ops).stock)
    decreases |ops|
  {
    if ops != [] {
      var n := |ops| - 1;
      NeverNegative(b, ops[..n]);
      var mid := AfterAll(b, ops[..n]);
      if Applied(mid, ops[n]).Some? { StepNonNegative(mid, ops[n]); }
    }
  }

  lemma UpsertNonNegative(stock: Stocks, p: Place, q: int)
    requires NonNegative(stock) && q >= 0
    ensures NonNegative(Upserted(stock, p, q))
  {
    forall x ensures Quantity(Upserted(stock, p, q), x) >= 0 { assert Quantity(stock, x) >= 0; }
  }

  lemma StepNonNegative(b: Books, op: Operation)
    requires NonNegative(b.stock) && Orderly(op) && Applied(b, op).Some?
    ensures NonNegative(Applied(b, op).value.stock)
  {
    match op
    case Receive(cmd) => UpsertNonNegative(b.stock, cmd.place, Quantity(b.stock, cmd.place) + cmd.quantity);
    case Issue(cmd) => UpsertNonNegative(b.stock, cmd.place, Quantity(b.stock, cmd.place) - cmd.quantity);
    case Adjust(p, q) => UpsertNonNegative(b.stock, p, q);
    case Transfer(item, source, target, quantity) =>
      var give, take := Place(item, source), Place(item, target);
      UpsertNonNegative(b.stock, give, Quantity(b.stock, give) - quantity);
      var mid := Upserted(b.stock, give, Quantity(b.stock, give) - quantity);
      UpsertNonNegative(mid, take, Quantity(mid, take) + quantity);
  }
}
