/** Invoices and payments: what a payment may change, and how the unpaid total and the aging report agree. */
module Receivables {
  import opened Wrappers
  import opened Sums
  import opened SortedStrings

  datatype InvoiceType = SalesInvoice | PurchaseInvoice

  // Some invoices have no date.
  datatype Invoice = Invoice(totalAmount: int, paidAmount: int, date: Option<int>)

  type Invoices = map<string, Invoice>

  datatype Payment = Payment(invoiceType: InvoiceType, invoiceId: string, amount: int)

  datatype Books = Books(sales: Invoices, purchases: Invoices, payments: seq<Payment>)

  datatype PaymentError = InvalidPaymentAmount | InvalidInvoiceType | InvoiceNotFound | InvoiceAlreadyFullyPaid

  function ParseType(s: string): Option<InvoiceType> {
    if s == "sales_invoice" then Some(SalesInvoice) else if s == "purchase_invoice" then Some(PurchaseInvoice) else None
  }

  function TableOf(b: Books, kind: InvoiceType): Invoices { if kind == SalesInvoice then b.sales else b.purchases }

  // ---- Paying ----

  // The first check that fails decides the error.
  function Refusal(b: Books, invoiceType: string, id: string, amount: int): Option<PaymentError> {
    if amount <= 0 then Some(InvalidPaymentAmount)
    else match ParseType(invoiceType)
      case None => Some(InvalidInvoiceType)
      case Some(kind) =>
        var table := TableOf(b, kind);
        if id !in table then Some(InvoiceNotFound)
        else if table[id].paidAmount + amount > table[id].totalAmount then Some(InvoiceAlreadyFullyPaid)
        else None
  }

  function WithPaid(table: Invoices, id: string, paid: int): Invoices
    requires id in table
  {
    table[id := table[id].(paidAmount := paid)]
  }

  function Paid(b: Books, kind: InvoiceType, id: string, amount: int): Books
    requires id in TableOf(b, kind)
  {
    var table := WithPaid(TableOf(b, kind), id, TableOf(b, kind)[id].paidAmount + amount);
    var payments := b.payments + [Payment(kind, id, amount)];
    if kind == SalesInvoice then b.(sales := table, payments := payments)
    else b.(purchases := table, payments := payments)
  }

  class Finance {
    var sales: Invoices
    var purchases: Invoices
    var payments: seq<Payment>

    ghost function Now(): Books reads this { Books(sales, purchases, payments) }

    constructor (sales: Invoices, purchases: Invoices)
      ensures Now() == Books(sales, purchases, [])
    {
      this.sales, this.purchases, payments := sales, purchases, [];
    }

    // Records the payment and raises the invoice's paid amount, or refuses and changes nothing.
    method CreatePayment(invoiceType: string, id: string, amount: int) returns (r: Result<(), PaymentError>)
      modifies this
      ensures match Refusal(old(Now()), invoiceType, id, amount)
        case Some(e) => r == Failure(e) && Now() == old(Now())
        case None => r == Success(()) && Now() == Paid(old(Now()), ParseType(invoiceType).value, id, amount)
    {
      if amount <= 0 { return Failure(InvalidPaymentAmount); }
      var kind := ParseType(invoiceType);
      if kind == None { return Failure(InvalidInvoiceType); }
      var table := if kind.value == SalesInvoice then sales else purchases;
      if id !in table { return Failure(InvoiceNotFound); }
      var newPaid := table[id].paidAmount + amount;
      if newPaid > table[id].totalAmount { return Failure(InvoiceAlreadyFullyPaid); }
      payments := payments + [Payment(kind.value, id, amount)];
      match kind.value {
        case SalesInvoice => sales := sales[id := sales[id].(paidAmount := newPaid)];
        case PurchaseInvoice => purchases := purchases[id := purchases[id].(paidAmount := newPaid)];
      }
      return Success(());
    }
  }

  // ---- Payments in plain terms ----

  // A payment is accepted exactly when it is positive, names one of the two kinds of invoice and an invoice of that
  // kind, and does not exceed what is unpaid of it; paying in full is accepted.
  lemma AcceptedExactly(b: Books, invoiceType: string, id: string, amount: int)
    ensures Refusal(b, invoiceType, id, amount) == None <==>
      && amount > 0
      && (|| (&& invoiceType == "sales_invoice" && id in b.sales
              && amount <= b.sales[id].totalAmount - b.sales[id].paidAmount)
          || (&& invoiceType == "purchase_invoice" && id in b.purchases
              && amount <= b.purchases[id].totalAmount - b.purchases[id].paidAmount))
  {
  }

  // Otherwise the error is of the first thing wrong.
  lemma RefusedBy(b: Books, invoiceType: string, id: string, amount: int)
    ensures amount <= 0 ==> Refusal(b, invoiceType, id, amount) == Some(InvalidPaymentAmount)
    ensures amount > 0 && invoiceType !in {"sales_invoice", "purchase_invoice"} ==>
      Refusal(b, invoiceType, id, amount) == Some(InvalidInvoiceType)
    ensures amount > 0 && ((invoiceType == "sales_invoice" && id !in b.sales)
                           || (invoiceType == "purchase_invoice" && id !in b.purchases)) ==>
      Refusal(b, invoiceType, id, amount) == Some(InvoiceNotFound)
    ensures amount > 0 && ((invoiceType == "sales_invoice" && id in b.sales
                            && b.sales[id].paidAmount + amount > b.sales[id].totalAmount)
                           || (invoiceType == "purchase_invoice" && id in b.purchases
                               && b.purchases[id].paidAmount + amount > b.purchases[id].totalAmount)) ==>
      Refusal(b, invoiceType, id, amount) == Some(InvoiceAlreadyFullyPaid)
  {
  }

  // A payment on one kind of invoice leaves the other kind, and all other invoices, alone.
  lemma PaidExactly(b: Books, id: string, amount: int)
    ensures id in b.sales ==> var r := Paid(b, SalesInvoice, id, amount);
      && r.purchases == b.purchases && r.payments == b.payments + [Payment(SalesInvoice, id, amount)]
      && r.sales.Keys == b.sales.Keys && (forall k :: k in b.sales && k != id ==> r.sales[k] == b.sales[k])
      && r.sales[id].paidAmount == b.sales[id].paidAmount + amount && r.sales[id].totalAmount == b.sales[id].totalAmount
    ensures id in b.purchases ==> var r := Paid(b, PurchaseInvoice, id, amount);
      && r.sales == b.sales && r.payments == b.payments + [Payment(PurchaseInvoice, id, amount)]
      && r.purchases.Keys == b.purchases.Keys
      && (forall k :: k in b.purchases && k != id ==> r.purchases[k] == b.purchases[k])
      && r.purchases[id].paidAmount == b.purchases[id].paidAmount + amount
      && r.purchases[id].totalAmount == b.purchases[id].totalAmount
    ensures ParseType("sales_invoice") == Some(SalesInvoice) && ParseType("purchase_invoice") == Some(PurchaseInvoice)
  {
  }

  // ---- Runs of payment requests ----

  datatype Request = Request(invoiceType: string, id: string, amount: int)

  function AfterAll(b: Books, requests: seq<Request>): Books
    decreases |requests|
  {
    if requests == [] then b
    else
      var mid, r := AfterAll(b, requests[..|requests| - 1]), requests[|requests| - 1];
      if Refusal(mid, r.invoiceType, r.id, r.amount).Some? then mid
      else Paid(mid, ParseType(r.invoiceType).value, r.id, r.amount)
  }

  // The payments recorded for one invoice.
  function Received(payments: seq<Payment>, kind: InvoiceType, id: string): int
    decreases |payments|
  {
    if payments == [] then 0
    else
      var p := payments[|payments| - 1];
      var rest := Received(payments[..|payments| - 1], kind, id);
      if p.invoiceType == kind && p.invoiceId == id then rest + p.amount else rest
  }

  predicate WithinTotals(table: Invoices) {
    forall id :: id in table ==> 0 <= table[id].paidAmount <= table[id].totalAmount
  }

  // The same invoices, each with its opening paid amount plus the payments recorded for it.
  ghost predicate Matches(opening: Invoices, table: Invoices, payments: seq<Payment>, kind: InvoiceType) {
    && table.Keys == opening.Keys
    && forall id :: id in table ==>
      table[id] == opening[id].(paidAmount := opening[id].paidAmount + Received(payments, kind, id))
  }

  ghost predicate InBalance(opening: Books, b: Books) {
    && Matches(opening.sales, b.sales, b.payments, SalesInvoice)
    && Matches(opening.purchases, b.purchases, b.payments, PurchaseInvoice)
  }

  lemma ReceivedOneMore(payments: seq<Payment>, p: Payment, kind: InvoiceType, id: string)
    ensures Received(payments + [p], kind, id) ==
      Received(payments, kind, id) + if p.invoiceType == kind && p.invoiceId == id then p.amount else 0
  {
    assert (payments + [p])[..|payments|] == payments;
  }

  // The table the payment is for ...
  lemma PaidMatches(opening: Invoices, table: Invoices, payments: seq<Payment>, kind: InvoiceType, id: string,
                    amount: int)
    requires Matches(opening, table, payments, kind) && id in table
    ensures var paid := WithPaid(table, id, table[id].paidAmount + amount);
      Matches(opening, paid, payments + [Payment(kind, id, amount)], kind)
  {
    forall i ensures Received(payments + [Payment(kind, id, amount)], kind, i) ==
      Received(payments, kind, i) + if id == i then amount else 0
    {
      ReceivedOneMore(payments, Payment(kind, id, amount), kind, i);
    }
  }

  // ... and the other one.
  lemma OtherMatches(opening: Invoices, table: Invoices, payments: seq<Payment>, kind: InvoiceType, p: Payment)
    requires Matches(opening, table, payments, kind) && p.invoiceType != kind
    ensures Matches(opening, table, payments + [p], kind)
  {
    forall i ensures Received(payments + [p], kind, i) == Received(payments, kind, i) {
      ReceivedOneMore(payments, p, kind, i);
    }
  }

  lemma PaidBalances(opening: Books, b: Books, kind: InvoiceType, id: string, amount: int)
    requires InBalance(opening, b) && id in TableOf(b, kind)
    ensures InBalance(opening, Paid(b, kind, id, amount))
  {
    PaidMatches(TableOf(opening, kind), TableOf(b, kind), b.payments, kind, id, amount);
    if kind == SalesInvoice {
      OtherMatches(opening.purchases, b.purchases, b.payments, PurchaseInvoice, Payment(kind, id, amount));
    } else {
      OtherMatches(opening.sales, b.sales, b.payments, SalesInvoice, Payment(kind, id, amount));
    }
  }

  // After any run of payment requests, refused ones included, every invoice's paid amount is its opening
  // amount plus the payments recorded for it, and stays between nothing and the invoice total.
  lemma {:induction false} PaymentsReconcile(opening: Books, requests: seq<Request>)
    requires opening.payments == [] && WithinTotals(opening.sales) && WithinTotals(opening.purchases)
    ensures var b := AfterAll(opening, requests);
      InBalance(opening, b) && WithinTotals(b.sales) && WithinTotals(b.purchases)
    decreases |requests|
  {
    if requests != [] {
      var n := |requests| - 1;
      PaymentsReconcile(opening, requests[..n]);
      var mid, r := AfterAll(opening, requests[..n]), requests[n];
      if Refusal(mid, r.invoiceType, r.id, r.amount) == None {
        PaidBalances(opening, mid, ParseType(r.invoiceType).value, r.id, r.amount);
      }
    }
  }

  // ---- Reports ----

  ghost function Unpaid(table: Invoices): string -> int {
    id => if id in table then table[id].totalAmount - table[id].paidAmount else 0
  }

  ghost function UnpaidTotal(table: Invoices): int { Sum(Unpaid(table), table.Keys) }

  // A payment lowers the unpaid total of its kind by its amount.
  lemma PaymentLowersUnpaid(table: Invoices, id: string, amount: int)
    requires id in table
    ensures UnpaidTotal(WithPaid(table, id, table[id].paidAmount + amount)) == UnpaidTotal(table) - amount
  {
    var after := WithPaid(table, id, table[id].paidAmount + amount);
    SumRemove(Unpaid(table), table.Keys, id);
    SumRemove(Unpaid(after), after.Keys, id);
    assert after.Keys == table.Keys;
    SumEq(Unpaid(after), Unpaid(table), table.Keys - {id});
  }

  // With nothing paid, the unpaid total is the total.
  lemma UnpaidAtFirst(table: Invoices, totals: string -> int)
    requires forall id :: id in table ==> table[id].paidAmount == 0 && totals(id) == table[id].totalAmount
    ensures UnpaidTotal(table) == Sum(totals, table.Keys)
  {
    SumEq(Unpaid(table), totals, table.Keys);
  }

  datatype Bucket = Days30 | Days60 | Days90 | Older

  function Label(b: Bucket): string {
    match b case Days30 => "0-30" case Days60 => "31-60" case Days90 => "61-90" case Older => "90+"
  }

  // An invoice dated in the future counts as new.
  function BucketOf(age: int): Bucket {
    if age <= 30 then Days30 else if age <= 60 then Days60 else if age <= 90 then Days90 else Older
  }

  // The invoices the aging report looks at: not paid in full, and dated.
  ghost function Aged(table: Invoices): set<string> {
    set id | id in table && table[id].totalAmount > table[id].paidAmount && table[id].date.Some?
  }

  ghost function InBucket(table: Invoices, today: int, b: Bucket): set<string> {
    set id | id in Aged(table) && BucketOf(today - table[id].date.value) == b
  }

  ghost function BucketAmount(table: Invoices, today: int, b: Bucket): int {
    Sum(Unpaid(table), InBucket(table, today, b))
  }

  datatype UnpaidBucket = UnpaidBucket(bucket: string, count: int, amount: int)

  // A bucket no invoice falls into is not reported.
  ghost function Reported(table: Invoices, today: int, b: Bucket): seq<UnpaidBucket> {
    var ids := InBucket(table, today, b);
    if ids == {} then [] else [UnpaidBucket(Label(b), |ids|, BucketAmount(table, today, b))]
  }

  ghost function UnpaidAging(table: Invoices, today: int): seq<UnpaidBucket> {
    Reported(table, today, Days30) + Reported(table, today, Days60)
    + Reported(table, today, Days90) + Reported(table, today, Older)
  }

  function AmountOf(rows: seq<UnpaidBucket>): int { if rows == [] then 0 else rows[0].amount + AmountOf(rows[1..]) }

  lemma {:induction false} AmountOfConcat(a: seq<UnpaidBucket>, b: seq<UnpaidBucket>)
    ensures AmountOf(a + b) == AmountOf(a) + AmountOf(b)
  {
    if a == [] {
      assert a + b == b;
    } else {
      AmountOfConcat(a[1..], b);
      assert (a + b)[1..] == a[1..] + b;
    }
  }

  lemma {:induction false} SumSplit<T(!new)>(f: T -> int, a: set<T>, b: set<T>)
    requires a !! b
    ensures Sum(f, a + b) == Sum(f, a) + Sum(f, b)
    decreases |a|
  {
    if a == {} {
      assert a + b == b;
    } else {
      var x :| x in a;
      SumRemove(f, a, x);
      SumRemove(f, a + b, x);
      assert a + b - {x} == a - {x} + b;
      SumSplit(f, a - {x}, b);
    }
  }

  lemma SumSplit3<T(!new)>(f: T -> int, a: set<T>, b: set<T>, c: set<T>, all: set<T>)
    requires a !! b && a !! c && b !! c && a + b + c == all
    ensures Sum(f, all) == Sum(f, a) + Sum(f, b) + Sum(f, c)
  {
    SumSplit(f, a, b);
    SumSplit(f, a + b, c);
  }

  lemma ReportedAmount(table: Invoices, today: int, b: Bucket)
    ensures AmountOf(Reported(table, today, b)) == BucketAmount(table, today, b)
  {
  }

  lemma BucketsPartition(table: Invoices, today: int)
    ensures var a, b, c, d := InBucket(table, today, Days30), InBucket(table, today, Days60),
                              InBucket(table, today, Days90), InBucket(table, today, Older);
      a !! b && a + b !! c && a + b + c !! d && a + b + c + d == Aged(table)
  {
  }

  lemma SumSplit4<T(!new)>(f: T -> int, a: set<T>, b: set<T>, c: set<T>, d: set<T>)
    requires a !! b && a + b !! c && a + b + c !! d
    ensures Sum(f, a + b + c + d) == Sum(f, a) + Sum(f, b) + Sum(f, c) + Sum(f, d)
    ensures |a + b + c + d| == |a| + |b| + |c| + |d|
  {
    SumSplit(f, a, b);
    SumSplit(f, a + b, c);
    SumSplit(f, a + b + c, d);
  }

  lemma BucketsCover(table: Invoices, today: int)
    ensures Sum(Unpaid(table), Aged(table)) ==
      BucketAmount(table, today, Days30) + BucketAmount(table, today, Days60)
      + BucketAmount(table, today, Days90) + BucketAmount(table, today, Older)
    ensures |Aged(table)| == |InBucket(table, today, Days30)| + |InBucket(table, today, Days60)|
                             + |InBucket(table, today, Days90)| + |InBucket(table, today, Older)|
  {
    BucketsPartition(table, today);
    SumSplit4(Unpaid(table), InBucket(table, today, Days30), InBucket(table, today, Days60),
              InBucket(table, today, Days90), InBucket(table, today, Older));
  }

  lemma AgingAmount(table: Invoices, today: int)
    ensures AmountOf(UnpaidAging(table, today)) == Sum(Unpaid(table), Aged(table))
  {
    var a, b, c, d := Reported(table, today, Days30), Reported(table, today, Days60),
                      Reported(table, today, Days90), Reported(table, today, Older);
    AmountOfConcat(a, b);
    AmountOfConcat(a + b, c);
    AmountOfConcat(a + b + c, d);
    ReportedAmount(table, today, Days30);
    ReportedAmount(table, today, Days60);
    ReportedAmount(table, today, Days90);
    ReportedAmount(table, today, Older);
    BucketsCover(table, today);
  }

  function CountOf(rows: seq<UnpaidBucket>): int { if rows == [] then 0 else rows[0].count + CountOf(rows[1..]) }

  lemma {:induction false} CountOfConcat(a: seq<UnpaidBucket>, b: seq<UnpaidBucket>)
    ensures CountOf(a + b) == CountOf(a) + CountOf(b)
  {
    if a == [] {
      assert a + b == b;
    } else {
      CountOfConcat(a[1..], b);
      assert (a + b)[1..] == a[1..] + b;
    }
  }

  lemma ReportedCount(table: Invoices, today: int, b: Bucket)
    ensures CountOf(Reported(table, today, b)) == |InBucket(table, today, b)|
  {
  }

  // Every unpaid dated invoice is counted in exactly one bucket.
  lemma AgingCounts(table: Invoices, today: int)
    ensures CountOf(UnpaidAging(table, today)) == |Aged(table)|
  {
    var a, b, c, d := Reported(table, today, Days30), Reported(table, today, Days60),
                      Reported(table, today, Days90), Reported(table, today, Older);
    CountOfConcat(a, b);
    CountOfConcat(a + b, c);
    CountOfConcat(a + b + c, d);
    ReportedCount(table, today, Days30);
    ReportedCount(table, today, Days60);
    ReportedCount(table, today, Days90);
    ReportedCount(table, today, Older);
    BucketsCover(table, today);
  }

  // The ages that a label names.
  predicate Covers(name: string, age: int) {
    match name
    case "0-30" => age <= 30
    case "31-60" => 31 <= age <= 60
    case "61-90" => 61 <= age <= 90
    case "90+" => 90 < age
    case _ => false
  }

  // The invoices not paid in full whose age a label names.
  ghost function Aging(table: Invoices, today: int, name: string): set<string> {
    set id | id in table && table[id].totalAmount > table[id].paidAmount && table[id].date.Some?
             && Covers(name, today - table[id].date.value)
  }

  lemma BucketIsRange(table: Invoices, today: int, b: Bucket)
    ensures InBucket(table, today, b) == Aging(table, today, Label(b))
  {
    forall id | id in Aged(table)
      ensures BucketOf(today - table[id].date.value) == b <==> Covers(Label(b), today - table[id].date.value)
    {
    }
  }

  // A row of the report counts and sums exactly the unpaid invoices of the ages its label names.
  ghost predicate RowExact(table: Invoices, today: int, row: UnpaidBucket) {
    var ids := Aging(table, today, row.bucket);
    ids != {} && row.count == |ids| && row.amount == Sum(Unpaid(table), ids)
  }

  ghost predicate RowsExact(table: Invoices, today: int, rows: seq<UnpaidBucket>) {
    forall i :: 0 <= i < |rows| ==> RowExact(table, today, rows[i])
  }

  predicate LabelsAscend(rows: seq<UnpaidBucket>) {
    forall i, j :: 0 <= i < j < |rows| ==> LexLeq(rows[i].bucket, rows[j].bucket) && rows[i].bucket != rows[j].bucket
  }

  lemma ReportedExact(table: Invoices, today: int, b: Bucket)
    ensures RowsExact(table, today, Reported(table, today, b))
    ensures forall i :: 0 <= i < |Reported(table, today, b)| ==> Reported(table, today, b)[i].bucket == Label(b)
    ensures |Reported(table, today, b)| <= 1
  {
    BucketIsRange(table, today, b);
  }

  // The labels are in order and begin with at most the given digit.
  predicate AscendTo(rows: seq<UnpaidBucket>, digit: char) {
    LabelsAscend(rows) && forall i :: 0 <= i < |rows| ==> rows[i].bucket != "" && rows[i].bucket[0] <= digit
  }

  lemma AscendMore(rows: seq<UnpaidBucket>, more: seq<UnpaidBucket>, low: char, high: char)
    requires AscendTo(rows, low) && low < high && |more| <= 1
    requires forall i :: 0 <= i < |more| ==> more[i].bucket != "" && more[i].bucket[0] == high
    ensures AscendTo(rows + more, high)
  {
  }

  lemma ExactConcat(table: Invoices, today: int, rows: seq<UnpaidBucket>, more: seq<UnpaidBucket>)
    requires RowsExact(table, today, rows) && RowsExact(table, today, more)
    ensures RowsExact(table, today, rows + more)
  {
  }

  lemma AgingRows(table: Invoices, today: int)
    ensures RowsExact(table, today, UnpaidAging(table, today)) && LabelsAscend(UnpaidAging(table, today))
  {
    var a, b, c, d := Reported(table, today, Days30), Reported(table, today, Days60),
                      Reported(table, today, Days90), Reported(table, today, Older);
    ReportedExact(table, today, Days30);
    ReportedExact(table, today, Days60);
    ReportedExact(table, today, Days90);
    ReportedExact(table, today, Older);
    ExactConcat(table, today, a, b);
    ExactConcat(table, today, a + b, c);
    ExactConcat(table, today, a + b + c, d);
    AscendMore(a, b, '0', '3');
    AscendMore(a + b, c, '3', '6');
    AscendMore(a + b + c, d, '6', '9');
  }

  ghost predicate InSomeRow(table: Invoices, today: int, id: string) {
    var rows := UnpaidAging(table, today);
    exists i :: 0 <= i < |rows| && id in Aging(table, today, rows[i].bucket)
  }

  // The report: labels in order, no empty bucket, each row exact, and no unpaid dated invoice missing.
  lemma AgingExact(table: Invoices, today: int)
    ensures var rows := UnpaidAging(table, today);
      && LabelsAscend(rows) && RowsExact(table, today, rows)
      && forall id :: id in Aged(table) ==> InSomeRow(table, today, id)
  {
    AgingRows(table, today);
    forall id | id in Aged(table)
      ensures InSomeRow(table, today, id)
    {
      InvoiceReported(table, today, id);
    }
  }

  lemma InvoiceReported(table: Invoices, today: int, id: string)
    requires id in Aged(table)
    ensures InSomeRow(table, today, id)
  {
    var b := BucketOf(today - table[id].date.value);
    var r30, r60, r90, old90 := Reported(table, today, Days30), Reported(table, today, Days60),
                                Reported(table, today, Days90), Reported(table, today, Older);
    var i := match b
      case Days30 => 0
      case Days60 => |r30|
      case Days90 => |r30| + |r60|
      case Older => |r30| + |r60| + |r90|;
    assert id in InBucket(table, today, b);
    assert UnpaidAging(table, today)[i] == Reported(table, today, b)[0];
    BucketIsRange(table, today, b);
  }

  ghost function Undated(table: Invoices): set<string> { set id | id in table && table[id].date == None }

  // Dated invoices paid in full or beyond.
  ghost function Settled(table: Invoices): set<string> {
    set id | id in table && table[id].date.Some? && table[id].totalAmount <= table[id].paidAmount
  }

  predicate Overpaid(inv: Invoice) { inv.paidAmount > inv.totalAmount }

  // The unpaid total is the aging report plus the undated invoices, less what dated invoices were overpaid.
  lemma TotalReconciles(table: Invoices, today: int)
    ensures UnpaidTotal(table) ==
      AmountOf(UnpaidAging(table, today)) + Sum(Unpaid(table), Undated(table)) + Sum(Unpaid(table), Settled(table))
  {
    AgingAmount(table, today);
    SumSplit3(Unpaid(table), Aged(table), Undated(table), Settled(table), table.Keys);
  }

  // So total and aging agree, undated invoices added, exactly when no dated invoice is overpaid, on
  // any day.
  lemma ReportsAgreeExactly(table: Invoices, today: int)
    ensures UnpaidTotal(table) == AmountOf(UnpaidAging(table, today)) + Sum(Unpaid(table), Undated(table))
      <==> forall id :: id in table && table[id].date.Some? ==> !Overpaid(table[id])
  {
    TotalReconciles(table, today);
    var f, s := Unpaid(table), Settled(table);
    SumMono(f, (_: string) => 0, s);
    SumBound((_: string) => 0, s, 0);
    if id :| id in table && table[id].date.Some? && Overpaid(table[id]) {
      SumStrict(f, (_: string) => 0, s, id);
    } else {
      SumEq(f, (_: string) => 0, s);
    }
  }

  // In particular after every run of payments.
  lemma ReportsAgreeAfterPayments(opening: Books, requests: seq<Request>, today: int, kind: InvoiceType)
    requires opening.payments == [] && WithinTotals(opening.sales) && WithinTotals(opening.purchases)
    ensures var table := TableOf(AfterAll(opening, requests), kind);
      UnpaidTotal(table) == AmountOf(UnpaidAging(table, today)) + Sum(Unpaid(table), Undated(table))
  {
    PaymentsReconcile(opening, requests);
    ReportsAgreeExactly(TableOf(AfterAll(opening, requests), kind), today);
  }
}
