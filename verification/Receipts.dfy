/**
 How an allocation is stored and shown (byInvoice and describeAllocation in
 packages/core/billing/allocation.ts). A JavaScript Map lists its keys in the order they were first
 set, so a map is modelled with the list of its keys.
 */
module Receipts {
  import opened Wrappers
  import Sorting
  import opened Allocation

  datatype Row<T> = Row(key: T, amount: int)

  function RowTotal<T>(rows: seq<Row<T>>): int {
    if rows == [] then 0 else RowTotal(rows[..|rows| - 1]) + rows[|rows| - 1].amount
  }

  lemma {:induction false} TotalOfOneMore(lines: seq<Line>, line: Line)
    ensures Total(lines + [line]) == Total(lines) + line.amount
  {
    if lines == [] {
      assert lines + [line] == [line];
    } else {
      TotalOfOneMore(lines[1..], line);
      assert (lines + [line])[1..] == lines[1..] + [line];
    }
  }

  /** What the lines put on one invoice. */
  function ForInvoice(lines: seq<Line>, id: string): int {
    if lines == [] then 0
    else ForInvoice(lines[..|lines| - 1], id)
         + if lines[|lines| - 1].invoiceId == id then lines[|lines| - 1].amount else 0
  }

  /** The invoices on the lines, in order of first appearance. */
  function Invoices(lines: seq<Line>): seq<string> {
    if lines == [] then []
    else
      var before, id := Invoices(lines[..|lines| - 1]), lines[|lines| - 1].invoiceId;
      if id in before then before else before + [id]
  }

  function InvoiceRows(ids: seq<string>, lines: seq<Line>): (r: seq<Row<string>>)
    ensures |r| == |ids|
  {
    if ids == [] then []
    else InvoiceRows(ids[..|ids| - 1], lines) + [Row(ids[|ids| - 1], ForInvoice(lines, ids[|ids| - 1]))]
  }

  lemma {:induction false} InvoicesAreThoseOnLines(lines: seq<Line>)
    ensures Distinct(Invoices(lines))
    ensures forall id :: id in Invoices(lines) <==> exists k :: 0 <= k < |lines| && lines[k].invoiceId == id
    ensures forall id :: id !in Invoices(lines) ==> ForInvoice(lines, id) == 0
  {
    if lines != [] {
      var front := lines[..|lines| - 1];
      InvoicesAreThoseOnLines(front);
      forall id | id in Invoices(lines) ensures exists k :: 0 <= k < |lines| && lines[k].invoiceId == id {
        if id in Invoices(front) {
          var k :| 0 <= k < |front| && front[k].invoiceId == id;
          assert lines[k].invoiceId == id;
        } else {
          assert lines[|lines| - 1].invoiceId == id;
        }
      }
      forall k | 0 <= k < |lines| ensures lines[k].invoiceId in Invoices(lines) {
        assert k < |front| ==> front[k].invoiceId == lines[k].invoiceId;
      }
    }
  }

  /** One more line raises the row of its invoice, if there is one, and no other. */
  lemma {:induction false} RowsAfterLine(ids: seq<string>, lines: seq<Line>, line: Line)
    requires Distinct(ids)
    ensures RowTotal(InvoiceRows(ids, lines + [line]))
         == RowTotal(InvoiceRows(ids, lines)) + if line.invoiceId in ids then line.amount else 0
  {
    if ids != [] {
      var front := ids[..|ids| - 1];
      RowsAfterLine(front, lines, line);
      assert (lines + [line])[..|lines|] == lines;
      assert line.invoiceId in ids <==> line.invoiceId in front || line.invoiceId == ids[|ids| - 1];
    }
  }

  lemma {:induction false} InvoiceRowsKeepTheSum(lines: seq<Line>)
    ensures RowTotal(InvoiceRows(Invoices(lines), lines)) == Total(lines)
  {
    if lines != [] {
      var front, line := lines[..|lines| - 1], lines[|lines| - 1];
      var before := Invoices(front);
      InvoiceRowsKeepTheSum(front);
      InvoicesAreThoseOnLines(front);
      FrontAndLast(lines);
      TotalOfOneMore(front, line);
      RowsAfterLine(before, front, line);
      if line.invoiceId !in before {
        assert (before + [line.invoiceId])[..|before|] == before;
      }
    }
  }

  /** One row per invoice, and together the rows come to what was paid. */
  method ByInvoice(lines: seq<Line>) returns (rows: seq<Row<string>>)
    ensures rows == InvoiceRows(Invoices(lines), lines) && RowTotal(rows) == Total(lines)
  {
    var totals: map<string, int> := map[];
    var ids: seq<string> := [];
    for i := 0 to |lines|
      invariant ids == Invoices(lines[..i])
      invariant forall id :: id in totals <==> id in ids
      invariant forall id :: id in totals ==> totals[id] == ForInvoice(lines[..i], id)
    {
      var line := lines[i];
      TakeOneMore(lines, i);
      assert lines[..i + 1][..i] == lines[..i];
      InvoicesAreThoseOnLines(lines[..i]);
      if line.invoiceId !in totals {
        ids := ids + [line.invoiceId];
      }
      totals := totals[line.invoiceId := (if line.invoiceId in totals then totals[line.invoiceId] else 0) + line.amount];
    }
    TakeAll(lines);
    rows := [];
    for i := 0 to |ids|
      invariant rows == InvoiceRows(ids[..i], lines)
    {
      TakeOneMore(ids, i);
      assert ids[..i + 1][..i] == ids[..i];
      rows := rows + [Row(ids[i], totals[ids[i]])];
    }
    TakeAll(ids);
    InvoiceRowsKeepTheSum(lines);
  }

  // ---------------------------------------------------------------- by category

  function ForCategory(lines: seq<Line>, c: Category): int {
    if lines == [] then 0
    else ForCategory(lines[..|lines| - 1], c)
         + if lines[|lines| - 1].category == c then lines[|lines| - 1].amount else 0
  }

  /** The categories with money on them, in the fixed order they are shown in. */
  function CategoryRows(categories: seq<Category>, lines: seq<Line>): seq<Row<Category>> {
    if categories == [] then []
    else
      var before, c := CategoryRows(categories[..|categories| - 1], lines), categories[|categories| - 1];
      if ForCategory(lines, c) > 0 then before + [Row(c, ForCategory(lines, c))] else before
  }

  lemma {:induction false} CategoriesSplitTheSum(lines: seq<Line>)
    ensures ForCategory(lines, Tax) + ForCategory(lines, Fee) + ForCategory(lines, Protection) + ForCategory(lines, Rent)
         == Total(lines)
  {
    if lines != [] {
      CategoriesSplitTheSum(lines[..|lines| - 1]);
      FrontAndLast(lines);
      TotalOfOneMore(lines[..|lines| - 1], lines[|lines| - 1]);
    }
  }

  lemma {:induction false} CategoryIsNotNegative(lines: seq<Line>, c: Category)
    requires forall k :: 0 <= k < |lines| ==> lines[k].amount >= 0
    ensures ForCategory(lines, c) >= 0
  {
    if lines != [] {
      CategoryIsNotNegative(lines[..|lines| - 1], c);
    }
  }

  function Positive(x: int): int {
    if x > 0 then x else 0
  }

  lemma CategoryRowTotal(categories: seq<Category>, c: Category, lines: seq<Line>)
    ensures RowTotal(CategoryRows(categories + [c], lines))
         == RowTotal(CategoryRows(categories, lines)) + Positive(ForCategory(lines, c))
  {
    assert (categories + [c])[..|categories|] == categories;
    var before := CategoryRows(categories, lines);
    var row := Row(c, ForCategory(lines, c));
    assert (before + [row])[..|before|] == before;
  }

  /** Nothing is lost from a receipt unless a category comes to less than nothing. */
  lemma CategoryRowsKeepTheSum(lines: seq<Line>)
    ensures RowTotal(CategoryRows(CATEGORIES, lines)) >= Total(lines)
    ensures RowTotal(CategoryRows(CATEGORIES, lines)) == Total(lines) <==>
              forall c :: ForCategory(lines, c) >= 0
  {
    CategoryRowTotal([], Tax, lines);
    CategoryRowTotal([Tax], Fee, lines);
    CategoryRowTotal([Tax, Fee], Protection, lines);
    CategoryRowTotal([Tax, Fee, Protection], Rent, lines);
    assert [] + [Tax] == [Tax];
    assert [Tax] + [Fee] == [Tax, Fee];
    assert [Tax, Fee] + [Protection] == [Tax, Fee, Protection];
    assert [Tax, Fee, Protection] + [Rent] == CATEGORIES;
    CategoriesSplitTheSum(lines);
  }

  /** A category is on the receipt iff money went to it, with all that did; no row is empty. */
  lemma {:induction false} WhichCategories(categories: seq<Category>, lines: seq<Line>, row: Row<Category>)
    ensures row in CategoryRows(categories, lines) <==>
              row.key in categories && row.amount == ForCategory(lines, row.key) && row.amount > 0
  {
    if categories != [] {
      var front, c := categories[..|categories| - 1], categories[|categories| - 1];
      WhichCategories(front, lines, row);
      assert row.key in categories <==> row.key in front || row.key == c;
    }
  }

  method DescribeAllocation(lines: seq<Line>) returns (rows: seq<Row<Category>>)
    ensures rows == CategoryRows(CATEGORIES, lines)
  {
    var totals: map<Category, int> := map[];
    for i := 0 to |lines|
      invariant forall c :: (if c in totals then totals[c] else 0) == ForCategory(lines[..i], c)
    {
      var line := lines[i];
      TakeOneMore(lines, i);
      assert lines[..i + 1][..i] == lines[..i];
      totals := totals[line.category := (if line.category in totals then totals[line.category] else 0) + line.amount];
    }
    TakeAll(lines);
    rows := [];
    for i := 0 to |CATEGORIES|
      invariant rows == CategoryRows(CATEGORIES[..i], lines)
    {
      var c := CATEGORIES[i];
      TakeOneMore(CATEGORIES, i);
      assert CATEGORIES[..i + 1][..i] == CATEGORIES[..i];
      assert (if c in totals then totals[c] else 0) == ForCategory(lines, c);
      if c in totals && totals[c] > 0 {
        rows := rows + [Row(c, totals[c])];
      }
    }
    TakeAll(CATEGORIES);
  }

  // ---------------------------------------------------------------- a payment and its receipts

  /** The rows stored per invoice and the rows shown per category each come to the payment less what was not applied. */
  lemma ReceiptsKeepThePayment(amount: int, targets: seq<Claim>, order: seq<Category>, le: Sorting.Rank<string>)
    ensures var r := Allocate(amount, targets, order, le);
            && RowTotal(InvoiceRows(Invoices(r.lines), r.lines)) + r.unapplied == Max(0, amount)
            && RowTotal(CategoryRows(CATEGORIES, r.lines)) + r.unapplied == Max(0, amount)
  {
    var r, queue := Allocate(amount, targets, order, le), Queue(targets, order, le);
    QueueOwes(targets, order, le);
    PayConserves(amount, queue);
    var lines := Pay(amount, queue);
    forall k | 0 <= k < |lines| ensures lines[k].amount >= 0 {
      PayClosedForm(amount, queue, k);
    }
    forall c ensures ForCategory(lines, c) >= 0 {
      CategoryIsNotNegative(lines, c);
    }
    InvoiceRowsKeepTheSum(lines);
    CategoryRowsKeepTheSum(lines);
  }
}
