/**
 The tenant ledger (packages/core/billing/ledger.ts). Amounts are signed integer cents; `le` stands
 for `localeCompare(...) <= 0` on entry ids.
 */
module Ledger {
  import opened Wrappers
  import opened Sorting

  datatype Kind = Charge | Payment | Credit | Refund | Adjustment | WriteOff

  datatype Row = Row(id: string, kind: Kind, occurredAt: int, amount: int)

  datatype Line = Line(row: Row, balance: int)

  datatype Totals = Totals(charged: int, paid: int, credited: int, refunded: int, writtenOff: int, balance: int)

  predicate Before(le: Rank<string>, a: Row, b: Row) {
    if a.occurredAt != b.occurredAt then a.occurredAt < b.occurredAt else le(a.id, b.id)
  }

  function ByTime(le: Rank<string>): Rank<Row> {
    (a: Row, b: Row) => Before(le, a, b)
  }

  function Ordered(rows: seq<Row>, le: Rank<string>): seq<Row> {
    Sort(rows, ByTime(le))
  }

  function Sum(rows: seq<Row>): int {
    if rows == [] then 0 else Sum(rows[..|rows| - 1]) + rows[|rows| - 1].amount
  }

  /** The specification: beside each entry, the sum of the entries up to it. */
  function Balances(rows: seq<Row>): (r: seq<Line>)
    ensures |r| == |rows|
  {
    if rows == [] then [] else Balances(rows[..|rows| - 1]) + [Line(rows[|rows| - 1], Sum(rows))]
  }

  method RunningBalance(rows: seq<Row>, le: Rank<string>) returns (lines: seq<Line>)
    ensures lines == Balances(Ordered(rows, le))
  {
    var ordered := Ordered(rows, le);
    var balance := 0;
    lines := [];
    for i := 0 to |ordered|
      invariant lines == Balances(ordered[..i]) && balance == Sum(ordered[..i])
    {
      assert ordered[..i + 1][..i] == ordered[..i];
      balance := balance + ordered[i].amount;
      lines := lines + [Line(ordered[i], balance)];
    }
    TakeAll(ordered);
  }

  lemma {:induction false} BalanceAt(rows: seq<Row>, k: nat)
    requires k < |rows|
    ensures Balances(rows)[k] == Line(rows[k], Sum(rows[..k + 1]))
  {
    if k < |rows| - 1 {
      BalanceAt(rows[..|rows| - 1], k);
      assert rows[..|rows| - 1][..k + 1] == rows[..k + 1];
    } else {
      TakeAll(rows);
    }
  }

  lemma {:induction false} SumSplits(a: seq<Row>, b: seq<Row>)
    ensures Sum(a + b) == Sum(a) + Sum(b)
  {
    if b == [] {
      assert a + b == a;
    } else {
      SumSplits(a, b[..|b| - 1]);
      assert (a + b)[..|a + b| - 1] == a + b[..|b| - 1];
    }
  }

  lemma SumOfHeadAndTail(row: Row, rest: seq<Row>)
    ensures Sum([row] + rest) == row.amount + Sum(rest)
  {
    SumSplits([row], rest);
    assert Sum([row]) == Sum([]) + row.amount;
  }

  lemma {:induction false} InsertKeepsTheSum(row: Row, rows: seq<Row>, rank: Rank<Row>)
    ensures Sum(Insert(row, rows, rank)) == row.amount + Sum(rows)
  {
    if rows == [] || rank(row, rows[0]) {
      SumOfHeadAndTail(row, rows);
    } else {
      InsertKeepsTheSum(row, rows[1..], rank);
      SumOfHeadAndTail(rows[0], Insert(row, rows[1..], rank));
      SumOfHeadAndTail(rows[0], rows[1..]);
      assert rows == [rows[0]] + rows[1..];
    }
  }

  lemma {:induction false} SortKeepsTheSum(rows: seq<Row>, rank: Rank<Row>)
    ensures Sum(Sort(rows, rank)) == Sum(rows)
  {
    if rows != [] {
      SortKeepsTheSum(rows[1..], rank);
      InsertKeepsTheSum(rows[0], Sort(rows[1..], rank), rank);
      SumOfHeadAndTail(rows[0], rows[1..]);
      assert rows == [rows[0]] + rows[1..];
    }
  }

  lemma BeforeIsPreorder(le: Rank<string>)
    requires TotalPreorder(le)
    ensures TotalPreorder(ByTime(le))
  {
    var rank := ByTime(le);
    forall a, b, c | rank(a, b) && rank(b, c) ensures rank(a, c) {
      assert Before(le, a, b) && Before(le, b, c);
      assert Before(le, a, c);
    }
    forall a, b ensures rank(a, b) || rank(b, a) {
      assert Before(le, a, b) || Before(le, b, a);
    }
  }

  /** The order of the ledger: by time, and by id within an instant; no entry lost. */
  lemma LedgerOrder(rows: seq<Row>, le: Rank<string>, i: nat, j: nat)
    requires TotalPreorder(le) && i < j < |rows|
    ensures multiset(Ordered(rows, le)) == multiset(rows)
    ensures var a, b := Ordered(rows, le)[i], Ordered(rows, le)[j];
            a.occurredAt < b.occurredAt || (a.occurredAt == b.occurredAt && le(a.id, b.id))
  {
    BeforeIsPreorder(le);
    SortPermutes(rows, ByTime(le));
    SortSorts(rows, ByTime(le));
    var rank := ByTime(le);
    assert rank(Ordered(rows, le)[i], Ordered(rows, le)[j]);
  }

  ghost predicate DistinctIds(rows: seq<Row>) {
    forall i, j :: 0 <= i < j < |rows| ==> rows[i].id != rows[j].id
  }

  lemma DistinctIdsRankApart(rows: seq<Row>, le: Rank<string>)
    requires DistinctIds(rows) && forall x, y :: le(x, y) && le(y, x) ==> x == y
    ensures DistinctRanks(rows, ByTime(le))
  {
    var rank := ByTime(le);
    forall i, j | 0 <= i < j < |rows| ensures !(rank(rows[i], rows[j]) && rank(rows[j], rows[i])) {
      assert !(Before(le, rows[i], rows[j]) && Before(le, rows[j], rows[i]));
    }
  }

  /** So the running balance does not depend on the order the entries came in: a statement reprinted is the same. */
  lemma LedgerIgnoresInputOrder(a: seq<Row>, b: seq<Row>, le: Rank<string>)
    requires TotalPreorder(le) && forall x, y :: le(x, y) && le(y, x) ==> x == y
    requires DistinctIds(a) && DistinctIds(b) && multiset(a) == multiset(b)
    ensures Balances(Ordered(a, le)) == Balances(Ordered(b, le))
  {
    BeforeIsPreorder(le);
    DistinctIdsRankApart(a, le);
    DistinctIdsRankApart(b, le);
    SortIgnoresInputOrder(a, b, ByTime(le));
  }

  // ---------------------------------------------------------------- the open items

  function Amounts(lines: seq<Line>): int {
    if lines == [] then 0 else Amounts(lines[..|lines| - 1]) + lines[|lines| - 1].row.amount
  }

  /** Where the open items start: after the last balance that is not positive. */
  function OpenFrom(lines: seq<Line>): (r: nat)
    ensures r <= |lines|
    ensures forall k :: r <= k < |lines| ==> lines[k].balance > 0
    ensures r > 0 ==> lines[r - 1].balance <= 0
  {
    if lines == [] || lines[|lines| - 1].balance <= 0 then |lines| else OpenFrom(lines[..|lines| - 1])
  }

  /** The longest run of entries at the end whose balances are all positive. */
  method OpenItems(rows: seq<Row>, le: Rank<string>) returns (items: seq<Line>)
    ensures var lines := Balances(Ordered(rows, le)); items == lines[OpenFrom(lines)..]
  {
    var lines := RunningBalance(rows, le);
    if |lines| == 0 || lines[|lines| - 1].balance <= 0 {
      return [];
    }
    var index := |lines| - 1;
    while index >= 0
      invariant -1 <= index < |lines|
      invariant forall k :: index < k < |lines| ==> lines[k].balance > 0
    {
      if lines[index].balance <= 0 {
        return lines[index + 1..];
      }
      index := index - 1;
    }
    return lines;
  }

  /** The balance the window starts from: the last one that is not positive, or nothing. */
  function SquareBefore(lines: seq<Line>): (r: int)
    ensures r <= 0
  {
    if OpenFrom(lines) == 0 then 0 else lines[OpenFrom(lines) - 1].balance
  }

  function Closing(lines: seq<Line>): int {
    if lines == [] then 0 else lines[|lines| - 1].balance
  }

  lemma {:induction false} TailSum(rows: seq<Row>, from: nat)
    requires from <= |rows|
    ensures Amounts(Balances(rows)[from..]) == Sum(rows) - Sum(rows[..from])
    decreases |rows|
  {
    if from < |rows| {
      var front, last := rows[..|rows| - 1], Balances(rows)[|rows| - 1];
      TailSum(front, from);
      assert front[..from] == rows[..from];
      assert Balances(rows)[from..] == Balances(front)[from..] + [last];
      assert (Balances(front)[from..] + [last])[..|front| - from] == Balances(front)[from..];
    } else {
      TakeAll(rows);
    }
  }

  /** The open items come to the closing balance less the balance they start from. */
  lemma OpenItemsSum(rows: seq<Row>)
    ensures var lines := Balances(rows);
            Amounts(lines[OpenFrom(lines)..]) == Closing(lines) - SquareBefore(lines)
  {
    var lines := Balances(rows);
    var from := OpenFrom(lines);
    TailSum(rows, from);
    if from > 0 {
      BalanceAt(rows, from - 1);
    }
    if rows != [] {
      BalanceAt(rows, |rows| - 1);
      TakeAll(rows);
    }
  }

  /**
   So they never come to less than is owed, and come to exactly what is owed just when the account
   was last square rather than in credit.
   */
  lemma OpenItemsAreTheBalanceIffLastSquare(rows: seq<Row>, le: Rank<string>)
    ensures var lines := Balances(Ordered(rows, le));
            && Amounts(lines[OpenFrom(lines)..]) >= Closing(lines)
            && (Amounts(lines[OpenFrom(lines)..]) == Closing(lines) <==> SquareBefore(lines) == 0)
  {
    OpenItemsSum(Ordered(rows, le));
  }

  /** After a credit of 100 a charge of 150 is listed in full, though 50 is owed. */
  lemma CreditThenChargeListsTooMuch(le: Rank<string>)
    ensures var lines := Balances(Ordered([Row("p", Payment, 0, -100), Row("c", Charge, 1, 150)], le));
            Closing(lines) == 50 && Amounts(lines[OpenFrom(lines)..]) == 150
  {
    var p, c := Row("p", Payment, 0, -100), Row("c", Charge, 1, 150);
    var rows := [p, c];
    assert rows[1..] == [c] && [c][1..] == [];
    assert Sort([c], ByTime(le)) == Insert(c, [], ByTime(le)) == [c];
    assert Before(le, p, c);
    assert Ordered(rows, le) == Insert(p, [c], ByTime(le)) == rows;
    TwoRows(p, c);
    OpenItemsSum(rows);
  }

  lemma TwoRows(p: Row, c: Row)
    requires p.amount == -100 && c.amount == 150
    ensures Closing(Balances([p, c])) == 50 && SquareBefore(Balances([p, c])) == -100
  {
    var rows := [p, c];
    assert rows[..1] == [p] && [p][..0] == [];
    assert Sum([p]) == Sum([]) - 100;
    var lines := Balances(rows);
    assert lines == Balances([p]) + [Line(c, 50)];
    assert Balances([p]) == Balances([]) + [Line(p, -100)];
    assert lines == [Line(p, -100), Line(c, 50)];
    assert lines[1].balance == 50 && lines[0].balance == -100;
    assert OpenFrom(lines) == 1;
  }

  // ---------------------------------------------------------------- totals

  function SumOf(rows: seq<Row>, kind: Kind): int {
    if rows == [] then 0
    else SumOf(rows[..|rows| - 1], kind) + if rows[|rows| - 1].kind == kind then rows[|rows| - 1].amount else 0
  }

  method LedgerTotals(rows: seq<Row>) returns (t: Totals)
    ensures t.charged == SumOf(rows, Charge) && t.paid == -SumOf(rows, Payment) && t.credited == -SumOf(rows, Credit)
    ensures t.refunded == SumOf(rows, Refund) && t.writtenOff == -SumOf(rows, WriteOff) && t.balance == Sum(rows)
  {
    t := Totals(0, 0, 0, 0, 0, 0);
    for i := 0 to |rows|
      invariant t.charged == SumOf(rows[..i], Charge) && t.paid == -SumOf(rows[..i], Payment)
      invariant t.credited == -SumOf(rows[..i], Credit) && t.refunded == SumOf(rows[..i], Refund)
      invariant t.writtenOff == -SumOf(rows[..i], WriteOff) && t.balance == Sum(rows[..i])
    {
      assert rows[..i + 1][..i] == rows[..i];
      var row := rows[i];
      t := t.(balance := t.balance + row.amount);
      match row.kind {
        case Charge => t := t.(charged := t.charged + row.amount);
        case Payment => t := t.(paid := t.paid - row.amount);
        case Credit => t := t.(credited := t.credited - row.amount);
        case Refund => t := t.(refunded := t.refunded + row.amount);
        case WriteOff => t := t.(writtenOff := t.writtenOff - row.amount);
        case Adjustment =>
      }
    }
    TakeAll(rows);
  }

  lemma {:induction false} SumOfSplits(a: seq<Row>, b: seq<Row>, kind: Kind)
    ensures SumOf(a + b, kind) == SumOf(a, kind) + SumOf(b, kind)
  {
    if b == [] {
      assert a + b == a;
    } else {
      SumOfSplits(a, b[..|b| - 1], kind);
      assert (a + b)[..|a + b| - 1] == a + b[..|b| - 1];
    }
  }

  lemma {:induction false} InsertKeepsEachKind(row: Row, rows: seq<Row>, rank: Rank<Row>, kind: Kind)
    ensures SumOf(Insert(row, rows, rank), kind) == SumOf([row], kind) + SumOf(rows, kind)
  {
    if rows == [] || rank(row, rows[0]) {
      SumOfSplits([row], rows, kind);
    } else {
      InsertKeepsEachKind(row, rows[1..], rank, kind);
      SumOfSplits([rows[0]], Insert(row, rows[1..], rank), kind);
      SumOfSplits([rows[0]], rows[1..], kind);
      assert rows == [rows[0]] + rows[1..];
    }
  }

  lemma {:induction false} SortKeepsEachKind(rows: seq<Row>, rank: Rank<Row>, kind: Kind)
    ensures SumOf(Sort(rows, rank), kind) == SumOf(rows, kind)
  {
    if rows != [] {
      SortKeepsEachKind(rows[1..], rank, kind);
      InsertKeepsEachKind(rows[0], Sort(rows[1..], rank), rank, kind);
      SumOfSplits([rows[0]], rows[1..], kind);
      assert rows == [rows[0]] + rows[1..];
    }
  }

  lemma {:induction false} KindsSplitTheSum(rows: seq<Row>)
    ensures Sum(rows) == SumOf(rows, Charge) + SumOf(rows, Payment) + SumOf(rows, Credit) + SumOf(rows, Refund)
                         + SumOf(rows, WriteOff) + SumOf(rows, Adjustment)
  {
    if rows != [] {
      KindsSplitTheSum(rows[..|rows| - 1]);
    }
  }

  /** The number at the foot of the ledger is the totals put together again, whatever order the entries came in. */
  lemma LedgerFootIsTheTotals(rows: seq<Row>, le: Rank<string>)
    ensures Closing(Balances(Ordered(rows, le))) == Sum(rows)
    ensures Sum(rows) == SumOf(rows, Charge) + SumOf(rows, Payment) + SumOf(rows, Credit) + SumOf(rows, Refund)
                         + SumOf(rows, WriteOff) + SumOf(rows, Adjustment)
  {
    KindsSplitTheSum(rows);
    SortKeepsTheSum(rows, ByTime(le));
    var ordered := Ordered(rows, le);
    if ordered != [] {
      BalanceAt(ordered, |ordered| - 1);
      TakeAll(ordered);
    }
  }
}
