/**
 Monthly statements (packages/core/billing/statements.ts), cut from the ledger. Instants are UTC
 milliseconds; months are indexed as in Calendar.
 */
module Statements {
  import opened Wrappers
  import opened Sorting
  import Calendar
  import opened Ledger

  datatype Period = Period(start: int, end: int)

  datatype Summary = Summary(charged: int, paid: int, credited: int, refunded: int, writtenOff: int, adjusted: int)

  datatype Statement = Statement(period: Period, opening: int, closing: int, lines: seq<Row>, totals: Summary)

  function ByOccurrence(): Rank<Row> {
    (a: Row, b: Row) => a.occurredAt <= b.occurredAt
  }

  function BuildStatement(period: Period, opening: int, input: seq<Row>): Statement {
    var lines := Sort(input, ByOccurrence());
    var totals := Summary(SumOf(lines, Charge), -SumOf(lines, Payment), -SumOf(lines, Credit), SumOf(lines, Refund),
                          -SumOf(lines, WriteOff), SumOf(lines, Adjustment));
    Statement(period, opening, opening + Sum(lines), lines, totals)
  }

  predicate Reconciles(s: Statement) {
    s.opening + Sum(s.lines) == s.closing
  }

  /** Each total is its kind's sum over the lines given, turned so that money paid, credited or written off is positive. */
  lemma TotalsAreByKind(period: Period, opening: int, input: seq<Row>)
    ensures var t := BuildStatement(period, opening, input).totals;
            && t.charged == SumOf(input, Charge) && t.refunded == SumOf(input, Refund)
            && t.adjusted == SumOf(input, Adjustment) && t.paid == -SumOf(input, Payment)
            && t.credited == -SumOf(input, Credit) && t.writtenOff == -SumOf(input, WriteOff)
  {
    var rank := ByOccurrence();
    SortKeepsEachKind(input, rank, Charge);
    SortKeepsEachKind(input, rank, Refund);
    SortKeepsEachKind(input, rank, Adjustment);
    SortKeepsEachKind(input, rank, Payment);
    SortKeepsEachKind(input, rank, Credit);
    SortKeepsEachKind(input, rank, WriteOff);
  }

  /** Opening, plus what the totals say happened, is closing; and the lines are those given, in order of time. */
  lemma StatementAddsUp(period: Period, opening: int, input: seq<Row>)
    ensures var s := BuildStatement(period, opening, input);
            && Reconciles(s) && multiset(s.lines) == multiset(input) && s.closing == opening + Sum(input)
            && s.closing == opening + s.totals.charged - s.totals.paid - s.totals.credited + s.totals.refunded
                            - s.totals.writtenOff + s.totals.adjusted
            && forall i, j :: 0 <= i < j < |s.lines| ==> s.lines[i].occurredAt <= s.lines[j].occurredAt
  {
    var rank := ByOccurrence();
    var lines := Sort(input, rank);
    SortPermutes(input, rank);
    assert forall a: Row, b: Row :: rank(a, b) == (a.occurredAt <= b.occurredAt);
    SortSorts(input, rank);
    SortKeepsTheSum(input, rank);
    KindsSplitTheSum(lines);
  }

  /** Lines of one instant keep the order they were given in. */
  lemma LinesOfAnInstantKeepTheirOrder(period: Period, opening: int, input: seq<Row>, row: Row)
    ensures Ties(BuildStatement(period, opening, input).lines, row, ByOccurrence()) == Ties(input, row, ByOccurrence())
  {
    var rank := ByOccurrence();
    assert forall a: Row, b: Row :: rank(a, b) == (a.occurredAt <= b.occurredAt);
    SortIsStable(input, row, rank);
  }

  // ---------------------------------------------------------------- consecutive statements

  /** The entries a statement over [start, end) is given. */
  function In(rows: seq<Row>, period: Period): seq<Row> {
    if rows == [] then []
    else
      var before, row := In(rows[..|rows| - 1], period), rows[|rows| - 1];
      if period.start <= row.occurredAt < period.end then before + [row] else before
  }

  /** The balance a statement opens with: every entry before the instant. */
  function BalanceBefore(rows: seq<Row>, at: int): int {
    if rows == [] then 0
    else
      BalanceBefore(rows[..|rows| - 1], at)
      + if rows[|rows| - 1].occurredAt < at then rows[|rows| - 1].amount else 0
  }

  function StatementFor(rows: seq<Row>, period: Period): Statement {
    BuildStatement(period, BalanceBefore(rows, period.start), In(rows, period))
  }

  lemma {:induction false} MovementIsTheDifference(rows: seq<Row>, period: Period)
    requires period.start <= period.end
    ensures Sum(In(rows, period)) == BalanceBefore(rows, period.end) - BalanceBefore(rows, period.start)
  {
    if rows != [] {
      var front, row := rows[..|rows| - 1], rows[|rows| - 1];
      MovementIsTheDifference(front, period);
      var before := In(front, period);
      assert (before + [row])[..|before|] == before;
    }
  }

  /** The statements between successive boundaries. */
  function Statements(rows: seq<Row>, boundaries: seq<int>): (r: seq<Statement>)
    ensures |r| == if boundaries == [] then 0 else |boundaries| - 1
  {
    if |boundaries| < 2 then []
    else
      Statements(rows, boundaries[..|boundaries| - 1])
      + [StatementFor(rows, Period(boundaries[|boundaries| - 2], boundaries[|boundaries| - 1]))]
  }

  lemma {:induction false} StatementAt(rows: seq<Row>, boundaries: seq<int>, k: nat)
    requires k + 1 < |boundaries|
    ensures Statements(rows, boundaries)[k] == StatementFor(rows, Period(boundaries[k], boundaries[k + 1]))
  {
    if k + 2 < |boundaries| {
      StatementAt(rows, boundaries[..|boundaries| - 1], k);
    }
  }

  ghost predicate Climbing(boundaries: seq<int>) {
    forall j, k :: 0 <= j <= k < |boundaries| ==> boundaries[j] <= boundaries[k]
  }

  /** Each statement closes on the balance of everything up to its end, which is where the next one opens. */
  lemma StatementsChain(rows: seq<Row>, boundaries: seq<int>, k: nat)
    requires Climbing(boundaries) && k + 1 < |boundaries|
    ensures var all := Statements(rows, boundaries);
            && all[k].opening == BalanceBefore(rows, boundaries[k])
            && all[k].closing == BalanceBefore(rows, boundaries[k + 1])
            && (k + 1 < |all| ==> all[k + 1].opening == all[k].closing)
  {
    var period := Period(boundaries[k], boundaries[k + 1]);
    StatementAt(rows, boundaries, k);
    MovementIsTheDifference(rows, period);
    StatementAddsUp(period, BalanceBefore(rows, period.start), In(rows, period));
    if k + 2 < |boundaries| {
      StatementAt(rows, boundaries, k + 1);
    }
  }

  lemma {:induction false} BalanceAtTheEdges(rows: seq<Row>, at: int)
    ensures (forall i :: 0 <= i < |rows| ==> rows[i].occurredAt < at) ==> BalanceBefore(rows, at) == Sum(rows)
    ensures (forall i :: 0 <= i < |rows| ==> rows[i].occurredAt >= at) ==> BalanceBefore(rows, at) == 0
  {
    if rows != [] {
      BalanceAtTheEdges(rows[..|rows| - 1], at);
    }
  }

  /** Statements that span every entry open on nothing and close on the number at the foot of the ledger. */
  lemma StatementsEndAtTheLedgerBalance(rows: seq<Row>, boundaries: seq<int>, le: Rank<string>)
    requires Climbing(boundaries) && |boundaries| >= 2
    requires forall i :: 0 <= i < |rows| ==> boundaries[0] <= rows[i].occurredAt < boundaries[|boundaries| - 1]
    ensures var all := Statements(rows, boundaries);
            all[0].opening == 0 && all[|all| - 1].closing == Closing(Balances(Ordered(rows, le)))
  {
    StatementsChain(rows, boundaries, 0);
    StatementsChain(rows, boundaries, |boundaries| - 2);
    BalanceAtTheEdges(rows, boundaries[0]);
    BalanceAtTheEdges(rows, boundaries[|boundaries| - 1]);
    LedgerFootIsTheTotals(rows, le);
  }

  // ---------------------------------------------------------------- which months have one

  /** The months from `last` back to `first`, as (year, month 1..12). */
  function MonthsDown(first: int, last: int): (r: seq<(int, int)>)
    ensures |r| == if last < first then 0 else last - first + 1
    decreases last - first
  {
    if last < first then [] else [(last / 12, last % 12 + 1)] + MonthsDown(first, last - 1)
  }

  function Reversed<T>(s: seq<T>): seq<T> {
    if s == [] then [] else [s[|s| - 1]] + Reversed(s[..|s| - 1])
  }

  lemma YearAndMonth(year: int, month: int)
    requires 0 <= month < 12
    ensures Calendar.Month(year, month) / 12 == year && Calendar.Month(year, month) % 12 == month
  {
  }

  lemma OneMoreMonth(months: seq<(int, int)>, first: int, year: int, month: int)
    requires 0 <= month < 12 && first <= Calendar.Month(year, month)
    requires Reversed(months) == MonthsDown(first, Calendar.Month(year, month) - 1)
    ensures Reversed(months + [(year, month + 1)]) == MonthsDown(first, Calendar.Month(year, month))
  {
    YearAndMonth(year, month);
    assert (months + [(year, month + 1)])[..|months|] == months;
  }

  /** Every month from the start of the lease to its end (or now), none left out, newest first. */
  method StatementMonths(startDay: int, endDay: Option<int>, today: int) returns (months: seq<(int, int)>)
    ensures months == MonthsDown(Calendar.MonthOf(startDay), Calendar.MonthOf(if endDay.Some? then endDay.value else today))
  {
    months := MonthsBetween(Calendar.MonthOf(startDay), Calendar.MonthOf(if endDay.Some? then endDay.value else today));
  }

  method MonthsBetween(first: int, last: int) returns (months: seq<(int, int)>)
    ensures months == MonthsDown(first, last)
  {
    months := [];
    var year, month := first / 12, first % 12;
    var lastYear, lastMonth := last / 12, last % 12;
    while year < lastYear || (year == lastYear && month <= lastMonth)
      invariant 0 <= month < 12 && first <= Calendar.Month(year, month) <= Max(first, last + 1)
      invariant Reversed(months) == MonthsDown(first, Calendar.Month(year, month) - 1)
      decreases last - Calendar.Month(year, month)
    {
      OneMoreMonth(months, first, year, month);
      months := months + [(year, month + 1)];
      month := month + 1;
      if month > 11 {
        month := 0;
        year := year + 1;
      }
    }
    months := Reversed(months);
  }
}
