/**
 The month-end journal entry (packages/core/accounting/journal.ts). Amounts are integer cents, of
 either sign; descriptions and the entry's date are not modelled.
 */
module Journal {
  import opened Wrappers

  const CLOSE_SNAPSHOT_VERSION := 2

  datatype Categories = Categories(rent: int, fee: int, protection: int, tax: int)

  datatype Figures = Figures(
    billed: Categories, collected: Categories, discounts: int, referralRewards: int, unapplied: int, writeOffs: int)

  datatype Snapshot = Snapshot(version: int, figures: Figures)

  datatype Chart = Chart(
    accountsReceivable: string, rentalIncome: string, feeIncome: string, protectionIncome: string,
    salesTaxPayable: string, discountsGiven: string, referralRewards: string, undepositedFunds: string,
    customerDeposits: string, badDebtExpense: string)

  datatype Side = Debit | Credit

  /** What is to be posted; the amount may be negative. */
  datatype Posting = Posting(account: string, amount: int, side: Side)

  datatype Line = Line(account: string, debit: int, credit: int)

  datatype Entry = Entry(lines: seq<Line>, totalDebit: int, totalCredit: int)

  datatype Refusal = FiledBeforeCategories | Unbalanced(debit: int, credit: int)

  /** A negative amount goes to the other side; nothing makes no line. */
  function LineFor(p: Posting): Option<Line> {
    if p.amount == 0 then None
    else
      var debit := if p.side.Debit? then p.amount > 0 else p.amount < 0;
      var magnitude := if p.amount < 0 then -p.amount else p.amount;
      Some(Line(p.account, if debit then magnitude else 0, if debit then 0 else magnitude))
  }

  function Lines(postings: seq<Posting>): seq<Line> {
    if postings == [] then []
    else
      match LineFor(postings[0])
      case None => Lines(postings[1..])
      case Some(line) => [line] + Lines(postings[1..])
  }

  function TotalDebit(lines: seq<Line>): int {
    if lines == [] then 0 else lines[0].debit + TotalDebit(lines[1..])
  }

  function TotalCredit(lines: seq<Line>): int {
    if lines == [] then 0 else lines[0].credit + TotalCredit(lines[1..])
  }

  function Gross(c: Categories): int {
    c.rent + c.fee + c.protection + c.tax
  }

  function Postings(f: Figures, chart: Chart): seq<Posting> {
    [ Posting(chart.accountsReceivable, Gross(f.billed) - f.discounts, Debit),
      Posting(chart.discountsGiven, f.discounts - f.referralRewards, Debit),
      Posting(chart.referralRewards, f.referralRewards, Debit),
      Posting(chart.rentalIncome, f.billed.rent, Credit),
      Posting(chart.feeIncome, f.billed.fee, Credit),
      Posting(chart.protectionIncome, f.billed.protection, Credit),
      Posting(chart.salesTaxPayable, f.billed.tax, Credit),
      Posting(chart.undepositedFunds, Gross(f.collected) + f.unapplied, Debit),
      Posting(chart.accountsReceivable, Gross(f.collected), Credit),
      Posting(chart.customerDeposits, f.unapplied, Credit),
      Posting(chart.badDebtExpense, f.writeOffs, Debit),
      Posting(chart.accountsReceivable, f.writeOffs, Credit) ]
  }

  function BuildJournal(snapshot: Snapshot, chart: Chart): Result<Entry, Refusal> {
    if snapshot.version < CLOSE_SNAPSHOT_VERSION then Err(FiledBeforeCategories)
    else
      var lines := Lines(Postings(snapshot.figures, chart));
      var debit, credit := TotalDebit(lines), TotalCredit(lines);
      if debit != credit then Err(Unbalanced(debit, credit)) else Ok(Entry(lines, debit, credit))
  }

  // ---------------------------------------------------------------- what is posted where

  function Signed(p: Posting): int {
    if p.side.Debit? then p.amount else -p.amount
  }

  /** Debits less credits on one account, or on all of them. */
  function Net(lines: seq<Line>, account: Option<string>): int {
    if lines == [] then 0
    else
      (if account == None || lines[0].account == account.value then lines[0].debit - lines[0].credit else 0)
      + Net(lines[1..], account)
  }

  function Posted(postings: seq<Posting>, account: Option<string>): int {
    if postings == [] then 0
    else
      (if account == None || postings[0].account == account.value then Signed(postings[0]) else 0)
      + Posted(postings[1..], account)
  }

  /** Turning negative amounts round and dropping empty ones moves no money between accounts. */
  lemma {:induction false} LinesPostWhatWasAsked(postings: seq<Posting>, account: Option<string>)
    ensures Net(Lines(postings), account) == Posted(postings, account)
    ensures forall k :: 0 <= k < |Lines(postings)| ==>
              var line := Lines(postings)[k];
              (line.debit > 0 && line.credit == 0) || (line.debit == 0 && line.credit > 0)
  {
    if postings != [] {
      LinesPostWhatWasAsked(postings[1..], account);
      if LineFor(postings[0]).Some? {
        assert Lines(postings)[1..] == Lines(postings[1..]);
      }
    }
  }

  lemma {:induction false} NetIsDebitLessCredit(lines: seq<Line>)
    ensures Net(lines, None) == TotalDebit(lines) - TotalCredit(lines)
  {
    if lines != [] {
      NetIsDebitLessCredit(lines[1..]);
    }
  }

  lemma PostedHead(p: Posting, rest: seq<Posting>, account: Option<string>)
    ensures Posted([p] + rest, account)
         == (if account == None || p.account == account.value then Signed(p) else 0) + Posted(rest, account)
  {
    assert ([p] + rest)[1..] == rest;
  }

  lemma PostedThree(a: Posting, b: Posting, c: Posting, account: Option<string>)
    ensures Posted([a, b, c], account)
         == (if account == None || a.account == account.value then Signed(a) else 0)
            + (if account == None || b.account == account.value then Signed(b) else 0)
            + (if account == None || c.account == account.value then Signed(c) else 0)
  {
    PostedHead(c, [], account);
    PostedHead(b, [c], account);
    PostedHead(a, [b, c], account);
    assert [c] + [] == [c] && [b] + [c] == [b, c] && [a] + [b, c] == [a, b, c];
    assert Posted([], account) == 0;
  }

  lemma {:induction false} PostedSplits(a: seq<Posting>, b: seq<Posting>, account: Option<string>)
    ensures Posted(a + b, account) == Posted(a, account) + Posted(b, account)
  {
    if a == [] {
      assert a + b == b;
    } else {
      PostedSplits(a[1..], b, account);
      assert (a + b)[1..] == a[1..] + b;
    }
  }

  /** The twelve postings, three at a time. */
  lemma PostedByThrees(p: seq<Posting>, account: Option<string>)
    requires |p| == 12
    ensures Posted(p, account)
         == Posted([p[0], p[1], p[2]], account) + Posted([p[3], p[4], p[5]], account)
            + Posted([p[6], p[7], p[8]], account) + Posted([p[9], p[10], p[11]], account)
  {
    var a, b, c, d := [p[0], p[1], p[2]], [p[3], p[4], p[5]], [p[6], p[7], p[8]], [p[9], p[10], p[11]];
    assert p == ((a + b) + c) + d;
    PostedSplits(a, b, account);
    PostedSplits(a + b, c, account);
    PostedSplits((a + b) + c, d, account);
  }

  /** A journal is refused only for its age; whatever the figures, it balances, and each line is on one side. */
  lemma JournalBalances(snapshot: Snapshot, chart: Chart)
    ensures BuildJournal(snapshot, chart) == Err(FiledBeforeCategories) <==> snapshot.version < 2
    ensures snapshot.version >= 2 ==>
              var r := BuildJournal(snapshot, chart);
              && r.Ok? && r.value.totalDebit == r.value.totalCredit
              && r.value.totalDebit == TotalDebit(r.value.lines) && r.value.totalCredit == TotalCredit(r.value.lines)
              && forall k :: 0 <= k < |r.value.lines| ==>
                   var line := r.value.lines[k];
                   (line.debit > 0 && line.credit == 0) || (line.debit == 0 && line.credit > 0)
  {
    var postings := Postings(snapshot.figures, chart);
    LinesPostWhatWasAsked(postings, None);
    NetIsDebitLessCredit(Lines(postings));
    PostingsCancel(snapshot.figures, chart);
  }

  lemma PostingsCancel(f: Figures, chart: Chart)
    ensures Posted(Postings(f, chart), None) == 0
  {
    var p := Postings(f, chart);
    PostedByThrees(p, None);
    PostedThree(p[0], p[1], p[2], None);
    PostedThree(p[3], p[4], p[5], None);
    PostedThree(p[6], p[7], p[8], None);
    PostedThree(p[9], p[10], p[11], None);
  }

  datatype Account =
    | AccountsReceivable | RentalIncome | FeeIncome | ProtectionIncome | SalesTaxPayable | DiscountsGiven
    | ReferralRewards | UndepositedFunds | CustomerDeposits | BadDebtExpense

  function Name(chart: Chart, a: Account): string {
    match a
    case AccountsReceivable => chart.accountsReceivable
    case RentalIncome => chart.rentalIncome
    case FeeIncome => chart.feeIncome
    case ProtectionIncome => chart.protectionIncome
    case SalesTaxPayable => chart.salesTaxPayable
    case DiscountsGiven => chart.discountsGiven
    case ReferralRewards => chart.referralRewards
    case UndepositedFunds => chart.undepositedFunds
    case CustomerDeposits => chart.customerDeposits
    case BadDebtExpense => chart.badDebtExpense
  }

  /** What a month does to each account, debits positive: the receivable takes part in all three entries. */
  function Movement(f: Figures, a: Account): int {
    match a
    case AccountsReceivable => Gross(f.billed) - f.discounts - Gross(f.collected) - f.writeOffs
    case RentalIncome => -f.billed.rent
    case FeeIncome => -f.billed.fee
    case ProtectionIncome => -f.billed.protection
    case SalesTaxPayable => -f.billed.tax
    case DiscountsGiven => f.discounts - f.referralRewards
    case ReferralRewards => f.referralRewards
    case UndepositedFunds => Gross(f.collected) + f.unapplied
    case CustomerDeposits => -f.unapplied
    case BadDebtExpense => f.writeOffs
  }

  /** An account whose name is not used for another one moves by exactly that. */
  lemma AccountMovement(f: Figures, chart: Chart, a: Account)
    requires forall b :: Name(chart, b) == Name(chart, a) ==> b == a
    ensures Net(Lines(Postings(f, chart)), Some(Name(chart, a))) == Movement(f, a)
  {
    NamesDiffer(chart, a);
    var p, account := Postings(f, chart), Some(Name(chart, a));
    LinesPostWhatWasAsked(p, account);
    PostedByThrees(p, account);
    PostedThree(p[0], p[1], p[2], account);
    PostedThree(p[3], p[4], p[5], account);
    PostedThree(p[6], p[7], p[8], account);
    PostedThree(p[9], p[10], p[11], account);
  }

  lemma NamesDiffer(chart: Chart, a: Account)
    requires forall b :: Name(chart, b) == Name(chart, a) ==> b == a
    ensures (chart.accountsReceivable == Name(chart, a)) == (a == AccountsReceivable)
    ensures (chart.rentalIncome == Name(chart, a)) == (a == RentalIncome)
    ensures (chart.feeIncome == Name(chart, a)) == (a == FeeIncome)
    ensures (chart.protectionIncome == Name(chart, a)) == (a == ProtectionIncome)
    ensures (chart.salesTaxPayable == Name(chart, a)) == (a == SalesTaxPayable)
    ensures (chart.discountsGiven == Name(chart, a)) == (a == DiscountsGiven)
    ensures (chart.referralRewards == Name(chart, a)) == (a == ReferralRewards)
    ensures (chart.undepositedFunds == Name(chart, a)) == (a == UndepositedFunds)
    ensures (chart.customerDeposits == Name(chart, a)) == (a == CustomerDeposits)
    ensures (chart.badDebtExpense == Name(chart, a)) == (a == BadDebtExpense)
  {
    assert Name(chart, AccountsReceivable) == chart.accountsReceivable && Name(chart, RentalIncome) == chart.rentalIncome;
    assert Name(chart, FeeIncome) == chart.feeIncome && Name(chart, ProtectionIncome) == chart.protectionIncome;
    assert Name(chart, SalesTaxPayable) == chart.salesTaxPayable && Name(chart, DiscountsGiven) == chart.discountsGiven;
    assert Name(chart, ReferralRewards) == chart.referralRewards && Name(chart, UndepositedFunds) == chart.undepositedFunds;
    assert Name(chart, CustomerDeposits) == chart.customerDeposits && Name(chart, BadDebtExpense) == chart.badDebtExpense;
  }
}
