/**
 The recurring invoice (packages/core/billing/invoice-lines.ts): charges, stacked discounts and tax.
 Amounts are integer cents and rates integer basis points. Descriptions are not modelled.
 */
module Invoices {
  import opened Wrappers
  import Periods
  import opened Proration

  datatype Kind = Rent | Protection | Fee | Tax | Discount

  datatype Charge = Charge(kind: Kind, monthly: int, taxable: bool)

  datatype Line = Line(kind: Kind, amount: int)

  datatype Input = Input(
    period: Periods.Period, charges: seq<Charge>, taxRates: seq<int>, prorateFrom: Option<int>, prorateTo: Option<int>,
    discount: Option<int>, extraDiscounts: seq<int>)

  datatype Invoice = Invoice(lines: seq<Line>, subtotal: int, discount: int, tax: int, total: int)

  function Or(x: Option<int>, fallback: int): int {
    if x.Some? then x.value else fallback
  }

  // ---------------------------------------------------------------- the specification

  function Charged(input: Input, c: Charge): Share {
    Prorate(c.monthly, input.period, Or(input.prorateFrom, input.period.start), Or(input.prorateTo, input.period.end))
  }

  /** A charge of nothing, or for no days, gets no line. */
  predicate Shown(input: Input, c: Charge) {
    c.monthly != 0 && !(Charged(input, c).amount == 0 && Charged(input, c).days == 0)
  }

  function ChargeLines(input: Input, charges: seq<Charge>): seq<Line> {
    if charges == [] then []
    else
      var before, c := ChargeLines(input, charges[..|charges| - 1]), charges[|charges| - 1];
      if Shown(input, c) then before + [Line(c.kind, Charged(input, c).amount)] else before
  }

  function Subtotal(input: Input, charges: seq<Charge>): int {
    if charges == [] then 0
    else Subtotal(input, charges[..|charges| - 1]) + Charged(input, charges[|charges| - 1]).amount
  }

  function Taxable(input: Input, charges: seq<Charge>): int {
    if charges == [] then 0
    else
      var c := charges[|charges| - 1];
      Taxable(input, charges[..|charges| - 1]) + if c.taxable then Charged(input, c).amount else 0
  }

  function Positives(xs: seq<int>): seq<int> {
    if xs == [] then []
    else
      var before, x := Positives(xs[..|xs| - 1]), xs[|xs| - 1];
      if x > 0 then before + [x] else before
  }

  /** The discounts asked for: the promotion, then the extras; what is not positive is not one. */
  function Requested(input: Input): seq<int> {
    (if Or(input.discount, 0) > 0 then [Or(input.discount, 0)] else []) + Positives(input.extraDiscounts)
  }

  function Sum(xs: seq<int>): int {
    if xs == [] then 0 else Sum(xs[..|xs| - 1]) + xs[|xs| - 1]
  }

  /** All that is asked for, but never more than the charges. */
  function DiscountTaken(subtotal: int, requested: int): int {
    Max(0, Min(subtotal, requested))
  }

  /** Each discount on its own line, as long as there is something left to take it off. */
  function DiscountLines(subtotal: int, requested: seq<int>): seq<Line> {
    if requested == [] then []
    else
      var front, last := requested[..|requested| - 1], requested[|requested| - 1];
      var applied := DiscountTaken(subtotal, Sum(requested)) - DiscountTaken(subtotal, Sum(front));
      if applied > 0 then DiscountLines(subtotal, front) + [Line(Discount, applied)]
      else DiscountLines(subtotal, front)
  }

  function TaxedBase(taxable: int, discount: int): int {
    if discount > 0 then Max(0, taxable - discount) else taxable
  }

  function TaxOn(base: int, basisPoints: int): int {
    Round(base * basisPoints, 10_000)
  }

  function TaxTotal(base: int, rates: seq<int>): int {
    if rates == [] then 0 else TaxTotal(base, rates[..|rates| - 1]) + TaxOn(base, rates[|rates| - 1])
  }

  function TaxLines(base: int, rates: seq<int>): seq<Line> {
    if rates == [] then []
    else
      var before, amount := TaxLines(base, rates[..|rates| - 1]), TaxOn(base, rates[|rates| - 1]);
      if amount != 0 then before + [Line(Tax, amount)] else before
  }

  function Built(input: Input): Invoice {
    var subtotal := Subtotal(input, input.charges);
    var discount := DiscountTaken(subtotal, Sum(Requested(input)));
    var base := TaxedBase(Taxable(input, input.charges), discount);
    var tax := TaxTotal(base, input.taxRates);
    Invoice(
      ChargeLines(input, input.charges) + DiscountLines(subtotal, Requested(input)) + TaxLines(base, input.taxRates),
      subtotal, discount, tax, subtotal - discount + tax)
  }

  // ---------------------------------------------------------------- the program

  lemma NothingCostsNothing(input: Input, c: Charge)
    requires c.monthly == 0
    ensures Charged(input, c).amount == 0
  {
    var days := Charged(input, c).days;
    assert 0 * days == 0;
  }

  method ChargeAll(input: Input) returns (lines: seq<Line>, subtotal: int, taxableBase: int)
    ensures lines == ChargeLines(input, input.charges)
    ensures subtotal == Subtotal(input, input.charges) && taxableBase == Taxable(input, input.charges)
  {
    lines, subtotal, taxableBase := [], 0, 0;
    var charges := input.charges;
    for i := 0 to |charges|
      invariant lines == ChargeLines(input, charges[..i])
      invariant subtotal == Subtotal(input, charges[..i]) && taxableBase == Taxable(input, charges[..i])
    {
      var charge := charges[i];
      assert charges[..i + 1][..i] == charges[..i];
      if charge.monthly == 0 {
        NothingCostsNothing(input, charge);
        continue;
      }
      var result := Charged(input, charge);
      if result.amount == 0 && result.days == 0 {
        continue;
      }
      lines := lines + [Line(charge.kind, result.amount)];
      subtotal := subtotal + result.amount;
      if charge.taxable {
        taxableBase := taxableBase + result.amount;
      }
    }
    TakeAll(charges);
  }

  method RequestedDiscounts(input: Input) returns (requested: seq<int>)
    ensures requested == Requested(input)
  {
    requested := [];
    if Or(input.discount, 0) > 0 {
      requested := [Or(input.discount, 0)];
    }
    ghost var promotion := requested;
    var extras := input.extraDiscounts;
    for i := 0 to |extras|
      invariant requested == promotion + Positives(extras[..i])
    {
      assert extras[..i + 1][..i] == extras[..i];
      if extras[i] > 0 {
        requested := requested + [extras[i]];
      }
    }
    TakeAll(extras);
  }

  lemma {:induction false} PositivesArePositive(xs: seq<int>)
    ensures forall k :: 0 <= k < |Positives(xs)| ==> Positives(xs)[k] > 0
  {
    if xs != [] {
      PositivesArePositive(xs[..|xs| - 1]);
    }
  }

  /** Past the point where nothing is left, further discounts add no line. */
  lemma {:induction false} NothingLeft(subtotal: int, requested: seq<int>, i: nat)
    requires i <= |requested| && forall k :: 0 <= k < |requested| ==> requested[k] > 0
    requires subtotal <= DiscountTaken(subtotal, Sum(requested[..i]))
    ensures DiscountLines(subtotal, requested) == DiscountLines(subtotal, requested[..i])
    ensures DiscountTaken(subtotal, Sum(requested)) == DiscountTaken(subtotal, Sum(requested[..i]))
    decreases |requested|
  {
    if i == |requested| {
      TakeAll(requested);
    } else {
      var front := requested[..|requested| - 1];
      assert front[..i] == requested[..i];
      NothingLeft(subtotal, front, i);
    }
  }

  /** The stack: each discount is capped by what the ones before it left. */
  method TakeDiscounts(subtotal: int, requested: seq<int>) returns (lines: seq<Line>, discount: int)
    requires forall k :: 0 <= k < |requested| ==> requested[k] > 0
    ensures lines == DiscountLines(subtotal, requested) && discount == DiscountTaken(subtotal, Sum(requested))
  {
    lines, discount := [], 0;
    for i := 0 to |requested|
      invariant lines == DiscountLines(subtotal, requested[..i])
      invariant discount == DiscountTaken(subtotal, Sum(requested[..i])) && Sum(requested[..i]) >= 0
    {
      assert requested[..i + 1][..i] == requested[..i];
      var remaining := subtotal - discount;
      if remaining <= 0 {
        NothingLeft(subtotal, requested, i);
        return;
      }
      var applied := Min(Max(0, requested[i]), remaining);
      if applied == 0 {
        continue;
      }
      lines := lines + [Line(Discount, applied)];
      discount := discount + applied;
    }
    TakeAll(requested);
  }

  method TaxAll(taxableBase: int, taxRates: seq<int>) returns (lines: seq<Line>, taxTotal: int)
    ensures lines == TaxLines(taxableBase, taxRates) && taxTotal == TaxTotal(taxableBase, taxRates)
  {
    lines, taxTotal := [], 0;
    for i := 0 to |taxRates|
      invariant lines == TaxLines(taxableBase, taxRates[..i]) && taxTotal == TaxTotal(taxableBase, taxRates[..i])
    {
      assert taxRates[..i + 1][..i] == taxRates[..i];
      var amount := TaxOn(taxableBase, taxRates[i]);
      if amount == 0 {
        continue;
      }
      lines := lines + [Line(Tax, amount)];
      taxTotal := taxTotal + amount;
    }
    TakeAll(taxRates);
  }

  method BuildInvoice(input: Input) returns (r: Invoice)
    ensures r == Built(input)
  {
    var lines, subtotal, taxableBase := ChargeAll(input);
    var requested := RequestedDiscounts(input);
    PositivesArePositive(input.extraDiscounts);
    var discountLines, discount := TakeDiscounts(subtotal, requested);
    if discount > 0 {
      taxableBase := Max(0, taxableBase - Min(discount, taxableBase));
    }
    var taxLines, taxTotal := TaxAll(taxableBase, input.taxRates);
    r := Invoice(lines + discountLines + taxLines, subtotal, discount, taxTotal, subtotal - discount + taxTotal);
  }

  // ---------------------------------------------------------------- the lines add up

  function Signed(line: Line): int {
    if line.kind == Discount then -line.amount else line.amount
  }

  function SignedSum(lines: seq<Line>): int {
    if lines == [] then 0 else SignedSum(lines[..|lines| - 1]) + Signed(lines[|lines| - 1])
  }

  lemma {:induction false} SignedSumSplits(a: seq<Line>, b: seq<Line>)
    ensures SignedSum(a + b) == SignedSum(a) + SignedSum(b)
  {
    if b == [] {
      assert a + b == a;
    } else {
      SignedSumSplits(a, b[..|b| - 1]);
      assert (a + b)[..|a + b| - 1] == a + b[..|b| - 1];
    }
  }

  lemma SignedSumOfOneMore(a: seq<Line>, line: Line)
    ensures SignedSum(a + [line]) == SignedSum(a) + Signed(line)
  {
    assert (a + [line])[..|a|] == a;
  }

  lemma {:induction false} ChargeLinesSum(input: Input, charges: seq<Charge>)
    requires forall k :: 0 <= k < |charges| ==> charges[k].kind != Discount
    ensures SignedSum(ChargeLines(input, charges)) == Subtotal(input, charges)
  {
    if charges != [] {
      var front, c := charges[..|charges| - 1], charges[|charges| - 1];
      ChargeLinesSum(input, front);
      SignedSumOfOneMore(ChargeLines(input, front), Line(c.kind, Charged(input, c).amount));
      if c.monthly == 0 {
        NothingCostsNothing(input, c);
      }
    }
  }

  lemma {:induction false} DiscountLinesSum(subtotal: int, requested: seq<int>)
    requires forall k :: 0 <= k < |requested| ==> requested[k] > 0
    ensures SignedSum(DiscountLines(subtotal, requested)) == -DiscountTaken(subtotal, Sum(requested))
  {
    if requested != [] {
      var front := requested[..|requested| - 1];
      DiscountLinesSum(subtotal, front);
      SignedSumOfOneMore(DiscountLines(subtotal, front),
        Line(Discount, DiscountTaken(subtotal, Sum(requested)) - DiscountTaken(subtotal, Sum(front))));
    }
  }

  lemma {:induction false} TaxLinesSum(base: int, rates: seq<int>)
    ensures SignedSum(TaxLines(base, rates)) == TaxTotal(base, rates)
  {
    if rates != [] {
      TaxLinesSum(base, rates[..|rates| - 1]);
      SignedSumOfOneMore(TaxLines(base, rates[..|rates| - 1]), Line(Tax, TaxOn(base, rates[|rates| - 1])));
    }
  }

  /** What the lines say, discounts counted negative, is the total. */
  lemma LinesAddUpToTheTotal(input: Input)
    requires forall k :: 0 <= k < |input.charges| ==> input.charges[k].kind != Discount
    ensures SignedSum(Built(input).lines) == Built(input).total
  {
    var r := Built(input);
    var requested := Requested(input);
    PositivesArePositive(input.extraDiscounts);
    ChargeLinesSum(input, input.charges);
    DiscountLinesSum(r.subtotal, requested);
    var base := TaxedBase(Taxable(input, input.charges), r.discount);
    TaxLinesSum(base, input.taxRates);
    var charges, discounts := ChargeLines(input, input.charges), DiscountLines(r.subtotal, requested);
    SignedSumSplits(charges, discounts);
    SignedSumSplits(charges + discounts, TaxLines(base, input.taxRates));
  }

  /** Charges get their lines one by one, in order ... */
  lemma {:induction false} ChargeLinesSplit(input: Input, a: seq<Charge>, b: seq<Charge>)
    ensures ChargeLines(input, a + b) == ChargeLines(input, a) + ChargeLines(input, b)
  {
    if b == [] {
      assert a + b == a;
    } else {
      ChargeLinesSplit(input, a, b[..|b| - 1]);
      assert (a + b)[..|a + b| - 1] == a + b[..|b| - 1];
    }
  }

  /** ... and one gets none when its rate is nothing, or it bills nothing for no days. */
  lemma LineOfACharge(input: Input, c: Charge)
    ensures var r := Charged(input, c);
            ChargeLines(input, [c]) == if c.monthly == 0 || (r.amount == 0 && r.days == 0) then [] else [Line(c.kind, r.amount)]
  {
    assert [c][..0] == [];
    assert ChargeLines(input, []) == [];
  }

  /** A discount or a tax of nothing gets no line; a discount is shown as a positive amount. */
  lemma {:induction false} NoEmptyLines(subtotal: int, requested: seq<int>, base: int, rates: seq<int>)
    ensures forall k :: 0 <= k < |DiscountLines(subtotal, requested)| ==>
              DiscountLines(subtotal, requested)[k].kind == Discount && DiscountLines(subtotal, requested)[k].amount > 0
    ensures forall k :: 0 <= k < |TaxLines(base, rates)| ==>
              TaxLines(base, rates)[k].kind == Tax && TaxLines(base, rates)[k].amount != 0
    decreases |requested| + |rates|
  {
    if requested != [] {
      NoEmptyLines(subtotal, requested[..|requested| - 1], base, rates);
    }
    if rates != [] {
      NoEmptyLines(subtotal, requested, base, rates[..|rates| - 1]);
    }
  }

  // ---------------------------------------------------------------- what an invoice promises

  /** Charges and rates that are not negative, in a period that has days. */
  ghost predicate Ordinary(input: Input) {
    && input.period.start < input.period.end
    && (forall k :: 0 <= k < |input.charges| ==> input.charges[k].monthly >= 0)
    && (forall k :: 0 <= k < |input.taxRates| ==> input.taxRates[k] >= 0)
  }

  lemma ChargedIsNotNegative(input: Input, c: Charge)
    requires input.period.start < input.period.end && c.monthly >= 0
    ensures Charged(input, c).amount >= 0
  {
    var r := Charged(input, c);
    ProratedAmountIsTheNearestShare(c.monthly, input.period,
      Or(input.prorateFrom, input.period.start), Or(input.prorateTo, input.period.end));
    assert c.monthly * r.days >= 0;
    NearestIsNotNegative(r.amount, c.monthly * r.days, r.daysInPeriod);
  }

  lemma NearestIsNotNegative(r: int, num: nat, den: int)
    requires den > 0 && Rounded(r, num, den)
    ensures r >= 0
  {
    Scales(r, -1, den);
  }

  lemma {:induction false} TaxableIsPartOfTheCharges(input: Input, charges: seq<Charge>)
    requires input.period.start < input.period.end
    requires forall k :: 0 <= k < |charges| ==> charges[k].monthly >= 0
    ensures 0 <= Taxable(input, charges) <= Subtotal(input, charges)
  {
    if charges != [] {
      TaxableIsPartOfTheCharges(input, charges[..|charges| - 1]);
      ChargedIsNotNegative(input, charges[|charges| - 1]);
    }
  }

  lemma TaxGrowsWithTheBase(low: int, high: int, rate: nat)
    requires 0 <= low <= high
    ensures 0 <= TaxOn(low, rate) <= TaxOn(high, rate)
  {
    assert low * rate <= high * rate;
  }

  lemma {:induction false} TaxTotalGrowsWithTheBase(low: int, high: int, rates: seq<int>)
    requires 0 <= low <= high && forall k :: 0 <= k < |rates| ==> rates[k] >= 0
    ensures 0 <= TaxTotal(low, rates) <= TaxTotal(high, rates)
  {
    if rates != [] {
      TaxTotalGrowsWithTheBase(low, high, rates[..|rates| - 1]);
      TaxGrowsWithTheBase(low, high, rates[|rates| - 1]);
    }
  }

  lemma {:induction false} NoBaseNoTax(rates: seq<int>)
    ensures TaxTotal(0, rates) == 0
  {
    if rates != [] {
      NoBaseNoTax(rates[..|rates| - 1]);
      var rate := rates[|rates| - 1];
      assert 0 * rate == 0;
    }
  }

  /** The amounts asked for: the promotion's and the extras', each counted if it is positive. */
  function AskedFor(discount: Option<int>, extras: seq<int>): int {
    (if discount.Some? then Max(0, discount.value) else 0) + SumOfPositives(extras)
  }

  function SumOfPositives(xs: seq<int>): int {
    if xs == [] then 0 else SumOfPositives(xs[..|xs| - 1]) + Max(0, xs[|xs| - 1])
  }

  lemma {:induction false} PositivesSum(xs: seq<int>)
    ensures Sum(Positives(xs)) == SumOfPositives(xs)
  {
    if xs != [] {
      var before, x := Positives(xs[..|xs| - 1]), xs[|xs| - 1];
      PositivesSum(xs[..|xs| - 1]);
      assert (before + [x])[..|before|] == before;
    }
  }

  lemma RequestedIsAskedFor(input: Input)
    ensures Sum(Requested(input)) == AskedFor(input.discount, input.extraDiscounts)
  {
    var promotion := if Or(input.discount, 0) > 0 then [Or(input.discount, 0)] else [];
    SumSplits(promotion, Positives(input.extraDiscounts));
    PositivesSum(input.extraDiscounts);
    assert promotion != [] ==> promotion[..0] == [] && Sum(promotion) == Sum([]) + promotion[0];
  }

  /** An invoice is never a credit: discounts stop at the charges, and a bill they cover carries no tax. */
  lemma InvoiceIsNeverACredit(input: Input)
    requires Ordinary(input)
    ensures var r := Built(input);
            && 0 <= r.discount <= r.subtotal && r.tax >= 0 && r.total >= 0
            && r.discount == Min(r.subtotal, AskedFor(input.discount, input.extraDiscounts))
            && (AskedFor(input.discount, input.extraDiscounts) >= r.subtotal ==> r.total == 0)
  {
    RequestedIsAskedFor(input);
    var subtotal, taxable := Subtotal(input, input.charges), Taxable(input, input.charges);
    var requested := Requested(input);
    TaxableIsPartOfTheCharges(input, input.charges);
    PositivesArePositive(input.extraDiscounts);
    SumIsNotNegative(requested);
    var base := TaxedBase(taxable, DiscountTaken(subtotal, Sum(requested)));
    TaxTotalGrowsWithTheBase(base, base, input.taxRates);
    NoBaseNoTax(input.taxRates);
  }

  lemma {:induction false} AllOrNoneTaxable(input: Input, charges: seq<Charge>)
    ensures (forall k :: 0 <= k < |charges| ==> charges[k].taxable) ==> Taxable(input, charges) == Subtotal(input, charges)
    ensures (forall k :: 0 <= k < |charges| ==> !charges[k].taxable) ==> Taxable(input, charges) == 0
  {
    if charges != [] {
      AllOrNoneTaxable(input, charges[..|charges| - 1]);
    }
  }

  /** A tax amount in cents: a rate in hundredths of a per cent of a base, to the nearest cent, half a cent going up. */
  ghost predicate NearestTax(t: int, base: int, basisPoints: int) {
    -10_000 < 2 * (10_000 * t - base * basisPoints) <= 10_000
  }

  lemma TaxOnIsNearest(base: int, rate: int)
    ensures NearestTax(TaxOn(base, rate), base, rate)
  {
    RoundBounds(base * rate, 10_000);
  }

  lemma {:induction false} TaxTotalIsTheSum(base: int, rates: seq<int>)
    ensures exists taxes: seq<int> ::
              |taxes| == |rates| && Sum(taxes) == TaxTotal(base, rates)
              && forall i :: 0 <= i < |rates| ==> NearestTax(taxes[i], base, rates[i])
  {
    if rates == [] {
      var none: seq<int> := [];
      assert |none| == |rates| && Sum(none) == TaxTotal(base, rates);
    } else {
      var front, rate := rates[..|rates| - 1], rates[|rates| - 1];
      TaxTotalIsTheSum(base, front);
      var before: seq<int> :| |before| == |front| && Sum(before) == TaxTotal(base, front)
                              && forall i :: 0 <= i < |front| ==> NearestTax(before[i], base, front[i]);
      var taxes := before + [TaxOn(base, rate)];
      TaxOnIsNearest(base, rate);
      assert taxes[..|taxes| - 1] == before;
      assert Sum(taxes) == TaxTotal(base, rates);
      forall i | 0 <= i < |rates| ensures NearestTax(taxes[i], base, rates[i]) {
        assert i < |front| ==> front[i] == rates[i];
      }
    }
  }

  /** The charges that are taxable, and what a discount leaves of them: never less than nothing. */
  function TaxableOnly(charges: seq<Charge>): seq<Charge> {
    if charges == [] then []
    else
      var before, c := TaxableOnly(charges[..|charges| - 1]), charges[|charges| - 1];
      if c.taxable then before + [c] else before
  }

  lemma {:induction false} TaxableIsItsCharges(input: Input, charges: seq<Charge>)
    ensures Taxable(input, charges) == Subtotal(input, TaxableOnly(charges))
  {
    if charges != [] {
      var front, c := charges[..|charges| - 1], charges[|charges| - 1];
      TaxableIsItsCharges(input, front);
      var before := TaxableOnly(front);
      assert (before + [c])[..|before|] == before;
    }
  }

  /**
   How much tax there is: one amount for each rate, to the nearest cent, on the taxable charges less
   the discount (never below zero), and the tax is their sum.
   */
  lemma TaxIsANearestAmountForEachRate(input: Input)
    requires Ordinary(input)
    ensures var r := Built(input);
            var base := Max(0, Subtotal(input, TaxableOnly(input.charges)) - r.discount);
            exists taxes: seq<int> ::
              |taxes| == |input.taxRates| && Sum(taxes) == r.tax
              && forall i :: 0 <= i < |input.taxRates| ==> NearestTax(taxes[i], base, input.taxRates[i])
  {
    TaxableIsItsCharges(input, input.charges);
    TaxableIsPartOfTheCharges(input, input.charges);
    InvoiceIsNeverACredit(input);
    TaxTotalIsTheSum(TaxedBase(Taxable(input, input.charges), Built(input).discount), input.taxRates);
  }

  /** What each charge bills: its share of the monthly rate by the days billed, exactly the rate when that is all of them. */
  lemma ChargedIsTheShareOfItsDays(input: Input, c: Charge, date: int)
    requires input.period.start < input.period.end
    ensures var r := Charged(input, c);
            && Rounded(r.amount, c.monthly * r.days, r.daysInPeriod)
            && r.daysInPeriod == input.period.end - input.period.start
            && (r.days == r.daysInPeriod ==> r.amount == c.monthly)
            && r.days == r.to - r.from
            && (r.from <= date < r.to <==>
                  && input.period.start <= date < input.period.end
                  && (input.prorateFrom.Some? ==> input.prorateFrom.value <= date)
                  && (input.prorateTo.Some? ==> date < input.prorateTo.value))
  {
    ProratedAmountIsTheNearestShare(c.monthly, input.period,
      Or(input.prorateFrom, input.period.start), Or(input.prorateTo, input.period.end));
  }

  /** Tax is owed on what the tenant is charged after the discount; charges that are not taxable carry none. */
  lemma TaxIsOnWhatIsCharged(input: Input)
    requires Ordinary(input)
    ensures (forall k :: 0 <= k < |input.charges| ==> input.charges[k].taxable) ==>
              Built(input).tax == TaxTotal(Built(input).subtotal - Built(input).discount, input.taxRates)
    ensures (forall k :: 0 <= k < |input.charges| ==> !input.charges[k].taxable) ==> Built(input).tax == 0
  {
    AllOrNoneTaxable(input, input.charges);
    InvoiceIsNeverACredit(input);
    NoBaseNoTax(input.taxRates);
  }

  function Monthly(charges: seq<Charge>): int {
    if charges == [] then 0 else Monthly(charges[..|charges| - 1]) + charges[|charges| - 1].monthly
  }

  /** A full period bills the monthly rates exactly: no rounding is involved. */
  lemma {:induction false} FullPeriodBillsTheRates(input: Input, charges: seq<Charge>)
    requires input.period.start <= input.period.end && input.prorateFrom.None? && input.prorateTo.None?
    ensures Subtotal(input, charges) == Monthly(charges)
  {
    if charges != [] {
      FullPeriodBillsTheRates(input, charges[..|charges| - 1]);
      assert Charged(input, charges[|charges| - 1]).amount == charges[|charges| - 1].monthly;
    }
  }

  lemma {:induction false} SumIsNotNegative(xs: seq<int>)
    requires forall k :: 0 <= k < |xs| ==> xs[k] >= 0
    ensures Sum(xs) >= 0
  {
    if xs != [] {
      SumIsNotNegative(xs[..|xs| - 1]);
    }
  }

  /** Two invoices that differ in the discounts asked for. */
  ghost predicate DifferInDiscounts(a: Input, b: Input) {
    b == a.(discount := b.discount, extraDiscounts := b.extraDiscounts)
  }

  lemma {:induction false} DiscountsDoNotChangeCharges(a: Input, b: Input, charges: seq<Charge>)
    requires DifferInDiscounts(a, b)
    ensures Subtotal(a, charges) == Subtotal(b, charges) && Taxable(a, charges) == Taxable(b, charges)
  {
    if charges != [] {
      DiscountsDoNotChangeCharges(a, b, charges[..|charges| - 1]);
      assert Charged(a, charges[|charges| - 1]) == Charged(b, charges[|charges| - 1]);
    }
  }

  /** Asking for more off never raises the tax, and lowers the total by at least what more comes off. */
  lemma MoreDiscountNeverCostsMore(a: Input, b: Input)
    requires Ordinary(a) && DifferInDiscounts(a, b)
    requires AskedFor(a.discount, a.extraDiscounts) <= AskedFor(b.discount, b.extraDiscounts)
    ensures var x, y := Built(a), Built(b);
            && x.discount <= y.discount && y.tax <= x.tax
            && y.total <= x.total - (y.discount - x.discount)
  {
    RequestedIsAskedFor(a);
    RequestedIsAskedFor(b);
    DiscountsDoNotChangeCharges(a, b, a.charges);
    TaxableIsPartOfTheCharges(a, a.charges);
    var subtotal, taxable := Subtotal(a, a.charges), Taxable(a, a.charges);
    var x, y := DiscountTaken(subtotal, Sum(Requested(a))), DiscountTaken(subtotal, Sum(Requested(b)));
    TaxTotalGrowsWithTheBase(TaxedBase(taxable, y), TaxedBase(taxable, x), a.taxRates);
  }

  lemma {:induction false} SumSplits(xs: seq<int>, ys: seq<int>)
    ensures Sum(xs + ys) == Sum(xs) + Sum(ys)
  {
    if ys == [] {
      assert xs + ys == xs;
    } else {
      SumSplits(xs, ys[..|ys| - 1]);
      assert (xs + ys)[..|xs + ys| - 1] == xs + ys[..|ys| - 1];
    }
  }

  lemma TakeOut(before: seq<int>, x: int, after: seq<int>)
    ensures Sum(before + ([x] + after)) == Sum(before + after) + x
  {
    SumSplits(before, [x] + after);
    SumSplits([x], after);
    SumSplits(before, after);
    assert Sum([x]) == Sum([]) + x;
  }

  lemma CutAt(ys: seq<int>, k: nat)
    requires k < |ys|
    ensures ys == ys[..k] + ([ys[k]] + ys[k + 1..])
  {
  }

  lemma SameRest(front: seq<int>, x: int, before: seq<int>, after: seq<int>)
    requires multiset(front + [x]) == multiset(before + ([x] + after))
    ensures multiset(front) == multiset(before + after)
  {
    assert multiset(front + [x]) == multiset(front) + multiset{x};
    assert multiset(before + ([x] + after)) == multiset(before + after) + multiset{x};
    assert multiset(front) == multiset(front) + multiset{x} - multiset{x};
  }

  lemma {:induction false} SumIgnoresOrder(xs: seq<int>, ys: seq<int>)
    requires multiset(xs) == multiset(ys)
    ensures Sum(xs) == Sum(ys)
    decreases |xs|
  {
    if xs == [] {
      assert |multiset(ys)| == 0;
    } else {
      var front, x := xs[..|xs| - 1], xs[|xs| - 1];
      FrontAndLast(xs);
      assert x in multiset(xs);
      assert x in ys;
      var k :| 0 <= k < |ys| && ys[k] == x;
      var before, after := ys[..k], ys[k + 1..];
      CutAt(ys, k);
      TakeOut(before, x, after);
      SameRest(front, x, before, after);
      SumIgnoresOrder(front, before + after);
    }
  }

  lemma {:induction false} PositivesSplit(xs: seq<int>, ys: seq<int>)
    ensures Positives(xs + ys) == Positives(xs) + Positives(ys)
  {
    if ys == [] {
      assert xs + ys == xs;
    } else {
      PositivesSplit(xs, ys[..|ys| - 1]);
      assert (xs + ys)[..|xs + ys| - 1] == xs + ys[..|ys| - 1];
    }
  }

  lemma {:induction false} PositivesCount(xs: seq<int>, x: int)
    ensures multiset(Positives(xs))[x] == if x > 0 then multiset(xs)[x] else 0
  {
    if xs != [] {
      PositivesCount(xs[..|xs| - 1], x);
      FrontAndLast(xs);
    }
  }

  /** The amounts asked for, the promotion's first. */
  function Asks(input: Input): seq<int> {
    [Or(input.discount, 0)] + input.extraDiscounts
  }

  lemma RequestedFromAsks(input: Input)
    ensures Requested(input) == Positives(Asks(input))
  {
    var first := [Or(input.discount, 0)];
    PositivesSplit(first, input.extraDiscounts);
    assert first[..0] == [];
    assert Positives(first) == if first[0] > 0 then [] + [first[0]] else [];
  }

  lemma AsksInAnyOrder(a: Input, b: Input)
    requires multiset(Asks(a)) == multiset(Asks(b))
    ensures Sum(Requested(a)) == Sum(Requested(b))
  {
    RequestedFromAsks(a);
    RequestedFromAsks(b);
    forall x ensures multiset(Requested(a))[x] == multiset(Requested(b))[x] {
      PositivesCount(Asks(a), x);
      PositivesCount(Asks(b), x);
    }
    SumIgnoresOrder(Requested(a), Requested(b));
  }

  /** The order the discounts stack in changes which line shows what, and nothing else. */
  lemma StackingOrderIsIrrelevant(a: Input, b: Input)
    requires DifferInDiscounts(a, b) && multiset(Asks(a)) == multiset(Asks(b))
    ensures Built(a).subtotal == Built(b).subtotal && Built(a).discount == Built(b).discount
    ensures Built(a).tax == Built(b).tax && Built(a).total == Built(b).total
  {
    DiscountsDoNotChangeCharges(a, b, a.charges);
    AsksInAnyOrder(a, b);
  }
}
