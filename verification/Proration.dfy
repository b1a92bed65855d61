/**
 Proration (packages/core/billing/proration.ts). Money is integer cents; the one division is taken
 over exact rationals and rounded half-up, negative amounts in magnitude.
 */
module Proration {
  import opened Wrappers
  import opened Periods

  datatype Share = Share(amount: int, days: int, daysInPeriod: int, from: int, to: int)

  /** Math.round(num / den): halves go up. */
  function Round(num: int, den: int): int
    requires den > 0
  {
    (2 * num + den) / (2 * den)
  }

  function RoundHalfUp(num: int, den: int): int
    requires den > 0
  {
    if num < 0 then -Round(-num, den) else Round(num, den)
  }

  function Clamp(x: int, low: int, high: int): int {
    Min(Max(x, low), high)
  }

  function Prorate(monthly: int, period: Period, from: int, to: int): Share {
    var total := DaysInPeriod(period);
    var first := Clamp(from, period.start, period.end);
    var last := Clamp(to, first, period.end);
    var days := last - first;
    var amount :=
      if days == total then monthly
      else if total > 0 then RoundHalfUp(monthly * days, total)
      else RoundHalfUp(-(monthly * days), -total);
    Share(amount, days, total, first, last)
  }

  function UnusedRemainder(monthly: int, period: Period, from: int, to: int): Share {
    var used := Prorate(monthly, period, from, to);
    Share(monthly - used.amount, used.daysInPeriod - used.days, used.daysInPeriod, used.to, period.end)
  }

  // ---------------------------------------------------------------- rounding

  /** `r` is the whole number nearest to num / den, and a half is rounded away from zero. */
  ghost predicate Rounded(r: int, num: int, den: int) {
    if num < 0 then -den <= 2 * (r * den - num) < den else -den < 2 * (r * den - num) <= den
  }

  lemma DivisionBounds(a: int, b: int)
    requires b > 0
    ensures a / b * b <= a < a / b * b + b
  {
  }

  lemma RoundBounds(num: int, den: int)
    requires den > 0
    ensures -den < 2 * (Round(num, den) * den - num) <= den
  {
    DivisionBounds(2 * num + den, 2 * den);
    var r := Round(num, den);
    assert r * (2 * den) == 2 * (r * den);
  }

  lemma RoundHalfUpRounds(num: int, den: int)
    requires den > 0
    ensures Rounded(RoundHalfUp(num, den), num, den)
  {
    if num < 0 {
      RoundBounds(-num, den);
      assert -Round(-num, den) * den == -(Round(-num, den) * den);
    } else {
      RoundBounds(num, den);
    }
  }

  /** Those two inequalities leave one number. */
  lemma RoundedIsUnique(r: int, s: int, num: int, den: int)
    requires den > 0 && Rounded(r, num, den) && Rounded(s, num, den)
    ensures r == s
  {
    assert (r - s) * den == r * den - s * den;
    Scales(r - s, 0, den);
    Scales(1, r - s, den);
    Scales(r - s, -1, den);
  }

  lemma Scales(x: int, y: int, k: int)
    requires k > 0
    ensures x <= y <==> x * k <= y * k
  {
  }

  /** What a part of a period costs: the monthly amount's share by days, to the nearest cent; a whole one exactly. */
  lemma ProratedAmountIsTheNearestShare(monthly: int, period: Period, from: int, to: int)
    requires period.start < period.end
    ensures var r := Prorate(monthly, period, from, to);
            && Rounded(r.amount, monthly * r.days, r.daysInPeriod) && 0 <= r.days <= r.daysInPeriod
            && (r.days == r.daysInPeriod ==> r.amount == monthly)
            && (r.days == 0 ==> r.amount == 0)
  {
    var r := Prorate(monthly, period, from, to);
    if r.days != r.daysInPeriod {
      RoundHalfUpRounds(monthly * r.days, r.daysInPeriod);
      if r.days == 0 {
        assert monthly * r.days == 0;
        RoundedIsUnique(r.amount, 0, 0, r.daysInPeriod);
      }
    }
  }

  // ---------------------------------------------------------------- used and unused

  /** Charged and refunded come to the month exactly, in cents and in days. */
  lemma UsedPlusUnusedIsTheMonth(monthly: int, period: Period, from: int, to: int)
    requires period.start <= period.end
    ensures var used, unused := Prorate(monthly, period, from, to), UnusedRemainder(monthly, period, from, to);
            && used.amount + unused.amount == monthly && used.days + unused.days == DaysInPeriod(period)
            && 0 <= unused.days
            && (unused.days == unused.to - unused.from <==> used.from == period.start)
  {
  }

  // ---------------------------------------------------------------- a range over several periods

  /** The days charged are the days of the range that lie in the period. */
  lemma ClampedRangeIsTheOverlap(monthly: int, period: Period, from: int, to: int, date: int)
    requires period.start <= period.end
    ensures var r := Prorate(monthly, period, from, to);
            r.from <= date < r.to <==> from <= date < to && Contains(period, date)
  {
  }

  ghost predicate Consecutive(periods: seq<Period>) {
    && (forall k :: 0 <= k < |periods| ==> periods[k].start <= periods[k].end)
    && (forall k :: 0 <= k < |periods| - 1 ==> periods[k].end == periods[k + 1].start)
  }

  function DaysCharged(monthly: int, periods: seq<Period>, from: int, to: int): int {
    if periods == [] then 0
    else
      DaysCharged(monthly, periods[..|periods| - 1], from, to)
      + Prorate(monthly, periods[|periods| - 1], from, to).days
  }

  lemma {:induction false} ConsecutivePeriodsChargeTheOverlap(monthly: int, periods: seq<Period>, from: int, to: int)
    requires periods != [] && Consecutive(periods)
    ensures periods[0].start <= periods[|periods| - 1].end
    ensures DaysCharged(monthly, periods, from, to)
         == Max(0, Min(to, periods[|periods| - 1].end) - Max(from, periods[0].start))
  {
    if |periods| > 1 {
      ConsecutivePeriodsChargeTheOverlap(monthly, periods[..|periods| - 1], from, to);
    } else {
      assert periods[..0] == [];
      assert DaysCharged(monthly, [], from, to) == 0;
    }
  }

  lemma TilesAreConsecutive(day: int, n: int, count: nat)
    requires 1 <= day <= 28
    ensures Consecutive(Tiles(day, n, count))
  {
    var all := Tiles(day, n, count);
    forall k | 0 <= k < |all| ensures all[k].start <= all[k].end {
      TilesAt(day, n, count, k);
      TilesFollow(day, n + k);
    }
    forall k | 0 <= k < |all| - 1 ensures all[k].end == all[k + 1].start {
      TilesAt(day, n, count, k);
      TilesAt(day, n, count, k + 1);
      TilesFollow(day, n + k);
    }
  }

  /** The billing periods a range of days spans. */
  function Spanned(day: int, from: int, to: int): seq<Period>
    requires 1 <= day <= 28 && from < to
  {
    EarlierDateEarlierTile(day, from, to - 1);
    Tiles(day, TileOf(day, from), TileOf(day, to - 1) - TileOf(day, from) + 1)
  }

  lemma SpannedCovers(day: int, from: int, to: int)
    requires 1 <= day <= 28 && from < to
    ensures var all := Spanned(day, from, to);
            all != [] && Consecutive(all) && all[0].start <= from && to <= all[|all| - 1].end
  {
    EarlierDateEarlierTile(day, from, to - 1);
    var first := TileOf(day, from);
    var count := TileOf(day, to - 1) - first + 1;
    TilesAreConsecutive(day, first, count);
    TilesAt(day, first, count, 0);
    TilesAt(day, first, count, count - 1);
  }

  /** Prorating a range over the billing periods it spans charges every day of it once. */
  lemma EachDayIsChargedOnce(monthly: int, day: int, from: int, to: int)
    requires 1 <= day <= 28 && from < to
    ensures DaysCharged(monthly, Spanned(day, from, to), from, to) == to - from
  {
    SpannedCovers(day, from, to);
    ConsecutivePeriodsChargeTheOverlap(monthly, Spanned(day, from, to), from, to);
  }

  // ---------------------------------------------------------------- a period cut into pieces

  /** What the pieces between successive cuts cost together. */
  function CutTotal(monthly: int, period: Period, cuts: seq<int>): int {
    if |cuts| < 2 then 0
    else
      CutTotal(monthly, period, cuts[..|cuts| - 1])
      + Prorate(monthly, period, cuts[|cuts| - 2], cuts[|cuts| - 1]).amount
  }

  ghost predicate CutsWithin(period: Period, cuts: seq<int>) {
    && cuts != [] && (forall k :: 0 <= k < |cuts| ==> period.start <= cuts[k] <= period.end)
    && (forall j, k :: 0 <= j <= k < |cuts| ==> cuts[j] <= cuts[k])
  }

  /** Twice the distance, times the period's length, between what n pieces cost and their exact share. */
  ghost predicate Within(cost: int, monthly: int, days: int, total: int, n: int) {
    -(n * total) <= 2 * (cost * total - monthly * days) <= n * total
  }

  lemma WithinAdds(cost: int, a: int, b: int, monthly: int, days: int, c: int, d: int, total: int, n: int)
    requires Within(a, monthly, c, total, n - 1) && Within(b, monthly, d, total, 1)
    requires cost == a + b && days == c + d
    ensures Within(cost, monthly, days, total, n)
  {
    assert (a + b) * total == a * total + b * total;
    assert monthly * (c + d) == monthly * c + monthly * d;
    assert n * total == (n - 1) * total + total;
  }

  lemma PieceIsNearItsShare(monthly: int, period: Period, from: int, to: int)
    requires period.start < period.end && period.start <= from <= to <= period.end
    ensures Within(Prorate(monthly, period, from, to).amount, monthly, to - from, DaysInPeriod(period), 1)
  {
    ProratedAmountIsTheNearestShare(monthly, period, from, to);
  }

  lemma NoPieceIsNearNothing(cost: int, monthly: int, days: int, total: int, n: int)
    requires cost == 0 && days == 0 && n == 0
    ensures Within(cost, monthly, days, total, n)
  {
  }

  lemma {:induction false} PiecesStayNearTheirShare(monthly: int, period: Period, cuts: seq<int>)
    requires period.start < period.end && CutsWithin(period, cuts)
    ensures Within(CutTotal(monthly, period, cuts), monthly, cuts[|cuts| - 1] - cuts[0], DaysInPeriod(period), |cuts| - 1)
  {
    var last, total := cuts[|cuts| - 1], DaysInPeriod(period);
    var cost, n, days := CutTotal(monthly, period, cuts), |cuts| - 1, last - cuts[0];
    if n == 0 {
      NoPieceIsNearNothing(cost, monthly, days, total, n);
    } else {
      var front := cuts[..n];
      var prev := front[n - 1];
      PiecesStayNearTheirShare(monthly, period, front);
      PieceIsNearItsShare(monthly, period, prev, last);
      WithinAdds(cost, CutTotal(monthly, period, front), Prorate(monthly, period, prev, last).amount,
        monthly, days, prev - cuts[0], last - prev, total, n);
    }
  }

  lemma DivideOut(cost: int, monthly: int, total: int, n: int)
    requires total > 0 && Within(cost, monthly, total, total, n)
    ensures -n <= 2 * (cost - monthly) <= n
  {
    assert 2 * (cost * total - monthly * total) == 2 * (cost - monthly) * total;
    Scales(2 * (cost - monthly), n, total);
    Scales(-n, 2 * (cost - monthly), total);
  }

  /** Cutting a period into n pieces changes what it costs by at most n / 2 cents. */
  lemma CuttingCostsAtMostHalfACentAPiece(monthly: int, period: Period, cuts: seq<int>)
    requires period.start < period.end && CutsWithin(period, cuts)
    requires cuts[0] == period.start && cuts[|cuts| - 1] == period.end
    ensures -(|cuts| - 1) <= 2 * (CutTotal(monthly, period, cuts) - monthly) <= |cuts| - 1
  {
    PiecesStayNearTheirShare(monthly, period, cuts);
    DivideOut(CutTotal(monthly, period, cuts), monthly, DaysInPeriod(period), |cuts| - 1);
  }

  lemma HalfOfAnOddRent(monthly: nat, half: nat)
    requires monthly % 2 == 1 && half > 0
    ensures RoundHalfUp(monthly * half, 2 * half) == (monthly + 1) / 2
  {
    var num, cent := monthly * half, (monthly + 1) / 2;
    assert cent * (2 * half) == 2 * cent * half == num + half;
    RoundHalfUpRounds(num, 2 * half);
    RoundedIsUnique(RoundHalfUp(num, 2 * half), cent, num, 2 * half);
  }

  /** The bound is met: an odd rent cut at the middle of a period always comes to a cent more. */
  lemma HalvesCostACentMore(monthly: nat, period: Period, half: nat)
    requires monthly % 2 == 1 && half > 0 && period.end == period.start + 2 * half
    ensures CutTotal(monthly, period, [period.start, period.start + half, period.end]) == monthly + 1
  {
    var middle := period.start + half;
    var cuts := [period.start, middle, period.end];
    HalfOfAnOddRent(monthly, half);
    assert cuts[..2] == [period.start, middle];
    assert [period.start, middle][..1] == [period.start];
    assert CutTotal(monthly, period, [period.start]) == 0;
  }
}
