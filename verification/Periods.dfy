/**
 Billing periods (packages/core/billing/periods.ts). Dates are whole UTC days, counted as in
 Calendar; a period is the half-open range of days from `start` up to `end`.
 */
module Periods {
  import opened Wrappers
  import opened Calendar

  datatype Policy = Anniversary | FirstOfMonth

  datatype Period = Period(start: int, end: int)

  /** Date.UTC(year, month, day) for a day that exists in every month. */
  function UtcDate(m: int, day: int): int {
    MonthStart(m) + day - 1
  }

  function BillingDayFor(policy: Policy, startDate: int): int {
    if policy.FirstOfMonth? then 1 else Min(DayOfMonth(startDate), 28)
  }

  /** The day periods start on: the policy is the authority, and the column is kept within 1..28. */
  function StartDay(policy: Policy, billingDay: int): (r: int)
    ensures 1 <= r <= 28
  {
    if policy.FirstOfMonth? then 1 else Min(Max(billingDay, 1), 28)
  }

  function BillingPeriodFor(policy: Policy, billingDay: int, date: int): Period {
    var day := StartDay(policy, billingDay);
    var startMonth := if DayOfMonth(date) >= day then MonthOf(date) else MonthOf(date) - 1;
    Period(UtcDate(startMonth, day), UtcDate(startMonth + 1, day))
  }

  function NextBillingPeriod(period: Period): Period {
    Period(period.end, UtcDate(MonthOf(period.end) + 1, DayOfMonth(period.end)))
  }

  function DaysInPeriod(period: Period): int {
    period.end - period.start
  }

  // ---------------------------------------------------------------- the calendar, tiled

  /** The specification: the n-th period is the one that starts in month n. */
  function Tile(day: int, n: int): Period {
    Period(UtcDate(n, day), UtcDate(n + 1, day))
  }

  predicate Contains(period: Period, date: int) {
    period.start <= date < period.end
  }

  /** Each tile ends where the next begins, lasts 28 to 31 days, and is what the code calls the next period. */
  lemma TilesFollow(day: int, n: int)
    requires 1 <= day <= 28
    ensures Tile(day, n).end == Tile(day, n + 1).start
    ensures 28 <= DaysInPeriod(Tile(day, n)) <= 31
    ensures NextBillingPeriod(Tile(day, n)) == Tile(day, n + 1)
  {
    MonthsTile(n);
    MonthsTile(n + 1);
    MonthOfIsUnique(UtcDate(n + 1, day), n + 1);
  }

  lemma TilesClimb(day: int, m: int, n: int)
    requires m < n
    ensures Tile(day, m).end <= Tile(day, n).start
  {
    MonthStartsGrow(m + 1, n);
  }

  /** The tile a date falls in. */
  function TileOf(day: int, date: int): (n: int)
    requires 1 <= day <= 28
    ensures Contains(Tile(day, n), date)
  {
    MonthsTile(MonthOf(date) - 1);
    MonthsTile(MonthOf(date));
    if DayOfMonth(date) >= day then MonthOf(date) else MonthOf(date) - 1
  }

  lemma TileIsUnique(day: int, date: int, n: int)
    requires 1 <= day <= 28 && Contains(Tile(day, n), date)
    ensures n == TileOf(day, date)
  {
    var m := TileOf(day, date);
    if m < n {
      TilesClimb(day, m, n);
    } else if n < m {
      TilesClimb(day, n, m);
    }
  }

  lemma PeriodIsATile(policy: Policy, billingDay: int, date: int)
    ensures var day := StartDay(policy, billingDay);
            BillingPeriodFor(policy, billingDay, date) == Tile(day, TileOf(day, date))
  {
  }

  /** Every date is in its period, and two dates share a period exactly when either is in the other's. */
  lemma PeriodsTileTheCalendar(policy: Policy, billingDay: int, date: int, other: int)
    ensures var period := BillingPeriodFor(policy, billingDay, date);
            && Contains(period, date) && 28 <= DaysInPeriod(period) <= 31
            && (Contains(period, other) <==> BillingPeriodFor(policy, billingDay, other) == period)
  {
    var day := StartDay(policy, billingDay);
    var n := TileOf(day, date);
    PeriodIsATile(policy, billingDay, date);
    PeriodIsATile(policy, billingDay, other);
    TilesFollow(day, n);
    if Contains(Tile(day, n), other) {
      TileIsUnique(day, other, n);
    }
  }

  /** The next period is the one the day after this one falls in. */
  lemma NextPeriodFollows(policy: Policy, billingDay: int, date: int)
    ensures var period := BillingPeriodFor(policy, billingDay, date);
            NextBillingPeriod(period) == BillingPeriodFor(policy, billingDay, period.end)
  {
    var day := StartDay(policy, billingDay);
    var n := TileOf(day, date);
    PeriodIsATile(policy, billingDay, date);
    TilesFollow(day, n);
    TilesFollow(day, n + 1);
    TileIsUnique(day, Tile(day, n).end, n + 1);
    PeriodIsATile(policy, billingDay, Tile(day, n).end);
  }

  /** A period starts on the billing day, kept within 1..28, or on the first where the facility bills on the first. */
  lemma PeriodStartsOnItsDay(policy: Policy, billingDay: int, date: int)
    ensures var startsOn := DayOfMonth(BillingPeriodFor(policy, billingDay, date).start);
            && (policy.FirstOfMonth? ==> startsOn == 1)
            && (policy.Anniversary? && 1 <= billingDay <= 28 ==> startsOn == billingDay)
            && (policy.Anniversary? && billingDay < 1 ==> startsOn == 1)
            && (policy.Anniversary? && billingDay > 28 ==> startsOn == 28)
  {
    var day := StartDay(policy, billingDay);
    var n := TileOf(day, date);
    PeriodIsATile(policy, billingDay, date);
    MonthsTile(n);
    MonthOfIsUnique(UtcDate(n, day), n);
  }

  /** A lease bills on its move-in day, or on the 28th if that day is not in every month, or on the first by policy. */
  lemma LeaseBillsOnItsDay(policy: Policy, startDate: int, date: int)
    ensures var startsOn := DayOfMonth(BillingPeriodFor(policy, BillingDayFor(policy, startDate), date).start);
            && (policy.FirstOfMonth? ==> startsOn == 1 == BillingDayFor(policy, startDate))
            && (policy.Anniversary? && DayOfMonth(startDate) <= 28 ==>
                  startsOn == DayOfMonth(startDate) == BillingDayFor(policy, startDate))
            && (policy.Anniversary? && DayOfMonth(startDate) > 28 ==> startsOn == 28 == BillingDayFor(policy, startDate))
  {
    PeriodStartsOnItsDay(policy, BillingDayFor(policy, startDate), date);
  }

  /** Moving in starts a full period, unless it happens on the 29th, 30th or 31st. */
  lemma MoveInStartsAPeriodIffTheDayExistsEveryMonth(startDate: int)
    ensures BillingPeriodFor(Anniversary, BillingDayFor(Anniversary, startDate), startDate).start == startDate
       <==> DayOfMonth(startDate) <= 28
  {
  }

  lemma StartedBy(day: int, date: int, n: int)
    requires 1 <= day <= 28
    ensures Tile(day, n).start <= date <==> n <= TileOf(day, date)
  {
    var m := TileOf(day, date);
    if m < n {
      TilesClimb(day, m, n);
    } else if n < m {
      TilesClimb(day, n, m);
      TilesFollow(day, n);
    }
  }

  /** The tiles that start after one date and by another are those between the two dates' own tiles. */
  lemma StartsBetween(day: int, after: int, through: int, n: int)
    requires 1 <= day <= 28
    ensures after < Tile(day, n).start <= through <==> TileOf(day, after) < n <= TileOf(day, through)
  {
    StartedBy(day, after, n);
    StartedBy(day, through, n);
  }

  /** How many periods start in (after, through], up to the cap. */
  function StartCount(day: int, after: int, through: int, maxPeriods: int): nat
    requires 1 <= day <= 28
  {
    Max(0, Min(maxPeriods, TileOf(day, through) - TileOf(day, after)))
  }

  /** What one turn of either walk knows about the period it holds and the one it moves to. */
  lemma TurnOfTheWalk(day: int, date: int, n: int, period: Period)
    requires 1 <= day <= 28 && period == Tile(day, n)
    ensures period.start <= date <==> n <= TileOf(day, date)
    ensures NextBillingPeriod(period) == Tile(day, n + 1)
  {
    StartedBy(day, date, n);
    TilesFollow(day, n);
  }

  /** The first period to start strictly after a date. */
  method FirstStartAfter(policy: Policy, billingDay: int, after: int) returns (period: Period)
    ensures var day := StartDay(policy, billingDay); period == Tile(day, TileOf(day, after) + 1)
  {
    ghost var day := StartDay(policy, billingDay);
    ghost var from := TileOf(day, after);
    ghost var n := from;
    period := BillingPeriodFor(policy, billingDay, after);
    PeriodIsATile(policy, billingDay, after);
    TurnOfTheWalk(day, after, n, period);
    while period.start <= after
      invariant period == Tile(day, n) && from <= n <= from + 1
      invariant period.start <= after <==> n <= from
      decreases from + 1 - n
    {
      TurnOfTheWalk(day, after, n, period);
      period := NextBillingPeriod(period);
      n := n + 1;
      TurnOfTheWalk(day, after, n, period);
    }
  }

  /** The `count` tiles from tile `n` on. */
  function Tiles(day: int, n: int, count: nat): (r: seq<Period>)
    ensures |r| == count
  {
    if count == 0 then [] else Tiles(day, n, count - 1) + [Tile(day, n + count - 1)]
  }

  /** A list of consecutive periods of which all but the last start by `through`. */
  ghost predicate Chain(all: seq<Period>, through: int) {
    && all != [] && through < all[|all| - 1].start
    && (forall k :: 0 <= k < |all| - 1 ==> Linked(all[k], all[k + 1], through))
  }

  ghost predicate Linked(period: Period, next: Period, through: int) {
    period.start <= through && next == NextBillingPeriod(period)
  }

  /** The walk along such a list. */
  method Walk(first: Period, through: int, maxPeriods: int, ghost all: seq<Period>) returns (periods: seq<Period>)
    requires Chain(all, through) && first == all[0]
    ensures periods == all[..Max(0, Min(maxPeriods, |all| - 1))]
  {
    periods := [];
    var period := first;
    while period.start <= through && |periods| < maxPeriods
      invariant |periods| < |all| && period == all[|periods|] && periods == all[..|periods|]
      invariant periods == [] || |periods| <= maxPeriods
      decreases |all| - |periods|
    {
      TakeOneMore(all, |periods|);
      assert |periods| < |all| - 1 ==> Linked(all[|periods|], all[|periods| + 1], through);
      periods := periods + [period];
      period := NextBillingPeriod(period);
    }
    assert |periods| < |all| - 1 ==> Linked(all[|periods|], all[|periods| + 1], through);
  }

  lemma {:induction false} TilesAt(day: int, n: int, count: nat, k: nat)
    requires k < count
    ensures Tiles(day, n, count)[k] == Tile(day, n + k)
  {
    if k < count - 1 {
      TilesAt(day, n, count - 1, k);
    }
  }

  lemma {:induction false} TilesPrefix(day: int, n: int, count: nat, k: nat)
    requires k <= count
    ensures Tiles(day, n, count)[..k] == Tiles(day, n, k)
  {
    if k < count {
      TilesPrefix(day, n, count - 1, k);
      var front := Tiles(day, n, count - 1);
      assert (front + [Tile(day, n + count - 1)])[..k] == front[..k];
    }
  }

  lemma TilesLink(day: int, through: int, n: int, count: nat, k: nat)
    requires 1 <= day <= 28 && n + k <= TileOf(day, through) && k + 1 < count
    ensures Linked(Tiles(day, n, count)[k], Tiles(day, n, count)[k + 1], through)
  {
    TilesAt(day, n, count, k);
    TilesAt(day, n, count, k + 1);
    TurnOfTheWalk(day, through, n + k, Tile(day, n + k));
  }

  lemma TilesChain(day: int, through: int, n: int, count: nat)
    requires 1 <= day <= 28 && n + count == TileOf(day, through) + 1
    ensures Chain(Tiles(day, n, count + 1), through) && Tiles(day, n, count + 1)[0] == Tile(day, n)
  {
    var all := Tiles(day, n, count + 1);
    TilesAt(day, n, count + 1, 0);
    TilesAt(day, n, count + 1, count);
    StartedBy(day, through, n + count);
    forall k | 0 <= k < |all| - 1 ensures Linked(all[k], all[k + 1], through) {
      TilesLink(day, through, n, count + 1, k);
    }
  }

  /** Every period that starts in (after, through], in order, once, up to the cap. */
  method PeriodStartsBetween(policy: Policy, billingDay: int, after: int, through: int, maxPeriods: int)
    returns (periods: seq<Period>)
    ensures var day := StartDay(policy, billingDay);
            periods == Tiles(day, TileOf(day, after) + 1, StartCount(day, after, through, maxPeriods))
  {
    ghost var day := StartDay(policy, billingDay);
    EarlierDateEarlierTile(day, Min(after, through), Max(after, through));
    if through <= after {
      return [];
    }
    ghost var n := TileOf(day, after) + 1;
    ghost var count := TileOf(day, through) + 1 - n;
    TilesChain(day, through, n, count);
    TilesPrefix(day, n, count + 1, StartCount(day, after, through, maxPeriods));
    var period := FirstStartAfter(policy, billingDay, after);
    periods := Walk(period, through, maxPeriods, Tiles(day, n, count + 1));
  }

  lemma EarlierDateEarlierTile(day: int, sooner: int, later: int)
    requires 1 <= day <= 28 && sooner <= later
    ensures TileOf(day, sooner) <= TileOf(day, later)
  {
    StartedBy(day, later, TileOf(day, sooner));
  }

  lemma TilesDiffer(day: int, m: int, n: int)
    requires 1 <= day <= 28 && m != n
    ensures Tile(day, m) != Tile(day, n)
  {
    TilesFollow(day, m);
    TilesFollow(day, n);
    if m < n {
      TilesClimb(day, m, n);
    } else {
      TilesClimb(day, n, m);
    }
  }

  lemma {:induction false} TilesMembers(day: int, n: int, count: nat, m: int)
    requires 1 <= day <= 28
    ensures Tile(day, m) in Tiles(day, n, count) <==> n <= m < n + count
  {
    if count > 0 {
      TilesMembers(day, n, count - 1, m);
      if m != n + count - 1 {
        TilesDiffer(day, n + count - 1, m);
      }
    }
  }

  /** So a period is listed exactly when it starts in the window, unless the cap cut the list short. */
  lemma ListedIffItStartsInTheWindow(day: int, after: int, through: int, maxPeriods: int, m: int)
    requires 1 <= day <= 28 && TileOf(day, through) - TileOf(day, after) <= maxPeriods
    ensures Tile(day, m) in Tiles(day, TileOf(day, after) + 1, StartCount(day, after, through, maxPeriods))
       <==> after < Tile(day, m).start <= through
  {
    TilesMembers(day, TileOf(day, after) + 1, StartCount(day, after, through, maxPeriods), m);
    StartsBetween(day, after, through, m);
  }
}
