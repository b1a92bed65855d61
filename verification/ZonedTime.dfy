/**
 Local midnight and the month windows built on it (packages/core/jobs/schedule.ts,
 `monthBounds` in packages/core/billing/statements.ts). Instants are UTC milliseconds and a zone
 is any function from instants to whole-minute offsets of at most a day.
 */
module ZonedTime {
  import opened Calendar

  const MINUTE := 60_000
  const DAY := 86_400_000

  type Zone = int -> int

  ghost predicate Bounded(z: Zone) {
    forall t :: -1440 <= z(t) <= 1440
  }

  /** What the clock on the wall reads at an instant, as if it were UTC. */
  function Local(z: Zone, t: int): int {
    t + z(t) * MINUTE
  }

  /** The facility-local calendar date of an instant. */
  function BusinessDateFor(z: Zone, t: int): int {
    Local(z, t) / DAY
  }

  /** That date is the one the wall clock is on: a whole number of days of 24 hours, and less than one more. */
  lemma BusinessDateIsTheLocalDay(z: Zone, t: int)
    ensures var local := t + z(t) * 60 * 1000;
            BusinessDateFor(z, t) * 24 * 60 * 60 * 1000 <= local < (BusinessDateFor(z, t) + 1) * 24 * 60 * 60 * 1000
  {
  }

  /** Measured twice: the offset at the naive instant, then the one at the candidate it gives. */
  function ZonedMidnight(z: Zone, day: int): int {
    var naive := day * DAY;
    var first := z(naive);
    var candidate := naive - first * MINUTE;
    var second := z(candidate);
    if second == first then candidate else naive - second * MINUTE
  }

  ghost predicate HasMidnight(z: Zone, day: int) {
    exists t :: Local(z, t) == day * DAY
  }

  /** Within a day of the naive instant the offset changes at most once, at `change`. */
  ghost predicate OneChange(z: Zone, day: int, change: int, before: int, after: int) {
    forall t :: day * DAY - DAY <= t <= day * DAY + DAY ==> z(t) == if t < change then before else after
  }

  /**
   Exact condition: the two-pass conversion returns an instant that reads midnight on that date iff
   that date has a midnight at all.
   */
  lemma ZonedMidnightIsMidnightIffThereIsOne(z: Zone, day: int, change: int, before: int, after: int)
    requires Bounded(z) && OneChange(z, day, change, before, after)
    ensures Local(z, ZonedMidnight(z, day)) == day * DAY <==> HasMidnight(z, day)
  {
    var naive := day * DAY;
    assert naive - DAY <= naive - z(naive) * MINUTE <= naive + DAY;
    assert naive - DAY <= ZonedMidnight(z, day) <= naive + DAY;
    if HasMidnight(z, day) {
      var t :| Local(z, t) == naive;
      assert naive - DAY <= t <= naive + DAY;
      assert t == naive - z(t) * MINUTE;
      assert z(t) == before || z(t) == after;
    }
  }

  /** So it inverts `businessDateFor` on every date that has a midnight. */
  lemma MidnightMapsBackToItsDate(z: Zone, day: int, change: int, before: int, after: int)
    requires Bounded(z) && OneChange(z, day, change, before, after) && HasMidnight(z, day)
    ensures BusinessDateFor(z, ZonedMidnight(z, day)) == day
  {
    ZonedMidnightIsMidnightIffThereIsOne(z, day, change, before, after);
  }

  /**
   On a date whose midnight the clocks skip, the result still falls on that date or later iff the
   clocks had changed by the naive instant, that is, by midnight UTC: on that date if they skip less
   than a day, a day later for each whole day they skip. A zone that changes after midnight UTC gets
   an instant on an earlier date, the day before unless more than a day is skipped.
   */
  lemma SkippedMidnight(z: Zone, day: int, change: int, before: int, after: int)
    requires Bounded(z) && OneChange(z, day, change, before, after) && !HasMidnight(z, day)
    ensures 0 < after - before <= 2880
    ensures BusinessDateFor(z, ZonedMidnight(z, day))
         == if change <= day * DAY then day + (after - before) / 1440 else day - (after - before + 1439) / 1440
  {
    var naive := day * DAY;
    var b, a := naive - before * MINUTE, naive - after * MINUTE;
    assert z(naive) == if naive < change then before else after;
    assert -1440 <= z(naive) <= 1440 && z(naive - DAY) == (if naive - DAY < change then before else after);
    assert -1440 <= z(naive - DAY) <= 1440 && -1440 <= z(naive + DAY) <= 1440;
    assert naive - DAY <= naive - z(naive) * MINUTE <= naive + DAY;
    assert naive - DAY <= b <= naive + DAY ==> Local(z, b) != naive;
    assert naive - DAY <= a <= naive + DAY ==> Local(z, a) != naive;
  }

  // ---------------------------------------------------------------- month windows

  datatype Window = Window(start: int, end: int)

  /** Local midnight on the first of a month, by month index. */
  function MonthEdge(z: Zone, m: int): int {
    ZonedMidnight(z, MonthStart(m))
  }

  /** `month` counts from 1. */
  function MonthBounds(z: Zone, year: int, month: int): Window
    requires 1 <= month <= 12
  {
    Window(
      MonthEdge(z, Month(year, month - 1)),
      if month == 12 then MonthEdge(z, Month(year + 1, 0)) else MonthEdge(z, Month(year, month)))
  }

  lemma EdgeNearNaive(z: Zone, m: int)
    requires Bounded(z)
    ensures MonthStart(m) * DAY - DAY <= MonthEdge(z, m) <= MonthStart(m) * DAY + DAY
  {
    var naive := MonthStart(m) * DAY;
    assert -1440 <= z(naive) <= 1440 && -1440 <= z(naive - z(naive) * MINUTE) <= 1440;
  }

  lemma EdgesGrow(z: Zone, m: int, n: int)
    requires Bounded(z) && m < n
    ensures MonthEdge(z, m) < MonthEdge(z, n)
  {
    EdgeNearNaive(z, m);
    EdgeNearNaive(z, n);
    MonthStartsGrow(m, n);
  }

  ghost predicate InWindow(t: int, w: Window) {
    w.start <= t < w.end
  }

  /** The window of a month index. */
  function WindowOf(z: Zone, m: int): Window {
    MonthBounds(z, m / 12, m % 12 + 1)
  }

  lemma WindowEdges(z: Zone, m: int)
    ensures WindowOf(z, m) == Window(MonthEdge(z, m), MonthEdge(z, m + 1))
  {
    var year, k := m / 12, m % 12;
    assert Month(year, k) == m && Month(year, k + 1) == m + 1;
    assert k == 11 ==> Month(year + 1, 0) == m + 1;
  }

  lemma EdgesInOrder(z: Zone, m: int, n: int)
    requires Bounded(z) && m <= n
    ensures MonthEdge(z, m) <= MonthEdge(z, n)
  {
    if m < n {
      EdgesGrow(z, m, n);
    }
  }

  lemma OneWindowOnly(z: Zone, t: int, m: int, n: int)
    requires Bounded(z) && MonthEdge(z, m) <= t < MonthEdge(z, m + 1) && MonthEdge(z, n) <= t < MonthEdge(z, n + 1)
    ensures m == n
  {
    if m < n {
      EdgesInOrder(z, m + 1, n);
    } else if n < m {
      EdgesInOrder(z, n + 1, m);
    }
  }

  lemma EdgesAround(z: Zone, m: int)
    requires Bounded(z)
    ensures MonthEdge(z, m - 1) <= MonthStart(m) * DAY <= MonthEdge(z, m + 1)
  {
    MonthStartsGrow(m - 1, m);
    MonthStartsGrow(m, m + 1);
    EdgeNearNaive(z, m - 1);
    EdgeNearNaive(z, m + 1);
  }

  lemma DayBounds(t: int, first: int, next: int)
    requires first <= t / DAY < next
    ensures first * DAY <= t < next * DAY
  {
  }

  lemma PickWindow(z: Zone, t: int, m: int) returns (home: int)
    requires MonthEdge(z, m - 1) <= t < MonthEdge(z, m + 2)
    ensures MonthEdge(z, home) <= t < MonthEdge(z, home + 1)
  {
    home := if t < MonthEdge(z, m) then m - 1 else if t < MonthEdge(z, m + 1) then m else m + 1;
  }

  lemma HomeWindow(z: Zone, t: int) returns (home: int)
    requires Bounded(z)
    ensures MonthEdge(z, home) <= t < MonthEdge(z, home + 1)
  {
    var m := MonthOf(t / DAY);
    DayBounds(t, MonthStart(m), MonthStart(m + 1));
    EdgesAround(z, m);
    EdgesAround(z, m + 1);
    home := PickWindow(z, t, m);
  }

  /** The month windows tile time: every instant lies in exactly one, whatever the zone does. */
  lemma MonthWindowsTileTime(z: Zone, t: int)
    requires Bounded(z)
    ensures exists m :: InWindow(t, WindowOf(z, m)) && forall n :: InWindow(t, WindowOf(z, n)) ==> n == m
  {
    var home := HomeWindow(z, t);
    WindowEdges(z, home);
    assert InWindow(t, WindowOf(z, home));
    forall n | InWindow(t, WindowOf(z, n)) ensures n == home {
      WindowEdges(z, n);
      OneWindowOnly(z, t, n, home);
    }
  }

  // ---------------------------------------------------------------- windows and local dates

  /** The edge parts the instants whose local date is before the month from the others. */
  ghost predicate Separates(z: Zone, m: int) {
    forall t :: MonthEdge(z, m) <= t <==> MonthStart(m) <= BusinessDateFor(z, t)
  }

  /**
   The clock as it reads before the change and as it reads after it put midnight on the same side of
   the change; or midnight falls on the change itself, and the first offset measured tells which
   reading to keep.
   */
  predicate CleanEdge(m: int, change: int, before: int, after: int) {
    var naive := MonthStart(m) * DAY;
    var b, a := naive - before * MINUTE, naive - after * MINUTE;
    if b < change then a < change || (a == change && naive < change)
    else a >= change || (b == change && change <= naive)
  }

  lemma DateFromLocal(z: Zone, m: int, t: int)
    ensures MonthStart(m) <= BusinessDateFor(z, t) <==> MonthStart(m) * DAY <= Local(z, t)
  {
  }

  lemma CleanEdgeAt(z: Zone, m: int, change: int, before: int, after: int, t: int)
    requires Bounded(z) && OneChange(z, MonthStart(m), change, before, after)
    requires -1440 <= before <= 1440 && -1440 <= after <= 1440 && CleanEdge(m, change, before, after)
    ensures MonthEdge(z, m) <= t <==> MonthStart(m) * DAY <= Local(z, t)
  {
    var naive := MonthStart(m) * DAY;
    assert -1440 <= z(t) <= 1440;
    EdgeNearNaive(z, m);
  }

  lemma SeparatingEdgeIsClean(z: Zone, m: int, change: int, before: int, after: int)
    requires Bounded(z) && OneChange(z, MonthStart(m), change, before, after)
    requires -1440 <= before <= 1440 && -1440 <= after <= 1440 && Separates(z, m)
    ensures CleanEdge(m, change, before, after)
  {
    var naive := MonthStart(m) * DAY;
    var b, a := naive - before * MINUTE, naive - after * MINUTE;
    forall t ensures MonthEdge(z, m) <= t <==> naive <= Local(z, t) {
      DateFromLocal(z, m, t);
    }
    assert MonthEdge(z, m) <= b <==> naive <= Local(z, b);
    assert MonthEdge(z, m) <= change <==> naive <= Local(z, change);
    assert MonthEdge(z, m) <= change - 1 <==> naive <= Local(z, change - 1);
  }

  /** Exact condition: with one change near it, a month's edge parts the local dates iff it is clean. */
  lemma EdgeSeparatesIffClean(z: Zone, m: int, change: int, before: int, after: int)
    requires Bounded(z) && OneChange(z, MonthStart(m), change, before, after)
    requires -1440 <= before <= 1440 && -1440 <= after <= 1440
    ensures Separates(z, m) <==> CleanEdge(m, change, before, after)
  {
    if CleanEdge(m, change, before, after) {
      forall t ensures MonthEdge(z, m) <= t <==> MonthStart(m) <= BusinessDateFor(z, t) {
        CleanEdgeAt(z, m, change, before, after, t);
        DateFromLocal(z, m, t);
      }
    }
    if Separates(z, m) {
      SeparatingEdgeIsClean(z, m, change, before, after);
    }
  }

  /** The window holds exactly the instants whose facility-local date is in the month. */
  ghost predicate HoldsItsMonth(z: Zone, m: int) {
    forall t :: InWindow(t, WindowOf(z, m)) <==> MonthOf(BusinessDateFor(z, t)) == m
  }

  lemma DateIsInMonth(day: int, m: int)
    ensures MonthStart(m) <= day < MonthStart(m + 1) <==> MonthOf(day) == m
  {
    if MonthStart(m) <= day < MonthStart(m + 1) {
      MonthOfIsUnique(day, m);
    }
  }

  /** Far from an edge, before or after it, the edge and the local dates agree anyway. */
  lemma FarFromTheEdge(z: Zone, m: int, t: int)
    requires Bounded(z)
    ensures t < MonthStart(m) * DAY - DAY ==> t < MonthEdge(z, m) && BusinessDateFor(z, t) < MonthStart(m)
    ensures MonthStart(m) * DAY + DAY <= t ==> MonthEdge(z, m) <= t && MonthStart(m) <= BusinessDateFor(z, t)
  {
    assert -1440 <= z(t) <= 1440;
    EdgeNearNaive(z, m);
    DateFromLocal(z, m, t);
  }

  lemma WindowIsMonthAt(z: Zone, m: int, t: int)
    requires Bounded(z)
    ensures var date := BusinessDateFor(z, t);
            var starts, ends := MonthEdge(z, m) <= t <==> MonthStart(m) <= date,
                                MonthEdge(z, m + 1) <= t <==> MonthStart(m + 1) <= date;
            (InWindow(t, WindowOf(z, m)) <==> MonthOf(date) == m) <==> starts && ends
  {
    WindowEdges(z, m);
    DateIsInMonth(BusinessDateFor(z, t), m);
    MonthStartsGrow(m, m + 1);
    FarFromTheEdge(z, m, t);
    FarFromTheEdge(z, m + 1, t);
  }

  lemma HoldsIffEdgesSeparate(z: Zone, m: int)
    requires Bounded(z)
    ensures HoldsItsMonth(z, m) <==> Separates(z, m) && Separates(z, m + 1)
  {
    forall t
      ensures (InWindow(t, WindowOf(z, m)) <==> MonthOf(BusinessDateFor(z, t)) == m) <==>
                (MonthEdge(z, m) <= t <==> MonthStart(m) <= BusinessDateFor(z, t))
                && (MonthEdge(z, m + 1) <= t <==> MonthStart(m + 1) <= BusinessDateFor(z, t))
    {
      WindowIsMonthAt(z, m, t);
    }
  }

  /**
   Exact condition: with at most one change near each edge, a window holds exactly the instants of
   its local month iff both its edges are clean.
   */
  lemma WindowHoldsTheLocalMonthIffEdgesAreClean(
      z: Zone, m: int, change: int, before: int, after: int, change': int, before': int, after': int)
    requires Bounded(z)
    requires OneChange(z, MonthStart(m), change, before, after)
    requires OneChange(z, MonthStart(m + 1), change', before', after')
    requires -1440 <= before <= 1440 && -1440 <= after <= 1440
    requires -1440 <= before' <= 1440 && -1440 <= after' <= 1440
    ensures HoldsItsMonth(z, m) <==> CleanEdge(m, change, before, after) && CleanEdge(m + 1, change', before', after')
  {
    HoldsIffEdgesSeparate(z, m);
    EdgeSeparatesIffClean(z, m, change, before, after);
    EdgeSeparatesIffClean(z, m + 1, change', before', after');
  }

  /** A change of up to an hour, either way, at two in the morning of the first leaves the edge clean. */
  lemma ChangeAtTwoIsClean(m: int, before: int, after: int)
    requires before - 60 <= after <= before + 60
    ensures CleanEdge(m, MonthStart(m) * DAY + (120 - before) * MINUTE, before, after)
  {
  }

  /** One that goes back an hour at half past midnight has not: the last half hour of the old month comes twice. */
  lemma ChangeAcrossMidnightIsNotClean(m: int, before: int)
    ensures !CleanEdge(m, MonthStart(m) * DAY + (30 - before) * MINUTE, before, before - 60)
  {
  }
}
