/**
 Catching up missed business dates (`missedBusinessDates` in packages/core/jobs/schedule.ts).
 Business dates are whole days, so the walk over them is integer arithmetic.
 */
module CatchUp {
  import opened Wrappers

  /** The dates `first`, `first + 1`, ... up to and including `last`. */
  function Dates(first: int, last: int): (r: seq<int>)
    ensures |r| == if last < first then 0 else last - first + 1
    ensures forall i :: 0 <= i < |r| ==> r[i] == first + i
    decreases last - first
  {
    if last < first then [] else [first] + Dates(first + 1, last)
  }

  /** `target` is the business date of `through`; `lastCompleted` is already a date. */
  method MissedBusinessDates(lastCompleted: Option<int>, target: int, maxDays: int) returns (dates: seq<int>)
    ensures lastCompleted.None? ==> dates == [target]
    ensures lastCompleted.Some? ==>
              dates == Dates(lastCompleted.value + 1, Min(target, lastCompleted.value + maxDays))
  {
    if lastCompleted.None? {
      return [target];
    }
    dates := [];
    var cursor := lastCompleted.value + 1;
    while cursor <= target && |dates| < maxDays
      invariant cursor == lastCompleted.value + 1 + |dates|
      invariant forall i :: 0 <= i < |dates| ==> dates[i] == lastCompleted.value + 1 + i
      invariant dates == [] || (|dates| <= maxDays && cursor <= target + 1)
      decreases target - cursor
    {
      dates := dates + [cursor];
      cursor := cursor + 1;
    }
    assert dates == Dates(lastCompleted.value + 1, Min(target, lastCompleted.value + maxDays));
  }

  function Missed(last: int, target: int, maxDays: int): seq<int> {
    Dates(last + 1, Min(target, last + maxDays))
  }

  /** What the next tick starts from, when every date of this one ran. */
  function LastRun(last: int, dates: seq<int>): int {
    if dates == [] then last else dates[|dates| - 1]
  }

  /** All the dates run by a sequence of ticks, each at its own target date. */
  function RunTicks(last: int, targets: seq<int>, maxDays: int): seq<int>
    decreases |targets|
  {
    if targets == [] then []
    else
      var dates := Missed(last, targets[0], maxDays);
      dates + RunTicks(LastRun(last, dates), targets[1..], maxDays)
  }

  /** One tick closes the gap by the smaller of the gap and the cap. */
  lemma TickShrinksGap(last: int, target: int, maxDays: int)
    requires last <= target && maxDays >= 0
    ensures target - LastRun(last, Missed(last, target, maxDays)) == target - last - Min(target - last, maxDays)
  {
  }

  lemma DatesJoin(first: int, middle: int, last: int)
    requires first <= middle + 1 && middle <= last
    ensures Dates(first, middle) + Dates(middle + 1, last) == Dates(first, last)
  {
  }

  /**
   However the ticks fall, the dates they run are consecutive: each date after the last completed
   one exactly once, in order, with no gap.
   */
  lemma {:induction false} CatchUpLeavesNoGap(last: int, targets: seq<int>, maxDays: int)
    ensures RunTicks(last, targets, maxDays) == Dates(last + 1, last + |RunTicks(last, targets, maxDays)|)
    decreases |targets|
  {
    if targets != [] {
      var dates := Missed(last, targets[0], maxDays);
      var reached := LastRun(last, dates);
      var later := RunTicks(reached, targets[1..], maxDays);
      CatchUpLeavesNoGap(reached, targets[1..], maxDays);
      var all := RunTicks(last, targets, maxDays);
      assert all == dates + later && |all| == |dates| + |later|;
      assert reached == last + |dates| && dates == Dates(last + 1, reached);
      DatesJoin(last + 1, reached, reached + |later|);
    }
  }

  lemma OneMore(n: int, k: int)
    ensures n * k == (n - 1) * k + k
  {
  }

  lemma {:induction false} TicksAtOneTarget(last: int, target: int, maxDays: int, targets: seq<int>)
    requires last <= target && maxDays >= 1 && (forall i :: 0 <= i < |targets| ==> targets[i] == target)
    ensures |RunTicks(last, targets, maxDays)| == Min(target - last, |targets| * maxDays)
    decreases |targets|
  {
    if targets != [] {
      var dates := Missed(last, target, maxDays);
      TickShrinksGap(last, target, maxDays);
      assert |dates| == Min(target - last, maxDays);
      TicksAtOneTarget(LastRun(last, dates), target, maxDays, targets[1..]);
      OneMore(|targets|, maxDays);
    }
  }

  /** ... and n ticks at one target have run its first min(gap, n * maxDays) missed dates, so enough of them run all. */
  lemma CatchUpReachesTarget(last: int, target: int, maxDays: int, targets: seq<int>)
    requires last <= target && maxDays >= 1 && (forall i :: 0 <= i < |targets| ==> targets[i] == target)
    ensures RunTicks(last, targets, maxDays) == Dates(last + 1, Min(target, last + |targets| * maxDays))
  {
    TicksAtOneTarget(last, target, maxDays, targets);
    CatchUpLeavesNoGap(last, targets, maxDays);
  }
}
