/**
 The delinquency ladder, night by night (packages/core/delinquency/engine.ts, and the ordering and
 distinct-day rules of packages/core/delinquency/timeline.ts).
 */
module Delinquency {
  import opened Wrappers
  import opened Sorting

  datatype Step = Step(dayOffset: int, name: string)

  function ByDay(): Rank<Step> {
    (a: Step, b: Step) => a.dayOffset <= b.dayOffset
  }

  function OrderedSteps(steps: seq<Step>): (r: seq<Step>)
    ensures |r| == |steps|
  {
    Sort(steps, ByDay())
  }

  ghost predicate DistinctDays(steps: seq<Step>) {
    forall i, j :: 0 <= i < j < |steps| ==> steps[i].dayOffset != steps[j].dayOffset
  }

  ghost predicate Climbing(steps: seq<Step>) {
    forall i, j :: 0 <= i < j < |steps| ==> steps[i].dayOffset < steps[j].dayOffset
  }

  lemma OrderedStepsClimb(steps: seq<Step>)
    requires DistinctDays(steps)
    ensures Climbing(OrderedSteps(steps)) && multiset(OrderedSteps(steps)) == multiset(steps)
  {
    var rank := ByDay();
    assert forall a: Step, b: Step :: rank(a, b) == (a.dayOffset <= b.dayOffset);
    SortSorts(steps, rank);
    SortPermutes(steps, rank);
    SortKeepsRanksDistinct(steps, rank, rank);
  }

  /** Step `k` is the first on its day. */
  ghost predicate FirstOnItsDay(steps: seq<Step>, k: nat)
    requires k < |steps|
  {
    forall j :: 0 <= j < k ==> steps[j].dayOffset != steps[k].dayOffset
  }

  /**
   The distinct-day rule of `validateTimeline`: each step on a day that is already taken is reported
   once, in order, with the first step on that day.
   */
  method DuplicateDays(steps: seq<Step>) returns (problems: seq<(nat, nat)>)
    ensures problems == [] <==> DistinctDays(steps)
    ensures forall p :: p in problems ==> p.1 < p.0 < |steps| && steps[p.0].dayOffset == steps[p.1].dayOffset
    ensures forall p :: p in problems ==> FirstOnItsDay(steps, p.1)
    ensures forall k :: 0 <= k < |steps| && !FirstOnItsDay(steps, k) ==> exists p :: p in problems && p.0 == k
    ensures forall i, j :: 0 <= i < j < |problems| ==> problems[i].0 < problems[j].0
  {
    problems := [];
    var seenDays: map<int, nat> := map[];
    for index := 0 to |steps|
      invariant forall p :: p in problems ==> p.1 < p.0 < index && steps[p.0].dayOffset == steps[p.1].dayOffset
      invariant forall p :: p in problems ==> FirstOnItsDay(steps, p.1)
      invariant forall k :: 0 <= k < index && !FirstOnItsDay(steps, k) ==> exists p :: p in problems && p.0 == k
      invariant forall i, j :: 0 <= i < j < |problems| ==> problems[i].0 < problems[j].0
      invariant forall i :: 0 <= i < index ==> steps[i].dayOffset in seenDays
      invariant forall d :: d in seenDays ==>
                  seenDays[d] < index && steps[seenDays[d]].dayOffset == d && FirstOnItsDay(steps, seenDays[d])
    {
      var day := steps[index].dayOffset;
      if day in seenDays {
        ghost var before, problem := problems, (index, seenDays[day]);
        problems := problems + [(index, seenDays[day])];
        assert forall p :: p in problems <==> p in before || p == problem;
        assert problem in problems && problem.0 == index;
      } else {
        seenDays := seenDays[day := index];
      }
    }
    NoRepeatMeansDistinct(steps);
    assert problems != [] ==> problems[0] in problems && !FirstOnItsDay(steps, problems[0].0);
  }

  lemma NoRepeatMeansDistinct(steps: seq<Step>)
    ensures DistinctDays(steps) <==> forall k :: 0 <= k < |steps| ==> FirstOnItsDay(steps, k)
  {
    if forall k :: 0 <= k < |steps| ==> FirstOnItsDay(steps, k) {
      forall i, j | 0 <= i < j < |steps| ensures steps[i].dayOffset != steps[j].dayOffset {
        assert FirstOnItsDay(steps, j);
      }
    }
  }

  datatype HaltReason = NoTimeline | OnHold | Cured | MovedOut | ReversalGrace

  datatype Decision = Act(steps: seq<Step>) | Rest(halt: Option<HaltReason>)

  /** The lease on one night; `date` is the business date of the run. */
  datatype Night = Night(
    date: int, daysPastDue: int, qualifyingOutstandingCents: int, leaseEnded: bool, onHold: bool, reversalGrace: bool)

  datatype Execution = Execution(step: Step, date: int)

  /** The steps past their day that have not run, in the order given. */
  function Due(ordered: seq<Step>, daysPastDue: int, executed: set<int>): seq<Step> {
    if ordered == [] then []
    else if daysPastDue >= ordered[0].dayOffset && ordered[0].dayOffset !in executed then
      [ordered[0]] + Due(ordered[1..], daysPastDue, executed)
    else Due(ordered[1..], daysPastDue, executed)
  }

  function Halt(steps: seq<Step>, n: Night): Option<HaltReason> {
    if steps == [] then Some(NoTimeline)
    else if n.onHold then Some(OnHold)
    else if n.qualifyingOutstandingCents <= 0 then Some(Cured)
    else if n.leaseEnded then Some(MovedOut)
    else if n.reversalGrace then Some(ReversalGrace)
    else None
  }

  function Evaluate(steps: seq<Step>, n: Night, executedDays: set<int>, executedToday: bool): Decision {
    if Halt(steps, n).Some? then Rest(Halt(steps, n))
    else
      var due := Due(OrderedSteps(steps), n.daysPastDue, executedDays);
      if due == [] || executedToday then Rest(None) else Act(due[..1])
  }

  // ---------------------------------------------------------------- a lease's nights

  function DaysOf(history: seq<Execution>): set<int> {
    set e | e in history :: e.step.dayOffset
  }

  predicate RanOn(history: seq<Execution>, date: int) {
    exists e :: e in history && e.date == date
  }

  function Performed(steps: seq<Step>, date: int): seq<Execution> {
    seq(|steps|, i requires 0 <= i < |steps| => Execution(steps[i], date))
  }

  function AfterNight(steps: seq<Step>, history: seq<Execution>, n: Night): seq<Execution> {
    match Evaluate(steps, n, DaysOf(history), RanOn(history, n.date))
    case Act(run) => history + Performed(run, n.date)
    case Rest(_) => history
  }

  function History(steps: seq<Step>, nights: seq<Night>): seq<Execution> {
    if nights == [] then [] else AfterNight(steps, History(steps, nights[..|nights| - 1]), nights[|nights| - 1])
  }

  /** The history is the bottom of the ladder, one rung per entry, each on its own date. */
  ghost predicate OnLadder(steps: seq<Step>, history: seq<Execution>) {
    && |history| <= |steps|
    && (forall i :: 0 <= i < |history| ==> history[i].step == OrderedSteps(steps)[i])
    && (forall i, j :: 0 <= i < j < |history| ==> history[i].date != history[j].date)
  }

  lemma {:induction false} DueSkipsExecuted(ordered: seq<Step>, k: nat, daysPastDue: int, executed: set<int>)
    requires k <= |ordered| && Climbing(ordered)
    requires forall i :: 0 <= i < |ordered| ==> (ordered[i].dayOffset in executed <==> i < k)
    ensures Due(ordered, daysPastDue, executed) == Due(ordered[k..], daysPastDue, executed)
  {
    if k > 0 {
      DueSkipsExecuted(ordered[1..], k - 1, daysPastDue, executed);
      assert ordered[1..][k - 1..] == ordered[k..];
    } else {
      assert ordered[0..] == ordered;
    }
  }

  lemma {:induction false} NothingDueBeforeTheDay(ordered: seq<Step>, daysPastDue: int, executed: set<int>)
    requires forall i :: 0 <= i < |ordered| ==> daysPastDue < ordered[i].dayOffset
    ensures Due(ordered, daysPastDue, executed) == []
  {
    if ordered != [] {
      NothingDueBeforeTheDay(ordered[1..], daysPastDue, executed);
    }
  }

  /** The next rung is the only candidate: it is first among the due steps exactly when its day has come. */
  lemma DueStartsAtNextRung(ordered: seq<Step>, k: nat, daysPastDue: int, executed: set<int>)
    requires k <= |ordered| && Climbing(ordered)
    requires forall i :: 0 <= i < |ordered| ==> (ordered[i].dayOffset in executed <==> i < k)
    ensures var due := Due(ordered, daysPastDue, executed);
            if k < |ordered| && daysPastDue >= ordered[k].dayOffset then due != [] && due[0] == ordered[k] else due == []
  {
    DueSkipsExecuted(ordered, k, daysPastDue, executed);
    if k < |ordered| && daysPastDue < ordered[k].dayOffset {
      NothingDueBeforeTheDay(ordered[k..], daysPastDue, executed);
    }
  }

  /** A night with nothing to stop it: no hold, money still owed, the lease running and no reversal to wait for. */
  predicate Unhalted(n: Night) {
    !n.onHold && n.qualifyingOutstandingCents > 0 && !n.leaseEnded && !n.reversalGrace
  }

  /** Which reason is reported: no timeline, then a hold, then cured, before moved out, before the grace. */
  lemma ReasonReported(steps: seq<Step>, n: Night, executedDays: set<int>, executedToday: bool)
    ensures var d := Evaluate(steps, n, executedDays, executedToday);
            && (d == Rest(Some(NoTimeline)) <==> steps == [])
            && (d == Rest(Some(OnHold)) <==> steps != [] && n.onHold)
            && (d == Rest(Some(Cured)) <==> steps != [] && !n.onHold && n.qualifyingOutstandingCents <= 0)
            && (d == Rest(Some(MovedOut)) <==>
                  steps != [] && !n.onHold && n.qualifyingOutstandingCents > 0 && n.leaseEnded)
            && (d == Rest(Some(ReversalGrace)) <==>
                  steps != [] && !n.onHold && n.qualifyingOutstandingCents > 0 && !n.leaseEnded && n.reversalGrace)
            && (d == Rest(None) || d.Act? ==> steps != [] && Unhalted(n))
  {
  }

  /** Whether this night climbs: nothing halts it, nothing ran on its date yet, and the next rung's day has come. */
  ghost predicate Climbs(steps: seq<Step>, history: seq<Execution>, n: Night) {
    && Unhalted(n) && !RanOn(history, n.date)
    && |history| < |steps| && n.daysPastDue >= OrderedSteps(steps)[|history|].dayOffset
  }

  lemma LadderDays(steps: seq<Step>, history: seq<Execution>)
    requires OnLadder(steps, history) && Climbing(OrderedSteps(steps))
    ensures forall i :: 0 <= i < |steps| ==> (OrderedSteps(steps)[i].dayOffset in DaysOf(history) <==> i < |history|)
  {
    forall i | 0 <= i < |history| ensures OrderedSteps(steps)[i].dayOffset in DaysOf(history) {
      assert history[i] in history;
    }
  }

  lemma DecisionOnLadder(steps: seq<Step>, history: seq<Execution>, n: Night)
    requires DistinctDays(steps) && OnLadder(steps, history)
    ensures var decision := Evaluate(steps, n, DaysOf(history), RanOn(history, n.date));
            if Climbs(steps, history, n) then decision == Act([OrderedSteps(steps)[|history|]]) else decision.Rest?
  {
    OrderedStepsClimb(steps);
    LadderDays(steps, history);
    DueStartsAtNextRung(OrderedSteps(steps), |history|, n.daysPastDue, DaysOf(history));
  }

  lemma ClimbKeepsLadder(steps: seq<Step>, history: seq<Execution>, date: int)
    requires OnLadder(steps, history) && |history| < |steps| && !RanOn(history, date)
    ensures OnLadder(steps, history + [Execution(OrderedSteps(steps)[|history|], date)])
  {
    forall i | 0 <= i < |history| ensures history[i].date != date {
      assert history[i] in history;
    }
  }

  /** One night runs the next rung and nothing else, exactly when it climbs. */
  lemma OneNight(steps: seq<Step>, history: seq<Execution>, n: Night)
    requires DistinctDays(steps) && OnLadder(steps, history)
    ensures AfterNight(steps, history, n)
            == if Climbs(steps, history, n) then history + [Execution(OrderedSteps(steps)[|history|], n.date)] else history
    ensures OnLadder(steps, AfterNight(steps, history, n))
  {
    DecisionOnLadder(steps, history, n);
    if Climbs(steps, history, n) {
      var next := OrderedSteps(steps)[|history|];
      assert Performed([next], n.date) == [Execution(next, n.date)];
      ClimbKeepsLadder(steps, history, n.date);
    }
  }

  /**
   Over any nights whatever (any day counts, holds, cures, grace and repeated dates), the executed
   steps are always a prefix of the ordered ladder, at most one per business date.
   */
  lemma {:induction false} ExecutedStepsArePrefix(steps: seq<Step>, nights: seq<Night>)
    requires DistinctDays(steps)
    ensures OnLadder(steps, History(steps, nights))
  {
    if nights != [] {
      ExecutedStepsArePrefix(steps, nights[..|nights| - 1]);
      OneNight(steps, History(steps, nights[..|nights| - 1]), nights[|nights| - 1]);
    }
  }

  /** ... and a night with a hold, nothing owed, a lease that ended or a reversal to wait for adds none. */
  lemma HaltedNightAddsNothing(steps: seq<Step>, nights: seq<Night>, n: Night)
    requires n.onHold || n.qualifyingOutstandingCents <= 0 || n.leaseEnded || n.reversalGrace
    ensures History(steps, nights + [n]) == History(steps, nights)
    ensures DistinctDays(steps) ==>
              Climbing(seq(|History(steps, nights)|, i requires 0 <= i < |History(steps, nights)| => History(steps, nights)[i].step))
  {
    assert (nights + [n])[..|nights|] == nights;
    if DistinctDays(steps) {
      ExecutedStepsArePrefix(steps, nights);
      OrderedStepsClimb(steps);
    }
  }

  ghost predicate DistinctDates(nights: seq<Night>) {
    forall i, j :: 0 <= i < j < |nights| ==> nights[i].date != nights[j].date
  }

  lemma {:induction false} FreshDateHasNotRun(steps: seq<Step>, nights: seq<Night>, date: int)
    requires DistinctDays(steps) && forall i :: 0 <= i < |nights| ==> nights[i].date != date
    ensures !RanOn(History(steps, nights), date)
  {
    if nights != [] {
      var front, n := nights[..|nights| - 1], nights[|nights| - 1];
      FreshDateHasNotRun(steps, front, date);
      ExecutedStepsArePrefix(steps, front);
      OneNight(steps, History(steps, front), n);
    }
  }

  /** On any other night whose date is new and whose next rung is due, exactly that rung is added. */
  lemma NextRungIsAdded(steps: seq<Step>, nights: seq<Night>, n: Night)
    requires DistinctDays(steps) && |History(steps, nights)| < |steps|
    requires !n.onHold && n.qualifyingOutstandingCents > 0 && !n.leaseEnded && !n.reversalGrace
    requires forall i :: 0 <= i < |nights| ==> nights[i].date != n.date
    requires n.daysPastDue >= OrderedSteps(steps)[|History(steps, nights)|].dayOffset
    ensures History(steps, nights + [n])
         == History(steps, nights) + [Execution(OrderedSteps(steps)[|History(steps, nights)|], n.date)]
  {
    assert (nights + [n])[..|nights|] == nights;
    ExecutedStepsArePrefix(steps, nights);
    FreshDateHasNotRun(steps, nights, n.date);
    OneNight(steps, History(steps, nights), n);
  }

  /** Nothing halts the night, and exactly the first `due` steps are past their day. */
  ghost predicate OpenNight(steps: seq<Step>, n: Night, due: nat)
    requires due <= |steps|
  {
    && Unhalted(n)
    && (due > 0 ==> n.daysPastDue >= OrderedSteps(steps)[due - 1].dayOffset)
    && (due < |steps| ==> n.daysPastDue < OrderedSteps(steps)[due].dayOffset)
  }

  lemma OpenNightClimbs(steps: seq<Step>, history: seq<Execution>, n: Night, due: nat)
    requires DistinctDays(steps) && OnLadder(steps, history) && due <= |steps| && OpenNight(steps, n, due)
    requires !RanOn(history, n.date) && |history| <= due
    ensures Climbs(steps, history, n) <==> |history| < due
  {
    OrderedStepsClimb(steps);
  }

  /** When `due` steps are due throughout and no night is halted, they take exactly `due` nights, one each. */
  lemma {:induction false} DueStepsTakeOneNightEach(steps: seq<Step>, nights: seq<Night>, due: nat)
    requires DistinctDays(steps) && due <= |steps| && DistinctDates(nights)
    requires forall n :: n in nights ==> OpenNight(steps, n, due)
    ensures |History(steps, nights)| == if |nights| < due then |nights| else due
  {
    if nights != [] {
      var front, n := nights[..|nights| - 1], nights[|nights| - 1];
      DueStepsTakeOneNightEach(steps, front, due);
      ExecutedStepsArePrefix(steps, front);
      FreshDateHasNotRun(steps, front, n.date);
      OpenNightClimbs(steps, History(steps, front), n, due);
      OneNight(steps, History(steps, front), n);
    }
  }

  // ---------------------------------------------------------------- the current stage

  function Passed(ordered: seq<Step>, executed: set<int>): seq<Step> {
    if ordered == [] then []
    else if ordered[0].dayOffset in executed then [ordered[0]] + Passed(ordered[1..], executed)
    else Passed(ordered[1..], executed)
  }

  function CurrentStage(steps: seq<Step>, executedDays: set<int>): Option<Step> {
    var passed := Passed(OrderedSteps(steps), executedDays);
    if passed == [] then None else Some(passed[|passed| - 1])
  }

  lemma {:induction false} PassedIsPrefix(ordered: seq<Step>, k: nat, executed: set<int>)
    requires k <= |ordered|
    requires forall i :: 0 <= i < |ordered| ==> (ordered[i].dayOffset in executed <==> i < k)
    ensures Passed(ordered, executed) == ordered[..k]
  {
    if ordered != [] {
      if k > 0 {
        PassedIsPrefix(ordered[1..], k - 1, executed);
        assert ordered[..k] == [ordered[0]] + ordered[1..][..k - 1];
      } else {
        PassedIsPrefix(ordered[1..], 0, executed);
      }
    }
  }

  /** The stage a lease is shown at is the last step that ran. */
  lemma StageIsLastExecuted(steps: seq<Step>, nights: seq<Night>)
    requires DistinctDays(steps)
    ensures var history := History(steps, nights);
            CurrentStage(steps, DaysOf(history)) == if history == [] then None else Some(history[|history| - 1].step)
  {
    var history, ordered := History(steps, nights), OrderedSteps(steps);
    ExecutedStepsArePrefix(steps, nights);
    OrderedStepsClimb(steps);
    LadderDays(steps, history);
    PassedIsPrefix(ordered, |history|, DaysOf(history));
  }
}
