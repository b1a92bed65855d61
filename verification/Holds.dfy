/**
 The lien clock (packages/core/holds/catalog.ts): how many days of a window a lease spent under a
 hold that pauses the ladder. Instants are UTC milliseconds; a day is counted by its index.
 */
module Holds {
  import opened Wrappers

  datatype Hold = Hold(kind: string, effectiveFrom: int, effectiveTo: Option<int>, liftedAt: Option<int>)

  datatype Effect =
    | HaltDunning | HaltLateFees | HaltAccessSuspension | BlockAuction | SuppressMarketing | HaltAutopay | PauseLienClock

  /** The catalog: what each kind of hold declares; an unknown kind declares nothing. */
  function Declares(kind: string): set<Effect> {
    if kind == "military_scra" || kind == "bankruptcy" || kind == "deceased" then
      {HaltDunning, HaltLateFees, HaltAccessSuspension, BlockAuction, SuppressMarketing, HaltAutopay}
    else if kind == "litigation" then {HaltDunning, HaltLateFees, BlockAuction, SuppressMarketing}
    else if kind == "dispute" then {HaltDunning, HaltLateFees}
    else if kind == "do_not_contact" then {HaltDunning, SuppressMarketing}
    else if kind == "payment_plan" then {HaltDunning, HaltLateFees, HaltAccessSuspension, BlockAuction}
    else if kind == "emergency" then {HaltDunning, HaltLateFees, HaltAccessSuspension, BlockAuction, PauseLienClock}
    else {}
  }

  predicate PausesClock(kind: string) {
    PauseLienClock in Declares(kind)
  }

  /** Only an emergency hold stops the clock. */
  lemma OnlyAnEmergencyPausesTheClock(kind: string)
    ensures PausesClock(kind) <==> kind == "emergency"
  {
  }

  /** The catalog the other way round: which kinds have each effect. */
  lemma KindsByEffect(kind: string)
    ensures HaltDunning in Declares(kind) <==>
              kind in ["military_scra", "bankruptcy", "deceased", "litigation", "dispute", "do_not_contact", "payment_plan",
                       "emergency"]
    ensures HaltLateFees in Declares(kind) <==> HaltDunning in Declares(kind) && kind != "do_not_contact"
    ensures HaltAccessSuspension in Declares(kind) <==>
              kind in ["military_scra", "bankruptcy", "deceased", "payment_plan", "emergency"]
    ensures BlockAuction in Declares(kind) <==> HaltAccessSuspension in Declares(kind) || kind == "litigation"
    ensures SuppressMarketing in Declares(kind) <==>
              kind in ["military_scra", "bankruptcy", "deceased", "litigation", "do_not_contact"]
    ensures HaltAutopay in Declares(kind) <==> kind in ["military_scra", "bankruptcy", "deceased"]
  {
  }

  /** A day index counts whole UTC days of 24 hours. */
  lemma UtcDayIsTheDay(ms: int)
    ensures UtcDay(ms) * 24 * 60 * 60 * 1000 <= ms < (UtcDay(ms) + 1) * 24 * 60 * 60 * 1000
  {
  }

  function UtcDay(ms: int): int {
    ms / 86_400_000
  }

  /** A hold ends at its end date or its lift, whichever came first; with neither it has not ended. */
  function HoldEnd(h: Hold): Option<int> {
    match (h.effectiveTo, h.liftedAt)
    case (None, None) => None
    case (Some(t), None) => Some(t)
    case (None, Some(t)) => Some(t)
    case (Some(t), Some(u)) => Some(Min(t, u))
  }

  /** A pausing hold runs from the day it takes effect up to, not including, the day it ends. */
  predicate Covers(h: Hold, day: int) {
    && PausesClock(h.kind) && UtcDay(h.effectiveFrom) <= day
    && (HoldEnd(h).Some? ==> day < UtcDay(HoldEnd(h).value))
  }

  /** Both an end date and a lift end a hold: whichever is there, no day from its day on is covered. */
  lemma CoversUpToEitherEnd(h: Hold, day: int)
    ensures Covers(h, day) <==>
              && PausesClock(h.kind) && UtcDay(h.effectiveFrom) <= day
              && (h.effectiveTo.Some? ==> day < UtcDay(h.effectiveTo.value))
              && (h.liftedAt.Some? ==> day < UtcDay(h.liftedAt.value))
  {
    if h.effectiveTo.Some? && h.liftedAt.Some? {
      var t, u := h.effectiveTo.value, h.liftedAt.value;
      assert t <= u ==> UtcDay(t) <= UtcDay(u);
      assert u <= t ==> UtcDay(u) <= UtcDay(t);
    }
  }

  /** The specification: some pausing hold was running on that day. */
  predicate Paused(holds: seq<Hold>, day: int) {
    exists k :: 0 <= k < |holds| && Covers(holds[k], day)
  }

  function PausedCount(holds: seq<Hold>, first: int, end: int): (r: nat)
    ensures r <= Max(0, end - first)
    decreases end - first
  {
    if end <= first then 0 else PausedCount(holds, first, end - 1) + if Paused(holds, end - 1) then 1 else 0
  }

  lemma {:induction false} CountIsCardinality(holds: seq<Hold>, first: int, end: int, days: set<int>)
    requires forall d :: d in days <==> first <= d < end && Paused(holds, d)
    ensures |days| == PausedCount(holds, first, end)
    decreases end - first
  {
    if end > first {
      CountIsCardinality(holds, first, end - 1, days - {end - 1});
    } else {
      assert forall d :: d !in days;
      assert days == {};
    }
  }

  /** The set of day indices built hold by hold: its size is the number of paused days in [from, to). */
  method PausedDays(holds: seq<Hold>, from: int, to: int) returns (r: nat)
    ensures r == PausedCount(holds, UtcDay(from), UtcDay(to))
  {
    var days: set<int> := {};
    var start, end := UtcDay(from), UtcDay(to);
    for i := 0 to |holds|
      invariant forall d :: d in days <==> start <= d < end && Paused(holds[..i], d)
    {
      var h := holds[i];
      TakeOneMore(holds, i);
      if PausesClock(h.kind) {
        var first := Max(UtcDay(h.effectiveFrom), start);
        var last := if HoldEnd(h).None? then end else Min(UtcDay(HoldEnd(h).value), end);
        days := AddRange(days, first, last);
      }
      OneMoreHold(holds[..i], h);
    }
    TakeAll(holds);
    CountIsCardinality(holds, start, end, days);
    r := |days|;
  }

  /** The inner loop: every day from `first` up to `last` goes into the set. */
  method AddRange(before: set<int>, first: int, last: int) returns (days: set<int>)
    ensures forall d :: d in days <==> d in before || first <= d < last
  {
    days := before;
    var day := first;
    while day < last
      invariant first <= day && (first <= last ==> day <= last)
      invariant forall d :: d in days <==> d in before || (first <= d < day && d < last)
    {
      days := days + {day};
      day := day + 1;
    }
  }

  lemma OneMoreHold(holds: seq<Hold>, h: Hold)
    ensures forall d :: Paused(holds + [h], d) <==> Paused(holds, d) || Covers(h, d)
  {
    forall d ensures Paused(holds + [h], d) <==> Paused(holds, d) || Covers(h, d) {
      assert (holds + [h])[|holds|] == h;
      assert forall k :: 0 <= k < |holds| ==> (holds + [h])[k] == holds[k];
    }
  }

  // ---------------------------------------------------------------- what the clock promises

  /** Only which holds there are matters: not their order, and not how often one is listed. */
  lemma {:induction false} CountIgnoresOrder(a: seq<Hold>, b: seq<Hold>, first: int, end: int)
    requires forall h :: h in a <==> h in b
    ensures PausedCount(a, first, end) == PausedCount(b, first, end)
    decreases end - first
  {
    if end > first {
      CountIgnoresOrder(a, b, first, end - 1);
      PausedBySome(a, b, end - 1);
      PausedBySome(b, a, end - 1);
    }
  }

  lemma PausedBySome(a: seq<Hold>, b: seq<Hold>, day: int)
    requires forall h :: h in a ==> h in b
    ensures Paused(a, day) ==> Paused(b, day)
  {
    if Paused(a, day) {
      var k :| 0 <= k < |a| && Covers(a[k], day);
      assert a[k] in b;
    }
  }

  /** Additive over adjacent windows. */
  lemma {:induction false} CountSplits(holds: seq<Hold>, a: int, b: int, c: int)
    requires a <= b <= c
    ensures PausedCount(holds, a, c) == PausedCount(holds, a, b) + PausedCount(holds, b, c)
    decreases c - b
  {
    if b < c {
      CountSplits(holds, a, b, c - 1);
    }
  }

  /** Days past due as the ladder sees them: elapsed days less the paused ones. */
  function LienDays(holds: seq<Hold>, from: int, to: int): int {
    UtcDay(to) - UtcDay(from) - PausedCount(holds, UtcDay(from), UtcDay(to))
  }

  /** The clock never runs backwards and never jumps: between two instants it rises by at most the days elapsed. */
  lemma ClockNeverJumps(holds: seq<Hold>, from: int, sooner: int, later: int)
    requires from <= sooner <= later
    ensures 0 <= LienDays(holds, from, later) - LienDays(holds, from, sooner) <= UtcDay(later) - UtcDay(sooner)
    ensures LienDays(holds, from, from) == 0
    ensures (forall d :: UtcDay(sooner) <= d < UtcDay(later) ==> Paused(holds, d)) ==>
              LienDays(holds, from, later) == LienDays(holds, from, sooner)
  {
    CountSplits(holds, UtcDay(from), UtcDay(sooner), UtcDay(later));
    if forall d :: UtcDay(sooner) <= d < UtcDay(later) ==> Paused(holds, d) {
      AllPaused(holds, UtcDay(sooner), UtcDay(later));
    }
  }

  lemma {:induction false} AllPaused(holds: seq<Hold>, first: int, end: int)
    requires first <= end && forall d :: first <= d < end ==> Paused(holds, d)
    ensures PausedCount(holds, first, end) == end - first
    decreases end - first
  {
    if first < end {
      AllPaused(holds, first, end - 1);
    }
  }

  /** Lifting a hold at or after `to` leaves the count up to `to` as it was: the ladder does not snap forward. */
  lemma {:induction false} LiftingLaterChangesNothing(holds: seq<Hold>, i: nat, at: int, first: int, end: int)
    requires i < |holds| && holds[i].liftedAt.None? && end <= UtcDay(at)
    ensures PausedCount(holds[i := holds[i].(liftedAt := Some(at))], first, end) == PausedCount(holds, first, end)
    decreases end - first
  {
    if end > first {
      LiftingLaterChangesNothing(holds, i, at, first, end - 1);
      LiftKeepsDay(holds, i, at, end - 1);
    }
  }

  lemma LiftKeepsDay(holds: seq<Hold>, i: nat, at: int, day: int)
    requires i < |holds| && holds[i].liftedAt.None? && day < UtcDay(at)
    ensures Paused(holds[i := holds[i].(liftedAt := Some(at))], day) <==> Paused(holds, day)
  {
    var lifted := holds[i := holds[i].(liftedAt := Some(at))];
    assert forall k :: 0 <= k < |holds| ==> (Covers(lifted[k], day) <==> Covers(holds[k], day));
  }

  /** dateInsidePausedWindow: a deadline at UTC midnight is inside a paused window iff a pausing hold ran on its day. */
  method DateInsidePausedWindow(holds: seq<Hold>, date: int) returns (r: bool)
    ensures r <==> Paused(holds, UtcDay(date))
  {
    var next := UtcDay(date) * 86_400_000 + 86_400_000;
    assert UtcDay(next) == UtcDay(date) + 1;
    var paused := PausedDays(holds, date, next);
    assert PausedCount(holds, UtcDay(date), UtcDay(date)) == 0;
    r := paused > 0;
  }
}
