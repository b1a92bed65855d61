/**
 Business minutes between two instants (packages/core/access/business-hours.ts): a loop that skips
 closed stretches, checked against a plain count of the open minutes. The zone is a fixed
 whole-minute offset, as the skip to the next midnight assumes 1440-minute days.
 */
module BusinessHours {
  import opened Wrappers
  import opened WeeklySchedule
  import Calendar

  const MS_PER_MINUTE := 60_000
  const MINUTES_PER_DAY := 1440
  /** 400 days. */
  const MAX_STEPS := 576_000

  function DayOfIndex(i: int): Day {
    if i == 0 then Monday else if i == 1 then Tuesday else if i == 2 then Wednesday else if i == 3 then Thursday
    else if i == 4 then Friday else if i == 5 then Saturday else Sunday
  }

  /** The wall clock at a minute since the epoch (1970-01-01 was a Thursday). */
  function ReadingAt(minute: int, offset: int): Reading {
    var local := minute + offset;
    Reading(DayOfIndex((local / 1440 + 3) % 7), local % 1440)
  }

  /** localReading: seconds are dropped. */
  function LocalReading(ms: int, offset: int): Reading {
    ReadingAt(ms / 60_000, offset)
  }

  // ---------------------------------------------------------------- what the wall clock reads

  function NextDay(d: Day): Day {
    match d
    case Monday => Tuesday
    case Tuesday => Wednesday
    case Wednesday => Thursday
    case Thursday => Friday
    case Friday => Saturday
    case Saturday => Sunday
    case Sunday => Monday
  }

  function PreviousDay(d: Day): (r: Day)
    ensures NextDay(r) == d
  {
    match d
    case Monday => Sunday
    case Tuesday => Monday
    case Wednesday => Tuesday
    case Thursday => Wednesday
    case Friday => Thursday
    case Saturday => Friday
    case Sunday => Saturday
  }

  /** The specification: the days of the week follow one another from Thursday, 1 January 1970. */
  function Weekday(date: int): Day
    decreases if date < 0 then -date else date
  {
    if date == 0 then Thursday
    else if date > 0 then NextDay(Weekday(date - 1))
    else PreviousDay(Weekday(date + 1))
  }

  lemma WeekdayFollows(date: int)
    ensures Weekday(date + 1) == NextDay(Weekday(date))
  {
  }

  lemma IndexFollows(date: int)
    ensures DayOfIndex((date + 1 + 3) % 7) == NextDay(DayOfIndex((date + 3) % 7))
  {
  }

  lemma {:induction false} WeekdayByIndex(date: int)
    ensures Weekday(date) == DayOfIndex((date + 3) % 7)
    decreases if date < 0 then -date else date
  {
    if date > 0 {
      WeekdayByIndex(date - 1);
      IndexFollows(date - 1);
    } else if date < 0 {
      WeekdayByIndex(date + 1);
      IndexFollows(date);
      NextDayIsInjective(Weekday(date), DayOfIndex((date + 3) % 7));
    }
  }

  lemma NextDayIsInjective(a: Day, b: Day)
    requires NextDay(a) == NextDay(b)
    ensures a == b
  {
  }

  /** The reading is the day of the week of the local date and the minutes since its midnight. */
  lemma ReadingIsTheLocalDate(date: int, minuteOfDay: int, offset: int)
    requires 0 <= minuteOfDay < 1440
    ensures ReadingAt(date * 1440 + minuteOfDay - offset, offset) == Reading(Weekday(date), minuteOfDay)
  {
    var local := date * 1440 + minuteOfDay;
    assert local / 1440 == date && local % 1440 == minuteOfDay;
    WeekdayByIndex(date);
  }

  /** Within a day the minutes count up; the last one is followed by midnight of the next day. */
  lemma ClockTicks(minute: int, offset: int)
    ensures var at, next := ReadingAt(minute, offset), ReadingAt(minute + 1, offset);
            next == if at.minutes < 1439 then Reading(at.day, at.minutes + 1) else Reading(NextDay(at.day), 0)
  {
    var date, m := (minute + offset) / 1440, (minute + offset) % 1440;
    ReadingIsTheLocalDate(date, m, offset);
    if m < 1439 {
      ReadingIsTheLocalDate(date, m + 1, offset);
    } else {
      ReadingIsTheLocalDate(date + 1, 0, offset);
      WeekdayFollows(date);
    }
  }

  lemma {:induction false} WeeksRepeat(date: int, weeks: nat)
    ensures Weekday(date + 7 * weeks) == Weekday(date)
  {
    if weeks > 0 {
      WeeksRepeat(date, weeks - 1);
      var d := date + 7 * (weeks - 1);
      WeekdayFollows(d);
      WeekdayFollows(d + 1);
      WeekdayFollows(d + 2);
      WeekdayFollows(d + 3);
      WeekdayFollows(d + 4);
      WeekdayFollows(d + 5);
      WeekdayFollows(d + 6);
    }
  }

  lemma NewYear2000(year: int)
    requires year == 2000
    ensures Calendar.MonthStart(Calendar.Month(year, 0)) == 10_957
  {
    Calendar.YearsStartInClosedForm(year);
    assert Calendar.YearStart(year) == 10_957;
  }

  lemma ThirtyYearsOn(date: int)
    requires date == 10_957
    ensures Weekday(date) == Saturday
  {
    WeeksRepeat(date - 10_955, 1_565);
    WeekdayFollows(0);
    WeekdayFollows(1);
  }

  /** A dated fact: 1 January 2000 was a Saturday, at every minute of the local day. */
  lemma NewYear2000WasASaturday(year: int, minuteOfDay: int, offset: int)
    requires year == 2000 && 0 <= minuteOfDay < 1440
    ensures var midnight := Calendar.MonthStart(Calendar.Month(year, 0)) * 1440;
            ReadingAt(midnight + minuteOfDay - offset, offset) == Reading(Saturday, minuteOfDay)
  {
    var date := Calendar.MonthStart(Calendar.Month(year, 0));
    NewYear2000(year);
    ThirtyYearsOn(date);
    ReadingIsTheLocalDate(date, minuteOfDay, offset);
  }

  predicate OpenOn(day: DaySchedule, minuteOfDay: int) {
    match day
    case Closed => false
    case Hours(open, close) =>
      ValidTime(open) && ValidTime(close) && ToMinutes(open) <= minuteOfDay < ToMinutes(close)
  }

  predicate OpenAt(week: Week, offset: int, minute: int) {
    OpenOn(week(ReadingAt(minute, offset).day), ReadingAt(minute, offset).minutes)
  }

  /** The gate decision and the open minutes agree on what "open" is. */
  lemma OpenMinutesAreGateMinutes(week: Week, offset: int, minute: int)
    requires ValidWeek(week)
    ensures OpenAt(week, offset, minute) <==> GateHoursDecision(Some(week), ReadingAt(minute, offset)).GateOpen?
  {
  }

  /** How many of the minutes [from, to) satisfy `p`. */
  function Tally(p: int -> bool, from: int, to: int): nat
    decreases to - from
  {
    if to <= from then 0 else Tally(p, from, to - 1) + if p(to - 1) then 1 else 0
  }

  lemma {:induction false} TallySplit(p: int -> bool, a: int, b: int, c: int)
    requires a <= b <= c
    ensures Tally(p, a, c) == Tally(p, a, b) + Tally(p, b, c)
    decreases c - b
  {
    if b < c {
      TallySplit(p, a, b, c - 1);
    }
  }

  lemma {:induction false} TallyUniform(p: int -> bool, a: int, b: int, q: bool)
    requires a <= b && forall m :: a <= m < b ==> p(m) == q
    ensures Tally(p, a, b) == if q then b - a else 0
    decreases b - a
  {
    if a < b {
      TallyUniform(p, a, b - 1, q);
    }
  }

  function Open(week: Week, offset: int): int -> bool {
    (minute: int) => OpenAt(week, offset, minute)
  }

  /** The specification: how many of the minutes [from, to) are open. */
  function OpenMinutes(week: Week, offset: int, from: int, to: int): nat {
    Tally(Open(week, offset), from, to)
  }

  /** Up to the next local midnight the day stays the same and the minute of the day counts up. */
  lemma SameDay(minute: int, offset: int, later: int)
    requires minute <= later < minute + 1440 - ReadingAt(minute, offset).minutes
    ensures ReadingAt(later, offset) == Reading(ReadingAt(minute, offset).day, ReadingAt(minute, offset).minutes + later - minute)
  {
    var local := minute + offset;
    assert local == 1440 * (local / 1440) + local % 1440;
    assert (later + offset) / 1440 == local / 1440;
  }

  lemma OpenLaterInTheDay(week: Week, offset: int, minute: int, later: int)
    requires minute <= later < minute + 1440 - ReadingAt(minute, offset).minutes
    ensures var at := ReadingAt(minute, offset);
            OpenAt(week, offset, later) == OpenOn(week(at.day), at.minutes + later - minute)
  {
    SameDay(minute, offset, later);
  }

  lemma UniformDay(week: Week, offset: int, minute: int, move: int, open: bool)
    requires 0 < move <= 1440 - ReadingAt(minute, offset).minutes
    requires var at := ReadingAt(minute, offset);
             forall k :: at.minutes <= k < at.minutes + move ==> OpenOn(week(at.day), k) == open
    ensures forall m :: minute <= m < minute + move ==> Open(week, offset)(m) == open
  {
    forall m | minute <= m < minute + move ensures Open(week, offset)(m) == open {
      OpenLaterInTheDay(week, offset, minute, m);
    }
  }

  lemma UniformTail(p: int -> bool, minute: int, move: int, untilEnd: int, open: bool)
    requires 0 < move && forall m :: minute <= m < minute + move ==> p(m) == open
    ensures Tally(p, minute, minute + move) == if open then move else 0
    ensures !open && move > untilEnd >= 0 ==> Tally(p, minute + untilEnd, minute + move) == 0
  {
    TallyUniform(p, minute, minute + move, open);
    if !open && move > untilEnd >= 0 {
      TallyUniform(p, minute + untilEnd, minute + move, false);
    }
  }

  lemma StretchOfDay(week: Week, offset: int, minute: int, move: int, untilEnd: int, open: bool)
    requires 0 < move <= 1440 - ReadingAt(minute, offset).minutes
    requires var at := ReadingAt(minute, offset);
             forall k :: at.minutes <= k < at.minutes + move ==> OpenOn(week(at.day), k) == open
    ensures OpenMinutes(week, offset, minute, minute + move) == if open then move else 0
    ensures !open && move > untilEnd >= 0 ==> OpenMinutes(week, offset, minute + untilEnd, minute + move) == 0
  {
    UniformDay(week, offset, minute, move, open);
    UniformTail(Open(week, offset), minute, move, untilEnd, open);
  }

  type Pos = x: int | x > 0 witness 1

  /** How far the loop moves when the span does not end first: to the opening, the close or the next midnight. */
  function Jump(week: Week, at: Reading): Pos
    requires 0 <= at.minutes < 1440
  {
    var day := week(at.day);
    if day.Closed? || !ValidDay(day) || at.minutes >= ToMinutes(day.close) then MINUTES_PER_DAY - at.minutes
    else if at.minutes < ToMinutes(day.open) then ToMinutes(day.open) - at.minutes
    else ToMinutes(day.close) - at.minutes
  }

  /** The jump from each minute after the start. */
  function Jumps(week: Week, offset: int, first: int): int -> Pos {
    (steps: int) => Jump(week, ReadingAt(first + steps, offset))
  }

  /**
   One turn of the loop: skip to the opening or to the next midnight, or count the rest of the open
   window or of the span. Either way the stretch passed over is uniform and counted exactly.
   */
  method Advance(week: Week, at: Reading, untilEnd: int, ghost offset: int, ghost minute: int) returns (move: int, counted: int)
    requires ValidWeek(week) && untilEnd > 0 && at == ReadingAt(minute, offset)
    ensures move > 0 && OpenMinutes(week, offset, minute, minute + move) == counted
    ensures move > untilEnd ==> OpenMinutes(week, offset, minute + untilEnd, minute + move) == 0
    ensures move == Jump(week, at) || move == untilEnd < Jump(week, at)
  {
    var day := week(at.day);
    assert ValidDay(day) && 0 <= at.minutes < 1440;
    if day.Closed? {
      move, counted := MINUTES_PER_DAY - at.minutes, 0;
      StretchOfDay(week, offset, minute, move, untilEnd, false);
      return;
    }
    MinutesOfDigits(day.open);
    MinutesOfDigits(day.close);
    var opens, closes := ToMinutes(day.open), ToMinutes(day.close);
    StringOrderIsMinuteOrder(day.open, day.close);
    if at.minutes < opens {
      move, counted := opens - at.minutes, 0;
    } else if at.minutes >= closes {
      move, counted := MINUTES_PER_DAY - at.minutes, 0;
    } else {
      var untilClose := closes - at.minutes;
      counted := if untilClose < untilEnd then untilClose else untilEnd;
      move := counted;
    }
    StretchOfDay(week, offset, minute, move, untilEnd, counted > 0);
  }

  /** Whole minutes spanned, a started one included. */
  function MinutesSpanned(ms: int): int {
    (ms + 59_999) / 60_000
  }

  /** What is promised: the elapsed whole minutes without a schedule, else the open minutes of the span. */
  function BusinessMinutes(schedule: Option<Week>, from: int, to: int, offset: int): int {
    if to <= from then 0
    else if schedule.None? then (to - from) / 60_000
    else OpenMinutes(schedule.value, offset, from / 60_000, from / 60_000 + MinutesSpanned(to - from))
  }

  /** Where a walk of whole jumps first reaches the cap: it depends on the jumps, not on the end of the span. */
  function StopFrom(jump: int -> Pos, steps: int): (r: int)
    ensures r >= steps && r >= MAX_STEPS
    decreases MAX_STEPS - steps
  {
    if steps >= MAX_STEPS then steps else StopFrom(jump, steps + jump(steps))
  }

  function StopAt(week: Week, offset: int, first: int): int {
    StopFrom(Jumps(week, offset, first), 0)
  }

  lemma CursorAt(from: int, to: int, cursor: int, steps: int, offset: int)
    requires cursor == from + 60_000 * steps
    ensures LocalReading(cursor, offset) == ReadingAt(from / 60_000 + steps, offset)
    ensures MinutesSpanned(to - cursor) == MinutesSpanned(to - from) - steps
  {
    assert cursor / 60_000 == from / 60_000 + steps;
  }

  lemma CursorEnds(from: int, to: int, cursor: int, steps: int, span: int)
    requires cursor == from + 60_000 * steps && span == MinutesSpanned(to - from)
    ensures cursor < to <==> steps < span
  {
  }

  lemma SpanOf400Days(ms: int)
    ensures ms <= 400 * 86_400_000 <==> MinutesSpanned(ms) <= MAX_STEPS
    ensures ms > 0 <==> MinutesSpanned(ms) > 0
  {
  }

  /** What one turn of the loop does: it moves a whole jump or to the end of the span, counting the open minutes. */
  ghost predicate IsTurn(
    p: int -> bool, jump: int -> Pos, first: int, span: int, steps: int, move: int, counted: int)
  {
    && move > 0 && Tally(p, first + steps, first + steps + move) == counted
    && (move > span - steps ==> Tally(p, first + span, first + steps + move) == 0)
    && (move == jump(steps) || move == span - steps < jump(steps))
  }

  /**
   The loop's invariant: every open minute passed is counted, a jump past the end passed none beyond
   it, and the walk is on course for its stop unless the span has cut its last jump short.
   */
  ghost predicate Walked(p: int -> bool, jump: int -> Pos, first: int, span: int, steps: int, minutes: int) {
    && 0 <= steps && minutes == Tally(p, first, first + steps)
    && (steps > span ==> Tally(p, first + span, first + steps) == 0)
    && (StopFrom(jump, steps) == StopFrom(jump, 0) || steps == span <= StopFrom(jump, 0))
  }

  lemma WalkOn(
      p: int -> bool, jump: int -> Pos, first: int, span: int, steps: int, minutes: int, move: int, counted: int)
    requires Walked(p, jump, first, span, steps, minutes) && steps < span && steps < MAX_STEPS
    requires IsTurn(p, jump, first, span, steps, move, counted)
    ensures Walked(p, jump, first, span, steps + move, minutes + counted)
  {
    TallySplit(p, first, first + steps, first + steps + move);
  }

  lemma WalkStarts(p: int -> bool, jump: int -> Pos, first: int, span: nat)
    ensures Walked(p, jump, first, span, 0, 0)
  {
  }

  /** Where the loop stops, its count is that of the span, or of what lies before the walk's own stop. */
  lemma WalkEnds(p: int -> bool, jump: int -> Pos, first: int, span: nat, steps: int, minutes: int)
    requires Walked(p, jump, first, span, steps, minutes) && (steps >= span || steps >= MAX_STEPS)
    ensures minutes == Tally(p, first, first + Min(span, StopFrom(jump, 0)))
  {
    if steps > span {
      TallySplit(p, first, first + span, first + steps);
    }
  }

  method Turn(week: Week, cursor: int, to: int, offset: int, ghost from: int, ghost steps: int)
    returns (move: int, counted: int)
    requires ValidWeek(week) && cursor == from + 60_000 * steps && cursor < to
    ensures var first := from / 60_000;
            IsTurn(Open(week, offset), Jumps(week, offset, first), first, MinutesSpanned(to - from), steps, move, counted)
  {
    CursorAt(from, to, cursor, steps, offset);
    var at := LocalReading(cursor, offset);
    move, counted := Advance(week, at, MinutesSpanned(to - cursor), offset, from / 60_000 + steps);
  }

  /** The skipping loop: it counts the open minutes of the span, up to where it would stop anyway. */
  method CountOpen(week: Week, from: int, to: int, offset: int) returns (minutes: int)
    requires ValidWeek(week) && from < to
    ensures var first := from / 60_000;
            minutes == OpenMinutes(week, offset, first, first + Min(MinutesSpanned(to - from), StopAt(week, offset, first)))
  {
    minutes := 0;
    var steps, cursor := 0, from;
    ghost var first, span := from / 60_000, MinutesSpanned(to - from);
    ghost var p, jump := Open(week, offset), Jumps(week, offset, first);
    CursorEnds(from, to, cursor, steps, span);
    WalkStarts(p, jump, first, span);
    while cursor < to && steps < MAX_STEPS
      invariant cursor == from + 60_000 * steps && (cursor < to <==> steps < span)
      invariant Walked(p, jump, first, span, steps, minutes)
      decreases MAX_STEPS - steps
    {
      var move, counted := Turn(week, cursor, to, offset, from, steps);
      WalkOn(p, jump, first, span, steps, minutes, move, counted);
      minutes := minutes + counted;
      cursor := cursor + move * 60_000;
      steps := steps + move;
      CursorEnds(from, to, cursor, steps, span);
    }
    WalkEnds(p, jump, first, span, steps, minutes);
  }

  /** What the program counts, for spans of any length. */
  ghost function Counted(schedule: Option<Week>, from: int, to: int, offset: int): int
    requires schedule.Some? ==> ValidWeek(schedule.value)
  {
    if to <= from then 0
    else if schedule.None? then (to - from) / 60_000
    else
      var first := from / 60_000;
      OpenMinutes(schedule.value, offset, first,
        first + Min(MinutesSpanned(to - from), StopAt(schedule.value, offset, first)))
  }

  method BusinessMinutesBetween(schedule: Option<Week>, from: int, to: int, offset: int) returns (minutes: int)
    requires schedule.Some? ==> ValidWeek(schedule.value)
    ensures minutes == Counted(schedule, from, to, offset)
  {
    if to <= from {
      return 0;
    }
    if schedule.None? {
      return (to - from) / 60_000;
    }
    minutes := CountOpen(schedule.value, from, to, offset);
  }

  lemma TallyToStop(p: int -> bool, first: int, span: nat, stop: int)
    requires stop >= MAX_STEPS
    ensures var count := Tally(p, first, first + Min(span, stop));
            && (span <= MAX_STEPS ==> count == Tally(p, first, first + span))
            && count <= Tally(p, first, first + span)
            && (span > MAX_STEPS ==> count >= Tally(p, first, first + MAX_STEPS))
  {
    TallySplit(p, first, first + Min(span, stop), first + span);
    if span > MAX_STEPS {
      TallySplit(p, first, first + MAX_STEPS, first + Min(span, stop));
    }
  }

  /**
   Up to 400 days apart the program's count is the exact one, so the step cap never binds; beyond
   that it never overcounts and still counts every open minute of the first 400 days.
   */
  lemma CountedIsExactFor400Days(schedule: Option<Week>, from: int, to: int, offset: int)
    requires schedule.Some? ==> ValidWeek(schedule.value)
    ensures to - from <= 400 * 86_400_000 || schedule.None? ==>
              Counted(schedule, from, to, offset) == BusinessMinutes(schedule, from, to, offset)
    ensures Counted(schedule, from, to, offset) <= BusinessMinutes(schedule, from, to, offset)
    ensures schedule.Some? && to - from > 400 * 86_400_000 ==>
              Counted(schedule, from, to, offset)
              >= OpenMinutes(schedule.value, offset, from / 60_000, from / 60_000 + 400 * 1440)
  {
    if schedule.Some? && from < to {
      var first := from / 60_000;
      SpanOf400Days(to - from);
      assert StopAt(schedule.value, offset, first) >= MAX_STEPS;
      TallyToStop(Open(schedule.value, offset), first, MinutesSpanned(to - from), StopAt(schedule.value, offset, first));
    }
  }

  // ---------------------------------------------------------------- what the count promises

  lemma SplitMinutes(from: int, mid: int, to: int)
    requires (mid - from) % 60_000 == 0
    ensures mid / 60_000 == from / 60_000 + MinutesSpanned(mid - from)
    ensures MinutesSpanned(to - mid) == MinutesSpanned(to - from) - MinutesSpanned(mid - from)
    ensures (to - from) / 60_000 == (mid - from) / 60_000 + (to - mid) / 60_000
    ensures from <= mid ==> MinutesSpanned(mid - from) >= 0
    ensures mid <= to ==> MinutesSpanned(to - mid) >= 0
  {
  }

  lemma SplitOpen(week: Week, offset: int, first: int, cut: int, before: int, after: int, whole: int)
    requires cut == first + before && whole == before + after && before >= 0 && after >= 0
    ensures OpenMinutes(week, offset, first, first + whole)
         == OpenMinutes(week, offset, first, first + before) + OpenMinutes(week, offset, cut, cut + after)
  {
    TallySplit(Open(week, offset), first, cut, first + whole);
    assert first + whole == cut + after;
  }

  /** Additive: splitting a span at a whole number of minutes splits the count. */
  lemma BusinessMinutesSplit(schedule: Option<Week>, from: int, mid: int, to: int, offset: int)
    requires from <= mid <= to && (mid - from) % 60_000 == 0
    ensures BusinessMinutes(schedule, from, to, offset)
            == BusinessMinutes(schedule, from, mid, offset) + BusinessMinutes(schedule, mid, to, offset)
  {
    if from < mid < to {
      SplitMinutes(from, mid, to);
      if schedule.Some? {
        SplitOpen(schedule.value, offset, from / 60_000, mid / 60_000,
          MinutesSpanned(mid - from), MinutesSpanned(to - mid), MinutesSpanned(to - from));
      }
    }
  }

  /** Waiting longer never lowers the count. */
  lemma BusinessMinutesGrow(schedule: Option<Week>, from: int, sooner: int, later: int, offset: int)
    requires sooner <= later
    ensures BusinessMinutes(schedule, from, sooner, offset) <= BusinessMinutes(schedule, from, later, offset)
  {
    if schedule.Some? && from < sooner {
      var first := from / 60_000;
      TallySplit(Open(schedule.value, offset), first, first + MinutesSpanned(sooner - from), first + MinutesSpanned(later - from));
    }
  }

  /** The program's count never falls as the span grows, past 400 days too. */
  lemma CountedGrows(schedule: Option<Week>, from: int, sooner: int, later: int, offset: int)
    requires sooner <= later && (schedule.Some? ==> ValidWeek(schedule.value))
    ensures 0 <= Counted(schedule, from, sooner, offset) <= Counted(schedule, from, later, offset)
  {
    if schedule.Some? && from < sooner {
      var first := from / 60_000;
      var stop := StopAt(schedule.value, offset, first);
      TallySplit(Open(schedule.value, offset), first, first + Min(MinutesSpanned(sooner - from), stop),
        first + Min(MinutesSpanned(later - from), stop));
    }
  }

  /** The SLA rule on the exact count; hours may be fractional. */
  predicate Overdue(schedule: Option<Week>, createdAt: int, now: int, slaHours: real, offset: int) {
    slaHours > 0.0 && BusinessMinutes(schedule, createdAt, now, offset) as real >= slaHours * 60.0
  }

  /** The program's own verdict, on its own count. */
  ghost predicate Verdict(schedule: Option<Week>, createdAt: int, now: int, slaHours: real, offset: int)
    requires schedule.Some? ==> ValidWeek(schedule.value)
  {
    slaHours > 0.0 && Counted(schedule, createdAt, now, offset) as real >= slaHours * 60.0
  }

  method IsOverdue(schedule: Option<Week>, createdAt: int, now: int, slaHours: real, offset: int) returns (r: bool)
    requires schedule.Some? ==> ValidWeek(schedule.value)
    ensures r == Verdict(schedule, createdAt, now, slaHours, offset)
  {
    if slaHours <= 0.0 {
      return false;
    }
    var minutes := BusinessMinutesBetween(schedule, createdAt, now, offset);
    return minutes as real >= slaHours * 60.0;
  }

  /**
   The verdict is that of the exact count up to 400 days; beyond, it is never a false alarm, and an
   SLA that the first 400 days exceed is reported.
   */
  lemma VerdictIsExactFor400Days(schedule: Option<Week>, createdAt: int, now: int, slaHours: real, offset: int)
    requires schedule.Some? ==> ValidWeek(schedule.value)
    ensures now - createdAt <= 400 * 86_400_000 || schedule.None? ==>
              (Verdict(schedule, createdAt, now, slaHours, offset) <==> Overdue(schedule, createdAt, now, slaHours, offset))
    ensures Verdict(schedule, createdAt, now, slaHours, offset) ==> Overdue(schedule, createdAt, now, slaHours, offset)
    ensures now - createdAt > 400 * 86_400_000
            && Overdue(schedule, createdAt, createdAt + 400 * 86_400_000, slaHours, offset) ==>
              Verdict(schedule, createdAt, now, slaHours, offset)
  {
    var at400 := createdAt + 400 * 86_400_000;
    CountedIsExactFor400Days(schedule, createdAt, now, offset);
    CountedIsExactFor400Days(schedule, createdAt, at400, offset);
    if now > at400 {
      CountedGrows(schedule, createdAt, at400, now, offset);
    }
  }

  /** A task that is overdue stays overdue: the program never takes its verdict back, for spans of any length. */
  lemma OverdueIsMonotone(schedule: Option<Week>, createdAt: int, sooner: int, later: int, slaHours: real, offset: int)
    requires sooner <= later && (schedule.Some? ==> ValidWeek(schedule.value))
    ensures Verdict(schedule, createdAt, sooner, slaHours, offset) ==> Verdict(schedule, createdAt, later, slaHours, offset)
    ensures Overdue(schedule, createdAt, sooner, slaHours, offset) ==> Overdue(schedule, createdAt, later, slaHours, offset)
  {
    CountedGrows(schedule, createdAt, sooner, later, offset);
    BusinessMinutesGrow(schedule, createdAt, sooner, later, offset);
  }

  predicate NeverOpens(schedule: Option<Week>) {
    schedule.Some? && forall d :: schedule.value(d).Closed?
  }

  /** A facility that never opens never has an overdue task, however long it waits. */
  lemma NeverOpensNeverOverdue(schedule: Option<Week>, createdAt: int, now: int, slaHours: real, offset: int)
    requires NeverOpens(schedule) && ValidWeek(schedule.value)
    ensures !Overdue(schedule, createdAt, now, slaHours, offset) && !Verdict(schedule, createdAt, now, slaHours, offset)
  {
    CountedIsExactFor400Days(schedule, createdAt, now, offset);
    var first := createdAt / 60_000;
    if createdAt < now {
      TallyUniform(Open(schedule.value, offset), first, first + MinutesSpanned(now - createdAt), false);
    }
  }
}
