/**
 Weekly schedules of HH:MM windows, and the gate decision and the narrowing built on them
 (packages/core/facility-settings/weekly-schedule.ts, packages/core/access/gate-hours.ts).
 */
module WeeklySchedule {
  import opened Wrappers
  import Decimals
  import opened Fingerprint

  datatype Day = Monday | Tuesday | Wednesday | Thursday | Friday | Saturday | Sunday

  datatype DaySchedule = Closed | Hours(open: string, close: string)

  /** One entry for each day of the week. */
  type Week = Day -> DaySchedule

  // ---------------------------------------------------------------- HH:MM strings

  /** TIME_PATTERN: two-digit hours 00..23, a colon, two-digit minutes 00..59. */
  predicate ValidTime(s: string) {
    && |s| == 5 && s[2] == ':'
    && ((('0' == s[0] || '1' == s[0]) && Decimals.IsDigit(s[1])) || (s[0] == '2' && '0' <= s[1] <= '3'))
    && '0' <= s[3] <= '5' && Decimals.IsDigit(s[4])
  }

  /** JavaScript's string order. */
  predicate Less(a: string, b: string) {
    b != "" && (a == "" || a[0] < b[0] || (a[0] == b[0] && Less(a[1..], b[1..])))
  }

  function ToMinutes(hhmm: string): int
    requires ValidTime(hhmm)
  {
    60 * Decimals.DecimalValue(hhmm[..2]) + Decimals.DecimalValue(hhmm[3..])
  }

  function Digit(c: char): int {
    c as int - '0' as int
  }

  lemma TwoDigits(s: string)
    requires |s| == 2 && Decimals.AllDigits(s)
    ensures Decimals.DecimalValue(s) == 10 * Digit(s[0]) + Digit(s[1])
  {
    assert s[..1][..0] == "";
    assert Decimals.DecimalValue(s[..1]) == Digit(s[0]);
  }

  lemma MinutesOfDigits(s: string)
    requires ValidTime(s)
    ensures ToMinutes(s) == 600 * Digit(s[0]) + 60 * Digit(s[1]) + 10 * Digit(s[3]) + Digit(s[4])
    ensures 0 <= ToMinutes(s) < 1440
  {
    TwoDigits(s[..2]);
    TwoDigits(s[3..]);
  }

  lemma LessAt(a: string, b: string, k: nat)
    requires k < |a| && k < |b|
    ensures Less(a[k..], b[k..]) <==> a[k] < b[k] || (a[k] == b[k] && Less(a[k + 1..], b[k + 1..]))
  {
    assert a[k..][1..] == a[k + 1..] && b[k..][1..] == b[k + 1..];
  }

  predicate LessMinute(a: string, b: string)
    requires ValidTime(a) && ValidTime(b)
  {
    a[3] < b[3] || (a[3] == b[3] && a[4] < b[4])
  }

  /** String order on HH:MM goes digit by digit; the colons agree. */
  lemma LessByDigits(a: string, b: string)
    requires ValidTime(a) && ValidTime(b)
    ensures Less(a, b) <==>
              a[0] < b[0] || (a[0] == b[0] && (a[1] < b[1] || (a[1] == b[1] && LessMinute(a, b))))
  {
    assert a[0..] == a && b[0..] == b;
    LessAt(a, b, 0);
    LessAt(a, b, 1);
    LessAt(a, b, 2);
    LessAt(a, b, 3);
    LessAt(a, b, 4);
  }

  /** For valid times, string order is minute order. */
  lemma StringOrderIsMinuteOrder(a: string, b: string)
    requires ValidTime(a) && ValidTime(b)
    ensures Less(a, b) <==> ToMinutes(a) < ToMinutes(b)
  {
    MinutesOfDigits(a);
    MinutesOfDigits(b);
    LessByDigits(a, b);
  }

  function TwoDigitText(n: int): string
    requires 0 <= n < 100
  {
    ['0' + (n / 10) as char, '0' + (n % 10) as char]
  }

  /** The specification: how a time of day is written. */
  function TimeText(hour: int, minute: int): string
    requires 0 <= hour < 24 && 0 <= minute < 60
  {
    TwoDigitText(hour) + ":" + TwoDigitText(minute)
  }

  /** The pattern takes the text of every time of day, and ToMinutes reads it. */
  lemma TimesAreValid(hour: int, minute: int)
    requires 0 <= hour < 24 && 0 <= minute < 60
    ensures ValidTime(TimeText(hour, minute)) && ToMinutes(TimeText(hour, minute)) == 60 * hour + minute
  {
    MinutesOfDigits(TimeText(hour, minute));
  }

  lemma TextOfDigits(a: char, b: char)
    requires Decimals.IsDigit(a) && Decimals.IsDigit(b)
    ensures 0 <= 10 * Digit(a) + Digit(b) < 100 && TwoDigitText(10 * Digit(a) + Digit(b)) == [a, b]
  {
    var n := 10 * Digit(a) + Digit(b);
    assert n / 10 == Digit(a) && n % 10 == Digit(b);
  }

  lemma HourAndMinute(hour: int, minute: int)
    requires 0 <= minute < 60
    ensures (60 * hour + minute) / 60 == hour && (60 * hour + minute) % 60 == minute
  {
  }

  /** ... and takes nothing else. */
  lemma ValidTimesAreTimes(s: string)
    requires ValidTime(s)
    ensures 0 <= ToMinutes(s) < 1440 && s == TimeText(ToMinutes(s) / 60, ToMinutes(s) % 60)
  {
    MinutesOfDigits(s);
    TextOfDigits(s[0], s[1]);
    TextOfDigits(s[3], s[4]);
    HourAndMinute(10 * Digit(s[0]) + Digit(s[1]), 10 * Digit(s[3]) + Digit(s[4]));
    assert s == [s[0], s[1]] + ":" + [s[3], s[4]];
  }

  predicate ValidDay(d: DaySchedule) {
    d.Hours? ==> ValidTime(d.open) && ValidTime(d.close) && Less(d.open, d.close)
  }

  ghost predicate ValidWeek(w: Week) {
    forall d :: ValidDay(w(d))
  }

  // ---------------------------------------------------------------- parsing stored JSON

  function DayKey(d: Day): string {
    match d
    case Monday => "monday"
    case Tuesday => "tuesday"
    case Wednesday => "wednesday"
    case Thursday => "thursday"
    case Friday => "friday"
    case Saturday => "saturday"
    case Sunday => "sunday"
  }

  /** `value[key]` for any JSON value; only objects have these keys. */
  function Property(value: Json, key: string): Json {
    if value.Obj? then Find(value.entries, key) else Undefined
  }

  /** What isValidDaySchedule asks of a stored value, and the day it stands for. */
  predicate Stores(value: Json, day: DaySchedule) {
    match day
    case Closed => Property(value, "closed") == Bool(true)
    case Hours(open, close) =>
      && Property(value, "closed") == Bool(false)
      && Property(value, "open") == Str(open) && Property(value, "close") == Str(close) && ValidDay(day)
  }

  function ParseDay(value: Json): (r: Option<DaySchedule>)
    ensures forall day :: r == Some(day) <==> Stores(value, day)
  {
    var closed, open, close := Property(value, "closed"), Property(value, "open"), Property(value, "close");
    if closed == Bool(true) then Some(Closed)
    else if closed == Bool(false) && open.Str? && close.Str? && ValidTime(open.s) && ValidTime(close.s) && Less(open.s, close.s)
    then Some(Hours(open.s, close.s))
    else None
  }

  predicate Parses(value: Json) {
    forall d: Day :: ParseDay(Property(value, DayKey(d))).Some?
  }

  function Parsed(value: Json): Week {
    (d: Day) => var day := ParseDay(Property(value, DayKey(d))); if day.Some? then day.value else Closed
  }

  /** parseWeeklySchedule: every day must be valid, or the whole value counts as unset. */
  function ParseWeek(value: Json): (r: Option<Week>)
    ensures r.Some? ==> ValidWeek(r.value) && forall d :: Stores(Property(value, DayKey(d)), r.value(d))
    ensures r.None? ==> exists d :: forall day :: !Stores(Property(value, DayKey(d)), day)
  {
    if Parses(value) then Some(Parsed(value)) else None
  }

  // ---------------------------------------------------------------- the gate

  datatype Reading = Reading(day: Day, minutes: int)

  datatype GateDecision = GateOpen | ClosedToday | OutsideHours(opens: string, closes: string)

  function GateHoursDecision(schedule: Option<Week>, at: Reading): GateDecision
    requires schedule.Some? ==> ValidDay(schedule.value(at.day))
  {
    if schedule.None? then GateOpen
    else
      match schedule.value(at.day)
      case Closed => ClosedToday
      case Hours(open, close) =>
        if ToMinutes(open) <= at.minutes < ToMinutes(close) then GateOpen else OutsideHours(open, close)
  }

  ghost predicate Admits(schedule: Option<Week>, at: Reading)
    requires schedule.Some? ==> ValidWeek(schedule.value)
  {
    GateHoursDecision(schedule, at).GateOpen?
  }

  /** What is decided: the day's own hours decide, from the opening up to, not including, the close. */
  lemma WhatTheGateDecides(w: Week, at: Reading, open: string, close: string)
    requires ValidWeek(w)
    ensures GateHoursDecision(None, at) == GateOpen
    ensures GateHoursDecision(Some(w), at) == ClosedToday <==> w(at.day) == Closed
    ensures GateHoursDecision(Some(w), at) == OutsideHours(open, close) <==>
              w(at.day) == Hours(open, close) && (at.minutes < ToMinutes(open) || at.minutes >= ToMinutes(close))
  {
    assert ValidDay(w(at.day));
  }

  function NarrowDay(a: DaySchedule, b: DaySchedule): DaySchedule {
    if a.Closed? || b.Closed? then Closed
    else
      var open := if Less(b.open, a.open) then a.open else b.open;
      var close := if Less(a.close, b.close) then a.close else b.close;
      if Less(open, close) then Hours(open, close) else Closed
  }

  function NarrowSchedule(facility: Option<Week>, person: Option<Week>): Option<Week> {
    if facility.None? then person
    else if person.None? then facility
    else Some((d: Day) => NarrowDay(facility.value(d), person.value(d)))
  }

  function ScheduleForGrant(facility: Option<Week>, personAccessHours: Json): Option<Week> {
    NarrowSchedule(facility, ParseWeek(personAccessHours))
  }

  lemma NarrowDayIntersects(a: DaySchedule, b: DaySchedule, minutes: int)
    requires ValidDay(a) && ValidDay(b)
    ensures var n := NarrowDay(a, b);
            && ValidDay(n)
            && ((n.Hours? && ToMinutes(n.open) <= minutes < ToMinutes(n.close)) <==>
                (a.Hours? && ToMinutes(a.open) <= minutes < ToMinutes(a.close))
                && (b.Hours? && ToMinutes(b.open) <= minutes < ToMinutes(b.close)))
  {
    if a.Hours? && b.Hours? {
      StringOrderIsMinuteOrder(b.open, a.open);
      StringOrderIsMinuteOrder(a.close, b.close);
      var open := if Less(b.open, a.open) then a.open else b.open;
      var close := if Less(a.close, b.close) then a.close else b.close;
      StringOrderIsMinuteOrder(open, close);
    }
  }

  /** Intersection, never replacement: the narrowed gate is open exactly when both gates are, and is a valid schedule. */
  lemma NarrowingIsIntersection(facility: Option<Week>, person: Option<Week>, at: Reading)
    requires facility.Some? ==> ValidWeek(facility.value)
    requires person.Some? ==> ValidWeek(person.value)
    ensures var n := NarrowSchedule(facility, person);
            && (n.None? <==> facility.None? && person.None?)
            && (n.Some? ==> ValidWeek(n.value))
            && (Admits(n, at) <==> Admits(facility, at) && Admits(person, at))
  {
    if facility.Some? && person.Some? {
      var n := NarrowSchedule(facility, person);
      forall d ensures ValidDay(n.value(d)) {
        NarrowDayIntersects(facility.value(d), person.value(d), 0);
      }
      NarrowDayIntersects(facility.value(at.day), person.value(at.day), at.minutes);
    }
  }

  /** Whatever JSON an authorised person's hours hold, a grant never admits outside the facility's hours. */
  lemma GrantNeverWidens(facility: Option<Week>, personAccessHours: Json, at: Reading)
    requires facility.Some? ==> ValidWeek(facility.value)
    ensures var n := ScheduleForGrant(facility, personAccessHours);
            (n.Some? ==> ValidWeek(n.value)) && (Admits(n, at) ==> Admits(facility, at))
  {
    NarrowingIsIntersection(facility, ParseWeek(personAccessHours), at);
  }

  // ---------------------------------------------------------------- writing a schedule back

  function DayJson(d: DaySchedule): Json {
    match d
    case Closed => Obj([Entry("closed", Bool(true))])
    case Hours(open, close) => Obj([Entry("closed", Bool(false)), Entry("open", Str(open)), Entry("close", Str(close))])
  }

  function WeekJson(w: Week): Json {
    Obj([Entry("monday", DayJson(w(Monday))), Entry("tuesday", DayJson(w(Tuesday))),
         Entry("wednesday", DayJson(w(Wednesday))), Entry("thursday", DayJson(w(Thursday))),
         Entry("friday", DayJson(w(Friday))), Entry("saturday", DayJson(w(Saturday))), Entry("sunday", DayJson(w(Sunday)))])
  }

  lemma DayRoundTrip(d: DaySchedule)
    requires ValidDay(d)
    ensures ParseDay(DayJson(d)) == Some(d)
  {
    if d.Hours? {
      var e := DayJson(d).entries;
      assert e[0].key == "closed" && e[1].key == "open" && e[2].key == "close";
      assert |e[0].key| == 6 && |e[1].key| == 4 && |e[2].key| == 5;
      FindUnique(e, 0);
      FindUnique(e, 1);
      FindUnique(e, 2);
    } else {
      FindUnique(DayJson(d).entries, 0);
    }
  }

  function DayIndex(d: Day): nat {
    match d
    case Monday => 0
    case Tuesday => 1
    case Wednesday => 2
    case Thursday => 3
    case Friday => 4
    case Saturday => 5
    case Sunday => 6
  }

  lemma FindDay(w: Week, d: Day)
    ensures Find(WeekJson(w).entries, DayKey(d)) == DayJson(w(d))
  {
    var e := WeekJson(w).entries;
    assert |e[0].key| == 6 && |e[1].key| == 7 && |e[2].key| == 9 && |e[3].key| == 8 && |e[4].key| == 6 && |e[5].key| == 8 && |e[6].key| == 6;
    assert e[0].key[0] == 'm' && e[3].key[0] == 't' && e[4].key[0] == 'f' && e[5].key[0] == 's' && e[6].key[0] == 's';
    FindUnique(e, DayIndex(d));
  }

  /** A valid schedule, a narrowed one included, survives being stored and parsed back. */
  lemma WeekRoundTrip(w: Week)
    requires ValidWeek(w)
    ensures ParseWeek(WeekJson(w)).Some? && forall d :: ParseWeek(WeekJson(w)).value(d) == w(d)
  {
    forall d ensures ParseDay(Property(WeekJson(w), DayKey(d))) == Some(w(d)) {
      FindDay(w, d);
      DayRoundTrip(w(d));
    }
  }

  // ---------------------------------------------------------------- "always open"

  predicate IsAlwaysOpen(schedule: Option<Week>) {
    schedule.None?
    || forall d :: schedule.value(d).Hours? && schedule.value(d).open == "00:00" && schedule.value(d).close == "23:59"
  }

  /**
   The check is documented as "open at every minute of every day". With a schedule set it is not:
   the window is half-open, so the gate is shut for the last minute of each day and open for all
   others. No valid schedule at all is open at 23:59; only an unset one is.
   */
  lemma AlwaysOpenShutsForTheLastMinute(w: Week, at: Reading)
    requires ValidWeek(w) && 0 <= at.minutes < 1440
    ensures at.minutes == 1439 ==> !Admits(Some(w), at)
    ensures IsAlwaysOpen(Some(w)) ==> (Admits(Some(w), at) <==> at.minutes < 1439)
  {
    assert ValidDay(w(at.day));
    if w(at.day).Hours? {
      MinutesOfDigits(w(at.day).open);
      MinutesOfDigits(w(at.day).close);
    }
  }

  lemma OnlyTheWholeDay(d: DaySchedule)
    requires ValidDay(d) && d.Hours? && ToMinutes(d.open) <= 0 && 1438 < ToMinutes(d.close)
    ensures d.open == "00:00" && d.close == "23:59"
  {
    ValidTimesAreTimes(d.open);
    ValidTimesAreTimes(d.close);
  }

  /** Exact condition: the check holds of a valid week just when it admits at every minute but each day's last. */
  lemma AlwaysOpenIffAllButTheLastMinute(w: Week)
    requires ValidWeek(w)
    ensures IsAlwaysOpen(Some(w)) <==> forall at: Reading :: 0 <= at.minutes < 1439 ==> Admits(Some(w), at)
  {
    if IsAlwaysOpen(Some(w)) {
      forall at: Reading | 0 <= at.minutes < 1439 ensures Admits(Some(w), at) {
        AlwaysOpenShutsForTheLastMinute(w, at);
      }
    }
    if forall at: Reading :: 0 <= at.minutes < 1439 ==> Admits(Some(w), at) {
      forall d ensures w(d).Hours? && w(d).open == "00:00" && w(d).close == "23:59" {
        assert Admits(Some(w), Reading(d, 0)) && Admits(Some(w), Reading(d, 1438));
        assert ValidDay(w(d));
        OnlyTheWholeDay(w(d));
      }
    }
  }
}
