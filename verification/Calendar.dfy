/**
 The proleptic Gregorian calendar behind `Date.UTC` and the `getUTC*` accessors. Days are counted
 from 1970-01-01; months are counted from January of year 0, so month arithmetic carries over into
 the next year the way `Date.UTC` normalises it.
 */
module Calendar {
  const JANUARY_1970 := 12 * 1970

  predicate Leap(year: int) {
    year % 4 == 0 && (year % 100 != 0 || year % 400 == 0)
  }

  function DaysIn(m: int): (r: int)
    ensures 28 <= r <= 31
  {
    var month := m % 12;
    if month == 1 then (if Leap(m / 12) then 29 else 28)
    else if month == 3 || month == 5 || month == 8 || month == 10 then 30
    else 31
  }

  /** The month index of a year and a zero-based month. */
  function Month(year: int, month0: int): int {
    12 * year + month0
  }

  /** The first day of a month: Date.UTC(year, month0, 1) in days. */
  function MonthStart(m: int): int
    decreases if m < JANUARY_1970 then JANUARY_1970 - m else m - JANUARY_1970
  {
    if m == JANUARY_1970 then 0
    else if m > JANUARY_1970 then MonthStart(m - 1) + DaysIn(m - 1)
    else MonthStart(m + 1) - DaysIn(m)
  }

  /** Months follow one another without gap: each ends where the next begins. */
  lemma MonthsTile(m: int)
    ensures MonthStart(m + 1) == MonthStart(m) + DaysIn(m)
  {
    if m < JANUARY_1970 {
      assert MonthStart(m) == MonthStart(m + 1) - DaysIn(m);
    }
  }

  lemma {:induction false} MonthStartsGrow(m: int, n: int)
    requires m <= n
    ensures 28 * (n - m) <= MonthStart(n) - MonthStart(m) <= 31 * (n - m)
    decreases n - m
  {
    if m < n {
      MonthStartsGrow(m, n - 1);
      MonthsTile(n - 1);
    }
  }

  /** How far a day is from a month, in days. */
  function Distance(day: int, m: int): nat {
    var start, end := MonthStart(m), MonthStart(m + 1);
    if day < start then start - day else if day >= end then day - end + 1 else 0
  }

  lemma Walk(day: int, m: int)
    ensures day < MonthStart(m) ==> Distance(day, m - 1) < Distance(day, m)
    ensures day >= MonthStart(m + 1) ==> Distance(day, m + 1) < Distance(day, m)
  {
    MonthsTile(m - 1);
    MonthsTile(m);
    MonthsTile(m + 1);
  }

  /** Walks to the month of a day from month `m`. */
  function MonthFrom(day: int, m: int): (r: int)
    ensures MonthStart(r) <= day < MonthStart(r + 1)
    decreases Distance(day, m)
  {
    Walk(day, m);
    if day < MonthStart(m) then MonthFrom(day, m - 1)
    else if day >= MonthStart(m + 1) then MonthFrom(day, m + 1)
    else m
  }

  /** The month a day falls in: getUTCFullYear and getUTCMonth. */
  function MonthOf(day: int): (r: int)
    ensures MonthStart(r) <= day < MonthStart(r + 1)
  {
    MonthFrom(day, JANUARY_1970)
  }

  /** getUTCDate. */
  function DayOfMonth(day: int): (r: int)
    ensures 1 <= r <= DaysIn(MonthOf(day))
  {
    MonthsTile(MonthOf(day));
    day - MonthStart(MonthOf(day)) + 1
  }

  lemma MonthOfIsUnique(day: int, m: int)
    requires MonthStart(m) <= day < MonthStart(m + 1)
    ensures MonthOf(day) == m
  {
    var r := MonthOf(day);
    if r < m {
      MonthStartsGrow(r + 1, m);
    } else if m < r {
      MonthStartsGrow(m + 1, r);
    }
  }

  // ---------------------------------------------------------------- the calendar in closed form

  /** Leap years from year 0 up to, not including, `year`. */
  function LeapYearsBefore(year: int): int {
    (year + 3) / 4 - (year + 99) / 100 + (year + 399) / 400
  }

  lemma StepsOfFour(year: int)
    ensures (year + 4) / 4 == (year + 3) / 4 + (if year % 4 == 0 then 1 else 0)
  {
  }

  lemma StepsOfHundred(year: int)
    ensures (year + 100) / 100 == (year + 99) / 100 + (if year % 100 == 0 then 1 else 0)
  {
    var q := year / 100;
    assert 100 * q <= year < 100 * q + 100;
  }

  lemma StepsOfFourHundred(year: int)
    ensures (year + 400) / 400 == (year + 399) / 400 + (if year % 400 == 0 then 1 else 0)
  {
    var q := year / 400;
    assert 400 * q <= year < 400 * q + 400;
  }

  lemma HundredsAreFours(year: int)
    ensures year % 100 == 0 ==> year % 4 == 0
  {
    assert year == 100 * (year / 100) + year % 100;
  }

  lemma FourHundredsAreHundreds(year: int)
    ensures year % 400 == 0 ==> year % 100 == 0
  {
    assert year == 400 * (year / 400) + year % 400;
  }

  lemma OneMoreYear(year: int)
    ensures LeapYearsBefore(year + 1) == LeapYearsBefore(year) + if Leap(year) then 1 else 0
  {
    StepsOfFour(year);
    StepsOfHundred(year);
    StepsOfFourHundred(year);
    HundredsAreFours(year);
    FourHundredsAreHundreds(year);
  }

  lemma ShiftQuotients(x: int)
    ensures (x + 400) / 4 == x / 4 + 100
    ensures (x + 400) / 400 == x / 400 + 1
  {
  }

  lemma ShiftHundreds(x: int)
    ensures (x + 400) / 100 == x / 100 + 4
  {
    var q := x / 100;
    assert 100 * q <= x < 100 * q + 100;
  }

  lemma FourHundredMoreYears(year: int)
    ensures LeapYearsBefore(year + 400) == LeapYearsBefore(year) + 97
  {
    ShiftQuotients(year + 3);
    ShiftHundreds(year + 99);
    ShiftQuotients(year + 399);
  }

  /** The first day of a year, without walking the months. */
  function YearStart(year: int): int {
    365 * (year - 1970) + LeapYearsBefore(year) - LeapYearsBefore(1970)
  }

  lemma MonthsOfAYear(year: int, k: nat)
    requires k < 12
    ensures (12 * year + k) / 12 == year && (12 * year + k) % 12 == k
  {
  }

  /** Thirty days have April, June, September and November; February has 28, or 29 in a leap year; the rest 31. */
  lemma MonthLengths(year: int)
    ensures DaysIn(Month(year, 0)) == DaysIn(Month(year, 2)) == DaysIn(Month(year, 4)) == DaysIn(Month(year, 6)) == 31
    ensures DaysIn(Month(year, 7)) == DaysIn(Month(year, 9)) == DaysIn(Month(year, 11)) == 31
    ensures DaysIn(Month(year, 3)) == DaysIn(Month(year, 5)) == DaysIn(Month(year, 8)) == DaysIn(Month(year, 10)) == 30
    ensures DaysIn(Month(year, 1))
         == if year % 400 == 0 || (year % 4 == 0 && year % 100 != 0) then 29 else 28
  {
    FirstMonths(year);
    LastMonths(year);
    HundredsAreFours(year);
    FourHundredsAreHundreds(year);
  }

  lemma FirstMonths(year: int)
    ensures DaysIn(Month(year, 0)) == DaysIn(Month(year, 2)) == DaysIn(Month(year, 4)) == 31
    ensures DaysIn(Month(year, 3)) == DaysIn(Month(year, 5)) == 30
    ensures DaysIn(Month(year, 1)) == if Leap(year) then 29 else 28
  {
    MonthsOfAYear(year, 0);
    MonthsOfAYear(year, 1);
    MonthsOfAYear(year, 2);
    MonthsOfAYear(year, 3);
    MonthsOfAYear(year, 4);
    MonthsOfAYear(year, 5);
  }

  lemma LastMonths(year: int)
    ensures DaysIn(Month(year, 6)) == DaysIn(Month(year, 7)) == DaysIn(Month(year, 9)) == DaysIn(Month(year, 11)) == 31
    ensures DaysIn(Month(year, 8)) == DaysIn(Month(year, 10)) == 30
  {
    MonthsOfAYear(year, 6);
    MonthsOfAYear(year, 7);
    MonthsOfAYear(year, 8);
    MonthsOfAYear(year, 9);
    MonthsOfAYear(year, 10);
    MonthsOfAYear(year, 11);
  }

  function SixMonths(m: int): int {
    DaysIn(m) + DaysIn(m + 1) + DaysIn(m + 2) + DaysIn(m + 3) + DaysIn(m + 4) + DaysIn(m + 5)
  }

  lemma HalfAYear(m: int, days: int)
    requires SixMonths(m) == days
    ensures MonthStart(m + 6) == MonthStart(m) + days
  {
    MonthsTile(m);
    MonthsTile(m + 1);
    MonthsTile(m + 2);
    MonthsTile(m + 3);
    MonthsTile(m + 4);
    MonthsTile(m + 5);
  }

  lemma FirstHalf(year: int)
    ensures SixMonths(12 * year) == if Leap(year) then 182 else 181
  {
    MonthsOfAYear(year, 0);
    MonthsOfAYear(year, 1);
    MonthsOfAYear(year, 2);
    MonthsOfAYear(year, 3);
    MonthsOfAYear(year, 4);
    MonthsOfAYear(year, 5);
  }

  lemma SecondHalf(year: int)
    ensures SixMonths(12 * year + 6) == 184
  {
    MonthsOfAYear(year, 6);
    MonthsOfAYear(year, 7);
    MonthsOfAYear(year, 8);
    MonthsOfAYear(year, 9);
    MonthsOfAYear(year, 10);
    MonthsOfAYear(year, 11);
  }

  lemma DaysOfAYear(year: int)
    ensures MonthStart(12 * (year + 1)) == MonthStart(12 * year) + if Leap(year) then 366 else 365
  {
    FirstHalf(year);
    SecondHalf(year);
    HalfAYear(12 * year, if Leap(year) then 182 else 181);
    HalfAYear(12 * year + 6, 184);
  }

  /** The month walk agrees with the closed form in every year, before 1970 and after. */
  lemma {:induction false} YearsStartInClosedForm(year: int)
    ensures MonthStart(12 * year) == YearStart(year)
    decreases if year < 1970 then 1970 - year else year - 1970
  {
    if year > 1970 {
      YearsStartInClosedForm(year - 1);
      DaysOfAYear(year - 1);
      OneMoreYear(year - 1);
    } else if year < 1970 {
      YearsStartInClosedForm(year + 1);
      DaysOfAYear(year);
      OneMoreYear(year);
    }
  }

  /** Four centuries are 146097 days, whichever year they start in. */
  lemma FourCenturies(year: int)
    ensures MonthStart(12 * (year + 400)) == MonthStart(12 * year) + 146_097
  {
    YearsStartInClosedForm(year);
    YearsStartInClosedForm(year + 400);
    FourHundredMoreYears(year);
  }
}
