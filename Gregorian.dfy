/** The proleptic Gregorian calendar that the screen obtains from
    `Calendar.current`: month lengths, the leap-year rule, and the day of the
    week, numbered from Sunday = 0 to Saturday = 6 (the host's `.weekday`
    component minus one). Years are astronomical integers; every year,
    including 0 and negative ones, follows the same 400-year cycle. */
module Gregorian {

  const Sunday := 0
  const Monday := 1
  const Tuesday := 2
  const Wednesday := 3
  const Thursday := 4
  const Friday := 5
  const Saturday := 6

  /** The Gregorian leap-year rule. */
  predicate IsLeapYear(year: int) {
    year % 4 == 0 && (year % 100 != 0 || year % 400 == 0)
  }

  function DaysInYear(year: int): int {
    if IsLeapYear(year) then 366 else 365
  }

  /** The number of days of `month` (1 = January .. 12 = December). */
  function DaysInMonth(year: int, month: int): (n: int)
    requires 1 <= month <= 12
    ensures 28 <= n <= 31
  {
    if month == 2 then (if IsLeapYear(year) then 29 else 28)
    else if month == 4 || month == 6 || month == 9 || month == 11 then 30
    else 31
  }

  /** The days of the year that come before the first of `month`; month 13
      stands for the first day of the next year. */
  function DaysBeforeMonth(year: int, month: int): int
    requires 1 <= month <= 13
  {
    var common :=
      [0, 31, 59, 90, 120, 151, 181, 212, 243, 273, 304, 334, 365][month - 1];
    if month > 2 && IsLeapYear(year) then common + 1 else common
  }

  /** Days from 0001-01-01 to the first of January of `year` (negative
      before year 1). Dafny's `/` floors for a positive divisor, so this
      counts the leap years in [1, year) for every integer year. */
  function DaysBeforeYear(year: int): int {
    var y := year - 1;
    365 * y + y / 4 - y / 100 + y / 400
  }

  /** Days elapsed from 0001-01-01 (day 0) to the given date. */
  function DayNumber(year: int, month: int, day: int): int
    requires 1 <= month <= 12
  {
    DaysBeforeYear(year) + DaysBeforeMonth(year, month) + day - 1
  }

  /** The day of the week, Sunday = 0 .. Saturday = 6; the proleptic
      Gregorian date 0001-01-01 was a Monday. */
  function Weekday(year: int, month: int, day: int): (w: int)
    requires 1 <= month <= 12
    ensures 0 <= w < 7
  {
    (DayNumber(year, month, day) + Monday) % 7
  }

  predicate IsValidDate(year: int, month: int, day: int) {
    1 <= month <= 12 && 1 <= day <= DaysInMonth(year, month)
  }

  /** The calendar date that follows a valid date. */
  function NextDate(year: int, month: int, day: int): (r: (int, int, int))
    requires IsValidDate(year, month, day)
    ensures IsValidDate(r.0, r.1, r.2)
  {
    if day < DaysInMonth(year, month) then (year, month, day + 1)
    else if month < 12 then (year, month + 1, 1)
    else (year + 1, 1, 1)
  }

  /** The leap-year rule and the year count agree: a year is as long as the
      gap between its first day and the next year's. */
  lemma DaysBeforeYearStep(year: int)
    ensures DaysBeforeYear(year + 1) == DaysBeforeYear(year) + DaysInYear(year)
  {
    var y := year - 1;
    assert year / 4 - y / 4 == (if year % 4 == 0 then 1 else 0);
    assert year / 100 - y / 100 == (if year % 100 == 0 then 1 else 0);
    assert year / 400 - y / 400 == (if year % 400 == 0 then 1 else 0);
  }

  /** The cumulative month table agrees with the month lengths, and the
      twelve months make up the year. */
  lemma DaysBeforeMonthStep(year: int, month: int)
    requires 1 <= month <= 12
    ensures DaysBeforeMonth(year, month + 1) == DaysBeforeMonth(year, month) + DaysInMonth(year, month)
    ensures DaysBeforeMonth(year, 13) == DaysInYear(year)
  {
  }

  /** Consecutive dates have consecutive day numbers, across month and year
      boundaries alike. */
  lemma DayNumberNext(year: int, month: int, day: int)
    requires IsValidDate(year, month, day)
    ensures var (y', m', d') := NextDate(year, month, day);
      DayNumber(y', m', d') == DayNumber(year, month, day) + 1
  {
    if day == DaysInMonth(year, month) {
      DaysBeforeMonthStep(year, month);
      if month == 12 {
        DaysBeforeYearStep(year);
      }
    }
  }

  /** The weekday advances by one, cyclically, from each date to the next. */
  lemma WeekdayNext(year: int, month: int, day: int)
    requires IsValidDate(year, month, day)
    ensures var (y', m', d') := NextDate(year, month, day);
      Weekday(y', m', d') == (Weekday(year, month, day) + 1) % 7
  {
    DayNumberNext(year, month, day);
    var (y', m', d') := NextDate(year, month, day);
    WeekOfSuccessor(DayNumber(year, month, day) + Monday);
  }

  lemma WeekOfSuccessor(n: int)
    ensures (n + 1) % 7 == (n % 7 + 1) % 7
  {
  }

  /** Inside one month, the weekday of day `d` is fixed by that of the first:
      the fact that makes a month's days fill a grid of weeks. */
  lemma {:induction false} WeekdayFromFirst(year: int, month: int, day: int)
    requires 1 <= month <= 12 && 1 <= day <= DaysInMonth(year, month)
    ensures Weekday(year, month, day) == (Weekday(year, month, 1) + day - 1) % 7
  {
    if day > 1 {
      WeekdayFromFirst(year, month, day - 1);
      WeekdayNext(year, month, day - 1);
      WeekOfSuccessor(Weekday(year, month, 1) + day - 2);
    }
  }

  /** February has 29 days exactly in leap years, and the month lengths
      add up to the length of the year. */
  lemma MonthLengths(year: int)
    ensures DaysInMonth(year, 2) == 29 <==> IsLeapYear(year)
    ensures DaysInMonth(year, 1) + DaysInMonth(year, 2) + DaysInMonth(year, 3)
          + DaysInMonth(year, 4) + DaysInMonth(year, 5) + DaysInMonth(year, 6)
          + DaysInMonth(year, 7) + DaysInMonth(year, 8) + DaysInMonth(year, 9)
          + DaysInMonth(year, 10) + DaysInMonth(year, 11) + DaysInMonth(year, 12)
          == DaysInYear(year)
  {
  }

  /** Anchors of the day count: 2024 is a leap year, 1900 is not, 2000 is;
      2024-01-01 was a Monday, 2024-02-01 a Thursday, 2023-02-01 a Wednesday,
      2023-02-28 a Tuesday. */
  lemma KnownDates()
    ensures DaysInMonth(2024, 2) == 29 && DaysInMonth(2023, 2) == 28
    ensures !IsLeapYear(1900) && IsLeapYear(2000)
    ensures Weekday(2024, 1, 1) == Monday
    ensures Weekday(2024, 2, 1) == Thursday
    ensures Weekday(2023, 2, 1) == Wednesday
    ensures Weekday(2023, 2, 28) == Tuesday
  {
  }
}
