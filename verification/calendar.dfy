/**
 * Calendar days as ordinal numbers of the proleptic Gregorian calendar.
 *
 * The scheduler formats every date as a `yyyy-MM-dd` string and compares those
 * strings for equality; two such strings are equal exactly when they name the
 * same calendar day, so a day is represented here by its ordinal number
 * (1 is 1 January of year 1).
 */
module Calendar {

  /** Ordinal number of a calendar day; 1 is 0001-01-01. */
  type Day = int

  /** A month number, 1 (January) to 12 (December). */
  type Month = m: int | 1 <= m <= 12 witness 1

  predicate IsLeapYear(year: int) {
    year % 4 == 0 && (year % 100 != 0 || year % 400 == 0)
  }

  /** Number of days of a month (1-based), in the Gregorian calendar. */
  function DaysInMonth(year: int, month: Month): (n: int)
    ensures 28 <= n <= 31
    ensures n == 31 <==> month in {1, 3, 5, 7, 8, 10, 12}
    ensures n == 29 <==> month == 2 && IsLeapYear(year)
    ensures n == 28 <==> month == 2 && !IsLeapYear(year)
  {
    if month == 2 then (if IsLeapYear(year) then 29 else 28)
    else if month in {4, 6, 9, 11} then 30
    else 31
  }

  function DaysInYear(year: int): int {
    if IsLeapYear(year) then 366 else 365
  }

  /** Days in the years before `year` (counted from year 1). */
  function DaysBeforeYear(year: int): int {
    var y := year - 1;
    365 * y + y / 4 - y / 100 + y / 400
  }

  /** Days in the months of `year` before `month`. */
  function DaysBeforeMonth(year: int, month: Month): int
  {
    var common := [0, 31, 59, 90, 120, 151, 181, 212, 243, 273, 304, 334][month - 1];
    if month > 2 && IsLeapYear(year) then common + 1 else common
  }

  /**
   * The day `day` of `month` in `year`. Like the JavaScript `Date` constructor,
   * a day number outside the month counts on from (or back before) its first day.
   */
  function DayOf(year: int, month: Month, day: int): Day
  {
    DaysBeforeYear(year) + DaysBeforeMonth(year, month) + day
  }

  /** 0 is Monday, ..., 6 is Sunday (0001-01-01 was a Monday). */
  function WeekdayIndex(d: Day): (w: int)
    ensures 0 <= w < 7
  {
    (d + 6) % 7
  }

  /** The three-letter weekday label that a date is rendered with. */
  function WeekdayLabel(d: Day): string {
    ["Mon", "Tue", "Wed", "Thu", "Fri", "Sat", "Sun"][WeekdayIndex(d)]
  }

  lemma YearLength(year: int)
    ensures DaysBeforeYear(year + 1) == DaysBeforeYear(year) + DaysInYear(year)
  {
    var y := year - 1;
    assert (y + 1) / 4 == y / 4 + (if (y + 1) % 4 == 0 then 1 else 0);
    assert (y + 1) / 100 == y / 100 + (if (y + 1) % 100 == 0 then 1 else 0);
    assert (y + 1) / 400 == y / 400 + (if (y + 1) % 400 == 0 then 1 else 0);
  }

  /**
   * The day after the last day of a month is the first day of the next month:
   * the days of consecutive months are consecutive ordinals, with no gap and no overlap.
   */
  lemma NextMonthFollows(year: int, month: Month)
    ensures month < 12 ==> DayOf(year, month, DaysInMonth(year, month)) + 1 == DayOf(year, month + 1, 1)
    ensures month == 12 ==> DayOf(year, month, DaysInMonth(year, month)) + 1 == DayOf(year + 1, 1, 1)
  {
    if month == 12 {
      YearLength(year);
    }
  }
}
