/**
  Proleptic Gregorian calendar and naive timestamps.

  A timestamp is a whole number of seconds since 1970-01-01 00:00:00, with no
  time zone (the pipeline's timestamps are timezone-naive). Dates follow the
  range of Python's `date`: years 1 to 9999.
*/
module Calendar {

  import Arith

  const SecondsPerHour := 3600
  const SecondsPerDay := 86400

  /** Days from 0001-01-01 to 1970-01-01. */
  const EpochDays := 719162

  /** The six fields written in a `DD/MM/YYYY HH:MM:SS` value. */
  datatype DateTime = DateTime(year: int, month: int, day: int, hour: int, minute: int, second: int)

  predicate IsLeapYear(y: int) {
    y % 4 == 0 && (y % 100 != 0 || y % 400 == 0)
  }

  function YearLength(y: int): (n: int)
    ensures n == 365 || n == 366
    ensures n == 366 <==> IsLeapYear(y)
  {
    if IsLeapYear(y) then 366 else 365
  }

  function DaysInMonth(y: int, m: int): (n: int)
    requires 1 <= m <= 12
    ensures 28 <= n <= 31
    ensures n == 29 <==> m == 2 && IsLeapYear(y)
  {
    if m == 2 then (if IsLeapYear(y) then 29 else 28)
    else if m == 4 || m == 6 || m == 9 || m == 11 then 30
    else 31
  }

  predicate ValidDate(y: int, m: int, d: int) {
    1 <= y <= 9999 && 1 <= m <= 12 && 1 <= d <= DaysInMonth(y, m)
  }

  predicate ValidTime(h: int, mi: int, s: int) {
    0 <= h < 24 && 0 <= mi < 60 && 0 <= s < 60
  }

  /** A calendar date that exists and a time of day on a 24-hour clock. */
  predicate Valid(dt: DateTime) {
    ValidDate(dt.year, dt.month, dt.day) && ValidTime(dt.hour, dt.minute, dt.second)
  }

  /** Leap years among 1 .. y-1. */
  function LeapYearsBefore(y: int): int
    requires y >= 1
  {
    (y - 1) / 4 - (y - 1) / 100 + (y - 1) / 400
  }

  /** Days from 0001-01-01 to the first of January of year y. */
  function DaysBeforeYear(y: int): int
    requires y >= 1
  {
    365 * (y - 1) + LeapYearsBefore(y)
  }

  /** Days from the first of January to the first day of month m of year y. */
  function DaysBeforeMonth(y: int, m: int): int
    requires 1 <= m <= 12
  {
    var leap := if IsLeapYear(y) then 1 else 0;
    if m == 1 then 0
    else if m == 2 then 31
    else if m == 3 then 59 + leap
    else if m == 4 then 90 + leap
    else if m == 5 then 120 + leap
    else if m == 6 then 151 + leap
    else if m == 7 then 181 + leap
    else if m == 8 then 212 + leap
    else if m == 9 then 243 + leap
    else if m == 10 then 273 + leap
    else if m == 11 then 304 + leap
    else 334 + leap
  }

  /** Days from 1970-01-01 to the given date (negative before it). */
  function DaysFromCivil(y: int, m: int, d: int): (n: int)
    requires ValidDate(y, m, d)
    ensures DaysBeforeYear(y) - EpochDays <= n < DaysBeforeYear(y) + YearLength(y) - EpochDays
  {
    DayOfYearBounds(y, m, d);
    DaysBeforeYear(y) + DaysBeforeMonth(y, m) + d - 1 - EpochDays
  }

  /**
    The linear seconds count of a valid date and time: whole days since
    1970-01-01, then the seconds elapsed on the clock that day.
  */
  function ToSeconds(dt: DateTime): (t: int)
    requires Valid(dt)
    ensures t / SecondsPerDay == DaysFromCivil(dt.year, dt.month, dt.day)
    ensures t % SecondsPerDay == dt.hour * SecondsPerHour + dt.minute * 60 + dt.second
  {
    var days := DaysFromCivil(dt.year, dt.month, dt.day);
    var tod := dt.hour * SecondsPerHour + dt.minute * 60 + dt.second;
    Arith.DivMod(days * SecondsPerDay + tod, SecondsPerDay, days, tod);
    days * SecondsPerDay + tod
  }

  /** Clock fields of a timestamp. */
  function HourOfDay(t: int): (h: int)
    ensures 0 <= h < 24
  {
    (t % SecondsPerDay) / SecondsPerHour
  }

  function MinuteOfHour(t: int): (mi: int)
    ensures 0 <= mi < 60
  {
    (t % SecondsPerHour) / 60
  }

  function SecondOfMinute(t: int): (s: int)
    ensures 0 <= s < 60
  {
    t % 60
  }

  /** Chronological order on the written fields: year, then month, day, hour, minute, second. */
  predicate Before(a: DateTime, b: DateTime) {
    if a.year != b.year then a.year < b.year
    else if a.month != b.month then a.month < b.month
    else if a.day != b.day then a.day < b.day
    else if a.hour != b.hour then a.hour < b.hour
    else if a.minute != b.minute then a.minute < b.minute
    else a.second < b.second
  }

  lemma EpochDaysValue()
    ensures DaysBeforeYear(1970) == EpochDays
  {
  }

  lemma YearStep(y: int)
    requires y >= 1
    ensures DaysBeforeYear(y + 1) == DaysBeforeYear(y) + YearLength(y)
  {
    Arith.QuotientStep(y, 4);
    Arith.QuotientStep(y, 100);
    Arith.QuotientStep(y, 400);
    if y % 100 == 0 {
      Arith.DivMod(y, 4, (y / 100) * 25, 0);
    }
    if y % 400 == 0 {
      Arith.DivMod(y, 100, (y / 400) * 4, 0);
    }
  }

  lemma MonthStep(y: int, m: int)
    requires 1 <= m < 12
    ensures DaysBeforeMonth(y, m + 1) == DaysBeforeMonth(y, m) + DaysInMonth(y, m)
  {
  }

  /** Every day of the year lies within the year's length. */
  lemma DayOfYearBounds(y: int, m: int, d: int)
    requires ValidDate(y, m, d)
    ensures 0 <= DaysBeforeMonth(y, m) + d - 1 < YearLength(y)
  {
  }

  lemma {:induction false} YearsOrdered(y1: int, y2: int)
    requires 1 <= y1 < y2
    ensures DaysBeforeYear(y1) + YearLength(y1) <= DaysBeforeYear(y2)
    decreases y2 - y1
  {
    YearStep(y1);
    if y1 + 1 < y2 {
      YearsOrdered(y1 + 1, y2);
    }
  }

  lemma {:induction false} MonthsOrdered(y: int, m1: int, m2: int)
    requires 1 <= m1 < m2 <= 12
    ensures DaysBeforeMonth(y, m1) + DaysInMonth(y, m1) <= DaysBeforeMonth(y, m2)
    decreases m2 - m1
  {
    MonthStep(y, m1);
    if m1 + 1 < m2 {
      MonthsOrdered(y, m1 + 1, m2);
    }
  }

  /** An earlier date has fewer days since the epoch. */
  lemma DaysOrdered(a: DateTime, b: DateTime)
    requires ValidDate(a.year, a.month, a.day) && ValidDate(b.year, b.month, b.day)
    requires a.year < b.year || (a.year == b.year && (a.month < b.month || (a.month == b.month && a.day < b.day)))
    ensures DaysFromCivil(a.year, a.month, a.day) < DaysFromCivil(b.year, b.month, b.day)
  {
    DayOfYearBounds(a.year, a.month, a.day);
    DayOfYearBounds(b.year, b.month, b.day);
    if a.year < b.year {
      YearsOrdered(a.year, b.year);
    } else if a.month < b.month {
      MonthsOrdered(a.year, a.month, b.month);
    }
  }

  /**
    The seconds count preserves chronological order in both directions, so
    sorting or comparing timestamps is sorting or comparing the written dates.
  */
  lemma ToSecondsOrdered(a: DateTime, b: DateTime)
    requires Valid(a) && Valid(b)
    ensures Before(a, b) <==> ToSeconds(a) < ToSeconds(b)
    ensures a == b <==> ToSeconds(a) == ToSeconds(b)
  {
    var da := DaysFromCivil(a.year, a.month, a.day);
    var db := DaysFromCivil(b.year, b.month, b.day);
    var sameDay := a.year == b.year && a.month == b.month && a.day == b.day;
    if !sameDay {
      if Before(a, b) {
        DaysOrdered(a, b);
        assert ToSeconds(a) < da * SecondsPerDay + SecondsPerDay <= db * SecondsPerDay <= ToSeconds(b);
      } else {
        DaysOrdered(b, a);
        assert ToSeconds(b) < db * SecondsPerDay + SecondsPerDay <= da * SecondsPerDay <= ToSeconds(a);
      }
    }
  }

  /** The clock fields read back from the seconds count are the written ones. */
  lemma ClockFields(dt: DateTime)
    requires Valid(dt)
    ensures HourOfDay(ToSeconds(dt)) == dt.hour
    ensures MinuteOfHour(ToSeconds(dt)) == dt.minute
    ensures SecondOfMinute(ToSeconds(dt)) == dt.second
  {
    var days := DaysFromCivil(dt.year, dt.month, dt.day);
    var t := ToSeconds(dt);
    Arith.DivMod(t % SecondsPerDay, SecondsPerHour, dt.hour, dt.minute * 60 + dt.second);
    Arith.DivMod(t, SecondsPerHour, days * 24 + dt.hour, dt.minute * 60 + dt.second);
    Arith.DivMod(t % SecondsPerHour, 60, dt.minute, dt.second);
    Arith.DivMod(t, 60, days * 1440 + dt.hour * 60 + dt.minute, dt.second);
  }
}
