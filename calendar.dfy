/**
 * `get_match_date_from_timestamp`: a UTC epoch time in milliseconds printed
 * as `HH:MM` and `DD-MM-YYYY` in the proleptic Gregorian calendar, or
 * "Not Found" twice where `datetime` refuses the year (outside 1..9999).
 */
module Calendar {
  import opened PyStrings
  import opened ClockText
  import opened MatchData

  predicate IsLeapYear(y: int) {
    y % 4 == 0 && (y % 100 != 0 || y % 400 == 0)
  }

  /** The length of a year, leap or common. */
  function YearLength(leap: bool): int {
    if leap then 366 else 365
  }

  function DaysInYear(y: int): int {
    YearLength(IsLeapYear(y))
  }

  /** The length of month `m` (1-12) of a leap or a common year. */
  function MonthLength(leap: bool, m: int): int
    requires 1 <= m <= 12
  {
    if m == 2 then (if leap then 29 else 28)
    else if m == 4 || m == 6 || m == 9 || m == 11 then 30
    else 31
  }

  function DaysInMonth(y: int, m: int): int
    requires 1 <= m <= 12
  {
    MonthLength(IsLeapYear(y), m)
  }

  /** A calendar date: `1 <= month <= 12`, `1 <= day <= DaysInMonth`. */
  datatype Date = Date(year: int, month: int, day: int)

  predicate IsValidDate(d: Date) {
    1 <= d.month <= 12 && 1 <= d.day <= DaysInMonth(d.year, d.month)
  }

  /** The days of a leap or common year before the first of month `m` (`m`
      up to 13). */
  function DaysBeforeMonth(leap: bool, m: int): int
    requires 1 <= m <= 13
    decreases m
  {
    if m == 1 then 0 else DaysBeforeMonth(leap, m - 1) + MonthLength(leap, m - 1)
  }

  /** The twelve months fill the year. */
  lemma MonthsFillYear(leap: bool)
    ensures DaysBeforeMonth(leap, 13) == YearLength(leap)
  {
    assert DaysBeforeMonth(leap, 2) == 31;
    assert DaysBeforeMonth(leap, 3) == 31 + MonthLength(leap, 2);
    assert DaysBeforeMonth(leap, 4) == 62 + MonthLength(leap, 2);
    assert DaysBeforeMonth(leap, 5) == 92 + MonthLength(leap, 2);
    assert DaysBeforeMonth(leap, 6) == 123 + MonthLength(leap, 2);
    assert DaysBeforeMonth(leap, 7) == 153 + MonthLength(leap, 2);
    assert DaysBeforeMonth(leap, 8) == 184 + MonthLength(leap, 2);
    assert DaysBeforeMonth(leap, 9) == 215 + MonthLength(leap, 2);
    assert DaysBeforeMonth(leap, 10) == 245 + MonthLength(leap, 2);
    assert DaysBeforeMonth(leap, 11) == 276 + MonthLength(leap, 2);
    assert DaysBeforeMonth(leap, 12) == 306 + MonthLength(leap, 2);
  }

  lemma {:induction false} MonthsBefore(leap: bool, m: int, m': int)
    requires 1 <= m <= m' <= 13
    ensures DaysBeforeMonth(leap, m) <= DaysBeforeMonth(leap, m')
    decreases m' - m
  {
    if m < m' {
      MonthsBefore(leap, m, m' - 1);
    }
  }

  /** The month and day of the month of day `d` (from the first of month
      `m`) of a leap or common year, found one month at a time. */
  function MonthAndDay(leap: bool, m: int, d: int): (r: (int, int))
    requires 1 <= m <= 12 && 0 <= d < YearLength(leap) - DaysBeforeMonth(leap, m)
    ensures m <= r.0 <= 12 && 1 <= r.1 <= MonthLength(leap, r.0)
    decreases 12 - m
  {
    if d < MonthLength(leap, m) then (m, d + 1)
    else
      MonthsFillYear(leap);
      MonthAndDay(leap, m + 1, d - MonthLength(leap, m))
  }

  lemma {:induction false} MonthAndDayCounts(leap: bool, m: int, d: int)
    requires 1 <= m <= 12 && 0 <= d < YearLength(leap) - DaysBeforeMonth(leap, m)
    ensures DaysBeforeMonth(leap, MonthAndDay(leap, m, d).0) + MonthAndDay(leap, m, d).1 - 1 == DaysBeforeMonth(leap, m) + d
    decreases 12 - m
  {
    if d >= MonthLength(leap, m) {
      MonthsFillYear(leap);
      MonthAndDayCounts(leap, m + 1, d - MonthLength(leap, m));
    }
  }

  /** The days from 1 January 1970 to 1 January of `y` (negative before 1970). */
  function YearStart(y: int): int
    decreases if y >= 1970 then y - 1970 else 1970 - y
  {
    if y == 1970 then 0
    else if y > 1970 then YearStart(y - 1) + DaysInYear(y - 1)
    else YearStart(y + 1) - DaysInYear(y)
  }

  lemma YearStartStep(y: int)
    ensures YearStart(y + 1) == YearStart(y) + DaysInYear(y)
  {
  }

  /** The day number of a date: days since 1 January 1970. */
  function DayNumber(d: Date): int
    requires IsValidDate(d)
  {
    YearStart(d.year) + DaysBeforeMonth(IsLeapYear(d.year), d.month) + d.day - 1
  }

  /** The year and the day of that year (from 0) of the day `z` days after
      1 January of `y`, found one year at a time. */
  function YearAndDay(y: int, z: int): (r: (int, int))
    ensures 0 <= r.1 < DaysInYear(r.0)
    decreases if z < 0 then 400 - z else z
  {
    if z < 0 then YearAndDay(y - 1, z + DaysInYear(y - 1))
    else if z >= DaysInYear(y) then YearAndDay(y + 1, z - DaysInYear(y))
    else (y, z)
  }

  /** The date `z` days after 1 January 1970 (`z` may be negative). */
  function DateOfDay(z: int): (d: Date)
    ensures IsValidDate(d)
  {
    var yd := YearAndDay(1970, z);
    var md := MonthAndDay(IsLeapYear(yd.0), 1, yd.1);
    Date(yd.0, md.0, md.1)
  }

  lemma {:induction false} YearAndDayCounts(y: int, z: int)
    ensures YearStart(YearAndDay(y, z).0) + YearAndDay(y, z).1 == YearStart(y) + z
    decreases if z < 0 then 400 - z else z
  {
    if z < 0 {
      YearAndDayCounts(y - 1, z + DaysInYear(y - 1));
      YearStartStep(y - 1);
    } else if z >= DaysInYear(y) {
      YearAndDayCounts(y + 1, z - DaysInYear(y));
      YearStartStep(y);
    }
  }

  /** Counting forward from 1 January of `y` never lands before `y`. */
  lemma {:induction false} YearAndDayForward(y: int, z: int)
    requires z >= 0
    ensures YearAndDay(y, z).0 >= y
    decreases z
  {
    if z >= DaysInYear(y) {
      YearAndDayForward(y + 1, z - DaysInYear(y));
    }
  }

  /** Days from the epoch on fall in 1970 or later. */
  lemma DateOfDayFromEpoch(z: int)
    requires z >= 0
    ensures DateOfDay(z).year >= 1970
  {
    YearAndDayForward(1970, z);
  }

  /** Day number to date and back gives the day number. */
  lemma DayNumberOfDateOfDay(z: int)
    ensures DayNumber(DateOfDay(z)) == z
  {
    var yd := YearAndDay(1970, z);
    YearAndDayCounts(1970, z);
    MonthAndDayCounts(IsLeapYear(yd.0), 1, yd.1);
  }

  /** Years after `y` start at least a year of days after it; years before
      it end at or before its start. */
  lemma {:induction false} YearStartGrows(y: int, y': int)
    ensures y < y' ==> YearStart(y) + DaysInYear(y) <= YearStart(y')
    ensures y' < y ==> YearStart(y') + DaysInYear(y') <= YearStart(y)
    decreases if y <= y' then y' - y else y - y'
  {
    if y < y' {
      YearStartStep(y);
      if y + 1 < y' {
        YearStartGrows(y + 1, y');
      }
    } else if y' < y {
      YearStartStep(y');
      if y' + 1 < y {
        YearStartGrows(y' + 1, y);
      }
    }
  }

  /** A later month of the same year, or a later day of the same month,
      has a larger day-of-year. */
  lemma MonthDayOrder(leap: bool, m1: int, day1: int, m2: int, day2: int)
    requires 1 <= m1 <= 12 && 1 <= day1 <= MonthLength(leap, m1)
    requires 1 <= m2 <= 12 && 1 <= day2 <= MonthLength(leap, m2)
    ensures m1 < m2 ==> DaysBeforeMonth(leap, m1) + day1 < DaysBeforeMonth(leap, m2) + day2
  {
    if m1 < m2 {
      assert DaysBeforeMonth(leap, m1 + 1) == DaysBeforeMonth(leap, m1) + MonthLength(leap, m1);
      MonthsBefore(leap, m1 + 1, m2);
    }
  }

  /** The day-of-year of a valid month and day lies within the year. */
  lemma DayOfYearInYear(leap: bool, m: int, day: int)
    requires 1 <= m <= 12 && 1 <= day <= MonthLength(leap, m)
    ensures 0 <= DaysBeforeMonth(leap, m) + day - 1 < YearLength(leap)
  {
    MonthsFillYear(leap);
    assert DaysBeforeMonth(leap, m + 1) == DaysBeforeMonth(leap, m) + MonthLength(leap, m);
    MonthsBefore(leap, m + 1, 13);
    MonthsBefore(leap, 1, m);
  }

  /** Two days counted from the starts of their years meet only within one year. */
  lemma YearOfDayUnique(y1: int, doy1: int, y2: int, doy2: int)
    requires 0 <= doy1 < DaysInYear(y1) && 0 <= doy2 < DaysInYear(y2)
    requires YearStart(y1) + doy1 == YearStart(y2) + doy2
    ensures y1 == y2 && doy1 == doy2
  {
    YearStartGrows(y1, y2);
  }

  /** Distinct dates have distinct day numbers. */
  lemma DayNumberInjective(d1: Date, d2: Date)
    requires IsValidDate(d1) && IsValidDate(d2) && DayNumber(d1) == DayNumber(d2)
    ensures d1 == d2
  {
    var leap1, leap2 := IsLeapYear(d1.year), IsLeapYear(d2.year);
    DayOfYearInYear(leap1, d1.month, d1.day);
    DayOfYearInYear(leap2, d2.month, d2.day);
    YearOfDayUnique(d1.year, DaysBeforeMonth(leap1, d1.month) + d1.day - 1, d2.year, DaysBeforeMonth(leap2, d2.month) + d2.day - 1);
    MonthDayOrder(leap1, d1.month, d1.day, d2.month, d2.day);
    MonthDayOrder(leap1, d2.month, d2.day, d1.month, d1.day);
  }

  /** Date to day number and back gives the date. */
  lemma DateOfDayNumber(d: Date)
    requires IsValidDate(d)
    ensures DateOfDay(DayNumber(d)) == d
  {
    DayNumberOfDateOfDay(DayNumber(d));
    DayNumberInjective(DateOfDay(DayNumber(d)), d);
  }

  /** `DD-MM-YYYY`. */
  function DateString(d: Date): (r: string)
    requires 1 <= d.day <= 31 && 1 <= d.month <= 12 && 1 <= d.year <= 9999
    ensures |r| == 10 && r[2] == '-' && r[5] == '-'
  {
    Pad2(d.day) + "-" + Pad2(d.month) + "-" + Pad4(d.year)
  }

  /** The hour and minute of the `s`-th second of a day. */
  function ClockOfSecond(s: int): (r: (int, int))
    requires 0 <= s < 86400
    ensures IsClock(r.0, r.1)
    ensures r.0 * 3600 + r.1 * 60 <= s < r.0 * 3600 + r.1 * 60 + 60
  {
    (s / 3600, s % 3600 / 60)
  }

  /** `get_match_date_from_timestamp`: `(time, date)` of the UTC instant
      `timestampMs` milliseconds after the epoch, seconds rounded down;
      ("Not Found", "Not Found") where the year is not in 1..9999. */
  function MatchDateFromTimestamp(timestampMs: int): (string, string) {
    var seconds := timestampMs / 1000;
    var date := DateOfDay(seconds / 86400);
    var clock := ClockOfSecond(seconds % 86400);
    if 1 <= date.year <= 9999 then (ClockString(clock.0, clock.1), DateString(date))
    else (NotFound, NotFound)
  }

  /** The year `datetime` would use for the timestamp. */
  function TimestampYear(timestampMs: int): int {
    DateOfDay(timestampMs / 1000 / 86400).year
  }

  /** A timestamp in range prints as the date and the clock time it lies
      in: the milliseconds are the day number of the printed date, the
      printed hour and minute, and a remainder below one minute. */
  lemma TimestampFields(timestampMs: int) returns (d: Date, hour: int, minute: int, rest: int)
    requires 1 <= TimestampYear(timestampMs) <= 9999
    ensures IsValidDate(d) && 1 <= d.year <= 9999 && IsClock(hour, minute) && 0 <= rest < 60000
    ensures MatchDateFromTimestamp(timestampMs) == (ClockString(hour, minute), DateString(d))
    ensures timestampMs == DayNumber(d) * 86400000 + hour * 3600000 + minute * 60000 + rest
  {
    var seconds := timestampMs / 1000;
    var days := seconds / 86400;
    var secondOfDay := seconds % 86400;
    d := DateOfDay(days);
    var clock := ClockOfSecond(secondOfDay);
    hour, minute := clock.0, clock.1;
    DayNumberOfDateOfDay(days);
    assert seconds == days * 86400 + secondOfDay;
    assert timestampMs == seconds * 1000 + timestampMs % 1000;
    rest := (secondOfDay - hour * 3600 - minute * 60) * 1000 + timestampMs % 1000;
  }

  /** Out of range, both fields are "Not Found". */
  lemma TimestampOutOfRange(timestampMs: int)
    requires !(1 <= TimestampYear(timestampMs) <= 9999)
    ensures MatchDateFromTimestamp(timestampMs) == (NotFound, NotFound)
  {
  }

  /** The epoch is 1 January 1970. */
  lemma EpochDay()
    ensures DateOfDay(0) == Date(1970, 1, 1)
  {
    assert DayNumber(Date(1970, 1, 1)) == 0;
    DateOfDayNumber(Date(1970, 1, 1));
  }
}
