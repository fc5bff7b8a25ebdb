/**
 * The date arithmetic behind `new Date(year, month, day)`: ECMAScript's
 * MakeDay (month overflow carried into the year, a proleptic Gregorian
 * calendar counted in days from 1 January 1970), the rule that maps the years
 * 0 to 99 to 1900 to 1999, and TimeClip, which turns a time value more than
 * 8.64e15 ms (100 000 000 days) from the epoch into NaN. Local time is taken
 * to be UTC, so a date is a whole day number.
 */
module Calendar {
  import opened Wrappers

  /** A valid `Date` at local midnight: its day number counted from 1 January 1970. */
  datatype Date = Date(epochDay: int)

  /** No valid time value lies further than this many days from the epoch. */
  const MAX_EPOCH_DAY := 100000000

  predicate IsLeapYear(y: int) {
    y % 4 == 0 && (y % 100 != 0 || y % 400 == 0)
  }

  function DaysInYear(y: int): int {
    if IsLeapYear(y) then 366 else 365
  }

  /** ECMAScript DayFromYear: the day number of 1 January of year `y`. */
  function DayFromYear(y: int): int {
    365 * (y - 1970) + (y - 1969) / 4 - (y - 1901) / 100 + (y - 1601) / 400
  }

  /** The number of days in month `m` (0 = January) of year `y`. */
  function DaysInMonth(y: int, m: int): int
    requires 0 <= m < 12
  {
    if m == 1 then (if IsLeapYear(y) then 29 else 28)
    else if m == 3 || m == 5 || m == 8 || m == 10 then 30
    else 31
  }

  /** The days of year `y` before the first of month `m` (0 = January). */
  function DaysBeforeMonth(y: int, m: int): int
    requires 0 <= m < 12
  {
    [0, 31, 59, 90, 120, 151, 181, 212, 243, 273, 304, 334][m] + (if m >= 2 && IsLeapYear(y) then 1 else 0)
  }

  /** ECMAScript MakeDay: `m` may lie outside 0..11 and `d` outside the month; the excess rolls over. */
  function DayNumber(y: int, m: int, d: int): int {
    var ym, mn := y + m / 12, m % 12;
    DayFromYear(ym) + DaysBeforeMonth(ym, mn) + d - 1
  }

  /** `new Date(year, month, day)`, or None where the result is an invalid date. */
  function MakeDate(year: int, month: int, day: int): Option<Date> {
    var y := if 0 <= year <= 99 then 1900 + year else year;
    var n := DayNumber(y, month, day);
    if -MAX_EPOCH_DAY <= n <= MAX_EPOCH_DAY then Some(Date(n)) else None
  }

  /** A calendar date in the usual sense: a month 0..11 and a day that month has. */
  predicate ValidDate(y: int, m: int, d: int) {
    0 <= m < 12 && 1 <= d <= DaysInMonth(y, m)
  }

  /** (y1, m1, d1) comes strictly before (y2, m2, d2) on the calendar. */
  predicate Before(y1: int, m1: int, d1: int, y2: int, m2: int, d2: int) {
    y1 < y2 || (y1 == y2 && (m1 < m2 || (m1 == m2 && d1 < d2)))
  }

  /** Years 0 to 99 are read as 1900 to 1999. */
  lemma TwoDigitYears(year: int, month: int, day: int)
    requires 0 <= year <= 99
    ensures MakeDate(year, month, day) == MakeDate(1900 + year, month, day)
  {
  }

  /** 15 March 2023 is day 19431. */
  lemma Example()
    ensures MakeDate(2023, 2, 15) == Some(Date(19431))
  {
    assert (2023 - 1969) / 4 == 13 && (2023 - 1901) / 100 == 1 && (2023 - 1601) / 400 == 1;
    assert DayFromYear(2023) == 19358;
    assert 2 / 12 == 0 && 2 % 12 == 2 && !IsLeapYear(2023);
    assert DayNumber(2023, 2, 15) == 19358 + 59 + 14;
  }

  /** The count starts at 1 January 1970. */
  lemma Epoch()
    ensures DayNumber(1970, 0, 1) == 0
    ensures MakeDate(70, 0, 1) == Some(Date(0))
  {
  }

  /** The quarter-year term of DayFromYear grows by one from year `y` to `y + 1` exactly when 4 divides `y`. */
  lemma QuadrennialStep(y: int)
    ensures (y - 1968) / 4 == (y - 1969) / 4 + (if y % 4 == 0 then 1 else 0)
  {
    var q, r := y / 4, y % 4;
    assert y == 4 * q + r;
    if r == 0 {
      assert y - 1968 == 4 * (q - 492) && y - 1969 == 4 * (q - 493) + 3;
    } else {
      assert y - 1968 == 4 * (q - 492) + r && y - 1969 == 4 * (q - 492) + (r - 1);
    }
  }

  /** Likewise the century term, exactly when 100 divides `y`. */
  lemma CenturyStep(y: int)
    ensures (y - 1900) / 100 == (y - 1901) / 100 + (if y % 100 == 0 then 1 else 0)
  {
    var q, r := y / 100, y % 100;
    assert y == 100 * q + r;
    if r == 0 {
      assert y - 1900 == 100 * (q - 19) && y - 1901 == 100 * (q - 20) + 99;
    } else {
      assert y - 1900 == 100 * (q - 19) + r && y - 1901 == 100 * (q - 19) + (r - 1);
    }
  }

  /** Likewise the four-century term, exactly when 400 divides `y`. */
  lemma QuadricentennialStep(y: int)
    ensures (y - 1600) / 400 == (y - 1601) / 400 + (if y % 400 == 0 then 1 else 0)
  {
    var q, r := y / 400, y % 400;
    assert y == 400 * q + r;
    if r == 0 {
      assert y - 1600 == 400 * (q - 4) && y - 1601 == 400 * (q - 5) + 399;
    } else {
      assert y - 1600 == 400 * (q - 4) + r && y - 1601 == 400 * (q - 4) + (r - 1);
    }
  }

  /** The leap-year rule as a count: one day for each of 4 and 400 that divides `y`, one less if 100 does. */
  lemma LeapDays(y: int)
    ensures DaysInYear(y) == 365 + (if y % 4 == 0 then 1 else 0) - (if y % 100 == 0 then 1 else 0)
                                 + (if y % 400 == 0 then 1 else 0)
  {
    if y % 400 == 0 {
      var k := y / 400;
      assert y == 100 * (4 * k) && y == 4 * (100 * k);
    } else if y % 100 == 0 {
      var k := y / 100;
      assert y == 4 * (25 * k);
    }
  }

  /** A year has 366 days when it is a leap year and 365 otherwise: consecutive years leave no gap. */
  lemma {:induction false} NextYear(y: int)
    ensures DayFromYear(y + 1) == DayFromYear(y) + DaysInYear(y)
  {
    QuadrennialStep(y);
    CenturyStep(y);
    QuadricentennialStep(y);
    LeapDays(y);
    assert DayFromYear(y + 1) == 365 * (y - 1969) + (y - 1968) / 4 - (y - 1900) / 100 + (y - 1600) / 400;
  }

  lemma {:induction false} DaysBeforeYearEnd(y: int)
    ensures DaysBeforeMonth(y, 11) + DaysInMonth(y, 11) == DaysInYear(y)
  {
  }

  /** The day after the last of a month is the first of the next month, across the year end too. */
  lemma MonthRollover(y: int, m: int)
    requires 0 <= m < 12
    ensures DayNumber(y, m, DaysInMonth(y, m) + 1) == DayNumber(y, m + 1, 1)
  {
    assert m / 12 == 0 && m % 12 == m;
    if m == 11 {
      assert (m + 1) / 12 == 1 && (m + 1) % 12 == 0;
      NextYear(y);
      DaysBeforeYearEnd(y);
    } else {
      assert (m + 1) / 12 == 0 && (m + 1) % 12 == m + 1;
    }
  }

  /** Twelve months more is one year more. */
  lemma TwelveMonths(y: int, m: int, d: int)
    ensures DayNumber(y, m + 12, d) == DayNumber(y + 1, m, d)
  {
    assert (m + 12) / 12 == m / 12 + 1;
    assert (m + 12) % 12 == m % 12;
  }

  /** The months before month `m` and month `m` itself fit in the year, and in the months before any later one. */
  lemma MonthsFit(y: int, m1: int, m2: int)
    requires 0 <= m1 < m2 < 12
    ensures DaysBeforeMonth(y, m1) + DaysInMonth(y, m1) <= DaysBeforeMonth(y, m2)
  {
  }

  /** A valid date lies inside its year. */
  lemma WithinYear(y: int, m: int, d: int)
    requires ValidDate(y, m, d)
    ensures DayFromYear(y) <= DayNumber(y, m, d) < DayFromYear(y) + DaysInYear(y)
  {
    assert m / 12 == 0 && m % 12 == m;
    if m < 11 {
      MonthsFit(y, m, 11);
    }
    DaysBeforeYearEnd(y);
  }

  /** Every year after `y1` starts after the whole of year `y1`. */
  lemma {:induction false} LaterYear(y1: int, y2: int)
    requires y1 < y2
    ensures DayFromYear(y1) + DaysInYear(y1) <= DayFromYear(y2)
    decreases y2 - y1
  {
    NextYear(y1);
    if y1 + 1 < y2 {
      LaterYear(y1 + 1, y2);
    }
  }

  /** The day number of valid dates follows the calendar: an earlier date has a smaller number. */
  lemma Chronological(y1: int, m1: int, d1: int, y2: int, m2: int, d2: int)
    requires ValidDate(y1, m1, d1) && ValidDate(y2, m2, d2)
    requires Before(y1, m1, d1, y2, m2, d2)
    ensures DayNumber(y1, m1, d1) < DayNumber(y2, m2, d2)
  {
    WithinYear(y1, m1, d1);
    WithinYear(y2, m2, d2);
    if y1 < y2 {
      LaterYear(y1, y2);
    } else {
      assert m1 / 12 == 0 && m1 % 12 == m1 && m2 / 12 == 0 && m2 % 12 == m2;
      if m1 < m2 {
        MonthsFit(y1, m1, m2);
      }
    }
  }

  /** Years within 200 000 of the epoch year (outside 0..99) make a valid date out of every calendar date. */
  lemma MakeDateDefined(y: int, m: int, d: int)
    requires ValidDate(y, m, d) && -198000 <= y <= 202000 && !(0 <= y <= 99)
    ensures MakeDate(y, m, d).Some? && MakeDate(y, m, d).value.epochDay == DayNumber(y, m, d)
  {
    WithinYear(y, m, d);
    var a, b, c := (y - 1969) / 4, (y - 1901) / 100, (y - 1601) / 400;
    assert y - 1969 - 3 <= 4 * a <= y - 1969;
    assert y - 1901 - 99 <= 100 * b <= y - 1901;
    assert y - 1601 - 399 <= 400 * c <= y - 1601;
  }

  /** Within that range, `new Date` puts earlier calendar dates at earlier times. */
  lemma MakeDateChronological(y1: int, m1: int, d1: int, y2: int, m2: int, d2: int)
    requires ValidDate(y1, m1, d1) && -198000 <= y1 <= 202000 && !(0 <= y1 <= 99)
    requires ValidDate(y2, m2, d2) && -198000 <= y2 <= 202000 && !(0 <= y2 <= 99)
    requires Before(y1, m1, d1, y2, m2, d2)
    ensures MakeDate(y1, m1, d1).Some? && MakeDate(y2, m2, d2).Some?
    ensures MakeDate(y1, m1, d1).value.epochDay < MakeDate(y2, m2, d2).value.epochDay
  {
    MakeDateDefined(y1, m1, d1);
    MakeDateDefined(y2, m2, d2);
    Chronological(y1, m1, d1, y2, m2, d2);
  }
}
