/** The day arithmetic of JavaScript's `Date`, in local time and at day
    granularity: day numbers count from 1970-01-01 as in section 21.4.1 of
    ECMA-262, months are zero-based, and month lengths follow the Gregorian
    rules of section 5.7 of RFC 3339. */
module JsDate {

  /** Gregorian leap years (RFC 3339, section 5.7 and appendix C). */
  predicate IsLeapYear(y: int) {
    y % 4 == 0 && (y % 100 != 0 || y % 400 == 0)
  }

  /** Number of days in zero-based month `m` of year `y`, the table of
      section 5.7 of RFC 3339. */
  function DaysInMonth(y: int, m: int): (n: nat)
    requires 0 <= m < 12
    ensures 28 <= n <= 31
    ensures n == 29 <==> m == 1 && IsLeapYear(y)
    ensures n == 28 <==> m == 1 && !IsLeapYear(y)
    ensures n == 30 <==> m in {3, 5, 8, 10}
    ensures n == 31 <==> m in {0, 2, 4, 6, 7, 9, 11}
  {
    if m == 1 then (if IsLeapYear(y) then 29 else 28)
    else if m in {3, 5, 8, 10} then 30
    else 31
  }

  /** Day number of January 1st of year `y` (`DayFromYear`, ECMA-262 21.4.1.3). */
  function DayFromYear(y: int): int {
    365 * (y - 1970) + (y - 1969) / 4 - (y - 1901) / 100 + (y - 1601) / 400
  }

  /** Days of year `y` before the first of zero-based month `m`. */
  function MonthStart(y: int, m: int): (n: nat)
    requires 0 <= m <= 12
    ensures m < 12 ==> n + DaysInMonth(y, m) == MonthStart(y, m + 1)
    decreases 12 - m
  {
    if m == 12 then (if IsLeapYear(y) then 366 else 365)
    else MonthStart(y, m + 1) - DaysInMonth(y, m)
  }

  /** The first of each month falls where the cumulative table says. */
  lemma MonthStartZero(y: int)
    ensures MonthStart(y, 0) == 0
  {
    assert MonthStart(y, 11) == (if IsLeapYear(y) then 335 else 334);
    assert MonthStart(y, 6) == (if IsLeapYear(y) then 182 else 181);
    assert MonthStart(y, 2) == (if IsLeapYear(y) then 60 else 59);
  }

  /** `MakeDay(year, month, date)` of ECMA-262 21.4.1.28 for integral
      arguments: the month may overflow into other years and the date into
      other months; the day number of `new Date(year, month, date)`. */
  function MakeDay(y: int, m: int, d: int): int {
    var ym := y + m / 12;
    var mn := m % 12;
    DayFromYear(ym) + MonthStart(ym, mn) + d - 1
  }

  /** Within the year: an in-range month does not carry into the year. */
  lemma MakeDayInYear(y: int, m: int, d: int)
    requires 0 <= m < 12
    ensures MakeDay(y, m, d) == DayFromYear(y) + MonthStart(y, m) + d - 1
  {
    assert m / 12 == 0 && m % 12 == m;
  }

  /** Month 12 is January of the next year. */
  lemma MakeDayCarry(y: int, d: int)
    ensures MakeDay(y, 12, d) == DayFromYear(y + 1) + d - 1
  {
    assert 12 / 12 == 1 && 12 % 12 == 0;
    MonthStartZero(y + 1);
  }

  /** `getDay()`: 0 is Sunday (ECMA-262 21.4.1.7; day 0 was a Thursday). */
  function WeekDay(t: int): (w: nat)
    ensures w < 7
  {
    (t + 4) % 7
  }

  /** A year has 365 days, 366 when it is a leap year. */
  lemma YearLength(y: int)
    ensures DayFromYear(y + 1) - DayFromYear(y) == if IsLeapYear(y) then 366 else 365
  {
    LeapStep4(y);
    LeapStep100(y);
    LeapStep400(y);
    LeapNesting(y);
  }

  lemma LeapNesting(y: int)
    ensures y % 400 == 0 ==> y % 100 == 0
    ensures y % 100 == 0 ==> y % 4 == 0
  {
    if y % 400 == 0 {
      var e := y / 400;
      assert y == 400 * e;
      assert y / 100 == 4 * e;
    }
    if y % 100 == 0 {
      var e := y / 100;
      assert y == 100 * e;
      assert y / 4 == 25 * e;
    }
  }

  lemma LeapStep4(y: int)
    ensures (y - 1968) / 4 - (y - 1969) / 4 == if y % 4 == 0 then 1 else 0
  {
  }

  lemma LeapStep100(y: int)
    ensures (y - 1900) / 100 - (y - 1901) / 100 == if y % 100 == 0 then 1 else 0
  {
  }

  lemma LeapStep400(y: int)
    ensures (y - 1600) / 400 - (y - 1601) / 400 == if y % 400 == 0 then 1 else 0
  {
  }

  /** Day 0 of the next month is the last day of this month: the day number
      of `new Date(y, m + 1, 0)` is that of `new Date(y, m, DaysInMonth(y, m))`. */
  lemma DayZeroIsLastDay(y: int, m: int)
    requires 0 <= m < 12
    ensures MakeDay(y, m + 1, 0) == MakeDay(y, m, DaysInMonth(y, m))
  {
    MakeDayInYear(y, m, DaysInMonth(y, m));
    if m == 11 {
      YearLength(y);
      MakeDayCarry(y, 0);
    } else {
      MakeDayInYear(y, m + 1, 0);
    }
  }

  /** A calendar date with an existing month and day. */
  predicate ValidDate(y: int, m: int, d: int) {
    0 <= m < 12 && 1 <= d <= DaysInMonth(y, m)
  }

  /** A valid date's day number lies inside its year. */
  lemma DayInYear(y: int, m: int, d: int)
    requires ValidDate(y, m, d)
    ensures DayFromYear(y) <= MakeDay(y, m, d) < DayFromYear(y + 1)
    ensures MakeDay(y, m, d) == DayFromYear(y) + MonthStart(y, m) + d - 1
  {
    MakeDayInYear(y, m, d);
    YearLength(y);
    MonthStartBelow(y, m + 1);
  }

  lemma {:induction false} MonthStartBelow(y: int, m: int)
    requires 0 <= m <= 12
    ensures MonthStart(y, m) <= MonthStart(y, 12)
    decreases 12 - m
  {
    if m < 12 {
      MonthStartBelow(y, m + 1);
    }
  }

  lemma {:induction false} MonthStartIncreasing(y: int, m: int, k: int)
    requires 0 <= m <= k <= 12
    ensures MonthStart(y, m) + (k - m) * 28 <= MonthStart(y, k)
    decreases k - m
  {
    if m < k {
      MonthStartIncreasing(y, m + 1, k);
      assert MonthStart(y, m) + DaysInMonth(y, m) == MonthStart(y, m + 1);
      assert (k - m) * 28 == (k - (m + 1)) * 28 + 28;
    }
  }

  /** Years start in increasing order. */
  lemma {:induction false} YearsIncreasing(y: int, z: int)
    requires y < z
    ensures DayFromYear(y + 1) <= DayFromYear(z)
    decreases z - y
  {
    if y + 1 < z {
      YearsIncreasing(y + 1, z);
      YearLength(y + 1);
    }
  }

  /** A valid date in an earlier year has a smaller day number. */
  lemma EarlierYearEarlierDay(y: int, m: int, d: int, y2: int, m2: int, d2: int)
    requires ValidDate(y, m, d) && ValidDate(y2, m2, d2) && y < y2
    ensures MakeDay(y, m, d) < MakeDay(y2, m2, d2)
  {
    DayInYear(y, m, d);
    DayInYear(y2, m2, d2);
    YearsIncreasing(y, y2);
  }

  /** Within one year, a valid date in an earlier month has a smaller day number. */
  lemma EarlierMonthEarlierDay(y: int, m: int, d: int, m2: int, d2: int)
    requires ValidDate(y, m, d) && ValidDate(y, m2, d2) && m < m2
    ensures MakeDay(y, m, d) < MakeDay(y, m2, d2)
  {
    MakeDayInYear(y, m, d);
    MakeDayInYear(y, m2, d2);
    MonthStartIncreasing(y, m + 1, m2);
  }

  /** Distinct valid dates have distinct day numbers, so `getFullYear()`,
      `getMonth()` and `getDate()` read back the year, month and day that a
      valid date was built from. */
  lemma MakeDayInjective(y: int, m: int, d: int, y2: int, m2: int, d2: int)
    requires ValidDate(y, m, d) && ValidDate(y2, m2, d2)
    requires MakeDay(y, m, d) == MakeDay(y2, m2, d2)
    ensures y == y2 && m == m2 && d == d2
  {
    if y < y2 {
      EarlierYearEarlierDay(y, m, d, y2, m2, d2);
    } else if y2 < y {
      EarlierYearEarlierDay(y2, m2, d2, y, m, d);
    } else if m < m2 {
      EarlierMonthEarlierDay(y, m, d, m2, d2);
    } else if m2 < m {
      EarlierMonthEarlierDay(y, m2, d2, m, d);
    } else {
      MakeDayInYear(y, m, d);
      MakeDayInYear(y, m2, d2);
    }
  }

  /** The last day of the month that `new Date(y, m + 1, 0)` denotes is the
      month's length: it is the valid date (y, m, DaysInMonth(y, m)) and no
      other valid date. */
  lemma LastDayOfMonth(y: int, m: int, y2: int, m2: int, d2: int)
    requires 0 <= m < 12
    requires ValidDate(y2, m2, d2) && MakeDay(y2, m2, d2) == MakeDay(y, m + 1, 0)
    ensures y2 == y && m2 == m && d2 == DaysInMonth(y, m)
  {
    DayZeroIsLastDay(y, m);
    MakeDayInjective(y, m, DaysInMonth(y, m), y2, m2, d2);
  }

  /** Anchors of the weekday count: 1970-01-01 was a Thursday and
      2024-09-01 a Sunday. */
  lemma WeekDayAnchors()
    ensures WeekDay(MakeDay(1970, 0, 1)) == 4
    ensures WeekDay(MakeDay(2024, 8, 1)) == 0
  {
    EpochDay();
    SeptemberFirst2024();
    assert 19971 == 7 * 2853;
  }

  lemma EpochDay()
    ensures MakeDay(1970, 0, 1) == 0
  {
    YearAnchors();
    MonthStartZero(1970);
    MakeDayInYear(1970, 0, 1);
  }

  lemma SeptemberFirst2024()
    ensures MakeDay(2024, 8, 1) == 19967
  {
    YearAnchors();
    SeptemberStart2024();
    MakeDayInYear(2024, 8, 1);
  }

  lemma YearAnchors()
    ensures DayFromYear(1970) == 0 && DayFromYear(2024) == 19723
  {
  }

  lemma SeptemberStart2024()
    ensures MonthStart(2024, 8) == 244
  {
    assert IsLeapYear(2024);
    assert MonthStart(2024, 12) == 366;
    assert MonthStart(2024, 10) == 305;
  }
}
