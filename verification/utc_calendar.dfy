/**
 The UTC calendar view of a JavaScript time value, following section 21.4.1 of
 ECMA-262 ("Time Values and Time Range", "Day Number and Time within Day",
 "Year Number", "Month Number", "Date Number").

 A JavaScript `Date` holds a time value: an integral number of milliseconds
 since 1970-01-01T00:00:00Z, or NaN for an invalid date. `getUTCFullYear`,
 `getUTCMonth` and `getUTCDate` read the year, the zero-based month and the
 one-based day of month of that instant in UTC.
 */
module UtcCalendar {
  import opened Optional

  /** Milliseconds in one day (msPerDay). */
  const MsPerDay: int := 86_400_000

  /** The largest magnitude a valid time value may have (8.64e15 ms, 100 000 000 days). */
  const MaxTimeValue: int := 8_640_000_000_000_000

  /** A valid time value. */
  type Instant = t: int | -MaxTimeValue <= t <= MaxTimeValue

  /** A `Date` as the program sees it: `None` is an invalid date, whose time value is NaN. */
  type Timestamp = Option<Instant>

  /** Day(t): the number of whole days between the epoch and `t`, rounded towards minus infinity.
      Dafny's `/` rounds towards minus infinity for a positive divisor. */
  function Day(t: int): int {
    t / MsPerDay
  }

  /** DayFromYear(y): the day number of the first day of year `y`. */
  function DayFromYear(y: int): int {
    365 * (y - 1970) + (y - 1969) / 4 - (y - 1901) / 100 + (y - 1601) / 400
  }

  /** DaysInYear(y): 366 in a Gregorian leap year, 365 otherwise. */
  function DaysInYear(y: int): int {
    if y % 4 != 0 then 365
    else if y % 100 != 0 then 366
    else if y % 400 != 0 then 365
    else 366
  }

  predicate IsLeapYear(y: int) {
    DaysInYear(y) == 366
  }

  /** Each of the three correction terms of DayFromYear steps up by one exactly in the
      years that the Gregorian rule names. */
  lemma FourYearStep(y: int)
    ensures (y - 1968) / 4 == (y - 1969) / 4 + (if y % 4 == 0 then 1 else 0)
  {
  }

  lemma CenturyStep(y: int)
    ensures (y - 1900) / 100 == (y - 1901) / 100 + (if y % 100 == 0 then 1 else 0)
  {
  }

  lemma FourCenturyStep(y: int)
    ensures (y - 1600) / 400 == (y - 1601) / 400 + (if y % 400 == 0 then 1 else 0)
  {
  }

  /** A multiple of 100 is a multiple of 4, and a multiple of 400 is a multiple of 100. */
  lemma DivisibilityChain(y: int)
    ensures y % 100 == 0 ==> y % 4 == 0
    ensures y % 400 == 0 ==> y % 100 == 0
  {
    if y % 100 == 0 {
      assert y == 4 * (25 * (y / 100));
    }
    if y % 400 == 0 {
      assert y == 100 * (4 * (y / 400));
    }
  }

  /** Consecutive years tile the day line. */
  lemma DayFromNextYear(y: int)
    ensures DayFromYear(y + 1) == DayFromYear(y) + DaysInYear(y)
  {
    FourYearStep(y);
    CenturyStep(y);
    FourCenturyStep(y);
    DivisibilityChain(y);
    var step := DayFromYear(y + 1) - DayFromYear(y);
    assert step == 365
      + ((y - 1968) / 4 - (y - 1969) / 4)
      - ((y - 1900) / 100 - (y - 1901) / 100)
      + ((y - 1600) / 400 - (y - 1601) / 400);
    if y % 4 != 0 {
      assert step == 365;
    } else if y % 100 != 0 {
      assert step == 366;
    } else if y % 400 != 0 {
      assert step == 365;
    } else {
      assert step == 366;
    }
  }

  /** DayFromYear grows by 365.2425 days per year on average; scaled by 400 it stays
      within a few hundred of 146097 * (y - 1970). */
  lemma DayFromYearBounds(y: int)
    ensures 146097 * (y - 1970) - 506 <= 400 * DayFromYear(y) <= 146097 * (y - 1970) + 589
  {
  }

  /** YearFromTime, on a day number: the year whose days contain day `z`. */
  function YearFromDay(z: int): (y: int)
    ensures DayFromYear(y) <= z < DayFromYear(y) + DaysInYear(y)
  {
    var estimate := 1970 + (400 * z) / 146097;
    DayFromYearBounds(estimate - 1);
    DayFromYearBounds(estimate + 2);
    DayFromNextYear(estimate - 1);
    DayFromNextYear(estimate);
    DayFromNextYear(estimate + 1);
    if z < DayFromYear(estimate) then estimate - 1
    else if z < DayFromYear(estimate + 1) then estimate
    else estimate + 1
  }

  /** Days of the year that precede zero-based month `m` (0 <= m <= 12); `m == 12` gives
      the length of the year. */
  function DaysBeforeMonth(m: int, leap: bool): (n: int)
    requires 0 <= m <= 12
  {
    var common :=
      if m == 0 then 0 else if m == 1 then 31 else if m == 2 then 59
      else if m == 3 then 90 else if m == 4 then 120 else if m == 5 then 151
      else if m == 6 then 181 else if m == 7 then 212 else if m == 8 then 243
      else if m == 9 then 273 else if m == 10 then 304 else if m == 11 then 334
      else 365;
    if leap && m >= 2 then common + 1 else common
  }

  /** MonthFromTime, on a day within the year: the zero-based month containing it. */
  function MonthFromDayInYear(d: int, leap: bool): (m: int)
    requires 0 <= d < DaysBeforeMonth(12, leap)
    ensures 0 <= m <= 11
    ensures DaysBeforeMonth(m, leap) <= d < DaysBeforeMonth(m + 1, leap)
  {
    if d < DaysBeforeMonth(1, leap) then 0
    else if d < DaysBeforeMonth(2, leap) then 1
    else if d < DaysBeforeMonth(3, leap) then 2
    else if d < DaysBeforeMonth(4, leap) then 3
    else if d < DaysBeforeMonth(5, leap) then 4
    else if d < DaysBeforeMonth(6, leap) then 5
    else if d < DaysBeforeMonth(7, leap) then 6
    else if d < DaysBeforeMonth(8, leap) then 7
    else if d < DaysBeforeMonth(9, leap) then 8
    else if d < DaysBeforeMonth(10, leap) then 9
    else if d < DaysBeforeMonth(11, leap) then 10
    else 11
  }

  /** `getUTCFullYear()` of a valid date: the year whose days contain the day of `t`. */
  function UtcYear(t: Instant): (y: int)
    ensures DayFromYear(y) <= Day(t) < DayFromYear(y) + DaysInYear(y)
  {
    YearFromDay(Day(t))
  }

  /** DayWithinYear(t): zero-based index of the day of `t` within its year. */
  function DayWithinYear(t: Instant): (d: int)
    ensures 0 <= d < DaysBeforeMonth(12, IsLeapYear(UtcYear(t)))
  {
    Day(t) - DayFromYear(UtcYear(t))
  }

  /** `getUTCMonth()` of a valid date: 0 is January, 11 is December. */
  function UtcMonth(t: Instant): (m: int)
    ensures 0 <= m <= 11
    ensures DayFromYear(UtcYear(t)) + DaysBeforeMonth(m, IsLeapYear(UtcYear(t))) <= Day(t)
            < DayFromYear(UtcYear(t)) + DaysBeforeMonth(m + 1, IsLeapYear(UtcYear(t)))
  {
    MonthFromDayInYear(DayWithinYear(t), IsLeapYear(UtcYear(t)))
  }

  /** `getUTCDate()` of a valid date: the one-based day of the month. The year, month and
      date together give back the day number, as MakeDay does in ECMA-262. */
  function UtcDate(t: Instant): (d: int)
    ensures 1 <= d <= 31
    ensures d <= DaysBeforeMonth(UtcMonth(t) + 1, IsLeapYear(UtcYear(t))) - DaysBeforeMonth(UtcMonth(t), IsLeapYear(UtcYear(t)))
    ensures Day(t) == DayFromYear(UtcYear(t)) + DaysBeforeMonth(UtcMonth(t), IsLeapYear(UtcYear(t))) + d - 1
  {
    DayWithinYear(t) - DaysBeforeMonth(UtcMonth(t), IsLeapYear(UtcYear(t))) + 1
  }

  /** The calendar fields of an instant name its day number exactly. */
  lemma DayFromCalendarFields(t: Instant)
    ensures Day(t) == DayFromYear(UtcYear(t)) + DaysBeforeMonth(UtcMonth(t), IsLeapYear(UtcYear(t))) + UtcDate(t) - 1
  {
  }

  /** Two valid dates agree in UTC year, month and day of month exactly when they fall on
      the same day number: the three fields are a faithful name for the UTC day. */
  lemma SameCalendarFieldsIffSameDay(t1: Instant, t2: Instant)
    ensures (UtcYear(t1) == UtcYear(t2) && UtcMonth(t1) == UtcMonth(t2) && UtcDate(t1) == UtcDate(t2))
            <==> Day(t1) == Day(t2)
  {
    DayFromCalendarFields(t1);
    DayFromCalendarFields(t2);
  }

  /** Day 19277 (2022-10-12) lies in year 2022, which begins on day 18993 and is not a leap year. */
  lemma Day19277InYear2022()
    ensures YearFromDay(19277) == 2022
    ensures YearFromDay(19276) == 2022
  {
    assert (400 * 19277) / 146097 == 52;
    assert (400 * 19276) / 146097 == 52;
    assert DayFromYear(2022) == 18993;
    assert DayFromYear(2023) == 19358;
  }

  /** 2022-10-12T10:00:00Z and 2022-10-12T23:59:59Z both read as year 2022, month 9 (October),
      day 12; 2022-10-11T00:00:00Z reads as October 11. */
  lemma OctoberTwelfthFields()
    ensures UtcYear(1665568800000) == 2022 && UtcMonth(1665568800000) == 9 && UtcDate(1665568800000) == 12
    ensures UtcYear(1665619199000) == 2022 && UtcMonth(1665619199000) == 9 && UtcDate(1665619199000) == 12
    ensures UtcMonth(1665446400000) == 9 && UtcDate(1665446400000) == 11
  {
    assert Day(1665568800000) == 19277;
    assert Day(1665619199000) == 19277;
    assert Day(1665446400000) == 19276;
    Day19277InYear2022();
    assert !IsLeapYear(2022);
    assert DayWithinYear(1665568800000) == 284;
    assert DayWithinYear(1665619199000) == 284;
    assert DayWithinYear(1665446400000) == 283;
  }
}
