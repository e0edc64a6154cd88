/** Proleptic Gregorian dates, their day numbers, and the month arithmetic of Go's time package. */
module Calendar {
  /** A calendar date; `year` counts astronomically, so 0 is 1 BC. */
  datatype Date = Date(year: int, month: int, day: int)

  predicate IsLeap(year: int) { year % 4 == 0 && (year % 100 != 0 || year % 400 == 0) }

  function DaysInYear(year: int): int { if IsLeap(year) then 366 else 365 }

  function DaysInMonth(year: int, month: int): int
    requires 1 <= month <= 12
  {
    if month == 2 then (if IsLeap(year) then 29 else 28)
    else if month == 4 || month == 6 || month == 9 || month == 11 then 30
    else 31
  }

  predicate ValidDate(d: Date) {
    1 <= d.month <= 12 && 1 <= d.day <= DaysInMonth(d.year, d.month)
  }

  /** Days from the first of January of year 0 to the first of January of `year`. */
  function DaysBeforeYear(year: int): int {
    365 * year + (year + 3) / 4 - (year + 99) / 100 + (year + 399) / 400
  }

  function DaysBeforeMonth(year: int, month: int): int
    requires 1 <= month <= 12
  {
    if month == 1 then 0 else DaysBeforeMonth(year, month - 1) + DaysInMonth(year, month - 1)
  }

  /** The day count the database compares dates by. */
  function DayNumber(d: Date): int
    requires ValidDate(d)
  {
    DaysBeforeYear(d.year) + DaysBeforeMonth(d.year, d.month) + d.day - 1
  }

  lemma FourYearStep(year: int)
    ensures (year + 1 + 3) / 4 == (year + 3) / 4 + if year % 4 == 0 then 1 else 0
  {
  }

  lemma CenturyStep(year: int)
    ensures (year + 1 + 99) / 100 == (year + 99) / 100 + if year % 100 == 0 then 1 else 0
  {
  }

  lemma CycleStep(year: int)
    ensures (year + 1 + 399) / 400 == (year + 399) / 400 + if year % 400 == 0 then 1 else 0
  {
  }

  lemma CenturiesDivide(year: int)
    ensures year % 100 == 0 ==> year % 4 == 0
  {
  }

  lemma CyclesDivide(year: int)
    ensures year % 400 == 0 ==> year % 100 == 0
  {
  }

  /** Leap years, centuries and 400-year cycles add up: each year contributes its own length. */
  lemma YearStep(year: int)
    ensures DaysBeforeYear(year + 1) == DaysBeforeYear(year) + DaysInYear(year)
  {
    FourYearStep(year);
    CenturyStep(year);
    CycleStep(year);
    CenturiesDivide(year);
    CyclesDivide(year);
  }

  lemma {:induction false} YearsAscend(a: int, b: int)
    requires a <= b
    ensures DaysBeforeYear(a) <= DaysBeforeYear(b)
    decreases b - a
  {
  }

  lemma MonthsFillYear(year: int)
    ensures DaysBeforeMonth(year, 12) + DaysInMonth(year, 12) == DaysInYear(year)
  {
    assert DaysBeforeMonth(year, 2) == 31;
    assert DaysBeforeMonth(year, 4) == 31 + DaysInMonth(year, 2) + 31;
    assert DaysBeforeMonth(year, 6) == DaysBeforeMonth(year, 4) + 61;
    assert DaysBeforeMonth(year, 8) == DaysBeforeMonth(year, 6) + 61;
    assert DaysBeforeMonth(year, 10) == DaysBeforeMonth(year, 8) + 61;
    assert DaysBeforeMonth(year, 12) == DaysBeforeMonth(year, 10) + 61;
  }

  lemma {:induction false} MonthsAscend(year: int, a: int, b: int)
    requires 1 <= a < b <= 12
    ensures DaysBeforeMonth(year, a) + DaysInMonth(year, a) <= DaysBeforeMonth(year, b)
    decreases b - a
  {
    if a + 1 < b { MonthsAscend(year, a, b - 1); }
  }

  lemma MonthInsideYear(year: int, month: int)
    requires 1 <= month <= 12
    ensures 0 <= DaysBeforeMonth(year, month)
    ensures DaysBeforeMonth(year, month) + DaysInMonth(year, month) <= DaysInYear(year)
  {
  }

  ghost predicate MonthBefore(y1: int, m1: int, y2: int, m2: int) {
    y1 < y2 || (y1 == y2 && m1 < m2)
  }

  /** Earlier calendar months hold smaller day numbers. */
  lemma EarlierMonthEarlierDay(a: Date, b: Date)
    requires ValidDate(a) && ValidDate(b) && MonthBefore(a.year, a.month, b.year, b.month)
    ensures DayNumber(a) < DayNumber(b)
  {
    MonthInsideYear(a.year, a.month);
    MonthInsideYear(b.year, b.month);
    if a.year < b.year {
      YearStep(a.year);
      YearsAscend(a.year + 1, b.year);
    } else {
      MonthsAscend(a.year, a.month, b.month);
    }
  }

  /** The day count agrees with the civil calendar at the two epochs the service's libraries use. */
  lemma EpochDistance()
    ensures DayNumber(Date(2000, 1, 1)) - DayNumber(Date(1970, 1, 1)) == 10957
  {
  }

  /** On which day of a common and of a leap year each month begins, counting from 0. */
  lemma MonthStarts()
    ensures forall m :: 1 <= m <= 12 ==>
      DaysBeforeMonth(2023, m) == [0, 31, 59, 90, 120, 151, 181, 212, 243, 273, 304, 334][m - 1]
    ensures forall m :: 1 <= m <= 12 ==>
      DaysBeforeMonth(2024, m) == [0, 31, 60, 91, 121, 152, 182, 213, 244, 274, 305, 335][m - 1]
  {
    MonthStartsOf(2023);
    MonthStartsOf(2024);
  }

  lemma MonthStartsOf(year: int)
    ensures var extra := if IsLeap(year) then 1 else 0;
      && DaysBeforeMonth(year, 1) == 0 && DaysBeforeMonth(year, 2) == 31 && DaysBeforeMonth(year, 3) == 59 + extra
      && DaysBeforeMonth(year, 4) == 90 + extra && DaysBeforeMonth(year, 5) == 120 + extra && DaysBeforeMonth(year, 6) == 151 + extra
      && DaysBeforeMonth(year, 7) == 181 + extra && DaysBeforeMonth(year, 8) == 212 + extra && DaysBeforeMonth(year, 9) == 243 + extra
      && DaysBeforeMonth(year, 10) == 273 + extra && DaysBeforeMonth(year, 11) == 304 + extra && DaysBeforeMonth(year, 12) == 334 + extra
  {
    assert DaysBeforeMonth(year, 2) == 31;
    assert DaysBeforeMonth(year, 4) == 31 + DaysInMonth(year, 2) + 31;
    assert DaysBeforeMonth(year, 6) == DaysBeforeMonth(year, 4) + 61;
    assert DaysBeforeMonth(year, 8) == DaysBeforeMonth(year, 6) + 61;
    assert DaysBeforeMonth(year, 10) == DaysBeforeMonth(year, 8) + 61;
    assert DaysBeforeMonth(year, 12) == DaysBeforeMonth(year, 10) + 61;
  }

  // ---------------------------------------------------------------- Go's time package

  /** time.Date at midnight UTC; months outside 1..12 roll over into years. */
  function GoDate(year: int, month: int, day: int): (d: Date)
    requires 1 <= day <= 28
    ensures ValidDate(d)
  {
    Date(year + (month - 1) / 12, (month - 1) % 12 + 1, day)
  }

  /** Time.AddDate for days that exist in every month. */
  function AddDate(d: Date, years: int, months: int): (r: Date)
    requires 1 <= d.day <= 28
    ensures ValidDate(r)
  {
    GoDate(d.year + years, d.month + months, d.day)
  }

  ghost predicate Between(start: Date, d: Date, end: Date)
    requires ValidDate(start) && ValidDate(d) && ValidDate(end)
  {
    DayNumber(start) <= DayNumber(d) < DayNumber(end)
  }

  /** A first of the month splits the dates: those from its month on, and those before it. */
  lemma FirstOfMonthSplits(year: int, month: int, d: Date)
    requires 1 <= month <= 12 && ValidDate(d)
    ensures DayNumber(Date(year, month, 1)) <= DayNumber(d) <==> !MonthBefore(d.year, d.month, year, month)
  {
    var first := Date(year, month, 1);
    if MonthBefore(d.year, d.month, year, month) {
      EarlierMonthEarlierDay(d, first);
    } else if MonthBefore(year, month, d.year, d.month) {
      EarlierMonthEarlierDay(first, d);
    }
  }
}
