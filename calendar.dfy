/**
  Civil (year, month, day) dates in the proleptic Gregorian calendar, and the
  deadline helper stated on them: adding days one at a time with month and
  year rollover lands on the date whose day index is the one computed by
  Deadline.CalculateDeadline.
*/
module Calendar {
  import opened Deadline

  datatype Date = Date(year: nat, month: nat, day: nat)

  predicate IsLeapYear(y: nat) {
    y % 4 == 0 && (y % 100 != 0 || y % 400 == 0)
  }

  /** The month-length table. */
  function DaysInMonth(y: nat, m: nat): nat
    requires 1 <= m <= 12
  {
    if m == 2 then (if IsLeapYear(y) then 29 else 28)
    else if m == 4 || m == 6 || m == 9 || m == 11 then 30
    else 31
  }

  function DaysInYear(y: nat): nat {
    if IsLeapYear(y) then 366 else 365
  }

  /** A date that exists on the calendar. */
  predicate ValidDate(d: Date) {
    1 <= d.month <= 12 && 1 <= d.day <= DaysInMonth(d.year, d.month)
  }

  /** Days in the years before year `y`, counted from year 0. */
  function DaysBeforeYear(y: nat): nat {
    if y == 0 then 0 else DaysBeforeYear(y - 1) + DaysInYear(y - 1)
  }

  /** Days in the months of year `y` before month `m`. */
  function DaysBeforeMonth(y: nat, m: nat): nat
    requires 1 <= m <= 13
  {
    if m == 1 then 0 else DaysBeforeMonth(y, m - 1) + DaysInMonth(y, m - 1)
  }

  /** The day index of a civil date; 0000-01-01 is day 0. */
  function DayIndex(d: Date): Day
    requires ValidDate(d)
  {
    DaysBeforeYear(d.year) + DaysBeforeMonth(d.year, d.month) + d.day - 1
  }

  /** The twelve months of a year add up to the length of the year. */
  lemma MonthsFillYear(y: nat)
    ensures DaysBeforeMonth(y, 13) == DaysInYear(y)
  {
    var feb := DaysInMonth(y, 2);
    assert DaysBeforeMonth(y, 2) == 31;
    assert DaysBeforeMonth(y, 3) == 31 + feb;
    assert DaysBeforeMonth(y, 4) == 62 + feb;
    assert DaysBeforeMonth(y, 5) == 92 + feb;
    assert DaysBeforeMonth(y, 6) == 123 + feb;
    assert DaysBeforeMonth(y, 7) == 153 + feb;
    assert DaysBeforeMonth(y, 8) == 184 + feb;
    assert DaysBeforeMonth(y, 9) == 215 + feb;
    assert DaysBeforeMonth(y, 10) == 245 + feb;
    assert DaysBeforeMonth(y, 11) == 276 + feb;
    assert DaysBeforeMonth(y, 12) == 306 + feb;
    assert DaysBeforeMonth(y, 13) == 337 + feb;
  }

  /** The day after `d`, rolling over to the next month or year. */
  function NextDay(d: Date): (r: Date)
    requires ValidDate(d)
    ensures ValidDate(r)
    ensures DayIndex(r) == DayIndex(d) + 1
  {
    if d.day < DaysInMonth(d.year, d.month) then
      Date(d.year, d.month, d.day + 1)
    else if d.month < 12 then
      Date(d.year, d.month + 1, 1)
    else
      MonthsFillYear(d.year);
      Date(d.year + 1, 1, 1)
  }

  /** `date.setDate(date.getDate() + n)`: `n` days after `d`, one rollover at a time. */
  function AddDays(d: Date, n: nat): (r: Date)
    requires ValidDate(d)
    ensures ValidDate(r)
    ensures DayIndex(r) == DayIndex(d) + n
    decreases n
  {
    if n == 0 then d else AddDays(NextDay(d), n - 1)
  }

  /** `calculateDeadline` on civil dates, agreeing with the day-index version. */
  function CivilDeadline(start: Date, priority: string): (deadline: Date)
    requires ValidDate(start)
    ensures ValidDate(deadline)
    ensures DayIndex(deadline) == CalculateDeadline(DayIndex(start), priority)
  {
    AddDays(start, Offset(priority))
  }

  /** The day of the year of a valid date lies inside that year. */
  lemma DayOfYearBound(d: Date)
    requires ValidDate(d)
    ensures DaysBeforeMonth(d.year, d.month) + d.day - 1 < DaysInYear(d.year)
  {
    MonthsFillYear(d.year);
    DaysBeforeMonthMonotone(d.year, d.month + 1, 13);
  }

  lemma {:induction false} DaysBeforeMonthMonotone(y: nat, m: nat, k: nat)
    requires 1 <= m <= k <= 13
    ensures DaysBeforeMonth(y, m) <= DaysBeforeMonth(y, k)
    decreases k - m
  {
    if m < k {
      DaysBeforeMonthMonotone(y, m, k - 1);
    }
  }

  lemma {:induction false} DaysBeforeYearMonotone(y: nat, k: nat)
    requires y < k
    ensures DaysBeforeYear(y) + DaysInYear(y) <= DaysBeforeYear(k)
    decreases k - y
  {
    if y + 1 < k {
      DaysBeforeYearMonotone(y + 1, k);
    }
  }

  /**
    Distinct calendar dates have distinct day indexes, so CivilDeadline is
    the only valid date whose index is the day-index deadline.
  */
  lemma DayIndexInjective(a: Date, b: Date)
    requires ValidDate(a) && ValidDate(b)
    requires DayIndex(a) == DayIndex(b)
    ensures a == b
  {
    DayOfYearBound(a);
    DayOfYearBound(b);
    if a.year < b.year {
      DaysBeforeYearMonotone(a.year, b.year);
    } else if b.year < a.year {
      DaysBeforeYearMonotone(b.year, a.year);
    }
    assert a.year == b.year;
    if a.month < b.month {
      DaysBeforeMonthMonotone(a.year, a.month + 1, b.month);
    } else if b.month < a.month {
      DaysBeforeMonthMonotone(a.year, b.month + 1, a.month);
    }
  }

  /** Month-end and year-end rollover on concrete dates, leap February included. */
  lemma RolloverExamples()
    ensures CivilDeadline(Date(2023, 12, 31), "Urgent") == Date(2024, 1, 1)
    ensures CivilDeadline(Date(2024, 2, 28), "High") == Date(2024, 3, 1)
    ensures CivilDeadline(Date(2023, 2, 28), "High") == Date(2023, 3, 2)
    ensures CivilDeadline(Date(2024, 1, 31), "Low") == Date(2024, 3, 1)
    ensures CivilDeadline(Date(2024, 4, 30), "Priority") == Date(2024, 4, 30)
  {
    YearStart(2023);
    DayIndexInjective(CivilDeadline(Date(2023, 12, 31), "Urgent"), Date(2024, 1, 1));
    DayIndexInjective(CivilDeadline(Date(2024, 2, 28), "High"), Date(2024, 3, 1));
    DayIndexInjective(CivilDeadline(Date(2023, 2, 28), "High"), Date(2023, 3, 2));
    DayIndexInjective(CivilDeadline(Date(2024, 1, 31), "Low"), Date(2024, 3, 1));
  }

  /** New Year's Day follows the last day of December. */
  lemma YearStart(y: nat)
    ensures DayIndex(Date(y + 1, 1, 1)) == DayIndex(Date(y, 12, 31)) + 1
  {
    MonthsFillYear(y);
  }
}
