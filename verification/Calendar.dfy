/** The proleptic Gregorian calendar by its rules alone: leap years, month lengths, and the day
    after a day (Appendix C of RFC 3339). The reference for the civil-from-days conversions. */
module Calendar {
  datatype Date = Date(year: int, month: int, day: int)

  predicate IsLeap(year: int) {
    year % 4 == 0 && (year % 100 != 0 || year % 400 == 0)
  }

  function YearLength(year: int): int { if IsLeap(year) then 366 else 365 }

  function MonthLength(year: int, month: int): int {
    if month == 2 then (if IsLeap(year) then 29 else 28)
    else if month in {4, 6, 9, 11} then 30
    else 31
  }

  predicate ValidDate(d: Date) {
    1 <= d.month <= 12 && 1 <= d.day <= MonthLength(d.year, d.month)
  }

  function NextDay(d: Date): Date {
    if d.day < MonthLength(d.year, d.month) then d.(day := d.day + 1)
    else if d.month < 12 then Date(d.year, d.month + 1, 1)
    else Date(d.year + 1, 1, 1)
  }

  predicate Before(a: Date, b: Date) {
    a.year < b.year || (a.year == b.year && (a.month < b.month || (a.month == b.month && a.day < b.day)))
  }

  const EPOCH := Date(1970, 1, 1)

  /** Days from 1 January 1970 to 1 January of `year`, one year at a time. */
  function DaysToYear(year: int): int
    decreases if year < 1970 then 1970 - year else year - 1970
  {
    if year == 1970 then 0
    else if year > 1970 then DaysToYear(year - 1) + YearLength(year - 1)
    else DaysToYear(year + 1) - YearLength(year)
  }

  /** Days from 1 January to the first of `month`, one month at a time. */
  function DaysToMonth(year: int, month: int): int
    requires 1 <= month <= 12
    decreases month
  {
    if month == 1 then 0 else DaysToMonth(year, month - 1) + MonthLength(year, month - 1)
  }

  /** The number of a date, counted from the epoch. */
  function DayNumber(d: Date): int
    requires 1 <= d.month <= 12
  {
    DaysToYear(d.year) + DaysToMonth(d.year, d.month) + d.day - 1
  }

  lemma MonthTable(year: int)
    ensures var leap := if IsLeap(year) then 1 else 0;
            && DaysToMonth(year, 1) == 0 && DaysToMonth(year, 2) == 31
            && DaysToMonth(year, 3) == 59 + leap && DaysToMonth(year, 4) == 90 + leap
            && DaysToMonth(year, 5) == 120 + leap && DaysToMonth(year, 6) == 151 + leap
            && DaysToMonth(year, 7) == 181 + leap && DaysToMonth(year, 8) == 212 + leap
            && DaysToMonth(year, 9) == 243 + leap && DaysToMonth(year, 10) == 273 + leap
            && DaysToMonth(year, 11) == 304 + leap && DaysToMonth(year, 12) == 334 + leap
  {
    assert DaysToMonth(year, 3) == 59 + if IsLeap(year) then 1 else 0;
    assert DaysToMonth(year, 5) == 120 + if IsLeap(year) then 1 else 0;
    assert DaysToMonth(year, 7) == 181 + if IsLeap(year) then 1 else 0;
    assert DaysToMonth(year, 9) == 243 + if IsLeap(year) then 1 else 0;
    assert DaysToMonth(year, 11) == 304 + if IsLeap(year) then 1 else 0;
  }

  lemma FirstOfNextYear(year: int)
    ensures DaysToYear(year + 1) == DaysToYear(year) + YearLength(year)
    ensures DaysToMonth(year, 12) + MonthLength(year, 12) == YearLength(year)
  {
    MonthTable(year);
  }

  /** Day numbers count days: the next day has the next number, and the epoch is day 0. */
  lemma NextDayIsNextNumber(d: Date)
    requires ValidDate(d)
    ensures ValidDate(NextDay(d)) && DayNumber(NextDay(d)) == DayNumber(d) + 1
    ensures DayNumber(EPOCH) == 0
  {
    FirstOfNextYear(d.year);
  }

  lemma LeapStep(y: int)
    ensures y / 4 == (y - 1) / 4 + if y % 4 == 0 then 1 else 0
    ensures y / 100 == (y - 1) / 100 + if y % 100 == 0 then 1 else 0
    ensures y / 400 == (y - 1) / 400 + if y % 400 == 0 then 1 else 0
    ensures y % 400 == 0 ==> y % 100 == 0
    ensures y % 100 == 0 ==> y % 4 == 0
  {
  }

  /** Leap days in the years before `year`, by the closed form. */
  lemma {:induction false} DaysToYearClosed(year: int)
    ensures DaysToYear(year) == 365 * (year - 1970) + (year - 1) / 4 - (year - 1) / 100 + (year - 1) / 400 - 477
    decreases if year < 1970 then 1970 - year else year - 1970
  {
    if year > 1970 {
      DaysToYearClosed(year - 1);
      LeapStep(year - 1);
    } else if year < 1970 {
      DaysToYearClosed(year + 1);
      LeapStep(year);
    }
  }

  lemma DayWithinYear(d: Date)
    requires ValidDate(d)
    ensures 0 <= DaysToMonth(d.year, d.month) + d.day - 1 < YearLength(d.year)
  {
    MonthTable(d.year);
  }

  lemma YearsInOrder(a: int, b: int)
    requires a < b
    ensures DaysToYear(a) + YearLength(a) <= DaysToYear(b)
    decreases b - a
  {
    FirstOfNextYear(b - 1);
    if a + 1 < b { YearsInOrder(a, b - 1); }
  }

  /** Dates in calendar order have day numbers in the same order. */
  lemma OrderPreserved(a: Date, b: Date)
    requires ValidDate(a) && ValidDate(b)
    ensures Before(a, b) <==> DayNumber(a) < DayNumber(b)
    ensures a == b <==> DayNumber(a) == DayNumber(b)
  {
    DayWithinYear(a);
    DayWithinYear(b);
    if a.year < b.year { YearsInOrder(a.year, b.year); }
    if b.year < a.year { YearsInOrder(b.year, a.year); }
    MonthTable(a.year);
  }
}
