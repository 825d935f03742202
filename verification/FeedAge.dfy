/** Dates and ages on feed cards (client/src/feed_age.rs). */
module FeedAge {
  import opened Calendar
  import opened CivilDays
  import opened Text

  const DAY_MS := 24 * 60 * 60 * 1000

  const WEEKDAYS := ["Sunday", "Monday", "Tuesday", "Wednesday", "Thursday", "Friday", "Saturday"]

  const MONTHS := ["January", "February", "March", "April", "May", "June", "July", "August", "September",
                   "October", "November", "December"]

  function WeekdayIndex(ms: int): int { (ms / DAY_MS + 4) % 7 }

  function WeekdayOf(ms: int): string { WEEKDAYS[WeekdayIndex(ms)] }

  /** Day, month from 0, and year. */
  function Civil(ms: int): (int, int, int) {
    var z := ms / DAY_MS + 719_468;
    var era := z / 146_097;
    var doe := z % 146_097;
    var yoe := YearOfEra(doe);
    var (day, month) := DayAndMonth(DayOfYear(doe));
    (day, month - 1, yoe + era * 400 + if month <= 2 then 1 else 0)
  }

  /** The date of an instant by the calendar alone. */
  ghost predicate DateOfInstant(ms: int, d: Date) {
    ValidDate(d) && DayNumber(d) == ms / DAY_MS
  }

  lemma CivilIsTheDate(ms: int, d: Date)
    requires DateOfInstant(ms, d)
    ensures Civil(ms) == (d.day, d.month - 1, d.year)
  {
    DayNumberRoundTrip(d);
  }

  lemma EveryInstantHasADate(ms: int)
    ensures exists d :: DateOfInstant(ms, d)
  {
    CivilFromDaysIsRight(ms / DAY_MS);
    assert DateOfInstant(ms, CivilFromDays(ms / DAY_MS));
  }

  /** Day and month of an instant. This conversion never computes the era. */
  function DateLabel(ms: int): string {
    var z := ms / DAY_MS + 719_468;
    var doe := z % 146_097;
    var (day, month) := DayAndMonth(DayOfYear(doe));
    YearOfEraIsRight(doe);
    MonthIsRight(DayOfYear(doe), YearOfEra(doe));
    Decimal(day) + " " + MONTHS[month - 1]
  }

  /** The English name of a month, by its number in the calendar. */
  function MonthName(month: int): string
    requires 1 <= month <= 12
  {
    match month
    case 1 => "January"
    case 2 => "February"
    case 3 => "March"
    case 4 => "April"
    case 5 => "May"
    case 6 => "June"
    case 7 => "July"
    case 8 => "August"
    case 9 => "September"
    case 10 => "October"
    case 11 => "November"
    case _ => "December"
  }

  lemma MonthNames(month: int)
    requires 1 <= month <= 12
    ensures MONTHS[month - 1] == MonthName(month)
  {
  }

  lemma LabelIs(ms: int, d: Date)
    requires DateOfInstant(ms, d)
    ensures 1 <= d.month <= 12 && DateLabel(ms) == Decimal(d.day) + " " + MONTHS[d.month - 1]
  {
    DayNumberRoundTrip(d);
  }

  /** The label names the calendar's day and month, for every instant. */
  lemma LabelIsTheDate(ms: int, d: Date)
    requires DateOfInstant(ms, d)
    ensures DateLabel(ms) == Decimal(d.day) + " " + MonthName(d.month)
  {
    LabelIs(ms, d);
    MonthNames(d.month);
  }

  /** The text for two dates, months counted from 0. */
  function RangeOf(first: (int, int, int), last: (int, int, int)): string
    requires first.0 >= 0 && last.0 >= 0 && 0 <= first.1 < 12 && 0 <= last.1 < 12
  {
    var (d0, m0, _) := first;
    var (d1, m1, _) := last;
    if m0 == m1 then Decimal(d0) + " to " + Decimal(d1) + " " + MONTHS[m1]
    else Decimal(d0) + " " + MONTHS[m0] + " to " + Decimal(d1) + " " + MONTHS[m1]
  }

  lemma CivilBounds(ms: int)
    ensures var (day, month, year) := Civil(ms); day >= 1 && 0 <= month < 12
  {
    EveryInstantHasADate(ms);
    var d :| DateOfInstant(ms, d);
    CivilIsTheDate(ms, d);
  }

  /** The days of a recap week; empty without a time. */
  function WeekRange(startMs: int, endMs: int): string {
    if startMs <= 0 || endMs <= startMs then ""
    else
      CivilBounds(startMs);
      CivilBounds(endMs - 1);
      RangeOf(Civil(startMs), Civil(endMs - 1))
  }

  /** "28 September to 4 October", and "12 to 18 October" when the month is written once. */
  ghost predicate SaysRange(text: string, first: Date, last: Date, once: bool)
    requires ValidDate(first) && ValidDate(last)
  {
    text == Decimal(first.day) + (if once then "" else " " + MonthName(first.month)) + " to " + Decimal(last.day)
            + " " + MonthName(last.month)
  }

  lemma RangeOfDates(c0: (int, int, int), c1: (int, int, int), first: Date, last: Date)
    requires ValidDate(first) && ValidDate(last)
    requires c0 == (first.day, first.month - 1, first.year) && c1 == (last.day, last.month - 1, last.year)
    ensures SaysRange(RangeOf(c0, c1), first, last, first.month == last.month)
  {
    MonthNames(first.month);
    MonthNames(last.month);
    if first.month == last.month {
      assert Decimal(first.day) + "" == Decimal(first.day);
    } else {
      assert Decimal(first.day) + " " + MonthName(first.month) == Decimal(first.day) + (" " + MonthName(first.month));
    }
  }

  /** Any range names the day of its start and the day of its last millisecond, in this order; there
      is no text without a time. */
  lemma RangeNamesBothEnds(startMs: int, endMs: int, first: Date, last: Date)
    requires DateOfInstant(startMs, first) && DateOfInstant(endMs - 1, last)
    ensures if 0 < startMs < endMs then SaysRange(WeekRange(startMs, endMs), first, last, first.month == last.month)
            else WeekRange(startMs, endMs) == ""
  {
    CivilIsTheDate(startMs, first);
    CivilIsTheDate(endMs - 1, last);
    RangeOfDates(Civil(startMs), Civil(endMs - 1), first, last);
  }

  lemma WeekSpan(startMs: int)
    ensures startMs / DAY_MS <= (startMs + 7 * DAY_MS - 1) / DAY_MS <= startMs / DAY_MS + 7
  {
  }

  lemma SameMonthSameYear(a: Date, b: Date)
    requires ValidDate(a) && ValidDate(b) && a.month == b.month
    requires DayNumber(a) <= DayNumber(b) <= DayNumber(a) + 7
    ensures a.year == b.year
  {
    MonthTable(a.year);
    MonthTable(b.year);
    if a.year < b.year { YearsInOrder(a.year, b.year); }
    if b.year < a.year { YearsInOrder(b.year, a.year); }
  }

  /** A recap week runs from its first day to the sixth day after it; the month is written once
      exactly when both days are in the same month of the same year. */
  lemma WeekRangeNamesBothEnds(startMs: int, first: Date, last: Date)
    requires startMs > 0 && DateOfInstant(startMs, first)
    requires DateOfInstant(startMs + 7 * DAY_MS - 1, last)
    ensures SaysRange(WeekRange(startMs, startMs + 7 * DAY_MS), first, last,
                      first.month == last.month && first.year == last.year)
  {
    WeekSpan(startMs);
    if first.month == last.month { SameMonthSameYear(first, last); }
    RangeNamesBothEnds(startMs, startMs + 7 * DAY_MS, first, last);
  }

  // ----- weekdays -----

  /** The English name of a weekday, 0 being Sunday. */
  function WeekdayName(index: int): string
    requires 0 <= index < 7
  {
    match index
    case 0 => "Sunday"
    case 1 => "Monday"
    case 2 => "Tuesday"
    case 3 => "Wednesday"
    case 4 => "Thursday"
    case 5 => "Friday"
    case _ => "Saturday"
  }

  /** The weekday of a date as Appendix B of RFC 3339 computes it: 0 is Sunday. */
  function AppendixB(d: Date): int {
    var month := if d.month - 2 < 1 then d.month + 10 else d.month - 2;
    var year := if d.month - 2 < 1 then d.year - 1 else d.year;
    var cent := year / 100;
    var yy := year % 100;
    ((26 * month - 2) / 10 + d.day + yy + yy / 4 + cent / 4 + 5 * cent) % 7
  }

  lemma ModSame(a: int, b: int, k: int)
    requires a == b + 7 * k
    ensures a % 7 == b % 7
  {
  }

  /** The weekday of 1 March of `year`, from its century and the year within it. */
  lemma AppendixBYear(year: int)
    ensures (DaysToYear(year + 1) - 302) % 7
            == (year % 100 + (year % 100) / 4 + (year / 100) / 4 + 5 * (year / 100) + 3) % 7
  {
    DaysToYearClosed(year + 1);
    var cent, yy := year / 100, year % 100;
    assert year / 4 == 25 * cent + yy / 4;
    assert year / 400 == cent / 4;
    ModSame(DaysToYear(year + 1) - 302, yy + yy / 4 + cent / 4 + 5 * cent + 3, 5_217 * cent + 52 * yy - 102_781);
  }

  /** Days from 1 March to the first of each month, January first. */
  const FROM_MARCH := [306, 337, 0, 31, 61, 92, 122, 153, 184, 214, 245, 275]

  lemma FromMarch(year: int, month: int)
    requires 1 <= month <= 12
    ensures FROM_MARCH[month - 1] == DaysToMonth(year, month) + if month <= 2 then 306 else -DaysToMonth(year, 3)
  {
    MonthTable(year);
  }

  /** Appendix B counts the months of a March-based year right, modulo 7. */
  lemma AppendixBMonth(month: int)
    requires 1 <= month <= 12
    ensures (26 * (if month - 2 < 1 then month + 10 else month - 2) - 2) / 10 % 7 == (FROM_MARCH[month - 1] + 2) % 7
  {
  }

  lemma AddMod(a: int, b: int, c: int, d: int)
    requires a % 7 == c % 7 && b % 7 == d % 7
    ensures (a + b) % 7 == (c + d) % 7
  {
  }

  /** The weekday the feed prints is the one Appendix B of RFC 3339 gives for the same day. */
  lemma WeekdayIsAppendixB(ms: int, d: Date)
    requires DateOfInstant(ms, d)
    ensures WeekdayIndex(ms) == AppendixB(d) && WeekdayOf(ms) == WeekdayName(AppendixB(d))
  {
    var my := if d.month <= 2 then d.year - 1 else d.year;
    var month := if d.month - 2 < 1 then d.month + 10 else d.month - 2;
    var doy := FROM_MARCH[d.month - 1] + d.day - 1;
    var y := my % 100 + (my % 100) / 4 + (my / 100) / 4 + 5 * (my / 100);
    AppendixBYear(my);
    AppendixBMonth(d.month);
    FromMarch(d.year, d.month);
    MonthTable(d.year);
    FirstOfNextYear(d.year);
    AddMod((26 * month - 2) / 10, d.day, FROM_MARCH[d.month - 1] + 2, d.day);
    assert DayNumber(d) + 4 == DaysToYear(my + 1) - 302 + doy;
    AddMod(DaysToYear(my + 1) - 302, doy, y + 3, doy);
    AddMod(y, (26 * month - 2) / 10 + d.day, y, doy + 3);
    assert AppendixB(d) == (y + ((26 * month - 2) / 10 + d.day)) % 7;
  }

  lemma DayLater(ms: int)
    ensures (ms + DAY_MS) / DAY_MS == ms / DAY_MS + 1
  {
  }

  lemma StepMod(x: int)
    ensures (x + 1) % 7 == (x % 7 + 1) % 7
  {
  }

  /** Weekdays follow the calendar: one step per day, wrapping after Saturday. */
  lemma WeekdayStepsWithTheCalendar(ms: int, d: Date)
    requires DateOfInstant(ms, d)
    ensures DateOfInstant(ms + DAY_MS, NextDay(d))
    ensures WeekdayIndex(ms + DAY_MS) == (WeekdayIndex(ms) + 1) % 7
  {
    NextDayIsNextNumber(d);
    DayLater(ms);
    StepMod(ms / DAY_MS + 4);
  }
}
