/** The civil-from-days arithmetic shared by client/src/feed_age.rs and build-stamp/build.rs, and
    its proof against the calendar. Years here run from March to February, so that the leap day is
    the last day; an era is 400 such years. */
module CivilDays {
  import opened Calendar

  const DAYS_PER_ERA := 146_097

  /** The year of an era from the day of the era. */
  function YearOfEra(doe: int): int {
    (doe - doe / 1_460 + doe / 36_524 - doe / 146_096) / 365
  }

  function DayOfYear(doe: int): int {
    var yoe := YearOfEra(doe);
    doe - (365 * yoe + yoe / 4 - yoe / 100)
  }

  /** Day and month from the day of a March-based year. */
  function DayAndMonth(doy: int): (int, int) {
    var mp := (5 * doy + 2) / 153;
    (doy - (153 * mp + 2) / 5 + 1, if mp < 10 then mp + 3 else mp - 9)
  }

  /** The date of day `doe` of an era. */
  function DateInEra(doe: int, era: int): Date {
    var (day, month) := DayAndMonth(DayOfYear(doe));
    Date(YearOfEra(doe) + era * 400 + (if month <= 2 then 1 else 0), month, day)
  }

  /** The date of a day counted from 1970-01-01. */
  function CivilFromDays(days: int): Date {
    var z := days + 719_468;
    DateInEra(z % DAYS_PER_ERA, z / DAYS_PER_ERA)
  }

  // ----- the year of the era -----

  /** A day of the era as century, four-year block, year and day. */
  lemma Quotients(doe: int) returns (c: int, q: int, y: int, d: int)
    requires 0 <= doe < DAYS_PER_ERA
    ensures 0 <= c < 4 && 0 <= q < 25 && 0 <= y < 4 && 0 <= d < 366
    ensures doe == 36_524 * c + 1_461 * q + 365 * y + d
    ensures d == 365 ==> y == 3 && (q < 24 || c == 3)
  {
    c := if doe / 36_524 < 4 then doe / 36_524 else 3;
    var r := doe - 36_524 * c;
    q := if r / 1_461 < 25 then r / 1_461 else 24;
    var t := r - 1_461 * q;
    y := if t / 365 < 4 then t / 365 else 3;
    d := t - 365 * y;
  }

  lemma FourYearDivision(doe: int, c: int, q: int, e: int)
    requires doe == 1_460 * (25 * c + q) + e && 0 <= e < 2_920
    ensures doe / 1_460 == 25 * c + q + if e >= 1_460 then 1 else 0
  {
  }

  lemma CenturyDivision(doe: int, c: int, r: int)
    requires 0 <= c < 4 && doe == 36_524 * c + r && 0 <= r <= 36_524 && (r == 36_524 ==> c == 3)
    ensures doe / 36_524 - doe / 146_096 == c
  {
  }

  /** The three divisions that correct `doe` before it is divided by 365. */
  lemma Corrections(doe: int, c: int, q: int, y: int, d: int)
    requires 0 <= c < 4 && 0 <= q < 25 && 0 <= y < 4 && 0 <= d < 366
    requires doe == 36_524 * c + 1_461 * q + 365 * y + d
    requires d == 365 ==> y == 3 && (q < 24 || c == 3)
    ensures doe / 1_460 == 25 * c + q + if 24 * c + q + 365 * y + d >= 1_460 then 1 else 0
    ensures doe / 36_524 - doe / 146_096 == c
  {
    FourYearDivision(doe, c, q, 24 * c + q + 365 * y + d);
    CenturyDivision(doe, c, 1_461 * q + 365 * y + d);
  }

  lemma YearFromQuotients(doe: int, c: int, q: int, y: int, d: int)
    requires 0 <= c < 4 && 0 <= q < 25 && 0 <= y < 4 && 0 <= d < 366
    requires doe == 36_524 * c + 1_461 * q + 365 * y + d
    requires d == 365 ==> y == 3 && (q < 24 || c == 3)
    ensures YearOfEra(doe) == 100 * c + 4 * q + y
    ensures DayOfYear(doe) == d
  {
    Corrections(doe, c, q, y, d);
    var yoe := 100 * c + 4 * q + y;
    var carry := if 24 * c + q + 365 * y + d >= 1_460 then 1 else 0;
    assert doe - doe / 1_460 + doe / 36_524 - doe / 146_096 == 365 * yoe + (d - carry);
    assert 0 <= d - carry < 365;
    assert yoe / 4 == 25 * c + q && yoe / 100 == c;
  }

  lemma BlockEndsLeap(c: int, q: int)
    requires 0 <= c < 4 && 0 <= q < 25 && (q < 24 || c == 3)
    ensures IsLeap(100 * c + 4 * q + 4)
  {
    var next := 100 * c + 4 * (q + 1);
    assert next % 4 == 0;
    assert q < 24 ==> next % 100 == 4 * (q + 1);
  }

  lemma YearOfEraIsRight(doe: int)
    requires 0 <= doe < DAYS_PER_ERA
    ensures 0 <= YearOfEra(doe) < 400
    ensures 0 <= DayOfYear(doe) < 366
    ensures DayOfYear(doe) == 365 ==> IsLeap(YearOfEra(doe) + 1)
  {
    var c, q, y, d := Quotients(doe);
    YearFromQuotients(doe, c, q, y, d);
    if d == 365 { BlockEndsLeap(c, q); }
  }

  // ----- the month -----

  /** From day `doy` of the March-based year `my`: the date, and its place in its own year. */
  lemma MonthIsRight(doy: int, my: int)
    requires 0 <= doy < 366 && (doy == 365 ==> IsLeap(my + 1))
    ensures var (day, month) := DayAndMonth(doy);
            var year := my + if month <= 2 then 1 else 0;
            && ValidDate(Date(year, month, day))
            && DaysToMonth(year, month) + day - 1 == doy + if month <= 2 then -306 else DaysToMonth(my, 3)
  {
    MonthTable(my);
    MonthTable(my + 1);
  }

  // ----- all together -----

  lemma QuotientShift(x: int, era: int)
    ensures (x + 400 * era) / 4 == x / 4 + 100 * era
    ensures (x + 400 * era) / 100 == x / 100 + 4 * era
    ensures (x + 400 * era) / 400 == x / 400 + era
  {
  }

  lemma SameRest4(x: int, k: int)
    ensures (x + 4 * k) % 4 == x % 4
  {
  }

  lemma SameRest100(x: int, k: int)
    ensures (x + 100 * k) % 100 == x % 100
  {
  }

  lemma SameRest400(x: int, k: int)
    ensures (x + 400 * k) % 400 == x % 400
  {
  }

  lemma LeapShift(x: int, era: int)
    ensures IsLeap(x + 400 * era) == IsLeap(x)
  {
    var y := x + 400 * era;
    assert y % 4 == x % 4 by { SameRest4(x, 100 * era); }
    assert y % 100 == x % 100 by { SameRest100(x, 4 * era); }
    assert y % 400 == x % 400 by { SameRest400(x, era); }
  }

  lemma EraShift(yoe: int, era: int)
    ensures IsLeap(yoe + 1) == IsLeap(yoe + 400 * era + 1)
    ensures DaysToYear(yoe + 400 * era + 1) == DaysToYear(yoe + 1) + DAYS_PER_ERA * era
  {
    var later, now := DaysToYear(yoe + 400 * era + 1), DaysToYear(yoe + 1);
    LeapShift(yoe + 1, era);
    QuotientShift(yoe, era);
    assert later == 365 * (yoe + 400 * era + 1 - 1970) + (yoe + 400 * era) / 4 - (yoe + 400 * era) / 100
                    + (yoe + 400 * era) / 400 - 477 by { DaysToYearClosed(yoe + 400 * era + 1); }
    assert now == 365 * (yoe + 1 - 1970) + yoe / 4 - yoe / 100 + yoe / 400 - 477 by { DaysToYearClosed(yoe + 1); }
  }

  lemma DateOfMarchDay(doy: int, my: int)
    requires 0 <= doy < 366 && (doy == 365 ==> IsLeap(my + 1))
    ensures var (day, month) := DayAndMonth(doy);
            var d := Date(my + (if month <= 2 then 1 else 0), month, day);
            ValidDate(d) && DayNumber(d) == DaysToYear(my + 1) - 306 + doy
  {
    MonthIsRight(doy, my);
    FirstOfNextYear(my);
    MonthTable(my);
  }

  lemma EraStart(yoe: int, doy: int, era: int)
    requires 0 <= yoe < 400
    ensures DaysToYear(yoe + 400 * era + 1) - 306 + doy
            == DAYS_PER_ERA * era + (365 * yoe + yoe / 4 - yoe / 100) + doy - 719_468
  {
    EraShift(yoe, era);
    DaysToYearClosed(yoe + 1);
  }

  /** Year `yoe` of an era and day `doy` of that year. */
  lemma EraDate(yoe: int, doy: int, era: int)
    requires 0 <= yoe < 400 && 0 <= doy < 366 && (doy == 365 ==> IsLeap(yoe + 1))
    ensures var (day, month) := DayAndMonth(doy);
            var d := Date(yoe + era * 400 + (if month <= 2 then 1 else 0), month, day);
            && ValidDate(d)
            && DayNumber(d) == DAYS_PER_ERA * era + (365 * yoe + yoe / 4 - yoe / 100) + doy - 719_468
  {
    assert IsLeap(yoe + 1) == IsLeap(yoe + 400 * era + 1) by { LeapShift(yoe + 1, era); }
    DateOfMarchDay(doy, yoe + 400 * era);
    EraStart(yoe, doy, era);
  }

  lemma EraDayIsRight(doe: int, era: int)
    requires 0 <= doe < DAYS_PER_ERA
    ensures ValidDate(DateInEra(doe, era)) && DayNumber(DateInEra(doe, era)) == DAYS_PER_ERA * era + doe - 719_468
  {
    YearOfEraIsRight(doe);
    EraDate(YearOfEra(doe), DayOfYear(doe), era);
  }

  /** The conversion gives a real date, and that date is the day it was asked for: for every day,
      before the epoch too. */
  lemma CivilFromDaysIsRight(days: int)
    ensures ValidDate(CivilFromDays(days)) && DayNumber(CivilFromDays(days)) == days
  {
    var z := days + 719_468;
    EraDayIsRight(z % DAYS_PER_ERA, z / DAYS_PER_ERA);
  }

  /** Every date of the calendar is the date of its day number. */
  lemma DayNumberRoundTrip(d: Date)
    requires ValidDate(d)
    ensures CivilFromDays(DayNumber(d)) == d
  {
    CivilFromDaysIsRight(DayNumber(d));
    OrderPreserved(CivilFromDays(DayNumber(d)), d);
  }

  lemma NumberDetermines(d: Date, days: int)
    requires ValidDate(d) && DayNumber(d) == days
    ensures CivilFromDays(days) == d
  {
    DayNumberRoundTrip(d);
  }

  lemma NextFrom(d: Date, days: int)
    requires ValidDate(d) && DayNumber(d) == days
    ensures CivilFromDays(days + 1) == NextDay(d)
  {
    NextDayIsNextNumber(d);
    NumberDetermines(NextDay(d), days + 1);
  }

  lemma EpochIsDayZero()
    ensures CivilFromDays(0) == EPOCH
  {
    NumberDetermines(EPOCH, 0);
  }

  /** Walking the days walks the calendar. */
  lemma CivilStepsByOneDay(days: int)
    ensures CivilFromDays(0) == EPOCH
    ensures CivilFromDays(days + 1) == NextDay(CivilFromDays(days))
  {
    EpochIsDayZero();
    CivilFromDaysIsRight(days);
    NextFrom(CivilFromDays(days), days);
  }

  /** The conversion keeps the order of days, strictly. */
  lemma CivilKeepsOrder(a: int, b: int)
    ensures a < b <==> Before(CivilFromDays(a), CivilFromDays(b))
  {
    CivilFromDaysIsRight(a);
    CivilFromDaysIsRight(b);
    OrderPreserved(CivilFromDays(a), CivilFromDays(b));
  }
}
