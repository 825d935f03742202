/** The build time stamp (build-stamp/build.rs, `rfc3339_utc`). */
module BuildStamp {
  import opened Wrappers
  import opened Calendar
  import opened CivilDays
  import opened Text
  import FeedAge

  /** The first second of the year 10000. */
  const YEAR_10000 := 253_402_300_800

  lemma StampYearIsNatural(secs: nat)
    ensures var d := CivilFromDays(secs / 86_400); d.year >= 1970 && ValidDate(d)
  {
    var days := secs / 86_400;
    CivilFromDaysIsRight(days);
    OrderPreserved(CivilFromDays(days), EPOCH);
    NextDayIsNextNumber(EPOCH);
  }

  function Stamp(d: Date, rem: nat): string
    requires ValidDate(d) && d.year >= 0
  {
    Padded(d.year, 4) + "-" + Padded(d.month, 2) + "-" + Padded(d.day, 2) + "T"
    + Padded(rem / 3_600, 2) + ":" + Padded(rem % 3_600 / 60, 2) + ":" + Padded(rem % 60, 2) + "Z"
  }

  function Rfc3339Utc(secs: nat): string {
    StampYearIsNatural(secs);
    Stamp(CivilFromDays(secs / 86_400), secs % 86_400)
  }

  // ----- a reader of section 5.6 date-times in UTC, whole seconds -----

  predicate AllDigits(s: string) { forall i :: 0 <= i < |s| ==> IsDigit(s[i]) }

  function ParseDate(s: string): Option<Date> {
    if |s| == 10 && s[4] == '-' && s[7] == '-' && AllDigits(s[..4]) && AllDigits(s[5..7]) && AllDigits(s[8..]) then
      var d := Date(Value(s[..4]), Value(s[5..7]), Value(s[8..]));
      if ValidDate(d) then Some(d) else None
    else None
  }

  function ParseTime(s: string): Option<int> {
    if |s| == 9 && s[2] == ':' && s[5] == ':' && s[8] == 'Z'
       && AllDigits(s[..2]) && AllDigits(s[3..5]) && AllDigits(s[6..8]) then
      var h, m, sec := Value(s[..2]), Value(s[3..5]), Value(s[6..8]);
      if h < 24 && m < 60 && sec < 60 then Some(h * 3_600 + m * 60 + sec) else None
    else None
  }

  function ParseDateTime(s: string): Option<int> {
    if |s| == 20 && s[10] == 'T' then
      var d, t := ParseDate(s[..10]), ParseTime(s[11..]);
      if d.Some? && t.Some? then Some(DayNumber(d.value) * 86_400 + t.value) else None
    else None
  }

  /** The stamp with every field at its fixed width. */
  function FixedDate(d: Date): string
    requires ValidDate(d) && d.year >= 0
  {
    Digits(d.year, 4) + ("-" + (Digits(d.month, 2) + ("-" + Digits(d.day, 2))))
  }

  function FixedTime(h: nat, m: nat, s: nat): string {
    Digits(h, 2) + (":" + (Digits(m, 2) + (":" + (Digits(s, 2) + "Z"))))
  }

  function Fixed(d: Date, rem: nat): string
    requires ValidDate(d) && d.year >= 0
  {
    FixedDate(d) + ("T" + FixedTime(rem / 3_600, rem % 3_600 / 60, rem % 60))
  }

  lemma Powers()
    ensures Pow10(2) == 100 && Pow10(4) == 10_000
  {
    assert Pow10(1) == 10;
    assert Pow10(3) == 1_000;
  }

  lemma Regroup(y: string, m: string, d: string, h: string, mi: string, s: string)
    ensures y + "-" + m + "-" + d + "T" + h + ":" + mi + ":" + s + "Z"
            == (y + ("-" + (m + ("-" + d)))) + ("T" + (h + (":" + (mi + (":" + (s + "Z"))))))
  {
  }

  lemma StampIsFixed(d: Date, rem: nat)
    requires ValidDate(d) && 0 <= d.year < 10_000 && rem < 86_400
    ensures Stamp(d, rem) == Fixed(d, rem)
  {
    Powers();
    PaddedIsDigits(d.year, 4);
    PaddedIsDigits(d.month, 2);
    PaddedIsDigits(d.day, 2);
    PaddedIsDigits(rem / 3_600, 2);
    PaddedIsDigits(rem % 3_600 / 60, 2);
    PaddedIsDigits(rem % 60, 2);
    Regroup(Digits(d.year, 4), Digits(d.month, 2), Digits(d.day, 2), Digits(rem / 3_600, 2),
            Digits(rem % 3_600 / 60, 2), Digits(rem % 60, 2));
  }

  lemma YearBelow10000(days: nat)
    requires days < YEAR_10000 / 86_400
    ensures CivilFromDays(days).year < 10_000
  {
    CivilFromDaysIsRight(days);
    DaysToYearClosed(10_000);
    OrderPreserved(CivilFromDays(days), Date(10_000, 1, 1));
  }

  lemma DateFields(y: string, m: string, d: string)
    requires |y| == 4 && |m| == 2 && |d| == 2
    ensures var t := y + ("-" + (m + ("-" + d)));
            |t| == 10 && t[4] == '-' && t[7] == '-' && t[..4] == y && t[5..7] == m && t[8..] == d
  {
  }

  lemma TimeFields(h: string, m: string, s: string)
    requires |h| == 2 && |m| == 2 && |s| == 2
    ensures var t := h + (":" + (m + (":" + (s + "Z"))));
            && |t| == 9 && t[2] == ':' && t[5] == ':' && t[8] == 'Z'
            && t[..2] == h && t[3..5] == m && t[6..8] == s
  {
  }

  lemma ParseFixedDate(d: Date)
    requires ValidDate(d) && 0 <= d.year < 10_000
    ensures |FixedDate(d)| == 10 && ParseDate(FixedDate(d)) == Some(d)
  {
    Powers();
    DateFields(Digits(d.year, 4), Digits(d.month, 2), Digits(d.day, 2));
    ValueOfDigits(d.year, 4);
    ValueOfDigits(d.month, 2);
    ValueOfDigits(d.day, 2);
  }

  lemma ParseFixedTime(h: nat, m: nat, s: nat)
    requires h < 24 && m < 60 && s < 60
    ensures |FixedTime(h, m, s)| == 9 && ParseTime(FixedTime(h, m, s)) == Some(h * 3_600 + m * 60 + s)
  {
    Powers();
    TimeFields(Digits(h, 2), Digits(m, 2), Digits(s, 2));
    ValueOfDigits(h, 2);
    ValueOfDigits(m, 2);
    ValueOfDigits(s, 2);
  }

  lemma SameRest60(x: nat, k: nat)
    ensures (x + 60 * k) % 60 == x % 60
  {
  }

  lemma TimeOfDay(rem: nat)
    ensures rem / 3_600 * 3_600 + rem % 3_600 / 60 * 60 + rem % 60 == rem
  {
    var h, r := rem / 3_600, rem % 3_600;
    assert rem == r + 60 * (60 * h);
    SameRest60(r, 60 * h);
    assert r == r / 60 * 60 + r % 60;
  }

  lemma ParseJoined(date: string, time: string)
    requires |date| == 10 && |time| == 9 && ParseDate(date).Some? && ParseTime(time).Some?
    ensures ParseDateTime(date + ("T" + time)) == Some(DayNumber(ParseDate(date).value) * 86_400 + ParseTime(time).value)
  {
    var t := date + ("T" + time);
    assert t[..10] == date && t[11..] == time;
  }

  lemma ParseFixed(d: Date, h: nat, m: nat, s: nat)
    requires ValidDate(d) && 0 <= d.year < 10_000 && h < 24 && m < 60 && s < 60
    ensures ParseDateTime(FixedDate(d) + ("T" + FixedTime(h, m, s)))
            == Some(DayNumber(d) * 86_400 + (h * 3_600 + m * 60 + s))
  {
    ParseFixedDate(d);
    ParseFixedTime(h, m, s);
    ParseJoined(FixedDate(d), FixedTime(h, m, s));
  }

  lemma ParseFixedStamp(d: Date, rem: nat)
    requires ValidDate(d) && 0 <= d.year < 10_000 && rem < 86_400
    ensures ParseDateTime(Fixed(d, rem)) == Some(DayNumber(d) * 86_400 + rem)
  {
    TimeOfDay(rem);
    ParseFixed(d, rem / 3_600, rem % 3_600 / 60, rem % 60);
  }

  lemma ParseStamp(d: Date, rem: nat)
    requires ValidDate(d) && 0 <= d.year < 10_000 && rem < 86_400
    ensures ParseDateTime(Stamp(d, rem)) == Some(DayNumber(d) * 86_400 + rem)
  {
    StampIsFixed(d, rem);
    ParseFixedStamp(d, rem);
  }

  /** Below the year 10000 the stamp is a section 5.6 date-time that reads back as the same second. */
  lemma StampRoundTrip(secs: nat)
    requires secs < 253_402_300_800
    ensures ParseDateTime(Rfc3339Utc(secs)) == Some(secs)
  {
    StampYearIsNatural(secs);
    YearBelow10000(secs / 86_400);
    CivilFromDaysIsRight(secs / 86_400);
    ParseStamp(CivilFromDays(secs / 86_400), secs % 86_400);
  }

  /** One field of the stamp and what follows it. */
  lemma FieldOrder(m: nat, n: nat, w: nat, sep: string, a: string, b: string)
    requires m < Pow10(w) && n < Pow10(w)
    ensures Less(Digits(m, w) + (sep + a), Digits(n, w) + (sep + b)) <==> m < n || (m == n && Less(a, b))
  {
    LessConcat(Digits(m, w), Digits(n, w), sep + a, sep + b);
    LessConcat(sep, sep, a, b);
    LessIrreflexive(sep);
    DigitsOrder(m, n, w);
  }

  lemma DatesInOrder(a: Date, b: Date)
    requires ValidDate(a) && 0 <= a.year < 10_000 && ValidDate(b) && 0 <= b.year < 10_000
    ensures Less(FixedDate(a), FixedDate(b)) <==> Before(a, b)
    ensures FixedDate(a) == FixedDate(b) <==> a == b
  {
    Powers();
    ParseFixedDate(a);
    ParseFixedDate(b);
    DigitsOrder(a.day, b.day, 2);
    FieldOrder(a.month, b.month, 2, "-", Digits(a.day, 2), Digits(b.day, 2));
    FieldOrder(a.year, b.year, 4, "-", Digits(a.month, 2) + ("-" + Digits(a.day, 2)),
               Digits(b.month, 2) + ("-" + Digits(b.day, 2)));
  }

  lemma TimesInOrder(ah: nat, am: nat, a: nat, bh: nat, bm: nat, b: nat)
    requires ah < 24 && am < 60 && a < 60 && bh < 24 && bm < 60 && b < 60
    ensures Less(FixedTime(ah, am, a), FixedTime(bh, bm, b))
            <==> ah < bh || (ah == bh && (am < bm || (am == bm && a < b)))
  {
    Powers();
    var sa, sb := Digits(a, 2) + "Z", Digits(b, 2) + "Z";
    assert sa == Digits(a, 2) + ("Z" + "") && sb == Digits(b, 2) + ("Z" + "");
    FieldOrder(a, b, 2, "Z", "", "");
    FieldOrder(am, bm, 2, ":", sa, sb);
    FieldOrder(ah, bh, 2, ":", Digits(am, 2) + (":" + sa), Digits(bm, 2) + (":" + sb));
  }

  lemma TimeOrder(a: int, b: int)
    requires 0 <= a < 86_400 && 0 <= b < 86_400
    ensures a < b <==> (a / 3_600 < b / 3_600
                        || (a / 3_600 == b / 3_600
                            && (a % 3_600 / 60 < b % 3_600 / 60
                                || (a % 3_600 / 60 == b % 3_600 / 60 && a % 60 < b % 60))))
  {
  }

  lemma FieldsInOrder(a: Date, ra: nat, b: Date, rb: nat)
    requires ValidDate(a) && 0 <= a.year < 10_000 && ValidDate(b) && 0 <= b.year < 10_000
    requires ra < 86_400 && rb < 86_400
    ensures Less(Stamp(a, ra), Stamp(b, rb)) <==> Before(a, b) || (a == b && ra < rb)
  {
    StampIsFixed(a, ra);
    StampIsFixed(b, rb);
    ParseFixedDate(a);
    ParseFixedDate(b);
    var ta := FixedTime(ra / 3_600, ra % 3_600 / 60, ra % 60);
    var tb := FixedTime(rb / 3_600, rb % 3_600 / 60, rb % 60);
    LessConcat(FixedDate(a), FixedDate(b), "T" + ta, "T" + tb);
    LessConcat("T", "T", ta, tb);
    DatesInOrder(a, b);
    TimesInOrder(ra / 3_600, ra % 3_600 / 60, ra % 60, rb / 3_600, rb % 3_600 / 60, rb % 60);
    TimeOrder(ra, rb);
  }

  /** Stamps sort as strings in the order of time. */
  lemma StampOrder(a: nat, b: nat)
    requires a < 253_402_300_800 && b < 253_402_300_800
    ensures Less(Rfc3339Utc(a), Rfc3339Utc(b)) <==> a < b
  {
    StampYearIsNatural(a);
    StampYearIsNatural(b);
    YearBelow10000(a / 86_400);
    YearBelow10000(b / 86_400);
    CivilKeepsOrder(a / 86_400, b / 86_400);
    CivilKeepsOrder(b / 86_400, a / 86_400);
    FieldsInOrder(CivilFromDays(a / 86_400), a % 86_400, CivilFromDays(b / 86_400), b % 86_400);
  }

  /** The stamp's date and the feed's dates agree on every day. */
  lemma CopiesAgree(secs: nat)
    ensures var d := CivilFromDays(secs / 86_400);
            && FeedAge.Civil(secs * 1_000) == (d.day, d.month - 1, d.year)
            && 1 <= d.month <= 12 && d.day >= 0
            && FeedAge.DateLabel(secs * 1_000) == Decimal(d.day) + " " + FeedAge.MonthName(d.month)
  {
    var d := CivilFromDays(secs / 86_400);
    CivilFromDaysIsRight(secs / 86_400);
    assert secs * 1_000 / 86_400_000 == secs / 86_400;
    FeedAge.CivilIsTheDate(secs * 1_000, d);
    FeedAge.LabelIsTheDate(secs * 1_000, d);
  }
}
