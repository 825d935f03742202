/** Strings as the sources print and compare them. */
module Text {
  function Digit(n: int): char
    requires 0 <= n < 10
  {
    ('0' as int + n) as char
  }

  predicate IsDigit(c: char) { '0' <= c <= '9' }

  function Pow10(w: nat): nat { if w == 0 then 1 else 10 * Pow10(w - 1) }

  /** Decimal without padding. */
  function Decimal(n: nat): string {
    if n < 10 then [Digit(n)] else Decimal(n / 10) + [Digit(n % 10)]
  }

  function Zeros(k: nat): (s: string)
    ensures |s| == k
  {
    if k == 0 then "" else "0" + Zeros(k - 1)
  }

  /** Decimal padded with zeros to at least `w` characters. */
  function Padded(n: nat, w: nat): string {
    if |Decimal(n)| < w then Zeros(w - |Decimal(n)|) + Decimal(n) else Decimal(n)
  }

  /** The last `w` decimal digits. */
  function Digits(n: nat, w: nat): (s: string)
    ensures |s| == w && forall i :: 0 <= i < w ==> IsDigit(s[i])
  {
    if w == 0 then "" else Digits(n / 10, w - 1) + [Digit(n % 10)]
  }

  function Value(s: string): nat
    requires forall i :: 0 <= i < |s| ==> IsDigit(s[i])
  {
    if s == "" then 0
    else
      assert IsDigit(s[|s| - 1]);
      10 * Value(s[..|s| - 1]) + (s[|s| - 1] as int - '0' as int)
  }

  lemma ZerosEnd(k: nat)
    ensures Zeros(k + 1) == Zeros(k) + "0"
  {
    if k > 0 { ZerosEnd(k - 1); }
  }

  /** One more digit, one more place of padding. */
  lemma PaddedStep(n: nat, w: nat)
    requires w > 1
    ensures Padded(n, w) == Padded(n / 10, w - 1) + [Digit(n % 10)]
  {
    if n < 10 {
      assert n / 10 == 0 && n % 10 == n && Decimal(0) == "0" && Decimal(n) == [Digit(n)];
      ZerosEnd(w - 2);
      assert Zeros(w - 1) + [Digit(n)] == Zeros(w - 2) + "0" + [Digit(n)];
    } else {
      assert Decimal(n) == Decimal(n / 10) + [Digit(n % 10)];
    }
  }

  lemma {:induction false} PaddedIsDigits(n: nat, w: nat)
    requires n < Pow10(w) && w > 0
    ensures Padded(n, w) == Digits(n, w)
  {
    if w == 1 {
      assert n < 10 && Digits(n / 10, 0) == "";
    } else {
      PaddedIsDigits(n / 10, w - 1);
      PaddedStep(n, w);
    }
  }

  lemma {:induction false} ValueOfDigits(n: nat, w: nat)
    requires n < Pow10(w)
    ensures Value(Digits(n, w)) == n
  {
    if w > 0 {
      ValueOfDigits(n / 10, w - 1);
      assert Digits(n, w)[..w - 1] == Digits(n / 10, w - 1);
    }
  }

  /** The decimal has digits only, reads as the number, and begins with 0 for 0 alone. */
  lemma {:induction false} DecimalReads(n: nat)
    ensures (forall i :: 0 <= i < |Decimal(n)| ==> IsDigit(Decimal(n)[i])) && Value(Decimal(n)) == n
    ensures Decimal(n) != "" && (Decimal(n)[0] == '0' <==> n == 0)
  {
    if n >= 10 {
      DecimalReads(n / 10);
      assert Decimal(n)[..|Decimal(n)| - 1] == Decimal(n / 10);
    } else {
      assert Decimal(n)[..0] == "";
    }
  }

  // ----- white space and case -----

  /** `char::is_whitespace`: the White_Space property. */
  predicate IsWhitespace(c: char) {
    || '\U{9}' <= c <= '\U{d}' || c == ' ' || c == '\U{85}' || c == '\U{a0}' || c == '\U{1680}'
    || '\U{2000}' <= c <= '\U{200a}' || c == '\U{2028}' || c == '\U{2029}' || c == '\U{202f}' || c == '\U{205f}'
    || c == '\U{3000}'
  }

  function TrimStart(s: string): (r: string)
    ensures |r| <= |s| && s[|s| - |r|..] == r
    ensures r != "" ==> !IsWhitespace(r[0])
  {
    if s != "" && IsWhitespace(s[0]) then TrimStart(s[1..]) else s
  }

  function TrimEnd(s: string): (r: string)
    ensures r <= s
    ensures r != "" ==> !IsWhitespace(r[|r| - 1])
  {
    if s != "" && IsWhitespace(s[|s| - 1]) then TrimEnd(s[..|s| - 1]) else s
  }

  /** `str::trim`. */
  function Trim(s: string): string { TrimEnd(TrimStart(s)) }

  predicate Blank(s: string, from: nat, to: nat) { to <= |s| && forall i :: from <= i < to ==> IsWhitespace(s[i]) }

  lemma {:induction false} TrimStartIs(s: string)
    ensures Blank(s, 0, |s| - |TrimStart(s)|)
  {
    if s != "" && IsWhitespace(s[0]) {
      TrimStartIs(s[1..]);
      forall i | 0 <= i < |s| - |TrimStart(s)| ensures IsWhitespace(s[i]) {
        if i > 0 { assert s[1..][i - 1] == s[i]; }
      }
    }
  }

  lemma {:induction false} TrimEndIs(s: string)
    ensures Blank(s, |TrimEnd(s)|, |s|)
  {
    if s != "" && IsWhitespace(s[|s| - 1]) {
      TrimEndIs(s[..|s| - 1]);
      forall i | |TrimEnd(s)| <= i < |s| ensures IsWhitespace(s[i]) {
        if i < |s| - 1 { assert s[..|s| - 1][i] == s[i]; }
      }
    }
  }

  lemma BlankTail(s: string, a: nat, t: string, n: nat)
    requires a <= |s| && t == s[a..] && Blank(t, n, |t|)
    ensures Blank(s, a + n, |s|)
  {
    forall i | a + n <= i < |s| ensures IsWhitespace(s[i]) { assert t[i - a] == s[i]; }
  }

  /** Trimming takes white space off both ends and nothing else: what is left is a part of the text
      with white space before and after it. (It neither starts nor ends with any.) */
  lemma TrimIs(s: string) returns (a: nat, b: nat)
    ensures a <= b <= |s| && Trim(s) == s[a..b] && Blank(s, 0, a) && Blank(s, b, |s|)
  {
    var t := TrimStart(s);
    a := |s| - |t|;
    b := a + |TrimEnd(t)|;
    TrimStartIs(s);
    TrimEndIs(t);
    BlankTail(s, a, t, |TrimEnd(t)|);
    assert t == s[a..] && TrimEnd(t) == t[..|TrimEnd(t)|] == s[a..b];
  }

  /** The White_Space property of Unicode, character by character. */
  lemma WhitespaceIs(c: char)
    ensures IsWhitespace(c)
            <==> c in "\t\n\U{b}\U{c}\r \U{85}\U{a0}\U{1680}\U{2000}\U{2001}\U{2002}\U{2003}\U{2004}\U{2005}"
                 || c in "\U{2006}\U{2007}\U{2008}\U{2009}\U{200a}\U{2028}\U{2029}\U{202f}\U{205f}\U{3000}"
  {
  }

  function LowerChar(c: char): char { if 'A' <= c <= 'Z' then (c as int + 32) as char else c }

  function UpperChar(c: char): char { if 'a' <= c <= 'z' then (c as int - 32) as char else c }

  /** `to_ascii_lowercase`. */
  function Lower(s: string): (r: string)
    ensures |r| == |s| && forall i :: 0 <= i < |s| ==> r[i] == LowerChar(s[i])
  {
    seq(|s|, i requires 0 <= i < |s| => LowerChar(s[i]))
  }

  /** `to_ascii_uppercase`. */
  function Upper(s: string): (r: string)
    ensures |r| == |s| && forall i :: 0 <= i < |s| ==> r[i] == UpperChar(s[i])
  {
    seq(|s|, i requires 0 <= i < |s| => UpperChar(s[i]))
  }

  /** The ASCII letters change into each other, one by one. */
  lemma LettersChange(i: nat)
    requires i < 26
    ensures LowerChar("ABCDEFGHIJKLMNOPQRSTUVWXYZ"[i]) == "abcdefghijklmnopqrstuvwxyz"[i]
    ensures UpperChar("abcdefghijklmnopqrstuvwxyz"[i]) == "ABCDEFGHIJKLMNOPQRSTUVWXYZ"[i]
  {
    assert "ABCDEFGHIJKLMNOPQRSTUVWXYZ"[i] as int == 65 + i && "abcdefghijklmnopqrstuvwxyz"[i] as int == 97 + i;
  }

  /** Every other character stays as it is. */
  lemma OthersStay(c: char)
    ensures c < 'A' || c > 'Z' ==> LowerChar(c) == c
    ensures c < 'a' || c > 'z' ==> UpperChar(c) == c
  {
  }

  // ----- order -----

  /** Code point order, which is also the byte order of UTF-8. */
  predicate Less(a: string, b: string) {
    b != "" && (a == "" || a[0] < b[0] || (a[0] == b[0] && Less(a[1..], b[1..])))
  }

  lemma {:induction false} LessConcat(a: string, b: string, c: string, d: string)
    requires |a| == |b|
    ensures Less(a + c, b + d) <==> Less(a, b) || (a == b && Less(c, d))
  {
    if a == "" {
      assert a + c == c && b + d == d;
    } else {
      assert (a + c)[1..] == a[1..] + c && (b + d)[1..] == b[1..] + d;
      LessConcat(a[1..], b[1..], c, d);
      assert a == b <==> a[0] == b[0] && a[1..] == b[1..];
    }
  }

  lemma LessIrreflexive(a: string)
    ensures !Less(a, a)
  {
  }

  lemma {:induction false} LessTotal(a: string, b: string)
    ensures Less(a, b) || Less(b, a) || a == b
  {
    if a != "" && b != "" {
      LessTotal(a[1..], b[1..]);
      assert a == [a[0]] + a[1..] && b == [b[0]] + b[1..];
    }
  }

  lemma {:induction false} LessTransitive(a: string, b: string, c: string)
    requires Less(a, b) && Less(b, c)
    ensures Less(a, c)
  {
    if a != "" && a[0] == b[0] == c[0] { LessTransitive(a[1..], b[1..], c[1..]); }
  }

  /** At the first place `k` where they differ, `a` ends or has the smaller character. */
  predicate LessAt(a: string, b: string, k: nat) {
    k <= |a| && k < |b| && a[..k] == b[..k] && (k == |a| || a[k] < b[k])
  }

  /** The order is that of a dictionary. */
  lemma {:induction false} LessIs(a: string, b: string)
    ensures Less(a, b) <==> exists k: nat :: LessAt(a, b, k)
  {
    if b != "" {
      if a == "" || a[0] < b[0] {
        assert LessAt(a, b, 0);
      } else if a[0] == b[0] {
        LessIs(a[1..], b[1..]);
        if Less(a[1..], b[1..]) {
          var k: nat :| LessAt(a[1..], b[1..], k);
          assert a[..k + 1] == [a[0]] + a[1..][..k] && b[..k + 1] == [b[0]] + b[1..][..k];
          assert LessAt(a, b, k + 1);
        }
        if k: nat :| LessAt(a, b, k) {
          assert a[..k][1..] == a[1..][..k - 1] && b[..k][1..] == b[1..][..k - 1];
          assert LessAt(a[1..], b[1..], k - 1);
        }
      } else {
        forall k: nat ensures !LessAt(a, b, k) {
          if 0 < k <= |a| && k < |b| { assert a[..k][0] != b[..k][0]; }
        }
      }
    }
  }

  predicate AtMost(a: string, b: string) { a == b || Less(a, b) }

  lemma AtMostIsOrder(a: string, b: string, c: string)
    ensures AtMost(a, b) || AtMost(b, a)
    ensures AtMost(a, b) && AtMost(b, c) ==> AtMost(a, c)
    ensures AtMost(a, b) && AtMost(b, a) ==> a == b
  {
    LessTotal(a, b);
    if Less(a, b) && Less(b, c) { LessTransitive(a, b, c); }
    if Less(a, b) && Less(b, a) { LessTransitive(a, b, a); LessIrreflexive(a); }
  }

  lemma {:induction false} DigitsOrder(m: nat, n: nat, w: nat)
    requires m < Pow10(w) && n < Pow10(w)
    ensures Less(Digits(m, w), Digits(n, w)) <==> m < n
    ensures Digits(m, w) == Digits(n, w) <==> m == n
  {
    ValueOfDigits(m, w);
    ValueOfDigits(n, w);
    if w > 0 {
      DigitsOrder(m / 10, n / 10, w - 1);
      LessConcat(Digits(m / 10, w - 1), Digits(n / 10, w - 1), [Digit(m % 10)], [Digit(n % 10)]);
    }
  }
}
