/** The encoding that UTF-8 is (section 3 of RFC 3629): `Utf8` accepts exactly the encoded texts, and the
    length in bytes that client/src/deep_link.rs looks at is that of the encoding. */
module Utf8Encoding {
  import opened Bytes
  import opened DeepLinks
  import opened Utf8

  /** The bits of a character in one to four bytes. */
  function EncodeChar(c: char): (b: seq<Byte>)
    ensures 1 <= |b| <= 4
  {
    var n := c as int;
    if n < 0x80 then [n]
    else if n < 0x800 then [0xC0 + n / 0x40, 0x80 + n % 0x40]
    else if n < 0x1_0000 then [0xE0 + n / 0x1000, 0x80 + n / 0x40 % 0x40, 0x80 + n % 0x40]
    else [0xF0 + n / 0x4_0000, 0x80 + n / 0x1000 % 0x40, 0x80 + n / 0x40 % 0x40, 0x80 + n % 0x40]
  }

  function Encode(text: string): seq<Byte> {
    if text == "" then [] else EncodeChar(text[0]) + Encode(text[1..])
  }

  lemma SizeIsLength(c: char)
    ensures Utf8Size(c) == |EncodeChar(c)|
  {
  }

  /** The clipboard limit counts the bytes of the encoded text. */
  lemma {:induction false} Utf8LenIsLength(text: string)
    ensures Utf8Len(text) == |Encode(text)|
  {
    if text != "" {
      SizeIsLength(text[0]);
      Utf8LenIsLength(text[1..]);
    }
  }

  lemma LongForms(n: int)
    requires 0x800 <= n < 0x11_0000 && !(0xD800 <= n < 0xE000)
    ensures n < 0x1_0000 ==> n / 0x1000 != 0 || n / 0x40 % 0x40 >= 0x20
    ensures n < 0x1_0000 ==> n / 0x1000 != 0xD || n / 0x40 % 0x40 < 0x20
    ensures n >= 0x1_0000 ==> n / 0x4_0000 != 0 || n / 0x1000 % 0x40 >= 0x10
    ensures n >= 0x1_0000 ==> n / 0x4_0000 != 4 || n / 0x1000 % 0x40 < 0x10
  {
  }

  /** An encoded character is one. */
  lemma EncodedChar(c: char, rest: seq<Byte>)
    ensures CharLength(EncodeChar(c) + rest, 0) == |EncodeChar(c)|
  {
    var n := c as int;
    if n >= 0x800 { LongForms(n); }
    var s := EncodeChar(c) + rest;
    forall j | 0 <= j < |EncodeChar(c)| ensures s[j] == EncodeChar(c)[j] {}
  }

  lemma TwoBytes(a: int, b: int)
    requires 0xC2 <= a < 0xE0 && 0x80 <= b < 0xC0
    ensures var n := (a - 0xC0) * 0x40 + (b - 0x80);
            0x80 <= n < 0x800 && a == 0xC0 + n / 0x40 && b == 0x80 + n % 0x40
  {
  }

  lemma ThreeBytes(a: int, b: int, c: int)
    requires 0xE0 <= a < 0xF0 && 0x80 <= b < 0xC0 && 0x80 <= c < 0xC0
    requires (a != 0xE0 || b >= 0xA0) && (a != 0xED || b < 0xA0)
    ensures var n := (a - 0xE0) * 0x1000 + (b - 0x80) * 0x40 + (c - 0x80);
            && 0x800 <= n < 0x1_0000 && !(0xD800 <= n < 0xE000)
            && a == 0xE0 + n / 0x1000 && b == 0x80 + n / 0x40 % 0x40 && c == 0x80 + n % 0x40
  {
  }

  lemma FourBytes(a: int, b: int, c: int, d: int)
    requires 0xF0 <= a < 0xF5 && 0x80 <= b < 0xC0 && 0x80 <= c < 0xC0 && 0x80 <= d < 0xC0
    requires (a != 0xF0 || b >= 0x90) && (a != 0xF4 || b < 0x90)
    ensures var n := (a - 0xF0) * 0x4_0000 + (b - 0x80) * 0x1000 + (c - 0x80) * 0x40 + (d - 0x80);
            && 0x1_0000 <= n < 0x11_0000
            && a == 0xF0 + n / 0x4_0000 && b == 0x80 + n / 0x1000 % 0x40 && c == 0x80 + n / 0x40 % 0x40
            && d == 0x80 + n % 0x40
  {
    var n := (a - 0xF0) * 0x4_0000 + (b - 0x80) * 0x1000 + (c - 0x80) * 0x40 + (d - 0x80);
    assert n / 0x40 == (a - 0xF0) * 0x1000 + (b - 0x80) * 0x40 + (c - 0x80);
    assert n / 0x1000 == (a - 0xF0) * 0x40 + (b - 0x80);
  }

  /** And one character is an encoded one. */
  lemma CharIsEncoded(s: seq<Byte>) returns (c: char)
    requires CharLength(s, 0) > 0
    ensures CharLength(s, 0) == |EncodeChar(c)| && s[..CharLength(s, 0)] == EncodeChar(c)
  {
    var n := CharLength(s, 0);
    var a: int := s[0];
    var code := a;
    if n == 2 {
      var b: int := s[1];
      assert IsTail(s[1]);
      TwoBytes(a, b);
      code := (a - 0xC0) * 0x40 + (b - 0x80);
    } else if n == 3 {
      var b: int, d: int := s[1], s[2];
      assert IsTail(s[1]) && IsTail(s[2]);
      ThreeBytes(a, b, d);
      code := (a - 0xE0) * 0x1000 + (b - 0x80) * 0x40 + (d - 0x80);
    } else if n == 4 {
      var b: int, d: int, e: int := s[1], s[2], s[3];
      assert IsTail(s[1]) && IsTail(s[2]) && IsTail(s[3]);
      FourBytes(a, b, d, e);
      code := (a - 0xF0) * 0x4_0000 + (b - 0x80) * 0x1000 + (d - 0x80) * 0x40 + (e - 0x80);
    }
    c := code as char;
  }

  lemma LengthFrom(s: seq<Byte>, k: nat)
    requires k <= |s|
    ensures CharLength(s, k) == CharLength(s[k..], 0)
  {
    var t := s[k..];
    forall n: nat | n <= 3 ensures Tails(s, k + 1, n) <==> k + 1 <= |s| && Tails(t, 1, n) {
      forall j | 1 <= j < 1 + n && k + j < |s| ensures t[j] == s[k + j] {}
      if Tails(s, k + 1, n) { forall j | 1 <= j < 1 + n ensures IsTail(t[j]) { assert IsTail(s[k + j]); } }
      if k + 1 <= |s| && Tails(t, 1, n) {
        forall j | k + 1 <= j < k + 1 + n ensures IsTail(s[j]) { assert IsTail(t[j - k]); }
      }
    }
  }

  lemma {:induction false} FromHere(s: seq<Byte>, k: nat)
    requires k <= |s|
    ensures Utf8From(s, k) <==> WellFormed(s[k..])
    decreases |s| - k
  {
    LengthFrom(s, k);
    var n := CharLength(s, k);
    if k < |s| && n > 0 {
      FromHere(s, k + n);
      FromHere(s[k..], n);
      assert s[k..][n..] == s[k + n..];
    }
  }

  lemma {:induction false} EncodedIsWellFormed(text: string)
    ensures WellFormed(Encode(text))
  {
    if text != "" {
      var rest := Encode(text[1..]);
      EncodedIsWellFormed(text[1..]);
      EncodedChar(text[0], rest);
      FromHere(EncodeChar(text[0]) + rest, |EncodeChar(text[0])|);
      assert (EncodeChar(text[0]) + rest)[|EncodeChar(text[0])|..] == rest;
    }
  }

  lemma {:induction false} WellFormedIsEncoded(s: seq<Byte>) returns (text: string)
    requires WellFormed(s)
    ensures s == Encode(text)
  {
    if s == [] {
      text := "";
    } else {
      var n := CharLength(s, 0);
      var c := CharIsEncoded(s);
      FromHere(s, n);
      var rest := WellFormedIsEncoded(s[n..]);
      text := [c] + rest;
      assert text[1..] == rest && s == s[..n] + s[n..];
    }
  }

  /** A sequence of bytes is well formed if and only if it encodes a text. */
  lemma WellFormedIs(s: seq<Byte>)
    ensures WellFormed(s) <==> exists text :: s == Encode(text)
  {
    if WellFormed(s) { var text := WellFormedIsEncoded(s); }
    if text :| s == Encode(text) { EncodedIsWellFormed(text); }
  }
}
