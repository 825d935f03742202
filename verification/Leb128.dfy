/** Unsigned LEB128 (section 7.6 of DWARF version 5), as scripts/build_catalogue.py writes it. */
module Leb128 {
  import opened Bytes
  import opened Wrappers

  function Varint(n: nat): (r: seq<Byte>)
    ensures |r| >= 1
  {
    if n < 128 then [n] else [n % 128 + 128] + Varint(n / 128)
  }

  /** `_varint`: the loop, proved to write the encoding. */
  method WriteVarint(n: nat) returns (out: seq<Byte>)
    ensures out == Varint(n)
  {
    var rest := n;
    out := [];
    while true
      invariant out + Varint(rest) == Varint(n)
      decreases rest
    {
      var low := rest % 128;
      rest := rest / 128;
      out := out + [if rest != 0 then low + 128 else low];
      if rest == 0 { return; }
    }
  }

  /** A reader by the standard: seven bits a byte, low bits first, up to a byte below 128. It gives
      the number and the bytes it took. */
  function ReadVarint(s: seq<Byte>): (r: Option<(nat, nat)>)
    ensures r.Some? ==> 1 <= r.value.1 <= |s|
  {
    if s == [] then None
    else if s[0] < 128 then Some((s[0], 1))
    else match ReadVarint(s[1..])
      case None => None
      case Some((n, used)) => Some((s[0] - 128 + 128 * n, used + 1))
  }

  /** There is no number only where no byte ends one. */
  lemma {:induction false} NoEndNoNumber(s: seq<Byte>)
    ensures ReadVarint(s).None? <==> forall i :: 0 <= i < |s| ==> s[i] >= 128
  {
    if s != [] && s[0] >= 128 {
      NoEndNoNumber(s[1..]);
      if forall i :: 0 <= i < |s[1..]| ==> s[1..][i] >= 128 {
        forall i | 0 <= i < |s| ensures s[i] >= 128 { if i > 0 { assert s[1..][i - 1] == s[i]; } }
      }
    }
  }

  lemma {:induction false} VarintRoundTrip(n: nat, rest: seq<Byte>)
    ensures ReadVarint(Varint(n) + rest) == Some((n, |Varint(n)|))
  {
    if n >= 128 {
      assert (Varint(n) + rest)[1..] == Varint(n / 128) + rest;
      VarintRoundTrip(n / 128, rest);
    } else {
      assert (Varint(n) + rest)[0] == n;
    }
  }

  /** No encoding starts another, so a stream of them splits in one way. */
  lemma PrefixFree(m: nat, n: nat)
    requires Varint(m) <= Varint(n)
    ensures m == n
  {
    var rest := Varint(n)[|Varint(m)|..];
    assert Varint(n) == Varint(m) + rest && Varint(n) == Varint(n) + [];
    VarintRoundTrip(m, rest);
    VarintRoundTrip(n, []);
  }

  /** Every byte string that the reader takes whole for `n` is at least as long as the encoding, and
      no other is as short. */
  lemma {:induction false} ShortestAndOnly(s: seq<Byte>, n: nat)
    requires ReadVarint(s) == Some((n, |s|))
    ensures |Varint(n)| <= |s| && (|s| == |Varint(n)| ==> s == Varint(n))
  {
    if s[0] >= 128 {
      var high, used := ReadVarint(s[1..]).value.0, ReadVarint(s[1..]).value.1;
      assert used == |s[1..]|;
      ShortestAndOnly(s[1..], high);
      assert n == s[0] - 128 + 128 * high && n / 128 == high && n % 128 == s[0] - 128;
      if high > 0 { assert s == [s[0]] + s[1..]; }
    }
  }

  function Pow128(k: nat): nat { if k == 0 then 1 else 128 * Pow128(k - 1) }

  lemma PowGrows(k: nat)
    requires k >= 1
    ensures Pow128(k) >= 128
  {
  }

  /** `k` bytes hold exactly the numbers below 128 to the `k`. */
  lemma {:induction false} LengthIsLogarithm(n: nat, k: nat)
    requires k >= 1
    ensures |Varint(n)| <= k <==> n < Pow128(k)
  {
    if k == 1 {
      assert Pow128(1) == 128;
    } else if n >= 128 {
      LengthIsLogarithm(n / 128, k - 1);
    } else {
      PowGrows(k);
    }
  }

  lemma FiveBytesFor32Bits(n: nat)
    requires n < U32
    ensures |Varint(n)| <= 5
  {
    assert Pow128(1) == 128 && Pow128(3) == 2_097_152 && Pow128(5) == 34_359_738_368;
    LengthIsLogarithm(n, 5);
  }
}
