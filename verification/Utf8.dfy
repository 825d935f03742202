/** Well-formed UTF-8 (RFC 3629, section 4), as sequences of bytes. */
module Utf8 {
  import opened Bytes

  predicate IsTail(b: Byte) { 128 <= b < 192 }

  predicate Tails(s: seq<Byte>, k: nat, n: nat) {
    k + n <= |s| && forall j :: k <= j < k + n ==> IsTail(s[j])
  }

  /** The length of the character that starts at `k` (RFC 3629, section 4), or 0. */
  function CharLength(s: seq<Byte>, k: nat): (n: nat)
    ensures k + n <= |s| || n == 0
  {
    if k >= |s| then 0
    else if s[k] < 128 then 1
    else if 194 <= s[k] < 224 then if Tails(s, k + 1, 1) then 2 else 0
    else if 224 <= s[k] < 240 then
      if Tails(s, k + 1, 2) && (s[k] != 224 || s[k + 1] >= 160) && (s[k] != 237 || s[k + 1] < 160) then 3 else 0
    else if 240 <= s[k] < 245 then
      if Tails(s, k + 1, 3) && (s[k] != 240 || s[k + 1] >= 144) && (s[k] != 244 || s[k + 1] < 144) then 4 else 0
    else 0
  }

  predicate Utf8From(s: seq<Byte>, k: nat)
    requires k <= |s|
    decreases |s| - k
  {
    k == |s| || (CharLength(s, k) > 0 && Utf8From(s, k + CharLength(s, k)))
  }

  predicate WellFormed(s: seq<Byte>) { Utf8From(s, 0) }

  /** Where a text may be sliced: at its ends and where a character starts. */
  predicate IsBoundary(s: seq<Byte>, k: nat)
    requires k <= |s|
  {
    k == 0 || k == |s| || !IsTail(s[k])
  }

  lemma SameChar(s: seq<Byte>, m: seq<Byte>, k: nat)
    requires |m| == |s| && k < |s| && forall j :: k <= j < k + CharLength(s, k) ==> m[j] == s[j]
    requires CharLength(s, k) > 0
    ensures CharLength(m, k) == CharLength(s, k)
  {
  }

  lemma CharThenRest(m: seq<Byte>, k: nat)
    requires k < |m| && CharLength(m, k) > 0 && Utf8From(m, k + CharLength(m, k))
    ensures Utf8From(m, k)
  {
  }

  /** In well-formed text a character starts at every boundary and nowhere else. */
  lemma {:induction false} StartsAreBoundaries(s: seq<Byte>, from: nat, k: nat)
    requires from <= k <= |s| && Utf8From(s, from)
    ensures Utf8From(s, k) <==> k == |s| || !IsTail(s[k])
    decreases |s| - from
  {
    if from < k && from + CharLength(s, from) <= k { StartsAreBoundaries(s, from + CharLength(s, from), k); }
  }

  /** After a one-byte character comes a boundary. */
  lemma AfterAscii(s: seq<Byte>, k: nat)
    requires WellFormed(s) && k < |s| && s[k] < 128
    ensures IsBoundary(s, k) && IsBoundary(s, k + 1)
  {
    StartsAreBoundaries(s, 0, k);
    StartsAreBoundaries(s, 0, k + 1);
  }

  lemma CharInPrefix(s: seq<Byte>, from: nat, k: nat)
    requires from < k <= |s| && CharLength(s, from) > 0
    ensures CharLength(s[..k], from) == if from + CharLength(s, from) <= k then CharLength(s, from) else 0
    ensures k < from + CharLength(s, from) ==> IsTail(s[k])
  {
  }

  /** A prefix of well-formed text is well formed exactly when it ends at a boundary. */
  lemma {:induction false} PrefixFrom(s: seq<Byte>, from: nat, k: nat)
    requires from <= k <= |s| && Utf8From(s, from)
    ensures Utf8From(s[..k], from) <==> k == from || k == |s| || !IsTail(s[k])
    decreases |s| - from
  {
    if from < k {
      CharInPrefix(s, from, k);
      var next := from + CharLength(s, from);
      if next <= k {
        PrefixFrom(s, next, k);
        if k == next < |s| { StartsAreBoundaries(s, from, k); }
      }
    }
  }
}
