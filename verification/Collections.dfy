/** Facts about sequences and sets that several modules use. */
module Collections {
  import opened Wrappers

  function SetOf<T(==)>(xs: seq<T>): set<T> { set x | x in xs }

  predicate Distinct<T(==)>(xs: seq<T>) { forall i, j :: 0 <= i < j < |xs| ==> xs[i] != xs[j] }

  lemma {:induction false} DistinctSize<T>(xs: seq<T>)
    requires Distinct(xs)
    ensures |SetOf(xs)| == |xs|
  {
    if xs != [] {
      DistinctSize(xs[1..]);
      assert SetOf(xs) == {xs[0]} + SetOf(xs[1..]);
    }
  }

  lemma AddFresh<T>(xs: set<T>, x: T)
    requires x !in xs
    ensures multiset(xs + {x}) == multiset(xs) + multiset{x}
  {
  }

  lemma RepeatCounts<T>(xs: seq<T>, i: nat, j: nat)
    requires i < j < |xs|
    ensures multiset(xs)[xs[i]] >= if xs[i] == xs[j] then 2 else 1
  {
    assert xs == xs[..i] + [xs[i]] + xs[i + 1..j] + [xs[j]] + xs[j + 1..];
  }

  lemma SplitConcat<T>(a: seq<T>, b: seq<T>)
    ensures (a + b)[..|a|] == a && (a + b)[|a|..] == b
  {
  }

  predicate PartAt<T(==)>(s: seq<T>, part: seq<T>, i: int) {
    0 <= i <= |s| - |part| && s[i..i + |part|] == part
  }

  predicate Contains<T(==)>(s: seq<T>, part: seq<T>) { exists i | 0 <= i <= |s| :: PartAt(s, part, i) }

  /** One sequence contains another if there is something, or nothing, before and after it. */
  lemma ContainsIs<T>(s: seq<T>, part: seq<T>)
    ensures Contains(s, part) <==> exists a, b :: s == a + part + b
  {
    if Contains(s, part) {
      var i :| 0 <= i <= |s| && PartAt(s, part, i);
      assert s == s[..i] + part + s[i + |part|..];
    }
    if a, b :| s == a + part + b { assert PartAt(s, part, |a|); }
  }

  /** The first of the first `n` members that `p` accepts. */
  function First<T>(xs: seq<T>, p: T -> bool, n: nat): (r: Option<nat>)
    requires n <= |xs|
    ensures r.Some? ==> r.value < n && p(xs[r.value]) && forall i :: 0 <= i < r.value ==> !p(xs[i])
    ensures r.None? ==> forall i :: 0 <= i < n ==> !p(xs[i])
  {
    if n == 0 then None
    else
      var before := First(xs, p, n - 1);
      if before.Some? then before else if p(xs[n - 1]) then Some(n - 1) else None
  }
}
