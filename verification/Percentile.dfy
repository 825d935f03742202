/** Percentiles by linear interpolation (scripts/stream-gate-score.py, `percentile`), over the reals. */
module Percentile {
  import opened Sorting
  import opened Wrappers

  predicate AtMost(a: real, b: real) { a <= b }

  function Sorted(values: seq<real>): seq<real> { SortBy(values, AtMost) }

  lemma SortedIsSorted(values: seq<real>)
    ensures SortedBy(Sorted(values), AtMost) && multiset(Sorted(values)) == multiset(values)
    ensures |Sorted(values)| == |values|
  {
    SortIsSorted(values, AtMost);
    assert |multiset(Sorted(values))| == |multiset(values)|;
  }

  function Rank(n: nat, p: real): real { p / 100.0 * ((n - 1) as real) }

  lemma RankInRange(n: nat, p: real)
    requires n > 0 && 0.0 <= p <= 100.0
    ensures 0.0 <= Rank(n, p) <= (n - 1) as real
  {
    assert 0.0 <= p / 100.0 <= 1.0;
  }

  function Lerp(a: real, b: real, t: real): real { a + (b - a) * t }

  function Next(n: nat, lo: nat): (hi: nat)
    requires lo < n
    ensures lo <= hi < n
  {
    if lo + 1 < n - 1 then lo + 1 else n - 1
  }

  /** The value at a rank of a sorted list, interpolated between its neighbours. */
  function AtRank(s: seq<real>, rank: real): real
    requires |s| > 0 && 0.0 <= rank <= (|s| - 1) as real
  {
    var lo := rank.Floor;
    Lerp(s[lo], s[Next(|s|, lo)], rank - lo as real)
  }

  /** None for no values. */
  function Percentile(values: seq<real>, p: real): Option<real>
    requires 0.0 <= p <= 100.0
  {
    if values == [] then None
    else
      SortedIsSorted(values);
      RankInRange(|values|, p);
      Some(AtRank(Sorted(values), Rank(|values|, p)))
  }

  lemma Product(x: real, y: real)
    requires x >= 0.0 && y >= 0.0
    ensures x * y >= 0.0
  {
  }

  lemma LerpBetween(a: real, b: real, t: real)
    requires a <= b && 0.0 <= t <= 1.0
    ensures a <= Lerp(a, b, t) <= b
  {
    Product(b - a, t);
    Product(b - a, 1.0 - t);
  }

  lemma LerpMonotone(a: real, b: real, t: real, u: real)
    requires a <= b && t <= u
    ensures Lerp(a, b, t) <= Lerp(a, b, u)
  {
    Product(b - a, u - t);
  }

  lemma LerpZero(a: real, b: real)
    ensures Lerp(a, b, 0.0) == a
  {
  }

  lemma InOrder(s: seq<real>, i: nat, j: nat)
    requires SortedBy(s, AtMost) && i <= j < |s|
    ensures s[i] <= s[j]
  {
    if i < j { assert AtMost(s[i], s[j]); }
  }

  /** At a rank, the value is between the sorted values below and above it. */
  lemma BetweenNeighbours(s: seq<real>, rank: real)
    requires |s| > 0 && SortedBy(s, AtMost) && 0.0 <= rank <= (|s| - 1) as real
    ensures var lo := rank.Floor; s[lo] <= AtRank(s, rank) <= s[Next(|s|, lo)]
  {
    var lo := rank.Floor;
    InOrder(s, lo, Next(|s|, lo));
    LerpBetween(s[lo], s[Next(|s|, lo)], rank - lo as real);
  }

  lemma AtWholeRank(s: seq<real>, k: nat)
    requires k < |s|
    ensures AtRank(s, k as real) == s[k]
  {
    assert (k as real).Floor == k && k as real - k as real == 0.0;
    LerpZero(s[k], s[Next(|s|, k)]);
  }

  lemma RankMonotone(s: seq<real>, q: real, r: real)
    requires |s| > 0 && SortedBy(s, AtMost) && 0.0 <= q <= r <= (|s| - 1) as real
    ensures AtRank(s, q) <= AtRank(s, r)
  {
    var a, b := q.Floor, r.Floor;
    if a == b {
      InOrder(s, a, Next(|s|, a));
      LerpMonotone(s[a], s[Next(|s|, a)], q - a as real, r - a as real);
    } else {
      BetweenNeighbours(s, q);
      BetweenNeighbours(s, r);
      InOrder(s, Next(|s|, a), b);
    }
  }

  lemma RankGrows(n: nat, p: real, q: real)
    requires n > 0 && p <= q
    ensures Rank(n, p) <= Rank(n, q)
  {
    assert p / 100.0 <= q / 100.0;
    var m := (n - 1) as real;
    assert p / 100.0 * m <= q / 100.0 * m;
  }

  /** A larger percentile is no smaller, within and across segments. */
  lemma PercentileMonotone(values: seq<real>, p: real, q: real)
    requires values != [] && 0.0 <= p <= q <= 100.0
    ensures Percentile(values, p).value <= Percentile(values, q).value
  {
    SortedIsSorted(values);
    RankInRange(|values|, p);
    RankInRange(|values|, q);
    assert Rank(|values|, p) <= Rank(|values|, q) by { RankGrows(|values|, p, q); }
    RankMonotone(Sorted(values), Rank(|values|, p), Rank(|values|, q));
  }

  lemma Ends(values: seq<real>)
    requires values != []
    ensures |Sorted(values)| == |values|
    ensures Percentile(values, 0.0) == Some(Sorted(values)[0])
    ensures Percentile(values, 100.0) == Some(Sorted(values)[|values| - 1])
  {
    SortedIsSorted(values);
    AtWholeRank(Sorted(values), 0);
    AtWholeRank(Sorted(values), |values| - 1);
  }

  /** Every percentile is between two of the values; 0 is the least and 100 the greatest. */
  lemma PercentileBounds(values: seq<real>, p: real)
    requires values != [] && 0.0 <= p <= 100.0
    ensures exists lo, hi :: lo in values && hi in values
                             && (forall v :: v in values ==> lo <= v <= hi)
                             && Percentile(values, 0.0) == Some(lo) && Percentile(values, 100.0) == Some(hi)
                             && lo <= Percentile(values, p).value <= hi
  {
    var s := Sorted(values);
    SortedIsSorted(values);
    var lo, hi := s[0], s[|s| - 1];
    Ends(values);
    PercentileMonotone(values, 0.0, p);
    PercentileMonotone(values, p, 100.0);
    assert lo in multiset(s) && hi in multiset(s);
    forall v | v in values ensures lo <= v <= hi {
      assert v in multiset(s);
      var i :| 0 <= i < |s| && s[i] == v;
      if 0 < i { assert AtMost(s[0], s[i]); }
      if i < |s| - 1 { assert AtMost(s[i], s[|s| - 1]); }
    }
    assert lo in values && hi in values;
  }

  lemma TailSorted(a: seq<real>)
    requires SortedBy(a, AtMost) && a != []
    ensures SortedBy(a[1..], AtMost)
  {
  }

  lemma LeastFirst(a: seq<real>, b: seq<real>)
    requires multiset(a) == multiset(b) && SortedBy(a, AtMost) && |a| > 0 && |b| > 0
    ensures a[0] <= b[0]
  {
    assert b[0] in multiset(a);
    var i :| 0 <= i < |a| && a[i] == b[0];
    if i > 0 { assert AtMost(a[0], a[i]); }
  }

  /** There is one sorted list of given values. */
  lemma {:induction false} SortedIsUnique(a: seq<real>, b: seq<real>)
    requires multiset(a) == multiset(b) && SortedBy(a, AtMost) && SortedBy(b, AtMost)
    ensures a == b
  {
    if a == [] {
      assert |multiset(b)| == 0;
    } else {
      assert |multiset(a)| == |multiset(b)| == |b|;
      LeastFirst(a, b);
      LeastFirst(b, a);
      assert a == [a[0]] + a[1..] && b == [b[0]] + b[1..];
      assert multiset(a[1..]) == multiset(a) - multiset{a[0]} == multiset(b[1..]);
      TailSorted(a);
      TailSorted(b);
      SortedIsUnique(a[1..], b[1..]);
    }
  }

  /** The order of the values does not matter. */
  lemma PercentileOfPermutation(a: seq<real>, b: seq<real>, p: real)
    requires multiset(a) == multiset(b) && 0.0 <= p <= 100.0
    ensures Percentile(a, p) == Percentile(b, p)
  {
    SortedIsSorted(a);
    SortedIsSorted(b);
    SortedIsUnique(Sorted(a), Sorted(b));
  }

  /** The values in order, whichever way they are sorted. */
  ghost predicate InOrderOf(s: seq<real>, values: seq<real>) {
    multiset(s) == multiset(values) && forall i, j :: 0 <= i < j < |s| ==> s[i] <= s[j]
  }

  lemma OrderIsSorted(s: seq<real>, values: seq<real>)
    requires InOrderOf(s, values)
    ensures s == Sorted(values) && |s| == |values|
  {
    SortedIsSorted(values);
    SortedIsUnique(s, Sorted(values));
  }

  lemma AtRankBetween(s: seq<real>, rank: real, k: nat)
    requires k + 1 < |s| && k as real <= rank < (k + 1) as real
    ensures AtRank(s, rank) == s[k] + (s[k + 1] - s[k]) * (rank - k as real)
  {
    assert rank.Floor == k;
  }

  lemma RankIs(n: nat, p: real, rank: real)
    requires n > 0 && rank == p / 100.0 * (n - 1) as real
    ensures Rank(n, p) == rank
  {
  }

  lemma PercentileOf(values: seq<real>, p: real)
    requires values != [] && 0.0 <= p <= 100.0
    ensures |Sorted(values)| == |values| && 0.0 <= Rank(|values|, p) <= (|values| - 1) as real
    ensures Percentile(values, p) == Some(AtRank(Sorted(values), Rank(|values|, p)))
  {
    SortedIsSorted(values);
    RankInRange(|values|, p);
  }

  lemma PercentileAtRank(values: seq<real>, s: seq<real>, p: real, rank: real)
    requires InOrderOf(s, values) && s != [] && 0.0 <= p <= 100.0 && rank == p / 100.0 * (|s| - 1) as real
    ensures 0.0 <= rank <= (|s| - 1) as real && Percentile(values, p) == Some(AtRank(s, rank))
  {
    OrderIsSorted(s, values);
    RankIs(|s|, p, rank);
    PercentileOf(values, p);
  }

  /** Between two neighbouring ranks the percentile is as far from the value at the lower one towards the
      value at the upper one as `p` percent of the last rank is. */
  lemma PercentileBetweenRanks(values: seq<real>, s: seq<real>, p: real, k: nat, rank: real)
    requires InOrderOf(s, values) && k + 1 < |s| && 0.0 <= p <= 100.0
    requires rank == p / 100.0 * (|s| - 1) as real && k as real <= rank < (k + 1) as real
    ensures Percentile(values, p) == Some(s[k] + (s[k + 1] - s[k]) * (rank - k as real))
  {
    PercentileAtRank(values, s, p, rank);
    AtRankBetween(s, rank, k);
  }

  /** At a whole rank it is the value with that rank. */
  lemma PercentileIsOrderStatistic(values: seq<real>, s: seq<real>, p: real, k: nat)
    requires InOrderOf(s, values) && s != [] && 0.0 <= p <= 100.0
    requires p / 100.0 * (|s| - 1) as real == k as real
    ensures k < |s| && Percentile(values, p) == Some(s[k])
  {
    PercentileAtRank(values, s, p, k as real);
    AtWholeRank(s, k);
  }

  /** No values have no percentile. */
  lemma NoValuesNoPercentile(values: seq<real>, p: real)
    requires 0.0 <= p <= 100.0
    ensures Percentile(values, p).None? <==> values == []
  {
  }
}
