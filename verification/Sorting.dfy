/** A stable sort by insertion, for the library sorts of the program. */
module Sorting {
  ghost predicate TotalOrder<T(!new)>(le: (T, T) -> bool) {
    && (forall x, y :: le(x, y) || le(y, x))
    && (forall x, y, z :: le(x, y) && le(y, z) ==> le(x, z))
  }

  ghost predicate SortedBy<T>(xs: seq<T>, le: (T, T) -> bool) {
    forall i, j :: 0 <= i < j < |xs| ==> le(xs[i], xs[j])
  }

  function InsertBy<T>(x: T, xs: seq<T>, le: (T, T) -> bool): seq<T> {
    if xs == [] || le(x, xs[0]) then [x] + xs else [xs[0]] + InsertBy(x, xs[1..], le)
  }

  function SortBy<T>(xs: seq<T>, le: (T, T) -> bool): seq<T> {
    if xs == [] then [] else InsertBy(xs[0], SortBy(xs[1..], le), le)
  }

  lemma PrependSorted<T(!new)>(x: T, xs: seq<T>, le: (T, T) -> bool)
    requires SortedBy(xs, le) && forall j :: 0 <= j < |xs| ==> le(x, xs[j])
    ensures SortedBy([x] + xs, le)
  {
  }

  lemma Below<T(!new)>(low: T, x: T, xs: seq<T>, rest: seq<T>, le: (T, T) -> bool)
    requires multiset(rest) == multiset(xs) + multiset{x}
    requires le(low, x) && forall j :: 0 <= j < |xs| ==> le(low, xs[j])
    ensures forall j :: 0 <= j < |rest| ==> le(low, rest[j])
  {
    forall j | 0 <= j < |rest| ensures le(low, rest[j]) {
      assert rest[j] in multiset(rest);
      if rest[j] != x { assert rest[j] in xs; }
    }
  }

  lemma {:induction false} InsertSorted<T(!new)>(x: T, xs: seq<T>, le: (T, T) -> bool)
    requires TotalOrder(le) && SortedBy(xs, le)
    ensures SortedBy(InsertBy(x, xs, le), le) && multiset(InsertBy(x, xs, le)) == multiset(xs) + multiset{x}
  {
    if xs == [] || le(x, xs[0]) {
    } else {
      var rest := InsertBy(x, xs[1..], le);
      InsertSorted(x, xs[1..], le);
      assert multiset(xs) == multiset{xs[0]} + multiset(xs[1..]) by { assert xs == [xs[0]] + xs[1..]; }
      Below(xs[0], x, xs[1..], rest, le);
      PrependSorted(xs[0], rest, le);
    }
  }

  lemma {:induction false} SortIsSorted<T(!new)>(xs: seq<T>, le: (T, T) -> bool)
    requires TotalOrder(le)
    ensures SortedBy(SortBy(xs, le), le) && multiset(SortBy(xs, le)) == multiset(xs)
  {
    if xs != [] {
      SortIsSorted(xs[1..], le);
      InsertSorted(xs[0], SortBy(xs[1..], le), le);
      assert xs == [xs[0]] + xs[1..];
    }
  }

  /** The elements that the order cannot tell from `x`, in their sequence. */
  function Ties<T>(xs: seq<T>, x: T, le: (T, T) -> bool): seq<T> {
    if xs == [] then [] else (if le(x, xs[0]) && le(xs[0], x) then [xs[0]] else []) + Ties(xs[1..], x, le)
  }

  lemma {:induction false} InsertTies<T(!new)>(y: T, xs: seq<T>, x: T, le: (T, T) -> bool)
    requires TotalOrder(le)
    ensures Ties(InsertBy(y, xs, le), x, le) == Ties([y] + xs, x, le)
  {
    assert ([y] + xs)[1..] == xs;
    if xs == [] || le(y, xs[0]) {
    } else {
      var rest := InsertBy(y, xs[1..], le);
      InsertTies(y, xs[1..], x, le);
      assert ([xs[0]] + rest)[1..] == rest && ([y] + xs[1..])[1..] == xs[1..];
      var h := xs[0];
      assert !(le(x, y) && le(y, x) && le(x, h) && le(h, x));
    }
  }

  /** Elements that tie keep their order. */
  lemma {:induction false} SortIsStable<T(!new)>(xs: seq<T>, x: T, le: (T, T) -> bool)
    requires TotalOrder(le)
    ensures Ties(SortBy(xs, le), x, le) == Ties(xs, x, le)
  {
    if xs != [] {
      var rest := SortBy(xs[1..], le);
      SortIsStable(xs[1..], x, le);
      InsertTies(xs[0], rest, x, le);
      assert ([xs[0]] + rest)[1..] == rest;
    }
  }
}
