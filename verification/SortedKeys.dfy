/** Sorting distinct numbers: what `sorted` gives for a set. */
module SortedKeys {
  import opened Wrappers

  ghost predicate Rising(ids: seq<nat>) { forall i, j :: 0 <= i < j < |ids| ==> ids[i] < ids[j] }

  /** The members of a set, each once, strictly increasing. */
  ghost predicate ListsSet(ids: seq<nat>, s: set<nat>) {
    Rising(ids) && forall x :: x in ids <==> x in s
  }

  lemma WithoutLast(a: seq<nat>, s: set<nat>)
    requires ListsSet(a, s) && a != []
    ensures ListsSet(a[..|a| - 1], s - {a[|a| - 1]})
  {
    var x, rest := a[|a| - 1], a[..|a| - 1];
    forall y | y in s && y != x ensures y in rest {
      var i :| 0 <= i < |a| && a[i] == y;
      assert rest[i] == y;
    }
  }

  lemma SameEmpty(a: seq<nat>, b: seq<nat>, s: set<nat>)
    requires ListsSet(a, s) && ListsSet(b, s)
    ensures a == [] <==> b == []
  {
    if a != [] { assert a[0] in b; }
    if b != [] { assert b[0] in a; }
  }

  /** There is one such list. */
  lemma {:induction false} OneList(a: seq<nat>, b: seq<nat>, s: set<nat>)
    requires ListsSet(a, s) && ListsSet(b, s)
    ensures a == b
    decreases |a|
  {
    assert a == [] <==> b == [] by { SameEmpty(a, b, s); }
    if a != [] {
      var x := a[|a| - 1];
      assert x in b;
      var i :| 0 <= i < |b| && b[i] == x;
      assert b[|b| - 1] in b;
      assert b[|b| - 1] in a;
      assert i == |b| - 1;
      WithoutLast(a, s);
      WithoutLast(b, s);
      OneList(a[..|a| - 1], b[..|b| - 1], s - {x});
    }
  }

  method PlaceOf(ids: seq<nat>, x: nat) returns (i: nat)
    requires Rising(ids) && x !in ids
    ensures i <= |ids| && (forall j :: 0 <= j < i ==> ids[j] < x) && (forall j :: i <= j < |ids| ==> x < ids[j])
  {
    i := 0;
    while i < |ids| && ids[i] < x
      invariant i <= |ids| && forall j :: 0 <= j < i ==> ids[j] < x
    {
      i := i + 1;
    }
  }

  lemma InsertKeepsList(ids: seq<nat>, i: nat, x: nat, s: set<nat>)
    requires ListsSet(ids, s) && i <= |ids|
    requires (forall j :: 0 <= j < i ==> ids[j] < x) && (forall j :: i <= j < |ids| ==> x < ids[j])
    ensures ListsSet(ids[..i] + [x] + ids[i..], s + {x})
  {
    assert ids == ids[..i] + ids[i..];
  }

  method SortedIds(s: set<nat>) returns (ids: seq<nat>)
    ensures ListsSet(ids, s) && |ids| == |s|
  {
    ids := [];
    var todo := s;
    while todo != {}
      invariant todo <= s && |ids| + |todo| == |s| && ListsSet(ids, s - todo)
      decreases |todo|
    {
      var x :| x in todo;
      var i := PlaceOf(ids, x);
      InsertKeepsList(ids, i, x, s - todo);
      assert s - todo + {x} == s - (todo - {x});
      ids := ids[..i] + [x] + ids[i..];
      todo := todo - {x};
    }
    assert s - todo == s;
  }

  /** Binary search among `n` strictly increasing keys. */
  method Search(n: nat, key: nat --> nat, id: nat) returns (found: Option<nat>)
    requires forall i: nat :: i < n ==> key.requires(i)
    requires forall i: nat, j: nat :: i < j < n ==> key(i) < key(j)
    ensures found.Some? ==> found.value < n && key(found.value) == id
    ensures found.None? ==> forall i: nat :: i < n ==> key(i) != id
  {
    var lo, hi := 0, n;
    while lo < hi
      invariant 0 <= lo <= hi <= n
      invariant forall i: nat :: i < lo ==> key(i) < id
      invariant forall i: nat :: hi <= i < n ==> key(i) > id
    {
      var mid := (lo + hi) / 2;
      if key(mid) == id { return Some(mid); }
      if key(mid) < id { lo := mid + 1; } else { hi := mid; }
    }
    found := None;
  }
}
