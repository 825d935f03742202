/** A live list model and the first half of both in-place synchronisers (client/src/converters.rs):
    edits keep the identity of the rows they do not touch. */
module RowModel {
  import opened Collections

  /** How many edits of each kind a model has seen. */
  datatype Edits = Edits(removed: nat, inserted: nat, updated: nat, resets: nat)

  /** The state of a model. A slot is the identity of a row on screen: updating a row keeps it,
      inserting or replacing makes a new one. */
  datatype Snap<T> = Snap(rows: seq<T>, slots: seq<nat>, nextSlot: nat, edits: Edits) {
    ghost predicate Valid() {
      && |slots| == |rows|
      && (forall i :: 0 <= i < |slots| ==> slots[i] < nextSlot)
      && (forall i, j :: 0 <= i < j < |slots| ==> slots[i] != slots[j])
    }
  }

  function Removed<T>(m: Snap<T>, i: nat): Snap<T>
    requires i < |m.rows| == |m.slots|
  {
    Snap(m.rows[..i] + m.rows[i + 1..], m.slots[..i] + m.slots[i + 1..], m.nextSlot,
         m.edits.(removed := m.edits.removed + 1))
  }

  function Inserted<T>(m: Snap<T>, i: nat, x: T): Snap<T>
    requires i <= |m.rows| == |m.slots|
  {
    Snap(m.rows[..i] + [x] + m.rows[i..], m.slots[..i] + [m.nextSlot] + m.slots[i..], m.nextSlot + 1,
         m.edits.(inserted := m.edits.inserted + 1))
  }

  function Updated<T>(m: Snap<T>, i: nat, x: T): Snap<T>
    requires i < |m.rows|
  {
    m.(rows := m.rows[i := x], edits := m.edits.(updated := m.edits.updated + 1))
  }

  function Replaced<T>(m: Snap<T>, xs: seq<T>): Snap<T> {
    Snap(xs, seq(|xs|, k => m.nextSlot + k), m.nextSlot + |xs|, m.edits.(resets := m.edits.resets + 1))
  }

  lemma EditsKeepValid<T>(m: Snap<T>, i: nat, x: T, xs: seq<T>)
    requires m.Valid()
    ensures i < |m.rows| ==> Removed(m, i).Valid() && Updated(m, i, x).Valid()
    ensures i <= |m.rows| ==> Inserted(m, i, x).Valid()
    ensures Replaced(m, xs).Valid()
  {
  }

  /** Slint's `VecModel`. */
  class VecModel<T> {
    var rows: seq<T>
    ghost var slots: seq<nat>
    ghost var nextSlot: nat
    ghost var edits: Edits

    ghost function View(): Snap<T>
      reads this
    {
      Snap(rows, slots, nextSlot, edits)
    }

    constructor (xs: seq<T>)
      ensures View().Valid() && rows == xs && edits == Edits(0, 0, 0, 0)
    {
      rows := xs;
      slots := seq(|xs|, k => k);
      nextSlot := |xs|;
      edits := Edits(0, 0, 0, 0);
    }

    method Remove(i: nat)
      requires View().Valid() && i < |rows|
      modifies this
      ensures View() == Removed(old(View()), i) && View().Valid()
    {
      EditsKeepValid(View(), i, rows[i], []);
      rows := rows[..i] + rows[i + 1..];
      slots := slots[..i] + slots[i + 1..];
      edits := edits.(removed := edits.removed + 1);
    }

    method Insert(i: nat, x: T)
      requires View().Valid() && i <= |rows|
      modifies this
      ensures View() == Inserted(old(View()), i, x) && View().Valid()
    {
      EditsKeepValid(View(), i, x, []);
      rows := rows[..i] + [x] + rows[i..];
      slots := slots[..i] + [nextSlot] + slots[i..];
      nextSlot := nextSlot + 1;
      edits := edits.(inserted := edits.inserted + 1);
    }

    method SetRowData(i: nat, x: T)
      requires View().Valid() && i < |rows|
      modifies this
      ensures View() == Updated(old(View()), i, x) && View().Valid()
    {
      EditsKeepValid(View(), i, x, []);
      rows := rows[i := x];
      edits := edits.(updated := edits.updated + 1);
    }

    method SetVec(xs: seq<T>)
      requires View().Valid()
      modifies this
      ensures View() == Replaced(old(View()), xs) && View().Valid()
    {
      ghost var first := nextSlot;
      rows := xs;
      slots := seq(|xs|, k => first + k);
      nextSlot := nextSlot + |xs|;
      edits := edits.(resets := edits.resets + 1);
    }
  }

  // ----- identities of rows -----

  function Ids<T>(rows: seq<T>, id: T -> string): (ids: seq<string>)
    ensures |ids| == |rows| && forall i :: 0 <= i < |rows| ==> ids[i] == id(rows[i])
  {
    seq(|rows|, i requires 0 <= i < |rows| => id(rows[i]))
  }

  /** Two common ids that changed their relative order. */
  ghost predicate Crossed(was: seq<string>, target: seq<string>, a: int, b: int, c: int, d: int) {
    && 0 <= a < b < |was| && 0 <= c < |target| && 0 <= d < |target|
    && was[a] == target[c] && was[b] == target[d] && c >= d
  }

  /** The ids both lists have appear in the same relative order. */
  ghost predicate SameOrder(was: seq<string>, target: seq<string>) {
    forall a, b, c, d :: !Crossed(was, target, a, b, c, d)
  }

  /** The positions from `from` on whose id the target still has. */
  function Kept(was: seq<string>, target: seq<string>, from: nat): (sel: seq<nat>)
    requires from <= |was|
    ensures forall m :: 0 <= m < |sel| ==> from <= sel[m] < |was|
    ensures |sel| <= |was| - from
    decreases |was| - from
  {
    if from == |was| then []
    else (if was[from] in target then [from] else []) + Kept(was, target, from + 1)
  }

  lemma {:induction false} KeptInTarget(was: seq<string>, target: seq<string>, from: nat, m: nat)
    requires from <= |was| && m < |Kept(was, target, from)|
    ensures was[Kept(was, target, from)[m]] in target
    decreases |was| - from
  {
    var here := if was[from] in target then 1 else 0;
    if m >= here { KeptInTarget(was, target, from + 1, m - here); }
  }

  lemma {:induction false} KeptRises(was: seq<string>, target: seq<string>, from: nat, m: nat, n: nat)
    requires from <= |was| && m < n < |Kept(was, target, from)|
    ensures Kept(was, target, from)[m] < Kept(was, target, from)[n]
    decreases |was| - from
  {
    var here := if was[from] in target then 1 else 0;
    if m >= here { KeptRises(was, target, from + 1, m - here, n - here); }
  }

  lemma {:induction false} KeptAt(was: seq<string>, target: seq<string>, from: nat, a: nat) returns (m: nat)
    requires from <= a < |was| && was[a] in target
    ensures m < |Kept(was, target, from)| && Kept(was, target, from)[m] == a
    decreases |was| - from
  {
    if a == from {
      m := 0;
    } else {
      m := KeptAt(was, target, from + 1, a);
      m := m + if was[from] in target then 1 else 0;
    }
  }

  function Pick<T>(xs: seq<T>, sel: seq<nat>): (ys: seq<T>)
    requires forall m :: 0 <= m < |sel| ==> sel[m] < |xs|
    ensures |ys| == |sel| && forall m :: 0 <= m < |sel| ==> ys[m] == xs[sel[m]]
  {
    seq(|sel|, m requires 0 <= m < |sel| => xs[sel[m]])
  }

  /** A list of which the part from `i` on has been filtered. */
  function Filtered<T>(xs: seq<T>, was: seq<string>, target: seq<string>, i: nat): seq<T>
    requires i <= |was| == |xs|
  {
    xs[..i] + Pick(xs, Kept(was, target, i))
  }

  lemma PickConcat<T>(xs: seq<T>, a: seq<nat>, b: seq<nat>)
    requires forall m :: 0 <= m < |a| ==> a[m] < |xs|
    requires forall m :: 0 <= m < |b| ==> b[m] < |xs|
    ensures forall m :: 0 <= m < |a + b| ==> (a + b)[m] < |xs|
    ensures Pick(xs, a + b) == Pick(xs, a) + Pick(xs, b)
  {
  }

  lemma PickStep<T>(xs: seq<T>, was: seq<string>, target: seq<string>, i: nat)
    requires i < |was| == |xs|
    ensures var rest := Pick(xs, Kept(was, target, i + 1));
            Pick(xs, Kept(was, target, i)) == if was[i] in target then [xs[i]] + rest else rest
  {
    if was[i] in target {
      PickConcat(xs, [i], Kept(was, target, i + 1));
      assert Pick(xs, [i]) == [xs[i]];
    }
  }

  lemma SpliceAt<T>(xs: seq<T>, rest: seq<T>, i: nat)
    requires i < |xs|
    ensures var cur := xs[..i + 1] + rest;
            cur[i] == xs[i] && cur == xs[..i] + ([xs[i]] + rest) && cur[..i] + cur[i + 1..] == xs[..i] + rest
  {
    var cur := xs[..i + 1] + rest;
    assert cur[..i] == xs[..i] && cur[i + 1..] == rest;
  }

  lemma FilterStep<T>(xs: seq<T>, was: seq<string>, target: seq<string>, i: nat)
    requires i < |was| == |xs|
    ensures var cur := Filtered(xs, was, target, i + 1);
            && i < |cur| && cur[i] == xs[i]
            && Filtered(xs, was, target, i) == if was[i] in target then cur else cur[..i] + cur[i + 1..]
  {
    SpliceAt(xs, Pick(xs, Kept(was, target, i + 1)), i);
    PickStep(xs, was, target, i);
  }

  /** The model after the first loop of both synchronisers. */
  function Pruned<T>(m: Snap<T>, was: seq<string>, target: seq<string>, i: nat): Snap<T>
    requires i <= |was| == |m.rows| == |m.slots|
  {
    Snap(Filtered(m.rows, was, target, i), Filtered(m.slots, was, target, i), m.nextSlot,
         m.edits.(removed := m.edits.removed + (|was| - i - |Kept(was, target, i)|)))
  }

  lemma PruneStep<T>(m: Snap<T>, was: seq<string>, target: seq<string>, i: nat)
    requires i < |was| == |m.rows| == |m.slots|
    ensures var cur := Pruned(m, was, target, i + 1);
            && i < |cur.rows| == |cur.slots| && cur.rows[i] == m.rows[i]
            && Pruned(m, was, target, i) == if was[i] in target then cur else Removed(cur, i)
  {
    FilterStep(m.rows, was, target, i);
    FilterStep(m.slots, was, target, i);
  }

  /** The first loop of both synchronisers: rows whose id is gone are removed, from the end. */
  method RemoveGone<T>(model: VecModel<T>, target: seq<string>, id: T -> string)
    requires model.View().Valid()
    modifies model
    ensures model.View().Valid()
    ensures model.View() == Pruned(old(model.View()), Ids(old(model.rows), id), target, 0)
  {
    ghost var m := model.View();
    ghost var was := Ids(model.rows, id);
    var i := |model.rows|;
    assert Pruned(m, was, target, i) == m;
    while i > 0
      invariant 0 <= i <= |was| && model.View().Valid() && model.View() == Pruned(m, was, target, i)
    {
      i := i - 1;
      PruneStep(m, was, target, i);
      if id(model.rows[i]) !in target { model.Remove(i); }
    }
  }

  // ----- the second loop, on ids -----

  /** The second loop before target index `i`: the first `k` kept rows have found their places
      `pos`, and the rest, `tail`, are still to come. */
  ghost predicate Placing(was: seq<string>, target: seq<string>, i: nat, k: nat, pos: seq<nat>)
  {
    var sel := Kept(was, target, 0);
    && i <= |target| && k <= |sel| && |pos| == k
    && (forall m :: 0 <= m < k ==> pos[m] < i && target[pos[m]] == was[sel[m]])
    && (forall m, n :: 0 <= m < n < k ==> pos[m] < pos[n])
    && (forall m :: k <= m < |sel| ==> was[sel[m]] !in target[..i])
  }

  lemma Extend(ids: seq<string>, i: nat)
    requires i < |ids|
    ensures ids[..i + 1] == ids[..i] + [ids[i]]
  {
  }

  /** The row at `i` has the target's id: it keeps its place. */
  lemma PlaceMatch(was: seq<string>, target: seq<string>, i: nat, k: nat, pos: seq<nat>)
    requires Distinct(was) && Placing(was, target, i, k, pos) && i < |target|
    requires k < |Kept(was, target, 0)| && was[Kept(was, target, 0)[k]] == target[i]
    ensures Placing(was, target, i + 1, k + 1, pos + [i])
  {
    var sel := Kept(was, target, 0);
    Extend(target, i);
    forall m | k + 1 <= m < |sel| ensures was[sel[m]] !in target[..i + 1] { KeptRises(was, target, 0, k, m); }
  }

  /** The target's id is in no row still to come: it is new. */
  lemma PlaceNew(was: seq<string>, target: seq<string>, i: nat, k: nat, pos: seq<nat>)
    requires Distinct(target) && Placing(was, target, i, k, pos) && i < |target|
    requires var sel := Kept(was, target, 0); forall m :: k <= m < |sel| ==> was[sel[m]] != target[i]
    ensures Placing(was, target, i + 1, k, pos)
    ensures target[i] !in was
  {
    Extend(target, i);
    forall a | 0 <= a < |was| ensures was[a] != target[i] {
      if was[a] == target[i] { var m := KeptAt(was, target, 0, a); }
    }
  }

  /** The target's id comes later among the rows: the common ids changed order. */
  lemma PlaceLate(was: seq<string>, target: seq<string>, i: nat, k: nat, pos: seq<nat>, m: nat)
    requires Placing(was, target, i, k, pos) && i < |target|
    requires var sel := Kept(was, target, 0); k < m < |sel| && was[sel[k]] != target[i] == was[sel[m]]
    ensures !SameOrder(was, target)
  {
    var sel := Kept(was, target, 0);
    KeptInTarget(was, target, 0, k);
    KeptRises(was, target, 0, k, m);
    var c :| 0 <= c < |target| && target[c] == was[sel[k]];
    assert c > i;
    assert Crossed(was, target, sel[k], sel[m], c, i);
  }

  lemma NothingLeft(was: seq<string>, target: seq<string>, k: nat, pos: seq<nat>)
    requires Placing(was, target, |target|, k, pos)
    ensures k == |Kept(was, target, 0)|
  {
    assert target[..|target|] == target;
    if k < |Kept(was, target, 0)| { KeptInTarget(was, target, 0, k); }
  }

  lemma SameIndex(ids: seq<string>, i: nat, j: nat)
    requires Distinct(ids) && i < |ids| && j < |ids| && ids[i] == ids[j]
    ensures i == j
  {
  }

  lemma MetInOrder(was: seq<string>, target: seq<string>, pos: seq<nat>, a: nat, b: nat, c: nat, d: nat)
    requires Distinct(target) && |pos| == |Kept(was, target, 0)|
    requires forall m :: 0 <= m < |pos| ==> pos[m] < |target| && target[pos[m]] == was[Kept(was, target, 0)[m]]
    requires forall m, n :: 0 <= m < n < |pos| ==> pos[m] < pos[n]
    requires a < b < |was| && c < |target| && d < |target| && was[a] == target[c] && was[b] == target[d]
    ensures c < d
  {
    var m := KeptAt(was, target, 0, a);
    var n := KeptAt(was, target, 0, b);
    if n < m { KeptRises(was, target, 0, n, m); }
    SameIndex(target, pos[m], c);
    SameIndex(target, pos[n], d);
  }

  /** All kept rows found their places from left to right: the order was kept. */
  lemma MatchedInOrder(was: seq<string>, target: seq<string>, pos: seq<nat>)
    requires Distinct(target) && |pos| == |Kept(was, target, 0)|
    requires forall m :: 0 <= m < |pos| ==> pos[m] < |target| && target[pos[m]] == was[Kept(was, target, 0)[m]]
    requires forall m, n :: 0 <= m < n < |pos| ==> pos[m] < pos[n]
    ensures SameOrder(was, target)
  {
    forall a, b, c, d | 0 <= a < b < |was| && 0 <= c < |target| && 0 <= d < |target| && was[a] == target[c]
                        && was[b] == target[d]
      ensures c < d
    {
      MetInOrder(was, target, pos, a, b, c, d);
    }
  }

  /** All targets placed: no row is left over, and the order was kept. */
  lemma PlacedAll(was: seq<string>, target: seq<string>, k: nat, pos: seq<nat>)
    requires Distinct(target) && Placing(was, target, |target|, k, pos)
    ensures k == |Kept(was, target, 0)| && SameOrder(was, target)
  {
    NothingLeft(was, target, k, pos);
    MatchedInOrder(was, target, pos);
  }

  // ----- the second loop, on rows and slots -----

  /** Rows and slots before target index `i`: the places before `i` are final, surviving rows in
      their old slots and new rows in new ones, and the kept rows still to come follow. */
  ghost predicate Progress<T>(rows0: seq<T>, slots0: seq<nat>, next0: nat, target: seq<T>, id: T -> string,
        rows: seq<T>, slots: seq<nat>, i: nat, k: nat, pos: seq<nat>)
    requires |rows0| == |slots0|
  {
    var was, ids := Ids(rows0, id), Ids(target, id);
    var sel := Kept(was, ids, 0);
    && Placing(was, ids, i, k, pos)
    && |rows| == |slots| == i + |sel| - k
    && rows[i..] == Pick(rows0, sel)[k..] && slots[i..] == Pick(slots0, sel)[k..]
    && (forall m :: 0 <= m < k ==> slots[pos[m]] == slots0[sel[m]])
    && (forall j :: 0 <= j < i && ids[j] !in was ==> slots[j] >= next0)
  }

  lemma ProgressStart<T>(rows0: seq<T>, slots0: seq<nat>, next0: nat, target: seq<T>, id: T -> string)
    requires |rows0| == |slots0|
    ensures var was, ids := Ids(rows0, id), Ids(target, id);
            Progress(rows0, slots0, next0, target, id, Filtered(rows0, was, ids, 0), Filtered(slots0, was, ids, 0), 0, 0, [])
  {
    var was, ids := Ids(rows0, id), Ids(target, id);
    assert Filtered(rows0, was, ids, 0) == Pick(rows0, Kept(was, ids, 0));
    assert Filtered(slots0, was, ids, 0) == Pick(slots0, Kept(was, ids, 0));
  }

  /** What stands at `i`: the next kept row, if one is left. */
  lemma ProgressAt<T>(rows0: seq<T>, slots0: seq<nat>, next0: nat, target: seq<T>, id: T -> string, rows: seq<T>,
        slots: seq<nat>, i: nat, k: nat, pos: seq<nat>, j: nat)
    requires |rows0| == |slots0| && Progress(rows0, slots0, next0, target, id, rows, slots, i, k, pos)
    requires i <= j < |rows|
    ensures var sel := Kept(Ids(rows0, id), Ids(target, id), 0);
            && k + (j - i) < |sel| && rows[j] == rows0[sel[k + (j - i)]] && slots[j] == slots0[sel[k + (j - i)]]
  {
    assert rows[i..][j - i] == rows[j] && slots[i..][j - i] == slots[j];
  }

  lemma ProgressMatch<T>(rows0: seq<T>, slots0: seq<nat>, next0: nat, target: seq<T>, id: T -> string, rows: seq<T>,
        slots: seq<nat>, i: nat, k: nat, pos: seq<nat>, rows': seq<T>)
    requires |rows0| == |slots0| && Progress(rows0, slots0, next0, target, id, rows, slots, i, k, pos)
    requires Distinct(Ids(rows0, id)) && i < |target| && i < |rows| && id(rows[i]) == id(target[i])
    requires |rows'| == |rows| && rows'[i + 1..] == rows[i + 1..]
    ensures Progress(rows0, slots0, next0, target, id, rows', slots, i + 1, k + 1, pos + [i])
  {
    var was, ids := Ids(rows0, id), Ids(target, id);
    var sel := Kept(was, ids, 0);
    ProgressAt(rows0, slots0, next0, target, id, rows, slots, i, k, pos, i);
    PlaceMatch(was, ids, i, k, pos);
    assert rows[i + 1..] == rows[i..][1..] && slots[i + 1..] == slots[i..][1..];
    assert Pick(rows0, sel)[k + 1..] == Pick(rows0, sel)[k..][1..];
    assert Pick(slots0, sel)[k + 1..] == Pick(slots0, sel)[k..][1..];
    assert ids[i] == was[sel[k]];
  }

  lemma ProgressInsert<T>(rows0: seq<T>, slots0: seq<nat>, next0: nat, target: seq<T>, id: T -> string, rows: seq<T>,
        slots: seq<nat>, i: nat, k: nat, pos: seq<nat>, slot: nat)
    requires |rows0| == |slots0| && Progress(rows0, slots0, next0, target, id, rows, slots, i, k, pos)
    requires Distinct(Ids(target, id)) && i < |target| && slot >= next0
    requires forall j :: i <= j < |rows| ==> id(rows[j]) != id(target[i])
    ensures Progress(rows0, slots0, next0, target, id, rows[..i] + [target[i]] + rows[i..],
                     slots[..i] + [slot] + slots[i..], i + 1, k, pos)
    ensures Ids(target, id)[i] !in Ids(rows0, id)
  {
    var was, ids := Ids(rows0, id), Ids(target, id);
    var sel := Kept(was, ids, 0);
    forall m | k <= m < |sel| ensures was[sel[m]] != ids[i] {
      ProgressAt(rows0, slots0, next0, target, id, rows, slots, i, k, pos, i + m - k);
    }
    PlaceNew(was, ids, i, k, pos);
    var rows', slots' := rows[..i] + [target[i]] + rows[i..], slots[..i] + [slot] + slots[i..];
    assert rows'[i + 1..] == rows[i..] && slots'[i + 1..] == slots[i..];
  }

  lemma ProgressLate<T>(rows0: seq<T>, slots0: seq<nat>, next0: nat, target: seq<T>, id: T -> string, rows: seq<T>,
        slots: seq<nat>, i: nat, k: nat, pos: seq<nat>, j: nat)
    requires |rows0| == |slots0| && Progress(rows0, slots0, next0, target, id, rows, slots, i, k, pos)
    requires i < j < |rows| && i < |target| && id(rows[i]) != id(target[i]) == id(rows[j])
    ensures !SameOrder(Ids(rows0, id), Ids(target, id))
  {
    var was, ids := Ids(rows0, id), Ids(target, id);
    var sel := Kept(was, ids, 0);
    var m := k + (j - i);
    ProgressAt(rows0, slots0, next0, target, id, rows, slots, i, k, pos, i);
    ProgressAt(rows0, slots0, next0, target, id, rows, slots, i, k, pos, j);
    PlaceLate(was, ids, i, k, pos, m);
  }

  /** Surviving rows are in the slots they had; new rows are in new slots. */
  ghost predicate SlotsKept(was: seq<string>, slots0: seq<nat>, next0: nat, ids: seq<string>, slots: seq<nat>)
    requires |was| == |slots0| && |ids| <= |slots|
  {
    && (forall a, c :: 0 <= a < |was| && 0 <= c < |ids| && was[a] == ids[c] ==> slots[c] == slots0[a])
    && (forall c :: 0 <= c < |ids| && ids[c] !in was ==> slots[c] >= next0)
  }

  lemma ProgressEnd<T>(rows0: seq<T>, slots0: seq<nat>, next0: nat, target: seq<T>, id: T -> string, rows: seq<T>,
        slots: seq<nat>, k: nat, pos: seq<nat>)
    requires |rows0| == |slots0| && Progress(rows0, slots0, next0, target, id, rows, slots, |target|, k, pos)
    requires Distinct(Ids(rows0, id)) && Distinct(Ids(target, id))
    ensures k == |Kept(Ids(rows0, id), Ids(target, id), 0)| && |rows| == |slots| == |target|
    ensures SameOrder(Ids(rows0, id), Ids(target, id))
    ensures SlotsKept(Ids(rows0, id), slots0, next0, Ids(target, id), slots)
  {
    var was, ids := Ids(rows0, id), Ids(target, id);
    var sel := Kept(was, ids, 0);
    PlacedAll(was, ids, k, pos);
    forall a, c | 0 <= a < |was| && 0 <= c < |ids| && was[a] == ids[c] ensures slots[c] == slots0[a] {
      var m := KeptAt(was, ids, 0, a);
      SameIndex(ids, pos[m], c);
    }
  }

  // ----- the same with the places left unsaid -----

  ghost predicate Stage<T>(rows0: seq<T>, slots0: seq<nat>, next0: nat, target: seq<T>, id: T -> string, rows: seq<T>,
        slots: seq<nat>, i: nat, k: nat)
    requires |rows0| == |slots0|
  {
    exists pos :: Progress(rows0, slots0, next0, target, id, rows, slots, i, k, pos)
  }

  lemma StageStart<T>(rows0: seq<T>, slots0: seq<nat>, next0: nat, target: seq<T>, id: T -> string)
    requires |rows0| == |slots0|
    ensures var was, ids := Ids(rows0, id), Ids(target, id);
            Stage(rows0, slots0, next0, target, id, Filtered(rows0, was, ids, 0), Filtered(slots0, was, ids, 0), 0, 0)
  {
    ProgressStart(rows0, slots0, next0, target, id);
  }

  lemma StageAt<T>(rows0: seq<T>, slots0: seq<nat>, next0: nat, target: seq<T>, id: T -> string, rows: seq<T>,
        slots: seq<nat>, i: nat, k: nat)
    requires |rows0| == |slots0| && Stage(rows0, slots0, next0, target, id, rows, slots, i, k) && i < |rows|
    ensures var sel := Kept(Ids(rows0, id), Ids(target, id), 0); k < |sel| && rows[i] == rows0[sel[k]]
  {
    var pos :| Progress(rows0, slots0, next0, target, id, rows, slots, i, k, pos);
    ProgressAt(rows0, slots0, next0, target, id, rows, slots, i, k, pos, i);
  }

  lemma StageMatch<T>(rows0: seq<T>, slots0: seq<nat>, next0: nat, target: seq<T>, id: T -> string, rows: seq<T>,
        slots: seq<nat>, i: nat, k: nat, rows': seq<T>)
    requires |rows0| == |slots0| && Stage(rows0, slots0, next0, target, id, rows, slots, i, k)
    requires Distinct(Ids(rows0, id)) && i < |target| && i < |rows| && id(rows[i]) == id(target[i])
    requires |rows'| == |rows| && rows'[i + 1..] == rows[i + 1..]
    ensures Stage(rows0, slots0, next0, target, id, rows', slots, i + 1, k + 1)
  {
    var pos :| Progress(rows0, slots0, next0, target, id, rows, slots, i, k, pos);
    ProgressMatch(rows0, slots0, next0, target, id, rows, slots, i, k, pos, rows');
  }

  lemma StageInsert<T>(rows0: seq<T>, slots0: seq<nat>, next0: nat, target: seq<T>, id: T -> string, rows: seq<T>,
        slots: seq<nat>, i: nat, k: nat, slot: nat)
    requires |rows0| == |slots0| && Stage(rows0, slots0, next0, target, id, rows, slots, i, k)
    requires Distinct(Ids(target, id)) && i < |target| && i <= |rows| == |slots| && slot >= next0
    requires forall j :: i <= j < |rows| ==> id(rows[j]) != id(target[i])
    ensures Stage(rows0, slots0, next0, target, id, rows[..i] + [target[i]] + rows[i..],
                  slots[..i] + [slot] + slots[i..], i + 1, k)
    ensures Ids(target, id)[i] !in Ids(rows0, id)
  {
    var pos :| Progress(rows0, slots0, next0, target, id, rows, slots, i, k, pos);
    ProgressInsert(rows0, slots0, next0, target, id, rows, slots, i, k, pos, slot);
  }

  lemma StageLate<T>(rows0: seq<T>, slots0: seq<nat>, next0: nat, target: seq<T>, id: T -> string, rows: seq<T>,
        slots: seq<nat>, i: nat, k: nat, j: nat)
    requires |rows0| == |slots0| && Stage(rows0, slots0, next0, target, id, rows, slots, i, k)
    requires i < j < |rows| && i < |target| && id(rows[i]) != id(target[i]) == id(rows[j])
    ensures !SameOrder(Ids(rows0, id), Ids(target, id))
  {
    var pos :| Progress(rows0, slots0, next0, target, id, rows, slots, i, k, pos);
    ProgressLate(rows0, slots0, next0, target, id, rows, slots, i, k, pos, j);
  }

  lemma StageEnd<T>(rows0: seq<T>, slots0: seq<nat>, next0: nat, target: seq<T>, id: T -> string, rows: seq<T>,
        slots: seq<nat>, k: nat)
    requires |rows0| == |slots0| && Stage(rows0, slots0, next0, target, id, rows, slots, |target|, k)
    requires Distinct(Ids(rows0, id)) && Distinct(Ids(target, id))
    ensures k == |Kept(Ids(rows0, id), Ids(target, id), 0)| && |rows| == |slots| == |target|
    ensures SameOrder(Ids(rows0, id), Ids(target, id))
    ensures SlotsKept(Ids(rows0, id), slots0, next0, Ids(target, id), slots)
  {
    var pos :| Progress(rows0, slots0, next0, target, id, rows, slots, |target|, k, pos);
    ProgressEnd(rows0, slots0, next0, target, id, rows, slots, k, pos);
  }

  // ----- counting -----

  lemma SplitSize(a: set<string>, b: set<string>)
    ensures |a| == |a - b| + |a * b|
  {
    assert a == (a - b) + (a * b);
  }

  lemma CommonSize(was: seq<string>, target: seq<string>)
    requires Distinct(was)
    ensures |Kept(was, target, 0)| == |SetOf(was) * SetOf(target)|
  {
    var sel := Kept(was, target, 0);
    var common := Pick(was, sel);
    forall i, j | 0 <= i < j < |common| ensures common[i] != common[j] { KeptRises(was, target, 0, i, j); }
    DistinctSize(common);
    forall s | s in was && s in target ensures s in common {
      var a :| 0 <= a < |was| && was[a] == s;
      var m := KeptAt(was, target, 0, a);
      assert common[m] == s;
    }
    forall m | 0 <= m < |common| ensures common[m] in was && common[m] in target { KeptInTarget(was, target, 0, m); }
    assert SetOf(common) == SetOf(was) * SetOf(target);
  }

  /** The kept rows are as many as the common ids; the others are what is removed and inserted. */
  lemma EditCounts(was: seq<string>, target: seq<string>)
    requires Distinct(was) && Distinct(target)
    ensures var sel, w, t := Kept(was, target, 0), SetOf(was), SetOf(target);
            |was| - |sel| == |w - t| && |target| - |sel| == |t - w|
  {
    var sel, w, t := Kept(was, target, 0), SetOf(was), SetOf(target);
    DistinctSize(was);
    DistinctSize(target);
    CommonSize(was, target);
    SplitSize(w, t);
    SplitSize(t, w);
    assert w * t == t * w;
  }
}
