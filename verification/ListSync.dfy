/** The second loop that both in-place synchronisers share, round by round: keep, update or insert
    (client/src/converters.rs, `sync_chat_rows` and `sync_crews`). `id` gives a row's identity and
    `same` says when a row need not be updated. */
module ListSync {
  import opened Collections
  import opened RowModel

  ghost predicate NoRepeats<T>(m: Snap<T>, target: seq<T>, id: T -> string) {
    |m.rows| == |m.slots| && Distinct(Ids(m.rows, id)) && Distinct(Ids(target, id))
  }

  /** A row with the id of `x` was there, and it needs an update. */
  predicate IsChange<T(==)>(was: seq<T>, x: T, id: T -> string, same: (T, T) -> bool) {
    exists a :: 0 <= a < |was| && id(was[a]) == id(x) && !same(was[a], x)
  }

  /** How many of the first `i` target rows are changes of a row that was there. */
  function Changes<T(==)>(was: seq<T>, target: seq<T>, id: T -> string, same: (T, T) -> bool, i: nat): (n: nat)
    requires i <= |target|
    ensures n <= i
  {
    if i == 0 then 0
    else Changes(was, target, id, same, i - 1) + if IsChange(was, target[i - 1], id, same) then 1 else 0
  }

  lemma ChangeOfMatch<T>(was: seq<T>, x: T, id: T -> string, same: (T, T) -> bool, a: nat)
    requires Distinct(Ids(was, id)) && a < |was| && id(was[a]) == id(x)
    ensures forall b :: 0 <= b < |was| && id(was[b]) == id(x) ==> b == a
    ensures IsChange(was, x, id, same) <==> !same(was[a], x)
  {
    forall b | 0 <= b < |was| && id(was[b]) == id(x) ensures b == a {
      assert Ids(was, id)[b] == Ids(was, id)[a];
    }
  }

  /** The row that must stand for `x`: the old one with its id, if it is the same, and else `x`. */
  ghost predicate StandsFor<T>(was: seq<T>, x: T, r: T, id: T -> string, same: (T, T) -> bool) {
    && (forall a :: 0 <= a < |was| && id(was[a]) == id(x) ==> r == if same(was[a], x) then was[a] else x)
    && (id(x) !in Ids(was, id) ==> r == x)
  }

  lemma NewIsNoChange<T>(was: seq<T>, x: T, id: T -> string, same: (T, T) -> bool)
    requires id(x) !in Ids(was, id)
    ensures !IsChange(was, x, id, same) && StandsFor(was, x, x, id, same)
  {
    forall b | 0 <= b < |was| ensures id(was[b]) != id(x) { assert Ids(was, id)[b] == id(was[b]); }
  }

  ghost predicate Standing<T>(was: seq<T>, target: seq<T>, rows: seq<T>, id: T -> string, same: (T, T) -> bool, i: nat) {
    i <= |rows| && i <= |target| && forall c :: 0 <= c < i ==> StandsFor(was, target[c], rows[c], id, same)
  }

  lemma StandingStep<T>(was: seq<T>, target: seq<T>, rows: seq<T>, id: T -> string, same: (T, T) -> bool, i: nat,
        rows': seq<T>)
    requires Standing(was, target, rows, id, same, i) && i < |target| && i < |rows'|
    requires forall c :: 0 <= c < i ==> rows'[c] == rows[c]
    requires StandsFor(was, target[i], rows'[i], id, same)
    ensures Standing(was, target, rows', id, same, i + 1)
  {
  }

  /** A row in its place is updated if it is not the same. */
  function Settled<T>(n: Snap<T>, i: nat, x: T, same: (T, T) -> bool): Snap<T>
    requires i < |n.rows|
  {
    if same(n.rows[i], x) then n else Updated(n, i, x)
  }

  /** The edits of a run that found everything in order: no more than there must be. */
  ghost predicate FewestEdits<T>(m: Snap<T>, target: seq<T>, id: T -> string, same: (T, T) -> bool, n: Snap<T>) {
    var old_, new_ := SetOf(Ids(m.rows, id)), SetOf(Ids(target, id));
    n.edits == Edits(m.edits.removed + |old_ - new_|, m.edits.inserted + |new_ - old_|,
                     m.edits.updated + Changes(m.rows, target, id, same, |target|), m.edits.resets)
  }

  /** Every surviving row is in the slot it had, every target row is stood for, and no edit was made
      that could have been spared. */
  ghost predicate InPlace<T>(m: Snap<T>, target: seq<T>, id: T -> string, same: (T, T) -> bool, n: Snap<T>)
    requires |m.rows| == |m.slots|
  {
    && |n.rows| == |n.slots| == |target|
    && SlotsKept(Ids(m.rows, id), m.slots, m.nextSlot, Ids(target, id), n.slots)
    && Standing(m.rows, target, n.rows, id, same, |target|)
    && FewestEdits(m, target, id, same, n)
  }

  // ----- lists without repeated ids, as long as the common ids come in order -----

  /** The loop before target index `i`, `k` kept rows having been met. */
  ghost predicate SyncProgress<T>(m: Snap<T>, target: seq<T>, id: T -> string, same: (T, T) -> bool, n: Snap<T>, i: nat,
        k: nat)
    requires |m.rows| == |m.slots|
  {
    && Stage(m.rows, m.slots, m.nextSlot, target, id, n.rows, n.slots, i, k)
    && k <= i && n.nextSlot >= m.nextSlot && Standing(m.rows, target, n.rows, id, same, i)
    && n.edits == Edits(m.edits.removed + |m.rows| - |Kept(Ids(m.rows, id), Ids(target, id), 0)|,
                        m.edits.inserted + (i - k), m.edits.updated + Changes(m.rows, target, id, same, i), m.edits.resets)
  }

  ghost predicate Reached<T>(m: Snap<T>, target: seq<T>, id: T -> string, same: (T, T) -> bool, n: Snap<T>, i: nat)
    requires |m.rows| == |m.slots|
  {
    exists k: nat :: SyncProgress(m, target, id, same, n, i, k)
  }

  lemma SyncStart<T>(m: Snap<T>, target: seq<T>, id: T -> string, same: (T, T) -> bool)
    requires |m.rows| == |m.slots|
    ensures Reached(m, target, id, same, Pruned(m, Ids(m.rows, id), Ids(target, id), 0), 0)
  {
    StageStart(m.rows, m.slots, m.nextSlot, target, id);
    assert SyncProgress(m, target, id, same, Pruned(m, Ids(m.rows, id), Ids(target, id), 0), 0, 0);
  }

  lemma MatchStandsFor<T>(was: seq<T>, x: T, id: T -> string, same: (T, T) -> bool, a: nat)
    requires Distinct(Ids(was, id)) && a < |was| && id(was[a]) == id(x)
    ensures StandsFor(was, x, if same(was[a], x) then was[a] else x, id, same)
    ensures IsChange(was, x, id, same) <==> !same(was[a], x)
  {
    ChangeOfMatch(was, x, id, same, a);
    assert Ids(was, id)[a] == id(x);
  }

  lemma MatchedStage<T>(m: Snap<T>, target: seq<T>, id: T -> string, same: (T, T) -> bool, n: Snap<T>, i: nat, k: nat)
    requires |m.rows| == |m.slots| && Distinct(Ids(m.rows, id)) && i < |target| && i < |n.rows|
    requires Stage(m.rows, m.slots, m.nextSlot, target, id, n.rows, n.slots, i, k) && id(n.rows[i]) == id(target[i])
    ensures var n' := Settled(n, i, target[i], same);
            && Stage(m.rows, m.slots, m.nextSlot, target, id, n'.rows, n'.slots, i + 1, k + 1)
            && StandsFor(m.rows, target[i], n'.rows[i], id, same)
            && (IsChange(m.rows, target[i], id, same) <==> !same(n.rows[i], target[i]))
  {
    StageMatch(m.rows, m.slots, m.nextSlot, target, id, n.rows, n.slots, i, k, Settled(n, i, target[i], same).rows);
    StageAt(m.rows, m.slots, m.nextSlot, target, id, n.rows, n.slots, i, k);
    MatchStandsFor(m.rows, target[i], id, same, Kept(Ids(m.rows, id), Ids(target, id), 0)[k]);
  }

  lemma MatchedProgress<T>(m: Snap<T>, target: seq<T>, id: T -> string, same: (T, T) -> bool, n: Snap<T>, i: nat, k: nat)
    requires |m.rows| == |m.slots| && Distinct(Ids(m.rows, id)) && SyncProgress(m, target, id, same, n, i, k)
    requires i < |target| && i < |n.rows| && id(n.rows[i]) == id(target[i])
    ensures SyncProgress(m, target, id, same, Settled(n, i, target[i], same), i + 1, k + 1)
  {
    MatchedStage(m, target, id, same, n, i, k);
    StandingStep(m.rows, target, n.rows, id, same, i, Settled(n, i, target[i], same).rows);
  }

  lemma MatchedStep<T>(m: Snap<T>, target: seq<T>, id: T -> string, same: (T, T) -> bool, n: Snap<T>, i: nat)
    requires NoRepeats(m, target, id) && Reached(m, target, id, same, n, i)
    requires i < |target| && i < |n.rows| && id(n.rows[i]) == id(target[i])
    ensures Reached(m, target, id, same, Settled(n, i, target[i], same), i + 1)
  {
    var k: nat :| SyncProgress(m, target, id, same, n, i, k);
    MatchedProgress(m, target, id, same, n, i, k);
  }

  lemma NewStage<T>(m: Snap<T>, target: seq<T>, id: T -> string, n: Snap<T>, i: nat, k: nat)
    requires |m.rows| == |m.slots| && Distinct(Ids(target, id)) && i < |target| && n.nextSlot >= m.nextSlot
    requires Stage(m.rows, m.slots, m.nextSlot, target, id, n.rows, n.slots, i, k) && i <= |n.rows| == |n.slots|
    requires forall j :: i <= j < |n.rows| ==> id(n.rows[j]) != id(target[i])
    ensures id(target[i]) !in Ids(m.rows, id)
    ensures Stage(m.rows, m.slots, m.nextSlot, target, id,
                  Inserted(n, i, target[i]).rows, Inserted(n, i, target[i]).slots, i + 1, k)
  {
    StageInsert(m.rows, m.slots, m.nextSlot, target, id, n.rows, n.slots, i, k, n.nextSlot);
    assert Ids(target, id)[i] == id(target[i]);
  }

  lemma NewStep<T>(m: Snap<T>, target: seq<T>, id: T -> string, same: (T, T) -> bool, n: Snap<T>, i: nat)
    requires NoRepeats(m, target, id) && Reached(m, target, id, same, n, i)
    requires i < |target| && i <= |n.rows| == |n.slots|
    requires forall j :: i <= j < |n.rows| ==> id(n.rows[j]) != id(target[i])
    ensures Reached(m, target, id, same, Inserted(n, i, target[i]), i + 1)
  {
    var k: nat :| SyncProgress(m, target, id, same, n, i, k);
    var n' := Inserted(n, i, target[i]);
    NewStage(m, target, id, n, i, k);
    NewIsNoChange(m.rows, target[i], id, same);
    StandingStep(m.rows, target, n.rows, id, same, i, n'.rows);
    assert SyncProgress(m, target, id, same, n', i + 1, k);
  }

  /** A target row is further down among the rows to come. */
  predicate Later<T(==)>(rows: seq<T>, i: nat, x: T, id: T -> string) {
    i < |rows| && id(rows[i]) != id(x) && exists j :: i < j < |rows| && id(rows[j]) == id(x)
  }

  lemma LateMeansCrossed<T>(m: Snap<T>, target: seq<T>, id: T -> string, same: (T, T) -> bool, n: Snap<T>, i: nat)
    requires |m.rows| == |m.slots| && Reached(m, target, id, same, n, i)
    requires i < |target| && Later(n.rows, i, target[i], id)
    ensures !SameOrder(Ids(m.rows, id), Ids(target, id))
  {
    var k: nat :| SyncProgress(m, target, id, same, n, i, k);
    var j :| i < j < |n.rows| && id(n.rows[j]) == id(target[i]);
    StageLate(m.rows, m.slots, m.nextSlot, target, id, n.rows, n.slots, i, k, j);
  }

  lemma LastCounts<T>(m: Snap<T>, target: seq<T>, id: T -> string, same: (T, T) -> bool, n: Snap<T>, k: nat)
    requires NoRepeats(m, target, id) && SyncProgress(m, target, id, same, n, |target|, k)
    requires k == |Kept(Ids(m.rows, id), Ids(target, id), 0)|
    ensures FewestEdits(m, target, id, same, n)
  {
    EditCounts(Ids(m.rows, id), Ids(target, id));
  }

  lemma SyncEnd<T>(m: Snap<T>, target: seq<T>, id: T -> string, same: (T, T) -> bool, n: Snap<T>)
    requires NoRepeats(m, target, id) && Reached(m, target, id, same, n, |target|)
    ensures SameOrder(Ids(m.rows, id), Ids(target, id)) && InPlace(m, target, id, same, n)
  {
    var k: nat :| SyncProgress(m, target, id, same, n, |target|, k);
    StageEnd(m.rows, m.slots, m.nextSlot, target, id, n.rows, n.slots, k);
    LastCounts(m, target, id, same, n, k);
  }

  // ----- any lists -----

  /** The first `i` rows have the ids of the first `i` target rows and need no update. */
  ghost predicate Begun<T>(n: Snap<T>, target: seq<T>, id: T -> string, same: (T, T) -> bool, i: nat) {
    && i <= |n.rows| && i <= |target|
    && forall c :: 0 <= c < i ==> id(n.rows[c]) == id(target[c]) && same(n.rows[c], target[c])
  }

  lemma BegunStep<T>(n: Snap<T>, target: seq<T>, id: T -> string, same: (T, T) -> bool, i: nat)
    requires Begun(n, target, id, same, i) && i < |target| && |n.rows| == |n.slots| && same(target[i], target[i])
    ensures i < |n.rows| && id(n.rows[i]) == id(target[i]) ==>
              Begun(Settled(n, i, target[i], same), target, id, same, i + 1)
    ensures Begun(Inserted(n, i, target[i]), target, id, same, i + 1)
  {
  }
}
