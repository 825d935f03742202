/** The crew list (client/src/converters.rs, `sync_crews` and its caller `apply_unread_to_crews`). */
module Crews {
  import opened Collections
  import opened RowModel
  import opened ListSync

  /** A crew card; `card` stands for the fields this code only copies and compares. */
  datatype CrewData = CrewData(id: string, unreadCount: int, unreadMention: bool, card: int)

  function IdOf(c: CrewData): string { c.id }

  predicate SameCrew(a: CrewData, b: CrewData) { a == b }

  function CrewIds(rows: seq<CrewData>): seq<string> { Ids(rows, IdOf) }

  /** The promise of the synchroniser, for lists without repeated ids: exactly the target; replaced
      as a whole exactly when the common ids changed order; otherwise every surviving row stays in its
      slot, and removals, insertions and updates are no more than they must be. */
  ghost predicate Synced(m: Snap<CrewData>, crews: seq<CrewData>, n: Snap<CrewData>)
    requires |m.rows| == |m.slots|
  {
    && n.rows == crews && |n.slots| == |n.rows|
    && (n.edits.resets > m.edits.resets <==> !SameOrder(CrewIds(m.rows), CrewIds(crews)))
    && (SameOrder(CrewIds(m.rows), CrewIds(crews)) ==> InPlace(m, crews, IdOf, SameCrew, n))
  }

  lemma AllEqual(n: Snap<CrewData>, crews: seq<CrewData>)
    requires Begun(n, crews, IdOf, SameCrew, |crews|)
    ensures crews <= n.rows
  {
    forall c | 0 <= c < |crews| ensures n.rows[c] == crews[c] { assert SameCrew(n.rows[c], crews[c]); }
  }

  ghost predicate Underway(m: Snap<CrewData>, crews: seq<CrewData>, n: Snap<CrewData>, i: nat) {
    NoRepeats(m, crews, IdOf) ==> Reached(m, crews, IdOf, SameCrew, n, i)
  }

  /** The row that stands at `i` when crew `i` is handled decides what is done. */
  function Placed(n: Snap<CrewData>, crews: seq<CrewData>, i: nat): Snap<CrewData>
    requires i < |crews| && i <= |n.rows| == |n.slots|
  {
    if i < |n.rows| && n.rows[i].id == crews[i].id then Settled(n, i, crews[i], SameCrew)
    else if Later(n.rows, i, crews[i], IdOf) then Replaced(n, crews)
    else Inserted(n, i, crews[i])
  }

  lemma PlaceStep(m: Snap<CrewData>, crews: seq<CrewData>, n: Snap<CrewData>, i: nat, n': Snap<CrewData>)
    requires Underway(m, crews, n, i) && Begun(n, crews, IdOf, SameCrew, i) && i < |crews| && |n.rows| == |n.slots|
    requires !Later(n.rows, i, crews[i], IdOf) && n' == Placed(n, crews, i)
    ensures Underway(m, crews, n', i + 1) && Begun(n', crews, IdOf, SameCrew, i + 1)
  {
    BegunStep(n, crews, IdOf, SameCrew, i);
    if NoRepeats(m, crews, IdOf) {
      if i < |n.rows| && n.rows[i].id == crews[i].id {
        MatchedStep(m, crews, IdOf, SameCrew, n, i);
      } else {
        NewStep(m, crews, IdOf, SameCrew, n, i);
      }
    }
  }

  lemma LateStep(m: Snap<CrewData>, crews: seq<CrewData>, n: Snap<CrewData>, i: nat, n': Snap<CrewData>)
    requires NoRepeats(m, crews, IdOf) && Reached(m, crews, IdOf, SameCrew, n, i)
    requires i < |crews| && Later(n.rows, i, crews[i], IdOf) && n' == Replaced(n, crews)
    ensures Synced(m, crews, n')
  {
    LateMeansCrossed(m, crews, IdOf, SameCrew, n, i);
    var k: nat :| SyncProgress(m, crews, IdOf, SameCrew, n, i, k);
  }

  lemma AllPlaced(m: Snap<CrewData>, crews: seq<CrewData>, n: Snap<CrewData>)
    requires NoRepeats(m, crews, IdOf) && Reached(m, crews, IdOf, SameCrew, n, |crews|)
    requires Begun(n, crews, IdOf, SameCrew, |crews|)
    ensures Synced(m, crews, n)
  {
    SyncEnd(m, crews, IdOf, SameCrew, n);
    AllEqual(n, crews);
  }

  /** One round of the second loop. */
  method PlaceCrew(model: VecModel<CrewData>, crews: seq<CrewData>, i: nat) returns (replaced: bool)
    requires model.View().Valid() && i < |crews| && i <= |model.rows|
    modifies model
    ensures model.View().Valid() && model.View() == Placed(old(model.View()), crews, i)
    ensures replaced == old(Later(model.rows, i, crews[i], IdOf))
  {
    replaced := false;
    if i < |model.rows| && model.rows[i].id == crews[i].id {
      if model.rows[i] != crews[i] { model.SetRowData(i, crews[i]); }
    } else if i < |model.rows| && exists j :: i < j < |model.rows| && IdOf(model.rows[j]) == crews[i].id {
      model.SetVec(crews);
      replaced := true;
    } else {
      model.Insert(i, crews[i]);
    }
  }

  method SyncRows(model: VecModel<CrewData>, crews: seq<CrewData>)
    requires model.View().Valid()
    modifies model
    ensures model.View().Valid() && crews <= model.rows
    ensures NoRepeats(old(model.View()), crews, IdOf) ==> Synced(old(model.View()), crews, model.View())
  {
    ghost var m := model.View();
    RemoveGone(model, CrewIds(crews), IdOf);
    SyncStart(m, crews, IdOf, SameCrew);
    for i := 0 to |crews|
      invariant model.View().Valid() && Begun(model.View(), crews, IdOf, SameCrew, i)
      invariant Underway(m, crews, model.View(), i)
    {
      ghost var n := model.View();
      var replaced := PlaceCrew(model, crews, i);
      if replaced {
        if NoRepeats(m, crews, IdOf) { LateStep(m, crews, n, i, model.View()); }
        return;
      }
      PlaceStep(m, crews, n, i, model.View());
    }
    AllEqual(model.View(), crews);
    if NoRepeats(m, crews, IdOf) { AllPlaced(m, crews, model.View()); }
  }

  // ----- a caller that keeps the ids -----

  function WithUnread(rows: seq<CrewData>, unread: string -> (nat, bool)): (r: seq<CrewData>)
    ensures |r| == |rows|
  {
    seq(|rows|, i requires 0 <= i < |rows| =>
      var (count, mention) := unread(rows[i].id);
      rows[i].(unreadCount := if count < 99 then count else 99, unreadMention := mention))
  }

  /** A row with the tracker's count, which stops at 99, and its mention flag; nothing else changes. */
  predicate ShowsUnread(was: CrewData, unread: string -> (nat, bool), r: CrewData) {
    var (count, mention) := unread(was.id);
    && r.id == was.id && r.card == was.card && r.unreadMention == mention
    && (count <= 99 ==> r.unreadCount == count) && (count > 99 ==> r.unreadCount == 99)
  }

  /** New unread state in the old rows: nothing moves, nothing is removed or inserted, and one update
      is made for each crew whose count or flag changed. */
  ghost predicate OnlyUpdated(m: Snap<CrewData>, unread: string -> (nat, bool), n: Snap<CrewData>) {
    && n.rows == WithUnread(m.rows, unread) && n.slots == m.slots
    && n.edits == m.edits.(updated := m.edits.updated + Changes(m.rows, n.rows, IdOf, SameCrew, |n.rows|))
  }

  lemma SameIds(rows: seq<CrewData>, unread: string -> (nat, bool))
    ensures CrewIds(WithUnread(rows, unread)) == CrewIds(rows)
  {
  }

  lemma SyncedInPlace(m: Snap<CrewData>, unread: string -> (nat, bool), n: Snap<CrewData>)
    requires NoRepeats(m, m.rows, IdOf)
    requires Synced(m, WithUnread(m.rows, unread), n)
    ensures OnlyUpdated(m, unread, n)
  {
    var crews, ids := WithUnread(m.rows, unread), CrewIds(m.rows);
    SameIds(m.rows, unread);
    assert SameOrder(ids, ids) && SetOf(ids) - SetOf(ids) == {};
    forall c | 0 <= c < |ids| ensures n.slots[c] == m.slots[c] { assert ids[c] == CrewIds(crews)[c]; }
  }

  /** The crew list of the window. `model` is null when the list is of another type, whose rows can be
      read, and are `others`. */
  class CrewList {
    var model: VecModel?<CrewData>
    var others: seq<CrewData>

    function Rows(): seq<CrewData>
      reads this, model
    {
      if model == null then others else model.rows
    }

    /** Make the crew list equal to `crews`, in place. Whatever the ids, the list then starts with
        `crews`; without repeated ids the promise holds. */
    method SyncCrews(crews: seq<CrewData>)
      requires model != null ==> model.View().Valid()
      modifies this, model
      ensures model != null && model.View().Valid() && crews <= model.rows
      ensures old(model) == null ==> fresh(model) && model.rows == crews
      ensures old(model) != null ==> model == old(model)
      ensures old(model) != null && NoRepeats(old(model.View()), crews, IdOf) ==>
                Synced(old(model.View()), crews, model.View())
    {
      if model == null {
        model := new VecModel<CrewData>(crews);
      } else {
        SyncRows(model, crews);
      }
    }

    /** Refresh the unread counts: `unread` gives the count and the mention flag of an id. */
    method ApplyUnread(unread: string -> (nat, bool))
      requires model != null ==> model.View().Valid()
      modifies this, model
      ensures model != null && model.View().Valid() && WithUnread(old(Rows()), unread) <= model.rows
      ensures forall i :: 0 <= i < |old(Rows())| ==>
                i < |model.rows| && ShowsUnread(old(Rows())[i], unread, model.rows[i])
      ensures old(model) == null ==> fresh(model) && model.rows == WithUnread(old(Rows()), unread)
      ensures old(model) != null ==> model == old(model)
      ensures old(model) != null && NoRepeats(old(model.View()), old(model.rows), IdOf) ==>
                OnlyUpdated(old(model.View()), unread, model.View())
    {
      ghost var rows := Rows();
      var updated := WithUnread(Rows(), unread);
      SameIds(rows, unread);
      SyncCrews(updated);
      if old(model) != null && NoRepeats(old(model.View()), rows, IdOf) {
        SyncedInPlace(old(model.View()), unread, model.View());
      }
    }
  }
}
