/** The chat rows (client/src/converters.rs, `sync_chat_rows`). */
module ChatRows {
  import opened ChatRowData
  import opened Collections
  import opened RowModel
  import opened ListSync

  function IdOf(r: ChatRow): string { r.messageId }

  function RowIds(rows: seq<ChatRow>): seq<string> { Ids(rows, IdOf) }

  // ----- any lists: what has been met, and what is still below -----

  /** Before target index `i`: the first `k` kept rows were met at the places `pos`, from left to
      right, and below `i` are the others. */
  ghost predicate Met(was: seq<string>, ids: seq<string>, rows: seq<ChatRow>, i: nat, pos: seq<nat>) {
    var sel := Kept(was, ids, 0);
    && |pos| <= |sel| && |rows| == i + |sel| - |pos| && i <= |ids|
    && (forall m :: 0 <= m < |pos| ==> pos[m] < i && ids[pos[m]] == was[sel[m]])
    && (forall m, n :: 0 <= m < n < |pos| ==> pos[m] < pos[n])
    && (forall j :: i <= j < |rows| ==> rows[j].messageId == was[sel[|pos| + j - i]])
  }

  ghost predicate SomeMet(was: seq<string>, ids: seq<string>, rows: seq<ChatRow>, i: nat) {
    exists pos :: Met(was, ids, rows, i, pos)
  }

  lemma MetNone(was: seq<string>, ids: seq<string>, rows: seq<ChatRow>)
    requires |rows| == |Kept(was, ids, 0)|
    requires forall j :: 0 <= j < |rows| ==> rows[j].messageId == was[Kept(was, ids, 0)[j]]
    ensures SomeMet(was, ids, rows, 0)
  {
    assert Met(was, ids, rows, 0, []);
  }

  lemma MetStart(m: Snap<ChatRow>, target: seq<ChatRow>)
    requires |m.rows| == |m.slots|
    ensures SomeMet(RowIds(m.rows), RowIds(target), Pruned(m, RowIds(m.rows), RowIds(target), 0).rows, 0)
  {
    var was, ids := RowIds(m.rows), RowIds(target);
    var rows := Pick(m.rows, Kept(was, ids, 0));
    assert Filtered(m.rows, was, ids, 0) == rows;
    MetNone(was, ids, rows);
  }

  lemma MetMatch(was: seq<string>, ids: seq<string>, rows: seq<ChatRow>, i: nat, rows': seq<ChatRow>)
    requires SomeMet(was, ids, rows, i) && i < |ids| && i < |rows| && rows[i].messageId == ids[i]
    requires |rows'| == |rows| && forall j :: i < j < |rows| ==> rows'[j] == rows[j]
    ensures SomeMet(was, ids, rows', i + 1)
  {
    var pos :| Met(was, ids, rows, i, pos);
    assert Met(was, ids, rows', i + 1, pos + [i]);
  }

  lemma MetInsert(was: seq<string>, ids: seq<string>, rows: seq<ChatRow>, i: nat, x: ChatRow)
    requires SomeMet(was, ids, rows, i) && i < |ids| && i <= |rows|
    ensures SomeMet(was, ids, rows[..i] + [x] + rows[i..], i + 1)
  {
    var pos :| Met(was, ids, rows, i, pos);
    assert Met(was, ids, rows[..i] + [x] + rows[i..], i + 1, pos);
  }

  /** Rows left over at the end repeat a target id; without repeated ids, none is left over only if
      the common ids came in order. */
  lemma MetEnd(was: seq<string>, ids: seq<string>, rows: seq<ChatRow>)
    requires SomeMet(was, ids, rows, |ids|)
    ensures |ids| <= |rows| && forall j :: |ids| <= j < |rows| ==> rows[j].messageId in ids
    ensures Distinct(ids) && |rows| == |ids| ==> SameOrder(was, ids)
  {
    var pos :| Met(was, ids, rows, |ids|, pos);
    forall j | |ids| <= j < |rows| ensures rows[j].messageId in ids { KeptInTarget(was, ids, 0, |pos| + j - |ids|); }
    if Distinct(ids) && |rows| == |ids| { MatchedInOrder(was, ids, pos); }
  }

  // ----- the synchroniser -----

  /** The promise for any lists: the target's ids in the target's order come first, in rows that need
      no update, and whatever is left below repeats a target id. Without repeated ids, nothing is left
      below exactly when the common ids kept their order, and then surviving rows are untouched but
      for the updates they need. */
  ghost predicate Synced(m: Snap<ChatRow>, target: seq<ChatRow>, n: Snap<ChatRow>)
    requires |m.rows| == |m.slots|
  {
    && Begun(n, target, IdOf, ChatRowSame, |target|)
    && (forall j :: |target| <= j < |n.rows| ==> n.rows[j].messageId in RowIds(target))
    && (NoRepeats(m, target, IdOf) ==>
          && (|n.rows| == |target| <==> SameOrder(RowIds(m.rows), RowIds(target)))
          && (SameOrder(RowIds(m.rows), RowIds(target)) ==> InPlace(m, target, IdOf, ChatRowSame, n)))
  }

  ghost predicate Ordered(m: Snap<ChatRow>, target: seq<ChatRow>) {
    NoRepeats(m, target, IdOf) && SameOrder(RowIds(m.rows), RowIds(target))
  }

  ghost predicate Fitting(m: Snap<ChatRow>, target: seq<ChatRow>, n: Snap<ChatRow>, i: nat) {
    && |m.rows| == |m.slots| && Begun(n, target, IdOf, ChatRowSame, i)
    && (Ordered(m, target) ==> Reached(m, target, IdOf, ChatRowSame, n, i))
  }

  ghost predicate Underway(m: Snap<ChatRow>, target: seq<ChatRow>, n: Snap<ChatRow>, i: nat) {
    exists pos :: Met(RowIds(m.rows), RowIds(target), n.rows, i, pos) && Fitting(m, target, n, i)
  }

  function Placed(n: Snap<ChatRow>, target: seq<ChatRow>, i: nat): Snap<ChatRow>
    requires i < |target| && i <= |n.rows| == |n.slots|
  {
    if i < |n.rows| && n.rows[i].messageId == target[i].messageId then Settled(n, i, target[i], ChatRowSame)
    else Inserted(n, i, target[i])
  }

  lemma Begin(m: Snap<ChatRow>, target: seq<ChatRow>)
    requires |m.rows| == |m.slots|
    ensures Underway(m, target, Pruned(m, RowIds(m.rows), RowIds(target), 0), 0)
  {
    MetStart(m, target);
    SyncStart(m, target, IdOf, ChatRowSame);
  }

  lemma MetStep(m: Snap<ChatRow>, target: seq<ChatRow>, n: Snap<ChatRow>, i: nat)
    requires SomeMet(RowIds(m.rows), RowIds(target), n.rows, i)
    requires i < |target| && i <= |n.rows| == |n.slots|
    ensures SomeMet(RowIds(m.rows), RowIds(target), Placed(n, target, i).rows, i + 1)
  {
    assert RowIds(target)[i] == target[i].messageId;
    if i < |n.rows| && n.rows[i].messageId == target[i].messageId {
      MetMatch(RowIds(m.rows), RowIds(target), n.rows, i, Placed(n, target, i).rows);
    } else {
      MetInsert(RowIds(m.rows), RowIds(target), n.rows, i, target[i]);
    }
  }

  lemma ReachedStep(m: Snap<ChatRow>, target: seq<ChatRow>, n: Snap<ChatRow>, i: nat)
    requires Ordered(m, target) && Reached(m, target, IdOf, ChatRowSame, n, i)
    requires i < |target| && i <= |n.rows| == |n.slots|
    ensures Reached(m, target, IdOf, ChatRowSame, Placed(n, target, i), i + 1)
  {
    if i < |n.rows| && n.rows[i].messageId == target[i].messageId {
      MatchedStep(m, target, IdOf, ChatRowSame, n, i);
    } else {
      if Later(n.rows, i, target[i], IdOf) { LateMeansCrossed(m, target, IdOf, ChatRowSame, n, i); }
      NewStep(m, target, IdOf, ChatRowSame, n, i);
    }
  }

  lemma PlaceStep(m: Snap<ChatRow>, target: seq<ChatRow>, n: Snap<ChatRow>, i: nat, n': Snap<ChatRow>)
    requires Underway(m, target, n, i) && i < |target| && i <= |n.rows| == |n.slots| && n' == Placed(n, target, i)
    ensures Underway(m, target, n', i + 1) && i + 1 <= |n'.rows|
  {
    assert Fitting(m, target, n, i) && SomeMet(RowIds(m.rows), RowIds(target), n.rows, i);
    BegunStep(n, target, IdOf, ChatRowSame, i);
    MetStep(m, target, n, i);
    if Ordered(m, target) { ReachedStep(m, target, n, i); }
  }

  lemma AllPlaced(m: Snap<ChatRow>, target: seq<ChatRow>, n: Snap<ChatRow>)
    requires Underway(m, target, n, |target|)
    ensures |m.rows| == |m.slots| && Synced(m, target, n)
  {
    assert Fitting(m, target, n, |target|) && SomeMet(RowIds(m.rows), RowIds(target), n.rows, |target|);
    MetEnd(RowIds(m.rows), RowIds(target), n.rows);
    if Ordered(m, target) { SyncEnd(m, target, IdOf, ChatRowSame, n); }
  }

  /** The second loop's first `i` rounds. */
  function PlacedAll(n: Snap<ChatRow>, target: seq<ChatRow>, i: nat): (r: Snap<ChatRow>)
    requires |n.rows| == |n.slots| && i <= |target|
    ensures i <= |r.rows| == |r.slots|
  {
    if i == 0 then n else Placed(PlacedAll(n, target, i - 1), target, i - 1)
  }

  function SyncedTo(m: Snap<ChatRow>, target: seq<ChatRow>): Snap<ChatRow>
    requires |m.rows| == |m.slots|
  {
    PlacedAll(Pruned(m, RowIds(m.rows), RowIds(target), 0), target, |target|)
  }

  lemma KeptBoth(was: seq<string>, ids: seq<string>)
    requires |was| == 2 && was[0] in ids && was[1] in ids
    ensures Kept(was, ids, 0) == [0, 1]
  {
    assert Kept(was, ids, 2) == [] && Kept(was, ids, 1) == [1];
  }

  lemma PlacedTwice(n: Snap<ChatRow>, a: ChatRow, b: ChatRow)
    requires n.rows == [a, b] && |n.slots| == 2 && a.messageId != b.messageId
    ensures PlacedAll(n, [b, a], 2).rows == [b, a, b]
  {
    var first := PlacedAll(n, [b, a], 1);
    assert PlacedAll(n, [b, a], 0) == n;
    assert first == Inserted(n, 0, b);
    assert first.rows == [b, a, b];
    assert Placed(first, [b, a], 1).rows == [b, a, b];
  }

  /** Two rows that changed places: nothing is removed, the first target row is inserted above both,
      and its old row is left at the end. */
  lemma SwappedRowIsRepeated(m: Snap<ChatRow>, a: ChatRow, b: ChatRow)
    requires m.rows == [a, b] && |m.slots| == 2 && a.messageId != b.messageId
    ensures SyncedTo(m, [b, a]).rows == [b, a, b]
  {
    var was, ids := RowIds(m.rows), RowIds([b, a]);
    assert ids[0] == was[1] && ids[1] == was[0];
    KeptBoth(was, ids);
    PlacedTwice(Pruned(m, was, ids, 0), a, b);
  }

  /** The rounds so far. */
  ghost predicate Round(m: Snap<ChatRow>, start: Snap<ChatRow>, target: seq<ChatRow>, n: Snap<ChatRow>, i: nat) {
    && |start.rows| == |start.slots| && i <= |target| && i <= |n.rows|
    && n == PlacedAll(start, target, i) && Underway(m, target, n, i)
  }

  lemma RoundStep(m: Snap<ChatRow>, start: Snap<ChatRow>, target: seq<ChatRow>, n: Snap<ChatRow>, i: nat)
    requires Round(m, start, target, n, i) && i < |target| && |n.rows| == |n.slots|
    ensures Round(m, start, target, Placed(n, target, i), i + 1)
  {
    PlaceStep(m, target, n, i, Placed(n, target, i));
  }

  /** One round of the second loop. */
  method PlaceRow(model: VecModel<ChatRow>, target: seq<ChatRow>, i: nat)
    requires model.View().Valid() && i < |target| && i <= |model.rows|
    modifies model
    ensures model.View().Valid() && model.View() == Placed(old(model.View()), target, i)
  {
    if i < |model.rows| && model.rows[i].messageId == target[i].messageId {
      if !ChatRowSame(model.rows[i], target[i]) { model.SetRowData(i, target[i]); }
    } else {
      model.Insert(i, target[i]);
    }
  }

  method PlaceNext(model: VecModel<ChatRow>, target: seq<ChatRow>, i: nat, ghost m: Snap<ChatRow>,
        ghost start: Snap<ChatRow>)
    requires model.View().Valid() && Round(m, start, target, model.View(), i) && i < |target|
    modifies model
    ensures model.View().Valid() && Round(m, start, target, model.View(), i + 1)
  {
    RoundStep(m, start, target, model.View(), i);
    PlaceRow(model, target, i);
  }

  /** The second loop, after the first. */
  method PlaceRows(model: VecModel<ChatRow>, target: seq<ChatRow>, ghost m: Snap<ChatRow>, ghost start: Snap<ChatRow>)
    requires model.View().Valid() && Round(m, start, target, model.View(), 0)
    modifies model
    ensures model.View().Valid() && Round(m, start, target, model.View(), |target|)
  {
    for i := 0 to |target|
      invariant model.View().Valid() && Round(m, start, target, model.View(), i)
    {
      PlaceNext(model, target, i, m, start);
    }
  }

  method SyncRows(model: VecModel<ChatRow>, target: seq<ChatRow>)
    requires model.View().Valid()
    modifies model
    ensures model.View().Valid() && Synced(old(model.View()), target, model.View())
    ensures model.View() == SyncedTo(old(model.View()), target)
  {
    ghost var m := model.View();
    RemoveGone(model, RowIds(target), IdOf);
    Begin(m, target);
    PlaceRows(model, target, m, model.View());
    AllPlaced(m, target, model.View());
  }

  /** The message list of the window; `null` is a model of another type. */
  class MessageList {
    var model: VecModel?<ChatRow>

    method SyncChatRows(target: seq<ChatRow>)
      requires model != null ==> model.View().Valid()
      modifies this, model
      ensures model != null && model.View().Valid()
      ensures old(model) == null ==> fresh(model) && model.rows == target
      ensures old(model) != null ==> model == old(model) && Synced(old(model.View()), target, model.View())
      ensures old(model) != null ==> model.View() == SyncedTo(old(model.View()), target)
    {
      if model == null {
        model := new VecModel<ChatRow>(target);
      } else {
        SyncRows(model, target);
      }
    }
  }
}
