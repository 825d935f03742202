/** The feed while the user reads up (client/src/chat_ui.rs with its callers in
    client/src/handlers/chat.rs): which rows stay, and whether the counts that the window is told add
    up to the rows that came above. */
module ChatReading {
  import opened ChatWindow
  import opened Wrappers

  /** What may happen while the user stays above the bottom. */
  predicate Reading(e: Event) {
    e.LocalPage? || e.History? || e.Apply? || (e.Incoming? && !e.message.own) || (e.Viewport? && !e.atBottom)
    || e.OpenAtUnread?
  }

  predicate AllReading(es: seq<Event>) { forall i :: 0 <= i < |es| ==> Reading(es[i]) }

  predicate Known(c: Chat, e: Event) { e.Incoming? && Find(c.messages, e.message.id).Some? }

  function Hidden(c: Chat): nat { WindowStart(c.scroll, |c.messages|) }

  /** A loaded message comes again while rows are hidden: the window grows and the list does not. */
  predicate Resurfaces(c: Chat, e: Event) { Known(c, e) && Hidden(c) > 0 }

  /** The rows that an event adds above. */
  function Above(c: Chat, e: Event): nat {
    match e
    case LocalPage => RevealCount(c.scroll, |c.messages|)
    case History(_, _) => FreshIn(c.messages, e)
    case Incoming(_) => if Resurfaces(c, e) then 1 else 0
    case _ => 0
  }

  /** The rows that were on screen, after an event: a new message is below them, and a message that
      comes again replaces its own row. */
  function OldRows(c: Chat, e: Event): seq<Message> {
    if !e.Incoming? then Shown(c)
    else
      var at := Find(c.messages, e.message.id);
      if at.None? then Shown(c) + [e.message]
      else if at.value >= Hidden(c) then Shown(c)[at.value - Hidden(c) := e.message]
      else Shown(c)
  }

  lemma Slide<T>(ms: seq<T>, a: nat, n: nat)
    requires n <= a <= |ms|
    ensures ms[a - n..][n..] == ms[a..]
  {
  }

  lemma SlideUnder<T>(older: seq<T>, ms: seq<T>, a: nat)
    requires a <= |ms|
    ensures (older + ms)[a..][|older|..] == ms[a..]
  {
  }

  lemma UpdateSlice<T>(ms: seq<T>, a: nat, i: nat, x: T)
    requires a <= |ms| && i < |ms|
    ensures ms[i := x][a..] == if i >= a then ms[a..][i - a := x] else ms[a..]
  {
  }

  /** A message that is new goes below. */
  lemma RowsArriving(c: Chat, m: Message)
    requires !c.scroll.atBottom && !m.own && Find(c.messages, m.id).None?
    ensures Shown(After(c, Incoming(m))) == Shown(c) + [m]
  {
    var start := Hidden(c);
    assert Hidden(After(c, Incoming(m))) == start;
    assert (c.messages + [m])[start..] == c.messages[start..] + [m];
  }

  /** A message that comes again replaces its own row, and a hidden row appears over the others. */
  lemma RowsAgain(c: Chat, m: Message)
    requires !c.scroll.atBottom && !m.own && Find(c.messages, m.id).Some?
    ensures var rows, above := Shown(After(c, Incoming(m))), if Hidden(c) > 0 then 1 else 0;
            above <= |rows| && rows[above..] == OldRows(c, Incoming(m))
  {
    var start, at := Hidden(c), Find(c.messages, m.id).value;
    var ms := c.messages[at := m];
    assert Hidden(After(c, Incoming(m))) == if start > 0 then start - 1 else 0;
    UpdateSlice(c.messages, start, at, m);
    if start > 0 { Slide(ms, start, 1); }
  }

  lemma RowsIncoming(c: Chat, m: Message)
    requires !c.scroll.atBottom && !m.own
    ensures var e := Incoming(m); var rows := Shown(After(c, e));
            Above(c, e) <= |rows| && rows[Above(c, e)..] == OldRows(c, e)
  {
    if Find(c.messages, m.id).None? { RowsArriving(c, m); } else { RowsAgain(c, m); }
  }

  lemma RowsFromServer(c: Chat, page: seq<Message>, more: bool)
    ensures var e := History(page, more); var rows := Shown(After(c, e));
            Above(c, e) <= |rows| && rows[Above(c, e)..] == Shown(c)
  {
    var older := NotLoaded(c.messages, page);
    assert Hidden(After(c, History(page, more))) == Hidden(c);
    SlideUnder(older, c.messages, Hidden(c));
  }

  lemma RowsFromPage(c: Chat)
    ensures var rows := Shown(After(c, LocalPage));
            Above(c, LocalPage) <= |rows| && rows[Above(c, LocalPage)..] == Shown(c)
  {
    var n := RevealCount(c.scroll, |c.messages|);
    assert Hidden(After(c, LocalPage)) == Hidden(c) - n;
    Slide(c.messages, Hidden(c), n);
  }

  /** One event while reading up: the rows on screen stay together, with exactly the rows counted by
      `Above` over them. */
  lemma ReadingStep(c: Chat, e: Event)
    requires Reading(e) && !c.scroll.atBottom
    ensures !After(c, e).scroll.atBottom
    ensures Above(c, e) <= |Shown(After(c, e))| && Shown(After(c, e))[Above(c, e)..] == OldRows(c, e)
  {
    match e {
      case Incoming(m) => RowsIncoming(c, m);
      case History(page, more) => RowsFromServer(c, page, more);
      case LocalPage => RowsFromPage(c);
      case _ =>
    }
  }

  // ----- rows over a run -----

  function Ids(ms: seq<Message>): (ids: seq<string>)
    ensures |ids| == |ms|
  {
    seq(|ms|, i requires 0 <= i < |ms| => ms[i].id)
  }

  function AddedAbove(c: Chat, es: seq<Event>): nat
    decreases |es|
  {
    if es == [] then 0 else Above(c, es[0]) + AddedAbove(After(c, es[0]), es[1..])
  }

  /** The ids of the messages that were new when they came, in their order. */
  function Arrived(c: Chat, es: seq<Event>): seq<string>
    decreases |es|
  {
    if es == [] then []
    else
      (if es[0].Incoming? && !Known(c, es[0]) then [es[0].message.id] else []) + Arrived(After(c, es[0]), es[1..])
  }

  lemma OldRowIds(c: Chat, e: Event)
    ensures Ids(OldRows(c, e)) == Ids(Shown(c)) + if e.Incoming? && !Known(c, e) then [e.message.id] else []
  {
    if e.Incoming? {
      var at := Find(c.messages, e.message.id);
      if at.Some? && at.value >= Hidden(c) { assert Shown(c)[at.value - Hidden(c)].id == e.message.id; }
    }
  }

  lemma DropInTwo<T>(rows: seq<T>, more: nat, mid: seq<T>, above: nat, old_: seq<T>, own: seq<T>, rest: seq<T>)
    requires more <= |rows| && rows[more..] == mid + rest && above <= |mid| && mid[above..] == old_ + own
    ensures above + more <= |rows| && rows[above + more..] == old_ + (own + rest)
  {
    assert rows[more + above..] == rows[more..][above..];
  }

  lemma IdsOfTail(ms: seq<Message>, n: nat)
    requires n <= |ms|
    ensures Ids(ms)[n..] == Ids(ms[n..])
  {
  }

  /** Over any run of such events the rows on screen stay together, whatever arrives: history,
      revealed and resurfaced rows go above them, messages that are new go below. */
  lemma {:induction false} ReadingKeepsRows(c: Chat, es: seq<Event>)
    requires !c.scroll.atBottom && AllReading(es)
    ensures var above, rows := AddedAbove(c, es), Shown(Run(c, es));
            above <= |rows| && Ids(rows)[above..] == Ids(Shown(c)) + Arrived(c, es)
    decreases |es|
  {
    if es != [] {
      var c', e := After(c, es[0]), es[0];
      ReadingStep(c, e);
      OldRowIds(c, e);
      IdsOfTail(Shown(c'), Above(c, e));
      ReadingKeepsRows(c', es[1..]);
      DropInTwo(Ids(Shown(Run(c', es[1..]))), AddedAbove(c', es[1..]), Ids(Shown(c')), Above(c, e), Ids(Shown(c)),
                if e.Incoming? && !Known(c, e) then [e.message.id] else [], Arrived(c', es[1..]));
    }
  }

  // ----- what the window is told -----

  /** Events that leave a prepended count: a page from the server, and a local page that shows
      anything. */
  predicate Prepends(c: Chat, e: Event) { e.History? || (e.LocalPage? && RevealCount(c.scroll, |c.messages|) > 0) }

  /** A prepended count that the window has not been told is replaced by another one. */
  predicate Overwrites(c: Chat, e: Event) { c.scroll.historyPrependedRows > 0 && Prepends(c, e) }

  function ToldBy(c: Chat, e: Event): nat { if e.Apply? then c.scroll.historyPrependedRows else 0 }

  /** The counts that `ApplyToWindow` passes on in a run. */
  function Told(c: Chat, es: seq<Event>): nat
    decreases |es|
  {
    if es == [] then 0
    else ToldBy(c, es[0]) + Told(After(c, es[0]), es[1..])
  }

  function LostIn(c: Chat, e: Event): nat {
    (if Overwrites(c, e) then c.scroll.historyPrependedRows else 0) + (if Resurfaces(c, e) then 1 else 0)
  }

  function Lost(c: Chat, es: seq<Event>): nat
    decreases |es|
  {
    if es == [] then 0 else LostIn(c, es[0]) + Lost(After(c, es[0]), es[1..])
  }

  lemma EventAccounted(c: Chat, e: Event)
    requires !c.scroll.atBottom && Reading(e)
    ensures c.scroll.historyPrependedRows + Above(c, e)
            == ToldBy(c, e) + After(c, e).scroll.historyPrependedRows + LostIn(c, e)
    ensures !After(c, e).scroll.atBottom
  {
  }

  /** Every row that comes above is told, still pending, or lost. */
  lemma {:induction false} RowsAccounted(c: Chat, es: seq<Event>)
    requires !c.scroll.atBottom && AllReading(es)
    ensures c.scroll.historyPrependedRows + AddedAbove(c, es)
            == Told(c, es) + Run(c, es).scroll.historyPrependedRows + Lost(c, es)
    decreases |es|
  {
    if es != [] {
      EventAccounted(c, es[0]);
      RowsAccounted(After(c, es[0]), es[1..]);
    }
  }

  lemma RunOfPrefix(c: Chat, es: seq<Event>, i: nat)
    requires es != [] && i < |es|
    ensures Run(After(c, es[0]), es[1..][..i]) == Run(c, es[..i + 1])
  {
    assert es[..i + 1][1..] == es[1..][..i];
  }

  lemma Shifted(c: Chat, es: seq<Event>, c': Chat, rest: seq<Event>)
    requires |es| == |rest| + 1 && Run(c, es[..0]) == c
    requires forall i :: 0 <= i < |rest| ==> Run(c', rest[..i]) == Run(c, es[..i + 1]) && rest[i] == es[i + 1]
    ensures (LostIn(c, es[0]) == 0 && forall i :: 0 <= i < |rest| ==> LostIn(Run(c', rest[..i]), rest[i]) == 0)
            <==> forall i :: 0 <= i < |es| ==> LostIn(Run(c, es[..i]), es[i]) == 0
  {
    if forall i :: 0 <= i < |es| ==> LostIn(Run(c, es[..i]), es[i]) == 0 {
      assert LostIn(Run(c, es[..0]), es[0]) == 0;
      forall i | 0 <= i < |rest| ensures LostIn(Run(c', rest[..i]), rest[i]) == 0 {
        assert LostIn(Run(c, es[..i + 1]), es[i + 1]) == 0;
      }
    }
    if LostIn(c, es[0]) == 0 && forall i :: 0 <= i < |rest| ==> LostIn(Run(c', rest[..i]), rest[i]) == 0 {
      forall i | 0 <= i < |es| ensures LostIn(Run(c, es[..i]), es[i]) == 0 {
        if i > 0 { assert LostIn(Run(c', rest[..i - 1]), rest[i - 1]) == 0; }
      }
    }
  }

  /** Nothing is lost exactly when no event loses anything. */
  lemma {:induction false} LostSomewhere(c: Chat, es: seq<Event>)
    ensures Lost(c, es) == 0 <==> forall i :: 0 <= i < |es| ==> LostIn(Run(c, es[..i]), es[i]) == 0
    decreases |es|
  {
    if es != [] {
      var c', rest := After(c, es[0]), es[1..];
      LostSomewhere(c', rest);
      assert Run(c, es[..0]) == c;
      forall i | 0 <= i < |rest| ensures Run(c', rest[..i]) == Run(c, es[..i + 1]) && rest[i] == es[i + 1] {
        RunOfPrefix(c, es, i);
      }
      Shifted(c, es, c', rest);
    }
  }

  /** For every reading run: the counts told, with the one still pending, are exactly the rows that
      came above if and only if no pending count was overwritten and no loaded message came again
      while rows were hidden. */
  lemma ToldAddsUp(c: Chat, es: seq<Event>)
    requires !c.scroll.atBottom && AllReading(es)
    ensures Told(c, es) + Run(c, es).scroll.historyPrependedRows == c.scroll.historyPrependedRows + AddedAbove(c, es)
            <==> forall i :: 0 <= i < |es| ==> !Overwrites(Run(c, es[..i]), es[i]) && !Resurfaces(Run(c, es[..i]), es[i])
  {
    RowsAccounted(c, es);
    LostSomewhere(c, es);
    forall i | 0 <= i < |es|
      ensures LostIn(Run(c, es[..i]), es[i]) == 0
              <==> !Overwrites(Run(c, es[..i]), es[i]) && !Resurfaces(Run(c, es[..i]), es[i])
    {
    }
  }

  /** As the client runs it: every prepend is followed at once by a refresh, which tells the window.
      After a local page that shows nothing there is none; the server is asked instead. */
  predicate ToldAtOnce(c: Chat, es: seq<Event>) {
    forall i :: 0 <= i < |es| && Prepends(Run(c, es[..i]), es[i]) ==> i + 1 < |es| && es[i + 1].Apply?
  }

  lemma PendingAfter(c: Chat, e: Event)
    requires Reading(e) && !c.scroll.atBottom && (c.scroll.historyPrependedRows == 0 || e.Apply?)
    ensures After(c, e).scroll.historyPrependedRows > 0 ==> Prepends(c, e)
  {
  }

  lemma {:induction false} ReadsUpTo(c: Chat, es: seq<Event>, i: nat)
    requires !c.scroll.atBottom && AllReading(es) && i <= |es|
    ensures !Run(c, es[..i]).scroll.atBottom
  {
    if i > 0 {
      ReadsUpTo(c, es, i - 1);
      assert es[..i] == es[..i - 1] + [es[i - 1]];
      RunSnoc(c, es[..i - 1], es[i - 1]);
      EventAccounted(Run(c, es[..i - 1]), es[i - 1]);
    }
  }

  /** A count is pending only before a refresh. */
  lemma {:induction false} PendingIsTold(c: Chat, es: seq<Event>, i: nat)
    requires ToldAtOnce(c, es) && c.scroll.historyPrependedRows == 0 && !c.scroll.atBottom && AllReading(es) && i <= |es|
    ensures Run(c, es[..i]).scroll.historyPrependedRows > 0 ==> i < |es| && es[i].Apply?
  {
    if i > 0 {
      var before, e := Run(c, es[..i - 1]), es[i - 1];
      PendingIsTold(c, es, i - 1);
      ReadsUpTo(c, es, i - 1);
      assert es[..i] == es[..i - 1] + [e];
      RunSnoc(c, es[..i - 1], e);
      PendingAfter(before, e);
    }
  }

  /** In the client the counts told are the rows that came above, all of them told, if and only if no
      loaded message came again while rows were hidden. */
  lemma ClientTellsAll(c: Chat, es: seq<Event>)
    requires !c.scroll.atBottom && AllReading(es) && ToldAtOnce(c, es) && c.scroll.historyPrependedRows == 0
    ensures Told(c, es) + Run(c, es).scroll.historyPrependedRows == AddedAbove(c, es)
            <==> forall i :: 0 <= i < |es| ==> !Resurfaces(Run(c, es[..i]), es[i])
  {
    ToldAddsUp(c, es);
    forall i | 0 <= i < |es| ensures !Overwrites(Run(c, es[..i]), es[i]) { PendingIsTold(c, es, i); }
  }

  // ----- three short runs -----

  lemma TwoEvents(c: Chat, e: Event, f: Event)
    ensures Run(c, [e, f]) == After(After(c, e), f)
    ensures Told(c, [e, f]) == ToldBy(c, e) + ToldBy(After(c, e), f)
    ensures AddedAbove(c, [e, f]) == Above(c, e) + Above(After(c, e), f)
  {
    assert [e, f][1..] == [f];
    assert Run(After(c, e), [f]) == After(After(c, e), f);
    assert Told(After(c, e), [f]) == ToldBy(After(c, e), f);
    assert AddedAbove(After(c, e), [f]) == Above(After(c, e), f);
  }

  lemma ThenTwo(c: Chat, e: Event, f: Event, g: Event)
    ensures Told(c, [e, f, g]) == ToldBy(c, e) + Told(After(c, e), [f, g])
    ensures AddedAbove(c, [e, f, g]) == Above(c, e) + AddedAbove(After(c, e), [f, g])
  {
    assert [e, f, g][1..] == [f, g];
  }

  /** A page as the client loads it when no loaded row is hidden: the rows are counted and told. */
  lemma PageIsTold(c: Chat, page: seq<Message>, more: bool)
    requires !c.scroll.atBottom && c.scroll.historyPrependedRows == 0 && Hidden(c) == 0
    ensures var es := [LocalPage, History(page, more), Apply];
            ToldAtOnce(c, es) && Told(c, es) == AddedAbove(c, es) == |NotLoaded(c.messages, page)|
  {
    var es := [LocalPage, History(page, more), Apply];
    assert Run(c, es[..0]) == c;
    ThenTwo(c, es[0], es[1], es[2]);
    TwoEvents(After(c, LocalPage), es[1], es[2]);
  }

  /** With another page before the refresh, the rows that the first one showed are never told. */
  lemma CountIsOverwritten(c: Chat, page: seq<Message>, more: bool)
    requires !c.scroll.atBottom && c.scroll.historyPrependedRows == 0 && Hidden(c) > 0
    ensures var es := [LocalPage, History(page, more), Apply]; var shown := RevealCount(c.scroll, |c.messages|);
            Told(c, es) == AddedAbove(c, es) - shown && shown > 0
  {
    ThenTwo(c, LocalPage, History(page, more), Apply);
    TwoEvents(After(c, LocalPage), History(page, more), Apply);
  }

  /** A loaded message that comes again while a row is hidden: one row appears above, and the window
      is told nothing. */
  lemma RowAppearsUntold(c: Chat, m: Message)
    requires !c.scroll.atBottom && !m.own && Find(c.messages, m.id).Some? && Hidden(c) > 0
    requires c.scroll.historyPrependedRows == 0
    ensures var es := [Incoming(m), Apply]; var rows := Shown(Run(c, es));
            Told(c, es) == 0 && |rows| == |Shown(c)| + 1 && rows[1..] == OldRows(c, Incoming(m))
  {
    TwoEvents(c, Incoming(m), Apply);
    RowsIncoming(c, m);
  }

  // ----- back at the bottom -----

  /** The newest `n` messages, or all of them. */
  function Newest(ms: seq<Message>, n: nat): seq<Message> { if |ms| <= n then ms else ms[|ms| - n..] }

  /** A load, an own message or a message met at the bottom brings the feed back to the newest
      messages, in one window. */
  lemma BackToWindow(c: Chat, ms: seq<Message>, more: bool, m: Message)
    ensures Shown(After(c, Loaded(ms, more))) == Newest(ms, 200)
    ensures m.own || c.scroll.atBottom ==> Shown(After(c, Incoming(m))) == Newest(Upsert(c.messages, m), 200)
  {
    assert ms[0..] == ms && Upsert(c.messages, m)[0..] == Upsert(c.messages, m);
  }
}
