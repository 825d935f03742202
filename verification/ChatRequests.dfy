/** What the chat asks of the window, over any run (client/src/chat_ui.rs, `apply_to_window`): each
    request in terms of the events since. */
module ChatRequests {
  import opened ChatWindow
  import opened Wrappers

  /** What an event does to a flag. */
  datatype Mark = Raise | Lower | Keep

  /** The flag is up: an event raised it, and none lowered it since. */
  ghost predicate IsUp(marks: seq<Mark>) {
    exists k :: 0 <= k < |marks| && marks[k] == Raise && forall j :: k < j < |marks| ==> marks[j] != Lower
  }

  lemma UpSnoc(marks: seq<Mark>, m: Mark)
    ensures IsUp(marks + [m]) <==> m == Raise || (m == Keep && IsUp(marks))
  {
    var all := marks + [m];
    if m == Raise { assert all[|marks|] == Raise; }
    if m == Keep && IsUp(marks) {
      var k :| 0 <= k < |marks| && marks[k] == Raise && forall j :: k < j < |marks| ==> marks[j] != Lower;
      assert all[k] == Raise && forall j :: k < j < |all| ==> all[j] != Lower;
    }
    if IsUp(all) && m != Raise {
      var k :| 0 <= k < |all| && all[k] == Raise && forall j :: k < j < |all| ==> all[j] != Lower;
      assert all[|marks|] == m && k < |marks| && marks[k] == Raise;
      forall j | k < j < |marks| ensures marks[j] != Lower { assert all[j] == marks[j]; }
    }
  }

  /** The server's last word on older pages. */
  function MoreMark(e: Event): Mark {
    if e.Loaded? || e.History? then (if e.serverHasMore then Raise else Lower) else Keep
  }

  /** A load, a click on the jump, an own message, or one that comes at the bottom asks for the bottom;
      opening at the unread rule takes that back. */
  function BottomMark(e: Event, atBottom: bool): Mark {
    match e
    case Loaded(_, _) => Raise
    case RequestBottom => Raise
    case Incoming(m) => if m.own || atBottom then Raise else Keep
    case OpenAtUnread(_) => Lower
    case _ => Keep
  }

  /** Opening at the unread rule asks for it once: the next request tells the window. */
  function UnreadMark(e: Event): Mark { if e.OpenAtUnread? then Raise else if e.Apply? then Lower else Keep }

  function MoreMarks(es: seq<Event>): seq<Mark> { seq(|es|, k requires 0 <= k < |es| => MoreMark(es[k])) }

  function UnreadMarks(es: seq<Event>): seq<Mark> { seq(|es|, k requires 0 <= k < |es| => UnreadMark(es[k])) }

  function BottomMarks(c: Chat, es: seq<Event>): seq<Mark> {
    seq(|es|, k requires 0 <= k < |es| => BottomMark(es[k], Run(c, es[..k]).scroll.atBottom))
  }

  lemma MarksSnoc(c: Chat, es: seq<Event>, e: Event)
    ensures MoreMarks(es + [e]) == MoreMarks(es) + [MoreMark(e)]
    ensures UnreadMarks(es + [e]) == UnreadMarks(es) + [UnreadMark(e)]
    ensures BottomMarks(c, es + [e]) == BottomMarks(c, es) + [BottomMark(e, Run(c, es).scroll.atBottom)]
  {
    assert (es + [e])[..|es|] == es;
    forall k | 0 <= k < |es|
      ensures BottomMarks(c, es + [e])[k] == BottomMarks(c, es)[k]
    {
      assert (es + [e])[..k] == es[..k];
    }
  }

  ghost predicate Flags(c: Chat, es: seq<Event>) {
    var s := Run(c, es).scroll;
    && (s.serverHasMore <==> IsUp(MoreMarks(es)))
    && (s.pendingScrollToBottom <==> IsUp(BottomMarks(c, es)))
    && (s.pendingScrollToUnread <==> IsUp(UnreadMarks(es)))
  }

  function Marked(was: bool, m: Mark): bool { m == Raise || (m == Keep && was) }

  lemma NextFlags(s: Scroll, total: nat, added: nat, e: Event)
    ensures var t := Next(s, total, added, e);
            && t.serverHasMore == Marked(s.serverHasMore, MoreMark(e))
            && t.pendingScrollToBottom == Marked(s.pendingScrollToBottom, BottomMark(e, s.atBottom))
            && t.pendingScrollToUnread == Marked(s.pendingScrollToUnread, UnreadMark(e))
  {
  }

  lemma AfterFlags(c: Chat, es: seq<Event>, e: Event)
    ensures var s, t := Run(c, es).scroll, Run(c, es + [e]).scroll;
            && t.serverHasMore == Marked(s.serverHasMore, MoreMark(e))
            && t.pendingScrollToBottom == Marked(s.pendingScrollToBottom, BottomMark(e, s.atBottom))
            && t.pendingScrollToUnread == Marked(s.pendingScrollToUnread, UnreadMark(e))
  {
    var d := Run(c, es);
    RunSnoc(c, es, e);
    NextFlags(d.scroll, |d.messages|, FreshIn(d.messages, e), e);
  }

  lemma FlagsSnoc(c: Chat, es: seq<Event>, e: Event)
    requires Flags(c, es)
    ensures Flags(c, es + [e])
  {
    AfterFlags(c, es, e);
    MarksSnoc(c, es, e);
    UpSnoc(MoreMarks(es), MoreMark(e));
    UpSnoc(UnreadMarks(es), UnreadMark(e));
    UpSnoc(BottomMarks(c, es), BottomMark(e, Run(c, es).scroll.atBottom));
  }

  /** Over any run: older pages are promised as the server last said, the bottom is asked for since an
      event that asks for it unless the unread rule was opened after it, and the rule is asked for from
      its opening to the next request. */
  lemma {:induction false} RequestsFollow(ms: seq<Message>, es: seq<Event>)
    ensures Flags(Chat(Start(), ms), es)
    decreases |es|
  {
    if es != [] {
      var before, e := es[..|es| - 1], es[|es| - 1];
      assert es == before + [e];
      RequestsFollow(ms, before);
      FlagsSnoc(Chat(Start(), ms), before, e);
    }
  }

  // ----- the count of prepended rows -----

  /** What an event makes of the count, if anything: a page puts its own there, a load and a request to
      the window put 0. */
  function CountMark(c: Chat, e: Event): Option<nat> {
    match e
    case Loaded(_, _) => Some(0)
    case Apply => Some(0)
    case History(page, _) => Some(|NotLoaded(c.messages, page)|)
    case LocalPage => if WindowStart(c.scroll, |c.messages|) > 0 then Some(RevealCount(c.scroll, |c.messages|)) else None
    case _ => None
  }

  /** The count is what the last event that touched it put there. */
  ghost predicate LastCount(c: Chat, es: seq<Event>, k: nat, n: nat) {
    && k < |es| && CountMark(Run(c, es[..k]), es[k]) == Some(n)
    && forall j :: k < j < |es| ==> CountMark(Run(c, es[..j]), es[j]) == None
  }

  lemma LastCountSnoc(c: Chat, es: seq<Event>, e: Event, k: nat, n: nat)
    ensures CountMark(Run(c, es), e) == Some(n) ==> LastCount(c, es + [e], |es|, n)
    ensures CountMark(Run(c, es), e) == None && LastCount(c, es, k, n) ==> LastCount(c, es + [e], k, n)
  {
    var all := es + [e];
    assert all[..|es|] == es;
    if CountMark(Run(c, es), e) == None && LastCount(c, es, k, n) {
      assert all[..k] == es[..k];
      forall j | k < j < |all| ensures CountMark(Run(c, all[..j]), all[j]) == None {
        if j < |es| { assert all[..j] == es[..j]; }
      }
    }
  }

  lemma CountStep(c: Chat, e: Event)
    ensures After(c, e).scroll.historyPrependedRows
            == match CountMark(c, e) case Some(n) => n case None => c.scroll.historyPrependedRows
  {
  }

  /** Over any run that begins with a load: the pending count is what the last page, load or request put
      there. */
  lemma {:induction false} CountFollows(c: Chat, es: seq<Event>) returns (k: nat)
    requires es != [] && es[0].Loaded?
    ensures LastCount(c, es, k, Run(c, es).scroll.historyPrependedRows)
    decreases |es|
  {
    var before, e := es[..|es| - 1], es[|es| - 1];
    assert es == before + [e];
    RunSnoc(c, before, e);
    CountStep(Run(c, before), e);
    var n := Run(c, es).scroll.historyPrependedRows;
    if CountMark(Run(c, before), e).Some? {
      k := |before|;
      LastCountSnoc(c, before, e, 0, n);
    } else {
      k := CountFollows(c, before);
      LastCountSnoc(c, before, e, k, n);
    }
  }

  /** Scrolling, the jump to the bottom, the unread rule and a request leave the rows as they are. */
  lemma RowsStay(c: Chat, e: Event)
    requires e.Viewport? || e.RequestBottom? || e.OpenAtUnread? || e.Apply?
    ensures After(c, e).messages == c.messages && Shown(After(c, e)) == Shown(c)
  {
  }
}
