/** The chat's scroll and unread state (client/src/chat_ui.rs). */
module ChatWindow {
  import opened Wrappers

  const WINDOW := 200
  const LOCAL_PAGE := 50

  datatype Scroll = Scroll(
    atBottom: bool, hasNewMessages: bool, firstUnreadId: Option<string>, pendingScrollToBottom: bool,
    historyPrependedRows: nat, windowLen: nat, serverHasMore: bool, pendingScrollToUnread: bool)

  function Start(): Scroll { Scroll(true, false, None, false, 0, WINDOW, false, false) }

  function WindowStart(s: Scroll, total: nat): (start: nat)
    ensures start <= total
  {
    if total >= s.windowLen then total - s.windowLen else 0
  }

  function RevealCount(s: Scroll, total: nat): nat {
    var hidden := WindowStart(s, total);
    if hidden < LOCAL_PAGE then hidden else LOCAL_PAGE
  }

  // ----- what happens to the chat, and the messages with it -----

  /** `body` stands for everything else in a message. */
  datatype Message = Message(id: string, own: bool, body: int)

  datatype Event =
    | Loaded(messages: seq<Message>, serverHasMore: bool)
    | Incoming(message: Message)
    | History(page: seq<Message>, serverHasMore: bool)
    | LocalPage
    | Viewport(atBottom: bool)
    | RequestBottom
    | OpenAtUnread(id: string)
    | Apply

  /** Where a message with this id is loaded. */
  function Find(ms: seq<Message>, id: string): (at: Option<nat>)
    ensures at.Some? ==> at.value < |ms| && ms[at.value].id == id
    ensures at.None? <==> forall i :: 0 <= i < |ms| ==> ms[i].id != id
  {
    if ms == [] then None
    else if ms[0].id == id then Some(0)
    else
      var at := Find(ms[1..], id);
      if at.None? then None else Some(at.value + 1)
  }

  /** `upsert_message` (client/src/handlers/chat.rs): a loaded message is replaced where it is. */
  function Upsert(ms: seq<Message>, m: Message): seq<Message> {
    var at := Find(ms, m.id);
    if at.Some? then ms[at.value := m] else ms + [m]
  }

  /** The messages of a page that are not loaded yet. */
  function NotLoaded(ms: seq<Message>, page: seq<Message>): seq<Message> {
    if page == [] then []
    else (if Find(ms, page[0].id).None? then [page[0]] else []) + NotLoaded(ms, page[1..])
  }

  /** Every message of a page that is not loaded goes in, after those of the page before it. */
  lemma {:induction false} NotLoadedAt(ms: seq<Message>, page: seq<Message>, i: nat)
    requires i < |page| && forall j :: 0 <= j < |ms| ==> ms[j].id != page[i].id
    ensures var at := |NotLoaded(ms, page[..i])|; at < |NotLoaded(ms, page)| && NotLoaded(ms, page)[at] == page[i]
  {
    if i > 0 {
      NotLoadedAt(ms, page[1..], i - 1);
      assert page[..i][1..] == page[1..][..i - 1] && page[..i][0] == page[0];
    } else {
      assert page[..0] == [];
    }
  }

  /** And no other: what stands at `q` is the message of the page that comes after `q` others. */
  lemma {:induction false} OnlyNotLoaded(ms: seq<Message>, page: seq<Message>, q: nat) returns (i: nat)
    requires q < |NotLoaded(ms, page)|
    ensures i < |page| && Find(ms, page[i].id).None? && NotLoaded(ms, page)[q] == page[i]
    ensures |NotLoaded(ms, page[..i])| == q
  {
    var here := if Find(ms, page[0].id).None? then 1 else 0;
    if q < here {
      i := 0;
      assert page[..0] == [];
    } else {
      var j := OnlyNotLoaded(ms, page[1..], q - here);
      i := j + 1;
      assert page[..i][1..] == page[1..][..j] && page[..i][0] == page[0];
    }
  }

  function Cleared(s: Scroll): Scroll { s.(hasNewMessages := false, firstUnreadId := None) }

  /** One call, with `total` messages loaded when it is made and `added` new ones in a page. */
  function Next(s: Scroll, total: nat, added: nat, e: Event): Scroll {
    match e
    case Loaded(_, more) =>
      Cleared(s).(atBottom := true, pendingScrollToBottom := true, historyPrependedRows := 0, windowLen := WINDOW,
                  serverHasMore := more)
    case Incoming(m) =>
      if m.own || s.atBottom then Cleared(s).(pendingScrollToBottom := true, windowLen := WINDOW)
      else s.(windowLen := s.windowLen + 1, hasNewMessages := true,
              firstUnreadId := if s.firstUnreadId.None? then Some(m.id) else s.firstUnreadId)
    case History(_, more) =>
      s.(serverHasMore := more, windowLen := s.windowLen + added, historyPrependedRows := added)
    case LocalPage =>
      var n := RevealCount(s, total);
      if n > 0 then s.(windowLen := s.windowLen + n, historyPrependedRows := n) else s
    case Viewport(bottom) => if bottom then Cleared(s).(atBottom := true) else s.(atBottom := false)
    case RequestBottom => Cleared(s).(atBottom := true, pendingScrollToBottom := true)
    case OpenAtUnread(id) =>
      s.(atBottom := false, hasNewMessages := true, firstUnreadId := Some(id), pendingScrollToBottom := false,
         pendingScrollToUnread := true)
    case Apply => s.(pendingScrollToUnread := false, historyPrependedRows := 0)
  }

  function Messages(ms: seq<Message>, e: Event): seq<Message> {
    match e
    case Loaded(messages, _) => messages
    case Incoming(m) => Upsert(ms, m)
    case History(page, _) => NotLoaded(ms, page) + ms
    case _ => ms
  }

  datatype Chat = Chat(scroll: Scroll, messages: seq<Message>)

  /** How many messages of a page are new. */
  function FreshIn(ms: seq<Message>, e: Event): nat { if e.History? then |NotLoaded(ms, e.page)| else 0 }

  function After(c: Chat, e: Event): Chat {
    Chat(Next(c.scroll, |c.messages|, FreshIn(c.messages, e), e), Messages(c.messages, e))
  }

  function Run(c: Chat, es: seq<Event>): Chat
    decreases |es|
  {
    if es == [] then c else Run(After(c, es[0]), es[1..])
  }

  /** The rows of the feed. */
  function Shown(c: Chat): seq<Message> { c.messages[WindowStart(c.scroll, |c.messages|)..] }

  // ----- the class -----

  datatype Request = Request(hasNewMessages: bool, scrollToUnread: bool, hasMoreHistory: bool, scrollToBottom: bool,
                             prepended: nat)

  class ChatScrollState {
    var atBottom: bool
    var hasNewMessages: bool
    var firstUnreadId: Option<string>
    var pendingScrollToBottom: bool
    var historyPrependedRows: nat
    var windowLen: nat
    var serverHasMore: bool
    var pendingScrollToUnread: bool

    ghost function View(): Scroll
      reads this
    {
      Scroll(atBottom, hasNewMessages, firstUnreadId, pendingScrollToBottom, historyPrependedRows, windowLen,
             serverHasMore, pendingScrollToUnread)
    }

    constructor ()
      ensures View() == Start()
    {
      atBottom, hasNewMessages, firstUnreadId, pendingScrollToBottom := true, false, None, false;
      historyPrependedRows, windowLen, serverHasMore, pendingScrollToUnread := 0, WINDOW, false, false;
    }

    method ResetOnMessagesLoaded(more: bool)
      modifies this
      ensures forall ms :: View() == Next(old(View()), 0, 0, Loaded(ms, more))
    {
      atBottom := true;
      hasNewMessages := false;
      firstUnreadId := None;
      pendingScrollToBottom := true;
      historyPrependedRows := 0;
      windowLen := WINDOW;
      serverHasMore := more;
    }

    method RevealLocalHistory(total: nat) returns (count: nat)
      modifies this
      ensures View() == Next(old(View()), total, 0, LocalPage)
      ensures count == RevealCount(old(View()), total)
    {
      var hidden := if total >= windowLen then total - windowLen else 0;
      count := if hidden < LOCAL_PAGE then hidden else LOCAL_PAGE;
      if count > 0 {
        windowLen := windowLen + count;
        OnHistoryPrepended(count);
      }
    }

    method OnViewportAtBottom(bottom: bool)
      modifies this
      ensures View() == Next(old(View()), 0, 0, Viewport(bottom))
    {
      atBottom := bottom;
      if bottom {
        hasNewMessages := false;
        firstUnreadId := None;
      }
    }

    method OnIncomingMessage(isOwn: bool, id: string) returns (scroll: bool)
      modifies this
      ensures forall body :: View() == Next(old(View()), 0, 0, Incoming(Message(id, isOwn, body)))
      ensures scroll <==> isOwn || old(atBottom)
    {
      if isOwn || atBottom {
        hasNewMessages := false;
        firstUnreadId := None;
        pendingScrollToBottom := true;
        windowLen := WINDOW;
        scroll := true;
      } else {
        windowLen := windowLen + 1;
        hasNewMessages := true;
        if firstUnreadId.None? { firstUnreadId := Some(id); }
        scroll := false;
      }
    }

    method RequestScrollToBottom()
      modifies this
      ensures View() == Next(old(View()), 0, 0, RequestBottom)
    {
      atBottom := true;
      hasNewMessages := false;
      firstUnreadId := None;
      pendingScrollToBottom := true;
    }

    method OnServerHistory(count: nat, more: bool)
      modifies this
      ensures forall page :: View() == Next(old(View()), 0, count, History(page, more))
    {
      serverHasMore := more;
      windowLen := windowLen + count;
      OnHistoryPrepended(count);
    }

    method OnHistoryPrepended(count: nat)
      modifies this`historyPrependedRows
      ensures historyPrependedRows == count
    {
      historyPrependedRows := count;
    }

    method OpenAt(id: string)
      modifies this
      ensures View() == Next(old(View()), 0, 0, OpenAtUnread(id))
    {
      atBottom := false;
      hasNewMessages := true;
      firstUnreadId := Some(id);
      pendingScrollToBottom := false;
      pendingScrollToUnread := true;
    }

    /** What is asked of the window: more history while anything older exists, loaded or not. */
    method ApplyToWindow(total: nat) returns (r: Request)
      modifies this
      ensures View() == Next(old(View()), total, 0, Apply)
      ensures r == Request(hasNewMessages, old(pendingScrollToUnread), serverHasMore || WindowStart(View(), total) > 0,
                           pendingScrollToBottom, old(historyPrependedRows))
    {
      var unread := pendingScrollToUnread;
      if pendingScrollToUnread { pendingScrollToUnread := false; }
      var more := serverHasMore || total > windowLen;
      r := Request(hasNewMessages, unread, more, pendingScrollToBottom, historyPrependedRows);
      if historyPrependedRows > 0 { historyPrependedRows := 0; }
    }
  }

  // ----- unread state, over any run -----

  ghost predicate UnreadOk(s: Scroll) {
    && (s.hasNewMessages <==> s.firstUnreadId.Some?)
    && (s.atBottom ==> !s.hasNewMessages)
  }

  lemma UnreadOkStep(s: Scroll, total: nat, added: nat, e: Event)
    requires UnreadOk(s)
    ensures UnreadOk(Next(s, total, added, e))
  {
  }

  /** Over any run the flag is set exactly when there is an unread id, and neither at the bottom. */
  lemma {:induction false} UnreadStaysOk(c: Chat, es: seq<Event>)
    requires UnreadOk(c.scroll)
    ensures UnreadOk(Run(c, es).scroll)
    decreases |es|
  {
    if es != [] {
      UnreadOkStep(c.scroll, |c.messages|, FreshIn(c.messages, es[0]), es[0]);
      UnreadStaysOk(After(c, es[0]), es[1..]);
    }
  }

  /** Whether the user is at the bottom after a run that starts there: the last word on it. */
  predicate AtBottom(es: seq<Event>) {
    if es == [] then true
    else
      match es[|es| - 1]
      case Loaded(_, _) => true
      case RequestBottom => true
      case Viewport(bottom) => bottom
      case OpenAtUnread(_) => false
      case _ => AtBottom(es[..|es| - 1])
  }

  /** The first message from someone else since the unread state was last cleared. */
  function FirstForeign(es: seq<Event>): Option<string> {
    if es == [] then None
    else
      var rest := es[..|es| - 1];
      match es[|es| - 1]
      case Loaded(_, _) => None
      case RequestBottom => None
      case Viewport(bottom) => if bottom then None else FirstForeign(rest)
      case Incoming(m) =>
        if m.own || AtBottom(rest) then None
        else if FirstForeign(rest).Some? then FirstForeign(rest) else Some(m.id)
      case OpenAtUnread(id) => Some(id)
      case _ => FirstForeign(rest)
  }

  lemma {:induction false} RunSnoc(c: Chat, es: seq<Event>, e: Event)
    ensures Run(c, es + [e]) == After(Run(c, es), e)
    decreases |es|
  {
    if es != [] {
      assert (es + [e])[1..] == es[1..] + [e];
      RunSnoc(After(c, es[0]), es[1..], e);
    } else {
      assert (es + [e])[1..] == [];
    }
  }

  lemma UnreadStep(s: Scroll, total: nat, added: nat, es: seq<Event>, e: Event)
    requires s.firstUnreadId == FirstForeign(es) && s.atBottom == AtBottom(es)
    ensures var t := Next(s, total, added, e);
            t.firstUnreadId == FirstForeign(es + [e]) && t.atBottom == AtBottom(es + [e])
  {
    assert (es + [e])[..|es|] == es;
  }

  /** The unread id is the first foreign message since the last clear, unless the feed was opened at
      an unread rule, which is then the id. */
  lemma {:induction false} UnreadIdIsFirstForeign(ms: seq<Message>, es: seq<Event>)
    ensures var s := Run(Chat(Start(), ms), es).scroll;
            s.firstUnreadId == FirstForeign(es) && s.atBottom == AtBottom(es)
    decreases |es|
  {
    if es != [] {
      var rest, e := es[..|es| - 1], es[|es| - 1];
      var c := Run(Chat(Start(), ms), rest);
      UnreadIdIsFirstForeign(ms, rest);
      RunSnoc(Chat(Start(), ms), rest, e);
      UnreadStep(c.scroll, |c.messages|, FreshIn(c.messages, e), rest, e);
      assert es == rest + [e];
    }
  }

  // ----- which message that is -----

  /** Events after which the user is at the bottom. */
  predicate ToBottom(e: Event) { e.Loaded? || e.RequestBottom? || (e.Viewport? && e.atBottom) }

  /** Events that clear the unread state, wherever the user is. */
  predicate Clears(e: Event) { ToBottom(e) || (e.Incoming? && e.message.own) }

  predicate NeverAtBottom(es: seq<Event>, v: int, j: nat)
    requires 0 <= v < j <= |es|
  {
    forall w :: v < w < j ==> !ToBottom(es[w])
  }

  /** When event `j` comes, the user has scrolled up and has not been back at the bottom since. */
  ghost predicate Up(es: seq<Event>, j: nat) {
    j <= |es| && exists v :: 0 <= v < j && es[v] == Viewport(false) && NeverAtBottom(es, v, j)
  }

  /** Event `k` is a message from someone else that comes while the user reads up. */
  ghost predicate Unseen(es: seq<Event>, k: nat) {
    k < |es| && es[k].Incoming? && !es[k].message.own && Up(es, k)
  }

  predicate ClearedBetween(es: seq<Event>, i: nat, k: nat)
    requires k <= |es|
  {
    exists j :: i < j < k && Clears(es[j])
  }

  /** Unseen, nothing cleared since, and every unseen message before it was cleared before it came. */
  ghost predicate FirstUnseen(es: seq<Event>, k: nat) {
    && Unseen(es, k) && !ClearedBetween(es, k, |es|)
    && forall i: nat :: i < k && Unseen(es, i) ==> ClearedBetween(es, i, k)
  }

  predicate NeverOpenedAtUnread(es: seq<Event>) { forall i :: 0 <= i < |es| ==> !es[i].OpenAtUnread? }

  lemma UpSnoc(es: seq<Event>, e: Event, j: nat)
    requires j <= |es|
    ensures Up(es + [e], j) <==> Up(es, j)
  {
    if Up(es, j) {
      var v :| 0 <= v < j && es[v] == Viewport(false) && NeverAtBottom(es, v, j);
      assert (es + [e])[v] == Viewport(false) && NeverAtBottom(es + [e], v, j);
    }
    if Up(es + [e], j) {
      var v :| 0 <= v < j && (es + [e])[v] == Viewport(false) && NeverAtBottom(es + [e], v, j);
      assert es[v] == Viewport(false);
      forall w | v < w < j ensures !ToBottom(es[w]) { assert (es + [e])[w] == es[w]; }
      assert NeverAtBottom(es, v, j);
    }
  }

  lemma UpOneMore(es: seq<Event>)
    requires es != []
    ensures var n := |es| - 1; Up(es, n + 1) <==> es[n] == Viewport(false) || (Up(es, n) && !ToBottom(es[n]))
  {
    var n := |es| - 1;
    if es[n] == Viewport(false) { assert NeverAtBottom(es, n, n + 1); }
    if Up(es, n) && !ToBottom(es[n]) {
      var v :| 0 <= v < n && es[v] == Viewport(false) && NeverAtBottom(es, v, n);
      assert NeverAtBottom(es, v, n + 1);
    }
    if Up(es, n + 1) && es[n] != Viewport(false) {
      var v :| 0 <= v < n + 1 && es[v] == Viewport(false) && NeverAtBottom(es, v, n + 1);
      assert NeverAtBottom(es, v, n);
    }
  }

  lemma {:induction false} UpMeansNotAtBottom(es: seq<Event>)
    requires NeverOpenedAtUnread(es)
    ensures Up(es, |es|) <==> !AtBottom(es)
    decreases |es|
  {
    if es != [] {
      var rest, e := es[..|es| - 1], es[|es| - 1];
      UpMeansNotAtBottom(rest);
      assert es == rest + [e];
      UpSnoc(rest, e, |rest|);
      UpOneMore(es);
    }
  }

  lemma ClearedSnoc(es: seq<Event>, e: Event, i: nat, k: nat)
    requires k <= |es|
    ensures ClearedBetween(es + [e], i, k) <==> ClearedBetween(es, i, k)
  {
    if ClearedBetween(es, i, k) {
      var j :| i < j < k && Clears(es[j]);
      assert Clears((es + [e])[j]);
    }
    if ClearedBetween(es + [e], i, k) {
      var j :| i < j < k && Clears((es + [e])[j]);
      assert Clears(es[j]);
    }
  }

  lemma ClearedOneMore(es: seq<Event>, e: Event, k: nat)
    requires k < |es|
    ensures ClearedBetween(es + [e], k, |es| + 1) <==> ClearedBetween(es, k, |es|) || Clears(e)
  {
    ClearedSnoc(es, e, k, |es|);
    if Clears(e) { assert Clears((es + [e])[|es|]); }
    if ClearedBetween(es + [e], k, |es|) {
      var j :| k < j < |es| && Clears((es + [e])[j]);
      assert j < |es| + 1;
    }
  }

  lemma UnseenSnoc(es: seq<Event>, e: Event, k: nat)
    requires k < |es|
    ensures Unseen(es + [e], k) <==> Unseen(es, k)
  {
    UpSnoc(es, e, k);
  }

  /** An earlier first unseen message stays the first one unless the new event clears it. */
  lemma FirstUnseenStays(es: seq<Event>, e: Event, k: nat)
    requires k < |es|
    ensures FirstUnseen(es + [e], k) <==> FirstUnseen(es, k) && !Clears(e)
  {
    UnseenSnoc(es, e, k);
    ClearedOneMore(es, e, k);
    forall i: nat | i < k
      ensures Unseen(es + [e], i) <==> Unseen(es, i)
      ensures ClearedBetween(es + [e], i, k) <==> ClearedBetween(es, i, k)
    {
      UnseenSnoc(es, e, i);
      ClearedSnoc(es, e, i, k);
    }
  }

  /** If some unseen message was not cleared, there is a first one. */
  lemma {:induction false} EarliestUncleared(es: seq<Event>, i: nat) returns (k: nat)
    requires Unseen(es, i) && !ClearedBetween(es, i, |es|)
    ensures FirstUnseen(es, k)
    decreases i
  {
    if h: nat :| h < i && Unseen(es, h) && !ClearedBetween(es, h, i) {
      forall j | h < j < |es| ensures !Clears(es[j]) {
        if j < i { assert !ClearedBetween(es, h, i); }
        if j > i { assert !ClearedBetween(es, i, |es|); }
      }
      k := EarliestUncleared(es, h);
    } else {
      k := i;
    }
  }

  /** A new message becomes the first unseen one exactly when it is unseen and there is none yet. */
  lemma FirstUnseenAtEnd(es: seq<Event>, e: Event)
    ensures FirstUnseen(es + [e], |es|)
            <==> e.Incoming? && !e.message.own && Up(es, |es|) && forall k: nat :: k < |es| ==> !FirstUnseen(es, k)
  {
    var n := |es|;
    UpSnoc(es, e, n);
    forall i: nat | i < n
      ensures Unseen(es + [e], i) <==> Unseen(es, i)
      ensures ClearedBetween(es + [e], i, n) <==> ClearedBetween(es, i, n)
    {
      UnseenSnoc(es, e, i);
      ClearedSnoc(es, e, i, n);
    }
    if i: nat :| i < n && Unseen(es, i) && !ClearedBetween(es, i, n) { var k := EarliestUncleared(es, i); }
  }

  ghost function FirstUnseens(es: seq<Event>): set<nat> { set k: nat | k < |es| && FirstUnseen(es, k) }

  lemma InFirstUnseens(es: seq<Event>, k: nat)
    ensures k in FirstUnseens(es) <==> FirstUnseen(es, k)
  {
  }

  lemma StaysInFirstUnseens(es: seq<Event>, e: Event, k: nat)
    requires k < |es|
    ensures k in FirstUnseens(es + [e]) <==> k in FirstUnseens(es) && !Clears(e)
  {
    FirstUnseenStays(es, e, k);
    InFirstUnseens(es + [e], k);
    InFirstUnseens(es, k);
  }

  lemma EndInFirstUnseens(es: seq<Event>, e: Event)
    requires NeverOpenedAtUnread(es)
    ensures |es| in FirstUnseens(es + [e])
            <==> e.Incoming? && !e.message.own && !AtBottom(es) && FirstUnseens(es) == {}
  {
    UpMeansNotAtBottom(es);
    FirstUnseenAtEnd(es, e);
    InFirstUnseens(es + [e], |es|);
    forall k: nat ensures k in FirstUnseens(es) <==> FirstUnseen(es, k) { InFirstUnseens(es, k); }
  }

  lemma Assemble(after: set<nat>, before: set<nat>, n: nat, clears: bool, joins: bool)
    requires (forall k :: k in after ==> k <= n) && (forall k :: k in before ==> k < n)
    requires n in after <==> joins
    requires forall k: nat :: k < n ==> (k in after <==> k in before && !clears)
    ensures after == (if clears then {} else before) + (if joins then {n} else {})
  {
  }

  lemma FirstUnseensSnoc(es: seq<Event>, e: Event)
    requires NeverOpenedAtUnread(es)
    ensures FirstUnseens(es + [e])
            == (if Clears(e) then {} else FirstUnseens(es))
               + (if e.Incoming? && !e.message.own && !AtBottom(es) && FirstUnseens(es) == {} then {|es|} else {})
  {
    EndInFirstUnseens(es, e);
    var after := FirstUnseens(es + [e]);
    forall k: nat | k < |es| ensures k in after <==> k in FirstUnseens(es) && !Clears(e) { StaysInFirstUnseens(es, e, k); }
    Assemble(after, FirstUnseens(es), |es|, Clears(e),
             e.Incoming? && !e.message.own && !AtBottom(es) && FirstUnseens(es) == {});
  }

  /** The recursive account names the messages of the set, and there is one if the set has one. */
  ghost predicate Accounts(es: seq<Event>, first: set<nat>) {
    && (forall k :: k in first ==> k < |es| && es[k].Incoming? && FirstForeign(es) == Some(es[k].message.id))
    && (first == {} ==> FirstForeign(es).None?)
  }

  lemma {:induction false} UnreadMeansUp(es: seq<Event>)
    requires FirstForeign(es).Some?
    ensures !AtBottom(es)
    decreases |es|
  {
    var rest, e := es[..|es| - 1], es[|es| - 1];
    if FirstForeign(rest).Some? { UnreadMeansUp(rest); }
  }

  lemma AccountsStep(es: seq<Event>, e: Event, first: set<nat>)
    requires Accounts(es, first) && !e.OpenAtUnread? && (FirstForeign(es).Some? ==> !AtBottom(es))
    ensures Accounts(es + [e], (if Clears(e) then {} else first)
                               + (if e.Incoming? && !e.message.own && !AtBottom(es) && first == {} then {|es|} else {}))
  {
    assert (es + [e])[..|es|] == es;
  }

  lemma {:induction false} AccountsAlways(es: seq<Event>)
    requires NeverOpenedAtUnread(es)
    ensures Accounts(es, FirstUnseens(es))
    decreases |es|
  {
    if es == [] {
      assert FirstUnseens(es) == {};
    } else {
      var rest, e := es[..|es| - 1], es[|es| - 1];
      assert es == rest + [e];
      AccountsAlways(rest);
      FirstUnseensSnoc(rest, e);
      if FirstForeign(rest).Some? { UnreadMeansUp(rest); }
      AccountsStep(rest, e, FirstUnseens(rest));
    }
  }

  /** Unless the feed was opened at an unread rule, the unread id names a message exactly when that
      message came from someone else while the user read up, nothing cleared the state since, and no
      such message before it was still uncleared when it came. */
  lemma UnreadIdNamesFirstUnseen(ms: seq<Message>, es: seq<Event>, id: string)
    requires NeverOpenedAtUnread(es)
    ensures Run(Chat(Start(), ms), es).scroll.firstUnreadId == Some(id)
            <==> exists k: nat :: FirstUnseen(es, k) && es[k].message.id == id
  {
    UnreadIdIsFirstForeign(ms, es);
    AccountsAlways(es);
    if FirstForeign(es) == Some(id) {
      var k :| k in FirstUnseens(es);
      assert FirstUnseen(es, k);
    }
    if k: nat :| FirstUnseen(es, k) && es[k].message.id == id { assert k in FirstUnseens(es); }
  }

  // ----- pages of loaded messages -----

  function Revealed(s: Scroll, total: nat, n: nat): Scroll {
    if n == 0 then s else Next(Revealed(s, total, n - 1), total, 0, LocalPage)
  }

  /** Each call shows a page of what is hidden; after one for every page begun, all is shown, and the
      next call gives 0. */
  lemma {:induction false} RevealsEverything(s: Scroll, total: nat, n: nat)
    ensures var hidden := WindowStart(s, total);
            && WindowStart(Revealed(s, total, n), total) == (if hidden > 50 * n then hidden - 50 * n else 0)
            && (RevealCount(Revealed(s, total, n), total) == 0 <==> n >= (hidden + 49) / 50)
  {
    if n > 0 { RevealsEverything(s, total, n - 1); }
  }
}
