/** The two-thread protocol around the GIF animator (client/src/gif_animator.rs): workers deliver
    results while the UI thread's timer drains them, animates and decides whether to stop. Every
    action below is one atomic step; a run is any interleaving of them. */
module GifProtocol {
  import opened Collections
  import opened GifPlayback
  import opened Wrappers
  import opened GifAnimation

  /** Where a worker is inside `deliver`: before its first statement, or between the two. */
  datatype Phase = Fetching | HalfDone

  datatype Ticket = Ticket(url: Url, phase: Phase)

  /** Where the UI thread is. Only `Between` ticks can it run user actions; a frame handler called
      while results are drained may ask for another GIF. */
  datatype Pc = Between | Handling | AskAnimating | AskFirst | AskSecond | Stopping

  /** The source pushes before it decrements and reads the counter before the inbox. */
  datatype Order = Order(pushFirst: bool, counterFirst: bool)

  const AS_WRITTEN := Order(true, true)

  datatype World = World(
    a: Anim, pc: Pc, pending: seq<Delivery>,
    tickets: map<nat, Ticket>,               // issued and not yet through `deliver`
    issued: seq<Url>, epochStart: nat,       // every ticket ever issued; the first since the last clear
    inboxIds: seq<nat>, pendingIds: seq<nat>, // the tickets behind `a.inbox` and `pending`
    handled: seq<nat>, discarded: seq<nat>,  // results the UI has seen; results a clear threw away
    queue: seq<Url>)                         // the cached URLs, oldest first

  datatype Action =
    | Begin(url: Url)
    | PushStep(id: nat, data: Option<GifData>)
    | DecrementStep(id: nat)
    | Drain | HandleNext | Animate | ReadAnimating | ReadCounter | ReadInbox | StopTimer
    | ResumeUrl(url: Url)
    | ClearAll

  function Init(): World {
    World(Anim(map[], {}, {}, [], 0, 0, true, false), Between, [], map[], [], 0, [], [], [], [], [])
  }

  predicate Enabled(o: Order, w: World, act: Action) {
    match act
    case Begin(_) => w.pc == Between || w.pc == Handling
    case PushStep(id, data) =>
      && id in w.tickets && w.tickets[id].phase == (if o.pushFirst then Fetching else HalfDone)
      && (data.Some? ==> data.value.Valid())
    case DecrementStep(id) => id in w.tickets && w.tickets[id].phase == if o.pushFirst then HalfDone else Fetching
    case Drain => w.pc == Between && w.a.timerRunning
    case HandleNext => w.pc == Handling && w.pending != [] && w.pendingIds != []
    case Animate => w.pc == Handling && w.pending == []
    case ReadAnimating => w.pc == AskAnimating
    case ReadCounter => w.pc == if o.counterFirst then AskFirst else AskSecond
    case ReadInbox => w.pc == if o.counterFirst then AskSecond else AskFirst
    case StopTimer => w.pc == Stopping
    case ResumeUrl(_) => w.pc == Between
    case ClearAll => w.pc == Between
  }

  /** The ticket after one statement of `deliver`: half done, or gone. */
  function Worked(tickets: map<nat, Ticket>, id: nat): map<nat, Ticket>
    requires id in tickets
  {
    if tickets[id].phase == Fetching then tickets[id := tickets[id].(phase := HalfDone)] else tickets - {id}
  }

  function AfterRead(w: World, goOn: bool): World {
    w.(pc := if !goOn then Between else if w.pc == AskAnimating then AskFirst
             else if w.pc == AskFirst then AskSecond else Stopping)
  }

  ghost function Next(o: Order, s: Settings, w: World, act: Action): World
    requires Enabled(o, w, act) && CacheOk(w.a.entries, w.a.nextSeq, s.maxLoops)
  {
    match act
    case Begin(url) =>
      var (a, issued) := FetchBegun(w.a, url);
      if issued then w.(a := a, tickets := w.tickets[|w.issued| := Ticket(url, Fetching)], issued := w.issued + [url])
      else w.(a := a)
    case PushStep(id, data) =>
      w.(a := Push(w.a, Delivery(w.tickets[id].url, data)), inboxIds := w.inboxIds + [id],
         tickets := Worked(w.tickets, id))
    case DecrementStep(id) => w.(a := Decrement(w.a), tickets := Worked(w.tickets, id))
    case Drain =>
      w.(pc := Handling, pending := w.a.inbox, pendingIds := w.inboxIds, a := w.a.(inbox := []), inboxIds := [])
    case HandleNext =>
      var d := w.pending[0];
      w.(a := Handle(w.a, d, s), pending := w.pending[1..], pendingIds := w.pendingIds[1..],
         handled := w.handled + [w.pendingIds[0]],
         queue := if d.data.Some? then Enqueue(w.queue, d.url, s.maxEntries) else w.queue)
    case Animate => w.(pc := AskAnimating, a := Animated(w.a, s))
    case ReadAnimating => AfterRead(w, !AnyAnimating(w.a.entries))
    case ReadCounter => AfterRead(w, w.a.inFlight == 0)
    case ReadInbox => AfterRead(w, w.a.inbox == [])
    case StopTimer => w.(pc := Between, a := Stop(w.a))
    case ResumeUrl(url) => w.(a := UrlResumed(w.a, url))
    case ClearAll =>
      w.(a := Clear(w.a), inboxIds := [], discarded := w.discarded + w.inboxIds, epochStart := |w.issued|, queue := [])
  }

  ghost predicate Legal(o: Order, s: Settings, w: World, acts: seq<Action>)
    decreases |acts|
  {
    acts == [] ||
    (&& CacheOk(w.a.entries, w.a.nextSeq, s.maxLoops) && Enabled(o, w, acts[0])
     && Legal(o, s, Next(o, s, w, acts[0]), acts[1..]))
  }

  ghost function Run(o: Order, s: Settings, w: World, acts: seq<Action>): World
    requires Legal(o, s, w, acts)
    decreases |acts|
  {
    if acts == [] then w else Run(o, s, Next(o, s, w, acts[0]), acts[1..])
  }

  // ----- invariants of the order as written -----

  /** The data are well formed and the bookkeeping matches them. */
  ghost predicate DataInv(s: Settings, w: World) {
    && AnimOk(w.a, s)
    && (forall i :: 0 <= i < |w.pending| ==> w.pending[i].Valid())
    && |w.inboxIds| == |w.a.inbox| && |w.pendingIds| == |w.pending|
    && (w.pc != Handling ==> w.pending == [])
  }

  /** Counter, timer and idle check. */
  ghost predicate TimerInv(w: World) {
    && w.a.registered
    && (w.inboxIds == [] <==> w.a.inbox == [])
    && (forall id :: id in w.tickets ==> id < |w.issued|)
    && w.a.inFlight == |w.tickets|
    && (w.pc != Between ==> w.a.timerRunning)
    && (!w.a.timerRunning ==>
          && (forall id :: id in w.tickets ==> id < w.epochStart)
          && (forall i :: 0 <= i < |w.inboxIds| ==> w.inboxIds[i] < w.epochStart)
          && !AnyAnimating(w.a.entries))
    && (w.pc in {AskFirst, AskSecond, Stopping} ==> !AnyAnimating(w.a.entries))
    && (w.pc in {AskSecond, Stopping} ==> |w.tickets| == 0)
    && (w.pc == Stopping ==> w.a.inbox == [])
  }

  /** The request book: a URL is issued at most once between two clears. */
  ghost predicate BookInv(w: World) {
    && w.epochStart <= |w.issued|
    && (forall id :: id in w.tickets ==> id < |w.issued| && w.tickets[id].url == w.issued[id])
    && w.a.requested == (set u | u in w.issued[w.epochStart..])
    && (forall i, j :: w.epochStart <= i < j < |w.issued| ==> w.issued[i] != w.issued[j])
    && (forall i :: 0 <= i < |w.discarded| ==> w.discarded[i] < w.epochStart)
    && (forall i :: 0 <= i < |w.inboxIds| ==> w.inboxIds[i] < |w.issued|)
  }

  function Upto(n: nat): (r: set<nat>)
    ensures forall i: nat :: i in r <==> i < n
  {
    if n == 0 then {} else Upto(n - 1) + {n - 1}
  }

  ghost function Unpushed(w: World): set<nat> {
    set id | id in w.tickets && w.tickets[id].phase == Fetching
  }

  /** Every ticket is in exactly one place. */
  ghost predicate LedgerInv(w: World) {
    && (forall id :: id in w.tickets ==> id < |w.issued|)
    && multiset(Unpushed(w)) + multiset(w.inboxIds) + multiset(w.pendingIds) + multiset(w.handled) + multiset(w.discarded)
       == multiset(Upto(|w.issued|))
  }

  ghost predicate CacheInv(s: Settings, w: World) {
    Represents(w.queue, w.a.entries) && (|w.queue| <= s.maxEntries || |w.queue| <= 1)
  }

  ghost predicate ResultsOf(ds: seq<Delivery>, ids: seq<nat>, issued: seq<Url>) {
    |ids| == |ds| && forall i :: 0 <= i < |ds| ==> ids[i] < |issued| && ds[i].url == issued[ids[i]]
  }

  /** Every result on its way is for the URL of the ticket behind it. */
  ghost predicate OriginInv(w: World) {
    ResultsOf(w.a.inbox, w.inboxIds, w.issued) && ResultsOf(w.pending, w.pendingIds, w.issued)
  }

  ghost predicate Inv(s: Settings, w: World) {
    DataInv(s, w) && TimerInv(w) && BookInv(w) && LedgerInv(w) && OriginInv(w) && CacheInv(s, w)
  }

  lemma InitInv(s: Settings)
    ensures Inv(s, Init())
  {
    var w := Init();
    assert Unpushed(w) == {};
  }

  lemma WorkedSize(tickets: map<nat, Ticket>, id: nat)
    requires id in tickets
    ensures |Worked(tickets, id)| == |tickets| - if tickets[id].phase == Fetching then 0 else 1
    ensures Worked(tickets, id).Keys <= tickets.Keys
  {
    var after := Worked(tickets, id);
    if tickets[id].phase == Fetching {
      assert after.Keys == tickets.Keys;
    } else {
      assert after.Keys == tickets.Keys - {id};
    }
  }

  predicate IsTick(act: Action) {
    !act.Begin? && !act.PushStep? && !act.DecrementStep? && !act.ResumeUrl? && !act.ClearAll?
  }

  predicate IsWorker(act: Action) { act.PushStep? || act.DecrementStep? }

  lemma DataStepTick(s: Settings, w: World, act: Action)
    requires DataInv(s, w) && Enabled(AS_WRITTEN, w, act) && IsTick(act)
    ensures DataInv(s, Next(AS_WRITTEN, s, w, act))
  {
    match act {
      case HandleNext =>
        assert w.pending[0].Valid();
        HandleKeepsCache(w.a, w.pending[0], s);
      case Animate => AnimatedKeepsCache(w.a, s);
      case _ =>
    }
  }

  lemma DataStep(s: Settings, w: World, act: Action)
    requires DataInv(s, w) && Enabled(AS_WRITTEN, w, act)
    ensures DataInv(s, Next(AS_WRITTEN, s, w, act))
  {
    if IsTick(act) { DataStepTick(s, w, act); }
    if act.ResumeUrl? { ResumedKeepsCache(w.a, act.url, s); }
  }

  lemma TimerStepWorker(s: Settings, w: World, act: Action)
    requires DataInv(s, w) && TimerInv(w) && BookInv(w) && Enabled(AS_WRITTEN, w, act) && IsWorker(act)
    ensures TimerInv(Next(AS_WRITTEN, s, w, act))
  {
    WorkedSize(w.tickets, act.id);
  }

  lemma TimerStepTick(s: Settings, w: World, act: Action)
    requires DataInv(s, w) && TimerInv(w) && Enabled(AS_WRITTEN, w, act) && IsTick(act)
    ensures TimerInv(Next(AS_WRITTEN, s, w, act))
  {
  }

  lemma TimerStepResume(s: Settings, w: World, url: Url)
    requires DataInv(s, w) && TimerInv(w) && BookInv(w) && Enabled(AS_WRITTEN, w, ResumeUrl(url))
    ensures TimerInv(Next(AS_WRITTEN, s, w, ResumeUrl(url)))
  {
  }

  lemma OneTicketMore(tickets: map<nat, Ticket>, id: nat, t: Ticket)
    requires id !in tickets
    ensures |tickets[id := t]| == |tickets| + 1
  {
    assert tickets[id := t].Keys == tickets.Keys + {id};
  }

  lemma TimerStepBegin(s: Settings, w: World, url: Url)
    requires DataInv(s, w) && TimerInv(w) && BookInv(w) && Enabled(AS_WRITTEN, w, Begin(url))
    ensures TimerInv(Next(AS_WRITTEN, s, w, Begin(url)))
  {
    if url !in w.a.requested {
      assert |w.issued| !in w.tickets;
      OneTicketMore(w.tickets, |w.issued|, Ticket(url, Fetching));
    }
  }

  lemma TimerStepUser(s: Settings, w: World, act: Action)
    requires DataInv(s, w) && TimerInv(w) && BookInv(w) && Enabled(AS_WRITTEN, w, act) && !IsTick(act) && !IsWorker(act)
    ensures TimerInv(Next(AS_WRITTEN, s, w, act))
  {
    match act {
      case Begin(url) => TimerStepBegin(s, w, url);
      case ResumeUrl(url) => TimerStepResume(s, w, url);
      case ClearAll =>
    }
  }

  lemma TimerStep(s: Settings, w: World, act: Action)
    requires DataInv(s, w) && TimerInv(w) && BookInv(w) && Enabled(AS_WRITTEN, w, act)
    ensures TimerInv(Next(AS_WRITTEN, s, w, act))
  {
    if IsTick(act) {
      TimerStepTick(s, w, act);
    } else if IsWorker(act) {
      TimerStepWorker(s, w, act);
    } else {
      TimerStepUser(s, w, act);
    }
  }

  lemma BookStepBegin(s: Settings, w: World, url: Url)
    requires DataInv(s, w) && BookInv(w) && Enabled(AS_WRITTEN, w, Begin(url)) && url !in w.a.requested
    ensures BookInv(Next(AS_WRITTEN, s, w, Begin(url)))
  {
    var v := Next(AS_WRITTEN, s, w, Begin(url));
    assert v.issued[w.epochStart..] == w.issued[w.epochStart..] + [url];
    forall i | w.epochStart <= i < |w.issued| ensures w.issued[i] != url {
      assert w.issued[w.epochStart..][i - w.epochStart] == w.issued[i];
    }
  }

  lemma BookStepTick(s: Settings, w: World, act: Action)
    requires DataInv(s, w) && BookInv(w) && Enabled(AS_WRITTEN, w, act) && IsTick(act)
    ensures BookInv(Next(AS_WRITTEN, s, w, act))
  {
  }

  lemma BookStep(s: Settings, w: World, act: Action)
    requires DataInv(s, w) && BookInv(w) && Enabled(AS_WRITTEN, w, act)
    ensures BookInv(Next(AS_WRITTEN, s, w, act))
  {
    if act.Begin? && act.url !in w.a.requested {
      BookStepBegin(s, w, act.url);
    } else if IsTick(act) {
      BookStepTick(s, w, act);
    }
  }

  lemma LedgerStepBegin(s: Settings, w: World, url: Url)
    requires DataInv(s, w) && LedgerInv(w) && Enabled(AS_WRITTEN, w, Begin(url)) && url !in w.a.requested
    ensures LedgerInv(Next(AS_WRITTEN, s, w, Begin(url)))
  {
    var v := Next(AS_WRITTEN, s, w, Begin(url));
    AddFresh(Unpushed(w), |w.issued|);
    AddFresh(Upto(|w.issued|), |w.issued|);
    assert Unpushed(v) == Unpushed(w) + {|w.issued|};
  }

  lemma LedgerStepWorker(s: Settings, w: World, act: Action)
    requires DataInv(s, w) && LedgerInv(w) && Enabled(AS_WRITTEN, w, act) && IsWorker(act)
    ensures LedgerInv(Next(AS_WRITTEN, s, w, act))
  {
    var v := Next(AS_WRITTEN, s, w, act);
    if act.PushStep? {
      assert Unpushed(w) == Unpushed(v) + {act.id};
      AddFresh(Unpushed(v), act.id);
    } else {
      assert Unpushed(v) == Unpushed(w);
    }
  }

  lemma LedgerStepTick(s: Settings, w: World, act: Action)
    requires DataInv(s, w) && LedgerInv(w) && Enabled(AS_WRITTEN, w, act) && IsTick(act)
    ensures LedgerInv(Next(AS_WRITTEN, s, w, act))
  {
    var v := Next(AS_WRITTEN, s, w, act);
    assert Unpushed(v) == Unpushed(w);
    if act.HandleNext? { assert w.pendingIds == [w.pendingIds[0]] + v.pendingIds; }
  }

  lemma LedgerStep(s: Settings, w: World, act: Action)
    requires DataInv(s, w) && LedgerInv(w) && Enabled(AS_WRITTEN, w, act)
    ensures LedgerInv(Next(AS_WRITTEN, s, w, act))
  {
    if IsWorker(act) {
      LedgerStepWorker(s, w, act);
    } else if act.Begin? && act.url !in w.a.requested {
      LedgerStepBegin(s, w, act.url);
    } else if IsTick(act) {
      LedgerStepTick(s, w, act);
    } else {
      assert Unpushed(Next(AS_WRITTEN, s, w, act)) == Unpushed(w);
    }
  }

  /** Every step keeps results and tickets together. */
  lemma OriginStep(s: Settings, w: World, act: Action)
    requires DataInv(s, w) && BookInv(w) && OriginInv(w) && Enabled(AS_WRITTEN, w, act)
    ensures OriginInv(Next(AS_WRITTEN, s, w, act))
  {
  }

  lemma CacheStepHandle(s: Settings, w: World)
    requires DataInv(s, w) && CacheInv(s, w) && Enabled(AS_WRITTEN, w, HandleNext)
    ensures CacheInv(s, Next(AS_WRITTEN, s, w, HandleNext))
  {
    var d := w.pending[0];
    assert d.Valid();
    if d.data.Some? {
      StoreIsEnqueue(w.queue, w.a, d, s);
      EnqueueBound(w.queue, d.url, s.maxEntries);
    }
  }

  /** Playing or resuming entries neither adds nor removes one, nor changes its age. */
  lemma CacheStepPlay(queue: seq<Url>, entries: map<Url, Entry>, entries': map<Url, Entry>)
    requires Represents(queue, entries) && entries'.Keys == entries.Keys
    requires forall u :: u in entries ==> entries'[u].seqNo == entries[u].seqNo
    ensures Represents(queue, entries')
  {
  }

  lemma CacheStep(s: Settings, w: World, act: Action)
    requires DataInv(s, w) && CacheInv(s, w) && Enabled(AS_WRITTEN, w, act)
    ensures CacheInv(s, Next(AS_WRITTEN, s, w, act))
  {
    match act {
      case HandleNext => CacheStepHandle(s, w);
      case Animate => CacheStepPlay(w.queue, w.a.entries, Animated(w.a, s).entries);
      case ResumeUrl(url) => CacheStepPlay(w.queue, w.a.entries, UrlResumed(w.a, url).entries);
      case _ =>
    }
  }

  lemma {:induction false} RunInv(s: Settings, w: World, acts: seq<Action>)
    requires Inv(s, w) && Legal(AS_WRITTEN, s, w, acts)
    ensures Inv(s, Run(AS_WRITTEN, s, w, acts))
    decreases |acts|
  {
    if acts != [] {
      DataStep(s, w, acts[0]);
      TimerStep(s, w, acts[0]);
      BookStep(s, w, acts[0]);
      LedgerStep(s, w, acts[0]);
      OriginStep(s, w, acts[0]);
      CacheStep(s, w, acts[0]);
      RunInv(s, Next(AS_WRITTEN, s, w, acts[0]), acts[1..]);
    }
  }

  // ----- no lost result -----

  /** A stopped timer owes nothing: every ticket issued since the last clear is through `deliver`,
      none of their results waits in the inbox, the UI has seen each of them, and nothing animates. */
  ghost predicate NothingLost(w: World) {
    !w.a.timerRunning ==>
      && (forall id :: w.epochStart <= id < |w.issued| ==> id !in w.tickets && id !in w.inboxIds && id in w.handled)
      && !AnyAnimating(w.a.entries)
  }

  lemma InvMeansNothingLost(s: Settings, w: World)
    requires Inv(s, w)
    ensures NothingLost(w)
  {
    if !w.a.timerRunning {
      forall id | w.epochStart <= id < |w.issued| ensures id !in w.tickets && id !in w.inboxIds && id in w.handled {
        assert id in multiset(Upto(|w.issued|));
        assert id !in w.pendingIds && id !in w.inboxIds && id !in w.discarded && id !in Unpushed(w);
      }
    }
  }

  lemma LedgerHasNoRepeats(w: World, i: nat, j: nat)
    requires LedgerInv(w) && i < j < |w.handled|
    ensures w.handled[i] != w.handled[j]
  {
    RepeatCounts(w.handled, i, j);
    assert multiset(Upto(|w.issued|))[w.handled[i]] >= multiset(w.handled)[w.handled[i]];
  }

  /** Every result is delivered to the UI at most once, over all interleavings. */
  lemma HandledAtMostOnce(s: Settings, acts: seq<Action>, i: nat, j: nat)
    requires Legal(AS_WRITTEN, s, Init(), acts)
    requires i < j < |Run(AS_WRITTEN, s, Init(), acts).handled|
    ensures var h := Run(AS_WRITTEN, s, Init(), acts).handled; h[i] != h[j]
  {
    InitInv(s);
    RunInv(s, Init(), acts);
    LedgerHasNoRepeats(Run(AS_WRITTEN, s, Init(), acts), i, j);
  }

  /** A URL gets at most one ticket between two clears: in particular a GIF that the full cache
      evicted is not fetched again before the next clear. */
  lemma OneTicketPerUrl(s: Settings, acts: seq<Action>, i: nat, j: nat)
    requires Legal(AS_WRITTEN, s, Init(), acts)
    requires var w := Run(AS_WRITTEN, s, Init(), acts); w.epochStart <= i < j < |w.issued|
    ensures var w := Run(AS_WRITTEN, s, Init(), acts); w.issued[i] != w.issued[j]
  {
    InitInv(s);
    RunInv(s, Init(), acts);
  }

  /** Exactly when a fetch is really made, over every run: the URL was not asked for since the last
      clear. Eviction does not count, whatever became of the frames. */
  lemma FetchedAgainOnlyAfterClear(s: Settings, acts: seq<Action>, url: Url)
    requires Legal(AS_WRITTEN, s, Init(), acts)
    ensures var w := Run(AS_WRITTEN, s, Init(), acts);
            w.epochStart <= |w.issued| && (FetchBegun(w.a, url).1 <==> url !in w.issued[w.epochStart..])
  {
    InitInv(s);
    RunInv(s, Init(), acts);
  }

  /** The counter is exactly the number of tickets still inside `deliver`, so it never wraps below
      zero, and the cache holds the tail of the insertions, at most `maxEntries` (or one). */
  lemma CounterAndCacheBounds(s: Settings, acts: seq<Action>)
    requires Legal(AS_WRITTEN, s, Init(), acts)
    ensures var w := Run(AS_WRITTEN, s, Init(), acts);
            && w.a.inFlight == |w.tickets|
            && Represents(w.queue, w.a.entries)
            && |w.a.entries| <= if s.maxEntries == 0 then 1 else s.maxEntries
  {
    InitInv(s);
    RunInv(s, Init(), acts);
    QueueSize(Run(AS_WRITTEN, s, Init(), acts).queue, Run(AS_WRITTEN, s, Init(), acts).a.entries);
  }

  ghost predicate NeverLoses(o: Order, s: Settings) {
    forall acts :: Legal(o, s, Init(), acts) ==> NothingLost(Run(o, s, Init(), acts))
  }

  lemma AsWrittenNeverLoses(s: Settings)
    ensures NeverLoses(AS_WRITTEN, s)
  {
    InitInv(s);
    forall acts | Legal(AS_WRITTEN, s, Init(), acts) ensures NothingLost(Run(AS_WRITTEN, s, Init(), acts)) {
      RunInv(s, Init(), acts);
      InvMeansNothingLost(s, Run(AS_WRITTEN, s, Init(), acts));
    }
  }

  /** A result of the current epoch waits in the inbox, no worker is left and the timer is stopped. */
  ghost predicate Lost(w: World) {
    !w.a.timerRunning && w.tickets == map[] && w.handled == [] && w.epochStart == 0 && w.inboxIds == [0] && |w.issued| == 1
  }

  lemma {:induction false} Extend(o: Order, s: Settings, w: World, acts: seq<Action>, act: Action)
    requires Legal(o, s, w, acts)
    requires CacheOk(Run(o, s, w, acts).a.entries, Run(o, s, w, acts).a.nextSeq, s.maxLoops)
    requires Enabled(o, Run(o, s, w, acts), act)
    ensures Legal(o, s, w, acts + [act])
    ensures Run(o, s, w, acts + [act]) == Next(o, s, Run(o, s, w, acts), act)
    decreases |acts|
  {
    if acts == [] {
      assert ([] + [act])[1..] == [];
    } else {
      assert (acts + [act])[1..] == acts[1..] + [act];
      Extend(o, s, Next(o, s, w, acts[0]), acts[1..], act);
    }
  }

  /** `acts` is a legal run from the start to `w`. */
  ghost predicate Reaches(o: Order, s: Settings, acts: seq<Action>, w: World) {
    Legal(o, s, Init(), acts) && Run(o, s, Init(), acts) == w && CacheOk(w.a.entries, w.a.nextSeq, s.maxLoops)
  }

  /** The worlds of the losing runs: one ticket for one URL, nothing cached. */
  function Scene(pc: Pc, tickets: map<nat, Ticket>, inFlight: int, delivered: bool, running: bool): World {
    World(Anim(map[], {"u"}, {}, if delivered then [Delivery("u", None)] else [], inFlight, 0, true, running), pc, [],
          tickets, ["u"], 0, if delivered then [0] else [], [], [], [], [])
  }

  const FETCHING := map[0 := Ticket("u", Fetching)]
  const HALF_DONE := map[0 := Ticket("u", HalfDone)]

  lemma GoTo(o: Order, s: Settings, acts: seq<Action>, w: World, act: Action, v: World)
    requires Reaches(o, s, acts, w) && Enabled(o, w, act) && v.a.entries == map[]
    requires Next(o, s, w, act) == v
    ensures Reaches(o, s, acts + [act], v)
  {
    Extend(o, s, Init(), acts, act);
  }

  /** The start of both losing runs: a fetch is issued and a tick has drained the empty inbox. */
  lemma Opening(o: Order, s: Settings)
    ensures Reaches(o, s, [Begin("u")] + [Drain], Scene(Handling, FETCHING, 1, false, true))
  {
    GoTo(o, s, [], Init(), Begin("u"), Scene(Between, FETCHING, 1, false, true));
    GoTo(o, s, [Begin("u")], Scene(Between, FETCHING, 1, false, true), Drain, Scene(Handling, FETCHING, 1, false, true));
  }

  lemma NothingToAnimate(o: Order, s: Settings, acts: seq<Action>, tickets: map<nat, Ticket>, n: int)
    requires Reaches(o, s, acts, Scene(Handling, tickets, n, false, true))
    ensures Reaches(o, s, acts + [Animate] + [ReadAnimating], Scene(AskFirst, tickets, n, false, true))
  {
    var w := Scene(Handling, tickets, n, false, true);
    assert Animated(w.a, s).entries == map[];
    GoTo(o, s, acts, w, Animate, Scene(AskAnimating, tickets, n, false, true));
    GoTo(o, s, acts + [Animate], Scene(AskAnimating, tickets, n, false, true), ReadAnimating,
         Scene(AskFirst, tickets, n, false, true));
  }

  /** Both reads say go on, in either order. */
  lemma BothReads(o: Order, s: Settings, start: seq<Action>) returns (acts: seq<Action>)
    requires Reaches(o, s, start, Scene(AskFirst, HALF_DONE, 0, false, true))
    ensures Reaches(o, s, acts, Scene(Stopping, HALF_DONE, 0, false, true))
  {
    var r1, r2 := if o.counterFirst then ReadCounter else ReadInbox, if o.counterFirst then ReadInbox else ReadCounter;
    GoTo(o, s, start, Scene(AskFirst, HALF_DONE, 0, false, true), r1, Scene(AskSecond, HALF_DONE, 0, false, true));
    acts := start + [r1];
    GoTo(o, s, acts, Scene(AskSecond, HALF_DONE, 0, false, true), r2, Scene(Stopping, HALF_DONE, 0, false, true));
    acts := acts + [r2];
  }

  lemma CloseTooSoon(o: Order, s: Settings, start: seq<Action>) returns (acts: seq<Action>, w: World)
    requires !o.pushFirst && Reaches(o, s, start, Scene(AskFirst, HALF_DONE, 0, false, true))
    ensures Reaches(o, s, acts, w) && Lost(w)
  {
    acts := BothReads(o, s, start);
    GoTo(o, s, acts, Scene(Stopping, HALF_DONE, 0, false, true), StopTimer, Scene(Between, HALF_DONE, 0, false, false));
    acts := acts + [StopTimer];
    w := Scene(Between, map[], 0, true, false);
    GoTo(o, s, acts, Scene(Between, HALF_DONE, 0, false, false), PushStep(0, None), w);
    acts := acts + [PushStep(0, None)];
  }

  /** With the decrement first, the timer stops while the result is still to be pushed. */
  lemma DecrementFirstLoses(s: Settings, counterFirst: bool) returns (acts: seq<Action>, w: World)
    ensures Reaches(Order(false, counterFirst), s, acts, w) && Lost(w)
  {
    var o := Order(false, counterFirst);
    Opening(o, s);
    acts := [Begin("u")] + [Drain];
    GoTo(o, s, acts, Scene(Handling, FETCHING, 1, false, true), DecrementStep(0),
         Scene(Handling, HALF_DONE, 0, false, true));
    acts := acts + [DecrementStep(0)];
    NothingToAnimate(o, s, acts, HALF_DONE, 0);
    acts := acts + [Animate] + [ReadAnimating];
    acts, w := CloseTooSoon(o, s, acts);
  }

  lemma DeliverBetweenReads(o: Order, s: Settings, start: seq<Action>) returns (acts: seq<Action>,
        w: World)
    requires o == Order(true, false) && Reaches(o, s, start, Scene(AskFirst, FETCHING, 1, false, true))
    ensures Reaches(o, s, acts, w) && Lost(w)
  {
    acts := start;
    GoTo(o, s, acts, Scene(AskFirst, FETCHING, 1, false, true), ReadInbox, Scene(AskSecond, FETCHING, 1, false, true));
    acts := acts + [ReadInbox];
    GoTo(o, s, acts, Scene(AskSecond, FETCHING, 1, false, true), PushStep(0, None),
         Scene(AskSecond, HALF_DONE, 1, true, true));
    acts := acts + [PushStep(0, None)];
    GoTo(o, s, acts, Scene(AskSecond, HALF_DONE, 1, true, true), DecrementStep(0), Scene(AskSecond, map[], 0, true, true));
    acts := acts + [DecrementStep(0)];
    GoTo(o, s, acts, Scene(AskSecond, map[], 0, true, true), ReadCounter, Scene(Stopping, map[], 0, true, true));
    acts := acts + [ReadCounter];
    w := Scene(Between, map[], 0, true, false);
    GoTo(o, s, acts, Scene(Stopping, map[], 0, true, true), StopTimer, w);
    acts := acts + [StopTimer];
  }

  /** With the inbox read first, a whole delivery fits between the two reads. */
  lemma InboxFirstLoses(s: Settings) returns (acts: seq<Action>, w: World)
    ensures Reaches(Order(true, false), s, acts, w) && Lost(w)
  {
    var o := Order(true, false);
    Opening(o, s);
    acts := [Begin("u")] + [Drain];
    NothingToAnimate(o, s, acts, FETCHING, 1);
    acts := acts + [Animate] + [ReadAnimating];
    acts, w := DeliverBetweenReads(o, s, acts);
  }

  lemma LostIsALoss(w: World)
    requires Lost(w)
    ensures !NothingLost(w)
  {
    var id := 0;
    assert id in w.inboxIds && w.epochStart <= id < |w.issued|;
  }

  /** No interleaving loses a result exactly when both orders are the ones in the source. */
  lemma BothOrdersMatter(o: Order, s: Settings)
    ensures NeverLoses(o, s) <==> o == AS_WRITTEN
  {
    if o == AS_WRITTEN {
      AsWrittenNeverLoses(s);
    } else {
      var acts, w;
      if o.pushFirst { acts, w := InboxFirstLoses(s); } else { acts, w := DecrementFirstLoses(s, o.counterFirst); }
      LostIsALoss(w);
      assert Legal(o, s, Init(), acts) && !NothingLost(Run(o, s, Init(), acts));
    }
  }
}
