/** The cache and request book of the GIF animator (client/src/gif_animator.rs), first as functions
    on a snapshot of its fields, then as the class whose methods update those fields. */
module GifAnimation {
  import opened Collections
  import opened GifPlayback
  import opened Wrappers

  type Url = string

  /** One fetch result in the inbox; `None` is a failed fetch or decode. */
  datatype Delivery = Delivery(url: Url, data: Option<GifData>) {
    predicate Valid() { data.Some? ==> data.value.Valid() }
  }

  datatype Settings = Settings(tick: nat, maxLoops: Option<nat>, maxEntries: nat)

  datatype Anim = Anim(entries: map<Url, Entry>, requested: set<Url>, failed: set<Url>,
                       inbox: seq<Delivery>, inFlight: int, nextSeq: nat, registered: bool,
                       timerRunning: bool)

  ghost predicate CacheOk(entries: map<Url, Entry>, nextSeq: nat, limit: Option<nat>) {
    && (forall u :: u in entries ==> EntryOk(entries[u], limit) && entries[u].seqNo < nextSeq)
    && (forall u, v :: u in entries && v in entries && u != v ==> entries[u].seqNo != entries[v].seqNo)
  }

  ghost predicate AnimOk(a: Anim, s: Settings) {
    && CacheOk(a.entries, a.nextSeq, s.maxLoops)
    && (forall i :: 0 <= i < |a.inbox| ==> a.inbox[i].Valid())
  }

  // ----- what each operation does to the fields -----

  function EnsureTimer(a: Anim): Anim {
    if a.timerRunning || !a.registered then a else a.(timerRunning := true)
  }

  /** The second part tells whether a ticket was issued. */
  function FetchBegun(a: Anim, url: Url): (Anim, bool) {
    if url in a.requested then (a, false)
    else (EnsureTimer(a.(requested := a.requested + {url}, inFlight := a.inFlight + 1)), true)
  }

  function Push(a: Anim, d: Delivery): Anim { a.(inbox := a.inbox + [d]) }

  function Decrement(a: Anim): Anim { a.(inFlight := a.inFlight - 1) }

  ghost predicate IsOldest(entries: map<Url, Entry>, u: Url) {
    u in entries && forall v :: v in entries ==> entries[u].seqNo <= entries[v].seqNo
  }

  lemma OldestExists(entries: map<Url, Entry>)
    requires |entries| > 0
    ensures exists u :: IsOldest(entries, u)
  {
    var u :| u in entries;
    var rest := entries - {u};
    if |rest| == 0 {
      assert forall v :: v in entries && v != u ==> v in rest;
      assert IsOldest(entries, u);
    } else {
      OldestExists(rest);
      var w :| IsOldest(rest, w);
      forall v | v in entries && v != u ensures v in rest {}
      if entries[u].seqNo <= entries[w].seqNo { assert IsOldest(entries, u); } else { assert IsOldest(entries, w); }
    }
  }

  /** Drop the oldest insertion once the cache holds `maxEntries`. */
  ghost function MakeRoom(entries: map<Url, Entry>, maxEntries: nat): map<Url, Entry> {
    if |entries| >= maxEntries && |entries| > 0 then
      OldestExists(entries);
      var u :| IsOldest(entries, u);
      entries - {u}
    else entries
  }

  /** Which entry goes is no choice: sequence numbers are distinct. */
  lemma OldestIsOne(entries: map<Url, Entry>, nextSeq: nat, limit: Option<nat>, maxEntries: nat, u: Url)
    requires CacheOk(entries, nextSeq, limit) && |entries| >= maxEntries && |entries| > 0 && IsOldest(entries, u)
    ensures MakeRoom(entries, maxEntries) == entries - {u}
  {
    OldestExists(entries);
    var v :| IsOldest(entries, v) && MakeRoom(entries, maxEntries) == entries - {v};
    assert entries[u].seqNo == entries[v].seqNo;
  }

  ghost function Handle(a: Anim, d: Delivery, s: Settings): Anim {
    match d.data
    case None => a.(failed := a.failed + {d.url})
    case Some(gif) =>
      a.(entries := MakeRoom(a.entries, s.maxEntries)[d.url := NewEntry(gif, a.nextSeq)], nextSeq := a.nextSeq + 1)
  }

  ghost function HandleAll(a: Anim, ds: seq<Delivery>, s: Settings): Anim {
    if ds == [] then a else Handle(HandleAll(a, ds[..|ds| - 1], s), ds[|ds| - 1], s)
  }

  /** One tick of every entry: its new state and the frame handed to the UI, if any. */
  ghost function Steps(entries: map<Url, Entry>, s: Settings): (r: map<Url, (Entry, Option<Image>)>)
    requires forall u :: u in entries ==> EntryOk(entries[u], s.maxLoops)
    ensures r.Keys == entries.Keys
    ensures forall u :: u in r ==> EntryOk(r[u].0, s.maxLoops) && r[u].0.seqNo == entries[u].seqNo
  {
    map u | u in entries :: Advance(entries[u], s.tick, s.maxLoops)
  }

  ghost function Animated(a: Anim, s: Settings): Anim
    requires CacheOk(a.entries, a.nextSeq, s.maxLoops)
  {
    var steps := Steps(a.entries, s);
    a.(entries := map u | u in steps :: steps[u].0)
  }

  ghost function FramesShown(a: Anim, s: Settings): map<Url, Image>
    requires CacheOk(a.entries, a.nextSeq, s.maxLoops)
  {
    var steps := Steps(a.entries, s);
    map u | u in steps && steps[u].1.Some? :: steps[u].1.value
  }

  /** A tick never shows a frame other than the one its entry is on afterwards. */
  lemma ShownIsCurrent(a: Anim, s: Settings, u: Url)
    requires CacheOk(a.entries, a.nextSeq, s.maxLoops) && u in FramesShown(a, s)
    ensures var e := Animated(a, s).entries[u]; e.current < |e.frames| && FramesShown(a, s)[u] == e.frames[e.current]
  {
    assert EntryOk(a.entries[u], s.maxLoops);
  }

  /** The animation loop with the entries of `todo` still to visit. */
  ghost predicate Partly(before: map<Url, Entry>, steps: map<Url, (Entry, Option<Image>)>, todo: set<Url>,
        entries: map<Url, Entry>, shown: map<Url, Image>)
  {
    && todo <= before.Keys == entries.Keys == steps.Keys
    && (forall u :: u in entries ==> entries[u] == if u in todo then before[u] else steps[u].0)
    && (forall u :: u in shown <==> u in steps && u !in todo && steps[u].1.Some?)
    && (forall u :: u in shown ==> shown[u] == steps[u].1.value)
  }

  lemma PartlyStep(before: map<Url, Entry>, steps: map<Url, (Entry, Option<Image>)>, todo: set<Url>,
        entries: map<Url, Entry>, shown: map<Url, Image>, u: Url)
    requires Partly(before, steps, todo, entries, shown) && u in todo
    ensures entries[u] == before[u]
    ensures Partly(before, steps, todo - {u}, entries[u := steps[u].0],
                   if steps[u].1.Some? then shown[u := steps[u].1.value] else shown)
  {
  }

  lemma AnimatedKeepsCache(a: Anim, s: Settings)
    requires CacheOk(a.entries, a.nextSeq, s.maxLoops)
    ensures CacheOk(Animated(a, s).entries, a.nextSeq, s.maxLoops)
  {
  }

  lemma AllSteps(before: map<Url, Entry>, steps: map<Url, (Entry, Option<Image>)>, entries: map<Url, Entry>,
        shown: map<Url, Image>)
    requires Partly(before, steps, {}, entries, shown)
    ensures entries == map u | u in steps :: steps[u].0
    ensures shown == map u | u in steps && steps[u].1.Some? :: steps[u].1.value
  {
  }

  lemma PartlyDone(a: Anim, s: Settings, entries: map<Url, Entry>, shown: map<Url, Image>)
    requires CacheOk(a.entries, a.nextSeq, s.maxLoops)
    requires Partly(a.entries, Steps(a.entries, s), {}, entries, shown)
    ensures entries == Animated(a, s).entries && shown == FramesShown(a, s)
    ensures CacheOk(entries, a.nextSeq, s.maxLoops)
  {
    AllSteps(a.entries, Steps(a.entries, s), entries, shown);
    AnimatedKeepsCache(a, s);
  }

  predicate AnyAnimating(entries: map<Url, Entry>) { exists u :: u in entries && Animating(entries[u]) }

  function Stop(a: Anim): Anim { a.(timerRunning := false) }

  function StoppedIfIdle(a: Anim): Anim {
    if !AnyAnimating(a.entries) && a.inFlight == 0 && a.inbox == [] then Stop(a) else a
  }

  function UrlResumed(a: Anim, url: Url): Anim {
    if url in a.entries && a.entries[url].paused
    then EnsureTimer(a.(entries := a.entries[url := Resumed(a.entries[url])]))
    else a
  }

  function Clear(a: Anim): Anim {
    a.(timerRunning := false, entries := map[], requested := {}, failed := {}, inbox := [])
  }

  lemma HandleKeepsCache(a: Anim, d: Delivery, s: Settings)
    requires CacheOk(a.entries, a.nextSeq, s.maxLoops) && d.Valid()
    ensures CacheOk(Handle(a, d, s).entries, Handle(a, d, s).nextSeq, s.maxLoops)
  {
  }

  lemma HandleAllKeepsCache(a: Anim, ds: seq<Delivery>, s: Settings)
    requires CacheOk(a.entries, a.nextSeq, s.maxLoops) && (forall i :: 0 <= i < |ds| ==> ds[i].Valid())
    ensures var b := HandleAll(a.(inbox := []), ds, s);
            CacheOk(b.entries, b.nextSeq, s.maxLoops) && b.inFlight == a.inFlight && b.inbox == []
  {
    if ds != [] {
      HandleAllKeepsCache(a, ds[..|ds| - 1], s);
      HandleKeepsCache(HandleAll(a.(inbox := []), ds[..|ds| - 1], s), ds[|ds| - 1], s);
    }
  }

  /** A whole tick that nothing interleaves with. */
  ghost function Tick(a: Anim, s: Settings): Anim
    requires AnimOk(a, s)
  {
    HandleAllKeepsCache(a, a.inbox, s);
    StoppedIfIdle(Animated(HandleAll(a.(inbox := []), a.inbox, s), s))
  }

  /** The frames shown by the animation loop of a tick, after the drained results are handled. */
  ghost function FramesInTick(a: Anim, s: Settings): map<Url, Image>
    requires AnimOk(a, s)
  {
    HandleAllKeepsCache(a, a.inbox, s);
    FramesShown(HandleAll(a.(inbox := []), a.inbox, s), s)
  }

  lemma ResumedKeepsCache(a: Anim, url: Url, s: Settings)
    requires CacheOk(a.entries, a.nextSeq, s.maxLoops)
    ensures CacheOk(UrlResumed(a, url).entries, a.nextSeq, s.maxLoops)
  {
    if url in a.entries { assert EntryOk(a.entries[url], s.maxLoops); }
  }

  // ----- the cache is a FIFO queue -----

  /** `q` lists the cached URLs from the oldest insertion to the newest. */
  ghost predicate Represents(q: seq<Url>, entries: map<Url, Entry>) {
    && (forall i :: 0 <= i < |q| ==> q[i] in entries)
    && (forall u :: u in entries ==> u in q)
    && (forall i, j :: 0 <= i < j < |q| ==> entries[q[i]].seqNo < entries[q[j]].seqNo)
  }

  function Without(q: seq<Url>, url: Url): seq<Url> {
    if q == [] then []
    else if q[0] == url then Without(q[1..], url)
    else [q[0]] + Without(q[1..], url)
  }

  /** A bounded queue: at capacity the head leaves, then `url` moves to the tail. */
  function Enqueue(q: seq<Url>, url: Url, max: nat): seq<Url> {
    Without(if |q| >= max && |q| > 0 then q[1..] else q, url) + [url]
  }

  lemma WithoutLength(q: seq<Url>, url: Url)
    ensures |Without(q, url)| <= |q|
    ensures forall u :: u in Without(q, url) <==> u in q && u != url
  {
  }

  lemma WithoutKeepsOrder(q: seq<Url>, url: Url, entries: map<Url, Entry>)
    requires forall i :: 0 <= i < |q| ==> q[i] in entries
    requires forall i, j :: 0 <= i < j < |q| ==> entries[q[i]].seqNo < entries[q[j]].seqNo
    ensures forall i :: 0 <= i < |Without(q, url)| ==> Without(q, url)[i] in entries
    ensures forall i, j :: 0 <= i < j < |Without(q, url)| ==>
              entries[Without(q, url)[i]].seqNo < entries[Without(q, url)[j]].seqNo
  {
    if q != [] {
      WithoutKeepsOrder(q[1..], url, entries);
      WithoutLength(q[1..], url);
      var r := Without(q[1..], url);
      forall k | 0 <= k < |r| ensures entries[q[0]].seqNo < entries[r[k]].seqNo {
        assert r[k] in r;
        var m :| 1 <= m < |q| && q[m] == r[k];
      }
    }
  }

  lemma QueueSize(q: seq<Url>, entries: map<Url, Entry>)
    requires Represents(q, entries)
    ensures |q| == |entries|
  {
    forall i, j | 0 <= i < j < |q| ensures q[i] != q[j] {
      assert entries[q[i]].seqNo < entries[q[j]].seqNo;
    }
    assert entries.Keys == SetOf(q);
    DistinctSize(q);
  }

  lemma OldestIsHead(q: seq<Url>, entries: map<Url, Entry>, u: Url)
    requires Represents(q, entries) && |q| > 0 && IsOldest(entries, u)
    ensures u == q[0]
  {
    var i :| 0 <= i < |q| && q[i] == u;
  }

  lemma DropHead(q: seq<Url>, entries: map<Url, Entry>)
    requires Represents(q, entries) && |q| > 0
    ensures Represents(q[1..], entries - {q[0]})
  {
    var rest := entries - {q[0]};
    forall j | 0 <= j < |q[1..]| ensures q[1..][j] in rest {
      assert entries[q[0]].seqNo < entries[q[j + 1]].seqNo;
    }
    forall v | v in rest ensures v in q[1..] {
      var j :| 0 <= j < |q| && q[j] == v;
      assert q[1..][j - 1] == v;
    }
  }

  /** Making room takes the head off the queue. */
  lemma MakeRoomIsDequeue(q: seq<Url>, entries: map<Url, Entry>, maxEntries: nat)
    requires Represents(q, entries)
    ensures Represents(if |q| >= maxEntries && |q| > 0 then q[1..] else q, MakeRoom(entries, maxEntries))
  {
    QueueSize(q, entries);
    if |q| >= maxEntries && |q| > 0 {
      OldestExists(entries);
      var u :| IsOldest(entries, u) && MakeRoom(entries, maxEntries) == entries - {u};
      OldestIsHead(q, entries, u);
      DropHead(q, entries);
    }
  }

  lemma InsertIsAppend(q: seq<Url>, entries: map<Url, Entry>, url: Url, e: Entry)
    requires Represents(q, entries) && forall u :: u in entries ==> entries[u].seqNo < e.seqNo
    ensures Represents(Without(q, url) + [url], entries[url := e])
  {
    WithoutKeepsOrder(q, url, entries);
    WithoutLength(q, url);
    var r := Without(q, url);
    forall i | 0 <= i < |r| ensures r[i] != url { assert r[i] in r; }
  }

  /** Storing a fetched GIF is one step of the bounded queue: what leaves is the oldest insertion. */
  lemma StoreIsEnqueue(q: seq<Url>, a: Anim, d: Delivery, s: Settings)
    requires Represents(q, a.entries) && CacheOk(a.entries, a.nextSeq, s.maxLoops) && d.Valid() && d.data.Some?
    ensures Represents(Enqueue(q, d.url, s.maxEntries), Handle(a, d, s).entries)
  {
    MakeRoomIsDequeue(q, a.entries, s.maxEntries);
    InsertIsAppend(if |q| >= s.maxEntries && |q| > 0 then q[1..] else q, MakeRoom(a.entries, s.maxEntries), d.url,
                   NewEntry(d.data.value, a.nextSeq));
  }

  lemma EnqueueBound(q: seq<Url>, url: Url, max: nat)
    requires |q| <= max || |q| <= 1
    ensures var n := |Enqueue(q, url, max)|; n <= max || n <= 1
  {
    WithoutLength(if |q| >= max && |q| > 0 then q[1..] else q, url);
  }

  // ----- every result of a tick is handled -----

  /** The URLs of the results that are GIFs, in their order. */
  function Fetched(ds: seq<Delivery>): seq<Url> {
    if ds == [] then []
    else Fetched(ds[..|ds| - 1]) + if ds[|ds| - 1].data.Some? then [ds[|ds| - 1].url] else []
  }

  /** One after the other. */
  function EnqueueAll(q: seq<Url>, urls: seq<Url>, max: nat): seq<Url> {
    if urls == [] then q else Enqueue(EnqueueAll(q, urls[..|urls| - 1], max), urls[|urls| - 1], max)
  }

  function FailedIn(ds: seq<Delivery>): (urls: set<Url>)
    ensures forall u :: u in urls <==> Delivery(u, None) in ds
  {
    if ds == [] then {}
    else
      var before, d := ds[..|ds| - 1], ds[|ds| - 1];
      assert ds == before + [d];
      FailedIn(before) + if d.data.None? then {d.url} else {}
  }

  lemma OneResultCounts(a: Anim, d: Delivery, s: Settings)
    ensures var b := Handle(a, d, s);
            b == a.(entries := b.entries, failed := a.failed + if d.data.None? then {d.url} else {},
                    nextSeq := a.nextSeq + if d.data.Some? then 1 else 0)
  {
  }

  lemma OneMoreFailed(failed: set<Url>, before: seq<Delivery>, d: Delivery)
    ensures failed + FailedIn(before + [d]) == (failed + FailedIn(before)) + if d.data.None? then {d.url} else {}
    ensures |Fetched(before + [d])| == |Fetched(before)| + if d.data.Some? then 1 else 0
  {
    assert (before + [d])[..|before|] == before;
  }

  /** What the results of a tick leave behind, but for the cache. */
  ghost predicate Counted(a: Anim, ds: seq<Delivery>, b: Anim) {
    b == a.(entries := b.entries, failed := a.failed + FailedIn(ds), nextSeq := a.nextSeq + |Fetched(ds)|)
  }

  lemma CountedStep(a: Anim, before: seq<Delivery>, b: Anim, d: Delivery, s: Settings)
    requires Counted(a, before, b)
    ensures Counted(a, before + [d], Handle(b, d, s))
  {
    OneResultCounts(b, d, s);
    OneMoreFailed(a.failed, before, d);
  }

  lemma HandleAllSnoc(a: Anim, before: seq<Delivery>, d: Delivery, s: Settings)
    ensures HandleAll(a, before + [d], s) == Handle(HandleAll(a, before, s), d, s)
  {
    assert (before + [d])[..|before|] == before;
  }

  /** Every failure is remembered, every GIF gets the next number, and nothing else changes but the
      cache. */
  lemma {:induction false} EveryResultCounts(a: Anim, ds: seq<Delivery>, s: Settings)
    ensures Counted(a, ds, HandleAll(a, ds, s))
  {
    if ds == [] {
      assert a.failed + FailedIn(ds) == a.failed;
    } else {
      var before, d := ds[..|ds| - 1], ds[|ds| - 1];
      assert before + [d] == ds;
      EveryResultCounts(a, before, s);
      CountedStep(a, before, HandleAll(a, before, s), d, s);
      HandleAllSnoc(a, before, d, s);
    }
  }

  lemma HandledCache(a: Anim, ds: seq<Delivery>, s: Settings)
    requires CacheOk(a.entries, a.nextSeq, s.maxLoops) && forall i :: 0 <= i < |ds| ==> ds[i].Valid()
    ensures var b := HandleAll(a, ds, s); CacheOk(b.entries, b.nextSeq, s.maxLoops)
  {
    if ds != [] {
      HandledCache(a, ds[..|ds| - 1], s);
      HandleKeepsCache(HandleAll(a, ds[..|ds| - 1], s), ds[|ds| - 1], s);
    }
  }

  /** The cache is the queue after every fetched GIF has joined it, in order. */
  lemma {:induction false} EveryResultJoins(q: seq<Url>, a: Anim, ds: seq<Delivery>, s: Settings)
    requires Represents(q, a.entries) && CacheOk(a.entries, a.nextSeq, s.maxLoops)
    requires forall i :: 0 <= i < |ds| ==> ds[i].Valid()
    ensures Represents(EnqueueAll(q, Fetched(ds), s.maxEntries), HandleAll(a, ds, s).entries)
  {
    if ds != [] {
      var before, d := ds[..|ds| - 1], ds[|ds| - 1];
      EveryResultJoins(q, a, before, s);
      HandledCache(a, before, s);
      if d.data.Some? {
        StoreIsEnqueue(EnqueueAll(q, Fetched(before), s.maxEntries), HandleAll(a, before, s), d, s);
        assert (Fetched(before) + [d.url])[..|Fetched(before)|] == Fetched(before);
      } else {
        assert Fetched(ds) == Fetched(before);
      }
    }
  }

  /** Result `i` is the last one for `u` that is a GIF. */
  predicate LastFor(ds: seq<Delivery>, u: Url, i: nat) {
    && i < |ds| && ds[i].url == u && ds[i].data.Some?
    && forall j :: i < j < |ds| && ds[j].url == u ==> ds[j].data.None?
  }

  predicate NoneFor(ds: seq<Delivery>, u: Url) { forall i :: 0 <= i < |ds| && ds[i].url == u ==> ds[i].data.None? }

  /** An entry that was made for result `i`, the last one for its URL. */
  ghost predicate MadeBy(ds: seq<Delivery>, nextSeq: nat, u: Url, e: Entry, i: nat) {
    LastFor(ds, u, i) && e == NewEntry(ds[i].data.value, nextSeq + |Fetched(ds[..i])|)
  }

  /** What is cached afterwards is the last GIF fetched for the URL, from its start, or what was
      cached before. */
  ghost predicate FromLast(before: map<Url, Entry>, nextSeq: nat, ds: seq<Delivery>, u: Url, e: Entry) {
    || (NoneFor(ds, u) && u in before && e == before[u])
    || exists i: nat :: MadeBy(ds, nextSeq, u, e, i)
  }

  lemma HandledEntry(a: Anim, d: Delivery, s: Settings, u: Url)
    requires u in Handle(a, d, s).entries
    ensures var e := Handle(a, d, s).entries[u];
            if d.data.Some? && d.url == u then e == NewEntry(d.data.value, a.nextSeq)
            else u in a.entries && e == a.entries[u]
  {
  }

  lemma FromLastStays(before: map<Url, Entry>, nextSeq: nat, ds: seq<Delivery>, d: Delivery, u: Url, e: Entry)
    requires FromLast(before, nextSeq, ds, u, e) && (d.url == u ==> d.data.None?)
    ensures FromLast(before, nextSeq, ds + [d], u, e)
  {
    var all := ds + [d];
    if NoneFor(ds, u) && u in before && e == before[u] {
      assert NoneFor(all, u);
    } else {
      var i: nat :| MadeBy(ds, nextSeq, u, e, i);
      assert all[..i] == ds[..i] && all[i] == ds[i];
      assert MadeBy(all, nextSeq, u, e, i);
    }
  }

  lemma FromLastNew(before: map<Url, Entry>, nextSeq: nat, ds: seq<Delivery>, d: Delivery, e: Entry)
    requires d.data.Some? && e == NewEntry(d.data.value, nextSeq + |Fetched(ds)|)
    ensures FromLast(before, nextSeq, ds + [d], d.url, e)
  {
    assert (ds + [d])[..|ds|] == ds;
    assert MadeBy(ds + [d], nextSeq, d.url, e, |ds|);
  }

  ghost predicate AllFromLast(before: map<Url, Entry>, nextSeq: nat, ds: seq<Delivery>, after: map<Url, Entry>) {
    forall u :: u in after ==> FromLast(before, nextSeq, ds, u, after[u])
  }

  lemma FromLastStep(before: map<Url, Entry>, nextSeq: nat, ds: seq<Delivery>, a: Anim, d: Delivery, s: Settings)
    requires AllFromLast(before, nextSeq, ds, a.entries) && a.nextSeq == nextSeq + |Fetched(ds)|
    ensures AllFromLast(before, nextSeq, ds + [d], Handle(a, d, s).entries)
  {
    var after := Handle(a, d, s).entries;
    forall u | u in after ensures FromLast(before, nextSeq, ds + [d], u, after[u]) {
      HandledEntry(a, d, s, u);
      if d.data.Some? && d.url == u {
        FromLastNew(before, nextSeq, ds, d, after[u]);
      } else {
        FromLastStays(before, nextSeq, ds, d, u, after[u]);
      }
    }
  }

  lemma {:induction false} CachedIsLastFetched(a: Anim, ds: seq<Delivery>, s: Settings)
    ensures AllFromLast(a.entries, a.nextSeq, ds, HandleAll(a, ds, s).entries)
  {
    if ds == [] {
      assert forall u :: NoneFor(ds, u);
    } else {
      var before, d := ds[..|ds| - 1], ds[|ds| - 1];
      assert before + [d] == ds;
      CachedIsLastFetched(a, before, s);
      EveryResultCounts(a, before, s);
      FromLastStep(a.entries, a.nextSeq, before, HandleAll(a, before, s), d, s);
      HandleAllSnoc(a, before, d, s);
    }
  }

  lemma AdvanceShows(e: Entry, s: Settings)
    requires EntryOk(e, s.maxLoops)
    ensures var (after, frame) := Advance(e, s.tick, s.maxLoops);
            frame.Some? <==> after.current != e.current && !after.paused
  {
    if Animating(e) { NextFrame(e.current, |e.frames|); }
  }

  /** A tick hands the UI the frame of exactly the entries that moved on and did not pause. */
  lemma ShownIffMoved(a: Anim, s: Settings, u: Url)
    requires CacheOk(a.entries, a.nextSeq, s.maxLoops)
    ensures u in FramesShown(a, s)
            <==> u in a.entries && Animated(a, s).entries[u].current != a.entries[u].current
                 && !Animated(a, s).entries[u].paused
  {
    if u in a.entries { AdvanceShows(a.entries[u], s); }
  }

  /** A paused GIF that is resumed is as new, the timer runs if there is a handler, and nothing else
      changes; any other resume changes nothing. */
  lemma ResumeStartsOver(a: Anim, url: Url, s: Settings)
    requires CacheOk(a.entries, a.nextSeq, s.maxLoops)
    ensures var b := UrlResumed(a, url);
            if url in a.entries && a.entries[url].paused then
              var e := a.entries[url];
              b == a.(entries := a.entries[url := NewEntry(GifData(e.frames, e.delays), e.seqNo)],
                      timerRunning := a.timerRunning || a.registered)
            else b == a
  {
    if url in a.entries { assert EntryOk(a.entries[url], s.maxLoops); }
  }

  // ----- the timer stops when only loop-limited GIFs play -----

  lemma QuietTick(a: Anim, s: Settings)
    requires AnimOk(a, s) && a.inbox == []
    ensures Tick(a, s) == var b := Animated(a, s); if AnyAnimating(b.entries) || b.inFlight != 0 then b else Stop(b)
  {
    assert a.(inbox := []) == a;
  }

  ghost function TicksOf(a: Anim, s: Settings, n: nat): (b: Anim)
    requires AnimOk(a, s) && a.inbox == []
    ensures AnimOk(b, s) && b.inbox == [] && b.inFlight == a.inFlight
    ensures b.entries.Keys == a.entries.Keys
    ensures forall u :: u in b.entries ==> b.entries[u] == Ticks(a.entries[u], s.tick, s.maxLoops, n)
  {
    if n == 0 then a else Tick(TicksOf(a, s, n - 1), s)
  }

  ghost function LongestWait(entries: map<Url, Entry>, s: Settings): (n: nat)
    requires s.tick > 0 && s.maxLoops.Some? && forall u :: u in entries ==> EntryOk(entries[u], s.maxLoops)
    ensures forall u :: u in entries ==> TicksLeft(entries[u], s.tick, s.maxLoops.value) <= n
    decreases |entries|
  {
    if |entries| == 0 then assert entries.Keys == {}; 0
    else
      var u :| u in entries;
      var rest := LongestWait(entries - {u}, s);
      var mine := TicksLeft(entries[u], s.tick, s.maxLoops.value);
      assert forall v :: v in entries && v != u ==> v in entries - {u};
      if mine > rest then mine else rest
  }

  /** With a loop limit, no fetch in flight and an empty inbox, the timer stops after a bounded
      number of ticks and every entry then rests. */
  lemma TimerEventuallyStops(a: Anim, s: Settings, n: nat)
    requires AnimOk(a, s) && a.inbox == [] && a.inFlight == 0
    requires s.tick > 0 && s.maxLoops.Some? && n > LongestWait(a.entries, s)
    ensures !TicksOf(a, s, n).timerRunning && !AnyAnimating(TicksOf(a, s, n).entries)
  {
    var p, b := TicksOf(a, s, n - 1), TicksOf(a, s, n);
    QuietTick(p, s);
    forall u | u in b.entries ensures !Animating(b.entries[u]) {
      PausesWithin(a.entries[u], s.tick, s.maxLoops.value, n);
    }
  }

  // ----- the class -----

  /** A call of the frame handler while results are drained: the first frame, or a failure. */
  datatype Shown = Shown(url: Url, frame: Option<Image>)

  /** One call for each result, in order. */
  function FirstFrames(ds: seq<Delivery>): (calls: seq<Shown>)
    requires forall i :: 0 <= i < |ds| ==> ds[i].Valid()
    ensures |calls| == |ds|
    ensures forall i :: 0 <= i < |ds| && ds[i].data.Some? ==>
              ds[i].Valid() && calls[i] == Shown(ds[i].url, Some(ds[i].data.value.frames[0]))
    ensures forall i :: 0 <= i < |ds| && ds[i].data.None? ==> calls[i] == Shown(ds[i].url, None)
  {
    if ds == [] then []
    else
      var d := ds[|ds| - 1];
      assert d.Valid();
      FirstFrames(ds[..|ds| - 1]) + [Shown(d.url, if d.data.Some? then Some(d.data.value.frames[0]) else None)]
  }

  class GifAnimator {
    var entries: map<Url, Entry>
    var requested: set<Url>
    var failed: set<Url>
    var inbox: seq<Delivery>
    var inFlight: int
    var nextSeq: nat
    var registered: bool
    var timerRunning: bool
    const settings: Settings

    ghost function View(): Anim
      reads this
    {
      Anim(entries, requested, failed, inbox, inFlight, nextSeq, registered, timerRunning)
    }

    ghost predicate Valid()
      reads this
    {
      AnimOk(View(), settings)
    }

    constructor (tick: nat, maxLoops: Option<nat>, maxEntries: nat)
      ensures Valid() && View() == Anim(map[], {}, {}, [], 0, 0, false, false)
      ensures settings == Settings(tick, maxLoops, maxEntries)
    {
      entries, requested, failed, inbox := map[], {}, {}, [];
      inFlight, nextSeq, registered, timerRunning := 0, 0, false, false;
      settings := Settings(tick, maxLoops, maxEntries);
    }

    method Start()
      modifies this`registered
      ensures View() == old(View()).(registered := true)
    {
      registered := true;
    }

    method EnsureTimerRunning()
      modifies this`timerRunning
      ensures View() == EnsureTimer(old(View()))
    {
      if timerRunning || !registered { return; }
      timerRunning := true;
    }

    method BeginFetch(url: Url) returns (issued: bool)
      requires Valid()
      modifies this
      ensures Valid() && (View(), issued) == FetchBegun(old(View()), url)
      ensures issued <==> url !in old(requested)
      ensures issued ==> requested == old(requested) + {url} && inFlight == old(inFlight) + 1
    {
      if url in requested { return false; }
      requested := requested + {url};
      inFlight := inFlight + 1;
      EnsureTimerRunning();
      return true;
    }

    /** The first half of `FetchTicket::deliver`. */
    method PushResult(d: Delivery)
      requires Valid() && d.Valid()
      modifies this`inbox
      ensures Valid() && View() == Push(old(View()), d) && inbox == old(inbox) + [d]
    {
      inbox := inbox + [d];
    }

    /** The second half of `FetchTicket::deliver`. */
    method DecrementInFlight()
      requires Valid()
      modifies this`inFlight
      ensures Valid() && View() == Decrement(old(View()))
    {
      inFlight := inFlight - 1;
    }

    method DrainInbox() returns (pending: seq<Delivery>)
      requires Valid()
      modifies this`inbox
      ensures Valid() && pending == old(inbox) && View() == old(View()).(inbox := [])
    {
      pending := inbox;
      inbox := [];
    }

    method OldestEntry() returns (oldest: Option<Url>)
      ensures oldest.Some? <==> |entries| > 0
      ensures oldest.Some? ==> IsOldest(entries, oldest.value)
    {
      oldest := None;
      var todo := entries.Keys;
      while todo != {}
        invariant todo <= entries.Keys
        invariant oldest.None? ==> todo == entries.Keys
        invariant oldest.Some? ==> oldest.value in entries
        invariant oldest.Some? ==> forall v :: v in entries.Keys - todo ==> entries[oldest.value].seqNo <= entries[v].seqNo
        decreases todo
      {
        var u :| u in todo;
        if oldest.None? || entries[u].seqNo < entries[oldest.value].seqNo { oldest := Some(u); }
        todo := todo - {u};
      }
    }

    /** Evict the oldest entry when the cache is full. */
    method Evict()
      requires Valid()
      modifies this`entries
      ensures Valid() && entries == MakeRoom(old(entries), settings.maxEntries)
    {
      if |entries| >= settings.maxEntries {
        var oldest := OldestEntry();
        if oldest.Some? {
          OldestIsOne(entries, nextSeq, settings.maxLoops, settings.maxEntries, oldest.value);
          entries := entries - {oldest.value};
        }
      }
    }

    /** Store a fetched GIF, evicting the oldest entry when the cache is full. */
    method Store(url: Url, gif: GifData)
      requires Valid() && gif.Valid()
      modifies this`entries, this`nextSeq
      ensures Valid() && View() == Handle(old(View()), Delivery(url, Some(gif)), settings)
    {
      HandleKeepsCache(View(), Delivery(url, Some(gif)), settings);
      Evict();
      entries := entries[url := NewEntry(gif, nextSeq)];
      nextSeq := nextSeq + 1;
    }

    /** Handle one drained result. */
    method HandleResult(d: Delivery) returns (shown: Shown)
      requires Valid() && d.Valid()
      modifies this
      ensures Valid() && View() == Handle(old(View()), d, settings)
      ensures shown == Shown(d.url, if d.data.Some? then Some(d.data.value.frames[0]) else None)
    {
      if d.data.None? {
        failed := failed + {d.url};
        return Shown(d.url, None);
      }
      Store(d.url, d.data.value);
      shown := Shown(d.url, Some(d.data.value.frames[0]));
    }

    method HandlePending(pending: seq<Delivery>) returns (shown: seq<Shown>)
      requires Valid() && forall i :: 0 <= i < |pending| ==> pending[i].Valid()
      modifies this
      ensures Valid() && View() == HandleAll(old(View()), pending, settings)
      ensures shown == FirstFrames(pending)
    {
      shown := [];
      for i := 0 to |pending|
        invariant Valid() && View() == HandleAll(old(View()), pending[..i], settings)
        invariant shown == FirstFrames(pending[..i])
      {
        var s := HandleResult(pending[i]);
        shown := shown + [s];
        assert pending[..i + 1][..i] == pending[..i];
      }
      assert pending[..|pending|] == pending;
    }

    method AnimateEntry(u: Url) returns (frame: Option<Image>)
      requires u in entries && EntryOk(entries[u], settings.maxLoops)
      modifies this`entries
      ensures var (e, f) := Advance(old(entries[u]), settings.tick, settings.maxLoops);
              entries == old(entries)[u := e] && frame == f
    {
      var (e, f) := Advance(entries[u], settings.tick, settings.maxLoops);
      entries := entries[u := e];
      frame := f;
    }

    /** One round of the loop. */
    method AnimateOne(u: Url, shown: map<Url, Image>, ghost before: map<Url, Entry>, ghost todo: set<Url>)
      returns (more: map<Url, Image>)
      requires forall v :: v in before ==> EntryOk(before[v], settings.maxLoops)
      requires u in todo && Partly(before, Steps(before, settings), todo, entries, shown)
      modifies this`entries
      ensures Partly(before, Steps(before, settings), todo - {u}, entries, more)
    {
      PartlyStep(before, Steps(before, settings), todo, entries, shown, u);
      var frame := AnimateEntry(u);
      more := if frame.Some? then shown[u := frame.value] else shown;
    }

    /** Advance every entry; `shown` holds the frames handed to the UI, by URL. */
    method AnimateEntries() returns (shown: map<Url, Image>)
      requires Valid()
      modifies this`entries
      ensures Valid() && View() == Animated(old(View()), settings)
      ensures shown == FramesShown(old(View()), settings)
    {
      shown := map[];
      ghost var steps := Steps(entries, settings);
      var todo := entries.Keys;
      while todo != {}
        invariant Partly(old(entries), steps, todo, entries, shown)
        decreases todo
      {
        var u :| u in todo;
        shown := AnimateOne(u, shown, old(entries), todo);
        todo := todo - {u};
      }
      PartlyDone(old(View()), settings, entries, shown);
    }

    method IsAnimating() returns (animating: bool)
      ensures animating == AnyAnimating(entries)
    {
      animating := false;
      var todo := entries.Keys;
      while todo != {}
        invariant todo <= entries.Keys
        invariant animating == exists u :: u in entries.Keys - todo && Animating(entries[u])
        decreases todo
      {
        var u :| u in todo;
        animating := animating || Animating(entries[u]);
        todo := todo - {u};
      }
    }

    method StopIfIdle()
      modifies this`timerRunning
      ensures View() == StoppedIfIdle(old(View()))
    {
      var animating := IsAnimating();
      if !animating && inFlight == 0 && inbox == [] { timerRunning := false; }
    }

    /** The timer callback, run with no worker step in between. */
    method OnTick() returns (drained: seq<Shown>, advanced: map<Url, Image>)
      requires Valid()
      modifies this
      ensures Valid() && View() == Tick(old(View()), settings)
      ensures drained == FirstFrames(old(inbox))
      ensures advanced == FramesInTick(old(View()), settings)
    {
      HandleAllKeepsCache(View(), inbox, settings);
      var pending := DrainInbox();
      drained := HandlePending(pending);
      advanced := AnimateEntries();
      StopIfIdle();
    }

    method Resume(url: Url)
      requires Valid()
      modifies this
      ensures Valid() && View() == UrlResumed(old(View()), url)
    {
      if url in entries && entries[url].paused {
        entries := entries[url := entries[url].(paused := false, loopsDone := 0, elapsed := 0)];
        EnsureTimerRunning();
      }
    }

    method CurrentFrame(url: Url) returns (frame: Option<Image>)
      requires Valid()
      ensures frame == if url in entries then Some(entries[url].frames[entries[url].current]) else None
    {
      frame := if url in entries then Some(entries[url].frames[entries[url].current]) else None;
    }

    method StopAndClear()
      requires Valid()
      modifies this
      ensures Valid() && View() == Clear(old(View()))
      ensures entries == map[] && requested == {} && failed == {} && inbox == [] && !timerRunning
      ensures inFlight == old(inFlight)
    {
      timerRunning := false;
      entries, requested, failed, inbox := map[], {}, {}, [];
    }
  }
}
