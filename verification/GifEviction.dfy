/** The comment on `GifAnimator::new` (client/src/gif_animator.rs:77-78) says that a dropped GIF is
    fetched again on hover. It is not: whatever the size of the cache, one GIF more than it holds
    leaves the first one out of reach until the next clear. */
module GifEviction {
  import opened GifPlayback
  import opened Wrappers
  import opened GifAnimation
  import opened GifProtocol

  /** Asked for since the last clear, and gone: no frames, no failure, no result on its way. */
  ghost predicate Forgotten(w: World, url: Url) {
    && w.epochStart <= |w.issued| && url in w.issued[w.epochStart..]
    && url !in w.a.entries && url !in w.a.failed
    && (forall id :: id in w.tickets ==> w.tickets[id].url != url)
    && (forall i :: 0 <= i < |w.a.inbox| ==> w.a.inbox[i].url != url)
    && (forall i :: 0 <= i < |w.pending| ==> w.pending[i].url != url)
  }

  /** Hovering over a GIF (client/src/callbacks/chat.rs, `on_gif_hovered`). */
  function Hovered(a: Anim, url: Url): Anim {
    if url in a.requested then UrlResumed(a, url) else FetchBegun(a, url).0
  }

  lemma Go(s: Settings, acts: seq<Action>, w: World, act: Action)
    requires Reaches(AS_WRITTEN, s, acts, w) && Enabled(AS_WRITTEN, w, act)
    ensures Reaches(AS_WRITTEN, s, acts + [act], Next(AS_WRITTEN, s, w, act))
    ensures Inv(s, Next(AS_WRITTEN, s, w, act))
  {
    Extend(AS_WRITTEN, s, Init(), acts, act);
    InitInv(s);
    RunInv(s, Init(), acts + [act]);
  }

  /** One URL of each length. */
  function Name(i: nat): (url: Url)
    ensures |url| == i
  {
    seq(i, _ => 'u')
  }

  function Names(n: nat): (urls: seq<Url>)
    ensures |urls| == n && forall i :: 0 <= i < n ==> urls[i] == Name(i)
  {
    seq(n, i requires 0 <= i => Name(i))
  }

  function Ids(n: nat): (ids: seq<nat>)
    ensures |ids| == n && forall i :: 0 <= i < n ==> ids[i] == i
  {
    seq(n, i requires 0 <= i => i)
  }

  const STILL := GifData([Image(0)], [0])

  function Results(n: nat): (ds: seq<Delivery>)
    ensures |ds| == n && forall i :: 0 <= i < n ==> ds[i] == Delivery(Name(i), Some(STILL))
  {
    seq(n, i requires 0 <= i => Delivery(Name(i), Some(STILL)))
  }

  function Asked(n: nat): set<Url> { if n == 0 then {} else Asked(n - 1) + {Name(n - 1)} }

  lemma AskedShorter(n: nat, url: Url)
    ensures url in Asked(n) ==> |url| < n
  {
    if n > 0 { AskedShorter(n - 1, url); }
  }

  /** `n` fetches have been issued and delivered; nothing has been drained. */
  function Delivered(n: nat): World {
    World(Anim(map[], Asked(n), {}, Results(n), 0, 0, true, n > 0), Between, [], map[], Names(n), 0, Ids(n), [], [], [], [])
  }

  /** The same with one fetch more, at a point inside its `deliver`. */
  function Delivering(n: nat, pushed: bool): World {
    Delivered(n).(a := Delivered(n).a.(requested := Asked(n + 1), inFlight := 1, timerRunning := true,
                                       inbox := Results(if pushed then n + 1 else n)),
                  tickets := map[n := Ticket(Name(n), if pushed then HalfDone else Fetching)], issued := Names(n + 1),
                  inboxIds := Ids(if pushed then n + 1 else n))
  }

  lemma Unfold(n: nat)
    ensures Names(n + 1) == Names(n) + [Name(n)] && Ids(n + 1) == Ids(n) + [n]
    ensures Results(n + 1) == Results(n) + [Delivery(Name(n), Some(STILL))]
  {
  }

  lemma AskOne(s: Settings, n: nat, acts: seq<Action>)
    requires Reaches(AS_WRITTEN, s, acts, Delivered(n))
    ensures Reaches(AS_WRITTEN, s, acts + [Begin(Name(n))], Delivering(n, false))
  {
    Unfold(n);
    AskedShorter(n, Name(n));
    GoTo(AS_WRITTEN, s, acts, Delivered(n), Begin(Name(n)), Delivering(n, false));
  }

  lemma PushOne(s: Settings, n: nat, acts: seq<Action>)
    requires Reaches(AS_WRITTEN, s, acts, Delivering(n, false))
    ensures Reaches(AS_WRITTEN, s, acts + [PushStep(n, Some(STILL))], Delivering(n, true))
  {
    Unfold(n);
    GoTo(AS_WRITTEN, s, acts, Delivering(n, false), PushStep(n, Some(STILL)), Delivering(n, true));
  }

  lemma CountOne(s: Settings, n: nat, acts: seq<Action>)
    requires Reaches(AS_WRITTEN, s, acts, Delivering(n, true))
    ensures Reaches(AS_WRITTEN, s, acts + [DecrementStep(n)], Delivered(n + 1))
  {
    assert Worked(Delivering(n, true).tickets, n) == map[];
    GoTo(AS_WRITTEN, s, acts, Delivering(n, true), DecrementStep(n), Delivered(n + 1));
  }

  lemma {:induction false} DeliverAll(s: Settings, n: nat) returns (acts: seq<Action>)
    ensures Reaches(AS_WRITTEN, s, acts, Delivered(n))
  {
    if n == 0 {
      acts := [];
    } else {
      acts := DeliverAll(s, n - 1);
      AskOne(s, n - 1, acts);
      acts := acts + [Begin(Name(n - 1))];
      PushOne(s, n - 1, acts);
      acts := acts + [PushStep(n - 1, Some(STILL))];
      CountOne(s, n - 1, acts);
      acts := acts + [DecrementStep(n - 1)];
    }
  }

  /** How many GIFs the cache really holds. */
  function Capacity(max: nat): nat { if max == 0 then 1 else max }

  /** How many of `k` insertions it has dropped. */
  function Dropped(max: nat, k: nat): (d: nat)
    ensures d <= k
  {
    if k > Capacity(max) then k - Capacity(max) else 0
  }

  /** The queue after `k` of these results. */
  function Newest(s: Settings, k: nat): seq<Url> { Names(k)[Dropped(s.maxEntries, k)..] }

  predicate Quiet(n: nat, w: World) {
    w.issued == Names(n) && w.epochStart == 0 && w.tickets == map[] && w.a.failed == {} && w.a.inbox == []
    && w.a.inFlight == 0
  }

  /** The results are being handled, `k` of `n` are. */
  predicate Draining(s: Settings, n: nat, k: nat, w: World) {
    && k <= n && w.pc == Handling && w.pending == Results(n)[k..] && w.pendingIds == Ids(n)[k..]
    && w.queue == Newest(s, k)
    && Quiet(n, w)
  }

  lemma WithoutNothing(q: seq<Url>, url: Url)
    requires url !in q
    ensures Without(q, url) == q
  {
  }

  lemma Room<T>(names: seq<T>, max: nat)
    ensures var q := names[Dropped(max, |names|)..];
            (if |q| >= max && |q| > 0 then q[1..] else q) == names[Dropped(max, |names| + 1)..]
  {
  }

  lemma LaterName(k: nat, from: nat)
    requires from <= k
    ensures Without(Names(k)[from..], Name(k)) == Names(k)[from..]
    ensures Names(k + 1)[from..] == Names(k)[from..] + [Name(k)]
  {
    var kept := Names(k)[from..];
    forall i | 0 <= i < |kept| ensures |kept[i]| < k {}
    WithoutNothing(kept, Name(k));
    Unfold(k);
  }

  lemma NewestStep(s: Settings, k: nat)
    ensures Enqueue(Newest(s, k), Name(k), s.maxEntries) == Newest(s, k + 1)
  {
    Room(Names(k), s.maxEntries);
    LaterName(k, Dropped(s.maxEntries, k + 1));
  }

  lemma HandleOne(s: Settings, n: nat, k: nat, acts: seq<Action>, w: World)
    requires Reaches(AS_WRITTEN, s, acts, w) && Draining(s, n, k, w) && k < n
    ensures Reaches(AS_WRITTEN, s, acts + [HandleNext], Next(AS_WRITTEN, s, w, HandleNext))
    ensures Draining(s, n, k + 1, Next(AS_WRITTEN, s, w, HandleNext))
  {
    assert w.pending[0] == Results(n)[k];
    Go(s, acts, w, HandleNext);
    NewestStep(s, k);
  }

  lemma {:induction false} HandleMany(s: Settings, n: nat, k: nat) returns (acts: seq<Action>, w: World)
    requires k <= n && n > 0
    ensures Reaches(AS_WRITTEN, s, acts, w) && Draining(s, n, k, w)
  {
    if k == 0 {
      acts := DeliverAll(s, n);
      Go(s, acts, Delivered(n), Drain);
      acts, w := acts + [Drain], Next(AS_WRITTEN, s, Delivered(n), Drain);
    } else {
      acts, w := HandleMany(s, n, k - 1);
      HandleOne(s, n, k - 1, acts, w);
      acts, w := acts + [HandleNext], Next(AS_WRITTEN, s, w, HandleNext);
    }
  }

  /** The tick ends, whether or not the timer goes on. */
  lemma EndTick(s: Settings, n: nat, acts: seq<Action>, w: World) returns (acts': seq<Action>, w': World)
    requires Reaches(AS_WRITTEN, s, acts, w) && w.pc == Handling && w.pending == [] && Quiet(n, w)
    ensures Reaches(AS_WRITTEN, s, acts', w') && w'.pc == Between && w'.pending == [] && Quiet(n, w')
    ensures w'.a.entries.Keys == w.a.entries.Keys
  {
    Go(s, acts, w, Animate);
    acts', w' := acts + [Animate], Next(AS_WRITTEN, s, w, Animate);
    Go(s, acts', w', ReadAnimating);
    acts', w' := acts' + [ReadAnimating], Next(AS_WRITTEN, s, w', ReadAnimating);
    if w'.pc == AskFirst {
      Go(s, acts', w', ReadCounter);
      acts', w' := acts' + [ReadCounter], Next(AS_WRITTEN, s, w', ReadCounter);
      Go(s, acts', w', ReadInbox);
      acts', w' := acts' + [ReadInbox], Next(AS_WRITTEN, s, w', ReadInbox);
      Go(s, acts', w', StopTimer);
      acts', w' := acts' + [StopTimer], Next(AS_WRITTEN, s, w', StopTimer);
    }
  }

  /** Whatever the settings, some run ends between two ticks with a GIF that the cache dropped, that
      did not fail and that is not on its way, and hovering over it does nothing at all. */
  lemma DroppedIsNotFetchedAgain(s: Settings) returns (acts: seq<Action>, w: World, url: Url)
    ensures Reaches(AS_WRITTEN, s, acts, w) && w.pc == Between
    ensures Forgotten(w, url) && !FetchBegun(w.a, url).1 && Hovered(w.a, url) == w.a
  {
    var n := Capacity(s.maxEntries) + 1;
    acts, w := HandleMany(s, n, n);
    var queue := w.queue;
    forall i | 0 <= i < |queue| ensures queue[i] != Name(0) { assert |queue[i]| > 0; }
    InitInv(s);
    RunInv(s, Init(), acts);
    assert Name(0) !in w.a.entries;
    acts, w := EndTick(s, n, acts, w);
    url := Name(0);
    assert w.issued[0..][0] == url;
    FetchedAgainOnlyAfterClear(s, acts, url);
  }
}
