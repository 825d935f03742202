/** A timer callback that nothing interleaves with, as a run of the protocol's atomic steps
    (client/src/gif_animator.rs). */
module GifTick {
  import opened GifAnimation
  import opened GifProtocol

  lemma {:induction false} HandleAllFront(a: Anim, d: Delivery, ds: seq<Delivery>, s: Settings)
    ensures HandleAll(a, [d] + ds, s) == HandleAll(Handle(a, d, s), ds, s)
  {
    if ds == [] {
      assert [d] + ds == [] + [d];
      HandleAllSnoc(a, [], d, s);
    } else {
      var before, last := ds[..|ds| - 1], ds[|ds| - 1];
      HandleAllFront(a, d, before, s);
      assert [d] + ds == ([d] + before) + [last] && ds == before + [last];
      HandleAllSnoc(a, [d] + before, last, s);
      HandleAllSnoc(Handle(a, d, s), before, last, s);
    }
  }

  /** One run after another. */
  lemma {:induction false} Then(s: Settings, w: World, xs: seq<Action>, ys: seq<Action>)
    requires Legal(AS_WRITTEN, s, w, xs) && Legal(AS_WRITTEN, s, Run(AS_WRITTEN, s, w, xs), ys)
    ensures Legal(AS_WRITTEN, s, w, xs + ys)
    ensures Run(AS_WRITTEN, s, w, xs + ys) == Run(AS_WRITTEN, s, Run(AS_WRITTEN, s, w, xs), ys)
    decreases |xs|
  {
    if xs == [] {
      assert xs + ys == ys;
    } else {
      assert (xs + ys)[0] == xs[0] && (xs + ys)[1..] == xs[1..] + ys;
      Then(s, Next(AS_WRITTEN, s, w, xs[0]), xs[1..], ys);
    }
  }

  lemma One(s: Settings, w: World, act: Action)
    requires CacheOk(w.a.entries, w.a.nextSeq, s.maxLoops) && Enabled(AS_WRITTEN, w, act)
    ensures Legal(AS_WRITTEN, s, w, [act]) && Run(AS_WRITTEN, s, w, [act]) == Next(AS_WRITTEN, s, w, act)
  {
    assert [act][1..] == [];
  }

  /** `acts` leads from `w` to `v`. */
  ghost predicate Leads(s: Settings, w: World, acts: seq<Action>, v: World) {
    Legal(AS_WRITTEN, s, w, acts) && Run(AS_WRITTEN, s, w, acts) == v
  }

  lemma LeadsOn(s: Settings, w: World, acts: seq<Action>, v: World, act: Action)
    requires Leads(s, w, acts, v) && CacheOk(v.a.entries, v.a.nextSeq, s.maxLoops) && Enabled(AS_WRITTEN, v, act)
    ensures Leads(s, w, acts + [act], Next(AS_WRITTEN, s, v, act))
  {
    One(s, v, act);
    Then(s, w, acts, [act]);
  }

  lemma LeadsThen(s: Settings, w: World, xs: seq<Action>, v: World, ys: seq<Action>, u: World)
    requires Leads(s, w, xs, v) && Leads(s, v, ys, u)
    ensures Leads(s, w, xs + ys, u)
  {
    Then(s, w, xs, ys);
  }

  // ----- the results, one by one -----

  function Handles(n: nat): (acts: seq<Action>)
    ensures |acts| == n && forall i :: 0 <= i < n ==> acts[i] == HandleNext
  {
    if n == 0 then [] else [HandleNext] + Handles(n - 1)
  }

  lemma {:induction false} HandlesRun(s: Settings, w: World) returns (v: World)
    requires DataInv(s, w) && w.pc == Handling
    ensures Leads(s, w, Handles(|w.pending|), v) && DataInv(s, v) && v.pc == Handling && v.pending == []
    ensures v.a == HandleAll(w.a, w.pending, s)
    decreases |w.pending|
  {
    if w.pending == [] {
      v := w;
    } else {
      var next := Next(AS_WRITTEN, s, w, HandleNext);
      DataStep(s, w, HandleNext);
      v := HandlesRun(s, next);
      One(s, w, HandleNext);
      LeadsThen(s, w, [HandleNext], next, Handles(|next.pending|), v);
      HandleAllFront(w.a, w.pending[0], w.pending[1..], s);
      assert [w.pending[0]] + w.pending[1..] == w.pending;
    }
  }

  // ----- the question whether to stop -----

  /** As far as the answers let it go on. */
  function Asks(a: Anim): seq<Action> {
    if AnyAnimating(a.entries) then [ReadAnimating]
    else if a.inFlight != 0 then [ReadAnimating] + [ReadCounter]
    else if a.inbox != [] then [ReadAnimating] + [ReadCounter] + [ReadInbox]
    else [ReadAnimating] + [ReadCounter] + [ReadInbox] + [StopTimer]
  }

  lemma AsksRun(s: Settings, w: World) returns (v: World)
    requires CacheOk(w.a.entries, w.a.nextSeq, s.maxLoops) && w.pc == AskAnimating
    ensures Leads(s, w, Asks(w.a), v) && v.pc == Between && v.a == StoppedIfIdle(w.a)
  {
    v := Next(AS_WRITTEN, s, w, ReadAnimating);
    One(s, w, ReadAnimating);
    if !AnyAnimating(w.a.entries) {
      LeadsOn(s, w, [ReadAnimating], v, ReadCounter);
      v := Next(AS_WRITTEN, s, v, ReadCounter);
      if w.a.inFlight == 0 {
        LeadsOn(s, w, [ReadAnimating] + [ReadCounter], v, ReadInbox);
        v := Next(AS_WRITTEN, s, v, ReadInbox);
        if w.a.inbox == [] {
          LeadsOn(s, w, [ReadAnimating] + [ReadCounter] + [ReadInbox], v, StopTimer);
          v := Next(AS_WRITTEN, s, v, StopTimer);
        }
      }
    }
  }

  /** Drain, handle each of the `n` results, animate, and ask. */
  function TickActions(n: nat, a: Anim): seq<Action> { [Drain] + Handles(n) + [Animate] + Asks(a) }

  /** A tick is the protocol's run of those steps: every drained result is handled by one of them. */
  lemma TickIsRun(s: Settings, w: World) returns (v: World, animated: World)
    requires DataInv(s, w) && w.pc == Between && w.a.timerRunning
    ensures Leads(s, w, TickActions(|w.a.inbox|, animated.a), v)
    ensures v.pc == Between && v.a == Tick(w.a, s)
  {
    var drained := Next(AS_WRITTEN, s, w, Drain);
    DataStep(s, w, Drain);
    One(s, w, Drain);
    var handled := HandlesRun(s, drained);
    LeadsThen(s, w, [Drain], drained, Handles(|w.a.inbox|), handled);
    animated := Next(AS_WRITTEN, s, handled, Animate);
    LeadsOn(s, w, [Drain] + Handles(|w.a.inbox|), handled, Animate);
    AnimatedKeepsCache(handled.a, s);
    v := AsksRun(s, animated);
    LeadsThen(s, w, [Drain] + Handles(|w.a.inbox|) + [Animate], animated, Asks(animated.a), v);
  }
}
