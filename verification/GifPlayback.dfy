/** Playback of one decoded GIF: the part of the timer tick in
    client/src/gif_animator.rs that advances a single cache entry. */
module GifPlayback {
  import opened Wrappers

  /** An opaque picture handle. */
  datatype Image = Image(handle: int)

  /** What a fetch delivers. The decoder answers `None` rather than an empty GIF, and pushes a
      delay for every frame it keeps (client/src/image_cache.rs:48-57). */
  datatype GifData = GifData(frames: seq<Image>, delays: seq<nat>) {
    predicate Valid() { 0 < |frames| <= |delays| }
  }

  datatype Entry = Entry(frames: seq<Image>, delays: seq<nat>, current: nat, elapsed: nat,
                         loopsDone: nat, paused: bool, seqNo: nat)

  /** The number of loops after which an entry really pauses: the limit is tested after the first
      loop at the earliest, so a limit of 0 acts as 1. */
  function LoopCap(limit: nat): nat { if limit == 0 then 1 else limit }

  predicate EntryOk(e: Entry, limit: Option<nat>) {
    && 0 < |e.frames| <= |e.delays|
    && e.current < |e.frames|
    && (e.paused ==> limit.Some? && e.current == 0 && e.loopsDone == LoopCap(limit.value) && |e.frames| > 1)
    && (!e.paused && limit.Some? ==> e.loopsDone < LoopCap(limit.value))
  }

  predicate Animating(e: Entry) { !e.paused && |e.frames| > 1 }

  function NewEntry(d: GifData, seqNo: nat): Entry {
    Entry(d.frames, d.delays, 0, 0, 0, false, seqNo)
  }

  /** One timer tick for one entry, and the frame handed to the UI, if any. */
  function Advance(e: Entry, tick: nat, limit: Option<nat>): (r: (Entry, Option<Image>))
    requires EntryOk(e, limit)
    ensures EntryOk(r.0, limit)
    ensures r.0.seqNo == e.seqNo && r.0.frames == e.frames && r.0.delays == e.delays
    ensures r.1.Some? ==> r.1.value == r.0.frames[r.0.current]
  {
    if e.paused || |e.frames| <= 1 then (e, None)
    else
      var elapsed := e.elapsed + tick;
      var delay := e.delays[e.current];
      if elapsed < delay then (e.(elapsed := elapsed), None)
      else
        var next := (e.current + 1) % |e.frames|;
        var moved := e.(elapsed := elapsed - delay, current := next);
        if next < e.current then
          var looped := moved.(loopsDone := e.loopsDone + 1);
          if limit.Some? && looped.loopsDone >= limit.value then (looped.(paused := true), None)
          else (looped, Some(e.frames[next]))
        else (moved, Some(e.frames[next]))
  }

  function Resumed(e: Entry): Entry {
    if e.paused then e.(paused := false, loopsDone := 0, elapsed := 0) else e
  }

  /** `k` ticks in a row. */
  function Ticks(e: Entry, tick: nat, limit: Option<nat>, k: nat): (r: Entry)
    requires EntryOk(e, limit)
    ensures EntryOk(r, limit) && r.frames == e.frames && r.delays == e.delays && r.seqNo == e.seqNo
  {
    if k == 0 then e else Advance(Ticks(e, tick, limit, k - 1), tick, limit).0
  }

  // ----- conservation of time -----

  function Sum(xs: seq<nat>): nat {
    if xs == [] then 0 else Sum(xs[..|xs| - 1]) + xs[|xs| - 1]
  }

  function LoopTime(e: Entry): nat
    requires |e.frames| <= |e.delays|
  {
    Sum(e.delays[..|e.frames|])
  }

  /** The time an entry has been played since its start or last resume: the delays of the frames
      already left, over all loops, plus the time spent on the frame on screen. */
  function Played(e: Entry): nat
    requires e.current < |e.frames| <= |e.delays|
  {
    e.loopsDone * LoopTime(e) + Sum(e.delays[..e.current]) + e.elapsed
  }

  lemma SumStep(xs: seq<nat>, k: nat)
    requires k < |xs|
    ensures Sum(xs[..k + 1]) == Sum(xs[..k]) + xs[k]
  {
    assert xs[..k + 1][..k] == xs[..k];
  }

  lemma NextFrame(c: nat, n: nat)
    requires c < n
    ensures (c + 1) % n == if c + 1 == n then 0 else c + 1
  {
  }

  lemma OneMore(loops: nat, time: nat)
    ensures (loops + 1) * time == loops * time + time
  {
  }

  /** A tick adds exactly `tick` to the time played of an animating entry and leaves any other
      entry alone. */
  lemma AdvanceConservesTime(e: Entry, tick: nat, limit: Option<nat>)
    requires EntryOk(e, limit)
    ensures Played(Advance(e, tick, limit).0) == Played(e) + if Animating(e) then tick else 0
  {
    if Animating(e) {
      NextFrame(e.current, |e.frames|);
      SumStep(e.delays, e.current);
      assert e.delays[..0] == [];
      OneMore(e.loopsDone, LoopTime(e));
    }
  }

  lemma AnimatingIsPrefix(e: Entry, tick: nat, limit: Option<nat>, j: nat, k: nat)
    requires EntryOk(e, limit) && j <= k && Animating(Ticks(e, tick, limit, k))
    ensures Animating(Ticks(e, tick, limit, j))
  {
    if j < k { AnimatingIsPrefix(e, tick, limit, j, k - 1); }
  }

  /** While an entry animates, elapsed time plus the delays of the frames left behind is exactly
      `tick` per tick. */
  lemma {:induction false} PlaybackConservesTime(e: Entry, tick: nat, limit: Option<nat>, k: nat)
    requires EntryOk(e, limit)
    requires k == 0 || Animating(Ticks(e, tick, limit, k - 1))
    ensures Played(Ticks(e, tick, limit, k)) == Played(e) + k * tick
  {
    if k > 0 {
      if k > 1 { AnimatingIsPrefix(e, tick, limit, k - 2, k - 1); }
      PlaybackConservesTime(e, tick, limit, k - 1);
      AdvanceConservesTime(Ticks(e, tick, limit, k - 1), tick, limit);
      assert k * tick == (k - 1) * tick + tick;
    }
  }

  // ----- a loop limit is reached in bounded time -----

  /** The most ticks one frame can stay on screen: max(1, ceil(delay / tick)). */
  function FrameTicks(delay: nat, tick: nat): (k: nat)
    requires tick > 0
    ensures k >= 1
    decreases delay
  {
    if delay <= tick then 1 else 1 + FrameTicks(delay - tick, tick)
  }

  lemma {:induction false} FrameTicksIsCeiling(delay: nat, tick: nat)
    requires tick > 0
    ensures delay <= FrameTicks(delay, tick) * tick
    ensures delay > 0 ==> (FrameTicks(delay, tick) - 1) * tick < delay
    decreases delay
  {
    if delay > tick {
      FrameTicksIsCeiling(delay - tick, tick);
      var k := FrameTicks(delay - tick, tick);
      assert (k + 1) * tick == k * tick + tick && k * tick == (k - 1) * tick + tick;
    }
  }

  lemma FrameTicksMonotone(a: nat, b: nat, tick: nat)
    requires tick > 0 && a <= b
    ensures FrameTicks(a, tick) <= FrameTicks(b, tick)
    decreases b
  {
    if a > tick { FrameTicksMonotone(a - tick, b - tick, tick); }
  }

  function TicksFrom(delays: seq<nat>, tick: nat): nat
    requires tick > 0
  {
    if delays == [] then 0 else FrameTicks(delays[0], tick) + TicksFrom(delays[1..], tick)
  }

  function LoopTicks(e: Entry, tick: nat): nat
    requires tick > 0 && |e.frames| <= |e.delays|
  {
    TicksFrom(e.delays[..|e.frames|], tick)
  }

  /** `loops` loops of `l` ticks each. */
  function Times(loops: nat, l: nat): nat {
    if loops == 0 then 0 else Times(loops - 1, l) + l
  }

  lemma TimesIsProduct(loops: nat, l: nat)
    ensures Times(loops, l) == loops * l
  {
    if loops > 0 {
      TimesIsProduct(loops - 1, l);
      assert loops * l == (loops - 1) * l + l;
    }
  }

  /** What is left of the frame on screen. */
  function Remaining(e: Entry): nat
    requires e.current < |e.delays|
  {
    if e.delays[e.current] > e.elapsed then e.delays[e.current] - e.elapsed else 0
  }

  /** An upper bound on the ticks an entry needs until it pauses. */
  function TicksLeft(e: Entry, tick: nat, limit: nat): nat
    requires tick > 0 && EntryOk(e, Some(limit))
  {
    if !Animating(e) then 0
    else
      FrameTicks(Remaining(e), tick)
      + TicksFrom(e.delays[e.current + 1..|e.frames|], tick)
      + Times(LoopCap(limit) - e.loopsDone - 1, LoopTicks(e, tick))
  }

  lemma AdvanceCountsDown(e: Entry, tick: nat, limit: nat)
    requires tick > 0 && EntryOk(e, Some(limit)) && Animating(e)
    ensures TicksLeft(Advance(e, tick, Some(limit)).0, tick, limit) < TicksLeft(e, tick, limit)
  {
    var n, d := |e.frames|, e.delays[e.current];
    var r := Advance(e, tick, Some(limit)).0;
    NextFrame(e.current, n);
    if e.elapsed + tick >= d && r.current < |r.delays| {
      FrameTicksMonotone(Remaining(r), r.delays[r.current], tick);
      if e.current + 1 < n {
        assert e.delays[e.current + 1..n][1..] == e.delays[e.current + 2..n];
      } else if !r.paused {
        assert e.delays[..n][1..] == e.delays[1..n];
      }
    }
  }

  lemma {:induction false} PausesWithin(e: Entry, tick: nat, limit: nat, k: nat)
    requires tick > 0 && EntryOk(e, Some(limit))
    ensures Animating(Ticks(e, tick, Some(limit), k)) ==>
              TicksLeft(Ticks(e, tick, Some(limit), k), tick, limit) + k <= TicksLeft(e, tick, limit)
    ensures k >= TicksLeft(e, tick, limit) ==> !Animating(Ticks(e, tick, Some(limit), k))
  {
    if k > 0 {
      PausesWithin(e, tick, limit, k - 1);
      var p := Ticks(e, tick, Some(limit), k - 1);
      if Animating(p) { AdvanceCountsDown(p, tick, limit); }
    }
  }

  /** With a loop limit, a GIF that starts (or resumes) pauses after at most `limit` times the sum
      over its frames of max(1, ceil(delay / tick)) ticks, back on its first frame with exactly the
      limit of loops counted. */
  lemma LoopLimitedGifPauses(d: GifData, seqNo: nat, tick: nat, limit: nat, k: nat)
    requires d.Valid() && |d.frames| > 1 && tick > 0
    requires k >= LoopCap(limit) * TicksFrom(d.delays[..|d.frames|], tick)
    ensures var e := Ticks(NewEntry(d, seqNo), tick, Some(limit), k);
            e.paused && e.current == 0 && e.loopsDone == LoopCap(limit)
  {
    var e := NewEntry(d, seqNo);
    PausesWithin(e, tick, limit, k);
    var l := LoopTicks(e, tick);
    assert d.delays[..|d.frames|][1..] == d.delays[1..|d.frames|];
    TimesIsProduct(LoopCap(limit), l);
  }

  /** It is not paused before the delays of that many whole loops have passed. */
  lemma LoopLimitedGifPlaysInFull(d: GifData, seqNo: nat, tick: nat, limit: nat, k: nat)
    requires d.Valid() && Ticks(NewEntry(d, seqNo), tick, Some(limit), k).paused
    ensures k * tick >= LoopCap(limit) * Sum(d.delays[..|d.frames|])
  {
    var e := NewEntry(d, seqNo);
    var p := Ticks(e, tick, Some(limit), k);
    if k > 0 {
      if Ticks(e, tick, Some(limit), k - 1).paused {
        LoopLimitedGifPlaysInFull(d, seqNo, tick, limit, k - 1);
        assert k * tick >= (k - 1) * tick;
      } else {
        PlaybackConservesTime(e, tick, Some(limit), k);
        assert e.delays[..0] == [];
        assert Played(e) == 0;
      }
    }
  }

  /** Resuming a paused GIF makes it new again: it plays its whole loops once more and pauses in the
      same bounded time, back on its first frame. A GIF that is not paused is left alone. */
  lemma ResumeReplaysInFull(e: Entry, tick: nat, limit: nat, k: nat)
    requires EntryOk(e, Some(limit)) && e.paused && tick > 0
    requires k >= LoopCap(limit) * TicksFrom(e.delays[..|e.frames|], tick)
    ensures Resumed(e) == NewEntry(GifData(e.frames, e.delays), e.seqNo)
    ensures EntryOk(Resumed(e), Some(limit))
    ensures var r := Ticks(Resumed(e), tick, Some(limit), k); r == e.(elapsed := r.elapsed)
  {
    LoopLimitedGifPauses(GifData(e.frames, e.delays), e.seqNo, tick, limit, k);
  }

  // ----- the frame on screen and the frame a row is given -----

  datatype Op = TickOp | ResumeOp

  /** An entry with the number of the frame last handed to the UI; the first frame is handed over
      when the GIF arrives. */
  datatype Playing = Playing(entry: Entry, onScreen: nat)

  function Do(p: Playing, op: Op, tick: nat, limit: Option<nat>): (q: Playing)
    requires EntryOk(p.entry, limit)
    ensures EntryOk(q.entry, limit) && q.entry.frames == p.entry.frames
  {
    match op
    case TickOp =>
      var (e, frame) := Advance(p.entry, tick, limit);
      Playing(e, if frame.Some? then e.current else p.onScreen)
    case ResumeOp => p.(entry := Resumed(p.entry))
  }

  function Play(d: GifData, seqNo: nat, ops: seq<Op>, tick: nat, limit: Option<nat>): (p: Playing)
    requires d.Valid()
    ensures EntryOk(p.entry, limit) && p.entry.frames == d.frames
  {
    if ops == [] then Playing(NewEntry(d, seqNo), 0)
    else Do(Play(d, seqNo, ops[..|ops| - 1], tick, limit), ops[|ops| - 1], tick, limit)
  }

  /** The screen shows the frame the entry is on, or the last frame with the entry on its first: so
      when it pauses, because a pause hands nothing over. */
  predicate InStep(p: Playing) {
    && 0 < |p.entry.frames|
    && (p.entry.paused ==> p.onScreen != p.entry.current)
    && (p.onScreen != p.entry.current ==> p.entry.current == 0 && p.onScreen == |p.entry.frames| - 1)
  }

  lemma DoInStep(p: Playing, op: Op, tick: nat, limit: Option<nat>)
    requires EntryOk(p.entry, limit) && InStep(p)
    ensures var q := Do(p, op, tick, limit);
            && InStep(q)
            && (q.onScreen != q.entry.current <==>
                q.entry.paused || (p.onScreen != p.entry.current && q.entry.current == 0))
  {
    if op.TickOp? && Animating(p.entry) { NextFrame(p.entry.current, |p.entry.frames|); }
  }

  /** The entry at the start and after each step of a run. */
  function History(d: GifData, seqNo: nat, ops: seq<Op>, tick: nat, limit: Option<nat>): (h: seq<Entry>)
    requires d.Valid()
    ensures |h| == |ops| + 1 && h[|ops|] == Play(d, seqNo, ops, tick, limit).entry
  {
    (if ops == [] then [] else History(d, seqNo, ops[..|ops| - 1], tick, limit))
    + [Play(d, seqNo, ops, tick, limit).entry]
  }

  ghost predicate StaysFrom(h: seq<Entry>, k: nat)
    requires k < |h|
  {
    h[k].paused && forall j :: k <= j < |h| ==> h[j].current == 0
  }

  /** At some point the GIF was paused, and it has been on its first frame ever since. */
  ghost predicate PausedOnFirstFrame(h: seq<Entry>) {
    exists k :: 0 <= k < |h| && StaysFrom(h, k)
  }

  lemma PausedOnFirstStep(h: seq<Entry>, e: Entry)
    requires e.paused ==> e.current == 0
    ensures PausedOnFirstFrame(h + [e]) <==> e.paused || (PausedOnFirstFrame(h) && e.current == 0)
  {
    var h' := h + [e];
    if e.paused { assert StaysFrom(h', |h|); }
    if PausedOnFirstFrame(h) && e.current == 0 {
      var k :| 0 <= k < |h| && StaysFrom(h, k);
      assert StaysFrom(h', k);
    }
    if PausedOnFirstFrame(h') && !e.paused {
      var k :| 0 <= k < |h'| && StaysFrom(h', k);
      assert h'[|h|] == e;
      forall j | k <= j < |h| ensures h[j].current == 0 { assert h'[j] == h[j]; }
      assert StaysFrom(h, k);
    }
  }

  /** Whatever ticks and resumes a GIF has seen, the frame a rebuilt row is given is the frame on
      screen, unless the GIF has paused and not left its first frame since, resumed or not: then the
      screen still shows the last frame. */
  lemma {:induction false} CurrentIsOnScreen(d: GifData, seqNo: nat, ops: seq<Op>, tick: nat, limit: Option<nat>)
    requires d.Valid()
    ensures var p := Play(d, seqNo, ops, tick, limit);
            && InStep(p)
            && (p.onScreen == p.entry.current <==> !PausedOnFirstFrame(History(d, seqNo, ops, tick, limit)))
  {
    if ops == [] {
      PausedOnFirstStep([], NewEntry(d, seqNo));
    } else {
      var before := ops[..|ops| - 1];
      CurrentIsOnScreen(d, seqNo, before, tick, limit);
      DoInStep(Play(d, seqNo, before, tick, limit), ops[|ops| - 1], tick, limit);
      PausedOnFirstStep(History(d, seqNo, before, tick, limit), Play(d, seqNo, ops, tick, limit).entry);
    }
  }

  function OnlyTicks(k: nat): (ops: seq<Op>)
    ensures |ops| == k
  {
    seq(k, i requires 0 <= i < k => TickOp)
  }

  lemma {:induction false} PlayTicks(d: GifData, seqNo: nat, tick: nat, limit: Option<nat>, k: nat)
    requires d.Valid()
    ensures Play(d, seqNo, OnlyTicks(k), tick, limit).entry == Ticks(NewEntry(d, seqNo), tick, limit, k)
  {
    if k > 0 {
      PlayTicks(d, seqNo, tick, limit, k - 1);
      assert OnlyTicks(k)[..k - 1] == OnlyTicks(k - 1);
    }
  }

  /** Every GIF of several frames with a loop limit gets there: once it has paused, the screen shows
      its last frame and a rebuilt row is given its first. */
  lemma PausedShowsLast(d: GifData, seqNo: nat, tick: nat, limit: nat, k: nat)
    requires d.Valid() && |d.frames| > 1 && tick > 0
    requires k >= LoopCap(limit) * TicksFrom(d.delays[..|d.frames|], tick)
    ensures var p := Play(d, seqNo, OnlyTicks(k), tick, Some(limit));
            p.entry.current == 0 && p.onScreen == |d.frames| - 1
  {
    LoopLimitedGifPauses(d, seqNo, tick, limit, k);
    PlayTicks(d, seqNo, tick, Some(limit), k);
    CurrentIsOnScreen(d, seqNo, OnlyTicks(k), tick, Some(limit));
  }
}
