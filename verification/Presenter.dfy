/** The presenter's card and pop-out state (client/src/dcomp_presenter.rs). While the video is in the
    pop-out window, card geometry is kept and not applied. Windows calls are taken to succeed. */
module Presenter {
  import opened ContainFit
  import opened Wrappers

  datatype State = State(
    last: Option<Geometry>, geometrySize: nat, window: Option<(real, real)>, streamSize: nat,
    contentVisible: bool, picture: Picture, shown: bool)

  datatype Op =
    | Update(g: Geometry)
    | Refresh
    | PopOut(w: real, h: real)
    | ResizeWindow(w: real, h: real)
    | BackToCard
    | SetVisible(visible: bool)
    | StreamResized(packed: nat)      // by the present thread

  // ----- what each method does to the state -----

  function ApplyCard(s: State, g: Geometry): State {
    var t := s.(geometrySize := s.streamSize);
    var (sw, sh) := UnpackSize(s.streamSize);
    if sw == 0 || sh == 0 then t
    else if !InView(g) then t.(shown := false)
    else t.(shown := true, picture := CardPicture(g, sw as real, sh as real))
  }

  function ApplyWindow(s: State, w: real, h: real): State {
    var t := s.(geometrySize := s.streamSize);
    var (sw, sh) := UnpackSize(s.streamSize);
    if sw == 0 || sh == 0 || w <= 0.0 || h <= 0.0 then t
    else t.(shown := s.contentVisible || s.shown, picture := WindowPicture(w, h, sw as real, sh as real))
  }

  function Updated(s: State, g: Geometry): State {
    var t := s.(last := Some(g));
    if s.window.Some? then t else ApplyCard(t, g)
  }

  function Step(s: State, op: Op): State {
    match op
    case Update(g) => Updated(s, g)
    case Refresh =>
      if s.streamSize == s.geometrySize then s
      else if s.window.Some? then ApplyWindow(s, s.window.value.0, s.window.value.1)
      else if s.last.Some? then Updated(s, s.last.value)
      else s.(geometrySize := s.streamSize)
    case PopOut(w, h) => if s.window.Some? then s else ApplyWindow(s.(window := Some((w, h))), w, h)
    case ResizeWindow(w, h) => if s.window.None? then s else ApplyWindow(s.(window := Some((w, h))), w, h)
    case BackToCard =>
      if s.window.None? then s
      else if s.last.Some? then Updated(s.(window := None), s.last.value)
      else s.(window := None, geometrySize := s.streamSize)
    case SetVisible(visible) => s.(contentVisible := visible, shown := visible)
    case StreamResized(packed) => s.(streamSize := packed)
  }

  function Run(s: State, ops: seq<Op>): State
    decreases |ops|
  {
    if ops == [] then s else Run(Step(s, ops[0]), ops[1..])
  }

  function Fresh(packed: nat, picture: Picture): State { State(None, packed, None, packed, true, picture, true) }

  // ----- the class -----

  class DCompPresenter {
    var lastGeometry: Option<Geometry>
    var geometrySize: nat
    var windowTarget: Option<(real, real)>
    var streamSize: nat
    var contentVisible: bool
    var picture: Picture
    var shown: bool

    ghost function View(): State
      reads this
    {
      State(lastGeometry, geometrySize, windowTarget, streamSize, contentVisible, picture, shown)
    }

    constructor (packed: nat, first: Picture)
      ensures View() == Fresh(packed, first)
    {
      lastGeometry := None;
      geometrySize := packed;
      windowTarget := None;
      streamSize := packed;
      contentVisible := true;
      picture := first;
      shown := true;
    }

    method UpdateGeometry(g: Geometry) returns (ok: bool)
      modifies this
      ensures View() == Step(old(View()), Update(g))
      ensures !ok <==> windowTarget.None? && (UnpackSize(streamSize).0 == 0 || UnpackSize(streamSize).1 == 0)
    {
      lastGeometry := Some(g);
      if windowTarget.Some? { return true; }
      geometrySize := streamSize;
      var (sw, sh) := UnpackSize(streamSize);
      if sw == 0 || sh == 0 { return false; }
      if !InView(g) {
        shown := false;
        return true;
      }
      shown := true;
      picture := CardPicture(g, sw as real, sh as real);
      ok := true;
    }

    method RefreshGeometryIfResized()
      modifies this
      ensures View() == Step(old(View()), Refresh)
    {
      if streamSize == geometrySize { return; }
      if windowTarget.Some? {
        ApplyWindowGeometry(windowTarget.value.0, windowTarget.value.1);
        return;
      }
      if lastGeometry.Some? {
        var _ := UpdateGeometry(lastGeometry.value);
      } else {
        geometrySize := streamSize;
      }
    }

    method ApplyWindowGeometry(w: real, h: real)
      modifies this
      ensures View() == ApplyWindow(old(View()), w, h)
    {
      geometrySize := streamSize;
      var (sw, sh) := UnpackSize(streamSize);
      if sw == 0 || sh == 0 || w <= 0.0 || h <= 0.0 { return; }
      if contentVisible { shown := true; }
      picture := WindowPicture(w, h, sw as real, sh as real);
    }

    method ShowInWindow(w: real, h: real)
      modifies this
      ensures View() == Step(old(View()), PopOut(w, h))
    {
      if windowTarget.Some? { return; }
      windowTarget := Some((w, h));
      ApplyWindowGeometry(w, h);
    }

    method ResizeWindowTo(w: real, h: real)
      modifies this
      ensures View() == Step(old(View()), ResizeWindow(w, h))
    {
      if windowTarget.None? { return; }
      windowTarget := Some((w, h));
      ApplyWindowGeometry(w, h);
    }

    method ShowInCard()
      modifies this
      ensures View() == Step(old(View()), BackToCard)
    {
      if windowTarget.None? { return; }
      windowTarget := None;
      if lastGeometry.Some? {
        var _ := UpdateGeometry(lastGeometry.value);
      } else {
        geometrySize := streamSize;
      }
    }

    method SetContentVisible(visible: bool)
      modifies this
      ensures View() == Step(old(View()), SetVisible(visible))
    {
      contentVisible := visible;
      shown := visible;
    }
  }

  // ----- the direct rule -----

  /** The latest geometry that the card was given in a run. */
  function LatestGeometry(ops: seq<Op>): Option<Geometry> {
    if ops == [] then None
    else if ops[|ops| - 1].Update? then Some(ops[|ops| - 1].g)
    else LatestGeometry(ops[..|ops| - 1])
  }

  /** The pop-out window's latest size, while there is a window. */
  function LatestWindow(ops: seq<Op>): Option<(real, real)> {
    if ops == [] then None
    else
      var before := LatestWindow(ops[..|ops| - 1]);
      match ops[|ops| - 1]
      case PopOut(w, h) => if before.Some? then before else Some((w, h))
      case ResizeWindow(w, h) => if before.Some? then Some((w, h)) else None
      case BackToCard => None
      case _ => before
  }

  /** The stream's latest size. */
  function LatestStream(ops: seq<Op>, first: nat): nat {
    if ops == [] then first
    else if ops[|ops| - 1].StreamResized? then ops[|ops| - 1].packed
    else LatestStream(ops[..|ops| - 1], first)
  }

  /** Card updates look at the stream size on the card only; a window can be resized or left only
      when there is one, and opened only when there is none. */
  predicate Looks(op: Op, inWindow: bool) {
    match op
    case Update(_) => !inWindow
    case Refresh => true
    case PopOut(_, _) => !inWindow
    case ResizeWindow(_, _) => inWindow
    case BackToCard => inWindow
    case _ => false
  }

  /** The stream's size at the latest operation that looked at it. */
  function LatestLook(ops: seq<Op>, first: nat): nat {
    if ops == [] then first
    else
      var before := ops[..|ops| - 1];
      if Looks(ops[|ops| - 1], LatestWindow(before).Some?) then LatestStream(before, first)
      else LatestLook(before, first)
  }

  /** The picture that the latest sizes call for at once, where they call for one. */
  function DirectPicture(g: Option<Geometry>, window: Option<(real, real)>, size: nat): Option<Picture> {
    var (sw, sh) := UnpackSize(size);
    if sw == 0 || sh == 0 then None
    else if window.Some? then
      (if window.value.0 > 0.0 && window.value.1 > 0.0
       then Some(WindowPicture(window.value.0, window.value.1, sw as real, sh as real)) else None)
    else if g.Some? && InView(g.value) then Some(CardPicture(g.value, sw as real, sh as real))
    else None
  }

  ghost predicate Follows(s: State, ops: seq<Op>, first: nat) {
    && s.last == LatestGeometry(ops) && s.window == LatestWindow(ops)
    && s.streamSize == LatestStream(ops, first) && s.geometrySize == LatestLook(ops, first)
    && (DirectPicture(s.last, s.window, s.geometrySize).Some? ==>
          s.picture == DirectPicture(s.last, s.window, s.geometrySize).value)
  }

  lemma LatestAfter(ops: seq<Op>, op: Op, first: nat)
    ensures LatestGeometry(ops + [op]) == if op.Update? then Some(op.g) else LatestGeometry(ops)
    ensures LatestStream(ops + [op], first) == if op.StreamResized? then op.packed else LatestStream(ops, first)
    ensures LatestLook(ops + [op], first)
            == if Looks(op, LatestWindow(ops).Some?) then LatestStream(ops, first) else LatestLook(ops, first)
    ensures LatestWindow(ops + [op]) == match op
                                        case PopOut(w, h) =>
                                          if LatestWindow(ops).Some? then LatestWindow(ops) else Some((w, h))
                                        case ResizeWindow(w, h) => if LatestWindow(ops).Some? then Some((w, h)) else None
                                        case BackToCard => None
                                        case _ => LatestWindow(ops)
  {
    assert (ops + [op])[..|ops|] == ops;
  }

  lemma FollowsStep(s: State, ops: seq<Op>, op: Op, first: nat)
    requires Follows(s, ops, first)
    ensures Follows(Step(s, op), ops + [op], first)
  {
    LatestAfter(ops, op, first);
  }

  lemma {:induction false} RunFollows(s: State, done: seq<Op>, ops: seq<Op>, first: nat)
    requires Follows(s, done, first)
    ensures Follows(Run(s, ops), done + ops, first)
    decreases |ops|
  {
    if ops == [] {
      assert done + ops == done;
    } else {
      FollowsStep(s, done, ops[0], first);
      RunFollows(Step(s, ops[0]), done + [ops[0]], ops[1..], first);
      assert done + [ops[0]] + ops[1..] == done + ops;
    }
  }

  /** Deferring loses nothing: after any run, wherever the latest geometry, window and looked-at
      stream size call for a picture, the visual has exactly that picture. */
  lemma DeferredIsDirect(packed: nat, picture: Picture, ops: seq<Op>)
    ensures var s := Run(Fresh(packed, picture), ops);
            var wanted := DirectPicture(LatestGeometry(ops), LatestWindow(ops), LatestLook(ops, packed));
            wanted.Some? ==> s.picture == wanted.value
  {
    RunFollows(Fresh(packed, picture), [], ops, packed);
    assert [] + ops == ops;
  }

  /** After a refresh the picture is the one for the stream's size at that moment. */
  lemma RefreshCatchesUp(packed: nat, picture: Picture, ops: seq<Op>)
    ensures var s := Run(Fresh(packed, picture), ops + [Refresh]);
            var wanted := DirectPicture(LatestGeometry(ops), LatestWindow(ops), LatestStream(ops, packed));
            wanted.Some? ==> s.picture == wanted.value
  {
    DeferredIsDirect(packed, picture, ops + [Refresh]);
    assert (ops + [Refresh])[..|ops|] == ops;
  }

  function Updates(gs: seq<Geometry>): (ops: seq<Op>)
    ensures |ops| == |gs|
  {
    seq(|gs|, i requires 0 <= i < |gs| => Update(gs[i]))
  }

  /** In the window, card updates only replace the kept geometry. */
  lemma {:induction false} DeferredUpdates(s: State, gs: seq<Geometry>, g: Geometry)
    requires s.window.Some?
    ensures Run(s, Updates(gs + [g])) == s.(last := Some(g))
    decreases |gs|
  {
    var ops := Updates(gs + [g]);
    if gs == [] {
      assert ops == [Update(g)] && ops[1..] == [];
    } else {
      assert ops[1..] == Updates(gs[1..] + [g]);
      DeferredUpdates(Step(s, ops[0]), gs[1..], g);
    }
  }

  /** Popping out and coming back, whatever card geometry arrived meanwhile, leaves the card as if it
      had been updated in place. */
  lemma PopOutAndBack(s: State, w: real, h: real, gs: seq<Geometry>, g: Geometry)
    requires s.window.None? && InView(g)
    ensures var t := Step(Run(Step(s, PopOut(w, h)), Updates(gs + [g])), BackToCard);
            t.last == Some(g) && t.window == None && t.geometrySize == s.streamSize
            && (UnpackSize(s.streamSize).0 > 0 && UnpackSize(s.streamSize).1 > 0 ==>
                  t.picture == Step(s, Update(g)).picture && t.shown)
  {
    var out := Step(s, PopOut(w, h));
    DeferredUpdates(out, gs, g);
  }

  // ----- the pause card -----

  predicate NonEmpty(packed: nat) { UnpackSize(packed).0 > 0 && UnpackSize(packed).1 > 0 }

  /** The card geometry that an operation applies after the run `ops`, if any: a card update on the
      card, a refresh there that finds a new stream size, and the way back from the window. */
  function Applied(ops: seq<Op>, op: Op, first: nat): Option<Geometry> {
    match op
    case Update(g) => if LatestWindow(ops).None? then Some(g) else None
    case Refresh =>
      if LatestWindow(ops).None? && LatestStream(ops, first) != LatestLook(ops, first) then LatestGeometry(ops) else None
    case BackToCard => if LatestWindow(ops).Some? then LatestGeometry(ops) else None
    case _ => None
  }

  /** The operation puts the video on the card, where it is in view. */
  predicate ShowsOnCard(ops: seq<Op>, op: Op, first: nat) {
    && NonEmpty(LatestStream(ops, first))
    && Applied(ops, op, first).Some? && InView(Applied(ops, op, first).value)
  }

  /** Which operations show a video that the pause card hides: the switch itself, and whatever puts
      it on the card in view, because that does not look at the switch. */
  lemma ShowsPaused(s: State, ops: seq<Op>, op: Op, first: nat)
    requires Follows(s, ops, first) && !s.contentVisible && !s.shown
    ensures Step(s, op).shown <==> op == SetVisible(true) || ShowsOnCard(ops, op, first)
    ensures op != SetVisible(true) ==> !Step(s, op).contentVisible
  {
  }

  ghost predicate HiddenFrom(s: State, ops: seq<Op>) {
    forall k :: 0 <= k <= |ops| ==> !Run(s, ops[..k]).shown
  }

  ghost predicate NeverOnCard(done: seq<Op>, ops: seq<Op>, first: nat) {
    forall k :: 0 <= k < |ops| ==> !ShowsOnCard(done + ops[..k], ops[k], first)
  }

  lemma HiddenStep(s: State, ops: seq<Op>)
    requires ops != []
    ensures HiddenFrom(s, ops) <==> !s.shown && HiddenFrom(Step(s, ops[0]), ops[1..])
  {
    var rest := ops[1..];
    assert ops[..0] == [];
    forall k | 0 <= k <= |rest| ensures Run(Step(s, ops[0]), rest[..k]) == Run(s, ops[..k + 1]) {
      assert ops[..k + 1][1..] == rest[..k];
    }
    if HiddenFrom(s, ops) {
      assert !Run(s, ops[..0]).shown;
      forall k | 0 <= k <= |rest| ensures !Run(Step(s, ops[0]), rest[..k]).shown { assert !Run(s, ops[..k + 1]).shown; }
    }
    if !s.shown && HiddenFrom(Step(s, ops[0]), rest) {
      forall k | 0 <= k <= |ops| ensures !Run(s, ops[..k]).shown {
        if k > 0 { assert !Run(Step(s, ops[0]), rest[..k - 1]).shown; }
      }
    }
  }

  lemma NeverOnCardStep(done: seq<Op>, ops: seq<Op>, first: nat)
    requires ops != []
    ensures NeverOnCard(done, ops, first)
            <==> !ShowsOnCard(done, ops[0], first) && NeverOnCard(done + [ops[0]], ops[1..], first)
  {
    var rest := ops[1..];
    assert done + ops[..0] == done;
    forall k | 0 <= k < |rest| ensures done + [ops[0]] + rest[..k] == done + ops[..k + 1] && rest[k] == ops[k + 1] {}
    if NeverOnCard(done, ops, first) {
      assert !ShowsOnCard(done + ops[..0], ops[0], first);
      forall k | 0 <= k < |rest| ensures !ShowsOnCard(done + [ops[0]] + rest[..k], rest[k], first) {
        assert !ShowsOnCard(done + ops[..k + 1], ops[k + 1], first);
      }
    }
    if !ShowsOnCard(done, ops[0], first) && NeverOnCard(done + [ops[0]], rest, first) {
      forall k | 0 <= k < |ops| ensures !ShowsOnCard(done + ops[..k], ops[k], first) {
        if k > 0 { assert !ShowsOnCard(done + [ops[0]] + rest[..k - 1], rest[k - 1], first); }
      }
    }
  }

  lemma {:induction false} StaysHidden(s: State, done: seq<Op>, ops: seq<Op>, first: nat)
    requires Follows(s, done, first) && !s.contentVisible && !s.shown && SetVisible(true) !in ops
    ensures HiddenFrom(s, ops) <==> NeverOnCard(done, ops, first)
    decreases |ops|
  {
    if ops != [] {
      ShowsPaused(s, done, ops[0], first);
      FollowsStep(s, done, ops[0], first);
      HiddenStep(s, ops);
      NeverOnCardStep(done, ops, first);
      var t := Step(s, ops[0]);
      if t.shown {
        assert t == Run(t, ops[1..][..0]);
      } else {
        StaysHidden(t, done + [ops[0]], ops[1..], first);
      }
    }
  }

  lemma {:induction false} RunOne(s: State, ops: seq<Op>, op: Op)
    ensures Run(s, ops + [op]) == Step(Run(s, ops), op)
    decreases |ops|
  {
    if ops == [] {
      assert ([] + [op])[1..] == [];
      assert Run(s, [op]) == Run(Step(s, op), [op][1..]);
    } else {
      assert (ops + [op])[1..] == ops[1..] + [op];
      RunOne(Step(s, ops[0]), ops[1..], op);
    }
  }

  /** Over any run after a pause, until the video is switched on again: it stays hidden throughout if
      and only if no operation puts it on the card in view. */
  lemma PauseHolds(packed: nat, picture: Picture, before: seq<Op>, ops: seq<Op>)
    requires SetVisible(true) !in ops
    ensures var done := before + [SetVisible(false)];
            HiddenFrom(Run(Fresh(packed, picture), done), ops) <==> NeverOnCard(done, ops, packed)
  {
    var done, s := before + [SetVisible(false)], Run(Fresh(packed, picture), before);
    RunFollows(Fresh(packed, picture), [], done, packed);
    assert [] + done == done;
    RunOne(Fresh(packed, picture), before, SetVisible(false));
    StaysHidden(Run(Fresh(packed, picture), done), done, ops, packed);
  }

  /** A card update with the card in view is one: the paused video is shown. */
  lemma PausedIsShown(packed: nat, picture: Picture, g: Geometry)
    requires NonEmpty(packed) && InView(g)
    ensures var s := Run(Fresh(packed, picture), [SetVisible(false), Update(g)]); s.shown && !s.contentVisible
  {
    var s := Fresh(packed, picture);
    assert [SetVisible(false), Update(g)] == [SetVisible(false)] + [Update(g)];
    RunOne(s, [SetVisible(false)], Update(g));
    RunOne(s, [], SetVisible(false));
    assert [] + [SetVisible(false)] == [SetVisible(false)];
  }
}
