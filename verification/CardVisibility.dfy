/** Whether the card shows the video, over any run of the presenter (client/src/dcomp_presenter.rs). */
module CardVisibility {
  import opened ContainFit
  import opened Presenter
  import opened Wrappers

  /** The latest operation of a run that applied a card geometry. */
  function LatestApplied(ops: seq<Op>, first: nat): (a: Option<nat>)
    ensures a.Some? ==> a.value < |ops| && Applied(ops[..a.value], ops[a.value], first).Some?
    ensures forall j :: 0 <= j < |ops| && (a.Some? ==> a.value < j) ==> Applied(ops[..j], ops[j], first).None?
  {
    if ops == [] then None
    else
      var n := |ops| - 1;
      assert forall j :: 0 <= j < n ==> ops[..n][..j] == ops[..j] && ops[..n][j] == ops[j];
      if Applied(ops[..n], ops[n], first).Some? then Some(n) else LatestApplied(ops[..n], first)
  }

  /** The switch's latest position in a run, if it was used. */
  function LatestSwitch(ops: seq<Op>): Option<bool> {
    if ops == [] then None
    else if ops[|ops| - 1].SetVisible? then Some(ops[|ops| - 1].visible)
    else LatestSwitch(ops[..|ops| - 1])
  }

  /** What applying the latest geometry at `a` and the switch since then make of the video. */
  ghost predicate ShownBy(start: State, ops: seq<Op>, a: nat, first: nat, shown: bool)
    requires a < |ops|
  {
    var switch := LatestSwitch(ops[a + 1..]);
    && Applied(ops[..a], ops[a], first) == LatestGeometry(ops)
    && LatestGeometry(ops).Some?
    && shown == if switch.Some? then switch.value
                else if NonEmpty(LatestStream(ops[..a], first)) then InView(LatestGeometry(ops).value)
                else Run(start, ops[..a]).shown
  }

  ghost predicate OnCard(ops: seq<Op>) { LatestWindow(ops).None? && LatestGeometry(ops).Some? }

  lemma AppliedAtEnd(s: State, ops: seq<Op>, op: Op, first: nat)
    requires Follows(s, ops, first) && Applied(ops, op, first).Some?
    ensures Applied(ops, op, first) == LatestGeometry(ops + [op])
    ensures Step(s, op).shown
            == if NonEmpty(LatestStream(ops, first)) then InView(Applied(ops, op, first).value) else s.shown
  {
    LatestAfter(ops, op, first);
  }

  lemma NotApplied(s: State, ops: seq<Op>, op: Op, first: nat)
    requires Follows(s, ops, first) && Applied(ops, op, first).None? && OnCard(ops + [op])
    ensures OnCard(ops) && LatestGeometry(ops + [op]) == LatestGeometry(ops)
    ensures Step(s, op).shown == if op.SetVisible? then op.visible else s.shown
  {
    LatestAfter(ops, op, first);
  }

  lemma SwitchAfter(ops: seq<Op>, op: Op, a: nat)
    requires a < |ops|
    ensures LatestSwitch((ops + [op])[a + 1..]) == if op.SetVisible? then Some(op.visible) else LatestSwitch(ops[a + 1..])
  {
    var rest := ops[a + 1..];
    assert (ops + [op])[a + 1..] == rest + [op];
    assert (rest + [op])[..|rest|] == rest;
  }

  lemma ShownByStep(start: State, s: State, ops: seq<Op>, op: Op, a: nat, first: nat)
    requires Follows(s, ops, first) && OnCard(ops + [op]) && Applied(ops, op, first).None?
    requires a < |ops| && ShownBy(start, ops, a, first, s.shown)
    ensures ShownBy(start, ops + [op], a, first, Step(s, op).shown)
  {
    NotApplied(s, ops, op, first);
    SwitchAfter(ops, op, a);
    assert (ops + [op])[..a] == ops[..a];
  }

  lemma ShownByEnd(start: State, ops: seq<Op>, op: Op, first: nat)
    requires Follows(Run(start, ops), ops, first) && Applied(ops, op, first).Some?
    ensures ShownBy(start, ops + [op], |ops|, first, Step(Run(start, ops), op).shown)
  {
    AppliedAtEnd(Run(start, ops), ops, op, first);
    assert (ops + [op])[..|ops|] == ops && (ops + [op])[|ops| + 1..] == [];
  }

  /** After any run that ends on the card, with a geometry: since that geometry was last applied, the
      switch has the last word; if it was not used, the video is shown exactly when the geometry is in
      view. Applied for an empty stream, it decides nothing. */
  lemma {:induction false} ShownOnCard(packed: nat, picture: Picture, ops: seq<Op>)
    requires OnCard(ops)
    ensures var a := LatestApplied(ops, packed);
            a.Some? && ShownBy(Fresh(packed, picture), ops, a.value, packed, Run(Fresh(packed, picture), ops).shown)
    decreases |ops|
  {
    if ops != [] {
      var start, before, op := Fresh(packed, picture), ops[..|ops| - 1], ops[|ops| - 1];
      assert ops == before + [op];
      RunFollows(start, [], before, packed);
      assert [] + before == before;
      RunOne(start, before, op);
      if Applied(before, op, packed).Some? {
        ShownByEnd(start, before, op, packed);
      } else {
        NotApplied(Run(start, before), before, op, packed);
        ShownOnCard(packed, picture, before);
        ShownByStep(start, Run(start, before), before, op, LatestApplied(before, packed).value, packed);
      }
    }
  }

  /** So the switch shows a video whose card has left the viewport. */
  lemma SwitchShowsOutOfView(packed: nat, picture: Picture, g: Geometry)
    requires NonEmpty(packed) && !InView(g)
    ensures var s := Fresh(packed, picture); !Step(s, Update(g)).shown && Run(s, [Update(g), SetVisible(true)]).shown
  {
    var s := Fresh(packed, picture);
    assert [Update(g), SetVisible(true)] == [Update(g)] + [SetVisible(true)];
    RunOne(s, [Update(g)], SetVisible(true));
  }

  // ----- in the pop-out window -----

  /** Whatever gives the window a picture shows the video, if the switch is on. */
  lemma WindowShows(s: State, op: Op, w: real, h: real)
    requires (op == PopOut(w, h) && s.window.None?) || (op == ResizeWindow(w, h) && s.window.Some?)
    ensures Step(s, op).shown <==> s.shown || (s.contentVisible && NonEmpty(s.streamSize) && w > 0.0 && h > 0.0)
  {
  }

  /** After any run the switch is where it was last put. */
  lemma {:induction false} SwitchHolds(packed: nat, picture: Picture, ops: seq<Op>)
    ensures Run(Fresh(packed, picture), ops).contentVisible
            == if LatestSwitch(ops).Some? then LatestSwitch(ops).value else true
    decreases |ops|
  {
    if ops != [] {
      var before, op := ops[..|ops| - 1], ops[|ops| - 1];
      assert ops == before + [op];
      SwitchHolds(packed, picture, before);
      RunOne(Fresh(packed, picture), before, op);
    }
  }

  /** A video whose card is out of view is shown when it is popped out, and one that is paused is not. */
  lemma {:induction false} PopOutShows(packed: nat, picture: Picture, g: Geometry, w: real, h: real)
    requires NonEmpty(packed) && !InView(g) && w > 0.0 && h > 0.0
    ensures Run(Fresh(packed, picture), [Update(g), PopOut(w, h)]).shown
    ensures !Run(Fresh(packed, picture), [SetVisible(false), PopOut(w, h)]).shown
  {
    var s := Fresh(packed, picture);
    assert [Update(g), PopOut(w, h)] == [Update(g)] + [PopOut(w, h)] && [Update(g)] == [] + [Update(g)];
    assert [SetVisible(false), PopOut(w, h)] == [SetVisible(false)] + [PopOut(w, h)];
    assert [SetVisible(false)] == [] + [SetVisible(false)];
    RunOne(s, [Update(g)], PopOut(w, h));
    RunOne(s, [], Update(g));
    RunOne(s, [SetVisible(false)], PopOut(w, h));
    RunOne(s, [], SetVisible(false));
  }
}
