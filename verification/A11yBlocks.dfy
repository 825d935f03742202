/** The block finder and the own-depth text of client/src/a11y_lint.rs, on a masked text. */
module A11yBlocks {
  import opened Wrappers
  import opened A11yMask
  import opened Bytes
  import opened Utf8

  datatype Block = Block(open: nat, close: nat, parent: Option<nat>)

  // ----- matching braces by depth -----

  /** Open braces before byte `i`; a closer without an opener does not count. */
  function Depth(s: seq<Byte>, i: nat): nat
    requires i <= |s|
  {
    if i == 0 then 0
    else
      var d := Depth(s, i - 1);
      if s[i - 1] == OPEN then d + 1
      else if s[i - 1] == CLOSE && d > 0 then d - 1
      else d
  }

  /** Strictly inside the block opened at `o`, up to byte `i`. */
  ghost predicate StaysInside(s: seq<Byte>, o: nat, i: nat)
    requires o < |s| && i <= |s|
  {
    forall k :: o < k <= i ==> Depth(s, k) > Depth(s, o)
  }

  /** `c` is one past the brace that matches the one at `o`: the first closer that takes the depth
      back. */
  ghost predicate Matches(s: seq<Byte>, o: nat, c: nat)
    requires o < |s|
  {
    && o + 1 < c <= |s| && s[o] == OPEN && s[c - 1] == CLOSE
    && StaysInside(s, o, c - 1) && Depth(s, c) == Depth(s, o)
  }

  /** One past the matching brace, or the end of the text when there is none. */
  ghost predicate IsClose(s: seq<Byte>, o: nat, c: nat)
    requires o < |s|
  {
    Matches(s, o, c) || (c == |s| && s[o] == OPEN && StaysInside(s, o, c))
  }

  lemma CloseIsUnique(s: seq<Byte>, o: nat, c: nat, d: nat)
    requires o < |s| && IsClose(s, o, c) && IsClose(s, o, d)
    ensures c == d
  {
    assert Matches(s, o, c) ==> Depth(s, c) == Depth(s, o);
    assert Matches(s, o, d) ==> Depth(s, d) == Depth(s, o);
  }

  predicate Covers(b: Block, p: nat) { b.open <= p < b.close }

  /** `all[idx]` lies directly inside its parent: no later block still covers its opener. */
  ghost predicate ParentOk(all: seq<Block>, idx: nat)
    requires idx < |all|
  {
    match all[idx].parent
    case None => forall q :: 0 <= q < idx ==> !Covers(all[q], all[idx].open)
    case Some(p) =>
      && p < idx && Covers(all[p], all[idx].open)
      && forall q :: p < q < idx ==> !Covers(all[q], all[idx].open)
  }

  /** A block has its matching close and its innermost enclosing block. */
  ghost predicate BlockOk(s: seq<Byte>, all: seq<Block>, m: nat)
    requires m < |all|
  {
    && all[m].open < |s| && IsClose(s, all[m].open, all[m].close) && ParentOk(all, m)
    && all[m].open < all[m].close <= |s|
  }

  ghost predicate BlocksOk(s: seq<Byte>, all: seq<Block>) {
    && (forall m {:trigger BlockOk(s, all, m)} :: 0 <= m < |all| ==> BlockOk(s, all, m))
    && (forall m, n :: 0 <= m < n < |all| ==> all[m].open < all[n].open)
  }

  /** The blocks of a text: one for every opener. */
  ghost predicate IsBlockList(s: seq<Byte>, all: seq<Block>) {
    BlocksOk(s, all) && forall i :: 0 <= i < |s| && s[i] == OPEN ==> exists m :: 0 <= m < |all| && all[m].open == i
  }

  /** Opening braces less closing braces in `[j, i)`. */
  function Surplus(s: seq<Byte>, j: nat, i: nat): int
    requires j <= i <= |s|
  {
    var bytes := multiset(s[j..i]);
    bytes['{' as int] as int - bytes['}' as int] as int
  }

  lemma SurplusStep(s: seq<Byte>, j: nat, i: nat)
    requires j <= i < |s|
    ensures Surplus(s, j, i + 1)
            == Surplus(s, j, i) + if s[i] == '{' as int then 1 else if s[i] == '}' as int then -1 else 0
  {
    assert s[j..i + 1] == s[j..i] + [s[i]];
  }

  /** The depth is the largest surplus of opening braces that any stretch before the byte has. */
  lemma {:induction false} DepthIsSurplus(s: seq<Byte>, i: nat) returns (from: nat)
    requires i <= |s|
    ensures forall j :: 0 <= j <= i ==> Surplus(s, j, i) <= Depth(s, i)
    ensures from <= i && Surplus(s, from, i) == Depth(s, i)
  {
    from := i;
    assert s[i..i] == [];
    if i > 0 {
      var before := DepthIsSurplus(s, i - 1);
      forall j | 0 <= j < i ensures Surplus(s, j, i) <= Depth(s, i) { SurplusStep(s, j, i - 1); }
      SurplusStep(s, before, i - 1);
      if Surplus(s, before, i) == Depth(s, i) { from := before; }
    }
  }

  // ----- the stack scan -----

  /** The blocks found before byte `i` are the openers before it, in order. */
  ghost predicate OpenersFound(s: seq<Byte>, i: nat, all: seq<Block>)
    requires i <= |s|
  {
    && (forall m :: 0 <= m < |all| ==> all[m].open < i && s[all[m].open] == OPEN)
    && (forall m, n :: 0 <= m < n < |all| ==> all[m].open < all[n].open)
    && (forall k :: 0 <= k < i && s[k] == OPEN ==> exists m :: 0 <= m < |all| && all[m].open == k)
  }

  ghost predicate IsOpenAt(s: seq<Byte>, i: nat, b: Block, d: nat)
    requires i <= |s|
  {
    b.open < i && b.close == |s| && Depth(s, b.open) == d && StaysInside(s, b.open, i)
  }

  /** `stack` holds the blocks still open before byte `i`, outermost first, one per depth. */
  ghost predicate StackOk(s: seq<Byte>, i: nat, all: seq<Block>, stack: seq<nat>)
    requires i <= |s|
  {
    && |stack| == Depth(s, i)
    && (forall d :: 0 <= d < |stack| ==> stack[d] < |all|)
    && (forall d, e :: 0 <= d < e < |stack| ==> stack[d] < stack[e])
    && (forall d :: 0 <= d < |stack| ==> IsOpenAt(s, i, all[stack[d]], d))
  }

  /** Every other block has its matching brace. */
  ghost predicate ClosedOk(s: seq<Byte>, i: nat, all: seq<Block>, stack: seq<nat>)
    requires i <= |s|
  {
    forall m :: 0 <= m < |all| && m !in stack ==>
      all[m].open < |s| && all[m].close <= i && Matches(s, all[m].open, all[m].close)
  }

  ghost predicate ParentsOk(all: seq<Block>) { forall m :: 0 <= m < |all| ==> ParentOk(all, m) }

  ghost predicate Scanning(s: seq<Byte>, i: nat, all: seq<Block>, stack: seq<nat>)
    requires i <= |s|
  {
    OpenersFound(s, i, all) && StackOk(s, i, all, stack) && ClosedOk(s, i, all, stack) && ParentsOk(all)
  }

  function NewBlock(s: seq<Byte>, i: nat, stack: seq<nat>): Block {
    Block(i, |s|, if |stack| > 0 then Some(stack[|stack| - 1]) else None)
  }

  lemma PushParents(s: seq<Byte>, i: nat, all: seq<Block>, stack: seq<nat>)
    requires i < |s| && Scanning(s, i, all, stack) && s[i] == OPEN
    ensures ParentsOk(all + [NewBlock(s, i, stack)])
  {
    var all' := all + [NewBlock(s, i, stack)];
    forall m | 0 <= m < |all| ensures ParentOk(all', m) { assert ParentOk(all, m); }
    forall q | 0 <= q < |all| && (|stack| > 0 ==> stack[|stack| - 1] < q) ensures !Covers(all'[q], i) {
      assert q !in stack;
    }
    assert |stack| > 0 ==> Covers(all'[stack[|stack| - 1]], i);
  }

  lemma PushClosed(s: seq<Byte>, i: nat, all: seq<Block>, stack: seq<nat>, b: Block)
    requires i < |s| && ClosedOk(s, i, all, stack)
    ensures ClosedOk(s, i + 1, all + [b], stack + [|all|])
  {
    var stack' := stack + [|all|];
    forall m | 0 <= m <= |all| && m !in stack' ensures m < |all| && m !in stack {
      assert stack'[|stack|] == |all|;
    }
  }

  lemma PushOpeners(s: seq<Byte>, i: nat, all: seq<Block>, b: Block)
    requires i < |s| && OpenersFound(s, i, all) && s[i] == OPEN && b.open == i
    ensures OpenersFound(s, i + 1, all + [b])
  {
    var all' := all + [b];
    forall k | 0 <= k < i + 1 && s[k] == OPEN ensures exists m :: 0 <= m < |all'| && all'[m].open == k {
      if k == i {
        assert all'[|all|].open == k;
      } else {
        var m :| 0 <= m < |all| && all[m].open == k;
        assert all'[m].open == k;
      }
    }
  }

  lemma PushStack(s: seq<Byte>, i: nat, all: seq<Block>, stack: seq<nat>, b: Block)
    requires i < |s| && StackOk(s, i, all, stack) && s[i] == OPEN && b.open == i && b.close == |s|
    ensures StackOk(s, i + 1, all + [b], stack + [|all|])
  {
    forall d | 0 <= d < |stack| ensures IsOpenAt(s, i + 1, all[stack[d]], d) { assert IsOpenAt(s, i, all[stack[d]], d); }
  }

  /** An opener: the new block's parent is the top of the stack. */
  lemma PushStep(s: seq<Byte>, i: nat, all: seq<Block>, stack: seq<nat>)
    requires i < |s| && Scanning(s, i, all, stack) && s[i] == OPEN
    ensures Scanning(s, i + 1, all + [NewBlock(s, i, stack)], stack + [|all|])
  {
    PushParents(s, i, all, stack);
    PushClosed(s, i, all, stack, NewBlock(s, i, stack));
    PushOpeners(s, i, all, NewBlock(s, i, stack));
    PushStack(s, i, all, stack, NewBlock(s, i, stack));
  }

  lemma PopStack(s: seq<Byte>, i: nat, all: seq<Block>, stack: seq<nat>)
    requires i < |s| && StackOk(s, i, all, stack) && s[i] == CLOSE && |stack| > 0
    ensures var t := stack[|stack| - 1];
            && StackOk(s, i + 1, all[t := all[t].(close := i + 1)], stack[..|stack| - 1])
            && all[t].open < i && Depth(s, all[t].open) == |stack| - 1 && StaysInside(s, all[t].open, i)
  {
    var t := stack[|stack| - 1];
    assert IsOpenAt(s, i, all[t], |stack| - 1);
    forall d | 0 <= d < |stack| - 1 ensures IsOpenAt(s, i + 1, all[stack[d]], d) && stack[d] != t {
      assert IsOpenAt(s, i, all[stack[d]], d);
    }
  }

  lemma PopClosed(s: seq<Byte>, i: nat, all: seq<Block>, stack: seq<nat>)
    requires i < |s| && StackOk(s, i, all, stack) && ClosedOk(s, i, all, stack) && s[i] == CLOSE && |stack| > 0
    requires s[all[stack[|stack| - 1]].open] == OPEN
    ensures var t := stack[|stack| - 1];
            ClosedOk(s, i + 1, all[t := all[t].(close := i + 1)], stack[..|stack| - 1])
  {
    var t, stack' := stack[|stack| - 1], stack[..|stack| - 1];
    PopStack(s, i, all, stack);
    assert Matches(s, all[t].open, i + 1);
    forall m | 0 <= m < |all| && m !in stack' && m != t ensures m !in stack {
      assert stack == stack' + [t];
    }
  }

  lemma PopParents(all: seq<Block>, t: nat, c: nat)
    requires ParentsOk(all) && t < |all| && all[t].close >= c
    requires forall m :: 0 <= m < |all| ==> all[m].open < c
    ensures ParentsOk(all[t := all[t].(close := c)])
  {
    var all' := all[t := all[t].(close := c)];
    forall m | 0 <= m < |all| ensures ParentOk(all', m) { assert ParentOk(all, m); }
  }

  lemma PopOpeners(s: seq<Byte>, i: nat, all: seq<Block>, t: nat)
    requires i < |s| && OpenersFound(s, i, all) && t < |all| && s[i] == CLOSE
    ensures OpenersFound(s, i + 1, all[t := all[t].(close := i + 1)])
  {
    var all' := all[t := all[t].(close := i + 1)];
    forall k | 0 <= k < i + 1 && s[k] == OPEN ensures exists m :: 0 <= m < |all'| && all'[m].open == k {
      var m :| 0 <= m < |all| && all[m].open == k;
      assert all'[m].open == k;
    }
  }

  /** A closer: it matches the block on top of the stack. */
  lemma PopStep(s: seq<Byte>, i: nat, all: seq<Block>, stack: seq<nat>)
    requires i < |s| && Scanning(s, i, all, stack) && s[i] == CLOSE && |stack| > 0
    ensures var t := stack[|stack| - 1];
            Scanning(s, i + 1, all[t := all[t].(close := i + 1)], stack[..|stack| - 1])
  {
    PopStack(s, i, all, stack);
    PopClosed(s, i, all, stack);
    assert IsOpenAt(s, i, all[stack[|stack| - 1]], |stack| - 1);
    PopOpeners(s, i, all, stack[|stack| - 1]);
    PopParents(all, stack[|stack| - 1], i + 1);
  }

  lemma PlainStep(s: seq<Byte>, i: nat, all: seq<Block>, stack: seq<nat>)
    requires i < |s| && Scanning(s, i, all, stack)
    requires s[i] != OPEN && (s[i] == CLOSE ==> |stack| == 0)
    ensures Scanning(s, i + 1, all, stack)
  {
    forall d | 0 <= d < |stack| ensures IsOpenAt(s, i + 1, all[stack[d]], d) { assert IsOpenAt(s, i, all[stack[d]], d); }
  }

  lemma ScanDone(s: seq<Byte>, all: seq<Block>, stack: seq<nat>)
    requires Scanning(s, |s|, all, stack)
    ensures IsBlockList(s, all)
  {
    forall m | 0 <= m < |all| ensures BlockOk(s, all, m) {
      assert ParentOk(all, m);
      if m in stack {
        var d :| 0 <= d < |stack| && stack[d] == m;
        assert IsOpenAt(s, |s|, all[m], d);
      }
    }
  }

  /** One byte of the scan. */
  method ScanByte(masked: seq<Byte>, i: nat, all: seq<Block>, stack: seq<nat>)
    returns (all': seq<Block>, stack': seq<nat>)
    requires i < |masked| && Scanning(masked, i, all, stack)
    ensures Scanning(masked, i + 1, all', stack')
  {
    all', stack' := all, stack;
    if masked[i] == OPEN {
      PushStep(masked, i, all, stack);
      all' := all + [NewBlock(masked, i, stack)];
      stack' := stack + [|all|];
    } else if masked[i] == CLOSE && |stack| > 0 {
      PopStep(masked, i, all, stack);
      var idx := stack[|stack| - 1];
      stack' := stack[..|stack| - 1];
      all' := all[idx := all[idx].(close := i + 1)];
    } else {
      PlainStep(masked, i, all, stack);
    }
  }

  method Blocks(masked: seq<Byte>) returns (all: seq<Block>)
    ensures IsBlockList(masked, all)
  {
    all := [];
    var stack: seq<nat> := [];
    for i := 0 to |masked|
      invariant Scanning(masked, i, all, stack)
    {
      all, stack := ScanByte(masked, i, all, stack);
    }
    ScanDone(masked, all, stack);
  }

  // ----- nesting -----

  /** A later block ends strictly inside an earlier one, starts after it, or both run to the end of
      the text: intervals are nested or disjoint. */
  lemma NestedOrDisjoint(s: seq<Byte>, all: seq<Block>, m: nat, n: nat)
    requires BlocksOk(s, all) && m < n < |all|
    ensures all[m].close <= all[n].open || all[n].close < all[m].close || all[n].close == all[m].close == |s|
  {
    var a, b := all[m], all[n];
    assert BlockOk(s, all, m) && BlockOk(s, all, n) && a.open < b.open;
    if b.open < a.close && Matches(s, a.open, a.close) {
      assert Depth(s, b.open) > Depth(s, a.open);
      assert b.open < a.close - 1;
    }
  }

  /** The direct child of `idx` on the way down to a block `q` inside it. */
  lemma ChildAbove(s: seq<Byte>, all: seq<Block>, idx: nat, q: nat) returns (c: nat)
    requires BlocksOk(s, all) && idx < q < |all| && Covers(all[idx], all[q].open)
    ensures idx < c <= q && all[c].parent == Some(idx)
    ensures Covers(all[c], all[q].open) && all[q].close <= all[c].close
    decreases q
  {
    assert BlockOk(s, all, q);
    var p := all[q].parent.value;
    if p == idx {
      c := q;
    } else {
      NestedOrDisjoint(s, all, p, q);
      NestedOrDisjoint(s, all, idx, p);
      c := ChildAbove(s, all, idx, p);
    }
  }

  // ----- the text at a block's own depth -----

  /** No block inside `all[idx]` covers `p`. */
  predicate OwnAt(all: seq<Block>, idx: nat, p: nat) {
    forall q :: idx < q < |all| ==> !Covers(all[q], p)
  }

  /** Then `all[idx]` is the innermost block around `p`: every block that covers `p` encloses it. */
  lemma OwnIsInnermost(s: seq<Byte>, all: seq<Block>, idx: nat, p: nat, q: nat)
    requires BlocksOk(s, all) && idx < |all| && q < |all| && Covers(all[idx], p) && Covers(all[q], p)
    requires OwnAt(all, idx, p)
    ensures all[q].open <= all[idx].open && all[idx].close <= all[q].close
  {
    if q < idx { NestedOrDisjoint(s, all, q, idx); }
  }

  /** For every byte, whether it is at the own depth of `all[idx]`. */
  function Own(s: seq<Byte>, all: seq<Block>, idx: nat): (own: seq<bool>)
    ensures |own| == |s| && forall p :: 0 <= p < |s| ==> own[p] == OwnAt(all, idx, p)
  {
    seq(|s|, p requires 0 <= p < |s| => OwnAt(all, idx, p))
  }

  /** The bytes of `[lo, hi)` that `own` selects, in order. */
  function Collect(s: seq<Byte>, own: seq<bool>, lo: nat, hi: nat): seq<Byte>
    requires hi <= |s| == |own|
  {
    if lo >= hi then []
    else Collect(s, own, lo, hi - 1) + if own[hi - 1] then [s[hi - 1]] else []
  }

  /** The byte at `p`, if it is selected, comes after those selected before it. */
  lemma {:induction false} CollectedAt(s: seq<Byte>, own: seq<bool>, lo: nat, hi: nat, p: nat)
    requires lo <= p < hi <= |s| == |own| && own[p]
    ensures var at := |Collect(s, own, lo, p)|; at < |Collect(s, own, lo, hi)| && Collect(s, own, lo, hi)[at] == s[p]
  {
    if p < hi - 1 { CollectedAt(s, own, lo, hi - 1, p); }
  }

  /** As many bytes as are selected. */
  lemma {:induction false} CollectedCount(s: seq<Byte>, own: seq<bool>, lo: nat, hi: nat)
    requires lo <= hi <= |s| == |own|
    ensures |Collect(s, own, lo, hi)| == |set p | lo <= p < hi && own[p]|
  {
    var all := set p | lo <= p < hi && own[p];
    if lo < hi {
      var before := set p | lo <= p < hi - 1 && own[p];
      CollectedCount(s, own, lo, hi - 1);
      assert all == before + if own[hi - 1] then {hi - 1} else {};
    } else {
      assert all == {};
    }
  }

  lemma CollectGap(s: seq<Byte>, own: seq<bool>, lo: nat, mid: nat, hi: nat)
    requires lo <= mid <= hi <= |s| == |own| && forall p :: mid <= p < hi ==> own[p]
    ensures Collect(s, own, lo, hi) == Collect(s, own, lo, mid) + s[mid..hi]
  {
    if mid < hi {
      CollectGap(s, own, lo, mid, hi - 1);
      assert s[mid..hi] == s[mid..hi - 1] + [s[hi - 1]];
    } else {
      assert s[mid..hi] == [];
    }
  }

  lemma CollectChild(s: seq<Byte>, own: seq<bool>, lo: nat, mid: nat, hi: nat)
    requires lo <= mid <= hi <= |s| == |own| && forall p :: mid <= p < hi ==> !own[p]
    ensures Collect(s, own, lo, hi) == Collect(s, own, lo, mid)
  {
    if mid < hi { CollectChild(s, own, lo, mid, hi - 1); }
  }

  /** Between two children nothing is covered. `done` children are behind `pos`. */
  lemma GapIsOwn(s: seq<Byte>, all: seq<Block>, idx: nat, done: nat, pos: nat, end: nat)
    requires BlocksOk(s, all) && idx < |all| && done <= |all| && all[idx].open < pos && end <= all[idx].close
    requires forall c :: idx < c < done && all[c].parent == Some(idx) ==> all[c].close <= pos
    requires forall c :: done <= c < |all| && all[c].parent == Some(idx) ==> end <= all[c].open
    ensures forall p :: pos <= p < end ==> OwnAt(all, idx, p)
  {
    forall p, q | pos <= p < end && idx < q < |all| ensures !Covers(all[q], p) {
      if Covers(all[q], p) {
        var c := ChildAbove(s, all, idx, q);
      }
    }
  }

  /** `pos` is just past the opener of `all[idx]`, or past its last child before index `c`. */
  ghost predicate PastChildren(all: seq<Block>, idx: nat, c: nat, last: Option<nat>, pos: nat)
    requires idx < |all| && c <= |all|
  {
    && (forall d :: idx < d < c && all[d].parent == Some(idx) ==> all[d].close <= pos)
    && match last
       case None => pos == all[idx].open + 1
       case Some(d) => idx < d < c && all[d].parent == Some(idx) && all[d].close == pos
  }

  lemma PastNext(all: seq<Block>, idx: nat, c: nat, last: Option<nat>, pos: nat)
    requires idx < c < |all| && PastChildren(all, idx, c, last, pos) && all[c].parent == Some(idx)
    requires pos <= all[c].close
    ensures PastChildren(all, idx, c + 1, Some(c), all[c].close)
  {
  }

  lemma PastSkip(all: seq<Block>, idx: nat, c: nat, last: Option<nat>, pos: nat)
    requires idx < |all| && c < |all| && PastChildren(all, idx, c, last, pos) && all[c].parent != Some(idx)
    ensures PastChildren(all, idx, c + 1, last, pos)
  {
  }

  lemma ChildBounds(s: seq<Byte>, all: seq<Block>, idx: nat, c: nat)
    requires BlocksOk(s, all) && idx < |all| && c < |all| && all[c].parent == Some(idx)
    ensures idx < c && all[idx].open < all[c].open < all[c].close <= all[idx].close <= |s|
  {
    assert BlockOk(s, all, idx) && BlockOk(s, all, c);
    NestedOrDisjoint(s, all, idx, c);
  }

  lemma Bounds(s: seq<Byte>, all: seq<Block>, m: nat)
    requires BlocksOk(s, all) && m < |all|
    ensures all[m].open < all[m].close <= |s|
  {
    assert BlockOk(s, all, m);
  }

  /** Children come one after the other. */
  lemma ChildrenInOrder(s: seq<Byte>, all: seq<Block>, idx: nat, d: nat, c: nat)
    requires BlocksOk(s, all) && d < c < |all| && all[c].parent == Some(idx) && all[d].parent == Some(idx)
    ensures all[d].close <= all[c].open
  {
    assert BlockOk(s, all, d) && ParentOk(all, d) && idx < d;
    assert BlockOk(s, all, c) && all[d].open < all[c].open;
    assert !Covers(all[d], all[c].open);
  }

  /** The own text before `pos`, with the children before index `c` behind it. */
  ghost predicate Gathered(s: seq<Byte>, all: seq<Block>, idx: nat, c: nat, last: Option<nat>, pos: nat, text: seq<Byte>)
    requires idx < |all| && c <= |all|
  {
    && PastChildren(all, idx, c, last, pos) && all[idx].open < pos <= |s|
    && text == Collect(s, Own(s, all, idx), all[idx].open + 1, pos)
  }

  lemma CollectStep(s: seq<Byte>, own: seq<bool>, lo: nat, pos: nat, open: nat, close: nat)
    requires lo <= pos <= open <= close <= |s| == |own|
    requires (forall p :: pos <= p < open ==> own[p]) && (forall p :: open <= p < close ==> !own[p])
    ensures Collect(s, own, lo, close) == Collect(s, own, lo, pos) + s[pos..open]
  {
    CollectGap(s, own, lo, pos, open);
    CollectChild(s, own, lo, open, close);
  }

  /** One child of the loop: the gap before it is own text, the child is not. */
  lemma GatherChild(s: seq<Byte>, all: seq<Block>, idx: nat, c: nat, last: Option<nat>, pos: nat, text: seq<Byte>)
    requires BlocksOk(s, all) && idx < |all| && c < |all| && all[c].parent == Some(idx)
    requires Gathered(s, all, idx, c, last, pos, text)
    ensures pos <= all[c].open <= |s|
    ensures Gathered(s, all, idx, c + 1, Some(c), all[c].close, text + s[pos..all[c].open])
  {
    ChildBounds(s, all, idx, c);
    if last.Some? { ChildrenInOrder(s, all, idx, last.value, c); }
    PastNext(all, idx, c, last, pos);
    GapIsOwn(s, all, idx, c, pos, all[c].open);
    var own := Own(s, all, idx);
    forall p | all[c].open <= p < all[c].close ensures !own[p] { assert Covers(all[c], p); }
    CollectStep(s, own, all[idx].open + 1, pos, all[c].open, all[c].close);
  }

  lemma GatherSkip(s: seq<Byte>, all: seq<Block>, idx: nat, c: nat, last: Option<nat>, pos: nat, text: seq<Byte>)
    requires idx < |all| && c < |all| && all[c].parent != Some(idx)
    requires Gathered(s, all, idx, c, last, pos, text)
    ensures Gathered(s, all, idx, c + 1, last, pos, text)
  {
    PastSkip(all, idx, c, last, pos);
  }

  lemma GatherRest(s: seq<Byte>, all: seq<Block>, idx: nat, last: Option<nat>, pos: nat, text: seq<Byte>)
    requires BlocksOk(s, all) && idx < |all| && Gathered(s, all, idx, |all|, last, pos, text)
    ensures all[idx].open + 1 <= pos <= all[idx].close <= |s|
    ensures var own := Own(s, all, idx);
            && (forall p :: pos <= p < all[idx].close - 1 ==> own[p])
            && (all[idx].open + 1 < pos ==> !own[pos - 1])
  {
    var b := all[idx];
    Bounds(s, all, idx);
    if last.Some? {
      ChildBounds(s, all, idx, last.value);
      assert Covers(all[last.value], pos - 1);
    }
    if b.close - 1 > pos { GapIsOwn(s, all, idx, |all|, pos, b.close - 1); }
  }

  /** Where the last slice of the source ends. */
  function LastEnd(b: Block, pos: nat): nat
    requires b.close > 0
  {
    if b.close - 1 > pos then b.close - 1 else pos
  }

  lemma NothingMore(s: seq<Byte>, own: seq<bool>, lo: nat, pos: nat, text: seq<Byte>)
    requires 0 < lo <= pos <= |s| == |own| && (lo < pos ==> !own[pos - 1]) && text == Collect(s, own, lo, pos)
    ensures text + s[pos..pos] == text == Collect(s, own, lo, pos - 1)
  {
  }

  /** The rest of the block after its last child. */
  lemma {:induction false} LastPiece(s: seq<Byte>, own: seq<bool>, b: Block, pos: nat, text: seq<Byte>)
    requires b.open + 1 <= pos <= b.close <= |s| == |own|
    requires forall p :: pos <= p < b.close - 1 ==> own[p]
    requires b.open + 1 < pos ==> !own[pos - 1]
    requires text == Collect(s, own, b.open + 1, pos)
    ensures pos <= LastEnd(b, pos) <= |s|
    ensures text + s[pos..LastEnd(b, pos)] == Collect(s, own, b.open + 1, b.close - 1)
  {
    if b.close - 1 > pos {
      CollectGap(s, own, b.open + 1, pos, b.close - 1);
    } else {
      NothingMore(s, own, b.open + 1, pos, text);
    }
  }

  // ----- slicing at characters -----

  /** `&s[a..b]`: `None` stands for the panic when a bound is inside a character. */
  function Slice(s: seq<Byte>, a: nat, b: nat): (r: Option<seq<Byte>>)
    requires a <= b <= |s|
  {
    if IsBoundary(s, a) && IsBoundary(s, b) then Some(s[a..b]) else None
  }

  /** The block has no closing brace, and the last byte of the text is of its own and ends a longer
      character. */
  ghost predicate EndsInside(s: seq<Byte>, all: seq<Block>, idx: nat)
    requires BlocksOk(s, all) && idx < |all|
  {
    assert BlockOk(s, all, idx);
    !Matches(s, all[idx].open, all[idx].close) && OwnAt(all, idx, |s| - 1) && IsTail(s[|s| - 1])
  }

  lemma BlockBoundaries(s: seq<Byte>, all: seq<Block>, m: nat)
    requires WellFormed(s) && BlocksOk(s, all) && m < |all|
    ensures all[m].open < all[m].close <= |s| && s[all[m].open] == OPEN
    ensures IsBoundary(s, all[m].open) && IsBoundary(s, all[m].open + 1) && IsBoundary(s, all[m].close)
    ensures if Matches(s, all[m].open, all[m].close) then IsBoundary(s, all[m].close - 1) else all[m].close == |s|
  {
    assert BlockOk(s, all, m);
    AfterAscii(s, all[m].open);
    if Matches(s, all[m].open, all[m].close) { AfterAscii(s, all[m].close - 1); }
  }

  lemma PosIsBoundary(s: seq<Byte>, all: seq<Block>, idx: nat, c: nat, last: Option<nat>, pos: nat, text: seq<Byte>)
    requires WellFormed(s) && BlocksOk(s, all) && idx < |all| && c <= |all| && Gathered(s, all, idx, c, last, pos, text)
    ensures IsBoundary(s, pos)
  {
    BlockBoundaries(s, all, if last.Some? then last.value else idx);
  }

  lemma LastSlice(s: seq<Byte>, all: seq<Block>, idx: nat, last: Option<nat>, pos: nat, text: seq<Byte>)
    requires WellFormed(s) && BlocksOk(s, all) && idx < |all| && Gathered(s, all, idx, |all|, last, pos, text)
    ensures 0 < all[idx].close && pos <= LastEnd(all[idx], pos) <= |s|
    ensures IsBoundary(s, LastEnd(all[idx], pos)) <==> !EndsInside(s, all, idx)
  {
    BlockBoundaries(s, all, idx);
    PosIsBoundary(s, all, idx, |all|, last, pos, text);
    if all[idx].close == |s| {
      if pos < |s| {
        GapIsOwn(s, all, idx, |all|, pos, |s|);
      } else if last.Some? {
        BlockBoundaries(s, all, last.value);
        assert Covers(all[last.value], |s| - 1);
      }
    }
  }

  lemma OwnChild(s: seq<Byte>, all: seq<Block>, idx: nat, c: nat, last: Option<nat>, pos: nat, text: seq<Byte>)
    requires WellFormed(s) && BlocksOk(s, all) && idx < |all| && c < |all| && all[c].parent == Some(idx)
    requires Gathered(s, all, idx, c, last, pos, text)
    ensures pos <= all[c].open <= |s| && Slice(s, pos, all[c].open) == Some(s[pos..all[c].open])
    ensures Gathered(s, all, idx, c + 1, Some(c), all[c].close, text + s[pos..all[c].open])
  {
    PosIsBoundary(s, all, idx, c, last, pos, text);
    BlockBoundaries(s, all, c);
    GatherChild(s, all, idx, c, last, pos, text);
  }

  /** The own text of a block, or the panic. Every slice but the last is always at characters, and
      the last one is unless the block is unclosed and the text ends in a longer character. */
  method OwnText(masked: seq<Byte>, all: seq<Block>, idx: nat) returns (text: Option<seq<Byte>>)
    requires WellFormed(masked) && BlocksOk(masked, all) && idx < |all|
    ensures 0 < all[idx].close <= |masked|
    ensures text.None? <==> EndsInside(masked, all, idx)
    ensures text.Some? ==>
              text.value == Collect(masked, Own(masked, all, idx), all[idx].open + 1, all[idx].close - 1)
  {
    Bounds(masked, all, idx);
    var own := [];
    var pos: nat := all[idx].open + 1;
    ghost var last: Option<nat> := None;
    for c := 0 to |all|
      invariant Gathered(masked, all, idx, c, last, pos, own)
    {
      if all[c].parent == Some(idx) {
        OwnChild(masked, all, idx, c, last, pos, own);
        own := own + Slice(masked, pos, all[c].open).value;
        pos := all[c].close;
        last := Some(c);
      } else {
        GatherSkip(masked, all, idx, c, last, pos, own);
      }
    }
    GatherRest(masked, all, idx, last, pos, own);
    LastPiece(masked, Own(masked, all, idx), all[idx], pos, own);
    PosIsBoundary(masked, all, idx, |all|, last, pos, own);
    LastSlice(masked, all, idx, last, pos, own);
    var piece := Slice(masked, pos, LastEnd(all[idx], pos));
    text := if piece.None? then None else Some(own + piece.value);
  }

  /** Without its last character, if that is selected; it is a single byte then. */
  predicate LosesLast(s: seq<Byte>, own: seq<bool>, lo: nat)
    requires 0 < |s| == |own|
  {
    if lo == |s| || !own[|s| - 1] then Collect(s, own, lo, |s| - 1) == Collect(s, own, lo, |s|)
    else s[|s| - 1] < 128 && Collect(s, own, lo, |s|) == Collect(s, own, lo, |s| - 1) + [s[|s| - 1]]
  }

  lemma LastCharacter(s: seq<Byte>)
    requires WellFormed(s) && |s| > 0
    ensures IsTail(s[|s| - 1]) || s[|s| - 1] < 128
  {
    StartsAreBoundaries(s, 0, |s| - 1);
  }

  lemma BlockEnds(s: seq<Byte>, all: seq<Block>, idx: nat)
    requires BlocksOk(s, all) && idx < |all|
    ensures all[idx].open + 1 <= all[idx].close <= |s|
    ensures !Matches(s, all[idx].open, all[idx].close) ==> all[idx].close == |s|
  {
    assert BlockOk(s, all, idx);
  }

  lemma LastByte(s: seq<Byte>, own: seq<bool>, lo: nat, hi: nat)
    requires lo <= hi <= |s| == |own| && 0 < hi
    ensures Collect(s, own, lo, hi)
            == if lo == hi || !own[hi - 1] then Collect(s, own, lo, hi - 1) else Collect(s, own, lo, hi - 1) + [s[hi - 1]]
  {
  }

  /** A closed block's own text is complete: it stops at the closing brace. An unclosed block loses
      its last character, unless that belongs to a block inside it or there is none; when that
      character is longer than a byte there is no text at all. */
  lemma OwnTextIsComplete(s: seq<Byte>, all: seq<Block>, idx: nat)
    requires WellFormed(s) && BlocksOk(s, all) && idx < |all|
    ensures all[idx].open + 1 <= all[idx].close <= |s|
    ensures !Matches(s, all[idx].open, all[idx].close) ==> all[idx].close == |s|
    ensures !Matches(s, all[idx].open, all[idx].close) && !EndsInside(s, all, idx) ==>
              LosesLast(s, Own(s, all, idx), all[idx].open + 1)
  {
    BlockEnds(s, all, idx);
    LastByte(s, Own(s, all, idx), all[idx].open + 1, |s|);
    LastCharacter(s);
  }

  /** A brace and an accented letter: one unclosed block, whose last slice ends inside the letter. */
  lemma AccentAfterBrace()
    ensures var s: seq<Byte>, all := [OPEN, 0xC3, 0xA9], [Block(0, 3, None)];
            WellFormed(s) && Mask(s) == s && IsBlockList(s, all) && EndsInside(s, all, 0)
  {
    var s: seq<Byte>, all := [OPEN, 0xC3, 0xA9], [Block(0, 3, None)];
    assert CharLength(s, 0) == 1 && CharLength(s, 1) == 2 && Utf8From(s, 3);
    assert StateAt(s, 0) == StateAt(s, 1) == StateAt(s, 2) == Code;
    assert Depth(s, 0) == 0 && Depth(s, 1) == 1 && Depth(s, 2) == 1 && Depth(s, 3) == 1;
    assert BlockOk(s, all, 0);
  }
}
