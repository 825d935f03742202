/** Where the video goes: contain-fit and clip arithmetic (client/src/dcomp_presenter.rs), over the
    reals. */
module ContainFit {
  import opened Bytes
  import opened Wrappers

  function PackSize(w: nat, h: nat): nat
    requires w < U32 && h < U32
  {
    w * U32 + h
  }

  function UnpackSize(packed: nat): (nat, nat) { (packed / U32 % U32, packed % U32) }

  lemma PackRoundTrip(w: nat, h: nat)
    requires w < U32 && h < U32
    ensures UnpackSize(PackSize(w, h)) == (w, h)
  {
    assert PackSize(w, h) / U32 == w && PackSize(w, h) % U32 == h;
  }

  /** Two sizes are packed alike only if they are the same size. */
  lemma PackInjective(w: nat, h: nat, w': nat, h': nat)
    requires w < U32 && h < U32 && w' < U32 && h' < U32
    ensures PackSize(w, h) == PackSize(w', h') <==> w == w' && h == h'
  {
    PackRoundTrip(w, h);
    PackRoundTrip(w', h');
  }

  /** A card's canvas and the scroll viewport, in physical pixels. */
  datatype Geometry = Geometry(x: real, y: real, w: real, h: real, viewY: real, viewH: real)

  /** Top, right and bottom, in the picture's own pixels; the left edge is 0. */
  datatype Clip = Clip(top: real, right: real, bottom: real)

  datatype Picture = Picture(offsetX: real, offsetY: real, scale: real, clip: Option<Clip>)

  function Min(a: real, b: real): real { if a < b then a else b }

  function Max(a: real, b: real): real { if a > b then a else b }

  const INSET := 2.0

  /** The canvas inside the card's border. */
  function Inset(g: Geometry): Geometry {
    g.(x := g.x + INSET, y := g.y + INSET, w := Max(g.w - INSET * 2.0, 1.0), h := Max(g.h - INSET * 2.0, 1.0))
  }

  function VisibleTop(g: Geometry): real { Max(Inset(g).y, g.viewY) }

  function VisibleBottom(g: Geometry): real { Min(Inset(g).y + Inset(g).h, g.viewY + g.viewH) }

  predicate InView(g: Geometry) { VisibleBottom(g) > VisibleTop(g) && Inset(g).w > 0.0 }

  function Fit(w: real, h: real, sw: real, sh: real): real
    requires sw > 0.0 && sh > 0.0
  {
    Min(w / sw, h / sh)
  }

  lemma DivTimes(a: real, b: real)
    requires b > 0.0
    ensures b * (a / b) == a
    ensures a > 0.0 ==> a / b > 0.0
  {
  }

  lemma FitPositive(w: real, h: real, sw: real, sh: real)
    requires w > 0.0 && h > 0.0 && sw > 0.0 && sh > 0.0
    ensures Fit(w, h, sw, sh) > 0.0
  {
    DivTimes(w, sw);
    DivTimes(h, sh);
  }

  /** The picture of `update_geometry`. */
  function CardPicture(g: Geometry, sw: real, sh: real): Picture
    requires sw > 0.0 && sh > 0.0
  {
    var c := Inset(g);
    var scale := Fit(c.w, c.h, sw, sh);
    FitPositive(c.w, c.h, sw, sh);
    var offsetX := c.x + (c.w - sw * scale) * 0.5;
    var offsetY := c.y + (c.h - sh * scale) * 0.5;
    Picture(offsetX, offsetY, scale,
            Some(Clip((VisibleTop(g) - offsetY) / scale, sw, (VisibleBottom(g) - offsetY) / scale)))
  }

  /** The picture of `apply_window_geometry`. */
  function WindowPicture(w: real, h: real, sw: real, sh: real): Picture
    requires sw > 0.0 && sh > 0.0
  {
    var scale := Fit(w, h, sw, sh);
    Picture((w - sw * scale) * 0.5, (h - sh * scale) * 0.5, scale, None)
  }

  // ----- contain-fit -----

  lemma Scaled(a: real, s: real, t: real)
    requires a > 0.0
    ensures s <= t <==> a * s <= a * t
  {
  }

  /** The scaled picture fits, it fills one dimension, and no larger uniform scale fits. */
  lemma FitIsLargest(w: real, h: real, sw: real, sh: real, other: real)
    requires sw > 0.0 && sh > 0.0
    ensures var s := Fit(w, h, sw, sh);
            && sw * s <= w && sh * s <= h && (sw * s == w || sh * s == h)
            && (sw * other <= w && sh * other <= h <==> other <= s)
  {
    DivTimes(w, sw);
    DivTimes(h, sh);
    var s := Fit(w, h, sw, sh);
    Scaled(sw, s, w / sw);
    Scaled(sh, s, h / sh);
    Scaled(sw, other, w / sw);
    Scaled(sh, other, h / sh);
  }

  // ----- on the screen -----

  /** The rectangle that the picture covers before clipping. */
  datatype Rect = Rect(left: real, top: real, right: real, bottom: real)

  function OnScreen(p: Picture, sw: real, sh: real): Rect {
    Rect(p.offsetX, p.offsetY, p.offsetX + p.scale * sw, p.offsetY + p.scale * sh)
  }

  /** A point of the picture, on the screen. */
  function ScreenY(p: Picture, y: real): real { p.offsetY + p.scale * y }

  function ScreenX(p: Picture, x: real): real { p.offsetX + p.scale * x }

  /** Centred, of the stream's shape, and as large as the area allows. */
  ghost predicate FitsCentred(p: Picture, x: real, y: real, w: real, h: real, sw: real, sh: real) {
    var r := OnScreen(p, sw, sh);
    && p.scale > 0.0
    && x <= r.left && r.right <= x + w && y <= r.top && r.bottom <= y + h
    && r.left - x == x + w - r.right && r.top - y == y + h - r.bottom
    && (r.right - r.left) * sh == (r.bottom - r.top) * sw
    && ((r.left == x && r.right == x + w) || (r.top == y && r.bottom == y + h))
  }

  lemma CentredFit(p: Picture, x: real, y: real, w: real, h: real, sw: real, sh: real)
    requires w > 0.0 && h > 0.0 && sw > 0.0 && sh > 0.0
    requires p.scale == Fit(w, h, sw, sh)
    requires p.offsetX == x + (w - sw * p.scale) * 0.5 && p.offsetY == y + (h - sh * p.scale) * 0.5
    ensures FitsCentred(p, x, y, w, h, sw, sh)
  {
    FitIsLargest(w, h, sw, sh, 0.0);
    FitPositive(w, h, sw, sh);
    assert p.scale * sw == sw * p.scale && p.scale * sh == sh * p.scale;
    assert (sw * p.scale) * sh == (sh * p.scale) * sw;
  }

  lemma WindowPictureFits(w: real, h: real, sw: real, sh: real)
    requires w > 0.0 && h > 0.0 && sw > 0.0 && sh > 0.0
    ensures FitsCentred(WindowPicture(w, h, sw, sh), 0.0, 0.0, w, h, sw, sh)
    ensures WindowPicture(w, h, sw, sh).clip == None
  {
    CentredFit(WindowPicture(w, h, sw, sh), 0.0, 0.0, w, h, sw, sh);
  }

  lemma Unscale(a: real, s: real, q: real)
    requires s > 0.0 && q == a / s
    ensures s * q == a
  {
  }

  lemma EdgeOnScreen(p: Picture, y: real, edge: real)
    requires p.scale > 0.0 && y == (edge - p.offsetY) / p.scale
    ensures ScreenY(p, y) == edge
  {
    Unscale(edge - p.offsetY, p.scale, y);
  }

  /** On the card the picture is fitted into the inset canvas, the clip keeps the whole width, and on
      the screen its top and bottom are those of the part of the canvas inside the viewport. */
  lemma CardPictureFits(g: Geometry, sw: real, sh: real)
    requires sw > 0.0 && sh > 0.0
    ensures var p, c := CardPicture(g, sw, sh), Inset(g);
            && FitsCentred(p, c.x, c.y, c.w, c.h, sw, sh)
            && p.clip.Some?
            && ScreenY(p, p.clip.value.top) == Max(c.y, g.viewY)
            && ScreenY(p, p.clip.value.bottom) == Min(c.y + c.h, g.viewY + g.viewH)
            && ScreenX(p, p.clip.value.right) == OnScreen(p, sw, sh).right
  {
    var p, c := CardPicture(g, sw, sh), Inset(g);
    CentredFit(p, c.x, c.y, c.w, c.h, sw, sh);
    EdgeOnScreen(p, p.clip.value.top, VisibleTop(g));
    EdgeOnScreen(p, p.clip.value.bottom, VisibleBottom(g));
  }

  /** A height inside the canvas, less two at its top and bottom (but at least one high), and inside the
      viewport. */
  predicate AtBoth(g: Geometry, y: real) {
    && g.y + 2.0 < y < g.y + 2.0 + (if g.h >= 5.0 then g.h - 4.0 else 1.0)
    && g.viewY < y < g.viewY + g.viewH
  }

  /** Any canvas is inset by two on every side, as far as it has room, and the picture is hidden exactly
      when no height of it is inside the viewport. */
  lemma HiddenIffOutside(g: Geometry)
    ensures Inset(g) == Geometry(g.x + 2.0, g.y + 2.0, if g.w >= 5.0 then g.w - 4.0 else 1.0,
                                 if g.h >= 5.0 then g.h - 4.0 else 1.0, g.viewY, g.viewH)
    ensures !InView(g) <==> forall y :: !AtBoth(g, y)
  {
    var top, bottom := VisibleTop(g), VisibleBottom(g);
    if InView(g) {
      var y := (top + bottom) / 2.0;
      assert AtBoth(g, y);
    }
  }
}
