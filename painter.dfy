/**
 * The visible canvas as a value. Every paint either clears the canvas and
 * draws one frame, or leaves it as it was, so what is visible is at most one
 * picture: the last frame drawn and the rectangle it was drawn into. Assigning
 * a canvas's width or height resets its bitmap, so a resize leaves it blank.
 */
module Painter {
  import opened Wrappers
  import opened Geometry

  /** One drawn frame: its index, its image and where it was drawn. */
  datatype Picture = Picture(frame: nat, image: Image, dest: Rect)

  /** A canvas of width x height pixels showing `content`; `None` is blank. */
  datatype Canvas = Canvas(width: nat, height: nat, content: Option<Picture>)

  /** The default size of a canvas element that has never been sized. */
  const InitialCanvas := Canvas(300, 150, None)

  /** Setting the canvas to w x h: the bitmap is reset, so the canvas is the
      same as a fresh one of that size. */
  function Resized(w: nat, h: nat): (c: Canvas)
    ensures c == InitialCanvas.(width := w, height := h)
  {
    Canvas(w, h, None)
  }

  /**
   * A section player's drawImage(i): a hole (or an index past the array) returns
   * before clearing, so the canvas is unchanged; otherwise the canvas is cleared
   * and frame i is drawn with a contain fit.
   */
  function SectionPaint(c: Canvas, slots: seq<Option<Image>>, i: int): (r: Canvas)
    ensures r.width == c.width && r.height == c.height
  {
    if 0 <= i < |slots| && slots[i].Some? then
      c.(content := Some(Picture(i, slots[i].value, ContainFit(c.width, c.height, slots[i].value))))
    else c
  }

  /**
   * The hero's paint of slot i (an element that is always present, since the
   * hero keeps failed elements too): the canvas is cleared, then the frame is
   * drawn with a cover fit; a failed element paints nothing.
   */
  function HeroPaint(c: Canvas, slots: seq<Option<Image>>, i: nat): (r: Canvas)
    requires i < |slots|
    ensures r.width == c.width && r.height == c.height
  {
    c.(content :=
         if slots[i].Some? then Some(Picture(i, slots[i].value, CoverFit(c.width, c.height, slots[i].value)))
         else None)
  }

  /** The picture is drawn inside the canvas: contain never crops. */
  predicate Inside(c: Canvas)
  {
    c.content.Some? ==>
      var d := c.content.value.dest;
      0.0 <= d.x && 0.0 <= d.y && d.x + d.w <= c.width as real && d.y + d.h <= c.height as real
  }

  /** The picture fully covers the canvas. */
  predicate Covered(c: Canvas)
  {
    c.content.Some? ==>
      var d := c.content.value.dest;
      d.x <= 0.0 && d.y <= 0.0 && c.width as real <= d.x + d.w && c.height as real <= d.y + d.h
  }

  /** A section paint of a present frame shows exactly that frame, inside the
      canvas, whatever was visible before; a hole leaves the canvas as it was. */
  lemma SectionPaintShows(c: Canvas, slots: seq<Option<Image>>, i: int)
    requires Inside(c)
    ensures Inside(SectionPaint(c, slots, i))
    ensures 0 <= i < |slots| && slots[i].Some? ==>
      SectionPaint(c, slots, i).content.Some? && SectionPaint(c, slots, i).content.value.frame == i
      && SectionPaint(c, slots, i).content.value.image == slots[i].value
    ensures !(0 <= i < |slots| && slots[i].Some?) ==> SectionPaint(c, slots, i) == c
  {
  }

  /** No accumulation: after painting a present frame, what is visible does not
      depend on what was visible before. */
  lemma SectionPaintForgets(c1: Canvas, c2: Canvas, slots: seq<Option<Image>>, i: int)
    requires c1.width == c2.width && c1.height == c2.height
    requires 0 <= i < |slots| && slots[i].Some?
    ensures SectionPaint(c1, slots, i) == SectionPaint(c2, slots, i)
  {
  }

  /** Painting the same index twice is the same as painting it once. */
  lemma SectionPaintIdempotent(c: Canvas, slots: seq<Option<Image>>, i: int)
    ensures SectionPaint(SectionPaint(c, slots, i), slots, i) == SectionPaint(c, slots, i)
  {
  }

  /** Missing-frame retention: painting a hole after frame k keeps frame k visible. */
  lemma SectionHoleKeepsLast(c: Canvas, slots: seq<Option<Image>>, k: nat, i: nat)
    requires k < |slots| && slots[k].Some?
    requires i < |slots| && slots[i].None?
    ensures SectionPaint(SectionPaint(c, slots, k), slots, i) == SectionPaint(c, slots, k)
    ensures SectionPaint(SectionPaint(c, slots, k), slots, i).content.value.frame == k
  {
  }

  /** A hero paint shows frame i covering the canvas, or nothing for a failed
      element; earlier content never survives. */
  lemma HeroPaintShows(c: Canvas, slots: seq<Option<Image>>, i: nat)
    requires i < |slots|
    ensures Covered(HeroPaint(c, slots, i))
    ensures slots[i].Some? <==> HeroPaint(c, slots, i).content.Some?
    ensures slots[i].Some? ==> HeroPaint(c, slots, i).content.value.frame == i
  {
  }

  lemma HeroPaintIdempotent(c: Canvas, slots: seq<Option<Image>>, i: nat)
    requires i < |slots|
    ensures HeroPaint(HeroPaint(c, slots, i), slots, i) == HeroPaint(c, slots, i)
  {
  }

  /**
   * The hero's resize draw: no clear of its own; a loaded frame is drawn with a
   * cover fit and a failed element draws nothing, so the canvas is left as it was.
   */
  function HeroDrawNoClear(c: Canvas, slots: seq<Option<Image>>, i: nat): (r: Canvas)
    requires i < |slots|
    ensures r.width == c.width && r.height == c.height
    ensures slots[i].None? ==> r == c
  {
    if slots[i].Some? then
      c.(content := Some(Picture(i, slots[i].value, CoverFit(c.width, c.height, slots[i].value))))
    else c
  }

  /** The resize has already blanked the bitmap, so its draw without a clear equals
      a clear-then-draw; on a canvas that was not reset, a failed element would
      leave the old picture visible instead. */
  lemma HeroResizeNeedsNoClear(c: Canvas, slots: seq<Option<Image>>, i: nat, w: nat, h: nat)
    requires i < |slots|
    ensures HeroDrawNoClear(Resized(w, h), slots, i) == HeroPaint(Resized(w, h), slots, i)
    ensures slots[i].None? && c.content.Some? ==> HeroDrawNoClear(c, slots, i) != HeroPaint(c, slots, i)
  {
  }

  /** A resize to 1200x900, whatever the canvas was before, redraws a 1920x1080 frame k contained at
      ratio 0.625, 112.5 px from the top. */
  lemma SectionResizeExample(slots: seq<Option<Image>>, k: nat)
    requires k < |slots| && slots[k] == Some(Image(1920, 1080))
    ensures SectionPaint(Resized(1200, 900), slots, k).content
         == Some(Picture(k, Image(1920, 1080), Rect(0.0, 112.5, 1200.0, 675.0)))
  {
    ContainExample();
  }
}
