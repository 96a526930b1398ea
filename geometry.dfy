/**
 * Aspect-preserving fit of a frame image onto a canvas. The hero scales to
 * COVER the canvas (larger of the two axis ratios); the section players scale
 * to be CONTAINED in it (smaller ratio). Either way the scaled image is centred:
 * x = (W - iw*ratio)/2, y = (H - ih*ratio)/2. Arithmetic is on exact reals.
 */
module Geometry {

  /** A strictly positive pixel dimension. */
  type Pos = n: int | n > 0 witness 1

  /** A decoded frame, reduced to its intrinsic size. */
  datatype Image = Image(width: Pos, height: Pos)

  /** The destination rectangle of one drawImage call, in canvas pixels. */
  datatype Rect = Rect(x: real, y: real, w: real, h: real)

  function Min(a: real, b: real): real { if a <= b then a else b }

  function Max(a: real, b: real): real { if a >= b then a else b }

  /** The image scaled by `s` and centred on a `cw` x `ch` canvas. */
  function Centred(cw: nat, ch: nat, img: Image, s: real): Rect
  {
    var w := img.width as real * s;
    var h := img.height as real * s;
    Rect((cw as real - w) / 2.0, (ch as real - h) / 2.0, w, h)
  }

  /** The contain ratio: the scaled image fits on both axes and touches the canvas on one. */
  function ContainRatio(cw: nat, ch: nat, img: Image): (s: real)
    ensures 0.0 <= s
    ensures s * img.width as real <= cw as real && s * img.height as real <= ch as real
    ensures s * img.width as real == cw as real || s * img.height as real == ch as real
  {
    var hRatio := cw as real / img.width as real;
    var vRatio := ch as real / img.height as real;
    assert hRatio * img.width as real == cw as real;
    assert vRatio * img.height as real == ch as real;
    Min(hRatio, vRatio)
  }

  /** The cover ratio: the scaled image spans both axes and matches the canvas on one. */
  function CoverRatio(cw: nat, ch: nat, img: Image): (s: real)
    ensures 0.0 <= s
    ensures s * img.width as real >= cw as real && s * img.height as real >= ch as real
    ensures s * img.width as real == cw as real || s * img.height as real == ch as real
  {
    var hRatio := cw as real / img.width as real;
    var vRatio := ch as real / img.height as real;
    assert hRatio * img.width as real == cw as real;
    assert vRatio * img.height as real == ch as real;
    Max(hRatio, vRatio)
  }

  /** Contain fit: the drawn rectangle lies inside the canvas, fills it on one
      axis, keeps the image's aspect ratio and leaves equal margins on opposite sides. */
  function ContainFit(cw: nat, ch: nat, img: Image): (r: Rect)
    ensures r.w <= cw as real && r.h <= ch as real
    ensures r.w == cw as real || r.h == ch as real
    ensures 0.0 <= r.x && 0.0 <= r.y
    ensures r.x == cw as real - (r.x + r.w) && r.y == ch as real - (r.y + r.h)
    ensures r.w * img.height as real == r.h * img.width as real
  {
    Centred(cw, ch, img, ContainRatio(cw, ch, img))
  }

  /** Cover fit: the drawn rectangle spans the whole canvas, matches it on one
      axis, keeps the image's aspect ratio and overflows equally on opposite sides. */
  function CoverFit(cw: nat, ch: nat, img: Image): (r: Rect)
    ensures r.w >= cw as real && r.h >= ch as real
    ensures r.w == cw as real || r.h == ch as real
    ensures r.x <= 0.0 && r.y <= 0.0
    ensures r.x == cw as real - (r.x + r.w) && r.y == ch as real - (r.y + r.h)
    ensures r.w * img.height as real == r.h * img.width as real
  {
    Centred(cw, ch, img, CoverRatio(cw, ch, img))
  }

  /** Contain picks the LARGEST scale at which the whole image is visible. */
  lemma ContainIsLargest(cw: nat, ch: nat, img: Image, s: real)
    requires s * img.width as real <= cw as real && s * img.height as real <= ch as real
    ensures s <= ContainRatio(cw, ch, img)
    ensures img.width as real * s <= ContainFit(cw, ch, img).w
  {
    var r := ContainRatio(cw, ch, img);
    if r * img.width as real == cw as real {
      assert s * img.width as real <= r * img.width as real;
    } else {
      assert s * img.height as real <= r * img.height as real;
    }
  }

  /** Cover picks the SMALLEST scale at which the canvas is fully painted. */
  lemma CoverIsSmallest(cw: nat, ch: nat, img: Image, s: real)
    requires s * img.width as real >= cw as real && s * img.height as real >= ch as real
    ensures CoverRatio(cw, ch, img) <= s
    ensures CoverFit(cw, ch, img).w <= img.width as real * s
  {
    var r := CoverRatio(cw, ch, img);
    if r * img.width as real == cw as real {
      assert r * img.width as real <= s * img.width as real;
    } else {
      assert r * img.height as real <= s * img.height as real;
    }
  }

  /** A 1920x1080 frame contained in a 1200x900 canvas: ratio 0.625, letterboxed
      with 112.5 px above and below. */
  lemma ContainExample()
    ensures ContainRatio(1200, 900, Image(1920, 1080)) == 0.625
    ensures ContainFit(1200, 900, Image(1920, 1080)) == Rect(0.0, 112.5, 1200.0, 675.0)
  {
  }
}
