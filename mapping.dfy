/**
 * Scroll progress to frame index. The frame value is progress mapped
 * linearly from [0, 1] onto [0, frameCount - 1] (clamped, by the same
 * interpolator as the overlays); the index is its floor, bounded by the
 * length of the published image array. The section players clamp on both
 * sides; the hero only takes the minimum with the last index.
 */
module Mapping {
  import opened Interpolation

  /** The two keyframes of `useTransform(progress, [0, 1], [0, frameCount - 1])`. */
  function FrameKeys(frameCount: int): seq<Key>
  {
    [Key(0.0, 0.0), Key(1.0, (frameCount - 1) as real)]
  }

  /** The frame value of progress p: 0 at or before the top, frameCount - 1 at
      or after the bottom, and never outside [0, frameCount - 1]. */
  function FrameValue(p: real, frameCount: int): (v: real)
    ensures frameCount >= 1 ==> 0.0 <= v <= (frameCount - 1) as real
    ensures p <= 0.0 ==> v == 0.0
    ensures 1.0 <= p ==> v == (frameCount - 1) as real
  {
    if frameCount >= 1 then
      InterpWithin(FrameKeys(frameCount), p, 0.0, (frameCount - 1) as real);
      Interp(FrameKeys(frameCount), p)
    else
      Interp(FrameKeys(frameCount), p)
  }

  /** Inside [0, 1] the frame value is the straight line p * (frameCount - 1). */
  lemma FrameValueSpec(p: real, frameCount: int)
    ensures 0.0 <= p <= 1.0 ==> FrameValue(p, frameCount) == p * (frameCount - 1) as real
  {
    if 0.0 <= p <= 1.0 {
      InterpLine(FrameKeys(frameCount)[0], FrameKeys(frameCount)[1], p);
    }
  }

  /** The frame value never decreases as the page scrolls down. */
  lemma FrameValueMonotone(p1: real, p2: real, frameCount: int)
    requires frameCount >= 1 && p1 <= p2
    ensures FrameValue(p1, frameCount) <= FrameValue(p2, frameCount)
  {
    InterpRising(Key(0.0, 0.0), Key(1.0, (frameCount - 1) as real), p1, p2);
  }

  /** `Math.min(Math.max(Math.floor(v), 0), len - 1)`: always a valid index, and
      exactly the floor whenever the floor is one. */
  function ClampIndex(v: real, len: nat): (i: int)
    requires len > 0
    ensures 0 <= i < len
    ensures 0 <= v.Floor < len ==> i == v.Floor
    ensures v.Floor < 0 ==> i == 0
    ensures len <= v.Floor ==> i == len - 1
  {
    var f := v.Floor;
    var lower := if f >= 0 then f else 0;
    if lower <= len - 1 then lower else len - 1
  }

  /** `Math.min(Math.floor(v), len - 1)`: never beyond the last index, and not
      negative for a non-negative value. */
  function MinIndex(v: real, len: nat): (i: int)
    requires len > 0
    ensures i <= len - 1
    ensures 0.0 <= v ==> 0 <= i
    ensures v.Floor <= len - 1 ==> i == v.Floor
    ensures len - 1 < v.Floor ==> i == len - 1
  {
    var f := v.Floor;
    if f <= len - 1 then f else len - 1
  }

  /** The index a section player draws at progress p, given the length of its image array. */
  function SectionFrame(p: real, frameCount: int, len: nat): (i: nat)
    requires len > 0
    ensures i < len
  {
    ClampIndex(FrameValue(p, frameCount), len)
  }

  /** The index the hero draws at progress p, given the length of its image array. */
  function HeroFrame(p: real, frameCount: int, len: nat): (i: nat)
    requires len > 0 && frameCount >= 1
    ensures i < len
  {
    MinIndex(FrameValue(p, frameCount), len)
  }

  lemma FloorMonotone(x: real, y: real)
    requires x <= y
    ensures x.Floor <= y.Floor
  {
  }

  /** Scrolling down never selects an earlier frame. */
  lemma SectionFrameMonotone(p1: real, p2: real, frameCount: int, len: nat)
    requires len > 0 && frameCount >= 1 && p1 <= p2
    ensures SectionFrame(p1, frameCount, len) <= SectionFrame(p2, frameCount, len)
  {
    FrameValueMonotone(p1, p2, frameCount);
    FloorMonotone(FrameValue(p1, frameCount), FrameValue(p2, frameCount));
  }

  lemma HeroFrameMonotone(p1: real, p2: real, frameCount: int, len: nat)
    requires len > 0 && frameCount >= 1 && p1 <= p2
    ensures HeroFrame(p1, frameCount, len) <= HeroFrame(p2, frameCount, len)
  {
    FrameValueMonotone(p1, p2, frameCount);
    FloorMonotone(FrameValue(p1, frameCount), FrameValue(p2, frameCount));
  }

  /** A value inside [0, len - 1] selects its own floor. */
  lemma ClampInRange(v: real, len: nat)
    requires len > 0 && 0.0 <= v <= (len - 1) as real
    ensures ClampIndex(v, len) == v.Floor && MinIndex(v, len) == v.Floor
  {
    FloorMonotone(0.0, v);
    FloorMonotone(v, (len - 1) as real);
  }

  /** With every frame published, the index is floor(p * (N - 1)): frame 0 at the
      top, frame N - 1 at the bottom. */
  lemma SectionFrameFormula(p: real, n: nat)
    requires n >= 1 && 0.0 <= p <= 1.0
    ensures SectionFrame(p, n, n) == (p * (n - 1) as real).Floor
    ensures p == 0.0 ==> SectionFrame(p, n, n) == 0
    ensures p == 1.0 ==> SectionFrame(p, n, n) == n - 1
  {
    FrameValueSpec(p, n);
    ClampInRange(FrameValue(p, n), n);
  }

  lemma HeroFrameFormula(p: real, n: nat)
    requires n >= 1 && 0.0 <= p <= 1.0
    ensures HeroFrame(p, n, n) == (p * (n - 1) as real).Floor
    ensures p == 0.0 ==> HeroFrame(p, n, n) == 0
    ensures p == 1.0 ==> HeroFrame(p, n, n) == n - 1
  {
    FrameValueSpec(p, n);
    ClampInRange(FrameValue(p, n), n);
  }
}
