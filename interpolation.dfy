/**
 * Clamped piecewise-linear interpolation, as the animation library's
 * `useTransform(value, input, output)` applies it: the input is clamped to
 * the first and last key, the segment is the first one whose right end lies
 * beyond the value (the last segment otherwise), and the output is mixed
 * linearly inside that segment. Overlay opacities and the frame value are
 * both given by it.
 */
module Interpolation {

  /** One keyframe: at progress `at` the output is `value`. */
  datatype Key = Key(at: real, value: real)

  predicate Increasing(keys: seq<Key>)
  {
    forall i, j :: 0 <= i < j < |keys| ==> keys[i].at < keys[j].at
  }

  /** A list of keyframes the interpolator accepts. */
  predicate WellFormed(keys: seq<Key>)
  {
    |keys| >= 2 && Increasing(keys)
  }

  function Clamp(lo: real, hi: real, v: real): (r: real)
    requires lo <= hi
    ensures lo <= r <= hi
    ensures lo <= v <= hi ==> r == v
    ensures v <= lo ==> r == lo
    ensures hi <= v ==> r == hi
  {
    if v < lo then lo else if hi < v then hi else v
  }

  /** Linear mix between two keys. */
  function Mix(a: Key, b: Key, v: real): real
    requires a.at < b.at
  {
    a.value + (b.value - a.value) * ((v - a.at) / (b.at - a.at))
  }

  /** The segment search, without clamping. */
  function Segment(keys: seq<Key>, v: real): real
    requires WellFormed(keys)
    decreases |keys|
  {
    if |keys| == 2 || v < keys[1].at then Mix(keys[0], keys[1], v)
    else Segment(keys[1..], v)
  }

  /** The interpolated output: the first value at or before the first key, the
      last value at or after the last key. */
  function Interp(keys: seq<Key>, v: real): (r: real)
    requires WellFormed(keys)
    ensures v <= keys[0].at ==> r == keys[0].value
    ensures keys[|keys| - 1].at <= v ==> r == keys[|keys| - 1].value
  {
    MixAtStart(keys[0], keys[1]);
    SegmentAtLast(keys);
    Segment(keys, Clamp(keys[0].at, keys[|keys| - 1].at, v))
  }

  /** Inside its segment a mix lies between the segment's two values. */
  lemma MixBetween(a: Key, b: Key, v: real, lo: real, hi: real)
    requires a.at < b.at && a.at <= v <= b.at
    requires lo <= a.value <= hi && lo <= b.value <= hi
    ensures lo <= Mix(a, b, v) <= hi
  {
    var d := b.at - a.at;
    var t := (v - a.at) / d;
    DivMonotone(0.0, v - a.at, d);
    DivMonotone(v - a.at, d, d);
    assert d / d == 1.0;
    StepBetween(a.value, b.value, t, lo, hi);
  }

  /** Moving a fraction t in [0, 1] from x towards y stays between lo and hi. */
  lemma StepBetween(x: real, y: real, t: real, lo: real, hi: real)
    requires 0.0 <= t <= 1.0
    requires lo <= x <= hi && lo <= y <= hi
    ensures lo <= x + (y - x) * t <= hi
  {
    var m := (y - x) * t;
    PartOf(y - x, t);
    assert y - x <= m <= 0.0 || 0.0 <= m <= y - x;
    assert lo <= x + m;
    assert x + m <= hi;
  }

  /** A fraction t in [0, 1] of an amount lies between 0 and the amount. */
  lemma PartOf(a: real, t: real)
    requires 0.0 <= t <= 1.0
    ensures 0.0 <= a ==> 0.0 <= a * t <= a
    ensures a < 0.0 ==> a <= a * t <= 0.0
  {
    assert a * (1.0 - t) == a - a * t;
    if 0.0 <= a {
      assert 0.0 <= a * (1.0 - t);
    } else {
      assert a * (1.0 - t) <= 0.0;
    }
  }

  lemma MixAtStart(a: Key, b: Key)
    requires a.at < b.at
    ensures Mix(a, b, a.at) == a.value
  {
  }

  lemma MixAtEnd(a: Key, b: Key)
    requires a.at < b.at
    ensures Mix(a, b, b.at) == b.value
  {
    assert (b.at - a.at) / (b.at - a.at) == 1.0;
  }

  lemma {:induction false} SegmentWithin(keys: seq<Key>, v: real, lo: real, hi: real)
    requires WellFormed(keys)
    requires keys[0].at <= v <= keys[|keys| - 1].at
    requires forall k :: 0 <= k < |keys| ==> lo <= keys[k].value <= hi
    ensures lo <= Segment(keys, v) <= hi
    decreases |keys|
  {
    if |keys| == 2 || v < keys[1].at {
      assert keys[1].at <= keys[|keys| - 1].at;
      MixBetween(keys[0], keys[1], v, lo, hi);
    } else {
      SegmentWithin(keys[1..], v, lo, hi);
    }
  }

  /** The output never leaves the range spanned by the keyframe values. */
  lemma InterpWithin(keys: seq<Key>, v: real, lo: real, hi: real)
    requires WellFormed(keys)
    requires forall k :: 0 <= k < |keys| ==> lo <= keys[k].value <= hi
    ensures lo <= Interp(keys, v) <= hi
  {
    SegmentWithin(keys, Clamp(keys[0].at, keys[|keys| - 1].at, v), lo, hi);
  }

  lemma {:induction false} SegmentAtLast(keys: seq<Key>)
    requires WellFormed(keys)
    ensures Segment(keys, keys[|keys| - 1].at) == keys[|keys| - 1].value
    decreases |keys|
  {
    if |keys| == 2 {
      MixAtEnd(keys[0], keys[1]);
    } else {
      assert keys[1].at < keys[|keys| - 1].at;
      SegmentAtLast(keys[1..]);
    }
  }

  lemma {:induction false} SegmentFlat(keys: seq<Key>, j: nat, v: real)
    requires WellFormed(keys) && j + 1 < |keys|
    requires keys[j].value == keys[j + 1].value
    requires keys[j].at <= v <= keys[j + 1].at
    ensures Segment(keys, v) == keys[j].value
    decreases |keys|
  {
    if j == 0 {
      if |keys| == 2 || v < keys[1].at {
      } else {
        assert keys[1..][0].at < keys[1..][1].at;
        MixAtStart(keys[1..][0], keys[1..][1]);
      }
    } else {
      assert keys[1].at <= keys[j].at;
      SegmentFlat(keys[1..], j - 1, v);
    }
  }

  /** Between two keys with the same value the output is that value. */
  lemma InterpFlat(keys: seq<Key>, j: nat, v: real)
    requires WellFormed(keys) && j + 1 < |keys|
    requires keys[j].value == keys[j + 1].value
    requires keys[j].at <= v <= keys[j + 1].at
    ensures Interp(keys, v) == keys[j].value
  {
    assert keys[0].at <= keys[j].at && keys[j + 1].at <= keys[|keys| - 1].at;
    SegmentFlat(keys, j, v);
  }

  lemma {:induction false} SegmentLine(keys: seq<Key>, j: nat, v: real)
    requires WellFormed(keys) && j + 1 < |keys|
    requires keys[j].at <= v <= keys[j + 1].at
    ensures Segment(keys, v) == Mix(keys[j], keys[j + 1], v)
    decreases |keys|
  {
    if j == 0 {
      if |keys| == 2 || v < keys[1].at {
      } else {
        assert keys[1].at < keys[2].at;
        MixAtStart(keys[1], keys[2]);
        MixAtEnd(keys[0], keys[1]);
      }
    } else {
      assert keys[1].at <= keys[j].at;
      SegmentLine(keys[1..], j - 1, v);
    }
  }

  /** Between two adjacent keys the output is the linear mix of their values. */
  lemma InterpBetween(keys: seq<Key>, j: nat, v: real)
    requires WellFormed(keys) && j + 1 < |keys|
    requires keys[j].at <= v <= keys[j + 1].at
    ensures Interp(keys, v) == Mix(keys[j], keys[j + 1], v)
  {
    assert keys[0].at <= keys[j].at && keys[j + 1].at <= keys[|keys| - 1].at;
    SegmentLine(keys, j, v);
  }

  /** With two keys, inside the range, the output is the straight line through them. */
  lemma InterpLine(a: Key, b: Key, v: real)
    requires a.at < b.at && a.at <= v <= b.at
    ensures Interp([a, b], v) == a.value + (b.value - a.value) * (v - a.at) / (b.at - a.at)
  {
  }

  lemma DivMonotone(x: real, y: real, d: real)
    requires 0.0 < d && x <= y
    ensures x / d <= y / d
  {
    assert y / d - x / d == (y - x) / d;
  }

  lemma ScaleMonotone(x: real, y: real, k: real)
    requires 0.0 <= k && x <= y
    ensures k * x <= k * y
  {
    assert k * y - k * x == k * (y - x);
  }

  /** With two keys and a rising output, the output rises with the input. */
  lemma InterpRising(a: Key, b: Key, v1: real, v2: real)
    requires a.at < b.at && a.value <= b.value && v1 <= v2
    ensures Interp([a, b], v1) <= Interp([a, b], v2)
  {
    var c1 := Clamp(a.at, b.at, v1);
    var c2 := Clamp(a.at, b.at, v2);
    assert c1 <= c2;
    var t1 := (c1 - a.at) / (b.at - a.at);
    var t2 := (c2 - a.at) / (b.at - a.at);
    DivMonotone(c1 - a.at, c2 - a.at, b.at - a.at);
    ScaleMonotone(t1, t2, b.value - a.value);
  }

  /** Keyframes of a caption that is fully visible at the top and gone once the
      progress reaches `end`: input [0, end], output [1, 0]. */
  function FadeOutKeys(end: real): seq<Key>
  {
    [Key(0.0, 1.0), Key(end, 0.0)]
  }

  /** A fade-out is 1 up to the top, 0 from `end` on, and 1 - p / end in between. */
  lemma FadeOutSpec(end: real, p: real)
    requires 0.0 < end
    ensures WellFormed(FadeOutKeys(end))
    ensures 0.0 <= Interp(FadeOutKeys(end), p) <= 1.0
    ensures p <= 0.0 ==> Interp(FadeOutKeys(end), p) == 1.0
    ensures end <= p ==> Interp(FadeOutKeys(end), p) == 0.0
    ensures 0.0 <= p <= end ==> Interp(FadeOutKeys(end), p) == 1.0 - p / end
  {
    var keys := FadeOutKeys(end);
    InterpWithin(keys, p, 0.0, 1.0);
    if 0.0 <= p <= end {
      InterpLine(keys[0], keys[1], p);
    }
  }
}
