/**
 * Frame file names. Frame i (1-based on disk) is fetched from
 * prefix + "ezgif-frame-" + i zero-padded to three digits + ".jpg".
 * The padding is JavaScript's `i.toString().padStart(3, "0")`: it never
 * truncates, so numbers of four or more digits keep all their digits.
 */
module Naming {

  predicate IsDigit(c: char) { '0' <= c <= '9' }

  predicate AllDigits(s: string) { forall k :: 0 <= k < |s| ==> IsDigit(s[k]) }

  function Digit(d: nat): (c: char)
    requires d < 10
    ensures IsDigit(c)
  {
    ('0' as int + d) as char
  }

  function DigitValue(c: char): (d: nat)
    requires IsDigit(c)
    ensures d < 10
  {
    c as int - '0' as int
  }

  /** `n.toString()` for a non-negative integer: its decimal digits, no leading zeros. */
  function Decimal(n: nat): (s: string)
    ensures 1 <= |s| && AllDigits(s)
    ensures n < 10 ==> |s| == 1
    ensures n < 100 ==> |s| <= 2
    ensures n < 1000 ==> |s| <= 3
    ensures |s| > 1 ==> s[0] != '0'
  {
    if n < 10 then [Digit(n)] else Decimal(n / 10) + [Digit(n % 10)]
  }

  /** The number a string of decimal digits denotes (leading zeros allowed). */
  function ValueOf(s: string): nat
    requires AllDigits(s)
  {
    if s == [] then 0 else ValueOf(s[..|s| - 1]) * 10 + DigitValue(s[|s| - 1])
  }

  /** `s.padStart(len, fill)` for a one-character fill. */
  function PadStart(s: string, len: nat, fill: char): (r: string)
    ensures |r| == if |s| >= len then |s| else len
    ensures r[|r| - |s|..] == s
    ensures forall k :: 0 <= k < |r| - |s| ==> r[k] == fill
  {
    if |s| >= len then s else seq(len - |s|, _ => fill) + s
  }

  /** The three-digit (at least) frame number: the decimal digits of i with
      zeros in front up to three characters. */
  function Pad3(i: nat): (s: string)
    ensures |s| == if |Decimal(i)| >= 3 then |Decimal(i)| else 3
    ensures AllDigits(s)
    ensures i < 1000 ==> |s| == 3
    ensures s[|s| - |Decimal(i)|..] == Decimal(i)
    ensures forall k :: 0 <= k < |s| - |Decimal(i)| ==> s[k] == '0'
  {
    PadStart(Decimal(i), 3, '0')
  }

  /** Reading the decimal string back yields the number. */
  lemma {:induction false} DecimalValue(n: nat)
    ensures ValueOf(Decimal(n)) == n
  {
    if n >= 10 {
      var s := Decimal(n / 10) + [Digit(n % 10)];
      assert s[..|s| - 1] == Decimal(n / 10);
      DecimalValue(n / 10);
    }
  }

  /** Leading zeros do not change the value of a digit string. */
  lemma {:induction false} LeadingZeros(z: string, s: string)
    requires forall k :: 0 <= k < |z| ==> z[k] == '0'
    requires AllDigits(s)
    ensures AllDigits(z + s) && ValueOf(z + s) == ValueOf(s)
    decreases |z| + |s|
  {
    assert AllDigits(z + s);
    if s == [] {
      assert z + s == z;
      if z != [] {
        LeadingZeros(z[..|z| - 1], []);
        assert z[..|z| - 1] + [] == z[..|z| - 1];
      }
    } else {
      var t := s[..|s| - 1];
      assert (z + s)[..|z + s| - 1] == z + t;
      LeadingZeros(z, t);
    }
  }

  /** The padded frame number reads back as i. */
  lemma Pad3Spec(i: nat)
    ensures ValueOf(Pad3(i)) == i
  {
    var d := Decimal(i);
    var p := Pad3(i);
    DecimalValue(i);
    if |d| < 3 {
      var z := seq(3 - |d|, _ => '0');
      assert p == z + d;
      LeadingZeros(z, d);
    } else {
      assert p == d;
    }
  }

  /** Distinct frame numbers get distinct padded names. */
  lemma Pad3Injective(i: nat, j: nat)
    requires Pad3(i) == Pad3(j)
    ensures i == j
  {
    Pad3Spec(i);
    Pad3Spec(j);
  }

  /** The source of frame i: the folder, "ezgif-frame-", the padded number, ".jpg". */
  function FramePath(prefix: string, i: nat): (p: string)
    ensures |p| == |prefix| + 16 + |Pad3(i)|
    ensures p[..|prefix|] == prefix && p[|p| - 4..] == ".jpg"
  {
    prefix + "ezgif-frame-" + Pad3(i) + ".jpg"
  }

  /** Every frame of a sequence is fetched from its own file. */
  lemma FramePathInjective(prefix: string, i: nat, j: nat)
    requires FramePath(prefix, i) == FramePath(prefix, j)
    ensures i == j
  {
    var a, b := FramePath(prefix, i), FramePath(prefix, j);
    var n := |prefix| + 12;
    assert |Pad3(i)| == |a| - n - 4 == |Pad3(j)|;
    assert a[n..|a| - 4] == Pad3(i);
    assert b[n..|b| - 4] == Pad3(j);
    Pad3Injective(i, j);
  }

  /** The frame number in a path: the digits between "ezgif-frame-" and ".jpg". */
  lemma FramePathNumber(prefix: string, i: nat)
    ensures var p := FramePath(prefix, i);
      AllDigits(p[|prefix| + 12..|p| - 4]) && ValueOf(p[|prefix| + 12..|p| - 4]) == i
      && (i < 1000 ==> |p| == |prefix| + 19)
  {
    Pad3Spec(i);
  }

  /** The requests of a loader for frames 1..n, in order. */
  function FramePaths(prefix: string, n: nat): (r: seq<string>)
    ensures |r| == n
    ensures forall k :: 0 <= k < n ==> r[k] == FramePath(prefix, k + 1)
  {
    seq(n, k requires 0 <= k < n => FramePath(prefix, k + 1))
  }

  /** One more request appends the next frame's path. */
  lemma FramePathsSnoc(prefix: string, n: nat)
    ensures FramePaths(prefix, n + 1) == FramePaths(prefix, n) + [FramePath(prefix, n + 1)]
  {
    var a, b := FramePaths(prefix, n + 1), FramePaths(prefix, n) + [FramePath(prefix, n + 1)];
    assert forall k :: 0 <= k < n + 1 ==> a[k] == b[k];
  }

  /** Sequence folders of the four players. */
  const HeroPath := "/obsidian_sequence_images/"
  const ChassisPath := "/Chesis_Sequence/"
  const EnginePath := "/Engine_Sequence/"
  const DesignPath := "/Car_Design_Sequence/"

  /** Frame 1 and frame 40 of the hero sequence. */
  lemma HeroPathExamples()
    ensures FramePath(HeroPath, 1) == "/obsidian_sequence_images/ezgif-frame-001.jpg"
    ensures FramePath(HeroPath, 40) == "/obsidian_sequence_images/ezgif-frame-040.jpg"
  {
    assert Decimal(1) == "1" && Decimal(40) == "40";
    assert PadStart("1", 3, '0') == "001";
    assert PadStart("40", 3, '0') == "040";
  }
}
