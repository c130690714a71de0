/**
 * The semantics of React Native's `AnimatedValue.interpolate`, on which every
 * visual mapping of the card swiper rests: piecewise-linear interpolation over
 * an input range and an output range of the same length, with the default
 * `extend` extrapolation (the end segments' lines go on past the range) or
 * `clamp` (the input is first pinned to the segment's ends). Easing is the
 * library default, the identity.
 */
module Interpolation {

  datatype Extrapolate = Extend | Clamp

  datatype Config = Config(inputRange: seq<real>, outputRange: seq<real>, extrapolate: Extrapolate)

  /** What the library checks before interpolating: at least two points, as many
      outputs as inputs, and a non-decreasing input range. */
  predicate ValidConfig(c: Config) {
    && |c.inputRange| >= 2
    && |c.outputRange| == |c.inputRange|
    && forall i, j :: 0 <= i < j < |c.inputRange| ==> c.inputRange[i] <= c.inputRange[j]
  }

  /** The library's segment search, from position `k` on: the first interior
      point at or above the input closes the segment; past the last interior
      point the last segment is used. */
  function FindRangeFrom(input: real, r: seq<real>, k: nat): (i: nat)
    requires |r| >= 2 && 1 <= k <= |r| - 1
    decreases |r| - k
    ensures k - 1 <= i <= |r| - 2
    ensures forall j :: k <= j <= i ==> r[j] < input
    ensures i < |r| - 2 ==> input <= r[i + 1]
  {
    if k >= |r| - 1 || r[k] >= input then k - 1 else FindRangeFrom(input, r, k + 1)
  }

  /** The index of the segment `[r[i], r[i+1]]` used for `input`: every interior
      point up to `r[i]` lies strictly below the input, and unless it is the last
      segment, the segment's right end lies at or above it. */
  function FindRange(input: real, r: seq<real>): (i: nat)
    requires |r| >= 2
    ensures i <= |r| - 2
    ensures forall j :: 1 <= j <= i ==> r[j] < input
    ensures i < |r| - 2 ==> input <= r[i + 1]
  {
    FindRangeFrom(input, r, 1)
  }

  /** Interpolation within one segment, including the library's special cases
      for a flat output and for a zero-width input segment. */
  function InterpolateSegment(input: real, inMin: real, inMax: real, outMin: real, outMax: real, e: Extrapolate): real
    requires inMin <= inMax
  {
    var x :=
      if e == Clamp && input < inMin then inMin
      else if e == Clamp && input > inMax then inMax
      else input;
    if outMin == outMax then outMin
    else if inMin == inMax then (if input <= inMin then outMin else outMax)
    else (x - inMin) / (inMax - inMin) * (outMax - outMin) + outMin
  }

  function Interpolate(input: real, c: Config): real
    requires ValidConfig(c)
  {
    var i := FindRange(input, c.inputRange);
    InterpolateSegment(input, c.inputRange[i], c.inputRange[i + 1], c.outputRange[i], c.outputRange[i + 1], c.extrapolate)
  }

  predicate StrictlyIncreasing(r: seq<real>) {
    forall i, j :: 0 <= i < j < |r| ==> r[i] < r[j]
  }

  /** Interpolation passes through every point of the ranges. */
  lemma InterpolateAtKnot(c: Config, k: nat)
    requires ValidConfig(c) && StrictlyIncreasing(c.inputRange) && k < |c.inputRange|
    ensures Interpolate(c.inputRange[k], c) == c.outputRange[k]
  {
    var r := c.inputRange;
    var i := FindRange(r[k], r);
    assert i == k || i + 1 == k;
  }

  /** With two points and `extend`, interpolation is the line through them, on
      the whole real line. */
  lemma ExtendIsAffine(c: Config, x: real)
    requires ValidConfig(c) && |c.inputRange| == 2 && c.extrapolate == Extend
    requires c.inputRange[0] < c.inputRange[1] && c.outputRange[0] != c.outputRange[1]
    ensures Interpolate(x, c) ==
      (x - c.inputRange[0]) / (c.inputRange[1] - c.inputRange[0]) * (c.outputRange[1] - c.outputRange[0]) + c.outputRange[0]
  {
    assert FindRange(x, c.inputRange) == 0;
  }

  /** With `clamp`, the result stays between the outputs of its segment's ends. */
  lemma ClampStaysInSegment(c: Config, x: real)
    requires ValidConfig(c) && |c.inputRange| == 2 && c.extrapolate == Clamp
    requires c.inputRange[0] < c.inputRange[1]
    ensures var lo, hi := c.outputRange[0], c.outputRange[1];
      if lo <= hi then lo <= Interpolate(x, c) <= hi else hi <= Interpolate(x, c) <= lo
  {
    var in0, in1, lo, hi := c.inputRange[0], c.inputRange[1], c.outputRange[0], c.outputRange[1];
    assert FindRange(x, c.inputRange) == 0;
    if lo != hi {
      var y := if x < in0 then in0 else if x > in1 then in1 else x;
      var t := (y - in0) / (in1 - in0);
      UnitFraction(y - in0, in1 - in0);
      ScaleByUnit(t, hi - lo);
      assert Interpolate(x, c) == t * (hi - lo) + lo;
    }
  }

  lemma UnitFraction(a: real, b: real)
    requires 0.0 <= a <= b && b > 0.0
    ensures 0.0 <= a / b <= 1.0
  {
    assert a / b * b == a;
  }

  lemma ScaleByUnit(t: real, d: real)
    requires 0.0 <= t <= 1.0
    ensures d >= 0.0 ==> 0.0 <= t * d <= d
    ensures d < 0.0 ==> d <= t * d <= 0.0
  {
    assert d - t * d == (1.0 - t) * d;
  }
}
