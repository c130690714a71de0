/**
 * The visual mappings the card swiper derives, every frame, from the displayed
 * horizontal pan `x` (CardSwiper.js `render`). Only the two indicator scales
 * clamp; the rotation, the card opacity and the two indicator opacities use
 * the library default `extend`, so they keep changing past their ranges.
 * Angles are in degrees.
 */
module CardStyle {
  import opened Interpolation
  import opened Reals

  const RotationConfig := Config([-200.0, 0.0, 200.0], [-30.0, 0.0, 30.0], Extend)
  const CardOpacityConfig := Config([-200.0, 0.0, 200.0], [0.5, 1.0, 0.5], Extend)
  const LeftOpacityConfig := Config([-150.0, 0.0], [1.0, 0.0], Extend)
  const LeftScaleConfig := Config([-150.0, 0.0], [1.0, 0.5], Clamp)
  const RightOpacityConfig := Config([0.0, 150.0], [0.0, 1.0], Extend)
  const RightScaleConfig := Config([0.0, 150.0], [0.5, 1.0], Clamp)

  /** The card's rotation: 30 degrees per 200 units of drag, on both sides and
      without limit (not clamped at 30 degrees). */
  function Rotation(x: real): (deg: real)
    ensures deg == 3.0 * x / 20.0
  {
    Interpolate(x, RotationConfig)
  }

  /** The card's opacity: 1 at rest, 0.5 at 200 units either way, falling by
      one unit per 400 units of drag; hence symmetric in `x`. */
  function CardOpacity(x: real): (o: real)
    ensures o == 1.0 - Abs(x) / 400.0
  {
    Interpolate(x, CardOpacityConfig)
  }

  /** The right indicator's opacity: 0 at rest, 1 at 150, linear and unclamped. */
  function RightOpacity(x: real): (o: real)
    ensures o == x / 150.0
  {
    ExtendIsAffine(RightOpacityConfig, x);
    Interpolate(x, RightOpacityConfig)
  }

  /** The left indicator's opacity mirrors the right one's. */
  function LeftOpacity(x: real): (o: real)
    ensures o == RightOpacity(-x)
  {
    ExtendIsAffine(LeftOpacityConfig, x);
    Interpolate(x, LeftOpacityConfig)
  }

  /** The right indicator's scale: 0.5 at or left of rest, 1 from 150 on,
      linear in between; never outside [0.5, 1]. */
  function RightScale(x: real): (s: real)
    ensures 0.5 <= s <= 1.0
    ensures x <= 0.0 ==> s == 0.5
    ensures x >= 150.0 ==> s == 1.0
    ensures 0.0 <= x <= 150.0 ==> s == 0.5 + x / 300.0
  {
    ClampStaysInSegment(RightScaleConfig, x);
    Interpolate(x, RightScaleConfig)
  }

  /** The left indicator's scale mirrors the right one's. */
  function LeftScale(x: real): (s: real)
    ensures s == RightScale(-x)
  {
    Interpolate(x, LeftScaleConfig)
  }

  /** The card's opacity is symmetric in the drag, and the rotation odd. */
  lemma CardMappingsSymmetric(x: real)
    ensures CardOpacity(-x) == CardOpacity(x)
    ensures Rotation(-x) == -Rotation(x)
  {
  }

  /** The points the mappings are declared through, and one past the rotation's
      range: at 300 units the card is turned 45 degrees. */
  lemma MappingKnots()
    ensures Rotation(-200.0) == -30.0 && Rotation(0.0) == 0.0 && Rotation(200.0) == 30.0
    ensures Rotation(300.0) == 45.0
    ensures CardOpacity(0.0) == 1.0 && CardOpacity(200.0) == 0.5 && CardOpacity(-200.0) == 0.5
    ensures RightOpacity(0.0) == 0.0 && RightOpacity(150.0) == 1.0
    ensures LeftOpacity(0.0) == 0.0 && LeftOpacity(-150.0) == 1.0
  {
  }
}
