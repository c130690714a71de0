/**
 * The pure decisions the card swiper takes when a drag is released
 * (CardSwiper.js `onPanResponderRelease`): the fling velocity handed to the
 * decay, and whether the drag commits a swipe, and in which direction.
 */
module SwipeRules {
  import opened Reals

  /** The `clamp` package: pins `v` to the interval between `min` and `max`,
      whichever order the two bounds are given in. */
  function ClampValue(v: real, min: real, max: real): real {
    if min < max then (if v < min then min else if v > max then max else v)
    else (if v < max then max else if v > min then min else v)
  }

  const MinFlingSpeed := 3.0
  const MaxFlingSpeed := 5.0

  /** The decay's horizontal velocity: the release velocity's magnitude pinned
      to [3, 5], with its sign kept; a zero velocity counts as rightwards. */
  function DecayVelocityX(vx: real): (v: real)
    ensures MinFlingSpeed <= Abs(v) <= MaxFlingSpeed
    ensures v > 0.0 <==> vx >= 0.0
    ensures MinFlingSpeed <= Abs(vx) <= MaxFlingSpeed ==> v == vx
    ensures Abs(vx) < MinFlingSpeed ==> Abs(v) == MinFlingSpeed
    ensures Abs(vx) > MaxFlingSpeed ==> Abs(v) == MaxFlingSpeed
  {
    if vx >= 0.0 then ClampValue(vx, MinFlingSpeed, MaxFlingSpeed)
    else ClampValue(vx * -1.0, MinFlingSpeed, MaxFlingSpeed) * -1.0
  }

  /** How far the card must be dragged, strictly, for a release to commit. */
  const SwipeThreshold := 120.0

  datatype Direction = Left | Right

  datatype Decision = Commit(direction: Direction) | Cancel

  /** A release commits exactly when the card was dragged more than 120 units
      either way (120 itself springs back), rightwards exactly when `x > 0`. */
  function Decide(x: real): (d: Decision)
    ensures d.Commit? <==> (x > 120.0 || x < -120.0)
    ensures d.Commit? ==> (d.direction == Right <==> x > 0.0)
  {
    if Abs(x) > SwipeThreshold then Commit(if x > 0.0 then Right else Left) else Cancel
  }
}
