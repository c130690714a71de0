# Card swiper: a Dafny model

This project models the swipe-card picker of a small React Native app. The
app shows a deck of "place" cards one at a time. The user drags the top card
and lets go. A drag of more than 120 units commits a swipe: the card is flung
away and the next card comes in. A shorter drag springs the card back.

Two pieces of the app are modelled:

- The card-swiper component (`src/components/CardSwiper.js`). It is a class,
  `CardSwiperComponent.CardSwiper`, with the component's state as fields: the
  shown card, the pan value (raw value plus offset), the `enter` value, the
  transitions it has requested, and a log of the callbacks it has made to its
  host. The gesture handlers (grant, move, release), the three settle events and
  `_resetState` / `_goToNextCard` / `_animateEntrance` are methods that update
  those fields. The pure decisions they call are separate modules:
  - `Deck`: `indexOf` and the next-card rule.
  - `SwipeRules`: the velocity clamp and the commit decision.
  - `CardStyle`: the render mappings.
  - `Interpolation`: the `interpolate` semantics those mappings rest on.
- `Card.formatMinutes` (`src/components/Card.js`): module `TimeFormat`.
  A thrown `RangeError` is a `Failure` result.

Animations are requested transitions: a spring towards a target, or a decay
from a velocity, plus the completion attached to it. The physics that moves a
value is not modelled. Only the moment a transition settles is modelled, as an
event (`SpringSettled`, `DecaySettled`, `EntranceSettled`).

Where the code's behaviour differs from what the gesture API's names or the
declared ranges suggest, the model follows the code:

- A move SETS the raw pan value to the gesture's cumulative displacement. It
  does not add a delta.
- The rotation uses the default `extend` extrapolation. It is not clamped at
  30 degrees: 300 units of drag turn the card 45 degrees (`CardStyle.MappingKnots`).
- The deck keeps the card itself, not an index. The next card is found by the
  card's FIRST occurrence in the deck. Advancing from no card gives the first
  card again (`Deck.AdvanceFromNone`). An exhausted swiper stays exhausted
  only because no card view is rendered, so no gesture handler is attached.
  The gesture methods do nothing when there is no card. `DecaySettled` needs a
  decay in flight, and `Valid()` ties a decay in flight to a shown card.

## Model

| member | source | states |
|---|---|---|
| `Interpolation.FindRange` | src/components/CardSwiper.js:195-206 | the segment used for an input: all interior points up to it lie strictly below the input, and the next point, unless it is the last, lies at or above it |
| `Interpolation.InterpolateAtKnot` | src/components/CardSwiper.js:195-206 | an interpolation over a strictly increasing input range passes through every declared point |
| `Interpolation.ExtendIsAffine` | src/components/CardSwiper.js:201 | a two-point `extend` mapping is the line through its two points on the whole real line |
| `Interpolation.ClampStaysInSegment` | src/components/CardSwiper.js:202 | a two-point `clamp` mapping never leaves the interval between its two outputs |
| `CardStyle.Rotation` | src/components/CardSwiper.js:195 | rotation is 3/20 degree per unit of drag everywhere, not clamped at ±30 |
| `CardStyle.CardOpacity` | src/components/CardSwiper.js:196 | card opacity is 1 − abs(x)/400: 1 at rest, 0.5 at ±200, symmetric |
| `CardStyle.RightOpacity` | src/components/CardSwiper.js:205 | right indicator opacity is `x/150`: 0 at rest, 1 at 150, unclamped |
| `CardStyle.LeftOpacity` | src/components/CardSwiper.js:201 | left indicator opacity mirrors the right one's |
| `CardStyle.RightScale` | src/components/CardSwiper.js:206 | right indicator scale stays in [0.5, 1]: 0.5 up to rest, 1 from 150, linear between |
| `CardStyle.LeftScale` | src/components/CardSwiper.js:202 | left indicator scale mirrors the right one's |
| `CardStyle.CardMappingsSymmetric` | src/components/CardSwiper.js:195-196 | card opacity is even in x and rotation is odd |
| `CardStyle.MappingKnots` | src/components/CardSwiper.js:195-205 | rotation passes through (−200,−30), (0,0), (200,30) and gives 45 at 300; the opacities take their declared values at their range ends |
| `SwipeRules.DecayVelocityX` | src/components/CardSwiper.js:86-92 | fling x-velocity has magnitude in [3,5] and is positive iff `vx >= 0` (so 0 gives +3); it equals `vx` inside the band and sits at 3 or 5 outside |
| `SwipeRules.Decide` | src/components/CardSwiper.js:94-96 | a release commits iff x > 120 or x < −120 (±120 springs back); it swipes right iff x > 0 |
| `Deck.IndexOf` | src/components/CardSwiper.js:153 | `indexOf`: −1 iff there is no card or the deck lacks it; otherwise a position holding the card with no earlier occurrence |
| `Deck.NextCard` | src/components/CardSwiper.js:151-159 | the next card is always in the deck; there is none iff the deck is empty, or it does not loop and the current card's first index is the last |
| `Deck.NextAfterFirstOccurrence` | src/components/CardSwiper.js:153-155 | from the first occurrence at i: `cards[i+1]` if it exists, else `cards[0]` when looping and none otherwise |
| `Deck.NextOfUnlisted` | src/components/CardSwiper.js:153-155 | a current card that is missing, or not in the deck, is followed by `cards[0]` |
| `Deck.DuplicateLastCardDoesNotExhaust` | src/components/CardSwiper.js:153-155 | a last card that also occurs earlier advances from its first occurrence, so the deck does not run out |
| `Deck.AdvanceWithinDeck` | src/components/CardSwiper.js:151-159 | with distinct cards, j advances from position k show position k+j while it exists |
| `Deck.AdvancePastLast` | src/components/CardSwiper.js:155 | with distinct cards, advancing past the last card gives `cards[0]` when looping and none otherwise |
| `Deck.DeckCycle` | src/components/CardSwiper.js:155 | a looping deck of N distinct cards returns to its starting card after N advances |
| `Deck.DeckExhausts` | src/components/CardSwiper.js:155 | a non-looping deck of distinct cards shows a card at every advance up to the last card and none at the advance past it |
| `Deck.AdvanceFromNone` | src/components/CardSwiper.js:153-155 | advancing from no card restarts at the first card |
| `CardSwiperComponent.SwipeCallbacks` | src/components/CardSwiper.js:98-102 | a committed swipe calls `onSwipeRight` or `onSwipeLeft` with the card first; then `cardRemoved` only if supplied, with the card's first index |
| `CardSwiperComponent.CardSwiper.constructor` | src/components/CardSwiper.js:16-24 | initial state: card is `cards[0]` (none for an empty deck), pan at rest, `enter` at 0.5, no transitions and no callbacks |
| `CardSwiperComponent.CardSwiper.DidMount` | src/components/CardSwiper.js:30-32 | mounting requests the entrance spring of `enter` towards 1 |
| `CardSwiperComponent.CardSwiper.AnimateEntrance` | src/components/CardSwiper.js:166-171 | the entrance is a spring of `enter` to 1 with friction 8 and no completion |
| `CardSwiperComponent.CardSwiper.Grant` | src/components/CardSwiper.js:52-65 | the raw value becomes the offset (the anchor) and the raw value is zeroed; the shown position is unchanged when the old offset was 0 |
| `CardSwiperComponent.CardSwiper.Move` | src/components/CardSwiper.js:71-74 | the raw value is set to (dx, dy), so the card shows anchor + cumulative displacement |
| `CardSwiperComponent.CardSwiper.Release` | src/components/CardSwiper.js:82-125 | flattening keeps the shown position and zeroes the offset. A commit logs the swipe callbacks in order and requests a decay with the clamped velocity, `vy` and `_resetState` as completion. A cancel logs nothing and requests a spring to (0,0) with no completion. With no card shown, nothing happens |
| `CardSwiperComponent.CardSwiper.SpringSettled` | src/components/CardSwiper.js:116-123 | a settled spring-back leaves the pan at its target; the deck and `enter` are unchanged |
| `CardSwiperComponent.CardSwiper.DecaySettled` | src/components/CardSwiper.js:104-111 | when the fling settles, the pan is reset to (0,0), `enter` to 0, the deck advances exactly once, and the entrance spring to 1 is requested again |
| `CardSwiperComponent.CardSwiper.ResetState` | src/components/CardSwiper.js:177-182 | the pan value goes to 0, then `enter` to 0, then the deck advances, then the entrance spring is requested |
| `CardSwiperComponent.CardSwiper.GoToNextCard` | src/components/CardSwiper.js:151-160 | the shown card becomes the next card of the deck rule |
| `CardSwiperComponent.CardSwiper.EntranceSettled` | src/components/CardSwiper.js:166-171 | a settled entrance spring leaves `enter` at its target (1) |
| `CardSwiperComponent.CardSwiper.Render` | src/components/CardSwiper.js:188-215 | the card view, carrying the pan handlers, exists iff there is a card. It is translated by the shown pan, rotated by 3/20 degree per unit of shown x, faded by the card-opacity mapping of that x, and scaled by `enter`. The indicators are the left and right opacity and scale mappings of the same x; both scales stay in [0.5, 1] |
| `CardSwiperComponent.SwipeRightThroughTwoCards` | src/components/CardSwiper.js:82-111 | two cards, no loop: a 130-unit right drag reports `onSwipeRight(card0)` and, after settling, shows card 1; the same again reports card 1 and leaves no card |
| `CardSwiperComponent.ReleaseAtThreshold` | src/components/CardSwiper.js:94-123 | a release at exactly −120 makes no callback, keeps the card and requests the spring back to rest |
| `TimeFormat.DecimalString` | src/components/Card.js:31 | `String(n)` of a natural is a non-empty string of decimal digits with no leading zero |
| `TimeFormat.ParseDecimalString` | src/components/Card.js:31 | a decimal string reads back as its number |
| `TimeFormat.DecimalStringLength` | src/components/Card.js:31 | the decimal string has at most two characters iff the number is below 100 |
| `TimeFormat.RepeatChar` | src/components/Card.js:31 | `'0'.repeat(k)` throws iff k < 0; otherwise it gives k copies of the character |
| `TimeFormat.PadField` | src/components/Card.js:31 | padding throws iff the field has more than two characters; otherwise it left-pads with '0' to exactly two, keeping the field as the suffix |
| `TimeFormat.PadFieldDigits` | src/components/Card.js:31 | a number below 100, padded, is its tens digit followed by its units digit |
| `TimeFormat.ParseTwoDigits` | src/components/Card.js:31 | two such digits read back as the number |
| `TimeFormat.FormatMinutes` | src/components/Card.js:28-32 | throws a RangeError iff minutes ≥ 6000; otherwise the result has 5 characters, ':' at index 2, and digits elsewhere |
| `TimeFormat.HourFieldTooLong` | src/components/Card.js:29-31 | the hour string has three or more characters iff minutes ≥ 6000 |
| `TimeFormat.FormatMinutesRoundTrip` | src/components/Card.js:29-31 | below 6000: the hour field reads `m div 60`, the minute field `m − 60·(m div 60)` < 60, and `60·HH + MM` reads back as m |
| `TimeFormat.FormatMinutesInjective` | src/components/Card.js:28-32 | distinct minute counts below 6000 format differently |

## Left out

- Spring and decay physics: friction 4 and 8, deceleration 0.98, and the frame-by-frame values they produce. These are floating-point library code. The constants are recorded in the requested transitions; a value in flight is not modelled, only its settling.
- CardSwiperComponent.CardSwiper.Grant requires that no pan transition is in flight. In the source, a new grant during a spring-back or a fling stops that animation, and the stopped decay still runs its completion. That behaviour lives in the animation library's internals.
- CardSwiperComponent.CardSwiper.Move requires that no pan transition is in flight, for the same reason as Grant. A move always follows a grant.
- CardSwiperComponent.CardSwiper.Release requires that no pan transition is in flight, for the same reason as Grant. A release always ends a drag that began with a grant.
- CardSwiperComponent.CardSwiper.Render takes every card to be truthy. Cards are objects, as the place records from `src/scenes/Main.js` are, so a present card always gets the card view. The source chooses the view by the card's truthiness (CardSwiper.js:211), and `cards` is typed only as an array. A falsy card value such as `0`, `""` or `false` would be shown as the no-more-cards view, with no pan handlers, so the deck would stop there. `Deck.DeckExhausts` and the gesture methods do not capture that.
- CardSwiperComponent.CardSwiper.Release assumes the host supplies both `onSwipeLeft` and `onSwipeRight`. The source calls the one for the swipe's direction without checking that it exists (CardSwiper.js:98), and neither is a required prop. A missing one makes a commit in that direction throw a TypeError. Then `cardRemoved` is not called, no decay is started, and the card stays where it was released.
- Numbers are exact reals, whereas JavaScript numbers are IEEE doubles. The equalities stated about the mappings hold only up to rounding in the source: the closed forms of CardStyle.Rotation and CardStyle.CardOpacity, the symmetry in CardStyle.CardMappingsSymmetric, and the mirror relations. For example, the library's formula computed in doubles gives 0.44999999999999996 degrees at x = 3, and 0.9925 versus 0.9924999999999999 for the card opacity at x = 3 and x = −3. Comparisons against constants are exact in both: the strict 120 threshold and the [3, 5] velocity clamp.
- SwipeRules.DecayVelocityX: reals have no NaN. In the source, a NaN `vx` matches neither branch and leaves the velocity `undefined`.
- PanResponder creation and its capture flags, the JSX tree, and the style sheets are not modelled. They are UI wiring. `Render` only says which views exist and which numbers they receive. The `'deg'` suffix of the rotation string is dropped.
- `renderCard` and `renderNoMoreCards` are host callbacks that produce views. An absent card view in `Render` stands for the "no more cards" view.
- The props are fixed at construction: cards, loop, and whether `cardRemoved` is supplied. A host that later passes a new `cards` array, as `src/scenes/Main.js` does on every data update, is not modelled. `Deck.NextOfUnlisted` covers what the next-card rule then does with a card missing from the new array.
- The propTypes and defaultProps (CardSwiper.js:230-242) are metadata. The constructor takes `loop` explicitly; the default there is false. The propType `renderCards` names no prop that is used.
- `Card.isOpen` (Card.js:16-21) is not modelled. It reads the wall clock, and it uses an undefined variable, so it throws. Its comparison is also inverted, so it has no coherent behaviour to state.
- `src/scenes/Main.js` and `src/app.js` are not part of this model. They cover the realtime data listener, logging swipe handlers, navigation, gradient, status bar and spinners.
- TimeFormat.DecimalString: for hour counts of 10^21 and up, JavaScript's `String` uses exponent notation. The model produces plain digits. Both strings have three or more characters, so the outcome is the same `RangeError`. Negative and fractional minute counts are outside the model, whose input is a natural number.
- Interpolation: the `identity` extrapolation, infinite range ends and easing functions are not modelled. The component uses none of them.
