/**
 * The card swiper component (CardSwiper.js): a deck of cards shown one at a
 * time, dragged by a single-pointer gesture, and either flung off (a swipe
 * left or right, reported to the host) or sprung back when released.
 *
 * Animations are kept as the transition the component requests (a spring
 * towards a target, or a decay from a velocity) with the completion it
 * attaches; the physics that moves the value is not modelled, only the moment
 * a transition settles, as an event.
 */
module CardSwiperComponent {
  import opened Wrappers
  import opened Deck
  import opened SwipeRules
  import opened CardStyle

  datatype Vec = Vec(x: real, y: real)

  const Origin := Vec(0.0, 0.0)

  /** An `Animated.ValueXY`: a raw value and an offset; what is shown, and
      what the visual mappings read, is their sum. */
  datatype Pan = Pan(value: Vec, offset: Vec) {
    function Displayed(): Vec {
      Vec(value.x + offset.x, value.y + offset.y)
    }
  }

  /** What runs when a transition settles. */
  datatype Completion = NoCompletion | RunResetState

  /** A requested transition of an animated value of type `V`. */
  datatype Animation<V> =
    | Spring(toValue: V, friction: real, onDone: Completion)
    | Decay(velocity: V, deceleration: real, onDone: Completion)

  const SpringBackFriction := 4.0
  const EntranceFriction := 8.0
  const Deceleration := 0.98

  /** The host's callbacks, in the order they were called. */
  datatype Callback<T> = SwipedLeft(card: T) | SwipedRight(card: T) | CardRemoved(index: int)

  /** The callbacks a committed swipe makes: `onSwipeRight` or `onSwipeLeft`
      with the card, then, if the host supplied `cardRemoved`, that with the
      card's first position in the deck. */
  function SwipeCallbacks<T(==)>(cards: seq<T>, card: T, direction: Direction, hasCardRemoved: bool): (calls: seq<Callback<T>>)
    requires card in cards
    ensures |calls| == if hasCardRemoved then 2 else 1
    ensures calls[0] == if direction == Right then SwipedRight(card) else SwipedLeft(card)
    ensures hasCardRemoved ==>
      calls[1].CardRemoved? && 0 <= calls[1].index < |cards|
      && cards[calls[1].index] == card && card !in cards[..calls[1].index]
  {
    var swiped := if direction == Right then SwipedRight(card) else SwipedLeft(card);
    if hasCardRemoved then [swiped, CardRemoved(IndexOf(cards, Some(card)))] else [swiped]
  }

  /** What a frame shows: the card view (absent once no card is left; the
      host's "no more cards" view is shown instead), and the two indicators. */
  datatype Frame<T> = Frame(cardView: Option<CardView<T>>, left: Indicator, right: Indicator)

  datatype CardView<T> = CardView(card: T, translateX: real, translateY: real, rotateDeg: real, opacity: real, scale: real)

  datatype Indicator = Indicator(opacity: real, scale: real)

  class CardSwiper<T(==)> {
    const cards: seq<T>
    const loop: bool
    /** Whether the host supplied a `cardRemoved` callback. */
    const hasCardRemoved: bool

    var card: Option<T>
    var pan: Pan
    var enter: real
    var panAnimation: Option<Animation<Vec>>
    var enterAnimation: Option<Animation<real>>
    var log: seq<Callback<T>>

    /** The shown card is one of the deck's; a pan transition is only ever in
        flight on a shown card, after a release has flattened the offset. */
    ghost predicate Valid()
      reads this
    {
      && (card.Some? ==> card.value in cards)
      && (panAnimation.Some? ==> card.Some? && pan.offset == Origin)
    }

    /** The constructor: the first card (none for an empty deck), the pan at
        rest, and the entrance value at 0.5. */
    constructor (cards: seq<T>, loop: bool, hasCardRemoved: bool)
      ensures Valid()
      ensures this.cards == cards && this.loop == loop && this.hasCardRemoved == hasCardRemoved
      ensures card == (if |cards| == 0 then None else Some(cards[0]))
      ensures pan == Pan(Origin, Origin) && enter == 0.5
      ensures panAnimation == None && enterAnimation == None && log == []
    {
      this.cards := cards;
      this.loop := loop;
      this.hasCardRemoved := hasCardRemoved;
      card := First(cards);
      pan := Pan(Origin, Origin);
      enter := 0.5;
      panAnimation := None;
      enterAnimation := None;
      log := [];
    }

    /** `componentDidMount`: the entrance spring is requested. */
    method DidMount()
      requires Valid()
      modifies this`enterAnimation
      ensures Valid()
      ensures enterAnimation == Some(Spring(1.0, EntranceFriction, NoCompletion))
    {
      AnimateEntrance();
    }

    /** `_animateEntrance`: a spring of `enter` towards 1. */
    method AnimateEntrance()
      requires Valid()
      modifies this`enterAnimation
      ensures Valid()
      ensures enterAnimation == Some(Spring(1.0, EntranceFriction, NoCompletion))
    {
      enterAnimation := Some(Spring(1.0, EntranceFriction, NoCompletion));
    }

    /** `onPanResponderGrant`: the raw value becomes the offset (the anchor)
        and the raw value is zeroed. The shown position is unchanged whenever
        the previous offset was zero, as it is after every release. */
    method Grant()
      requires Valid() && panAnimation.None?
      modifies this`pan
      ensures Valid()
      ensures old(card).None? ==> pan == old(pan)
      ensures old(card).Some? ==> pan == Pan(Origin, old(pan.value))
      ensures old(pan.offset) == Origin ==> pan.Displayed() == old(pan.Displayed())
    {
      if card.Some? {
        pan := Pan(Origin, pan.value);
      }
    }

    /** `onPanResponderMove`: the raw value is SET to the gesture's cumulative
        displacement since the grant, so the card shows anchor + (dx, dy). */
    method Move(dx: real, dy: real)
      requires Valid() && panAnimation.None?
      modifies this`pan
      ensures Valid()
      ensures old(card).None? ==> pan == old(pan)
      ensures old(card).Some? ==> pan == Pan(Vec(dx, dy), old(pan.offset))
      ensures old(card).Some? ==> pan.Displayed() == Vec(old(pan.offset).x + dx, old(pan.offset).y + dy)
    {
      if card.Some? {
        pan := Pan(Vec(dx, dy), pan.offset);
      }
    }

    /** `onPanResponderRelease`: the offset is merged into the value (the shown
        position is kept), then a drag beyond 120 units commits: the host is
        told of the swipe, then of the removed card's position if it asked,
        and the card decays away with the clamped velocity, resetting when it
        settles. Any other release springs back to rest and tells no one. */
    method Release(vx: real, vy: real)
      requires Valid() && panAnimation.None?
      modifies this`pan, this`panAnimation, this`log
      ensures Valid()
      ensures old(card).None? ==> pan == old(pan) && panAnimation == old(panAnimation) && log == old(log)
      ensures old(card).Some? ==> pan == Pan(old(pan.Displayed()), Origin)
      ensures old(card).Some? && Decide(old(pan.Displayed()).x).Commit? ==>
        && log == old(log) + SwipeCallbacks(cards, old(card).value, Decide(old(pan.Displayed()).x).direction, hasCardRemoved)
        && panAnimation == Some(Decay(Vec(DecayVelocityX(vx), vy), Deceleration, RunResetState))
      ensures old(card).Some? && Decide(old(pan.Displayed()).x).Cancel? ==>
        && log == old(log)
        && panAnimation == Some(Spring(Origin, SpringBackFriction, NoCompletion))
    {
      if card.Some? {
        pan := Pan(pan.Displayed(), Origin);
        var velocity := DecayVelocityX(vx);
        var decision := Decide(pan.value.x);
        if decision.Commit? {
          var swiped := if decision.direction == Right then SwipedRight(card.value) else SwipedLeft(card.value);
          log := log + [swiped];
          if hasCardRemoved {
            log := log + [CardRemoved(IndexOf(cards, card))];
          }
          panAnimation := Some(Decay(Vec(velocity, vy), Deceleration, RunResetState));
        } else {
          panAnimation := Some(Spring(Origin, SpringBackFriction, NoCompletion));
        }
      }
    }

    /** The spring-back settles: the pan rests at the spring's target, and
        nothing else happens (the spring was started without a completion). */
    method SpringSettled()
      requires Valid() && panAnimation.Some? && panAnimation.value.Spring?
      modifies this`pan, this`panAnimation
      ensures Valid()
      ensures pan == Pan(old(panAnimation).value.toValue, old(pan.offset))
      ensures panAnimation == None
    {
      pan := Pan(panAnimation.value.toValue, pan.offset);
      panAnimation := None;
    }

    /** The decay of a committed swipe settles and its completion,
        `_resetState`, runs: the pan and `enter` are zeroed, the deck advances
        once, and the entrance spring is requested again. */
    method DecaySettled()
      requires Valid() && panAnimation.Some? && panAnimation.value.Decay?
      requires panAnimation.value.onDone == RunResetState
      modifies this`pan, this`panAnimation, this`enter, this`enterAnimation, this`card
      ensures Valid()
      ensures pan == Pan(Origin, Origin) && pan.Displayed() == Origin
      ensures enter == 0.0
      ensures card == NextCard(cards, loop, old(card))
      ensures panAnimation == None
      ensures enterAnimation == Some(Spring(1.0, EntranceFriction, NoCompletion))
    {
      panAnimation := None;
      ResetState();
    }

    /** `_resetState`. */
    method ResetState()
      requires Valid() && panAnimation.None?
      modifies this`pan, this`enter, this`enterAnimation, this`card
      ensures Valid()
      ensures pan == Pan(Origin, old(pan.offset))
      ensures enter == 0.0
      ensures card == NextCard(cards, loop, old(card))
      ensures enterAnimation == Some(Spring(1.0, EntranceFriction, NoCompletion))
    {
      pan := Pan(Origin, pan.offset);
      enter := 0.0;
      enterAnimation := None;  // setting the value stops its running animation
      GoToNextCard();
      AnimateEntrance();
    }

    /** `_goToNextCard`. */
    method GoToNextCard()
      requires Valid() && panAnimation.None?
      modifies this`card
      ensures Valid()
      ensures card == NextCard(cards, loop, old(card))
    {
      card := NextCard(cards, loop, card);
    }

    /** The entrance spring settles at its target. */
    method EntranceSettled()
      requires Valid() && enterAnimation.Some? && enterAnimation.value.Spring?
      modifies this`enter, this`enterAnimation
      ensures Valid()
      ensures enter == old(enterAnimation).value.toValue && enterAnimation == None
    {
      enter := enterAnimation.value.toValue;
      enterAnimation := None;
    }

    /** `render`: the card view follows the shown pan, turned and faded by the
        mappings of its x and scaled by `enter`; it is present exactly while a
        card is. The indicators are the left and right mappings of the same x,
        and their scales never leave [0.5, 1]. */
    function Render(): (f: Frame<T>)
      reads this
      ensures f.cardView.Some? <==> card.Some?
      ensures f.cardView.Some? ==>
        && f.cardView.value.card == card.value
        && f.cardView.value.translateX == pan.Displayed().x
        && f.cardView.value.translateY == pan.Displayed().y
        && f.cardView.value.scale == enter
      ensures f.cardView.Some? ==>
        && f.cardView.value.rotateDeg == 3.0 * pan.Displayed().x / 20.0
        && f.cardView.value.opacity == CardOpacity(pan.Displayed().x)
      ensures f.left == Indicator(LeftOpacity(pan.Displayed().x), LeftScale(pan.Displayed().x))
      ensures f.right == Indicator(pan.Displayed().x / 150.0, RightScale(pan.Displayed().x))
      ensures 0.5 <= f.left.scale <= 1.0 && 0.5 <= f.right.scale <= 1.0
    {
      var x := pan.Displayed().x;
      var view :=
        if card.Some? then Some(CardView(card.value, x, pan.Displayed().y, Rotation(x), CardOpacity(x), enter))
        else None;
      Frame(view, Indicator(LeftOpacity(x), LeftScale(x)), Indicator(RightOpacity(x), RightScale(x)))
    }
  }

  /** Two distinct cards, no loop, no `cardRemoved`: a drag of 130 units to
      the right commits a right swipe of the first card; once the fling
      settles the second card is shown; the same swipe again leaves no card. */
  method SwipeRightThroughTwoCards<T(==)>(c0: T, c1: T) returns (calls: seq<Callback<T>>, afterFirst: Option<T>, afterSecond: Option<T>)
    requires c0 != c1
    ensures calls == [SwipedRight(c0), SwipedRight(c1)]
    ensures afterFirst == Some(c1) && afterSecond == None
  {
    var s := new CardSwiper([c0, c1], false, false);
    s.DidMount();
    s.Grant();
    s.Move(130.0, 0.0);
    s.Release(0.5, 0.0);
    assert s.log == [SwipedRight(c0)];
    NextAfterFirstOccurrence([c0, c1], false, 0);
    s.DecaySettled();
    afterFirst := s.card;
    s.Grant();
    s.Move(130.0, 0.0);
    s.Release(0.5, 0.0);
    assert [c0, c1][..1] == [c0];
    NextAfterFirstOccurrence([c0, c1], false, 1);
    s.DecaySettled();
    afterSecond := s.card;
    calls := s.log;
  }

  /** A release at exactly 120 units springs back: no callback is made, the
      card stays, and a spring to rest is requested. */
  method ReleaseAtThreshold<T(==)>(c: T) returns (calls: seq<Callback<T>>, shown: Option<T>, requested: Option<Animation<Vec>>)
    ensures calls == [] && shown == Some(c)
    ensures requested == Some(Spring(Origin, SpringBackFriction, NoCompletion))
  {
    var s := new CardSwiper([c], true, true);
    s.Grant();
    s.Move(-120.0, 40.0);
    s.Release(-9.0, 2.0);
    calls, shown, requested := s.log, s.card, s.panAnimation;
  }
}
