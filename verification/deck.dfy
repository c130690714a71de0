/**
 * The card swiper's deck rule (CardSwiper.js `_goToNextCard`): the card shown
 * is kept as a card, not as a position, and the next one is found by the
 * first occurrence of the current card in the deck (`Array.prototype.indexOf`).
 * Duplicate cards therefore advance from their first occurrence, and a card
 * that is not in the deck (or none at all) advances to the first card.
 */
module Deck {
  import opened Wrappers

  /** `cards.indexOf(card)`: the first position holding the card, or -1 when
      there is no card or the deck does not hold it. */
  function IndexOf<T(==)>(cards: seq<T>, card: Option<T>): (i: int)
    ensures -1 <= i < |cards|
    ensures i == -1 <==> (card.None? || card.value !in cards)
    ensures 0 <= i ==> card == Some(cards[i]) && card.value !in cards[..i]
  {
    if card.None? || |cards| == 0 then -1
    else if cards[0] == card.value then 0
    else
      var j := IndexOf(cards[1..], card);
      assert cards == [cards[0]] + cards[1..];
      if j == -1 then -1
      else
        assert cards[..j + 1] == [cards[0]] + cards[1..][..j];
        j + 1
  }

  /** `cards[0]`, which is `undefined` (no card) for an empty deck. */
  function First<T>(cards: seq<T>): Option<T> {
    if |cards| == 0 then None else Some(cards[0])
  }

  /** The card after `current`: the one following its first occurrence; past
      the end, the first card when looping and no card otherwise. */
  function NextCard<T(==)>(cards: seq<T>, loop: bool, current: Option<T>): (next: Option<T>)
    ensures next.Some? ==> next.value in cards
    ensures next.None? <==> (|cards| == 0 || (!loop && IndexOf(cards, current) == |cards| - 1))
  {
    var newIdx := IndexOf(cards, current) + 1;
    if newIdx > |cards| - 1 then (if loop then First(cards) else None)
    else Some(cards[newIdx])
  }

  /** A card at position `i` that does not occur before `i` is followed by the
      card at `i + 1`, or, at the end of the deck, by the first card when
      looping and by none otherwise. */
  lemma NextAfterFirstOccurrence<T>(cards: seq<T>, loop: bool, i: nat)
    requires i < |cards| && cards[i] !in cards[..i]
    ensures NextCard(cards, loop, Some(cards[i])) ==
      if i + 1 < |cards| then Some(cards[i + 1])
      else if loop then Some(cards[0])
      else None
  {
    var j := IndexOf(cards, Some(cards[i]));
    assert forall m :: 0 <= m < i ==> cards[..i][m] == cards[m];
    assert forall m :: 0 <= m < j ==> cards[..j][m] == cards[m];
    assert j == i;
  }

  /** A current card the deck does not hold, or none at all, is followed by
      the first card, whatever the loop flag. */
  lemma NextOfUnlisted<T>(cards: seq<T>, loop: bool, current: Option<T>)
    requires current.None? || current.value !in cards
    ensures NextCard(cards, loop, current) == First(cards)
  {
  }

  /** With duplicates, the last card advances from its first occurrence: a
      deck whose last card also appears earlier never runs out. */
  lemma DuplicateLastCardDoesNotExhaust<T>(cards: seq<T>, loop: bool, i: nat)
    requires i < |cards| - 1 && cards[i] == cards[|cards| - 1] && cards[i] !in cards[..i]
    ensures NextCard(cards, loop, Some(cards[|cards| - 1])) == Some(cards[i + 1])
  {
    NextAfterFirstOccurrence(cards, loop, i);
  }

  /** The card shown after `n` advances. */
  function Advance<T(==)>(cards: seq<T>, loop: bool, current: Option<T>, n: nat): Option<T>
    decreases n
  {
    if n == 0 then current else Advance(cards, loop, NextCard(cards, loop, current), n - 1)
  }

  predicate Distinct<T(==)>(cards: seq<T>) {
    forall i, j :: 0 <= i < j < |cards| ==> cards[i] != cards[j]
  }

  lemma DistinctFirstOccurrence<T>(cards: seq<T>, k: nat)
    requires Distinct(cards) && k < |cards|
    ensures cards[k] !in cards[..k]
  {
    assert forall m :: 0 <= m < k ==> cards[..k][m] == cards[m];
  }

  lemma {:induction false} AdvanceSplit<T>(cards: seq<T>, loop: bool, current: Option<T>, a: nat, b: nat)
    ensures Advance(cards, loop, current, a + b) == Advance(cards, loop, Advance(cards, loop, current, a), b)
    decreases a
  {
    if a > 0 {
      AdvanceSplit(cards, loop, NextCard(cards, loop, current), a - 1, b);
    }
  }

  /** In a deck of distinct cards, advancing `j` times from position `k` shows
      position `k + j` while that is still in the deck. */
  lemma {:induction false} AdvanceWithinDeck<T>(cards: seq<T>, loop: bool, k: nat, j: nat)
    requires Distinct(cards) && k + j < |cards|
    ensures Advance(cards, loop, Some(cards[k]), j) == Some(cards[k + j])
    decreases j
  {
    if j > 0 {
      DistinctFirstOccurrence(cards, k);
      NextAfterFirstOccurrence(cards, loop, k);
      AdvanceWithinDeck(cards, loop, k + 1, j - 1);
    }
  }

  /** In a deck of distinct cards, advancing past the last card gives the first
      card when looping and no card otherwise. */
  lemma AdvancePastLast<T>(cards: seq<T>, loop: bool, k: nat)
    requires Distinct(cards) && k < |cards|
    ensures Advance(cards, loop, Some(cards[k]), |cards| - k) == if loop then Some(cards[0]) else None
  {
    var last := |cards| - 1;
    AdvanceWithinDeck(cards, loop, k, last - k);
    AdvanceSplit(cards, loop, Some(cards[k]), last - k, 1);
    DistinctFirstOccurrence(cards, last);
    NextAfterFirstOccurrence(cards, loop, last);
  }

  /** A looping deck of N distinct cards comes back to the card it started from
      after N advances. */
  lemma DeckCycle<T>(cards: seq<T>, k: nat)
    requires Distinct(cards) && k < |cards|
    ensures Advance(cards, true, Some(cards[k]), |cards|) == Some(cards[k])
  {
    AdvancePastLast(cards, true, k);
    AdvanceSplit(cards, true, Some(cards[k]), |cards| - k, k);
    AdvanceWithinDeck(cards, true, 0, k);
  }

  /** A non-looping deck of distinct cards shows a card at every advance up to
      its last card, and runs out at the advance past it. */
  lemma DeckExhausts<T>(cards: seq<T>, k: nat, j: nat)
    requires Distinct(cards) && k < |cards| && j <= |cards| - k
    ensures Advance(cards, false, Some(cards[k]), j) == None <==> j == |cards| - k
  {
    if j < |cards| - k {
      AdvanceWithinDeck(cards, false, k, j);
    } else {
      AdvancePastLast(cards, false, k);
    }
  }

  /** Advancing from no card restarts at the first card: the rule itself is not
      terminal. What keeps an exhausted swiper exhausted is that no card view,
      and so no gesture, is left to trigger an advance. */
  lemma AdvanceFromNone<T>(cards: seq<T>, n: nat)
    requires |cards| > 0 && n > 0
    ensures Advance(cards, false, None, n) == Advance(cards, false, Some(cards[0]), n - 1)
  {
  }
}
