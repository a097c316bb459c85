/**
 * The player of src/poker/PokerPlayer.java: a deck and the hand dealt from it, and the
 * discard step that asks the hand for a signal per position, exchanges up to three cards
 * with the deck and sorts the hand again.
 */
module Players {
  import opened Wrappers
  import opened Cards
  import opened Classifier
  import opened Advisor
  import Decks
  import opened Hands

  const MaxCardsToDiscard := 3
  const MaxProbability := 100

  /** How discard ends: the number of cards exchanged, or the exception the final sort throws. */
  datatype Outcome = Discarded(count: nat) | NullPointer

  /** Positions below n whose signal is Discard, in increasing order. */
  function DiscardsBelow(signals: seq<int>, n: nat): (d: seq<int>)
    requires n <= |signals|
    ensures forall p :: p in d <==> 0 <= p < n && signals[p] == Discard
    ensures forall i, j :: 0 <= i < j < |d| ==> d[i] < d[j]
  {
    if n == 0 then []
    else
      var below := DiscardsBelow(signals, n - 1);
      var d := below + (if signals[n - 1] == Discard then [n - 1] else []);
      forall i, j | 0 <= i < j < |d| ensures d[i] < d[j] {
        assert below[i] in below;
      }
      d
  }

  /** The definite discards the first loop of discard collects: the first three Discard positions. */
  function DefiniteDiscards(signals: seq<int>, n: nat): (c: seq<int>)
    requires n <= |signals|
    ensures |c| <= MaxCardsToDiscard && InHand(c, n)
    ensures forall i, j :: 0 <= i < j < |c| ==> c[i] < c[j]
    ensures forall p :: p in c ==> 0 <= p < n && signals[p] == Discard
    ensures |c| < MaxCardsToDiscard ==> forall p :: 0 <= p < n && signals[p] == Discard ==> p in c
  {
    var d := DiscardsBelow(signals, n);
    assert forall i :: 0 <= i < |d| ==> d[i] in d;
    if |d| <= MaxCardsToDiscard then d
    else
      assert forall p :: p in d[..MaxCardsToDiscard] ==> p in d;
      d[..MaxCardsToDiscard]
  }

  /** One more position: it joins the discards when it signals Discard and there is room. */
  lemma DefiniteDiscardsStep(signals: seq<int>, n: nat)
    requires n < |signals|
    ensures DefiniteDiscards(signals, n + 1) ==
              if signals[n] == Discard && |DefiniteDiscards(signals, n)| < MaxCardsToDiscard
              then DefiniteDiscards(signals, n) + [n]
              else DefiniteDiscards(signals, n)
  {
    var d := DiscardsBelow(signals, n);
    var e := DiscardsBelow(signals, n + 1);
    if signals[n] == Discard && |d| >= MaxCardsToDiscard {
      assert e == d + [n];
      assert e[..MaxCardsToDiscard] == d[..MaxCardsToDiscard];
    }
  }

  /** The discards are the lowest Discard positions: any one left out lies above all of them. */
  lemma DefiniteDiscardsAreLowest(signals: seq<int>, n: nat, p: int)
    requires n <= |signals| && 0 <= p < n && signals[p] == Discard
    requires p !in DefiniteDiscards(signals, n)
    ensures forall q :: q in DefiniteDiscards(signals, n) ==> q < p
  {
    var d := DiscardsBelow(signals, n);
    var c := DefiniteDiscards(signals, n);
    var k :| 0 <= k < |d| && d[k] == p;
    assert |d| > MaxCardsToDiscard && c == d[..MaxCardsToDiscard];
    assert k >= MaxCardsToDiscard;
    forall q | q in c ensures q < p {
      var i :| 0 <= i < |c| && c[i] == q;
      assert d[i] == q;
    }
  }

  /** What dealNext hands out while nextCardIndex is next: the card there, or null once spent. */
  function NextCard(deck: seq<Card>, next: int): Option<Card>
    requires next < |deck|
  {
    if next >= 0 then Some(deck[next]) else None
  }

  predicate InHand(chosen: seq<int>, width: int)
  {
    forall i :: 0 <= i < |chosen| ==> 0 <= chosen[i] < width
  }

  /** The slots after the q-th chosen slot has received the q-th card dealt, for every q. */
  function Refill(slots: seq<Option<Card>>, chosen: seq<int>, deck: seq<Card>, next: int): (r: seq<Option<Card>>)
    requires InHand(chosen, |slots|) && next < |deck|
    ensures |r| == |slots|
  {
    if |chosen| == 0 then slots
    else
      var last := |chosen| - 1;
      Refill(slots, chosen[..last], deck, next)[chosen[last] := NextCard(deck, next - last)]
  }

  lemma {:induction false} RefillOutside(slots: seq<Option<Card>>, chosen: seq<int>, deck: seq<Card>, next: int, p: int)
    requires InHand(chosen, |slots|) && next < |deck| && 0 <= p < |slots| && p !in chosen
    ensures Refill(slots, chosen, deck, next)[p] == slots[p]
    decreases |chosen|
  {
    if |chosen| > 0 {
      var last := |chosen| - 1;
      assert p != chosen[last];
      assert p !in chosen[..last];
      RefillOutside(slots, chosen[..last], deck, next, p);
    }
  }

  /** With distinct slots chosen, the q-th chosen slot holds the q-th card dealt. */
  lemma {:induction false} RefillAt(slots: seq<Option<Card>>, chosen: seq<int>, deck: seq<Card>, next: int, q: int)
    requires InHand(chosen, |slots|) && next < |deck| && 0 <= q < |chosen|
    requires forall i, j :: 0 <= i < j < |chosen| ==> chosen[i] < chosen[j]
    ensures Refill(slots, chosen, deck, next)[chosen[q]] == NextCard(deck, next - q)
    decreases |chosen|
  {
    var last := |chosen| - 1;
    if q < last {
      assert chosen[q] != chosen[last];
      RefillAt(slots, chosen[..last], deck, next, q);
    }
  }

  /** Full slots stay full while the deck holds a card for every chosen slot. */
  lemma {:induction false} RefillStaysFull(slots: seq<Option<Card>>, chosen: seq<int>, deck: seq<Card>, next: int)
    requires InHand(chosen, |slots|) && next < |deck| && FullSlots(slots)
    requires |chosen| <= next + 1
    ensures FullSlots(Refill(slots, chosen, deck, next))
    decreases |chosen|
  {
    if |chosen| > 0 {
      RefillStaysFull(slots, chosen[..|chosen| - 1], deck, next);
    }
  }

  /** The cards at the chosen positions, in the order chosen. */
  function Picked(cards: seq<Card>, chosen: seq<int>): (r: seq<Card>)
    requires InHand(chosen, |cards|)
    ensures |r| == |chosen| && forall i :: 0 <= i < |r| ==> r[i] == cards[chosen[i]]
  {
    seq(|chosen|, i requires 0 <= i < |chosen| && InHand(chosen, |cards|) => cards[chosen[i]])
  }

  class PokerPlayer {
    var deckOfCards: Decks.DeckOfCards
    var handOfCards: HandOfCards

    ghost predicate Valid()
      reads this, deckOfCards, deckOfCards.deck, handOfCards, handOfCards.cards
    {
      deckOfCards.Valid() && handOfCards.Valid() && handOfCards.CountsMatchCounted()
    }

    /** The player deals its hand from the given deck, which must still hold five cards. */
    constructor (deck: Decks.DeckOfCards)
      requires deck.Valid() && deck.nextCardIndex >= CardsPerHand - 1
      modifies deck
      ensures deckOfCards == deck && Valid() && fresh(handOfCards) && fresh(handOfCards.cards)
      ensures deck.deck == old(deck.deck) && deck.discardedCards == old(deck.discardedCards)
      ensures deck.nextCardIndex == old(deck.nextCardIndex) - CardsPerHand
      ensures handOfCards.Full() && SortedByGameValue(handOfCards.Cards())
      ensures multiset(handOfCards.Cards()) == multiset(deck.Dealt()[|old(deck.Dealt())|..])
      ensures handOfCards.counts == Histogram(handOfCards.Cards())
      ensures handOfCards.indexOfFlushBuster.None? && handOfCards.indexOfStraightBreaker.None?
    {
      deckOfCards := deck;
      handOfCards := new HandOfCards.Deal(deck);
    }

    /**
     * The random part of discard, after the definite discards: each possible discard, in
     * ascending position (the iteration order of a HashMap of small Integer keys), joins when
     * its weighted probability is at most the draw, until three are chosen.
     */
    static method ChanceDiscards(possibleDiscards: map<int, int>, cardsToDiscard: seq<int>, draws: seq<int>)
      returns (result: seq<int>)
      requires |draws| >= CardsPerHand
      ensures possibleDiscards == map[] ==> result == cardsToDiscard
      ensures |cardsToDiscard| <= |result| && result[..|cardsToDiscard|] == cardsToDiscard
      ensures forall i :: |cardsToDiscard| <= i < |result| ==> result[i] in possibleDiscards
      ensures |cardsToDiscard| < MaxCardsToDiscard ==> |result| <= MaxCardsToDiscard
    {
      result := cardsToDiscard;
      var d := 0;
      for index := 0 to CardsPerHand
        invariant d <= index
        invariant |cardsToDiscard| <= |result| && result[..|cardsToDiscard|] == cardsToDiscard
        invariant forall i :: |cardsToDiscard| <= i < |result| ==> result[i] in possibleDiscards
        invariant |cardsToDiscard| < MaxCardsToDiscard ==> |result| < MaxCardsToDiscard
        invariant possibleDiscards == map[] ==> result == cardsToDiscard
      {
        if index in possibleDiscards {
          var probabilityMultiplier := MaxCardsToDiscard - |result|;
          var discardProbability := possibleDiscards[index] * probabilityMultiplier;
          var discardThreshold := draws[d];
          d := d + 1;
          if discardProbability <= discardThreshold {
            result := result + [index];
          }
          if |result| == MaxCardsToDiscard {
            break;
          }
        }
      }
    }

    /**
     * One pass of discard's first loop: one getDiscardProbability call and the list or map
     * its answer joins, stated against the signals, the dispatch and the memo values the
     * loop started from.
     */
    method CollectNth(index: nat, cardsToDiscard: seq<int>, possibleDiscards: map<int, int>, noDefiniteCardsToDiscard: bool,
                      ghost slots0: seq<Option<Card>>, ghost signals: seq<int>, ghost checks: bool,
                      ghost flushBuster: int, ghost straightBreaker: int,
                      ghost flushMemo0: Option<int>, ghost straightMemo0: Option<int>)
      returns (cardsToDiscard': seq<int>, possibleDiscards': map<int, int>, noDefiniteCardsToDiscard': bool)
      requires Valid() && handOfCards.Full() && index < CardsPerHand && handOfCards.cards[..] == slots0
      requires handOfCards.Signals() == signals && handOfCards.RunsChecks() == checks
      requires handOfCards.EffectiveFlushBuster() == flushBuster
      requires handOfCards.EffectiveStraightBreaker() == straightBreaker
      requires handOfCards.indexOfFlushBuster == (if checks && index > 0 then Some(flushBuster) else flushMemo0)
      requires handOfCards.indexOfStraightBreaker == (if checks && index > 0 then Some(straightBreaker) else straightMemo0)
      requires cardsToDiscard == DefiniteDiscards(signals, index)
      requires noDefiniteCardsToDiscard <==> |cardsToDiscard| == 0
      requires possibleDiscards != map[] ==> |cardsToDiscard| == MaxCardsToDiscard
      modifies handOfCards
      ensures Valid() && handOfCards.Full() && handOfCards.cards == old(handOfCards.cards) && handOfCards.cards[..] == slots0
      ensures handOfCards.counts == old(handOfCards.counts) && handOfCards.countedCards == old(handOfCards.countedCards)
      ensures handOfCards.Signals() == signals && handOfCards.RunsChecks() == checks
      ensures handOfCards.EffectiveFlushBuster() == flushBuster
      ensures handOfCards.EffectiveStraightBreaker() == straightBreaker
      ensures handOfCards.indexOfFlushBuster == (if checks then Some(flushBuster) else flushMemo0)
      ensures handOfCards.indexOfStraightBreaker == (if checks then Some(straightBreaker) else straightMemo0)
      ensures cardsToDiscard' == DefiniteDiscards(signals, index + 1)
      ensures noDefiniteCardsToDiscard' <==> |cardsToDiscard'| == 0
      ensures possibleDiscards' != map[] ==> |cardsToDiscard'| == MaxCardsToDiscard
    {
      cardsToDiscard', possibleDiscards', noDefiniteCardsToDiscard' := cardsToDiscard, possibleDiscards, noDefiniteCardsToDiscard;
      var discardProbability := handOfCards.GetDiscardProbability(index);
      DefiniteDiscardsStep(signals, index);
      if discardProbability == Keep {
      } else if discardProbability == Advisor.Discard && |cardsToDiscard| < MaxCardsToDiscard {
        cardsToDiscard' := cardsToDiscard + [index];
        noDefiniteCardsToDiscard' := false;
      } else {
        possibleDiscards' := possibleDiscards[index := discardProbability];
      }
    }

    /**
     * The first loop of discard: one getDiscardProbability call per position; a Discard
     * joins the definite discards while fewer than three are chosen, and any other
     * non-Keep answer is kept as a possible discard.
     */
    method CollectDiscards() returns (cardsToDiscard: seq<int>, possibleDiscards: map<int, int>, noDefiniteCardsToDiscard: bool)
      requires Valid() && handOfCards.Full()
      modifies handOfCards
      ensures Valid() && handOfCards.Full() && handOfCards.cards == old(handOfCards.cards)
      ensures handOfCards.cards[..] == old(handOfCards.cards[..])
      ensures handOfCards.counts == old(handOfCards.counts) && handOfCards.countedCards == old(handOfCards.countedCards)
      ensures handOfCards.Signals() == old(handOfCards.Signals())
      ensures cardsToDiscard == DefiniteDiscards(old(handOfCards.Signals()), CardsPerHand)
      ensures noDefiniteCardsToDiscard <==> |cardsToDiscard| == 0
      ensures possibleDiscards != map[] ==> |cardsToDiscard| == MaxCardsToDiscard
      ensures handOfCards.indexOfFlushBuster ==
                (if old(handOfCards.RunsChecks()) then Some(old(handOfCards.EffectiveFlushBuster()))
                 else old(handOfCards.indexOfFlushBuster))
      ensures handOfCards.indexOfStraightBreaker ==
                (if old(handOfCards.RunsChecks()) then Some(old(handOfCards.EffectiveStraightBreaker()))
                 else old(handOfCards.indexOfStraightBreaker))
    {
      ghost var signals := handOfCards.Signals();
      ghost var checks := handOfCards.RunsChecks();
      ghost var flushBuster := handOfCards.EffectiveFlushBuster();
      ghost var straightBreaker := handOfCards.EffectiveStraightBreaker();
      ghost var slots0 := handOfCards.cards[..];
      cardsToDiscard := [];
      possibleDiscards := map[];
      noDefiniteCardsToDiscard := true;
      for index := 0 to CardsPerHand
        invariant handOfCards.Valid() && handOfCards.Full() && handOfCards.cards == old(handOfCards.cards)
        invariant handOfCards.cards[..] == slots0
        invariant handOfCards.counts == old(handOfCards.counts) && handOfCards.countedCards == old(handOfCards.countedCards)
        invariant handOfCards.Signals() == signals
        invariant cardsToDiscard == DefiniteDiscards(signals, index)
        invariant noDefiniteCardsToDiscard <==> |cardsToDiscard| == 0
        invariant possibleDiscards != map[] ==> |cardsToDiscard| == MaxCardsToDiscard
        invariant handOfCards.RunsChecks() == checks
        invariant handOfCards.EffectiveFlushBuster() == flushBuster
        invariant handOfCards.EffectiveStraightBreaker() == straightBreaker
        invariant handOfCards.indexOfFlushBuster ==
                    (if checks && index > 0 then Some(flushBuster) else old(handOfCards.indexOfFlushBuster))
        invariant handOfCards.indexOfStraightBreaker ==
                    (if checks && index > 0 then Some(straightBreaker) else old(handOfCards.indexOfStraightBreaker))
      {
        cardsToDiscard, possibleDiscards, noDefiniteCardsToDiscard :=
          CollectNth(index, cardsToDiscard, possibleDiscards, noDefiniteCardsToDiscard, slots0, signals, checks,
                     flushBuster, straightBreaker, old(handOfCards.indexOfFlushBuster), old(handOfCards.indexOfStraightBreaker));
      }
    }

    /** One pass of the exchange loop: returnCard, the deck's returnCard, dealNext, receiveCard. */
    method ExchangeCard(cardIndex: int)
      requires Valid() && 0 <= cardIndex < CardsPerHand && handOfCards.cards[cardIndex].Some?
      requires deckOfCards.nextCardIndex >= 0 ==>
                 forall p :: 0 <= p < CardsPerHand ==> handOfCards.cards[p].Some?
      modifies deckOfCards, handOfCards.cards
      ensures Valid() && deckOfCards.deck == old(deckOfCards.deck)
      ensures deckOfCards.nextCardIndex == (if old(deckOfCards.nextCardIndex) >= 0 then old(deckOfCards.nextCardIndex) - 1 else -1)
      ensures deckOfCards.discardedCards == old(deckOfCards.discardedCards) + [old(handOfCards.cards[cardIndex]).value]
      ensures handOfCards.cards[..] ==
                old(handOfCards.cards[..])[cardIndex := NextCard(old(deckOfCards.deck[..]), old(deckOfCards.nextCardIndex))]
    {
      ghost var before := handOfCards.cards[..];
      var card := handOfCards.ReturnCard(cardIndex);
      deckOfCards.ReturnCard(card);
      var dealt := deckOfCards.DealNext();
      if dealt.Some? {
        WellFormedValues(dealt.value);
      }
      handOfCards.ReceiveCard(dealt);
      assert handOfCards.cards[..] == before[cardIndex := dealt];
    }

    /**
     * The q-th pass of the exchange loop, stated against the slots, deck position and
     * discards the loop started from.
     */
    method ExchangeNth(chosen: seq<int>, q: nat, ghost slots0: seq<Option<Card>>, ghost deck0: seq<Card>,
                       ghost next0: int, ghost discarded0: seq<Card>)
      requires Valid() && q < |chosen| && InHand(chosen, CardsPerHand)
      requires forall i, j :: 0 <= i < j < |chosen| ==> chosen[i] < chosen[j]
      requires |slots0| == CardsPerHand && FullSlots(slots0) && deck0 == deckOfCards.deck[..] && next0 < |deck0|
      requires deckOfCards.nextCardIndex == (if next0 - q >= -1 then next0 - q else -1)
      requires deckOfCards.discardedCards == discarded0 + Picked(Unwrap(slots0), chosen[..q])
      requires handOfCards.cards[..] == Refill(slots0, chosen[..q], deck0, next0)
      modifies deckOfCards, handOfCards.cards
      ensures Valid() && deckOfCards.deck == old(deckOfCards.deck)
      ensures deckOfCards.nextCardIndex == (if next0 - (q + 1) >= -1 then next0 - (q + 1) else -1)
      ensures deckOfCards.discardedCards == discarded0 + Picked(Unwrap(slots0), chosen[..q + 1])
      ensures handOfCards.cards[..] == Refill(slots0, chosen[..q + 1], deck0, next0)
    {
      var cardIndex := chosen[q];
      assert chosen[..q + 1][..q] == chosen[..q];
      assert cardIndex !in chosen[..q];
      RefillOutside(slots0, chosen[..q], deck0, next0, cardIndex);
      if next0 - q >= 0 {
        RefillStaysFull(slots0, chosen[..q], deck0, next0);
      }
      ExchangeCard(cardIndex);
      assert Picked(Unwrap(slots0), chosen[..q + 1]) == Picked(Unwrap(slots0), chosen[..q]) + [Unwrap(slots0)[cardIndex]];
    }

    /**
     * The exchange loop of discard: for each chosen position in turn, the hand returns its
     * card, the deck takes it as discarded and deals the next card into the empty slot.
     */
    method ExchangeCards(cardsToDiscard: seq<int>)
      requires Valid() && handOfCards.Full() && InHand(cardsToDiscard, CardsPerHand)
      requires forall i, j :: 0 <= i < j < |cardsToDiscard| ==> cardsToDiscard[i] < cardsToDiscard[j]
      modifies deckOfCards, handOfCards.cards
      ensures Valid()
      ensures deckOfCards.deck == old(deckOfCards.deck)
      ensures var next := old(deckOfCards.nextCardIndex);
              deckOfCards.nextCardIndex == (if next - |cardsToDiscard| >= -1 then next - |cardsToDiscard| else -1)
      ensures deckOfCards.discardedCards == old(deckOfCards.discardedCards) + Picked(old(handOfCards.Cards()), cardsToDiscard)
      ensures handOfCards.cards[..] ==
                Refill(old(handOfCards.cards[..]), cardsToDiscard, old(deckOfCards.deck[..]), old(deckOfCards.nextCardIndex))
    {
      ghost var slots0 := handOfCards.cards[..];
      ghost var deck0 := deckOfCards.deck[..];
      ghost var next0 := deckOfCards.nextCardIndex;
      ghost var discarded0 := deckOfCards.discardedCards;
      assert Picked(Unwrap(slots0), cardsToDiscard[..0]) == [];
      for q := 0 to |cardsToDiscard|
        invariant Valid() && deckOfCards.deck == old(deckOfCards.deck) && deck0 == deckOfCards.deck[..]
        invariant deckOfCards.nextCardIndex == (if next0 - q >= -1 then next0 - q else -1)
        invariant deckOfCards.discardedCards == discarded0 + Picked(Unwrap(slots0), cardsToDiscard[..q])
        invariant handOfCards.cards[..] == Refill(slots0, cardsToDiscard[..q], deck0, next0)
      {
        ExchangeNth(cardsToDiscard, q, slots0, deck0, next0, discarded0);
      }
      assert cardsToDiscard[..|cardsToDiscard|] == cardsToDiscard;
    }

    /**
     * The choosing part of discard: the signal loop, then the random part when no definite
     * discard was found. That random part only runs with no possible discards collected,
     * so the choice is always the definite discards.
     */
    method ChooseDiscards(draws: seq<int>) returns (cardsToDiscard: seq<int>)
      requires Valid() && handOfCards.Full() && |draws| >= CardsPerHand
      modifies handOfCards
      ensures Valid() && handOfCards.Full() && handOfCards.cards == old(handOfCards.cards)
      ensures handOfCards.cards[..] == old(handOfCards.cards[..])
      ensures handOfCards.counts == old(handOfCards.counts) && handOfCards.countedCards == old(handOfCards.countedCards)
      ensures cardsToDiscard == DefiniteDiscards(old(handOfCards.Signals()), CardsPerHand)
      ensures handOfCards.indexOfFlushBuster ==
                (if old(handOfCards.RunsChecks()) then Some(old(handOfCards.EffectiveFlushBuster()))
                 else old(handOfCards.indexOfFlushBuster))
      ensures handOfCards.indexOfStraightBreaker ==
                (if old(handOfCards.RunsChecks()) then Some(old(handOfCards.EffectiveStraightBreaker()))
                 else old(handOfCards.indexOfStraightBreaker))
    {
      var possibleDiscards, noDefiniteCardsToDiscard;
      cardsToDiscard, possibleDiscards, noDefiniteCardsToDiscard := CollectDiscards();
      if noDefiniteCardsToDiscard && |cardsToDiscard| < MaxCardsToDiscard {
        cardsToDiscard := ChanceDiscards(possibleDiscards, cardsToDiscard, draws);
      }
    }

    /**
     * The exchanging part of discard: each chosen position in ascending order is exchanged,
     * then the hand is sorted, which throws when a slot was left empty.
     */
    method ExchangeAndSort(cardsToDiscard: seq<int>) returns (outcome: Outcome)
      requires Valid() && handOfCards.Full() && InHand(cardsToDiscard, CardsPerHand)
      requires forall i, j :: 0 <= i < j < |cardsToDiscard| ==> cardsToDiscard[i] < cardsToDiscard[j]
      modifies deckOfCards, handOfCards, handOfCards.cards
      ensures Valid() && handOfCards.cards == old(handOfCards.cards)
      ensures handOfCards.counts == old(handOfCards.counts) && handOfCards.countedCards == old(handOfCards.countedCards)
      ensures var next := old(deckOfCards.nextCardIndex);
              && deckOfCards.deck == old(deckOfCards.deck)
              && deckOfCards.nextCardIndex == (if next - |cardsToDiscard| >= -1 then next - |cardsToDiscard| else -1)
              && deckOfCards.discardedCards == old(deckOfCards.discardedCards) + Picked(old(handOfCards.Cards()), cardsToDiscard)
              && outcome == (if |cardsToDiscard| <= next + 1 then Discarded(|cardsToDiscard|) else NullPointer)
      ensures var refilled := Refill(old(handOfCards.cards[..]), cardsToDiscard, old(deckOfCards.deck[..]), old(deckOfCards.nextCardIndex));
              && (outcome.NullPointer? ==> handOfCards.cards[..] == refilled)
              && (outcome.Discarded? ==> FullSlots(refilled) && handOfCards.Full()
                                         && multiset(handOfCards.Cards()) == multiset(Unwrap(refilled))
                                         && SortedByGameValue(handOfCards.Cards())
                                         && forall v :: WithGameValue(handOfCards.Cards(), v) == WithGameValue(Unwrap(refilled), v))
      ensures handOfCards.indexOfFlushBuster == old(handOfCards.indexOfFlushBuster)
      ensures handOfCards.indexOfStraightBreaker == old(handOfCards.indexOfStraightBreaker)
    {
      ghost var slots0 := handOfCards.cards[..];
      ghost var deck0 := deckOfCards.deck[..];
      ghost var next0 := deckOfCards.nextCardIndex;
      ExchangeCards(cardsToDiscard);
      if |cardsToDiscard| <= next0 + 1 {
        RefillStaysFull(slots0, cardsToDiscard, deck0, next0);
      } else {
        RefillAt(slots0, cardsToDiscard, deck0, next0, |cardsToDiscard| - 1);
      }
      var ok := handOfCards.Sort();
      if ok {
        outcome := Discarded(|cardsToDiscard|);
      } else {
        outcome := NullPointer;
      }
    }

    /**
     * discard: the first up to three positions the hand signals Discard are exchanged, in
     * ascending order, each card going to the deck's discards and the next card dealt
     * taking its slot; then the hand is sorted. When the deck runs out the slot stays empty
     * and the final sort throws.
     */
    method Discard(draws: seq<int>) returns (outcome: Outcome)
      requires Valid() && handOfCards.Full()
      requires |draws| >= CardsPerHand && forall k :: 0 <= k < |draws| ==> 0 <= draws[k] < MaxProbability
      modifies deckOfCards, handOfCards, handOfCards.cards
      ensures Valid() && handOfCards.cards == old(handOfCards.cards)
      ensures handOfCards.counts == old(handOfCards.counts) && handOfCards.countedCards == old(handOfCards.countedCards)
      ensures var chosen := DefiniteDiscards(old(handOfCards.Signals()), CardsPerHand);
              var next := old(deckOfCards.nextCardIndex);
              && deckOfCards.deck == old(deckOfCards.deck)
              && deckOfCards.nextCardIndex == (if next - |chosen| >= -1 then next - |chosen| else -1)
              && deckOfCards.discardedCards == old(deckOfCards.discardedCards) + Picked(old(handOfCards.Cards()), chosen)
              && outcome == (if |chosen| <= next + 1 then Discarded(|chosen|) else NullPointer)
      ensures var chosen := DefiniteDiscards(old(handOfCards.Signals()), CardsPerHand);
              var refilled := Refill(old(handOfCards.cards[..]), chosen, old(deckOfCards.deck[..]), old(deckOfCards.nextCardIndex));
              && (outcome.NullPointer? ==> handOfCards.cards[..] == refilled)
              && (outcome.Discarded? ==> FullSlots(refilled) && handOfCards.Full()
                                         && multiset(handOfCards.Cards()) == multiset(Unwrap(refilled))
                                         && SortedByGameValue(handOfCards.Cards())
                                         && forall v :: WithGameValue(handOfCards.Cards(), v) == WithGameValue(Unwrap(refilled), v))
      ensures handOfCards.indexOfFlushBuster ==
                (if old(handOfCards.RunsChecks()) then Some(old(handOfCards.EffectiveFlushBuster()))
                 else old(handOfCards.indexOfFlushBuster))
      ensures handOfCards.indexOfStraightBreaker ==
                (if old(handOfCards.RunsChecks()) then Some(old(handOfCards.EffectiveStraightBreaker()))
                 else old(handOfCards.indexOfStraightBreaker))
    {
      var cardsToDiscard := ChooseDiscards(draws);
      outcome := ExchangeAndSort(cardsToDiscard);
    }
  }
}
