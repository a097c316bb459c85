/**
 * The hand of src/poker/HandOfCards.java as a class: five card slots (a slot is None once
 * its card has been returned), the game-value histogram built by the constructors, and
 * the memo fields of the busted-flush and broken-straight checks.
 */
module Hands {
  import opened Wrappers
  import opened Cards
  import opened Classifier
  import opened Advisor
  import Decks

  predicate FullSlots(slots: seq<Option<Card>>)
  {
    forall k :: 0 <= k < |slots| ==> slots[k].Some?
  }

  /** The cards of a sequence of slots that are all filled. */
  function Unwrap(slots: seq<Option<Card>>): (s: seq<Card>)
    requires FullSlots(slots)
    ensures |s| == |slots| && forall k :: 0 <= k < |s| ==> slots[k] == Some(s[k])
  {
    seq(|slots|, k requires 0 <= k < |slots| && FullSlots(slots) => slots[k].value)
  }

  lemma {:induction false} SuitCountPrefix(cards: seq<Card>, n: nat, s: Suit)
    requires n <= |cards|
    ensures SuitCount(cards[..n], s) <= SuitCount(cards, s)
    decreases |cards|
  {
    if n < |cards| {
      var shorter := cards[..|cards| - 1];
      assert shorter[..n] == cards[..n];
      SuitCountPrefix(shorter, n, s);
    } else {
      assert cards[..n] == cards;
    }
  }

  /** Non-increasing by game value, the order sort establishes. */
  predicate SortedByGameValue(s: seq<Card>)
  {
    forall i, j :: 0 <= i < j < |s| ==> s[i].gameValue >= s[j].gameValue
  }

  predicate AdjacentSorted(s: seq<Card>, n: int)
    requires n <= |s|
  {
    forall k :: 0 <= k < n - 1 ==> s[k].gameValue >= s[k + 1].gameValue
  }

  lemma {:induction false} AdjacentGivesSorted(s: seq<Card>)
    requires AdjacentSorted(s, |s|)
    ensures SortedByGameValue(s)
    decreases |s|
  {
    if |s| > 1 {
      var t := s[1..];
      assert AdjacentSorted(t, |t|) by {
        forall k | 0 <= k < |t| - 1 ensures t[k].gameValue >= t[k + 1].gameValue {
          assert t[k] == s[k + 1] && t[k + 1] == s[k + 2];
        }
      }
      AdjacentGivesSorted(t);
      forall i, j | 0 <= i < j < |s| ensures s[i].gameValue >= s[j].gameValue {
        if i > 0 {
          assert s[i] == t[i - 1] && s[j] == t[j - 1];
        } else if j > 1 {
          assert s[1] == t[0] && s[j] == t[j - 1];
        }
      }
    }
  }

  /** The cards of game value v, in hand order: what a stable sort must keep. */
  function WithGameValue(s: seq<Card>, v: int): seq<Card>
  {
    if |s| == 0 then []
    else (if s[0].gameValue == v then [s[0]] else []) + WithGameValue(s[1..], v)
  }

  lemma {:induction false} WithGameValueConcat(a: seq<Card>, b: seq<Card>, v: int)
    ensures WithGameValue(a + b, v) == WithGameValue(a, v) + WithGameValue(b, v)
    decreases |a|
  {
    if |a| == 0 {
      assert a + b == b;
    } else {
      assert (a + b)[0] == a[0];
      assert (a + b)[1..] == a[1..] + b;
      WithGameValueConcat(a[1..], b, v);
    }
  }

  /** Exchanging neighbours of different game values keeps every game value's cards in order. */
  lemma SwapKeepsOrderOfEquals(s: seq<Card>, i: nat, v: int)
    requires i + 1 < |s| && s[i].gameValue != s[i + 1].gameValue
    ensures WithGameValue(s[i := s[i + 1]][i + 1 := s[i]], v) == WithGameValue(s, v)
  {
    var t := s[i := s[i + 1]][i + 1 := s[i]];
    assert s == s[..i] + [s[i], s[i + 1]] + s[i + 2..];
    assert t == s[..i] + [s[i + 1], s[i]] + s[i + 2..];
    WithGameValueConcat(s[..i] + [s[i], s[i + 1]], s[i + 2..], v);
    WithGameValueConcat(s[..i], [s[i], s[i + 1]], v);
    WithGameValueConcat(s[..i] + [s[i + 1], s[i]], s[i + 2..], v);
    WithGameValueConcat(s[..i], [s[i + 1], s[i]], v);
    assert [s[i], s[i + 1]][1..] == [s[i + 1]];
    assert [s[i + 1], s[i]][1..] == [s[i]];
  }

  /** The bubble sort's measure: each exchange of a lower card before a higher one lowers it. */
  function Weight(s: seq<Card>): int
    requires |s| == CardsPerHand
  {
    s[1].gameValue + 2 * s[2].gameValue + 3 * s[3].gameValue + 4 * s[4].gameValue
  }

  /** The five dealNext calls of the dealing constructor, into a fresh array. */
  method DealFive(deck: Decks.DeckOfCards) returns (slots: array<Option<Card>>)
    requires deck.Valid() && deck.nextCardIndex >= CardsPerHand - 1
    modifies deck
    ensures fresh(slots) && slots.Length == CardsPerHand
    ensures deck.Valid() && deck.deck == old(deck.deck) && deck.discardedCards == old(deck.discardedCards)
    ensures deck.nextCardIndex == old(deck.nextCardIndex) - CardsPerHand
    ensures |deck.Dealt()| == |old(deck.Dealt())| + CardsPerHand
    ensures deck.Dealt()[..|old(deck.Dealt())|] == old(deck.Dealt())
    ensures forall k :: 0 <= k < CardsPerHand ==>
              slots[k] == Some(deck.Dealt()[|old(deck.Dealt())| + k]) && InRange(slots[k].value)
  {
    slots := new Option<Card>[CardsPerHand](_ => None);
    ghost var n0 := |deck.Dealt()|;
    for i := 0 to CardsPerHand
      invariant deck.Valid() && deck.deck == old(deck.deck) && deck.discardedCards == old(deck.discardedCards)
      invariant deck.nextCardIndex == old(deck.nextCardIndex) - i
      invariant |deck.Dealt()| == n0 + i && deck.Dealt()[..n0] == old(deck.Dealt())
      invariant forall k :: 0 <= k < i ==> slots[k] == Some(deck.Dealt()[n0 + k]) && InRange(slots[k].value)
    {
      ghost var before := deck.Dealt();
      var c := deck.DealNext();
      WellFormedValues(c.value);
      assert deck.Dealt() == before + [c.value];
      slots[i] := c;
    }
  }

  class HandOfCards {
    var cards: array<Option<Card>>
    /** gameValuesInHandCountArray: built by the constructors and never refreshed. */
    var counts: seq<int>
    var indexOfFlushBuster: Option<int>
    var indexOfStraightBreaker: Option<int>
    /** The sorted cards the histogram was built from. */
    ghost var countedCards: seq<Card>

    /** Five slots, each empty or holding a card whose game value the histogram can index. */
    ghost predicate SlotsOk()
      reads this, cards
    {
      cards.Length == CardsPerHand
      && forall k :: 0 <= k < CardsPerHand && cards[k].Some? ==> InRange(cards[k].value)
    }

    ghost predicate Valid()
      reads this, cards
    {
      SlotsOk() && |counts| == TypesOfCard
      && (indexOfFlushBuster.Some? ==> NotFound <= indexOfFlushBuster.value < CardsPerHand)
      && (indexOfStraightBreaker.Some? ==> NotFound <= indexOfStraightBreaker.value < CardsPerHand)
    }

    /** The histogram is that of the cards the constructor sorted; exchanges later leave it stale. */
    ghost predicate CountsMatchCounted()
      reads this
    {
      IsHand(countedCards) && AllInRange(countedCards) && counts == Histogram(countedCards)
    }

    ghost predicate Full()
      reads this, cards
    {
      FullSlots(cards[..])
    }

    function Cards(): (s: seq<Card>)
      reads this, cards
      requires Full()
      ensures |s| == cards.Length && forall k :: 0 <= k < |s| ==> cards[k] == Some(s[k])
    {
      Unwrap(cards[..])
    }

    /** getGameValueCountInHand: the histogram of the five cards, filled in a local array. */
    method GetGameValueCountInHand() returns (h: seq<int>)
      requires SlotsOk() && Full()
      ensures h == Histogram(Cards())
    {
      var s := Cards();
      var a := new int[TypesOfCard](_ => 0);
      assert a[..] == Histogram(s[..0]);
      for i := 0 to CardsPerHand
        invariant a[..] == Histogram(s[..i])
      {
        assert InRange(s[i]);
        var index := cards[i].value.gameValue - 2;
        assert s[..i + 1][..i] == s[..i];
        assert Histogram(s[..i + 1]) == Histogram(s[..i])[index := Histogram(s[..i])[index] + 1];
        a[index] := a[index] + 1;
      }
      assert s[..CardsPerHand] == s;
      h := a[..];
    }

    /** One exchange of the bubble sort: a lower card moves behind the higher one after it. */
    method SwapWithNext(i: nat)
      requires SlotsOk() && Full() && i + 1 < CardsPerHand
      requires cards[i].value.gameValue < cards[i + 1].value.gameValue
      modifies cards
      ensures SlotsOk() && Full()
      ensures Cards() == old(Cards())[i := old(Cards())[i + 1]][i + 1 := old(Cards())[i]]
      ensures multiset(Cards()) == multiset(old(Cards()))
      ensures Weight(Cards()) < Weight(old(Cards()))
      ensures forall v :: WithGameValue(Cards(), v) == WithGameValue(old(Cards()), v)
    {
      ghost var before := Cards();
      var temp := cards[i];
      cards[i] := cards[i + 1];
      cards[i + 1] := temp;
      assert Cards() == before[i := before[i + 1]][i + 1 := before[i]];
      forall v ensures WithGameValue(Cards(), v) == WithGameValue(before, v) {
        SwapKeepsOrderOfEquals(before, i, v);
      }
    }

    /**
     * sort: bubble passes until a pass exchanges nothing, exchanging neighbours only when
     * the first has the strictly lower game value. An empty slot makes the Java method
     * throw; here the method then reports false and leaves the slots alone.
     */
    method Sort() returns (ok: bool)
      requires SlotsOk()
      modifies cards
      ensures SlotsOk()
      ensures ok <==> old(Full())
      ensures !ok ==> cards[..] == old(cards[..])
      ensures ok ==> Full() && multiset(Cards()) == multiset(old(Cards()))
      ensures ok ==> SortedByGameValue(Cards())
      ensures ok ==> forall v :: WithGameValue(Cards(), v) == WithGameValue(old(Cards()), v)
    {
      if exists k :: 0 <= k < cards.Length && cards[k].None? {
        return false;
      }
      var sorted := false;
      while !sorted
        invariant SlotsOk() && Full()
        invariant multiset(Cards()) == multiset(old(Cards()))
        invariant forall v :: WithGameValue(Cards(), v) == WithGameValue(old(Cards()), v)
        invariant sorted ==> AdjacentSorted(Cards(), CardsPerHand)
        decreases Weight(Cards()), if sorted then 0 else 1
      {
        sorted := true;
        ghost var start := Weight(Cards());
        for i := 0 to cards.Length - 1
          invariant SlotsOk() && Full()
          invariant multiset(Cards()) == multiset(old(Cards()))
          invariant forall v :: WithGameValue(Cards(), v) == WithGameValue(old(Cards()), v)
          invariant sorted ==> Weight(Cards()) == start && AdjacentSorted(Cards(), i + 1)
          invariant !sorted ==> Weight(Cards()) < start
        {
          if cards[i].value.gameValue < cards[i + 1].value.gameValue {
            sorted := false;
            SwapWithNext(i);
          }
        }
      }
      AdjacentGivesSorted(Cards());
      return true;
    }

    /** The memoised flush buster, or the value isBustedFlush would compute and store. */
    ghost function EffectiveFlushBuster(): int
      reads this, cards
      requires Valid() && Full()
    {
      if indexOfFlushBuster.Some? then indexOfFlushBuster.value else FlushBuster(Cards())
    }

    /** The memoised straight breaker, or the value isBrokenStraight would compute and store. */
    ghost function EffectiveStraightBreaker(): int
      reads this, cards
      requires Valid() && Full()
    {
      if indexOfStraightBreaker.Some? then indexOfStraightBreaker.value else BrokenStraightIndex(Cards(), counts)
    }

    /** Whether getDiscardProbability dispatches to the two memoised checks on this hand. */
    ghost predicate RunsChecks()
      reads this, cards
      requires Valid() && Full()
    {
      var t := GetHandType(Cards(), counts);
      t == HighHand || t == OnePair
    }

    /** The answers getDiscardProbability gives for the five positions in the current state. */
    ghost function Signals(): (signals: seq<int>)
      reads this, cards
      requires Valid() && Full()
      ensures |signals| == CardsPerHand
    {
      var s := Cards();
      var h := counts;
      var f := EffectiveFlushBuster();
      var b := EffectiveStraightBreaker();
      seq(CardsPerHand, pos requires 0 <= pos < CardsPerHand && IsHand(s) && |h| == TypesOfCard => Signal(pos, s, h, f, b))
    }

    /** On a hand as the constructors leave it, the signals are the advice of the pure model. */
    lemma FreshSignalsAreAdvice()
      requires Valid() && Full() && CountsMatchCounted() && countedCards == Cards()
      requires indexOfFlushBuster.None? && indexOfStraightBreaker.None?
      ensures Signals() == Advice(Cards())
    {
    }

    /**
     * The dealing constructor: five cards off the deck, sorted, then counted. The deck must
     * still hold five cards; with fewer the Java sort meets an empty slot and throws.
     */
    constructor Deal(deck: Decks.DeckOfCards)
      requires deck.Valid() && deck.nextCardIndex >= CardsPerHand - 1
      modifies deck
      ensures deck.Valid() && deck.deck == old(deck.deck) && deck.discardedCards == old(deck.discardedCards)
      ensures deck.nextCardIndex == old(deck.nextCardIndex) - CardsPerHand
      ensures |deck.Dealt()| == |old(deck.Dealt())| + CardsPerHand
      ensures deck.Dealt()[..|old(deck.Dealt())|] == old(deck.Dealt())
      ensures Valid() && Full() && fresh(cards) && CountsMatchCounted()
      ensures multiset(Cards()) == multiset(deck.Dealt()[|old(deck.Dealt())|..])
      ensures SortedByGameValue(Cards()) && countedCards == Cards() && counts == Histogram(Cards())
      ensures indexOfFlushBuster.None? && indexOfStraightBreaker.None?
    {
      ghost var n0 := |deck.Dealt()|;
      var slots := DealFive(deck);
      cards := slots;
      counts := [];
      countedCards := [];
      indexOfFlushBuster := None;
      indexOfStraightBreaker := None;
      new;
      assert Cards() == deck.Dealt()[n0..];
      var ok := Sort();
      counts := GetGameValueCountInHand();
      countedCards := Cards();
    }

    /**
     * The constructor over a given array, which the hand keeps and sorts in place. Java
     * throws on an empty slot or on a game value outside 2..14.
     */
    constructor FromCards(a: array<Option<Card>>)
      requires a.Length == CardsPerHand
      requires forall k :: 0 <= k < CardsPerHand ==> a[k].Some? && InRange(a[k].value)
      modifies a
      ensures cards == a && Valid() && Full() && CountsMatchCounted()
      ensures multiset(Cards()) == multiset(Unwrap(old(a[..])))
      ensures SortedByGameValue(Cards())
      ensures forall v :: WithGameValue(Cards(), v) == WithGameValue(Unwrap(old(a[..])), v)
      ensures countedCards == Cards() && counts == Histogram(Cards())
      ensures indexOfFlushBuster.None? && indexOfStraightBreaker.None?
    {
      cards := a;
      counts := [];
      countedCards := [];
      indexOfFlushBuster := None;
      indexOfStraightBreaker := None;
      new;
      var ok := Sort();
      counts := GetGameValueCountInHand();
      countedCards := Cards();
    }

    /** returnCard: hands back the card at index and leaves that slot empty. */
    method ReturnCard(index: int) returns (card: Option<Card>)
      requires Valid() && 0 <= index < CardsPerHand
      modifies cards
      ensures Valid()
      ensures card == old(cards[index]) && cards[..] == old(cards[..])[index := None]
    {
      card := cards[index];
      cards[index] := None;
    }

    /** getCard: the slot at index, which may be empty. */
    method GetCard(index: int) returns (card: Option<Card>)
      requires SlotsOk() && 0 <= index < CardsPerHand
      ensures card == cards[index]
      ensures card.Some? ==> InRange(card.value)
    {
      card := cards[index];
    }

    /** receiveCard: the card goes into every empty slot (a null card leaves them empty). */
    method ReceiveCard(card: Option<Card>)
      requires Valid() && (card.Some? ==> InRange(card.value))
      modifies cards
      ensures Valid()
      ensures forall k :: 0 <= k < CardsPerHand ==> cards[k] == (if old(cards[k]).None? then card else old(cards[k]))
    {
      for i := 0 to cards.Length
        invariant Valid()
        invariant forall k :: 0 <= k < i ==> cards[k] == (if old(cards[k]).None? then card else old(cards[k]))
        invariant forall k :: i <= k < CardsPerHand ==> cards[k] == old(cards[k])
      {
        if cards[i].None? {
          cards[i] := card;
        }
      }
    }

    /** getIndexOfCardInHand: the first position holding the game value, else 0. */
    method GetIndexOfCardInHand(gameValue: int) returns (index: int)
      requires SlotsOk() && Full()
      ensures index == IndexOfCardInHand(Cards(), gameValue)
    {
      index := 0;
      var i := 0;
      while i < CardsPerHand
        invariant 0 <= i <= CardsPerHand
        invariant forall k :: 0 <= k < i ==> Cards()[k].gameValue != gameValue
      {
        if cards[i].value.gameValue == gameValue {
          index := i;
          break;
        }
        i := i + 1;
      }
    }

    /** getIndexesOfSingleCards: for each game value held once, in ascending order, its position. */
    method GetIndexesOfSingleCards() returns (indexes: seq<int>)
      requires Valid() && Full()
      ensures indexes == SingleCardIndexes(Cards(), counts)
    {
      ghost var s := Cards();
      ghost var h := counts;
      indexes := [];
      for i := 0 to TypesOfCard
        invariant indexes == SinglesBelow(s, h, i)
      {
        if counts[i] == 1 {
          var gameValue := i + 2;
          var index := GetIndexOfCardInHand(gameValue);
          indexes := indexes + [index];
        }
      }
    }

    /**
     * The tally loop of isBustedFlush: the suits of the cards are counted in hand order,
     * stopping at the card whose suit reaches four; that card's suit is the majority suit.
     */
    method TallySuits() returns (bustedFlush: bool, majoritySuitIndex: int)
      requires SlotsOk() && Full()
      ensures bustedFlush ==> 0 <= majoritySuitIndex < CardsPerHand
                              && MajoritySuit(Cards()) == Some(Cards()[majoritySuitIndex].suit)
      ensures !bustedFlush ==> MajoritySuit(Cards()) == None
    {
      ghost var s := Cards();
      bustedFlush := false;
      majoritySuitIndex := NotFound;
      var suitsInHand := new int[4](_ => 0);
      var i := 0;
      while i < CardsPerHand
        invariant 0 <= i <= CardsPerHand
        invariant forall t :: 0 <= t < 4 ==> suitsInHand[t] == SuitCount(s[..i], SuitOrder[t]) < 4
      {
        var suitIndex := cards[i].value.suit.Index();
        assert s[..i + 1][..i] == s[..i];
        suitsInHand[suitIndex] := suitsInHand[suitIndex] + 1;
        if suitsInHand[suitIndex] == 4 {
          bustedFlush := true;
          majoritySuitIndex := i;
          SuitCountPrefix(s, i + 1, s[i].suit);
          MajorityIsUnique(s, s[i].suit);
          return;
        }
        i := i + 1;
      }
      assert s[..CardsPerHand] == s;
      forall x: Suit ensures SuitCount(s, x) < 4 {
        assert SuitOrder[x.Index()] == x;
      }
    }

    /**
     * isBustedFlush: the memoised answer if there is one; otherwise the suits are tallied in
     * the order H, D, S, C until one reaches four, the last card off that suit is found, and
     * the answer is stored.
     */
    method IsBustedFlush() returns (index: int)
      requires Valid() && Full()
      modifies this
      ensures Valid() && cards == old(cards) && counts == old(counts) && countedCards == old(countedCards)
      ensures indexOfStraightBreaker == old(indexOfStraightBreaker)
      ensures index == old(EffectiveFlushBuster()) && indexOfFlushBuster == Some(index)
    {
      if indexOfFlushBuster.Some? {
        return indexOfFlushBuster.value;
      }
      ghost var s := Cards();
      var bustedIndex := NotFound;
      var bustedFlush, majoritySuitIndex := TallySuits();
      if bustedFlush {
        var majoritySuit := cards[majoritySuitIndex].value.suit;
        for k := 0 to CardsPerHand
          invariant bustedIndex == LastOffSuitBelow(s, majoritySuit, k)
        {
          var candidateSuit := cards[k].value.suit;
          if candidateSuit != majoritySuit {
            bustedIndex := k;
          }
        }
      }
      indexOfFlushBuster := Some(bustedIndex);
      index := bustedIndex;
    }

    /**
     * isBrokenStraight: the memoised answer if there is one; otherwise the histogram is
     * scanned window by window (the first window four wide when the hand holds an Ace), and
     * the breaking card of the first window that hits is stored and returned.
     */
    method IsBrokenStraight() returns (index: int)
      requires Valid() && Full()
      modifies this
      ensures Valid() && cards == old(cards) && counts == old(counts) && countedCards == old(countedCards)
      ensures indexOfFlushBuster == old(indexOfFlushBuster)
      ensures index == old(EffectiveStraightBreaker()) && indexOfStraightBreaker == Some(index)
    {
      if indexOfStraightBreaker.Some? {
        return indexOfStraightBreaker.value;
      }
      var almostStraightCount := 4;
      var checkCards := 5;
      var ace := cards[HighCardIndex].value.rank == "A";
      if ace {
        almostStraightCount := 3;
        checkCards := 4;
      }
      var i := 0;
      var j := 4;
      while j < TypesOfCard
        invariant 0 <= i && j == i + 4 && j <= TypesOfCard
        invariant checkCards == WindowWidth(i, ace) && almostStraightCount == WindowTarget(i, ace)
        invariant FirstHitFrom(counts, ace, 0) == FirstHitFrom(counts, ace, i)
        invariant indexOfStraightBreaker.None? && cards == old(cards) && counts == old(counts)
      {
        var proximity := 0;
        var index := i;
        for k := 0 to checkCards
          invariant index == i + k
          invariant proximity == NonzeroIn(counts, i, k)
        {
          if counts[index] > 0 {
            proximity := proximity + 1;
          }
          index := index + 1;
        }
        if proximity == almostStraightCount {
          var brokenIndex := GetCardWhichBrokeStraight(i, j);
          indexOfStraightBreaker := Some(brokenIndex);
          return brokenIndex;
        }
        i := i + 1;
        j := j + 1;
        almostStraightCount := 4;
        checkCards := 5;
      }
      indexOfStraightBreaker := Some(NotFound);
      return NotFound;
    }

    /**
     * getCardWhichBrokeStraight: the last pair's game value; failing that the nearest card
     * below the window, overridden by the nearest card above it; then that card's position.
     */
    method GetCardWhichBrokeStraight(startWindow: int, endWindow: int) returns (indexOfCardToSwap: int)
      requires SlotsOk() && Full() && |counts| == TypesOfCard && 0 <= startWindow <= endWindow < TypesOfCard
      ensures indexOfCardToSwap == CardWhichBrokeStraight(Cards(), counts, startWindow, endWindow)
    {
      var brokeIndex := LastPairBucket();
      if brokeIndex == NotFound {
        if startWindow > 0 {
          brokeIndex := NearestBelow(startWindow);
        }
        if endWindow < TypesOfCard - 1 {
          var right := NearestFrom(endWindow + 1);
          if right != NotFound {
            brokeIndex := right;
          }
        }
      }
      var gameValue := brokeIndex + 2;
      indexOfCardToSwap := GetIndexOfCardInHand(gameValue);
    }

    /** The first loop of getCardWhichBrokeStraight: the last bucket holding a pair. */
    method LastPairBucket() returns (brokeIndex: int)
      requires |counts| == TypesOfCard
      ensures brokeIndex == LastBucketBelow(counts, 2, TypesOfCard)
    {
      brokeIndex := NotFound;
      for i := 0 to TypesOfCard
        invariant brokeIndex == LastBucketBelow(counts, 2, i)
      {
        if counts[i] == 2 {
          brokeIndex := i;
        }
      }
    }

    /** The downward scan of getCardWhichBrokeStraight: the nearest non-empty bucket below the window. */
    method NearestBelow(startWindow: int) returns (brokeIndex: int)
      requires |counts| == TypesOfCard && 0 < startWindow < TypesOfCard
      ensures brokeIndex == NonemptyBelow(counts, startWindow)
    {
      brokeIndex := NotFound;
      var i := startWindow - 1;
      while i >= 0
        invariant -1 <= i < startWindow && brokeIndex == NotFound
        invariant NonemptyBelow(counts, startWindow) == NonemptyBelow(counts, i + 1)
        decreases i + 1
      {
        if counts[i] > 0 {
          return i;
        }
        i := i - 1;
      }
    }

    /** The upward scan of getCardWhichBrokeStraight: the nearest non-empty bucket from b on. */
    method NearestFrom(b: int) returns (brokeIndex: int)
      requires |counts| == TypesOfCard && 0 < b < TypesOfCard
      ensures brokeIndex == NonemptyFrom(counts, b)
    {
      brokeIndex := NotFound;
      var i := b;
      while i < TypesOfCard
        invariant b <= i <= TypesOfCard && brokeIndex == NotFound
        invariant NonemptyFrom(counts, b) == NonemptyFrom(counts, i)
      {
        if counts[i] > 0 {
          return i;
        }
        i := i + 1;
      }
    }

    /** discardHighHandOrOnePair: both checks run (and memoise) before their answers are used. */
    method DiscardHighHandOrOnePair(cardPosition: int, handType: Type) returns (p: int)
      requires Valid() && Full()
      modifies this
      ensures Valid() && cards == old(cards) && counts == old(counts) && countedCards == old(countedCards)
      ensures indexOfFlushBuster == Some(old(EffectiveFlushBuster()))
      ensures indexOfStraightBreaker == Some(old(EffectiveStraightBreaker()))
      ensures p == Advisor.DiscardHighHandOrOnePair(cardPosition, handType, Cards(), counts,
                                                    old(EffectiveFlushBuster()), old(EffectiveStraightBreaker()))
    {
      var bustedFlushIndex := IsBustedFlush();
      var brokenStraightIndex := IsBrokenStraight();
      if bustedFlushIndex != NotFound {
        if bustedFlushIndex == cardPosition {
          return Discard;
        } else {
          return Keep;
        }
      } else if brokenStraightIndex != NotFound {
        if brokenStraightIndex == cardPosition {
          return Discard;
        } else {
          return Keep;
        }
      } else if handType == OnePair {
        var indexes := GetIndexesOfSingleCards();
        if cardPosition in indexes {
          return Discard;
        } else {
          return Keep;
        }
      } else {
        if cardPosition != HighCardIndex && cardPosition != HighCardIndex + 1 {
          return Discard;
        } else {
          return Keep;
        }
      }
    }

    /**
     * getDiscardProbability: Discard for a position outside the hand; otherwise the signal
     * for the hand's type, with the memo fields filled on the way and their values kept.
     */
    method GetDiscardProbability(cardPosition: int) returns (p: int)
      requires Valid() && (0 <= cardPosition < CardsPerHand ==> Full())
      modifies this
      ensures Valid() && cards == old(cards) && counts == old(counts) && countedCards == old(countedCards)
      ensures old(indexOfFlushBuster).Some? ==> indexOfFlushBuster == old(indexOfFlushBuster)
      ensures old(indexOfStraightBreaker).Some? ==> indexOfStraightBreaker == old(indexOfStraightBreaker)
      ensures (cardPosition < 0 || cardPosition >= CardsPerHand) ==>
                p == Discard && indexOfFlushBuster == old(indexOfFlushBuster)
                && indexOfStraightBreaker == old(indexOfStraightBreaker)
      ensures 0 <= cardPosition < CardsPerHand ==>
                EffectiveFlushBuster() == old(EffectiveFlushBuster())
                && EffectiveStraightBreaker() == old(EffectiveStraightBreaker())
                && p == old(Signals())[cardPosition]
      ensures 0 <= cardPosition < CardsPerHand ==>
                indexOfFlushBuster == (if old(RunsChecks()) then Some(old(EffectiveFlushBuster())) else old(indexOfFlushBuster))
                && indexOfStraightBreaker ==
                   (if old(RunsChecks()) then Some(old(EffectiveStraightBreaker())) else old(indexOfStraightBreaker))
    {
      if cardPosition < 0 || cardPosition > 4 {
        return Discard;
      }
      var handType := GetHandType(Cards(), counts);
      if handType == HighHand || handType == OnePair {
        p := DiscardHighHandOrOnePair(cardPosition, handType);
      } else if handType == TwoPair {
        var indexes := GetIndexesOfSingleCards();
        if cardPosition in indexes {
          return Discard;
        } else {
          return Keep;
        }
      } else if handType == ThreeOfAKind {
        var indexes := GetIndexesOfSingleCards();
        if cardPosition in indexes {
          return Discard;
        } else {
          return Keep;
        }
      } else {
        p := Keep;
      }
    }
  }
}
