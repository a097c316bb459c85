/**
 * The discard advisor of src/poker/HandOfCards.java as functions of the hand's cards and
 * of the histogram it carries: getDiscardProbability, discardHighHandOrOnePair,
 * getIndexOfCardInHand, getIndexesOfSingleCards, and the values isBustedFlush,
 * isBrokenStraight and getCardWhichBrokeStraight compute before they memoise them.
 */
module Advisor {
  import opened Wrappers
  import opened Cards
  import opened Classifier

  const Keep := 0
  const Discard := 100
  /** The "no such card" answer of the busted-flush and broken-straight checks. */
  const NotFound := -1
  const HighCardIndex := 0

  // ---------------------------------------------------------------------------
  // Positions of cards

  /** The first position from k on holding game value v, or 0 when none does. */
  function FirstIndexFrom(cards: seq<Card>, v: int, k: nat): (i: int)
    requires k <= |cards|
    decreases |cards| - k
    ensures 0 <= i < |cards| || i == 0
    ensures (exists j :: k <= j < |cards| && cards[j].gameValue == v) ==>
              k <= i < |cards| && cards[i].gameValue == v && forall j :: k <= j < i ==> cards[j].gameValue != v
    ensures (forall j :: k <= j < |cards| ==> cards[j].gameValue != v) ==> i == 0
  {
    if k == |cards| then 0
    else if cards[k].gameValue == v then k
    else FirstIndexFrom(cards, v, k + 1)
  }

  /** getIndexOfCardInHand: the first position of game value v, or 0 when the hand has none. */
  function IndexOfCardInHand(cards: seq<Card>, v: int): (i: int)
    requires IsHand(cards)
  {
    FirstIndexFrom(cards, v, 0)
  }

  /** getIndexesOfSingleCards below bucket b: one entry per bucket holding a single card, in bucket order. */
  function SinglesBelow(cards: seq<Card>, counts: seq<int>, b: nat): (s: seq<int>)
    requires IsHand(cards) && |counts| == TypesOfCard && b <= TypesOfCard
  {
    if b == 0 then []
    else SinglesBelow(cards, counts, b - 1) + (if counts[b - 1] == 1 then [IndexOfCardInHand(cards, b + 1)] else [])
  }

  /** Buckets a to b holding no single card add nothing to the listing. */
  lemma {:induction false} SinglesBelowSkip(cards: seq<Card>, counts: seq<int>, a: nat, b: nat)
    requires IsHand(cards) && |counts| == TypesOfCard && a <= b <= TypesOfCard
    requires forall k :: a <= k < b ==> counts[k] != 1
    ensures SinglesBelow(cards, counts, b) == SinglesBelow(cards, counts, a)
    decreases b - a
  {
    if a < b {
      SinglesBelowSkip(cards, counts, a, b - 1);
    }
  }

  /** A position is listed below bucket b exactly when some bucket there holds one card, found at it. */
  lemma {:induction false} SinglesBelowMembers(cards: seq<Card>, counts: seq<int>, b: nat, p: int)
    requires IsHand(cards) && |counts| == TypesOfCard && b <= TypesOfCard
    ensures p in SinglesBelow(cards, counts, b) <==>
              exists k :: 0 <= k < b && counts[k] == 1 && IndexOfCardInHand(cards, k + 2) == p
  {
    if b > 0 {
      SinglesBelowMembers(cards, counts, b - 1, p);
    }
  }

  function SingleCardIndexes(cards: seq<Card>, counts: seq<int>): seq<int>
    requires IsHand(cards) && |counts| == TypesOfCard
  {
    SinglesBelow(cards, counts, TypesOfCard)
  }

  lemma {:induction false} CountOfWitness(cards: seq<Card>, v: int)
    requires CountOf(cards, v) >= 1
    ensures exists j :: 0 <= j < |cards| && cards[j].gameValue == v
  {
    var n := |cards|;
    if cards[n - 1].gameValue != v {
      CountOfWitness(cards[..n - 1], v);
      var j :| 0 <= j < n - 1 && cards[..n - 1][j].gameValue == v;
      assert cards[j].gameValue == v;
    }
  }

  lemma {:induction false} CountOfTwoPositions(cards: seq<Card>, i: nat, j: nat)
    requires i < j < |cards| && cards[i].gameValue == cards[j].gameValue
    ensures CountOf(cards, cards[i].gameValue) >= 2
  {
    var n := |cards|;
    var prefix := cards[..n - 1];
    if j < n - 1 {
      CountOfTwoPositions(prefix, i, j);
    } else {
      CountOfAtPosition(prefix, i);
    }
  }

  lemma {:induction false} CountOfAtPosition(cards: seq<Card>, i: nat)
    requires i < |cards|
    ensures CountOf(cards, cards[i].gameValue) >= 1
  {
    var n := |cards|;
    if i < n - 1 {
      CountOfAtPosition(cards[..n - 1], i);
    }
  }

  lemma UnpairedCardIsListed(cards: seq<Card>, pos: int)
    requires IsHand(cards) && AllInRange(cards) && 0 <= pos < CardsPerHand
    requires CountOf(cards, cards[pos].gameValue) == 1
    ensures pos in SingleCardIndexes(cards, Histogram(cards))
  {
    var v := cards[pos].gameValue;
    assert InRange(cards[pos]);
    var i := IndexOfCardInHand(cards, v);
    if i < pos {
      CountOfTwoPositions(cards, i, pos);
    }
    assert Histogram(cards)[v - 2] == 1;
    SinglesBelowMembers(cards, Histogram(cards), TypesOfCard, pos);
  }

  lemma ListedCardIsUnpaired(cards: seq<Card>, pos: int)
    requires IsHand(cards) && 0 <= pos < CardsPerHand
    requires pos in SingleCardIndexes(cards, Histogram(cards))
    ensures CountOf(cards, cards[pos].gameValue) == 1
  {
    var counts := Histogram(cards);
    SinglesBelowMembers(cards, counts, TypesOfCard, pos);
    var k :| 0 <= k < TypesOfCard && counts[k] == 1 && IndexOfCardInHand(cards, k + 2) == pos;
    assert CountOf(cards, k + 2) == 1;
    CountOfWitness(cards, k + 2);
    assert cards[FirstIndexFrom(cards, k + 2, 0)].gameValue == k + 2;
    assert cards[pos].gameValue == k + 2;
  }

  /**
   * With the hand's own histogram, a position is listed as a single card exactly when no
   * other card of the hand shares its game value.
   */
  lemma SinglesAreUnpairedCards(cards: seq<Card>, pos: int)
    requires IsHand(cards) && AllInRange(cards) && 0 <= pos < CardsPerHand
    ensures pos in SingleCardIndexes(cards, Histogram(cards)) <==> CountOf(cards, cards[pos].gameValue) == 1
  {
    if CountOf(cards, cards[pos].gameValue) == 1 {
      UnpairedCardIsListed(cards, pos);
    }
    if pos in SingleCardIndexes(cards, Histogram(cards)) {
      ListedCardIsUnpaired(cards, pos);
    }
  }

  // ---------------------------------------------------------------------------
  // Busted flush

  function SuitCount(cards: seq<Card>, s: Suit): (n: nat)
    ensures n <= |cards|
  {
    if |cards| == 0 then 0
    else SuitCount(cards[..|cards| - 1], s) + (if cards[|cards| - 1].suit == s then 1 else 0)
  }

  /** The count of a suit in a five-card hand, card by card. */
  lemma SuitCountOfHand(cards: seq<Card>, s: Suit)
    requires IsHand(cards)
    ensures SuitCount(cards, s) == (if cards[0].suit == s then 1 else 0) + (if cards[1].suit == s then 1 else 0)
                                   + (if cards[2].suit == s then 1 else 0) + (if cards[3].suit == s then 1 else 0)
                                   + (if cards[4].suit == s then 1 else 0)
  {
    assert cards[..4][..3] == cards[..3];
    assert cards[..3][..2] == cards[..2];
    assert cards[..2][..1] == cards[..1];
    assert cards[..1][..0] == [];
    assert SuitCount(cards[..1], s) == (if cards[0].suit == s then 1 else 0);
    assert SuitCount(cards[..2], s) == SuitCount(cards[..1], s) + (if cards[1].suit == s then 1 else 0);
    assert SuitCount(cards[..3], s) == SuitCount(cards[..2], s) + (if cards[2].suit == s then 1 else 0);
    assert SuitCount(cards[..4], s) == SuitCount(cards[..3], s) + (if cards[3].suit == s then 1 else 0);
  }

  /** Two different suits share the cards between them. */
  lemma {:induction false} SuitCountsDisjoint(cards: seq<Card>, s: Suit, t: Suit)
    requires s != t
    ensures SuitCount(cards, s) + SuitCount(cards, t) <= |cards|
  {
    if |cards| > 0 {
      SuitCountsDisjoint(cards[..|cards| - 1], s, t);
    }
  }

  /** The suit (if any) four or more cards share, tried in the order H, D, S, C. */
  function MajoritySuit(cards: seq<Card>): (m: Option<Suit>)
    ensures m.Some? ==> SuitCount(cards, m.value) >= 4
    ensures m.None? ==> forall s :: SuitCount(cards, s) < 4
  {
    if SuitCount(cards, Hearts) >= 4 then Some(Hearts)
    else if SuitCount(cards, Diamonds) >= 4 then Some(Diamonds)
    else if SuitCount(cards, Spades) >= 4 then Some(Spades)
    else if SuitCount(cards, Clubs) >= 4 then Some(Clubs)
    else None
  }

  /** In a five-card hand at most one suit can reach four, so the majority is that suit. */
  lemma MajorityIsUnique(cards: seq<Card>, s: Suit)
    requires IsHand(cards) && SuitCount(cards, s) >= 4
    ensures MajoritySuit(cards) == Some(s)
  {
    forall t | t != s
      ensures SuitCount(cards, t) <= 1
    {
      SuitCountsDisjoint(cards, s, t);
    }
  }

  /** The last position below n whose suit is not s, or NotFound. */
  function LastOffSuitBelow(cards: seq<Card>, s: Suit, n: nat): (i: int)
    requires n <= |cards|
    ensures i == NotFound <==> forall j :: 0 <= j < n ==> cards[j].suit == s
    ensures i != NotFound ==> 0 <= i < n && cards[i].suit != s && forall j :: i < j < n ==> cards[j].suit == s
  {
    if n == 0 then NotFound
    else if cards[n - 1].suit != s then n - 1
    else LastOffSuitBelow(cards, s, n - 1)
  }

  /** isBustedFlush before memoisation: the last card off the majority suit, or NotFound. */
  function FlushBuster(cards: seq<Card>): (i: int)
    requires IsHand(cards)
  {
    match MajoritySuit(cards)
    case None => NotFound
    case Some(s) => LastOffSuitBelow(cards, s, CardsPerHand)
  }

  lemma {:induction false} SuitCountAllSame(cards: seq<Card>, s: Suit)
    requires forall j :: 0 <= j < |cards| ==> cards[j].suit == s
    ensures SuitCount(cards, s) == |cards|
  {
    if |cards| > 0 {
      SuitCountAllSame(cards[..|cards| - 1], s);
    }
  }

  lemma {:induction false} SuitCountAllButOne(cards: seq<Card>, s: Suit, i: nat)
    requires i < |cards| && cards[i].suit != s
    requires forall j :: 0 <= j < |cards| && j != i ==> cards[j].suit == s
    ensures SuitCount(cards, s) == |cards| - 1
  {
    var n := |cards|;
    if i == n - 1 {
      SuitCountAllSame(cards[..n - 1], s);
    } else {
      SuitCountAllButOne(cards[..n - 1], s, i);
    }
  }

  lemma {:induction false} SuitCountOffTwo(cards: seq<Card>, s: Suit, i: nat, j: nat)
    requires i < j < |cards| && cards[i].suit != s && cards[j].suit != s
    ensures SuitCount(cards, s) <= |cards| - 2
  {
    var n := |cards|;
    var prefix := cards[..n - 1];
    if j < n - 1 {
      SuitCountOffTwo(prefix, s, i, j);
    } else if i < n - 1 {
      SuitCountOffOne(prefix, s, i);
    }
  }

  lemma {:induction false} SuitCountOffOne(cards: seq<Card>, s: Suit, i: nat)
    requires i < |cards| && cards[i].suit != s
    ensures SuitCount(cards, s) <= |cards| - 1
  {
    var n := |cards|;
    if i < n - 1 {
      SuitCountOffOne(cards[..n - 1], s, i);
    }
  }

  /** No other card of the hand has the suit of the card at i. */
  predicate SuitUnshared(cards: seq<Card>, i: int)
    requires IsHand(cards) && 0 <= i < CardsPerHand
  {
    forall j :: 0 <= j < CardsPerHand && j != i ==> cards[j].suit != cards[i].suit
  }

  /**
   * The flush buster is found exactly when four cards, and not five, share a suit; it is
   * then the one card off that suit.
   */
  lemma FlushBusterMeaning(cards: seq<Card>)
    requires IsHand(cards)
    ensures FlushBuster(cards) != NotFound <==> exists s :: SuitCount(cards, s) == 4
    ensures FlushBuster(cards) != NotFound ==>
              var i := FlushBuster(cards);
              0 <= i < CardsPerHand &&
              forall j, k :: 0 <= j < CardsPerHand && 0 <= k < CardsPerHand && j != i && k != i ==>
                cards[j].suit == cards[k].suit != cards[i].suit
  {
    var m := MajoritySuit(cards);
    if m.Some? {
      var s := m.value;
      var i := LastOffSuitBelow(cards, s, CardsPerHand);
      if i == NotFound {
        SuitCountAllSame(cards, s);
        forall t ensures SuitCount(cards, t) != 4 {
          if t != s {
            SuitCountsDisjoint(cards, s, t);
          }
        }
      } else {
        forall j | 0 <= j < i ensures cards[j].suit == s {
          if cards[j].suit != s {
            SuitCountOffTwo(cards, s, j, i);
          }
        }
        SuitCountAllButOne(cards, s, i);
      }
    }
  }

  // ---------------------------------------------------------------------------
  // Broken straight

  /** Number of non-empty buckets among the width buckets starting at from. */
  function NonzeroIn(counts: seq<int>, from: nat, width: nat): (n: nat)
    requires from + width <= |counts|
    ensures n <= width
  {
    if width == 0 then 0
    else NonzeroIn(counts, from, width - 1) + (if counts[from + width - 1] > 0 then 1 else 0)
  }

  /** Window size and target count of window i: 4 and 3 for the first window of a hand with an Ace. */
  function WindowWidth(i: nat, ace: bool): nat
  {
    if i == 0 && ace then 4 else 5
  }

  function WindowTarget(i: nat, ace: bool): nat
  {
    if i == 0 && ace then 3 else 4
  }

  predicate WindowHits(counts: seq<int>, i: nat, ace: bool)
    requires |counts| == TypesOfCard && i + 4 < TypesOfCard
  {
    NonzeroIn(counts, i, WindowWidth(i, ace)) == WindowTarget(i, ace)
  }

  /** The sliding-window scan of isBrokenStraight from window i on: the first window that hits. */
  function FirstHitFrom(counts: seq<int>, ace: bool, i: nat): (w: Option<nat>)
    requires |counts| == TypesOfCard
    decreases TypesOfCard - i
    ensures w.Some? ==> i <= w.value && w.value + 4 < TypesOfCard && WindowHits(counts, w.value, ace)
                        && forall k :: i <= k < w.value ==> !WindowHits(counts, k, ace)
    ensures w.None? ==> forall k :: i <= k && k + 4 < TypesOfCard ==> !WindowHits(counts, k, ace)
  {
    if i + 4 >= TypesOfCard then None
    else if WindowHits(counts, i, ace) then Some(i)
    else FirstHitFrom(counts, ace, i + 1)
  }

  function BrokenStraightWindow(cards: seq<Card>, counts: seq<int>): Option<nat>
    requires IsHand(cards) && |counts| == TypesOfCard
  {
    FirstHitFrom(counts, HasAce(cards), 0)
  }

  /** The last bucket below b holding n, or NotFound. */
  function LastBucketBelow(counts: seq<int>, n: int, b: nat): (k: int)
    requires b <= |counts|
    ensures k == NotFound <==> forall j :: 0 <= j < b ==> counts[j] != n
    ensures k != NotFound ==> 0 <= k < b && counts[k] == n && forall j :: k < j < b ==> counts[j] != n
  {
    if b == 0 then NotFound
    else if counts[b - 1] == n then b - 1
    else LastBucketBelow(counts, n, b - 1)
  }

  /** The nearest non-empty bucket below b, scanning downward, or NotFound. */
  function NonemptyBelow(counts: seq<int>, b: nat): (k: int)
    requires b <= |counts|
    ensures k == NotFound <==> forall j :: 0 <= j < b ==> counts[j] <= 0
    ensures k != NotFound ==> 0 <= k < b && counts[k] > 0 && forall j :: k < j < b ==> counts[j] <= 0
  {
    if b == 0 then NotFound
    else if counts[b - 1] > 0 then b - 1
    else NonemptyBelow(counts, b - 1)
  }

  /** The nearest non-empty bucket from b upward, or NotFound. */
  function NonemptyFrom(counts: seq<int>, b: nat): (k: int)
    requires b <= |counts|
    decreases |counts| - b
    ensures k == NotFound <==> forall j :: b <= j < |counts| ==> counts[j] <= 0
    ensures k != NotFound ==> b <= k < |counts| && counts[k] > 0 && forall j :: b <= j < k ==> counts[j] <= 0
  {
    if b == |counts| then NotFound
    else if counts[b] > 0 then b
    else NonemptyFrom(counts, b + 1)
  }

  /**
   * The bucket getCardWhichBrokeStraight settles on: the last pair; failing that the
   * nearest card right of the window, which overrides the nearest card left of it.
   */
  function BreakingBucket(counts: seq<int>, start: nat, end: nat): int
    requires |counts| == TypesOfCard && start <= end < TypesOfCard
  {
    var pair := LastBucketBelow(counts, 2, TypesOfCard);
    if pair != NotFound then pair
    else
      var left := if start > 0 then NonemptyBelow(counts, start) else NotFound;
      var right := if end < TypesOfCard - 1 then NonemptyFrom(counts, end + 1) else NotFound;
      if right != NotFound then right else left
  }

  /** getCardWhichBrokeStraight: the position of the first card of the breaking bucket. */
  function CardWhichBrokeStraight(cards: seq<Card>, counts: seq<int>, start: nat, end: nat): int
    requires IsHand(cards) && |counts| == TypesOfCard && start <= end < TypesOfCard
  {
    IndexOfCardInHand(cards, BreakingBucket(counts, start, end) + 2)
  }

  /** isBrokenStraight before memoisation. */
  function BrokenStraightIndex(cards: seq<Card>, counts: seq<int>): int
    requires IsHand(cards) && |counts| == TypesOfCard
  {
    match BrokenStraightWindow(cards, counts)
    case None => NotFound
    case Some(i) => CardWhichBrokeStraight(cards, counts, i, i + 4)
  }

  /** A broken straight names a position of the hand; otherwise the answer is NotFound. */
  lemma BrokenStraightIndexRange(cards: seq<Card>, counts: seq<int>)
    requires IsHand(cards) && |counts| == TypesOfCard
    ensures BrokenStraightIndex(cards, counts) == NotFound <==>
              forall k :: 0 <= k && k + 4 < TypesOfCard ==> !WindowHits(counts, k, HasAce(cards))
    ensures BrokenStraightIndex(cards, counts) != NotFound ==> 0 <= BrokenStraightIndex(cards, counts) < CardsPerHand
  {
  }

  /** When both sides of the window hold cards and nothing pairs, the right-hand card is chosen. */
  lemma RightOverridesLeft(counts: seq<int>, start: nat, end: nat)
    requires |counts| == TypesOfCard && 0 < start <= end < TypesOfCard - 1
    requires forall j :: 0 <= j < TypesOfCard ==> counts[j] != 2
    requires exists j :: 0 <= j < start && counts[j] > 0
    requires exists j :: end < j < TypesOfCard && counts[j] > 0
    ensures end < BreakingBucket(counts, start, end) < TypesOfCard
  {
  }

  // ---------------------------------------------------------------------------
  // The signal

  /**
   * getDiscardProbability with the busted-flush and broken-straight answers given: the
   * values the hand computes, or those it memoised earlier.
   */
  function Signal(pos: int, cards: seq<Card>, counts: seq<int>, flushBuster: int, straightBreaker: int): (p: int)
    requires IsHand(cards) && |counts| == TypesOfCard
    ensures p == Keep || p == Discard
    ensures (pos < 0 || pos > 4) ==> p == Discard
  {
    if pos < 0 || pos > 4 then Discard
    else
      var t := GetHandType(cards, counts);
      if t == HighHand || t == OnePair then
        DiscardHighHandOrOnePair(pos, t, cards, counts, flushBuster, straightBreaker)
      else if t == TwoPair || t == ThreeOfAKind then
        if pos in SingleCardIndexes(cards, counts) then Discard else Keep
      else Keep
  }

  function DiscardHighHandOrOnePair(pos: int, t: Type, cards: seq<Card>, counts: seq<int>,
                                    flushBuster: int, straightBreaker: int): int
    requires IsHand(cards) && |counts| == TypesOfCard
  {
    if flushBuster != NotFound then (if flushBuster == pos then Discard else Keep)
    else if straightBreaker != NotFound then (if straightBreaker == pos then Discard else Keep)
    else if t == OnePair then (if pos in SingleCardIndexes(cards, counts) then Discard else Keep)
    else if pos != HighCardIndex && pos != HighCardIndex + 1 then Discard
    else Keep
  }

  /** getDiscardProbability on a hand whose memo fields are still unset. */
  function DiscardProbability(pos: int, cards: seq<Card>, counts: seq<int>): int
    requires IsHand(cards) && |counts| == TypesOfCard
  {
    Signal(pos, cards, counts, FlushBuster(cards), BrokenStraightIndex(cards, counts))
  }

  /** Straights and every stronger type keep every card. */
  lemma StrongHandsKeepAll(pos: int, cards: seq<Card>, counts: seq<int>, flushBuster: int, straightBreaker: int)
    requires IsHand(cards) && |counts| == TypesOfCard && 0 <= pos < CardsPerHand
    requires GetHandType(cards, counts).Ordinal() >= Straight.Ordinal()
    ensures Signal(pos, cards, counts, flushBuster, straightBreaker) == Keep
  {
  }

  /** Two pair and three of a kind discard exactly the cards no other card pairs with. */
  lemma PairedHandsDiscardSingles(pos: int, cards: seq<Card>, flushBuster: int, straightBreaker: int)
    requires IsHand(cards) && AllInRange(cards) && 0 <= pos < CardsPerHand
    requires GetHandType(cards, Histogram(cards)) in {TwoPair, ThreeOfAKind}
    ensures Signal(pos, cards, Histogram(cards), flushBuster, straightBreaker) == Discard <==>
              CountOf(cards, cards[pos].gameValue) == 1
  {
    SinglesAreUnpairedCards(cards, pos);
  }

  /**
   * A high hand or one pair with four cards of a suit discards exactly the card whose suit
   * no other card shares, whatever the broken-straight check says.
   */
  lemma BustedFlushDiscardsOffSuit(pos: int, cards: seq<Card>, counts: seq<int>)
    requires IsHand(cards) && |counts| == TypesOfCard && 0 <= pos < CardsPerHand
    requires GetHandType(cards, counts) in {HighHand, OnePair}
    requires exists s :: SuitCount(cards, s) == 4
    ensures DiscardProbability(pos, cards, counts) == Discard <==> SuitUnshared(cards, pos)
  {
    FlushBusterMeaning(cards);
    var i := FlushBuster(cards);
    var j := if 0 != pos && 0 != i then 0 else if 1 != pos && 1 != i then 1 else 2;
    assert pos != i ==> cards[j].suit == cards[pos].suit;
  }

  /** Without a busted flush, a broken straight discards only the card that broke it. */
  lemma BrokenStraightDiscardsBreaker(pos: int, cards: seq<Card>, counts: seq<int>)
    requires IsHand(cards) && |counts| == TypesOfCard && 0 <= pos < CardsPerHand
    requires GetHandType(cards, counts) in {HighHand, OnePair}
    requires FlushBuster(cards) == NotFound && BrokenStraightIndex(cards, counts) != NotFound
    ensures DiscardProbability(pos, cards, counts) == Discard <==> pos == BrokenStraightIndex(cards, counts)
  {
  }

  /** With neither a busted flush nor a broken straight, a high hand keeps its two highest cards only. */
  lemma HighHandKeepsTopTwo(pos: int, cards: seq<Card>, counts: seq<int>)
    requires IsHand(cards) && |counts| == TypesOfCard && 0 <= pos < CardsPerHand
    requires GetHandType(cards, counts) == HighHand
    requires FlushBuster(cards) == NotFound && BrokenStraightIndex(cards, counts) == NotFound
    ensures DiscardProbability(pos, cards, counts) == Discard <==> pos >= 2
  {
  }

  /** With neither a busted flush nor a broken straight, one pair discards exactly its unpaired cards. */
  lemma OnePairDiscardsSingles(pos: int, cards: seq<Card>)
    requires IsHand(cards) && AllInRange(cards) && 0 <= pos < CardsPerHand
    requires GetHandType(cards, Histogram(cards)) == OnePair
    requires FlushBuster(cards) == NotFound && BrokenStraightIndex(cards, Histogram(cards)) == NotFound
    ensures DiscardProbability(pos, cards, Histogram(cards)) == Discard <==> CountOf(cards, cards[pos].gameValue) == 1
  {
    SinglesAreUnpairedCards(cards, pos);
  }

  /** The signals of all five positions of a hand whose memo fields are unset. */
  function Advice(cards: seq<Card>): (a: seq<int>)
    requires IsHand(cards)
    ensures |a| == CardsPerHand && forall p :: 0 <= p < CardsPerHand ==> a[p] == Keep || a[p] == Discard
  {
    seq(CardsPerHand, pos => DiscardProbability(pos, cards, Histogram(cards)))
  }

  /** The advice is the five signals, one per position. */
  lemma AdviceIs(cards: seq<Card>, a: seq<int>)
    requires IsHand(cards) && |a| == CardsPerHand
    requires forall pos :: 0 <= pos < CardsPerHand ==> DiscardProbability(pos, cards, Histogram(cards)) == a[pos]
    ensures Advice(cards) == a
  {
  }

  /** A straight or any stronger hand is advised to keep all five cards. */
  lemma StrongHandAdvice(cards: seq<Card>)
    requires IsHand(cards) && GetHandType(cards, Histogram(cards)).Ordinal() >= Straight.Ordinal()
    ensures Advice(cards) == [Keep, Keep, Keep, Keep, Keep]
  {
    var h := Histogram(cards);
    forall pos | 0 <= pos < CardsPerHand
      ensures DiscardProbability(pos, cards, h) == [Keep, Keep, Keep, Keep, Keep][pos]
    {
      StrongHandsKeepAll(pos, cards, h, FlushBuster(cards), BrokenStraightIndex(cards, h));
    }
    AdviceIs(cards, [Keep, Keep, Keep, Keep, Keep]);
  }

  /** A high hand or one pair with a broken straight and no busted flush discards only the breaker. */
  lemma BrokenStraightAdviceIs(cards: seq<Card>, a: seq<int>)
    requires IsHand(cards) && GetHandType(cards, Histogram(cards)) in {HighHand, OnePair}
    requires FlushBuster(cards) == NotFound && BrokenStraightIndex(cards, Histogram(cards)) != NotFound
    requires |a| == CardsPerHand
    requires forall pos :: 0 <= pos < CardsPerHand ==>
               a[pos] == if pos == BrokenStraightIndex(cards, Histogram(cards)) then Discard else Keep
    ensures Advice(cards) == a
  {
    var h := Histogram(cards);
    forall pos | 0 <= pos < CardsPerHand
      ensures DiscardProbability(pos, cards, h) == a[pos]
    {
      BrokenStraightDiscardsBreaker(pos, cards, h);
    }
    AdviceIs(cards, a);
  }

  /** A paired hand's advice discards exactly the listed single cards. */
  lemma PairedHandAdviceIs(cards: seq<Card>, singles: seq<int>, a: seq<int>)
    requires IsHand(cards) && GetHandType(cards, Histogram(cards)) in {TwoPair, ThreeOfAKind}
    requires singles == SingleCardIndexes(cards, Histogram(cards)) && |a| == CardsPerHand
    requires forall pos :: 0 <= pos < CardsPerHand ==> a[pos] == if pos in singles then Discard else Keep
    ensures Advice(cards) == a
  {
    forall pos | 0 <= pos < CardsPerHand
      ensures DiscardProbability(pos, cards, Histogram(cards)) == a[pos]
    {
    }
    AdviceIs(cards, a);
  }

  /** For two pair and three of a kind the advice discards exactly the cards no other card pairs with. */
  lemma PairedHandAdvice(cards: seq<Card>)
    requires IsHand(cards) && AllInRange(cards)
    requires GetHandType(cards, Histogram(cards)) in {TwoPair, ThreeOfAKind}
    ensures forall pos :: 0 <= pos < CardsPerHand ==>
              (Advice(cards)[pos] == Discard <==> CountOf(cards, cards[pos].gameValue) == 1)
  {
    forall pos | 0 <= pos < CardsPerHand
      ensures Advice(cards)[pos] == Discard <==> CountOf(cards, cards[pos].gameValue) == 1
    {
      PairedHandsDiscardSingles(pos, cards, FlushBuster(cards), BrokenStraightIndex(cards, Histogram(cards)));
    }
  }
}
