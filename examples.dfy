/**
 * The fixed hands the main methods of src/poker/HandOfCards.java try out, with what the
 * model computes for them.
 */
module Examples {
  import opened Wrappers
  import opened Cards
  import opened Classifier
  import opened Scorer
  import opened Advisor

  /** 10C 9C 8H 7S 2S: four of a five-card run, broken by the two. */
  const BrokenStraightHand: seq<Card> :=
    [Card("10", Clubs, 10, 10), Card("9", Clubs, 9, 9), Card("8", Hearts, 8, 8),
     Card("7", Spades, 7, 7), Card("2", Spades, 2, 2)]

  lemma BrokenStraightHistogram()
    ensures Histogram(BrokenStraightHand) == [1, 0, 0, 0, 0, 1, 1, 1, 1, 0, 0, 0, 0]
  {
    HistogramOfHand(BrokenStraightHand);
  }

  lemma BrokenStraightType()
    ensures GetHandType(BrokenStraightHand, Histogram(BrokenStraightHand)) == HighHand
  {
    var cards := BrokenStraightHand;
    BrokenStraightHistogram();
    CountEqIsCardinality(Histogram(cards), 2, {});
    assert !RunStep(cards[3], cards[4]);
    assert cards[2].suit != cards[0].suit;
  }

  lemma BrokenStraightNoFlush()
    ensures FlushBuster(BrokenStraightHand) == NotFound
  {
    SuitCountOfHand(BrokenStraightHand, Hearts);
    SuitCountOfHand(BrokenStraightHand, Diamonds);
    SuitCountOfHand(BrokenStraightHand, Spades);
    SuitCountOfHand(BrokenStraightHand, Clubs);
  }

  /** On the histogram of that hand, the window starting at the six is hit and the two breaks it. */
  lemma BrokenStraightBucket()
    ensures FirstHitFrom(Histogram(BrokenStraightHand), false, 0) == Some(4)
    ensures BreakingBucket(Histogram(BrokenStraightHand), 4, 8) == 0
  {
    var h: seq<int> := [1, 0, 0, 0, 0, 1, 1, 1, 1, 0, 0, 0, 0];
    BrokenStraightHistogram();
    assert NonzeroIn(h, 0, 5) == 1;
    assert !WindowHits(h, 0, false) && !WindowHits(h, 1, false) && !WindowHits(h, 2, false);
    assert !WindowHits(h, 3, false) && WindowHits(h, 4, false);
    assert LastBucketBelow(h, 2, TypesOfCard) == NotFound;
    assert NonemptyBelow(h, 4) == 0;
    assert NonemptyFrom(h, 9) == NotFound;
  }

  lemma BrokenStraightBreaker()
    ensures BrokenStraightIndex(BrokenStraightHand, Histogram(BrokenStraightHand)) == 4
  {
    var cards := BrokenStraightHand;
    BrokenStraightBucket();
    assert !HasAce(cards);
    assert IndexOfCardInHand(cards, 2) == 4;
  }

  /** Only the two, position 4, is to be discarded. */
  lemma BrokenStraightAdvice()
    ensures Advice(BrokenStraightHand) == [Keep, Keep, Keep, Keep, Discard]
  {
    BrokenStraightType();
    BrokenStraightNoFlush();
    BrokenStraightBreaker();
    BrokenStraightAdviceIs(BrokenStraightHand, [Keep, Keep, Keep, Keep, Discard]);
  }

  /** 10C 9C 8H 7C 2C, where the seven was built with face and game value 3: four clubs. */
  const BustedFlushHand: seq<Card> :=
    [Card("10", Clubs, 10, 10), Card("9", Clubs, 9, 9), Card("8", Hearts, 8, 8),
     Card("7", Clubs, 3, 3), Card("2", Clubs, 2, 2)]

  lemma BustedFlushType()
    ensures GetHandType(BustedFlushHand, Histogram(BustedFlushHand)) == HighHand
  {
    var cards := BustedFlushHand;
    HistogramOfHand(cards);
    assert Histogram(cards) == [1, 1, 0, 0, 0, 0, 1, 1, 1, 0, 0, 0, 0];
    CountEqIsCardinality(Histogram(cards), 2, {});
    assert !RunStep(cards[2], cards[3]);
    assert cards[2].suit != cards[0].suit;
  }

  lemma BustedFlushBuster()
    ensures FlushBuster(BustedFlushHand) == 2
  {
    SuitCountOfHand(BustedFlushHand, Hearts);
    SuitCountOfHand(BustedFlushHand, Diamonds);
    SuitCountOfHand(BustedFlushHand, Spades);
    SuitCountOfHand(BustedFlushHand, Clubs);
  }

  /** Only the eight of hearts, position 2, is to be discarded. */
  lemma BustedFlushAdvice()
    ensures Advice(BustedFlushHand) == [Keep, Keep, Discard, Keep, Keep]
  {
    BustedFlushType();
    BustedFlushBuster();
  }

  /** 10C 10D 8H 8C 2C: only the two, position 4, is to be discarded. */
  lemma TwoPairAdvice()
    ensures Advice(TensEightsTwo) == [Keep, Keep, Keep, Keep, Discard]
  {
    TensEightsScoreAsWritten(TensEightsTwo[4]);
    TwoPairSingles();
    var a := [Keep, Keep, Keep, Keep, Discard];
    forall pos | 0 <= pos < CardsPerHand ensures a[pos] == if pos in [4] then Discard else Keep {
      assert pos in [4] <==> pos == 4;
    }
    PairedHandAdviceIs(TensEightsTwo, [4], a);
  }

  lemma TwoPairSingles()
    ensures SingleCardIndexes(TensEightsTwo, Histogram(TensEightsTwo)) == [4]
  {
    var cards := TensEightsTwo;
    var h: seq<int> := [1, 0, 0, 0, 0, 0, 2, 0, 2, 0, 0, 0, 0];
    HistogramOfHand(cards);
    assert Histogram(cards) == h;
    assert IndexOfCardInHand(cards, 2) == 4;
    assert SinglesBelow(cards, h, 1) == [4];
    SinglesBelowSkip(cards, h, 1, TypesOfCard);
  }

  /** 10C 10D 10H 8C 2C. */
  const ThreeTensHand: seq<Card> :=
    [Card("10", Clubs, 10, 10), Card("10", Diamonds, 10, 10), Card("10", Hearts, 10, 10),
     Card("8", Clubs, 8, 8), Card("2", Clubs, 2, 2)]

  lemma ThreeTensType()
    ensures GetHandType(ThreeTensHand, Histogram(ThreeTensHand)) == ThreeOfAKind
  {
    var cards := ThreeTensHand;
    HistogramOfHand(cards);
    var h: seq<int> := [1, 0, 0, 0, 0, 0, 1, 0, 3, 0, 0, 0, 0];
    assert Histogram(cards) == h;
    CountEqIsCardinality(h, 2, {});
    assert h[8] == 3;
    assert !RunStep(cards[0], cards[1]);
    assert cards[1].suit != cards[0].suit;
  }

  /** The eight and the two, positions 3 and 4, are to be discarded. */
  lemma ThreeTensAdvice()
    ensures Advice(ThreeTensHand) == [Keep, Keep, Keep, Discard, Discard]
  {
    ThreeTensType();
    ThreeTensSingles();
    var a := [Keep, Keep, Keep, Discard, Discard];
    forall pos | 0 <= pos < CardsPerHand ensures a[pos] == if pos in [4, 3] then Discard else Keep {
      assert pos in [4, 3] <==> pos == 4 || pos == 3;
    }
    PairedHandAdviceIs(ThreeTensHand, [4, 3], a);
  }

  lemma ThreeTensSingles()
    ensures SingleCardIndexes(ThreeTensHand, Histogram(ThreeTensHand)) == [4, 3]
  {
    var cards := ThreeTensHand;
    var h: seq<int> := [1, 0, 0, 0, 0, 0, 1, 0, 3, 0, 0, 0, 0];
    HistogramOfHand(cards);
    assert Histogram(cards) == h;
    assert IndexOfCardInHand(cards, 2) == 4;
    assert IndexOfCardInHand(cards, 8) == 3;
    assert SinglesBelow(cards, h, 1) == [4];
    SinglesBelowSkip(cards, h, 1, 6);
    assert SinglesBelow(cards, h, 7) == [4, 3];
    SinglesBelowSkip(cards, h, 7, TypesOfCard);
  }

  /** 10C 10D 10H 8C 8D. */
  const FullHouseHand: seq<Card> :=
    [Card("10", Clubs, 10, 10), Card("10", Diamonds, 10, 10), Card("10", Hearts, 10, 10),
     Card("8", Clubs, 8, 8), Card("8", Diamonds, 8, 8)]

  lemma FullHouseType()
    ensures GetHandType(FullHouseHand, Histogram(FullHouseHand)) == FullHouse
  {
    var cards := FullHouseHand;
    HistogramOfHand(cards);
    var h: seq<int> := [0, 0, 0, 0, 0, 0, 2, 0, 3, 0, 0, 0, 0];
    assert Histogram(cards) == h;
    CountEqIsCardinality(h, 2, {6});
    assert h[8] == 3;
    assert !RunStep(cards[0], cards[1]);
  }

  /** A full house keeps all five cards. */
  lemma FullHouseAdvice()
    ensures Advice(FullHouseHand) == [Keep, Keep, Keep, Keep, Keep]
  {
    FullHouseType();
    StrongHandAdvice(FullHouseHand);
  }

  /** AH KH QH JH 10H, the hand of runCustomHandTypeTest. */
  const RoyalHand: seq<Card> :=
    [Card("A", Hearts, 1, 14), Card("K", Hearts, 13, 13), Card("Q", Hearts, 12, 12),
     Card("J", Hearts, 11, 11), Card("10", Hearts, 10, 10)]

  /** The royal flush is not reported as a straight, and scores the royal-flush offset alone. */
  lemma RoyalHandIsNotStraight()
    ensures GetHandType(RoyalHand, Histogram(RoyalHand)) == RoyalFlush
    ensures !CheckIfHandType(RoyalHand, Histogram(RoyalHand), Straight)
    ensures GameValue(RoyalHand, Histogram(RoyalHand)) == 9000000
  {
  }

  /** A5432 off-suit: the wheel, sorted with the Ace first. */
  const WheelHand: seq<Card> :=
    [Card("A", Hearts, 1, 14), Card("5", Clubs, 5, 5), Card("4", Diamonds, 4, 4),
     Card("3", Spades, 3, 3), Card("2", Hearts, 2, 2)]

  /** AKQJ10 off-suit. */
  const AceHighStraightHand: seq<Card> :=
    [Card("A", Hearts, 1, 14), Card("K", Clubs, 13, 13), Card("Q", Diamonds, 12, 12),
     Card("J", Spades, 11, 11), Card("10", Hearts, 10, 10)]

  lemma WheelType()
    ensures GetHandType(WheelHand, Histogram(WheelHand)) == Straight
  {
    var cards := WheelHand;
    HistogramOfHand(cards);
    assert Histogram(cards) == [1, 1, 1, 1, 0, 0, 0, 0, 0, 0, 0, 0, 1];
    CountEqIsCardinality(Histogram(cards), 2, {});
    assert cards[1].suit != cards[0].suit;
  }

  lemma AceHighStraightType()
    ensures GetHandType(AceHighStraightHand, Histogram(AceHighStraightHand)) == Straight
  {
    var cards := AceHighStraightHand;
    HistogramOfHand(cards);
    assert Histogram(cards) == [0, 0, 0, 0, 0, 0, 0, 0, 1, 1, 1, 1, 1];
    CountEqIsCardinality(Histogram(cards), 2, {});
    assert cards[1].suit != cards[0].suit;
  }

  /**
   * The wheel passes the run check through the Ace-over-five step and, scored by its
   * leading Ace, ties with the Ace-high straight.
   */
  lemma WheelTiesAceHighStraight()
    ensures GameValue(WheelHand, Histogram(WheelHand)) == 4537824
    ensures GameValue(AceHighStraightHand, Histogram(AceHighStraightHand)) == 4537824
  {
    WheelType();
    AceHighStraightType();
    PowersOfFactor();
  }
}
