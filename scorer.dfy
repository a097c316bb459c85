/**
 * Hand scoring: getGameValue and getGameValueOfCardWithCount of src/poker/HandOfCards.java.
 * A score is `ordinal * 1_000_000 + tiebreak`, with base-14 polynomial tiebreaks.
 * Math.pow on doubles is written as exact integer powers: every operand is at most 14^5.
 */
module Scorer {
  import opened Cards
  import opened Classifier

  const DefaultHandValue := 1000000
  const Factor := 14

  /** The per-type offset, HIGH_HAND_DEFAULT … ROYAL_FLUSH_DEFAULT. */
  function DefaultFor(t: Type): int
  {
    t.Ordinal() * DefaultHandValue
  }

  function Pow(b: int, e: nat): (p: int)
    ensures b >= 0 ==> p >= 0
  {
    if e == 0 then 1 else b * Pow(b, e - 1)
  }

  /** `(int) Math.pow(14, e)`: exact for e >= 0; a negative power is a fraction the cast truncates to 0. */
  function FactorPower(e: int): (p: int)
    ensures e >= 0 ==> p == Pow(Factor, e)
    ensures e < 0 ==> p == 0
  {
    if e < 0 then 0 else Pow(Factor, e)
  }

  /** getGameValueOfCardWithCount, scanning buckets from b upwards. */
  function LowestWithCountFrom(counts: seq<int>, n: int, b: nat): (v: int)
    requires |counts| == TypesOfCard
    decreases TypesOfCard - b
    ensures v == 0 <==> forall k :: b <= k < TypesOfCard ==> counts[k] != n
    ensures v != 0 ==> b + 2 <= v <= 14 && counts[v - 2] == n
                       && forall k :: b <= k < v - 2 ==> counts[k] != n
  {
    if b >= TypesOfCard then 0
    else if counts[b] == n then b + 2
    else LowestWithCountFrom(counts, n, b + 1)
  }

  /** The lowest game value whose count is n, or 0 when no bucket holds n. */
  function GameValueOfCardWithCount(counts: seq<int>, n: int): (v: int)
    requires |counts| == TypesOfCard
    ensures v == 0 <==> !HasBucket(counts, n)
    ensures v != 0 ==> 2 <= v <= 14 && counts[v - 2] == n && forall k :: 0 <= k < v - 2 ==> counts[k] != n
  {
    LowestWithCountFrom(counts, n, 0)
  }

  /** The two-pair loop that scans buckets downwards from b - 1 for a pair. */
  function HighestPairBelow(counts: seq<int>, b: nat): (v: int)
    requires b <= |counts| == TypesOfCard
    ensures v == 0 <==> forall k :: 0 <= k < b ==> counts[k] != 2
    ensures v != 0 ==> 2 <= v <= b + 1 && counts[v - 2] == 2 && forall k :: v - 2 < k < b ==> counts[k] != 2
  {
    if b == 0 then 0
    else if counts[b - 1] == 2 then b + 1
    else HighestPairBelow(counts, b - 1)
  }

  /** The highest game value that forms a pair, or 0. */
  function HighPairGameValue(counts: seq<int>): (v: int)
    requires |counts| == TypesOfCard
  {
    HighestPairBelow(counts, TypesOfCard)
  }

  /**
   * The two-pair "other card" loop as written: the first card whose game value differs
   * from the high pair OR from the low pair, or 0 when there is none.
   */
  function TwoPairOtherCard(cards: seq<Card>, high: int, low: int): int
  {
    if |cards| == 0 then 0
    else if cards[0].gameValue != high || cards[0].gameValue != low then cards[0].gameValue
    else TwoPairOtherCard(cards[1..], high, low)
  }

  /** Sum of 14^power * gameValue with the power dropping by one per card (flush and high hand). */
  function PolyValue(cards: seq<Card>, power: int): int
  {
    if |cards| == 0 then 0
    else FactorPower(power) * cards[0].gameValue + PolyValue(cards[1..], power - 1)
  }

  /** The one-pair kicker sum: only cards off the pair take a power, which then drops by one. */
  function PairKickers(cards: seq<Card>, pair: int, power: int): int
  {
    if |cards| == 0 then 0
    else if cards[0].gameValue != pair then
      FactorPower(power) * cards[0].gameValue + PairKickers(cards[1..], pair, power - 1)
    else PairKickers(cards[1..], pair, power)
  }

  /**
   * The additional component getGameValue adds for each type: the high card's game value
   * to the fifth for straights, the quad's to the fourth, 14^3 times the trip's, base-14
   * polynomials for flushes, pairs and high hands, nothing for a royal flush.
   */
  function Tiebreak(t: Type, cards: seq<Card>, counts: seq<int>): int
    requires IsHand(cards) && |counts| == TypesOfCard
  {
    match t
    case RoyalFlush => 0
    case StraightFlush => Pow(cards[0].gameValue, 5)
    case FourOfAKind => Pow(GameValueOfCardWithCount(counts, 4), 4)
    case FullHouse => Pow(Factor, 3) * GameValueOfCardWithCount(counts, 3)
    case Flush => PolyValue(cards, 4)
    case Straight => Pow(cards[0].gameValue, 5)
    case ThreeOfAKind => Pow(Factor, 3) * GameValueOfCardWithCount(counts, 3)
    case TwoPair =>
      var high := HighPairGameValue(counts);
      var low := GameValueOfCardWithCount(counts, 2);
      Pow(Factor, 2) * high + Factor * low + TwoPairOtherCard(cards, high, low)
    case OnePair =>
      var pair := GameValueOfCardWithCount(counts, 2);
      FactorPower(3) * pair + PairKickers(cards, pair, 2)
    case HighHand => PolyValue(cards, 4)
  }

  /**
   * getGameValue: its if-chain is getHandType's, so the score is the offset of the hand's
   * type plus that type's additional component.
   */
  function GameValue(cards: seq<Card>, counts: seq<int>): int
    requires IsHand(cards) && |counts| == TypesOfCard
  {
    var t := GetHandType(cards, counts);
    DefaultFor(t) + Tiebreak(t, cards, counts)
  }

  // ---------------------------------------------------------------------------
  // Bounds: every tiebreak lies in 0 .. 999_999

  lemma {:induction false} PowMono(a: int, b: int, e: nat)
    requires 0 <= a <= b
    ensures 0 <= Pow(a, e) <= Pow(b, e)
  {
    if e > 0 {
      PowMono(a, b, e - 1);
      MulMono(a, Pow(a, e - 1), b, Pow(b, e - 1));
    }
  }

  lemma MulMono(x: int, y: int, x': int, y': int)
    requires 0 <= x <= x' && 0 <= y <= y'
    ensures 0 <= x * y <= x' * y'
  {
    assert x * y <= x' * y <= x' * y';
  }

  /** 1 + 14 + … + 14^p, and 0 for a negative p. */
  function RepUnit(p: int): (r: int)
    ensures r >= 0
    decreases if p < 0 then 0 else p + 1
  {
    if p < 0 then 0 else Pow(Factor, p) + RepUnit(p - 1)
  }

  lemma {:induction false} PolyValueBounds(cards: seq<Card>, power: int)
    requires AllInRange(cards)
    ensures 0 <= PolyValue(cards, power) <= 14 * RepUnit(power)
    decreases |cards|
  {
    if |cards| > 0 {
      assert InRange(cards[0]);
      PolyValueBounds(cards[1..], power - 1);
      TermBounds(power, cards[0].gameValue);
    }
  }

  lemma TermBounds(power: int, v: int)
    requires 0 <= v <= 14
    ensures 0 <= FactorPower(power) * v <= 14 * FactorPower(power)
    ensures RepUnit(power) == FactorPower(power) + RepUnit(power - 1)
  {
    if power >= 0 {
      PowMono(0, Factor, power);
      MulMono(FactorPower(power), v, FactorPower(power), 14);
    }
  }

  lemma {:induction false} PairKickersBounds(cards: seq<Card>, pair: int, power: int)
    requires AllInRange(cards)
    ensures 0 <= PairKickers(cards, pair, power) <= 14 * RepUnit(power)
    decreases |cards|
  {
    if |cards| > 0 {
      assert InRange(cards[0]);
      if cards[0].gameValue != pair {
        PairKickersBounds(cards[1..], pair, power - 1);
        TermBounds(power, cards[0].gameValue);
      } else {
        PairKickersBounds(cards[1..], pair, power);
      }
    }
  }

  lemma {:induction false} TwoPairOtherCardBounds(cards: seq<Card>, high: int, low: int)
    requires AllInRange(cards)
    ensures 0 <= TwoPairOtherCard(cards, high, low) <= 14
  {
    if |cards| > 0 {
      assert InRange(cards[0]);
      TwoPairOtherCardBounds(cards[1..], high, low);
    }
  }

  lemma PowersOfFactor()
    ensures Pow(Factor, 2) == 196 && Pow(Factor, 3) == 2744 && Pow(Factor, 4) == 38416
    ensures Pow(Factor, 5) == 537824 && FactorPower(3) == 2744
    ensures 14 * RepUnit(4) == 579194 && 14 * RepUnit(2) == 2954
  {
  }

  /** Each type's tiebreak term, bounded on its own. */
  lemma TermsBounded(cards: seq<Card>, counts: seq<int>)
    requires IsHand(cards) && AllInRange(cards) && |counts| == TypesOfCard
    ensures 0 <= Pow(cards[0].gameValue, 5) <= 537824
    ensures 0 <= Pow(GameValueOfCardWithCount(counts, 4), 4) <= 38416
    ensures 0 <= Pow(Factor, 3) * GameValueOfCardWithCount(counts, 3) <= 38416
    ensures 0 <= PolyValue(cards, 4) <= 579194
    ensures var high := HighPairGameValue(counts);
            var low := GameValueOfCardWithCount(counts, 2);
            0 <= Pow(Factor, 2) * high + Factor * low + TwoPairOtherCard(cards, high, low) <= 2954
    ensures var pair := GameValueOfCardWithCount(counts, 2);
            0 <= FactorPower(3) * pair + PairKickers(cards, pair, 2) <= 41370
  {
    PowersOfFactor();
    assert InRange(cards[0]);
    PowMono(cards[0].gameValue, 14, 5);
    PowMono(GameValueOfCardWithCount(counts, 4), 14, 4);
    PolyValueBounds(cards, 4);
    var high := HighPairGameValue(counts);
    var low := GameValueOfCardWithCount(counts, 2);
    PairKickersBounds(cards, low, 2);
    TwoPairOtherCardBounds(cards, high, low);
    MulMono(2744, GameValueOfCardWithCount(counts, 3), 2744, 14);
    MulMono(196, high, 196, 14);
    MulMono(14, low, 14, 14);
  }

  /** The tiebreak of a hand: its score above the offset of its type. */
  lemma TiebreakBounds(cards: seq<Card>, counts: seq<int>)
    requires IsHand(cards) && AllInRange(cards) && |counts| == TypesOfCard
    ensures 0 <= Tiebreak(GetHandType(cards, counts), cards, counts) <= 579194
  {
    TermsBounded(cards, counts);
  }

  /** The score divided by 1_000_000 is the ordinal of the hand type. */
  lemma GameValueEncodesType(cards: seq<Card>, counts: seq<int>)
    requires IsHand(cards) && AllInRange(cards) && |counts| == TypesOfCard
    ensures GameValue(cards, counts) / DefaultHandValue == GetHandType(cards, counts).Ordinal()
  {
    TiebreakBounds(cards, counts);
  }

  /** A hand of a stronger type always scores higher, whatever the tiebreaks. */
  lemma StrongerTypeScoresHigher(a: seq<Card>, countsA: seq<int>, b: seq<Card>, countsB: seq<int>)
    requires IsHand(a) && AllInRange(a) && |countsA| == TypesOfCard
    requires IsHand(b) && AllInRange(b) && |countsB| == TypesOfCard
    requires GetHandType(a, countsA).Ordinal() > GetHandType(b, countsB).Ordinal()
    ensures GameValue(a, countsA) > GameValue(b, countsB)
  {
    TiebreakBounds(a, countsA);
    TiebreakBounds(b, countsB);
  }

  // ---------------------------------------------------------------------------
  // The two-pair kicker

  /** Whenever the two pairs differ, the loop as written stops at the first card. */
  lemma TwoPairOtherCardIsFirstCard(cards: seq<Card>, high: int, low: int)
    requires |cards| > 0 && high != low
    ensures TwoPairOtherCard(cards, high, low) == cards[0].gameValue
  {
  }

  /** In a two-pair histogram the high pair lies strictly above the low pair. */
  lemma TwoPairRanksDiffer(counts: seq<int>)
    requires |counts| == TypesOfCard && IsTwoPair(counts)
    ensures HighPairGameValue(counts) > GameValueOfCardWithCount(counts, 2) > 0
  {
    CountEqWitness(counts, 2);
    var low := GameValueOfCardWithCount(counts, 2);
    var high := HighPairGameValue(counts);
    if high == low {
      CountEqIsCardinality(counts, 2, {low - 2});
    }
  }

  /** The tiebreak of a two-pair hand, as the code computes it. */
  lemma TwoPairTiebreakAsWritten(cards: seq<Card>, counts: seq<int>)
    requires IsHand(cards) && |counts| == TypesOfCard
    requires GetHandType(cards, counts) == TwoPair
    ensures GameValue(cards, counts) == 2000000 + 196 * HighPairGameValue(counts)
              + 14 * GameValueOfCardWithCount(counts, 2) + cards[0].gameValue
  {
    TwoPairRanksDiffer(counts);
    TwoPairOtherCardIsFirstCard(cards, HighPairGameValue(counts), GameValueOfCardWithCount(counts, 2));
    assert Pow(Factor, 2) == 196;
  }

  /** The kicker the two-pair comment describes: the first card in neither pair, or 0. */
  function TwoPairKicker(cards: seq<Card>, high: int, low: int): (v: int)
    ensures v != 0 ==> v != high && v != low && exists i :: 0 <= i < |cards| && cards[i].gameValue == v
  {
    if |cards| == 0 then 0
    else if cards[0].gameValue != high && cards[0].gameValue != low then cards[0].gameValue
    else TwoPairKicker(cards[1..], high, low)
  }

  lemma {:induction false} CountOfTwoValues(cards: seq<Card>, a: int, b: int)
    requires a != b
    requires forall i :: 0 <= i < |cards| ==> cards[i].gameValue == a || cards[i].gameValue == b
    ensures CountOf(cards, a) + CountOf(cards, b) == |cards|
  {
    if |cards| > 0 {
      CountOfTwoValues(cards[..|cards| - 1], a, b);
    }
  }

  lemma {:induction false} TwoPairKickerFound(cards: seq<Card>, high: int, low: int)
    requires AllInRange(cards)
    requires exists i :: 0 <= i < |cards| && cards[i].gameValue != high && cards[i].gameValue != low
    ensures TwoPairKicker(cards, high, low) != 0
  {
    var i :| 0 <= i < |cards| && cards[i].gameValue != high && cards[i].gameValue != low;
    assert InRange(cards[0]);
    if i > 0 && (cards[0].gameValue == high || cards[0].gameValue == low) {
      assert cards[1..][i - 1] == cards[i];
      TwoPairKickerFound(cards[1..], high, low);
    }
  }

  /**
   * In a two-pair hand whose histogram is its own, the intended kicker is a real card of
   * the hand outside both pairs.
   */
  lemma TwoPairKickerIsOddCard(cards: seq<Card>)
    requires IsHand(cards) && AllInRange(cards)
    requires IsTwoPair(Histogram(cards))
    ensures var counts := Histogram(cards);
            var high := HighPairGameValue(counts);
            var low := GameValueOfCardWithCount(counts, 2);
            var k := TwoPairKicker(cards, high, low);
            2 <= k <= 14 && k != high && k != low && CountOf(cards, k) >= 1
  {
    var counts := Histogram(cards);
    var high := HighPairGameValue(counts);
    var low := GameValueOfCardWithCount(counts, 2);
    TwoPairRanksDiffer(counts);
    assert CountOf(cards, high) == counts[high - 2] == 2;
    assert CountOf(cards, low) == counts[low - 2] == 2;
    if forall i :: 0 <= i < |cards| ==> cards[i].gameValue == high || cards[i].gameValue == low {
      CountOfTwoValues(cards, high, low);
    }
    TwoPairKickerFound(cards, high, low);
    var k := TwoPairKicker(cards, high, low);
    var i :| 0 <= i < |cards| && cards[i].gameValue == k;
    assert InRange(cards[i]);
    CountOfPresent(cards, i);
  }

  lemma {:induction false} CountOfPresent(cards: seq<Card>, i: nat)
    requires i < |cards|
    ensures CountOf(cards, cards[i].gameValue) >= 1
  {
    if i < |cards| - 1 {
      CountOfPresent(cards[..|cards| - 1], i);
    }
  }

  /** Ten-ten-eight-eight and an odd card, sorted as the hand sorts them. */
  function TensEights(odd: Card): seq<Card>
  {
    [Card("10", Clubs, 10, 10), Card("10", Diamonds, 10, 10), Card("8", Hearts, 8, 8),
     Card("8", Clubs, 8, 8), odd]
  }

  /** The histogram of 10-10-8-8-x: two tens, two eights and the odd card. */
  lemma TensEightsHistogram(odd: Card)
    requires 2 <= odd.gameValue < 8
    ensures var h := Histogram(TensEights(odd));
            forall b :: 0 <= b < TypesOfCard ==>
              h[b] == if b == 6 || b == 8 then 2 else if b == odd.gameValue - 2 then 1 else 0
  {
    var cards := TensEights(odd);
    forall b | 0 <= b < TypesOfCard
      ensures Histogram(cards)[b] == if b == 6 || b == 8 then 2 else if b == odd.gameValue - 2 then 1 else 0
    {
      CountOfHand(cards, b + 2);
    }
  }

  /**
   * As written, every 10-10-8-8-x hand with x below eight scores 2_002_082: the third term
   * is the first card, a ten, whatever the odd card is.
   */
  lemma TensEightsScoreAsWritten(odd: Card)
    requires 2 <= odd.gameValue < 8
    ensures GetHandType(TensEights(odd), Histogram(TensEights(odd))) == TwoPair
    ensures GameValue(TensEights(odd), Histogram(TensEights(odd))) == 2002082
    ensures HighPairGameValue(Histogram(TensEights(odd))) == 10
    ensures GameValueOfCardWithCount(Histogram(TensEights(odd)), 2) == 8
  {
    var cards := TensEights(odd);
    var h := Histogram(cards);
    TensEightsHistogram(odd);
    CountEqIsCardinality(h, 2, {6, 8});
    assert cards[1].suit != cards[0].suit;
    assert !RunStep(cards[0], cards[1]);
    assert GameValueOfCardWithCount(h, 2) == 8;
    TwoPairTiebreakAsWritten(cards, h);
  }

  const TensEightsTwo := TensEights(Card("2", Clubs, 2, 2))
  const TensEightsThree := TensEights(Card("3", Clubs, 3, 3))

  /** 10-10-8-8-2 and 10-10-8-8-3 tie as written, although the second holds the higher odd card. */
  lemma TwoPairKickersTie()
    ensures GameValue(TensEightsTwo, Histogram(TensEightsTwo))
         == GameValue(TensEightsThree, Histogram(TensEightsThree))
  {
    TensEightsScoreAsWritten(Card("2", Clubs, 2, 2));
    TensEightsScoreAsWritten(Card("3", Clubs, 3, 3));
  }

  /** The intended kicker tells the two hands apart: 2 against 3. */
  lemma TwoPairKickerSeparates()
    ensures TwoPairKicker(TensEightsTwo, 10, 8) == 2
    ensures TwoPairKicker(TensEightsThree, 10, 8) == 3
  {
  }

  /** getGameValue with the two-pair kicker the comment describes; every other type as written. */
  function IntendedGameValue(cards: seq<Card>, counts: seq<int>): int
    requires IsHand(cards) && |counts| == TypesOfCard
  {
    if GetHandType(cards, counts) == TwoPair then
      var high := HighPairGameValue(counts);
      var low := GameValueOfCardWithCount(counts, 2);
      DefaultFor(TwoPair) + Pow(Factor, 2) * high + Factor * low + TwoPairKicker(cards, high, low)
    else GameValue(cards, counts)
  }

  /** With the intended kicker, two-pair hands holding the same pairs are ordered by their odd card. */
  lemma IntendedTwoPairOrdersByKicker(a: seq<Card>, b: seq<Card>)
    requires IsHand(a) && IsHand(b)
    requires GetHandType(a, Histogram(a)) == TwoPair && GetHandType(b, Histogram(b)) == TwoPair
    requires HighPairGameValue(Histogram(a)) == HighPairGameValue(Histogram(b))
    requires GameValueOfCardWithCount(Histogram(a), 2) == GameValueOfCardWithCount(Histogram(b), 2)
    ensures var high := HighPairGameValue(Histogram(a));
            var low := GameValueOfCardWithCount(Histogram(a), 2);
            && (IntendedGameValue(a, Histogram(a)) < IntendedGameValue(b, Histogram(b))
                <==> TwoPairKicker(a, high, low) < TwoPairKicker(b, high, low))
            && (IntendedGameValue(a, Histogram(a)) == IntendedGameValue(b, Histogram(b))
                <==> TwoPairKicker(a, high, low) == TwoPairKicker(b, high, low))
  {
  }

  /** With the intended kicker a 10-10-8-8-x hand scores by its odd card x. */
  lemma IntendedTensEights(odd: Card)
    requires 2 <= odd.gameValue < 8
    ensures IntendedGameValue(TensEights(odd), Histogram(TensEights(odd))) == 2002072 + odd.gameValue
  {
    var c := TensEights(odd);
    TensEightsScoreAsWritten(odd);
    assert c[4..] == [odd] && TwoPairKicker(c[4..], 10, 8) == odd.gameValue;
    forall k | 0 <= k < 4 ensures c[k..][1..] == c[k + 1..] {
    }
    assert TwoPairKicker(c[3..], 10, 8) == odd.gameValue;
    assert TwoPairKicker(c[2..], 10, 8) == odd.gameValue;
    assert TwoPairKicker(c[1..], 10, 8) == odd.gameValue;
    assert c[0..] == c;
    assert Pow(Factor, 2) == 196;
  }

  /** With the intended kicker, 10-10-8-8-3 beats 10-10-8-8-2. */
  lemma IntendedKickersSeparate()
    ensures IntendedGameValue(TensEightsTwo, Histogram(TensEightsTwo))
          < IntendedGameValue(TensEightsThree, Histogram(TensEightsThree))
  {
    IntendedTensEights(Card("2", Clubs, 2, 2));
    IntendedTensEights(Card("3", Clubs, 3, 3));
  }
}