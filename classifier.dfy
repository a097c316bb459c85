/**
 * Hand classification: the ten `is*` predicates, getHandType and checkIfHandType of
 * src/poker/HandOfCards.java, as functions of the hand's five cards (sorted by the hand)
 * and of the 13-bucket game-value histogram the hand carries. The histogram is a separate
 * argument because the hand builds it once, in its constructors, and never refreshes it.
 */
module Classifier {
  import opened Cards

  const CardsPerHand := 5
  const TypesOfCard := 13

  /** The hand types, weakest first; a type's ordinal is its position here. */
  datatype Type = HighHand | OnePair | TwoPair | ThreeOfAKind | Straight | Flush
                | FullHouse | FourOfAKind | StraightFlush | RoyalFlush
  {
    function Ordinal(): (n: nat)
      ensures n < 10 && TypeOfOrdinal(n) == this
    {
      match this
      case HighHand => 0
      case OnePair => 1
      case TwoPair => 2
      case ThreeOfAKind => 3
      case Straight => 4
      case Flush => 5
      case FullHouse => 6
      case FourOfAKind => 7
      case StraightFlush => 8
      case RoyalFlush => 9
    }
  }

  /** The type with a given ordinal (the enum's `values()[n]`). */
  function TypeOfOrdinal(n: nat): (t: Type)
    requires n < 10
  {
    match n
    case 0 => HighHand
    case 1 => OnePair
    case 2 => TwoPair
    case 3 => ThreeOfAKind
    case 4 => Straight
    case 5 => Flush
    case 6 => FullHouse
    case 7 => FourOfAKind
    case 8 => StraightFlush
    case _ => RoyalFlush
  }

  predicate IsHand(cards: seq<Card>)
  {
    |cards| == CardsPerHand
  }

  /** Game values the histogram can index (bucket gameValue - 2). */
  predicate InRange(c: Card)
  {
    2 <= c.gameValue <= 14
  }

  predicate AllInRange(cards: seq<Card>)
  {
    forall i :: 0 <= i < |cards| ==> InRange(cards[i])
  }

  /** Number of cards with game value v. */
  function CountOf(cards: seq<Card>, v: int): (n: nat)
    ensures n <= |cards|
  {
    if |cards| == 0 then 0
    else CountOf(cards[..|cards| - 1], v) + (if cards[|cards| - 1].gameValue == v then 1 else 0)
  }

  /** The histogram getGameValueCountInHand builds: bucket b counts the cards of game value b + 2. */
  function Histogram(cards: seq<Card>): (h: seq<int>)
  {
    seq(TypesOfCard, b => CountOf(cards, b + 2))
  }

  function Sum(s: seq<int>): int
  {
    if |s| == 0 then 0 else Sum(s[..|s| - 1]) + s[|s| - 1]
  }

  lemma {:induction false} SumBump(h: seq<int>, k: nat)
    requires k < |h|
    ensures Sum(h[k := h[k] + 1]) == Sum(h) + 1
  {
    var n := |h|;
    if k == n - 1 {
      assert h[k := h[k] + 1][..n - 1] == h[..n - 1];
    } else {
      assert h[k := h[k] + 1][..n - 1] == h[..n - 1][k := h[k] + 1];
      SumBump(h[..n - 1], k);
    }
  }

  lemma {:induction false} SumOfZeros(h: seq<int>)
    requires forall b :: 0 <= b < |h| ==> h[b] == 0
    ensures Sum(h) == 0
  {
    if |h| > 0 {
      SumOfZeros(h[..|h| - 1]);
    }
  }

  /** The buckets of a hand's histogram add up to the number of cards. */
  lemma {:induction false} HistogramSum(cards: seq<Card>)
    requires AllInRange(cards)
    ensures Sum(Histogram(cards)) == |cards|
  {
    var n := |cards|;
    if n == 0 {
      SumOfZeros(Histogram(cards));
    } else {
      var prefix := cards[..n - 1];
      HistogramSum(prefix);
      var k := cards[n - 1].gameValue - 2;
      assert Histogram(cards) == Histogram(prefix)[k := Histogram(prefix)[k] + 1];
      SumBump(Histogram(prefix), k);
    }
  }

  /** One step of the run check: the higher card is one above the next card's face value, or an Ace over a 5. */
  predicate RunStep(higher: Card, lower: Card)
  {
    (higher.rank == "A" && lower.faceValue == 5) || higher.gameValue == lower.faceValue + 1
  }

  /** The loop shared by isStraight and isStraightFlush. */
  predicate HasRun(cards: seq<Card>)
    requires IsHand(cards)
  {
    forall i :: 0 <= i < CardsPerHand - 1 ==> RunStep(cards[i], cards[i + 1])
  }

  predicate IsFlush(cards: seq<Card>)
    requires IsHand(cards)
  {
    forall i :: 1 <= i < CardsPerHand ==> cards[i].suit == cards[0].suit
  }

  predicate IsStraight(cards: seq<Card>)
    requires IsHand(cards)
  {
    HasRun(cards) && !IsFlush(cards)
  }

  predicate IsStraightFlush(cards: seq<Card>)
    requires IsHand(cards)
  {
    HasRun(cards) && IsFlush(cards)
  }

  predicate IsRoyalFlush(cards: seq<Card>)
    requires IsHand(cards)
  {
    cards[CardsPerHand - 1].rank == "10" && IsStraightFlush(cards)
  }

  /** Number of buckets holding exactly n. */
  function CountEq(counts: seq<int>, n: int): (k: nat)
    ensures k <= |counts|
  {
    if |counts| == 0 then 0
    else CountEq(counts[..|counts| - 1], n) + (if counts[|counts| - 1] == n then 1 else 0)
  }

  predicate HasBucket(counts: seq<int>, n: int)
  {
    exists b :: 0 <= b < |counts| && counts[b] == n
  }

  predicate IsFourOfAKind(counts: seq<int>)
  {
    HasBucket(counts, 4)
  }

  predicate IsOnePair(counts: seq<int>)
  {
    CountEq(counts, 2) == 1
  }

  predicate IsTwoPair(counts: seq<int>)
  {
    CountEq(counts, 2) == 2
  }

  predicate IsThreeOfAKind(counts: seq<int>)
  {
    HasBucket(counts, 3) && !IsOnePair(counts)
  }

  predicate IsFullHouse(counts: seq<int>)
  {
    HasBucket(counts, 3) && IsOnePair(counts)
  }

  predicate IsHighHand(counts: seq<int>)
  {
    forall b :: 0 <= b < |counts| ==> counts[b] <= 1
  }

  /** An Ace, if the hand holds one, sorts to the front. */
  predicate HasAce(cards: seq<Card>)
    requires IsHand(cards)
  {
    cards[0].rank == "A"
  }

  /** The first predicate that holds, tried from RoyalFlush down to OnePair; HighHand otherwise. */
  function GetHandType(cards: seq<Card>, counts: seq<int>): Type
    requires IsHand(cards)
  {
    if IsRoyalFlush(cards) then RoyalFlush
    else if IsStraightFlush(cards) then StraightFlush
    else if IsFourOfAKind(counts) then FourOfAKind
    else if IsFullHouse(counts) then FullHouse
    else if IsFlush(cards) then Flush
    else if IsStraight(cards) then Straight
    else if IsThreeOfAKind(counts) then ThreeOfAKind
    else if IsTwoPair(counts) then TwoPair
    else if IsOnePair(counts) then OnePair
    else HighHand
  }

  /** The predicate that belongs to a hand type. */
  predicate CheckIfHandType(cards: seq<Card>, counts: seq<int>, t: Type)
    requires IsHand(cards)
  {
    match t
    case RoyalFlush => IsRoyalFlush(cards)
    case StraightFlush => IsStraightFlush(cards)
    case FourOfAKind => IsFourOfAKind(counts)
    case FullHouse => IsFullHouse(counts)
    case Flush => IsFlush(cards)
    case Straight => IsStraight(cards)
    case ThreeOfAKind => IsThreeOfAKind(counts)
    case TwoPair => IsTwoPair(counts)
    case OnePair => IsOnePair(counts)
    case HighHand => IsHighHand(counts)
  }

  /** No type stronger than t has its predicate hold. */
  predicate NoneStronger(cards: seq<Card>, counts: seq<int>, t: Type)
    requires IsHand(cards)
  {
    forall u: Type :: t.Ordinal() < u.Ordinal() ==> !CheckIfHandType(cards, counts, u)
  }

  /**
   * getHandType picks t exactly when t's predicate holds (or t is the HighHand fallback)
   * and no stronger type's predicate does: precedence is strength order.
   */
  lemma GetHandTypeIsFirstMatch(cards: seq<Card>, counts: seq<int>, t: Type)
    requires IsHand(cards)
    ensures GetHandType(cards, counts) == t <==>
              (t == HighHand || CheckIfHandType(cards, counts, t)) && NoneStronger(cards, counts, t)
  {
    var r := GetHandType(cards, counts);
    assert r == HighHand || CheckIfHandType(cards, counts, r);
    forall u: Type | r.Ordinal() < u.Ordinal()
      ensures !CheckIfHandType(cards, counts, u)
    {
      match u
      case HighHand =>
      case OnePair =>
      case TwoPair =>
      case ThreeOfAKind =>
      case Straight =>
      case Flush =>
      case FullHouse =>
      case FourOfAKind =>
      case StraightFlush =>
      case RoyalFlush =>
    }
    assert NoneStronger(cards, counts, r);
    assert t.Ordinal() < r.Ordinal() ==> !NoneStronger(cards, counts, t);
    assert t.Ordinal() > r.Ordinal() ==> !CheckIfHandType(cards, counts, t);
    assert t.Ordinal() == r.Ordinal() ==> TypeOfOrdinal(t.Ordinal()) == t == r;
  }

  /** A bucket equal to n exists exactly when at least one bucket is counted as n. */
  lemma {:induction false} CountEqWitness(counts: seq<int>, n: int)
    ensures HasBucket(counts, n) <==> CountEq(counts, n) >= 1
  {
    var m := |counts|;
    if m > 0 {
      var prefix := counts[..m - 1];
      CountEqWitness(prefix, n);
      if HasBucket(prefix, n) {
        var b :| 0 <= b < m - 1 && prefix[b] == n;
        assert counts[b] == n;
      }
      if HasBucket(counts, n) && counts[m - 1] != n {
        var b :| 0 <= b < m && counts[b] == n;
        assert prefix[b] == n;
      }
    }
  }

  /** CountEq counts exactly the buckets holding n. */
  lemma {:induction false} CountEqIsCardinality(counts: seq<int>, n: int, buckets: set<int>)
    requires forall b :: b in buckets ==> 0 <= b < |counts|
    requires forall b :: 0 <= b < |counts| ==> (counts[b] == n <==> b in buckets)
    ensures CountEq(counts, n) == |buckets|
  {
    var m := |counts|;
    if m == 0 {
      assert forall b :: b !in buckets;
      assert buckets == {};
    } else {
      var rest := buckets - {m - 1};
      CountEqIsCardinality(counts[..m - 1], n, rest);
    }
  }

  /** Non-negative buckets that add up to s hold at most s / 2 buckets equal to 2. */
  lemma {:induction false} PairsBounded(counts: seq<int>)
    requires forall b :: 0 <= b < |counts| ==> counts[b] >= 0
    ensures Sum(counts) >= 2 * CountEq(counts, 2)
  {
    if |counts| > 0 {
      PairsBounded(counts[..|counts| - 1]);
    }
  }

  /**
   * For a hand whose histogram is its own and in which no game value appears five times,
   * the chosen type's own predicate holds, HighHand included: the classification agrees
   * with the type-by-type check.
   */
  lemma GetHandTypeHolds(cards: seq<Card>)
    requires IsHand(cards) && AllInRange(cards)
    requires forall v :: CountOf(cards, v) <= 4
    ensures CheckIfHandType(cards, Histogram(cards), GetHandType(cards, Histogram(cards)))
  {
    var counts := Histogram(cards);
    HistogramSum(cards);
    PairsBounded(counts);
    CountEqWitness(counts, 2);
    assert forall b :: 0 <= b < 13 ==> counts[b] == CountOf(cards, b + 2) <= 4;
  }

  function Hit(c: Card, v: int): nat
  {
    if c.gameValue == v then 1 else 0
  }

  /** The count of a game value in a five-card hand, card by card. */
  lemma CountOfHand(cards: seq<Card>, v: int)
    requires IsHand(cards)
    ensures CountOf(cards, v) == Hit(cards[0], v) + Hit(cards[1], v) + Hit(cards[2], v)
                                 + Hit(cards[3], v) + Hit(cards[4], v)
  {
    assert cards[..4][..3] == cards[..3];
    assert cards[..3][..2] == cards[..2];
    assert cards[..2][..1] == cards[..1];
    assert cards[..1][..0] == [];
    assert CountOf(cards[..1], v) == Hit(cards[0], v);
    assert CountOf(cards[..2], v) == CountOf(cards[..1], v) + Hit(cards[1], v);
    assert CountOf(cards[..3], v) == CountOf(cards[..2], v) + Hit(cards[2], v);
    assert CountOf(cards[..4], v) == CountOf(cards[..3], v) + Hit(cards[3], v);
  }

  /** The histogram of a five-card hand, bucket by bucket. */
  lemma HistogramOfHand(cards: seq<Card>)
    requires IsHand(cards)
    ensures forall b :: 0 <= b < TypesOfCard ==>
              Histogram(cards)[b] == Hit(cards[0], b + 2) + Hit(cards[1], b + 2) + Hit(cards[2], b + 2)
                                     + Hit(cards[3], b + 2) + Hit(cards[4], b + 2)
  {
    forall b | 0 <= b < TypesOfCard
      ensures Histogram(cards)[b] == Hit(cards[0], b + 2) + Hit(cards[1], b + 2) + Hit(cards[2], b + 2)
                                     + Hit(cards[3], b + 2) + Hit(cards[4], b + 2)
    {
      CountOfHand(cards, b + 2);
    }
  }
}
