/**
 * The per-type default hand values of src/poker/PokerHand.java: the ordinal of the hand
 * type times 1000, looked up through a switch over the type.
 */
module PokerHand {
  import opened Classifier

  const Default := 1000

  const HighHandDefault := HighHand.Ordinal() * Default
  const OnePairDefault := OnePair.Ordinal() * Default
  const TwoPairDefault := TwoPair.Ordinal() * Default
  const ThreeOfAKindDefault := ThreeOfAKind.Ordinal() * Default
  const StraightDefault := Straight.Ordinal() * Default
  const FlushDefault := Flush.Ordinal() * Default
  const FullHouseDefault := FullHouse.Ordinal() * Default
  const FourOfAKindDefault := FourOfAKind.Ordinal() * Default
  const StraightFlushDefault := StraightFlush.Ordinal() * Default
  const RoyalFlushDefault := RoyalFlush.Ordinal() * Default

  /** getDefaultHandValue: every case of the switch sets the value, so it is total. */
  function GetDefaultHandValue(t: Type): (v: int)
    ensures v == t.Ordinal() * Default
    ensures 0 <= v <= 9000
    ensures v == 0 <==> t == HighHand
    ensures v == 9000 <==> t == RoyalFlush
  {
    match t
    case HighHand => HighHandDefault
    case OnePair => OnePairDefault
    case TwoPair => TwoPairDefault
    case ThreeOfAKind => ThreeOfAKindDefault
    case Straight => StraightDefault
    case Flush => FlushDefault
    case FullHouse => FullHouseDefault
    case FourOfAKind => FourOfAKindDefault
    case StraightFlush => StraightFlushDefault
    case RoyalFlush => RoyalFlushDefault
  }

  /** The defaults rise strictly with the strength of the type, and separate all ten types. */
  lemma DefaultsIncrease(t: Type, u: Type)
    ensures t.Ordinal() < u.Ordinal() <==> GetDefaultHandValue(t) < GetDefaultHandValue(u)
    ensures t == u <==> GetDefaultHandValue(t) == GetDefaultHandValue(u)
  {
    assert t.Ordinal() == u.Ordinal() ==> TypeOfOrdinal(t.Ordinal()) == t == u;
  }
}
