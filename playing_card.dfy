/**
 * Playing cards (src/poker/PlayingCard.java): an immutable value made of a rank label
 * ("A", "2" … "10", "J", "Q", "K"), a suit, a face value (Ace = 1) and a game value
 * (Ace = 14). The getters of the Java class are the datatype's field selectors.
 */
module Cards {
  import opened Wrappers

  /** The four suits. Their order is that of the tally the flush-buster check keeps. */
  datatype Suit = Hearts | Diamonds | Spades | Clubs {

    /** Position of the suit in the tally [H, D, S, C]. */
    function Index(): (i: nat)
      ensures i < 4 && SuitOrder[i] == this
    {
      match this
      case Hearts => 0
      case Diamonds => 1
      case Spades => 2
      case Clubs => 3
    }

    /** The character the card's text form ends with. */
    function Symbol(): (ch: char)
      ensures SuitOfSymbol(ch) == Some(this)
    {
      match this
      case Hearts => 'H'
      case Diamonds => 'D'
      case Spades => 'S'
      case Clubs => 'C'
    }
  }

  const SuitOrder: seq<Suit> := [Hearts, Diamonds, Spades, Clubs]

  /** Reads a suit back from its symbol; any other character is not a suit. */
  function SuitOfSymbol(ch: char): Option<Suit>
  {
    match ch
    case 'H' => Some(Hearts)
    case 'D' => Some(Diamonds)
    case 'S' => Some(Spades)
    case 'C' => Some(Clubs)
    case _ => None
  }

  datatype Card = Card(rank: string, suit: Suit, faceValue: int, gameValue: int) {

    /** The text form: the rank label followed by the suit symbol. */
    function ToString(): (s: string)
      ensures |s| == |rank| + 1
      ensures s[..|rank|] == rank
      ensures SuitOfSymbol(s[|rank|]) == Some(suit)
    {
      rank + [suit.Symbol()]
    }
  }

  /** Two cards print the same exactly when they have the same rank label and suit. */
  lemma ToStringInjective(c: Card, d: Card)
    ensures c.ToString() == d.ToString() <==> c.rank == d.rank && c.suit == d.suit
  {
    if c.ToString() == d.ToString() {
      var s := c.ToString();
      assert |c.rank| == |d.rank|;
      assert c.rank == s[..|c.rank|] == d.rank;
      assert Some(c.suit) == SuitOfSymbol(s[|c.rank|]) == Some(d.suit);
    }
  }

  /** The thirteen rank labels in the order both deck builders use. */
  const Ranks: seq<string> := ["A", "2", "3", "4", "5", "6", "7", "8", "9", "10", "J", "Q", "K"]

  /** The suits in the order the deck constructor deals them out. */
  const DeckSuits: seq<Suit> := [Clubs, Diamonds, Hearts, Spades]

  /** The suits in the order the demonstration deck builder uses. */
  const DemoSuits: seq<Suit> := [Hearts, Diamonds, Spades, Clubs]

  /**
   * A card as the deck builders make it: rank label j, face value j + 1, and
   * game value j + 1 except for the Ace, whose game value is 14.
   */
  predicate WellFormed(c: Card)
  {
    exists j :: 0 <= j < 13 && c.rank == Ranks[j] && c.faceValue == j + 1
      && c.gameValue == (if Ranks[j] == "A" then 14 else j + 1)
  }

  /** The card of rank index j in the given suit, built as both deck builders build it. */
  function MakeCard(suit: Suit, j: nat): (c: Card)
    requires j < 13
    ensures WellFormed(c) && c.suit == suit && c.rank == Ranks[j] && c.faceValue == j + 1
  {
    var gameValue := if Ranks[j] == "A" then 14 else j + 1;
    Card(Ranks[j], suit, j + 1, gameValue)
  }

  /** A well-formed card has a game value in 2..14, which is 14 exactly for the Ace. */
  lemma WellFormedValues(c: Card)
    requires WellFormed(c)
    ensures 1 <= c.faceValue <= 13 && 2 <= c.gameValue <= 14
    ensures c.gameValue == 14 <==> c.rank == "A"
    ensures c.rank != "A" ==> c.gameValue == c.faceValue
  {
    var j :| 0 <= j < 13 && c.rank == Ranks[j] && c.faceValue == j + 1
      && c.gameValue == (if Ranks[j] == "A" then 14 else j + 1);
    assert Ranks[j] == "A" <==> j == 0;
  }

  /** The 13 * |suits| cards of the nested suit/rank loops, counter k = 13 * i + j. */
  function BuildDeck(suits: seq<Suit>): (deck: seq<Card>)
    ensures |deck| == 13 * |suits|
    ensures forall k :: 0 <= k < |deck| ==> deck[k].suit == suits[k / 13] && deck[k].faceValue == k % 13 + 1
    ensures forall k :: 0 <= k < |deck| ==> WellFormed(deck[k])
  {
    seq(13 * |suits|, k requires 0 <= k < 13 * |suits| => MakeCard(suits[k / 13], k % 13))
  }

  predicate DistinctSuits(suits: seq<Suit>)
  {
    forall i, j :: 0 <= i < j < |suits| ==> suits[i] != suits[j]
  }

  /** With distinct suits, no card appears twice in the built deck. */
  lemma BuildDeckDistinct(suits: seq<Suit>)
    requires DistinctSuits(suits)
    ensures forall i, j :: 0 <= i < j < |BuildDeck(suits)| ==> BuildDeck(suits)[i] != BuildDeck(suits)[j]
  {
    var deck := BuildDeck(suits);
    forall i, j | 0 <= i < j < |deck|
      ensures deck[i] != deck[j]
    {
      if i % 13 == j % 13 {
        assert i / 13 != j / 13 by {
          assert i == 13 * (i / 13) + i % 13 && j == 13 * (j / 13) + j % 13;
        }
        assert deck[i].suit != deck[j].suit;
      } else {
        assert deck[i].faceValue != deck[j].faceValue;
      }
    }
  }

  /** The 52-card deck of the demonstration builder in the card class. */
  function DemoDeck(): (deck: seq<Card>)
    ensures |deck| == 52
    ensures forall i, j :: 0 <= i < j < 52 ==> deck[i] != deck[j]
  {
    BuildDeckDistinct(DemoSuits);
    BuildDeck(DemoSuits)
  }
}
