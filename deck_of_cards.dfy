/**
 * The deck of src/poker/DeckOfCards.java: 52 cards in an array, a pointer to the next card
 * to deal that counts down from the top (index 51), and a list of returned cards.
 */
module Decks {
  import opened Wrappers
  import opened Cards

  const DeckSize := 52

  predicate Distinct(s: seq<Card>)
  {
    forall i, j :: 0 <= i < j < |s| ==> s[i] != s[j]
  }

  /** Exchanging two entries keeps the entries distinct. */
  lemma SwapKeepsDistinct(s: seq<Card>, a: nat, b: nat)
    requires a < |s| && b < |s| && Distinct(s)
    ensures Distinct(s[a := s[b]][b := s[a]])
  {
    var t := s[a := s[b]][b := s[a]];
    forall i, j | 0 <= i < j < |t|
      ensures t[i] != t[j]
    {
      var i' := if i == b then a else if i == a then b else i;
      var j' := if j == b then a else if j == a then b else j;
      assert t[i] == s[i'] && t[j] == s[j'];
      if i' < j' {
        assert s[i'] != s[j'];
      } else {
        assert j' < i';
        assert s[j'] != s[i'];
      }
    }
  }

  /** The entries after the exchanges drawn, made one after the other. */
  function ApplySwaps(s: seq<Card>, draws: seq<(int, int)>): (r: seq<Card>)
    requires forall k :: 0 <= k < |draws| ==> 0 <= draws[k].0 < |s| && 0 <= draws[k].1 < |s|
    ensures |r| == |s|
  {
    if |draws| == 0 then s
    else
      var t := ApplySwaps(s, draws[..|draws| - 1]);
      var d := draws[|draws| - 1];
      t[d.0 := t[d.1]][d.1 := t[d.0]]
  }

  /** Exchanges only rearrange: the same cards, each as often, and still distinct. */
  lemma {:induction false} ApplySwapsPermutes(s: seq<Card>, draws: seq<(int, int)>)
    requires forall k :: 0 <= k < |draws| ==> 0 <= draws[k].0 < |s| && 0 <= draws[k].1 < |s|
    ensures multiset(ApplySwaps(s, draws)) == multiset(s)
    ensures Distinct(s) ==> Distinct(ApplySwaps(s, draws))
  {
    if |draws| > 0 {
      var t := ApplySwaps(s, draws[..|draws| - 1]);
      var d := draws[|draws| - 1];
      ApplySwapsPermutes(s, draws[..|draws| - 1]);
      SwapPermutes(t, d.0, d.1);
      if Distinct(s) {
        SwapKeepsDistinct(t, d.0, d.1);
      }
    }
  }

  lemma SwapPermutes(s: seq<Card>, a: nat, b: nat)
    requires a < |s| && b < |s|
    ensures multiset(s[a := s[b]][b := s[a]]) == multiset(s)
  {
  }

  class DeckOfCards {
    var deck: array<Card>
    var nextCardIndex: int
    var discardedCards: seq<Card>

    ghost predicate Valid()
      reads this, deck
    {
      deck.Length == DeckSize && -1 <= nextCardIndex < DeckSize
      && (forall k :: 0 <= k < DeckSize ==> WellFormed(deck[k]))
      && Distinct(deck[..])
    }

    /** The cards dealt since construction or the last reset, in dealing order: deck[51] first. */
    ghost function Dealt(): (d: seq<Card>)
      reads this, deck
      requires Valid()
      ensures |d| == DeckSize - 1 - nextCardIndex
    {
      var d := deck[..];
      var n := DeckSize - 1 - nextCardIndex;
      seq(n, k requires 0 <= k < n => d[DeckSize - 1 - k])
    }

    /** Fills the deck suit by suit (C, D, H, S) and rank by rank (A … K). */
    constructor ()
      ensures Valid() && fresh(deck)
      ensures deck[..] == BuildDeck(DeckSuits)
      ensures nextCardIndex == DeckSize - 1 && discardedCards == []
    {
      var cards := new Card[DeckSize];
      var counter := 0;
      for i := 0 to |DeckSuits|
        invariant counter == 13 * i
        invariant forall k :: 0 <= k < counter ==> cards[k] == BuildDeck(DeckSuits)[k]
      {
        for j := 0 to |Ranks|
          invariant counter == 13 * i + j
          invariant forall k :: 0 <= k < counter ==> cards[k] == BuildDeck(DeckSuits)[k]
        {
          var gameValue := j + 1;
          if Ranks[j] == "A" {
            gameValue := 14;
          }
          assert counter / 13 == i && counter % 13 == j;
          cards[counter] := Card(Ranks[j], DeckSuits[i], j + 1, gameValue);
          counter := counter + 1;
        }
      }
      assert cards[..] == BuildDeck(DeckSuits);
      deck := cards;
      nextCardIndex := DeckSize - 1;
      discardedCards := [];
      BuildDeckDistinct(DeckSuits);
    }

    /** One step of shuffle: the two chosen cards change places. */
    method SwapCards(index1: int, index2: int)
      requires Valid() && 0 <= index1 < DeckSize && 0 <= index2 < DeckSize
      modifies deck
      ensures Valid()
      ensures deck[..] == old(deck[..])[index1 := old(deck[index2])][index2 := old(deck[index1])]
      ensures multiset(deck[..]) == multiset(old(deck[..]))
    {
      SwapKeepsDistinct(deck[..], index1, index2);
      var card1 := deck[index1];
      var card2 := deck[index2];
      deck[index1] := card2;
      deck[index2] := card1;
    }

    /** shuffle, with the random index pairs it would draw given as an argument. */
    method Shuffle(draws: seq<(int, int)>)
      requires Valid()
      requires |draws| == DeckSize * DeckSize
      requires forall k :: 0 <= k < |draws| ==> 0 <= draws[k].0 < DeckSize && 0 <= draws[k].1 < DeckSize
      modifies deck
      ensures Valid()
      ensures deck[..] == ApplySwaps(old(deck[..]), draws)
    {
      ghost var start := deck[..];
      for i := 0 to |draws|
        invariant Valid()
        invariant deck[..] == ApplySwaps(start, draws[..i])
      {
        assert draws[..i + 1][..i] == draws[..i];
        SwapCards(draws[i].0, draws[i].1);
      }
      assert draws[..|draws|] == draws;
    }

    /** Between resets no card is dealt twice, and every card dealt is a real card. */
    lemma DealtAreDistinct()
      requires Valid()
      ensures |Dealt()| <= DeckSize && Distinct(Dealt())
      ensures forall k :: 0 <= k < |Dealt()| ==> WellFormed(Dealt()[k])
    {
      var d := Dealt();
      forall i, j | 0 <= i < j < |d| ensures d[i] != d[j] {
        assert d[i] == deck[DeckSize - 1 - i] && d[j] == deck[DeckSize - 1 - j];
        assert deck[..][DeckSize - 1 - j] != deck[..][DeckSize - 1 - i];
      }
    }

    /** Puts the pointer back on the top card and empties the discard pile; the array stays as it is. */
    method Reset()
      requires Valid()
      modifies this
      ensures Valid() && deck == old(deck)
      ensures nextCardIndex == DeckSize - 1 && discardedCards == [] && Dealt() == []
    {
      nextCardIndex := deck.Length - 1;
      discardedCards := [];
    }

    /**
     * Deals the card under the pointer and moves the pointer down; once the pointer is
     * below zero it answers None and changes nothing. A dealt card was not dealt before.
     */
    method DealNext() returns (c: Option<Card>)
      requires Valid()
      modifies this
      ensures Valid() && deck == old(deck) && discardedCards == old(discardedCards)
      ensures c.None? <==> |old(Dealt())| == DeckSize
      ensures c.None? ==> nextCardIndex == old(nextCardIndex)
      ensures c.Some? ==> c == Some(deck[old(nextCardIndex)]) && nextCardIndex == old(nextCardIndex) - 1
      ensures Dealt() == old(Dealt()) + (if c.Some? then [c.value] else [])
      ensures c.Some? ==> c.value !in old(Dealt())
    {
      if nextCardIndex < 0 {
        return None;
      } else {
        c := Some(deck[nextCardIndex]);
        nextCardIndex := nextCardIndex - 1;
        forall k | 0 <= k < |old(Dealt())|
          ensures old(Dealt())[k] != deck[old(nextCardIndex)]
        {
          assert old(Dealt())[k] == deck[DeckSize - 1 - k];
        }
      }
    }

    /** Puts a returned card on the discard pile; a missing card is ignored. */
    method ReturnCard(discarded: Option<Card>)
      requires Valid()
      modifies this
      ensures Valid() && deck == old(deck) && nextCardIndex == old(nextCardIndex)
      ensures discardedCards == old(discardedCards) + (if discarded.Some? then [discarded.value] else [])
    {
      if discarded.Some? {
        discardedCards := discardedCards + [discarded.value];
      }
    }
  }
}
