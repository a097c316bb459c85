# Five-card draw poker hand engine, modelled in Dafny

This project models the Java classes under `src/poker` of a five-card draw poker bot:

- **PlayingCard**: a card with a rank, a suit, a face value and a game value.
- **DeckOfCards**: 52 cards in an array, dealt from the top (index 51) down. A pointer records the next card to deal, and a list holds the cards returned.
- **HandOfCards**: five card slots. The hand sorts them by game value and counts them into a 13-bucket histogram. From that it works out:
  - the hand type (high hand up to royal flush) and the numeric game value;
  - the discard signal for each position (`KEEP` = 0 or `DISCARD` = 100). This uses two memoised searches: one for the card that busts an almost-flush and one for the card that breaks an almost-straight.
- **PokerHand**: the default value of each hand type.
- **PokerPlayer**: exchanges up to three cards with the deck in its `discard` step.

The model is split into modules:

| Module | What it holds |
|---|---|
| `Cards` | cards and suits |
| `Classifier` | the hand-type predicates and `getHandType` |
| `Scorer` | `getGameValue` |
| `PokerHand` | the default hand values |
| `Advisor` | the discard signals, as pure functions |
| `Hands` | the class `HandOfCards` |
| `Decks` | the class `DeckOfCards` |
| `Players` | the class `PokerPlayer` |
| `Examples` | the fixed hands the Java test methods try out |

How Java constructs are modelled:

- A Java `null` card is `Option<Card>.None`.
- A `NullPointerException` that the source can reach is modelled as an outcome:
  - `HandOfCards.Sort` returns `false`;
  - `PokerPlayer.Discard` returns `NullPointer`.
- The game-value histogram is a `seq<int>` field. It is built once, by the constructors that sort and count. Exchanges leave it stale.
- The ghost field `countedCards` records the cards the histogram was counted from.
- The memo fields are `Option<int>`.
- `java.util.Random` is replaced by explicit arguments:
  - `Shuffle` takes the index pairs it would draw;
  - `Discard` takes the thresholds it would draw.

What the model proves, in general:

- **Sorting:** `Sort` yields cards in non-increasing game value, as a permutation of the input. It also keeps the relative order of equal game values.
- **Deck:** dealing never repeats a card between resets.
- **Hand type:**
  - `GetHandType` returns exactly the strongest type whose check holds;
  - the score encodes the type in its millions digit;
  - a stronger type always scores higher.
- **Signals:**
  - a straight or better keeps everything;
  - two pair and three of a kind discard exactly the cards no other card pairs with;
  - a busted flush discards exactly the card off the suit;
  - a broken straight discards exactly its breaker;
  - otherwise one pair discards exactly its unpaired cards;
  - and a high hand keeps its two highest cards.
- **Discard:** `discard` exchanges the first up to three `DISCARD` positions in ascending order.
  - Each card goes to the deck's discard list and the next dealt card takes its slot.
  - The hand is then sorted.
  - Its random branch can never run: it is entered only when no definite discard was found, and then no possible discard was collected either.
  - So `Discard` is deterministic. Its contract gives the new deck, the new hand (sorted, with equal game values in their refill order), the unchanged histogram, and the memo fields the signal loop leaves behind.

## Model

| member | source | states |
|---|---|---|
| Cards.MakeCard | src/poker/DeckOfCards.java:20-28 | card j of a suit has rank `types[j]`, face value j+1 and is well formed (Ace game value 14, otherwise the face value) |
| Cards.WellFormedValues | src/poker/DeckOfCards.java:22-26 | a built card has face value 1..13 and game value 2..14; game value 14 exactly for the Ace; every other card's game value equals its face value |
| Cards.BuildDeck | src/poker/DeckOfCards.java:18-31 | card k of the built deck has suit `suits[k / 13]` and face value `k % 13 + 1`, and every card is well formed |
| Cards.BuildDeckDistinct | src/poker/DeckOfCards.java:18-31 | building from distinct suits gives pairwise distinct cards |
| Cards.DemoDeck | src/poker/PlayingCard.java:42-60 | the demo loop builds 52 pairwise distinct cards |
| Cards.Card.ToString | src/poker/PlayingCard.java:22-24 | toString is the rank followed by the suit symbol, which reads back as the card's suit |
| Cards.ToStringInjective | src/poker/PlayingCard.java:22-24 | two cards print alike exactly when rank and suit agree |
| Cards.Suit.Index | src/poker/HandOfCards.java:619-627 | the suit tally index is below 4 and names the suit in the order H, D, S, C |
| Classifier.GetHandTypeIsFirstMatch | src/poker/HandOfCards.java:460-491 | getHandType returns t exactly when t's check holds (HighHand needs none) and no stronger type's check holds |
| Classifier.GetHandTypeHolds | src/poker/HandOfCards.java:976-1034 | on a hand counted from its own cards, checkIfHandType accepts the type getHandType returns |
| Classifier.HistogramSum | src/poker/HandOfCards.java:292-304 | the buckets of the game-value histogram add up to the number of cards |
| Classifier.HistogramOfHand | src/poker/HandOfCards.java:292-304 | bucket b of a five-card hand counts the cards of game value b + 2 |
| Classifier.CountEqIsCardinality | src/poker/HandOfCards.java:233-266 | the number of buckets holding n cards (the pair and trip counts tested by isTwoPair, isOnePair) is the size of the set of such buckets |
| Scorer.GameValueOfCardWithCount | src/poker/HandOfCards.java:447-456 | 0 exactly when no bucket holds n cards; otherwise the lowest game value whose bucket holds n |
| Scorer.HighestPairBelow | src/poker/HandOfCards.java:387-393 | the scan from the top finds the highest game value whose bucket holds two, or 0 when there is none |
| Scorer.TiebreakBounds | src/poker/HandOfCards.java:306-445 | the component getGameValue adds to the type's offset lies between 0 and 579194 |
| Scorer.GameValueEncodesType | src/poker/HandOfCards.java:306-445 | the game value divided by 1000000 is the ordinal of the hand's type |
| Scorer.StrongerTypeScoresHigher | src/poker/HandOfCards.java:306-445 | a hand of a stronger type always has the higher game value |
| Scorer.TwoPairTiebreakAsWritten | src/poker/HandOfCards.java:383-404 | as written, the two-pair score is 2000000 + 196·high pair + 14·low pair + the game value of the first card |
| Scorer.TensEightsHistogram | src/poker/HandOfCards.java:292-304 | a 10-10-8-8-x hand counts two tens, two eights and one x |
| Scorer.TensEightsScoreAsWritten | src/poker/HandOfCards.java:396-402 | every 10-10-8-8-x hand with x below eight scores 2002082 as written |
| Scorer.TwoPairKickersTie | src/poker/HandOfCards.java:398 | as written, 10-10-8-8-2 and 10-10-8-8-3 score the same |
| Scorer.TwoPairKicker | src/poker/HandOfCards.java:396-401 | the intended kicker, when not 0, is the game value of a card of the hand in neither pair |
| Scorer.TwoPairKickerIsOddCard | src/poker/HandOfCards.java:396-401 | in a real two-pair hand the intended kicker is a game value 2..14 held by a card outside both pairs |
| Scorer.IntendedTwoPairOrdersByKicker | src/poker/HandOfCards.java:383-404 | with the intended kicker, two-pair hands with the same pairs compare (less, equal) as their odd cards do |
| Scorer.IntendedKickersSeparate | src/poker/HandOfCards.java:398 | with the intended kicker, 10-10-8-8-3 scores above 10-10-8-8-2 |
| PokerHand.GetDefaultHandValue | src/poker/PokerHand.java:20-63 | the default value is the type's ordinal times 1000: 0 exactly for a high hand, 9000 exactly for a royal flush |
| PokerHand.DefaultsIncrease | src/poker/PokerHand.java:9-18 | a higher ordinal has exactly the higher default, and different types have different defaults |
| Advisor.FirstIndexFrom | src/poker/HandOfCards.java:578-587 | the first position holding the game value, or 0 when no card holds it |
| Advisor.SinglesBelowMembers | src/poker/HandOfCards.java:591-602 | a position is listed exactly when some bucket holding one card finds it as its card |
| Advisor.SinglesAreUnpairedCards | src/poker/HandOfCards.java:591-602 | a position is among the single-card indexes exactly when no other card shares its game value |
| Advisor.MajoritySuit | src/poker/HandOfCards.java:622-638 | the suit found holds at least four cards; when none is found, every suit holds fewer than four |
| Advisor.MajorityIsUnique | src/poker/HandOfCards.java:622-638 | in five cards a suit with four or more is the only majority suit |
| Advisor.LastOffSuitBelow | src/poker/HandOfCards.java:641-651 | the last position off the majority suit, or -1 exactly when every card is of it |
| Advisor.FlushBusterMeaning | src/poker/HandOfCards.java:607-654 | isBustedFlush finds a card exactly when some suit holds four cards, and then the card found is the one whose suit the other four share |
| Advisor.FirstHitFrom | src/poker/HandOfCards.java:694-731 | the first window holding an almost-straight, with no window before it; or none at all |
| Advisor.BrokenStraightIndexRange | src/poker/HandOfCards.java:659-735 | isBrokenStraight answers -1 exactly when no window is an almost-straight, and otherwise a hand position |
| Advisor.LastBucketBelow | src/poker/HandOfCards.java:741-745 | the highest bucket below b holding n cards, or -1 exactly when there is none |
| Advisor.NonemptyBelow | src/poker/HandOfCards.java:749-756 | the highest non-empty bucket below b, or -1 exactly when all are empty |
| Advisor.NonemptyFrom | src/poker/HandOfCards.java:759-766 | the lowest non-empty bucket from b up, or -1 exactly when all are empty |
| Advisor.RightOverridesLeft | src/poker/HandOfCards.java:737-774 | with cards on both sides of the window and no pair, the breaking card is taken from above the window |
| Advisor.Signal | src/poker/HandOfCards.java:493-533 | every answer is KEEP or DISCARD, and a position outside the hand is DISCARD |
| Advisor.StrongHandsKeepAll | src/poker/HandOfCards.java:493-533 | a straight or any stronger type keeps every card |
| Advisor.PairedHandsDiscardSingles | src/poker/HandOfCards.java:508-523 | two pair and three of a kind discard a card exactly when no other card shares its game value |
| Advisor.BustedFlushDiscardsOffSuit | src/poker/HandOfCards.java:535-574 | a high hand or pair with four cards of a suit discards exactly the card sharing its suit with no other |
| Advisor.BrokenStraightDiscardsBreaker | src/poker/HandOfCards.java:535-574 | without a busted flush, a broken straight discards exactly the card that broke it |
| Advisor.HighHandKeepsTopTwo | src/poker/HandOfCards.java:535-574 | with neither, a high hand discards exactly positions 2 to 4 |
| Advisor.OnePairDiscardsSingles | src/poker/HandOfCards.java:555-563 | with neither, one pair discards exactly the cards no other card pairs with |
| Advisor.Advice | src/poker/HandOfCards.java:493-533 | the five answers of a freshly built hand, each KEEP or DISCARD |
| Advisor.PairedHandAdvice | src/poker/HandOfCards.java:508-523 | the advice for two pair or three of a kind discards a card exactly when no other card shares its game value |
| Advisor.StrongHandAdvice | src/poker/HandOfCards.java:524-530 | a straight or better is advised to keep all five cards |
| Hands.HandOfCards.GetGameValueCountInHand | src/poker/HandOfCards.java:292-304 | the array filled card by card is the histogram of the five cards |
| Hands.HandOfCards.SwapWithNext | src/poker/HandOfCards.java:92-100 | the two neighbours change places, the cards stay a permutation, the weighted sum of game values drops and equal game values keep their order |
| Hands.HandOfCards.Sort | src/poker/HandOfCards.java:82-103 | with every slot filled the cards end in non-increasing game value, as a permutation with equal values in their old order; an empty slot reports the exception and changes nothing |
| Hands.DealFive | src/poker/HandOfCards.java:45-50 | the five slots take the next five cards dealt, and the deck's pointer drops by five |
| Hands.HandOfCards.Deal | src/poker/HandOfCards.java:45-55 | the hand holds the five cards just dealt, sorted, with their histogram and no memo set |
| Hands.HandOfCards.FromCards | src/poker/HandOfCards.java:58-62 | the hand sorts the given array in place, counts it and sets no memo |
| Hands.HandOfCards.ReturnCard | src/poker/HandOfCards.java:70-75 | the card at the index is returned and its slot emptied, nothing else changes |
| Hands.HandOfCards.GetCard | src/poker/HandOfCards.java:77-79 | the slot's content |
| Hands.HandOfCards.ReceiveCard | src/poker/HandOfCards.java:1036-1042 | every empty slot takes the card, filled slots stay |
| Hands.HandOfCards.GetIndexOfCardInHand | src/poker/HandOfCards.java:578-587 | the loop's answer is the first position of the game value, or 0 |
| Hands.HandOfCards.GetIndexesOfSingleCards | src/poker/HandOfCards.java:591-602 | the list the loop builds is the single-card listing of the cards and the stored histogram |
| Hands.HandOfCards.TallySuits | src/poker/HandOfCards.java:619-638 | the tally stops at a card of the majority suit, or finds none exactly when no suit holds four |
| Hands.HandOfCards.IsBustedFlush | src/poker/HandOfCards.java:607-654 | the memo if set, else the flush buster of the cards, which is then stored |
| Hands.HandOfCards.IsBrokenStraight | src/poker/HandOfCards.java:659-735 | the memo if set, else the straight breaker of the cards and histogram, which is then stored |
| Hands.HandOfCards.GetCardWhichBrokeStraight | src/poker/HandOfCards.java:737-774 | the loops' answer is the breaking card's position as the window search defines it |
| Hands.HandOfCards.LastPairBucket | src/poker/HandOfCards.java:741-745 | the loop's answer is the highest bucket holding a pair, or -1 |
| Hands.HandOfCards.NearestBelow | src/poker/HandOfCards.java:749-756 | the downward scan's answer is the nearest non-empty bucket below the window, or -1 |
| Hands.HandOfCards.NearestFrom | src/poker/HandOfCards.java:759-766 | the upward scan's answer is the nearest non-empty bucket from the given one on, or -1 |
| Hands.HandOfCards.DiscardHighHandOrOnePair | src/poker/HandOfCards.java:535-574 | the answer from the (now stored) flush buster and straight breaker, as the signal function defines it |
| Hands.HandOfCards.GetDiscardProbability | src/poker/HandOfCards.java:493-533 | the answer for a hand position is that position's signal in the state before the call; a high hand or one pair stores both memos with the values the checks compute, other types and positions outside the hand leave them as they were, and the memos do not change what later calls answer |
| Decks.SwapKeepsDistinct | src/poker/DeckOfCards.java:38-43 | exchanging two cards keeps the deck's cards distinct |
| Decks.ApplySwapsPermutes | src/poker/DeckOfCards.java:33-46 | the exchanges of shuffle only rearrange the cards, which stay distinct |
| Decks.DeckOfCards.constructor | src/poker/DeckOfCards.java:18-31 | the deck holds the 52 cards built suit by suit (C, D, H, S), the pointer is on index 51, no card is discarded |
| Decks.DeckOfCards.SwapCards | src/poker/DeckOfCards.java:38-43 | the two cards change places |
| Decks.DeckOfCards.Shuffle | src/poker/DeckOfCards.java:33-46 | the deck is the old deck with the 52·52 drawn exchanges made in order |
| Decks.DeckOfCards.Reset | src/poker/DeckOfCards.java:49-52 | the pointer is back on the top card and the discard list is empty; the array is untouched |
| Decks.DeckOfCards.DealNext | src/poker/DeckOfCards.java:57-63 | null exactly when all 52 have been dealt; otherwise the card under the pointer, which drops by one, and never a card dealt before |
| Decks.DeckOfCards.DealtAreDistinct | src/poker/DeckOfCards.java:57-63 | no card is dealt twice between resets |
| Decks.DeckOfCards.ReturnCard | src/poker/DeckOfCards.java:66-70 | a card is appended to the discard list, and null is ignored |
| Players.DiscardsBelow | src/poker/PokerPlayer.java:30-41 | the positions below n whose signal is DISCARD, in increasing order |
| Players.DefiniteDiscards | src/poker/PokerPlayer.java:30-41 | at most three increasing positions, all DISCARD, holding every DISCARD position when fewer than three |
| Players.DefiniteDiscardsStep | src/poker/PokerPlayer.java:35-37 | one more position joins exactly when it is DISCARD and fewer than three are chosen |
| Players.DefiniteDiscardsAreLowest | src/poker/PokerPlayer.java:30-41 | a DISCARD position left out lies above every chosen one |
| Players.RefillAt | src/poker/PokerPlayer.java:68-73 | the q-th chosen slot holds the q-th card dealt (null once the deck is spent) |
| Players.RefillOutside | src/poker/PokerPlayer.java:68-73 | slots not chosen keep their cards |
| Players.RefillStaysFull | src/poker/PokerPlayer.java:68-73 | while the deck holds a card for every chosen slot, no slot ends empty |
| Players.PokerPlayer.constructor | src/poker/PokerPlayer.java:18-21 | the player keeps the deck and deals its hand from it |
| Players.PokerPlayer.ChanceDiscards | src/poker/PokerPlayer.java:45-63 | the random loop only appends possible discards, stops at three and adds nothing when there are none |
| Players.PokerPlayer.CollectNth | src/poker/PokerPlayer.java:30-41 | pass `index` of the signal loop extends the definite discards by that position's signal and leaves the memos as the whole loop will leave them |
| Players.PokerPlayer.CollectDiscards | src/poker/PokerPlayer.java:30-41 | the definite discards are those of the signals; possible discards appear only once three definite ones are chosen; a high hand or one pair ends with both memos stored, other types keep them |
| Players.PokerPlayer.ExchangeCard | src/poker/PokerPlayer.java:69-72 | the chosen card goes to the discard list and the next card dealt takes its slot |
| Players.PokerPlayer.ExchangeNth | src/poker/PokerPlayer.java:68-73 | pass q of the exchange loop extends the refill, the pointer's drop and the discard list by one |
| Players.PokerPlayer.ExchangeCards | src/poker/PokerPlayer.java:68-73 | the slots are refilled in order, the pointer drops by one per card (not below -1) and the cards picked are discarded in order |
| Players.PokerPlayer.ChooseDiscards | src/poker/PokerPlayer.java:25-63 | the cards chosen are exactly the definite discards, and the memos are those the signal loop stores |
| Players.PokerPlayer.ExchangeAndSort | src/poker/PokerPlayer.java:66-77 | after the exchanges the hand is the refill sorted stably, or the exception when a slot stayed empty; the memos are untouched |
| Players.PokerPlayer.Discard | src/poker/PokerPlayer.java:23-78 | the first up to three DISCARD positions are exchanged in ascending order, the hand is sorted stably, the count is returned; the exception exactly when the deck runs out; the memos hold what the signal loop stored |
| Examples.BrokenStraightBreaker | src/poker/HandOfCards.java:659-774 | in 10C 9C 8H 7S 2S the window from the six is hit and the two, at position 4, breaks it |
| Examples.BrokenStraightAdvice | src/poker/HandOfCards.java:816-833 | 10C 9C 8H 7S 2S discards only the two |
| Examples.BustedFlushAdvice | src/poker/HandOfCards.java:839-856 | 10C 9C 8H 7C 2C discards only the eight of hearts |
| Examples.TwoPairAdvice | src/poker/HandOfCards.java:860-877 | 10C 10D 8H 8C 2C discards only the two |
| Examples.ThreeTensAdvice | src/poker/HandOfCards.java:884-901 | 10C 10D 10H 8C 2C discards the eight and the two |
| Examples.FullHouseAdvice | src/poker/HandOfCards.java:905-922 | 10C 10D 10H 8C 8D keeps every card |
| Examples.RoyalHandIsNotStraight | src/poker/HandOfCards.java:963-973 | the royal flush is not reported as a straight and scores 9000000 |
| Examples.WheelTiesAceHighStraight | src/poker/HandOfCards.java:182-209 | A-5-4-3-2 passes the run check and, scored by its Ace, ties with A-K-Q-J-10 |

## Left out

- Console output: `toString` on a hand, every `System.out` call and the `main` methods. The fixed hands of `HandOfCards.main` and `runCustomHandTypeTest` are kept, as lemmas in `Examples`.
- `runMultipleHandTypeTest` and the timing in `main`: these sample random hands.
- `java.util.Random`: its draws are arguments, and nothing is assumed about their distribution.
- `synchronized` on `dealNext`: the model is sequential.
- `getDeckOfCards` and the hand's own `deckOfCards` field: the hand only uses them in its constructor, where the deck is an argument.
- `Math.pow`: its result is cast to `int`, which is exact for these small powers of 14. It is modelled as exact integer powers.
- Hands.HandOfCards.Sort: a hand with an empty slot is reported as the exception, but the model does not capture the neighbours the Java pass may already have exchanged before it meets the empty slot; the slots are left unchanged instead.
- Hands.HandOfCards.Deal: requires five cards left in the deck. With fewer, the Java sort throws on the empty slot.
- Hands.HandOfCards.FromCards: requires five non-null cards with game values 2 to 14. The Java constructor throws otherwise: a `NullPointerException` in sort, or an `ArrayIndexOutOfBoundsException` in the count.
- Hands.HandOfCards.GetDiscardProbability: requires every slot filled for hand positions, because the Java code dereferences each card.
- Players.PokerPlayer.ChanceDiscards: stated for any map, although `Discard` only ever calls it with an empty map. No position ever signals anything other than KEEP or DISCARD.
- Players.PokerPlayer.Discard: the histogram and the memo fields are not recomputed for the exchanged cards, in the model as in the Java code. The contract gives their stale values, but it does not restate the signals of the exchanged hand.
- Players.PokerPlayer.Discard: when the deck runs out, the contract gives the hand as the unsorted refill. As with `Sort`, it does not capture the neighbours the Java sort may exchange before it meets the empty slot.
- `PlayingCard` getters: these are the datatype's fields.

## Findings

| source | as written | input that shows it | evidently intended | confidence | as-written member | corrected member |
|---|---|---|---|---|---|---|
| src/poker/HandOfCards.java:398 | the two-pair "other card" test joins its comparisons with `\|\|`, so the first card always passes and the kicker is always cards[0], which is the odd card only when it outranks both pairs | 10C 10D 8H 8C 2C and 10C 10D 8H 8C 3C both score 2002082 | the first card in neither pair (`&&`), so that the hand with the higher odd card scores higher | not executed | Scorer.TwoPairKickersTie | Scorer.IntendedTwoPairOrdersByKicker |
