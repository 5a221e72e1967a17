/**
 * The card containers: the dealer's deck, the pile at the centre of the
 * table and a player's hand. Each owns its cards as a sequence that its
 * methods replace; the specification functions of CardSeqs say what each
 * method leaves behind.
 */
module Decks {
  import opened Options
  import opened Cards
  import opened CardSeqs

  /** The 52 cards of a French-suited deck without Jokers, built suit by suit, pips 1 to 13 within each suit. */
  method TraditionalCardList() returns (cards: seq<Card>)
    ensures cards == TraditionalCards()
  {
    cards := [];
    for s := 0 to |SuitOrder|
      invariant cards == TraditionalCards()[..13 * s]
    {
      var suit := SuitOrder[s];
      assert SuitIndex(suit) == s;
      for i := 1 to 14
        invariant cards == TraditionalCards()[..13 * s + i - 1]
      {
        TraditionalCardsAt(suit, i);
        PrefixStep(TraditionalCards(), 13 * s + i - 1);
        cards := cards + [NewCard(suit, i)];
      }
    }
    assert TraditionalCards()[..52] == TraditionalCards();
  }

  /** One pass over the sorted cards, sending each either to the held cards or to the regular ones. */
  method PartitionHeld(sorted: seq<Card>, aceIsFourteen: bool, twoIsFifteen: bool)
    returns (regular: seq<Card>, held: seq<Card>)
    ensures regular == Keep(sorted, false, aceIsFourteen, twoIsFifteen)
    ensures held == Keep(sorted, true, aceIsFourteen, twoIsFifteen)
  {
    regular, held := [], [];
    for i := 0 to |sorted|
      invariant regular == Keep(sorted[..i], false, aceIsFourteen, twoIsFifteen)
      invariant held == Keep(sorted[..i], true, aceIsFourteen, twoIsFifteen)
    {
      assert sorted[..i + 1][..i] == sorted[..i];
      var card := sorted[i];
      if aceIsFourteen && card.pips == 1 {
        held := held + [card];
      } else if twoIsFifteen && card.pips == 2 {
        held := held + [card];
      } else {
        regular := regular + [card];
      }
    }
    assert sorted[..|sorted|] == sorted;
  }

  /**
   * The sort every container shares: sort by pips, split off the held
   * cards, reverse the sorted cards when asked and put the held cards last.
   * The reversal comes after the split has been read from the sorted cards,
   * so it reaches neither part and the result does not depend on it.
   */
  method SortHand(cards: seq<Card>, aceIsFourteen: bool, twoIsFifteen: bool, reverseOrder: bool)
    returns (hand: seq<Card>)
    ensures hand == SortedHand(cards, aceIsFourteen, twoIsFifteen)
    ensures multiset(hand) == multiset(cards)
  {
    var sortedCards := SortByPips(cards);
    var sortedRegular, heldCards := PartitionHeld(sortedCards, aceIsFourteen, twoIsFifteen);
    if reverseOrder {
      sortedCards := Reversed(sortedCards);
    }
    hand := sortedRegular + heldCards;
    SortedHandSpec(cards, aceIsFourteen, twoIsFifteen);
  }

  /** An ordered collection of cards: the dealer's deck. */
  class Deck {
    var cards: seq<Card>

    constructor (cards: seq<Card>)
      ensures this.cards == cards
    {
      this.cards := cards;
    }

    /** The number of cards held, duplicates included. */
    function CardCount(): (n: nat)
      reads this
      ensures n == |multiset(cards)|
    {
      |cards|
    }

    predicate IsEmpty()
      reads this
      ensures IsEmpty() <==> CardCount() == 0
    {
      |cards| < 1
    }

    /** A new deck holding the 52 traditional cards in suit/pip order. */
    static method GenerateTraditionalDeck() returns (deck: Deck)
      ensures fresh(deck)
      ensures deck.cards == TraditionalCards()
    {
      var cards := TraditionalCardList();
      deck := new Deck(cards);
    }

    /** Appends one card at the end. */
    method AddCard(newCard: Card)
      modifies this
      ensures cards == old(cards) + [newCard]
      ensures CardCount() == old(CardCount()) + 1
    {
      cards := cards + [newCard];
    }

    /** Concatenates the new cards onto a copy and drops the copy: the deck is left as it was. */
    method AddCards(newCards: seq<Card>)
      ensures cards == old(cards)
    {
      var concatenated := cards + newCards;
    }

    /**
     * Moves the cards one at a time to a new sequence, each time the card at
     * a random index of those left; `picks` holds those random indices.
     */
    method ShuffleDeck(picks: seq<int>)
      requires |picks| == |cards| && ValidPicks(|cards|, picks)
      modifies this
      ensures cards == Shuffled(old(cards), picks)
      ensures multiset(cards) == multiset(old(cards)) && CardCount() == old(CardCount())
    {
      var shuffledCards: seq<Card> := [];
      var deckLength := |cards|;
      ghost var goal := Shuffled(cards, picks);
      assert picks[0..] == picks;
      for i := 0 to deckLength
        invariant |cards| == deckLength - i
        invariant ValidPicks(|cards|, picks[i..])
        invariant shuffledCards == goal[..i]
        invariant TakeAll(cards, picks[i..]).0 == goal[i..]
      {
        TakeAllFrom(cards, picks, i);
        var rand := picks[i];
        var nextCard := cards[rand];
        ConsSuffix(goal, i, nextCard, TakeAll(RemoveAt(cards, rand), picks[i + 1..]).0);
        shuffledCards := shuffledCards + [nextCard];
        cards := RemoveAt(cards, rand);
      }
      assert picks[deckLength..] == [] && goal[deckLength..] == [];
      cards := shuffledCards;
    }

    /**
     * Sorts by pips and moves the held cards (Aces when they count 14, Twos
     * when they count 15) to the end. `reverseOrder` reverses the sorted
     * cards after the partition has been taken from them, so it has no
     * effect on the result.
     */
    method SortCards(aceIsFourteen: bool := false, twoIsFifteen: bool := false, reverseOrder: bool := false)
      modifies this
      ensures cards == SortedHand(old(cards), aceIsFourteen, twoIsFifteen)
      ensures multiset(cards) == multiset(old(cards)) && CardCount() == old(CardCount())
    {
      cards := SortHand(cards, aceIsFourteen, twoIsFifteen, reverseOrder);
    }

    /**
     * Deals one hand per player: hand i gets the i-th run of
     * |cards| / players cards and belongs to player i + 1. The cards after
     * the last run go to no one, and the deck itself is not changed. With
     * no players (0 or fewer) the loop never runs and no hand is dealt; the
     * source's hand size is then NaN or infinite, but it is never used.
     */
    method Divide(players: int) returns (hands: seq<PlayerDeck>)
      ensures |hands| == if players > 0 then players else 0
      ensures forall i :: 0 <= i < |hands| ==> fresh(hands[i]) && hands[i].playerID == i + 1
      ensures forall i :: 0 <= i < |hands| ==> hands[i].cards == HandSlice(cards, players, i)
      ensures forall i, j :: 0 <= i < j < |hands| ==> hands[i] != hands[j]
    {
      hands := [];
      var handCount := if players > 0 then players else 0;
      var cardsPerHand := if players > 0 then |cards| / players else 0;
      for i := 0 to handCount
        invariant |hands| == i
        invariant forall j :: 0 <= j < i ==> fresh(hands[j]) && hands[j].playerID == j + 1
        invariant forall j :: 0 <= j < i ==> hands[j].cards == HandSlice(cards, players, j)
        invariant forall j, k :: 0 <= j < k < i ==> hands[j] != hands[k]
      {
        HandBounds(|cards|, players, i);
        var playerCards := cards[cardsPerHand * i..cardsPerHand * (i + 1)];
        var playerHand := new PlayerDeck(i + 1, playerCards);
        hands := hands + [playerHand];
      }
    }
  }

  /**
   * The pile at the centre of the table, where played cards go. It keeps a
   * count of the cards last placed; its top card is declared but no method
   * ever sets it.
   */
  class PileDeck {
    var cards: seq<Card>
    var topCard: Option<Card>
    var topCardQuantity: nat

    /** The top card stays unset for the life of the pile. */
    ghost predicate Valid()
      reads this
    {
      topCard == None
    }

    constructor (cards: seq<Card> := [])
      ensures Valid()
      ensures this.cards == cards && topCardQuantity == 0
    {
      this.cards := cards;
      topCard := None;
      topCardQuantity := 0;
    }

    function PeekTopCard(): (top: Option<Card>)
      reads this
      ensures Valid() ==> top == None
    {
      topCard
    }

    /** The top card with its quantity, when both are set (a quantity of 0 counts as unset). */
    function PeekTopCardQuantityTuple(): (top: Option<(Card, nat)>)
      reads this
      ensures top.Some? <==> topCard.Some? && topCardQuantity != 0
      ensures top.Some? ==> top.value == (topCard.value, topCardQuantity) && PeekTopCard() == Some(top.value.0)
    {
      if topCard.Some? && topCardQuantity != 0 then Some((topCard.value, topCardQuantity)) else None
    }

    /** Since the top card is never set, both peeks always come back empty, whatever the quantity. */
    lemma PeeksAreAlwaysEmpty()
      requires Valid()
      ensures PeekTopCard() == None && PeekTopCardQuantityTuple() == None
    {
    }

    /** Appends the card and records a group of one. */
    method AddCard(newCard: Card)
      requires Valid()
      modifies this
      ensures Valid()
      ensures cards == old(cards) + [newCard] && topCardQuantity == 1
    {
      cards := cards + [newCard];
      topCardQuantity := 1;
    }

    /** Records a group of |newCards| but, like Deck.AddCards, leaves the cards as they were. */
    method AddCards(newCards: seq<Card>)
      requires Valid()
      modifies this
      ensures Valid()
      ensures cards == old(cards) && topCardQuantity == |newCards|
    {
      var concatenated := cards + newCards;
      topCardQuantity := |newCards|;
    }
  }

  /** The cards a player holds. */
  class PlayerDeck {
    const playerID: int
    var cards: seq<Card>

    constructor (playerID: int, cards: seq<Card>)
      ensures this.playerID == playerID && this.cards == cards
    {
      this.playerID := playerID;
      this.cards := cards;
    }

    /** The number of cards held, duplicates included. */
    function CardCount(): (n: nat)
      reads this
      ensures n == |multiset(cards)|
    {
      |cards|
    }

    /** The hand's sort, as Deck.SortCards. */
    method SortCards(aceIsFourteen: bool := false, twoIsFifteen: bool := false, reverseOrder: bool := false)
      modifies this
      ensures cards == SortedHand(old(cards), aceIsFourteen, twoIsFifteen)
      ensures multiset(cards) == multiset(old(cards)) && CardCount() == old(CardCount())
    {
      cards := SortHand(cards, aceIsFourteen, twoIsFifteen, reverseOrder);
    }

    /** Removes and returns the card at `index`; the others keep their order. */
    method TakeCardAt(index: int) returns (card: Card)
      requires 0 <= index < |cards|
      modifies this
      ensures card == old(cards)[index]
      ensures cards == old(cards)[..index] + old(cards)[index + 1..]
      ensures multiset(cards) + multiset{card} == multiset(old(cards))
    {
      card := cards[index];
      cards := RemoveAt(cards, index);
    }

    /** Takes the cards at the given indices in turn, each index counted in the hand as the earlier removals left it. */
    method TakeCardsAt(indices: seq<int>) returns (takenCards: seq<Card>)
      requires ValidPicks(|cards|, indices)
      modifies this
      ensures takenCards == TakeAll(old(cards), indices).0
      ensures cards == TakeAll(old(cards), indices).1
      ensures CardCount() == old(CardCount()) - |indices|
    {
      takenCards := [];
      ghost var goal := TakeAll(cards, indices);
      assert indices[0..] == indices;
      for i := 0 to |indices|
        invariant ValidPicks(|cards|, indices[i..])
        invariant takenCards == goal.0[..i]
        invariant TakeAll(cards, indices[i..]).0 == goal.0[i..]
        invariant TakeAll(cards, indices[i..]).1 == goal.1
      {
        TakeAllFrom(cards, indices, i);
        ConsSuffix(goal.0, i, cards[indices[i]], TakeAll(RemoveAt(cards, indices[i]), indices[i + 1..]).0);
        var card := TakeCardAt(indices[i]);
        takenCards := takenCards + [card];
      }
      assert indices[|indices|..] == [] && goal.0[|indices|..] == [];
    }

    /** Takes the last card, the best one when the hand is sorted. */
    method TakeBestCard() returns (bestCard: Card)
      requires |cards| > 0
      modifies this
      ensures bestCard == old(cards)[|old(cards)| - 1]
      ensures cards == old(cards)[..|old(cards)| - 1]
    {
      bestCard := TakeCardAt(|cards| - 1);
    }

    /** Takes the first card, the worst one when the hand is sorted. */
    method TakeWorstCard() returns (worstCard: Card)
      requires |cards| > 0
      modifies this
      ensures worstCard == old(cards)[0]
      ensures cards == old(cards)[1..]
    {
      worstCard := TakeCardAt(0);
    }
  }
}
