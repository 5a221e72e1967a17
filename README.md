# Daifugo card model

A model of the card layer of the Daifugo ("Great Millionaire") web game:
the playing card with its artwork file name and display names, and the
three card containers built on it: the dealer's `Deck`, the `PileDeck`
at the centre of the table and a player's `PlayerDeck`.

- `options.dfy`: `Option`, which stands for the source's `undefined` results.
- `decimal.dfy`: the decimal text JavaScript writes for an integral number
  below 10^21 in magnitude (`${n}`, `s += n`), with a parser as its partner
  and the round trip proved.
- `card.dfy` (module `Cards`): suits, the card value, the card constructor,
  the artwork name `ImageAsset` and the display names `SuitName` and
  `PipName`. These are pure functions; each is paired with a decoder or an
  injectivity lemma.
- `card_seqs.dfy` (module `CardSeqs`): specification functions over card
  sequences, with their lemmas:
  - the 52-card traditional order;
  - taking cards out by index, which both the shuffle and a player's hand do;
  - the stable sort by pips;
  - the partition that holds Aces and Twos back;
  - the slices dealt to the players.
- `deck.dfy` (module `Decks`): the three containers as classes.
  - Each class owns a `seq<Card>` that its methods replace.
  - Each method's postcondition ties the new state to a `CardSeqs` function
    of the old state.
  - The loops of the source are loops here: deck generation, the shuffle,
    the partition, dealing and taking several cards.

`Math.random()` is the only outside input. The shuffle receives the random
indices it would draw as a parameter `picks`. Entry k of `picks` lies in
`[0, n - k)`, which is exactly the range `Math.floor(Math.random() * length)`
can produce on the k-th step.

Three places where the code does less than its comments or names suggest.
The model follows the code in each case:

- `addCards` on `Deck` and on `PileDeck` builds a concatenation and then
  discards it, so the cards stay as they were. `PileDeck.addCards` still
  records the group size.
- In `sortCards`, `reverseOrder` reverses the sorted array after the partition
  has already been read from it. The flag therefore has no effect on the hand.
- `PileDeck` never sets its top card. Both peeks therefore always return
  `undefined`, whatever quantity was recorded.

## Model

| member | source | states |
|---|---|---|
| Decimal.NatToDecimal | src/models/Card.ts:48 | the text of a natural number is non-empty, all digits, and has no leading zero |
| Decimal.IntToDecimal | src/models/Card.ts:70 | the text of an integer is non-empty and starts with a digit or '-'; it starts with '-' exactly when the number is negative |
| Decimal.NatToDecimalRoundTrip | src/models/Card.ts:48 | reading back the digits of n gives n |
| Decimal.IntToDecimalRoundTrip | src/models/Card.ts:48 | parsing the decimal text of any integer gives the integer back |
| Decimal.IntToDecimalInjective | src/models/Card.ts:70 | distinct integers have distinct decimal texts |
| Cards.NewCard | src/models/Card.ts:13-15 | a new card keeps the suit and pips it was given; its artwork name is ImageAsset of them, and it decodes back to exactly that suit and those pips |
| Cards.ImageAsset | src/models/Card.ts:17-52 | the artwork name starts with the suit letter (k, l, s, p), ends in ".png", and is at least 6 characters long |
| Cards.PipCodeRoundTrip | src/models/Card.ts:34-49 | the pip part of the name (a, j, q, k, or the number) decodes back to the pip value, for every integer pip value |
| Cards.ParseImageAssetRoundTrip | src/models/Card.ts:17-52 | every artwork name decodes to the suit and pips it was made from |
| Cards.ImageAssetInjective | src/models/Card.ts:17-52 | two (suit, pips) pairs share an artwork name only if they are equal |
| Cards.SuitName | src/models/Card.ts:54-65 | a suit's name is one of "Clubs", "Diamonds", "Hearts", "Spades" |
| Cards.SuitNameInjective | src/models/Card.ts:54-65 | distinct suits get distinct names |
| Cards.PipName | src/models/Card.ts:68-82 | the name is "Undefined" exactly when pips exceed 13, and "Ace" exactly when pips are 1 |
| Cards.PipNameInjective | src/models/Card.ts:68-82 | among pip values up to 13, distinct values have distinct names |
| Cards.PipNameDefinedOnDeck | src/models/Card.ts:68-82 | each pip value 1 to 13 has a real name, different from the name of every other value 1 to 13 |
| CardSeqs.SuitIndex | src/models/Deck.ts:16 | each suit has a position below 4 in the generator's suit list, and that position holds it |
| CardSeqs.TraditionalCards | src/models/Deck.ts:13-24 | the generated deck has 52 cards |
| CardSeqs.TraditionalCardsAt | src/models/Deck.ts:16-20 | the card of suit s and pips p (1 to 13) sits at index 13 * s + p - 1 |
| CardSeqs.TraditionalCardsDistinct | src/models/Deck.ts:16-20 | no card occurs twice in the generated deck |
| CardSeqs.TraditionalCardsMembership | src/models/Deck.ts:16-20 | a card is in the generated deck exactly when its pips are 1 to 13 and it was made by the card constructor |
| Decks.TraditionalCardList | src/models/Deck.ts:14-21 | the suit-by-suit, pip-by-pip loops produce exactly the 52-card traditional order |
| Decks.Deck.GenerateTraditionalDeck | src/models/Deck.ts:13-24 | a new deck holds the 52-card traditional order |
| Decks.Deck.constructor | src/models/Deck.ts:4 | the deck holds the cards it is given |
| Decks.Deck.CardCount | src/models/Deck.ts:5 | the count is the number of cards held, duplicates included; AddCard raises it by one, ShuffleDeck and SortCards keep it |
| Decks.Deck.IsEmpty | src/models/Deck.ts:5-6 | the deck is empty exactly when its card count is 0 |
| Decks.Deck.AddCard | src/models/Deck.ts:26-28 | the card is appended at the end and nothing else changes; the count grows by one |
| Decks.Deck.AddCards | src/models/Deck.ts:30-32 | the deck's cards are left as they were (the concatenation is discarded) |
| CardSeqs.RemoveAt | src/models/Deck.ts:45 | removing one index leaves one card fewer, and the removed card together with the rest is the old multiset |
| CardSeqs.TakeAll | src/models/Deck.ts:139-146 | taking cards at successive indices yields one card per index; the taken and the remaining cards together are the original multiset |
| CardSeqs.Shuffled | src/models/Deck.ts:37-49 | the shuffle's result has the same length and the same multiset of cards as the deck |
| CardSeqs.PicksFor | src/models/Deck.ts:42 | for any rearrangement of the deck there is a valid sequence of random indices, one per card |
| CardSeqs.ShuffleReachesEveryOrder | src/models/Deck.ts:37-49 | with those indices the shuffle yields exactly that rearrangement: every order of the deck is a possible outcome |
| Decks.Deck.ShuffleDeck | src/models/Deck.ts:37-49 | the loop that draws a card at a random index, appends it and splices it out leaves the shuffle of the old deck, a permutation of it with the same count |
| CardSeqs.InsertByPips | src/models/Deck.ts:60 | inserting a card adds exactly that card to the multiset |
| CardSeqs.InsertKeepsAscending | src/models/Deck.ts:60 | inserting into an ascending sequence keeps it ascending by pips |
| CardSeqs.SortByPips | src/models/Deck.ts:60 | the sort with comparator `c1.pips - c2.pips` returns a permutation ascending by pips |
| CardSeqs.SortByPipsStable | src/models/Deck.ts:60 | the sort is stable: the cards of each pip value keep their relative order |
| CardSeqs.Keep | src/models/Deck.ts:62-66 | every card of a part comes from the hand and has the held status of that part |
| CardSeqs.KeepSplits | src/models/Deck.ts:62-66 | the regular and held parts together are the sorted cards' multiset |
| CardSeqs.KeepAscending | src/models/Deck.ts:62-66 | both parts of an ascending sequence are ascending |
| Decks.PartitionHeld | src/models/Deck.ts:62-66 | the loop sends Aces (when they count 14) and Twos (when they count 15) to the held cards and every other card to the regular ones, in order |
| CardSeqs.SortedHandSpec | src/models/Deck.ts:55-71 | the sorted hand is a permutation of the hand; its non-held cards come first, ascending; its held cards follow, ascending |
| CardSeqs.SortedHandAcesBeforeTwos | src/models/Deck.ts:63-64 | with both promotions on, every Ace comes before every Two |
| CardSeqs.KeepNoneHeld | src/models/Deck.ts:62-66 | with neither promotion on, every card is regular and none is held |
| CardSeqs.SortedHandNoPromotion | src/models/Deck.ts:55-71 | with neither promotion on, the sorted hand is the plain sort by pips |
| CardSeqs.Reversed | src/models/Deck.ts:68 | the reversal has as many cards as its input |
| CardSeqs.ReversedTwice | src/models/Deck.ts:68 | reversing twice gives the cards back |
| CardSeqs.ReversedPermutes | src/models/Deck.ts:68 | the reversal is a permutation of its input |
| Decks.SortHand | src/models/Deck.ts:55-71 | sort, partition, optional reversal and concatenation give the sorted hand, a permutation of the cards, whatever `reverseOrder` is |
| Decks.Deck.SortCards | src/models/Deck.ts:55-71 | the deck becomes the sorted hand of its old cards, whatever `reverseOrder` is, with the same cards and count |
| CardSeqs.HandSlice | src/models/Deck.ts:82 | every hand has the card count divided by the players, rounded down |
| CardSeqs.DealtIsPrefix | src/models/Deck.ts:77-87 | the hands, one after another, are exactly the deck's first players * HandSize cards, so no card is dealt twice; count mod players cards go to no one |
| CardSeqs.SinglePlayerGetsAll | src/models/Deck.ts:79-82 | with one player the one hand is the whole deck |
| CardSeqs.HandSizeRemainder | src/models/Deck.ts:79-85 | the cards after the last hand number the count modulo the players |
| Decks.Deck.Divide | src/models/Deck.ts:77-87 | one new hand per player (none for 0 or fewer players); hand i belongs to player i + 1 and holds the i-th slice of the deck; the hands are distinct objects |
| Decks.PileDeck.constructor | src/models/Deck.ts:97-100 | the pile holds the given cards (empty by default) with no top card and a quantity of 0 |
| Decks.PileDeck.PeekTopCard | src/models/Deck.ts:102 | while the top card is unset, as every method keeps it, the peek returns nothing |
| Decks.PileDeck.PeekTopCardQuantityTuple | src/models/Deck.ts:103-109 | a tuple is returned exactly when the top card is set and the quantity is non-zero, and then it is the top card with the quantity |
| Decks.PileDeck.PeeksAreAlwaysEmpty | src/models/Deck.ts:94-109 | since the top card is never set, both peeks return nothing |
| Decks.PileDeck.AddCard | src/models/Deck.ts:111-114 | the card is appended and the recorded quantity becomes 1 |
| Decks.PileDeck.AddCards | src/models/Deck.ts:115-118 | the cards are left as they were, and the recorded quantity becomes the number of new cards |
| Decks.PlayerDeck.constructor | src/models/Deck.ts:125-127 | the hand belongs to the given player and holds the given cards |
| Decks.PlayerDeck.CardCount | src/models/Deck.ts:5 | inherited from Deck: the number of cards held, duplicates included; TakeCardsAt lowers it by the number of indices |
| Decks.PlayerDeck.SortCards | src/models/Deck.ts:55-71 | the hand becomes the sorted hand of its old cards (inherited from Deck), with the same cards and count |
| Decks.PlayerDeck.TakeCardAt | src/models/Deck.ts:133-137 | returns the card at the index and removes it; the other cards keep their order, and nothing is lost |
| Decks.PlayerDeck.TakeCardsAt | src/models/Deck.ts:139-146 | returns the cards at the successive indices, each counted in the hand as earlier removals left it, and keeps the rest in order; the count drops by the number of indices |
| Decks.PlayerDeck.TakeBestCard | src/models/Deck.ts:148-152 | returns and removes the last card |
| Decks.PlayerDeck.TakeWorstCard | src/models/Deck.ts:154-157 | returns and removes the first card |
| CardSeqs.SortedHandLast | src/models/Deck.ts:148-152 | in a sorted hand the last card is the held card with the most pips if any card is held, and otherwise a card with the most pips |
| CardSeqs.SortedHandFirst | src/models/Deck.ts:154-157 | in a sorted hand that has a non-held card, the first card is a non-held card with the fewest pips |

## Left out

- Decks.PlayerDeck.TakeCardAt: requires `0 <= index < |cards|`. JavaScript's `at` also accepts negative indices, counted from the end, and an out-of-range index returns `undefined`. `splice` has its own rules for such indices. None of this is modelled.
- Decks.PlayerDeck.TakeCardsAt: requires each index to be in range for the hand as the earlier removals left it, for the same reason.
- Decks.PlayerDeck.TakeBestCard: requires a non-empty hand. On an empty hand the source returns `undefined`.
- Decks.PlayerDeck.TakeWorstCard: requires a non-empty hand. On an empty hand the source returns `undefined`.
- Decks.Deck.ShuffleDeck: the random indices are a parameter. Their uniform distribution is not modelled, only the reachability of every order.
- Decks.Deck.Divide: `players` is typed `PlayerCount` (2 to 7), but the game screen can pass any integer, 1 included. The model accepts every integer: with 1 player the one hand holds every card, and 0 or fewer players get no hands. A non-integral player count is not modelled.
- Pips are JavaScript numbers. The model takes them to be integers, so non-integral values, NaN and infinities are not covered.
- Decimal.NatToDecimal: JavaScript writes integers of magnitude 10^21 or more in exponent notation (`1e+21`). It also cannot hold integers above 2^53 exactly. The model writes all the digits instead, so ImageAsset and PipName differ from the source for such pips.
- Decimal.IntToDecimal: the same limit applies to negative values (`-1e+21`).
- A `Suits` value outside the four enumeration members is not modelled, since the datatype has exactly four.
- Cards are values, not objects. Two cards with equal suit and pips are indistinguishable here, whereas the source could tell them apart by reference.
- Array aliasing is not modelled.
  - The card array passed to a constructor is shared with the caller.
  - `sort` works in place.
  - `PlayerDeck` declares `_cards` as a constructor parameter property and also passes it to `super`. It is one property, assigned the same array twice.
  - The model copies sequences instead.
- Inheritance is not modelled as such.
  - `PileDeck` also inherits `getCardCount`, `isEmpty`, `shuffleDeck`, `sortCards`, `divide` and the static `generateTraditionalDeck` from `Deck`. None of these are repeated on `PileDeck`; they behave as the `Deck` members modelled here.
  - `PlayerDeck` also inherits `isEmpty`, `addCard`, `addCards`, `shuffleDeck`, `divide` and `generateTraditionalDeck`. These are not repeated either. Only `getCardCount` and `sortCards` are repeated on `PlayerDeck`.
- The getters `pips`, `suit`, `imageURI`, `playerID` and `cards` are the fields themselves.
- The sort is modelled as stable, the behaviour ECMAScript 2019 and later require of `Array.prototype.sort`.
- The React components (`App.tsx`, `CardComponent.tsx`) and `Player.ts` are not part of this model. `Player.ts` calls a card sort that `Card` does not define.
- There is no code for the game's turns, play validation, revolution or ranking, so none of these is modelled.
