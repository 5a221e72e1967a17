/**
 * Specification functions for the deck operations, over sequences of cards:
 * the traditional 52-card order, taking cards out by index (which both the
 * shuffle and a player's hand do), the stable sort by pips, the partition
 * that holds back Aces and Twos, and the slices dealt to the players.
 */
module CardSeqs {
  import opened Cards

  // ---------------------------------------------------------------------
  // The traditional deck

  /** The suits in the order the deck generator visits them. */
  const SuitOrder: seq<Suit> := [Clubs, Diamonds, Hearts, Spades]

  /** The position of a suit in SuitOrder. */
  function SuitIndex(suit: Suit): (k: nat)
    ensures k < 4 && SuitOrder[k] == suit
  {
    match suit
    case Clubs => 0
    case Diamonds => 1
    case Hearts => 2
    case Spades => 3
  }

  /** The card at position k of a freshly generated deck: suit-major, pips 1 to 13 within a suit. */
  function TraditionalCardAt(k: nat): Card
    requires k < 52
  {
    NewCard(SuitOrder[k / 13], k % 13 + 1)
  }

  function TraditionalCards(): (deck: seq<Card>)
    ensures |deck| == 52
  {
    seq(52, k requires 0 <= k < 52 => TraditionalCardAt(k))
  }

  lemma PrefixStep(s: seq<Card>, n: nat)
    requires n < |s|
    ensures s[..n + 1] == s[..n] + [s[n]]
  {
  }

  lemma DivMod13(q: int, r: int)
    requires 0 <= q && 0 <= r < 13
    ensures (13 * q + r) / 13 == q && (13 * q + r) % 13 == r
  {
  }

  /** Card (suit s, pips p) sits at index 13 * s + (p - 1) of the generated deck. */
  lemma TraditionalCardsAt(suit: Suit, pips: int)
    requires 1 <= pips <= 13
    ensures 13 * SuitIndex(suit) + pips - 1 < 52
    ensures TraditionalCards()[13 * SuitIndex(suit) + pips - 1] == NewCard(suit, pips)
  {
    DivMod13(SuitIndex(suit), pips - 1);
  }

  /** The generated deck holds no card twice. */
  lemma TraditionalCardsDistinct(i: nat, j: nat)
    requires i < 52 && j < 52 && i != j
    ensures TraditionalCards()[i] != TraditionalCards()[j]
  {
  }

  /** A card is in the generated deck exactly when it is a properly made card with pips 1 to 13. */
  lemma TraditionalCardsMembership(c: Card)
    ensures c in TraditionalCards() <==> 1 <= c.pips <= 13 && c == NewCard(c.suit, c.pips)
  {
    if 1 <= c.pips <= 13 && c == NewCard(c.suit, c.pips) {
      TraditionalCardsAt(c.suit, c.pips);
    }
  }

  // ---------------------------------------------------------------------
  // Taking cards out by index

  /** The cards with index i removed; the others keep their order. */
  function RemoveAt(cards: seq<Card>, i: nat): (rest: seq<Card>)
    requires i < |cards|
    ensures |rest| == |cards| - 1
    ensures multiset(rest) + multiset{cards[i]} == multiset(cards)
  {
    assert cards == cards[..i] + [cards[i]] + cards[i + 1..];
    cards[..i] + cards[i + 1..]
  }

  /**
   * Indices to take one after the other out of n cards: the k-th index
   * refers to what is left after the k earlier removals.
   */
  predicate ValidPicks(n: int, picks: seq<int>) {
    forall k :: 0 <= k < |picks| ==> 0 <= picks[k] < n - k
  }

  lemma ValidPicksTail(n: int, picks: seq<int>)
    requires ValidPicks(n, picks) && picks != []
    ensures 0 <= picks[0] < n && ValidPicks(n - 1, picks[1..])
  {
    assert picks[0] == picks[0..][0];
    forall k | 0 <= k < |picks[1..]| ensures 0 <= picks[1..][k] < n - 1 - k {
      assert picks[1..][k] == picks[k + 1];
    }
  }

  /** The cards taken, in the order taken, and the cards left, in their order. */
  function TakeAll(cards: seq<Card>, picks: seq<int>): (r: (seq<Card>, seq<Card>))
    requires ValidPicks(|cards|, picks)
    ensures |r.0| == |picks| && |r.1| == |cards| - |picks|
    ensures multiset(r.0) + multiset(r.1) == multiset(cards)
    decreases picks
  {
    if picks == [] then ([], cards)
    else
      var rest := TakeAll(RemoveAt(cards, picks[0]), picks[1..]);
      ([cards[picks[0]]] + rest.0, rest.1)
  }

  /** One step of TakeAll: the card at the first index, then the rest taken from what is left. */
  lemma TakeAllStep(cards: seq<Card>, picks: seq<int>)
    requires ValidPicks(|cards|, picks) && picks != []
    ensures 0 <= picks[0] < |cards| && ValidPicks(|cards| - 1, picks[1..])
    ensures TakeAll(cards, picks).0 == [cards[picks[0]]] + TakeAll(RemoveAt(cards, picks[0]), picks[1..]).0
    ensures TakeAll(cards, picks).1 == TakeAll(RemoveAt(cards, picks[0]), picks[1..]).1
  {
    ValidPicksTail(|cards|, picks);
  }

  /** TakeAll from the i-th index on, one step unfolded: the form a loop over the indices needs. */
  lemma TakeAllFrom(cards: seq<Card>, picks: seq<int>, i: nat)
    requires i < |picks| && ValidPicks(|cards|, picks[i..])
    ensures 0 <= picks[i] < |cards| && ValidPicks(|cards| - 1, picks[i + 1..])
    ensures TakeAll(cards, picks[i..]).0 == [cards[picks[i]]] + TakeAll(RemoveAt(cards, picks[i]), picks[i + 1..]).0
    ensures TakeAll(cards, picks[i..]).1 == TakeAll(RemoveAt(cards, picks[i]), picks[i + 1..]).1
  {
    assert picks[i..][0] == picks[i] && picks[i..][1..] == picks[i + 1..];
    TakeAllStep(cards, picks[i..]);
  }

  /** What a loop that consumes s from the front learns when the suffix from i is x followed by t. */
  lemma ConsSuffix(s: seq<Card>, i: nat, x: Card, t: seq<Card>)
    requires i < |s| && s[i..] == [x] + t
    ensures s[i] == x && t == s[i + 1..] && s[..i + 1] == s[..i] + [x]
  {
    assert s[i..][0] == s[i];
    assert s[i..][1..] == s[i + 1..];
  }

  /** The shuffle's output: every card taken, one random index at a time. */
  function Shuffled(cards: seq<Card>, picks: seq<int>): (r: seq<Card>)
    requires |picks| == |cards| && ValidPicks(|cards|, picks)
    ensures |r| == |cards|
    ensures multiset(r) == multiset(cards)
  {
    var t := TakeAll(cards, picks);
    assert multiset(t.1) == multiset{};
    t.0
  }

  function IndexOf(cards: seq<Card>, c: Card): (i: nat)
    requires c in cards
    ensures i < |cards| && cards[i] == c
  {
    if cards[0] == c then 0 else 1 + IndexOf(cards[1..], c)
  }

  /** The random indices under which the shuffle yields `target`. */
  function PicksFor(cards: seq<Card>, target: seq<Card>): (picks: seq<int>)
    requires multiset(cards) == multiset(target)
    ensures |picks| == |cards| && ValidPicks(|cards|, picks)
    decreases |target|
  {
    if target == [] then []
    else
      RemoveFirstOf(cards, target);
      var i := IndexOf(cards, target[0]);
      var rest := PicksFor(RemoveAt(cards, i), target[1..]);
      ValidPicksCons(|cards|, i, rest);
      [i as int] + rest
  }

  /** Where the shuffle can take target's first card from, and what is left to match the rest of target. */
  lemma RemoveFirstOf(cards: seq<Card>, target: seq<Card>)
    requires multiset(cards) == multiset(target) && target != []
    ensures target[0] in cards
    ensures multiset(RemoveAt(cards, IndexOf(cards, target[0]))) == multiset(target[1..])
  {
    assert target[0] in multiset(cards);
    var i := IndexOf(cards, target[0]);
    assert target == [target[0]] + target[1..];
    assert multiset(target) == multiset{target[0]} + multiset(target[1..]);
    assert multiset(RemoveAt(cards, i)) == multiset(cards) - multiset{target[0]};
  }

  lemma ValidPicksCons(n: int, i: int, rest: seq<int>)
    requires 0 <= i < n && ValidPicks(n - 1, rest)
    ensures ValidPicks(n, [i] + rest)
  {
    forall k | 0 <= k < |[i] + rest| ensures 0 <= ([i] + rest)[k] < n - k {
      if k > 0 { assert ([i] + rest)[k] == rest[k - 1]; }
    }
  }

  /** Every ordering of the same cards is a possible outcome of the shuffle. */
  lemma {:induction false} ShuffleReachesEveryOrder(cards: seq<Card>, target: seq<Card>)
    requires multiset(cards) == multiset(target)
    ensures Shuffled(cards, PicksFor(cards, target)) == target
    decreases |target|
  {
    if target != [] {
      RemoveFirstOf(cards, target);
      var i := IndexOf(cards, target[0]);
      var rest := RemoveAt(cards, i);
      var picks := PicksFor(cards, target);
      assert picks[0] == i && picks[1..] == PicksFor(rest, target[1..]);
      calc {
        Shuffled(cards, picks);
        { TakeAllStep(cards, picks); }
        [target[0]] + Shuffled(rest, picks[1..]);
        { ShuffleReachesEveryOrder(rest, target[1..]); }
        [target[0]] + target[1..];
        target;
      }
    }
  }

  // ---------------------------------------------------------------------
  // Sorting by pips

  /** Ascending in pips. */
  predicate Ascending(cards: seq<Card>) {
    forall i, j :: 0 <= i < j < |cards| ==> cards[i].pips <= cards[j].pips
  }

  /** Puts c in front of the first card whose pips are not below its own. */
  function InsertByPips(c: Card, cards: seq<Card>): (r: seq<Card>)
    ensures multiset(r) == multiset{c} + multiset(cards)
  {
    if cards == [] || c.pips <= cards[0].pips then [c] + cards
    else
      assert cards == [cards[0]] + cards[1..];
      [cards[0]] + InsertByPips(c, cards[1..])
  }

  lemma {:induction false} InsertKeepsAscending(c: Card, cards: seq<Card>)
    requires Ascending(cards)
    ensures Ascending(InsertByPips(c, cards))
  {
    if cards != [] && c.pips > cards[0].pips {
      InsertKeepsAscending(c, cards[1..]);
      var tail := InsertByPips(c, cards[1..]);
      forall x | x in tail ensures cards[0].pips <= x.pips {
        assert x in multiset(tail);
        if x != c {
          assert x in cards[1..];
          var j :| 0 <= j < |cards[1..]| && cards[1..][j] == x;
          assert cards[j + 1] == x;
        }
      }
      LeastThenAscending(cards[0], tail);
    }
  }

  lemma LeastThenAscending(x: Card, tail: seq<Card>)
    requires Ascending(tail)
    requires forall y :: y in tail ==> x.pips <= y.pips
    ensures Ascending([x] + tail)
  {
    var r := [x] + tail;
    forall i, j | 0 <= i < j < |r| ensures r[i].pips <= r[j].pips {
      assert r[j] == tail[j - 1];
      if i > 0 { assert r[i] == tail[i - 1]; }
    }
  }

  /** The array sort of the source with comparator `c1.pips - c2.pips`: an insertion sort, stable like the built-in one. */
  function SortByPips(cards: seq<Card>): (r: seq<Card>)
    ensures multiset(r) == multiset(cards)
    ensures Ascending(r)
  {
    if cards == [] then []
    else
      var rest := SortByPips(cards[1..]);
      assert cards == [cards[0]] + cards[1..];
      InsertKeepsAscending(cards[0], rest);
      InsertByPips(cards[0], rest)
  }

  /** The same cards, last first. */
  function Reversed(cards: seq<Card>): (r: seq<Card>)
    ensures |r| == |cards|
  {
    seq(|cards|, i requires 0 <= i < |cards| => cards[|cards| - 1 - i])
  }

  /** Reversing twice gives the cards back. */
  lemma ReversedTwice(cards: seq<Card>)
    ensures Reversed(Reversed(cards)) == cards
  {
  }

  /** Reversal moves the first card to the end of the reversed rest. */
  lemma ReversedCons(cards: seq<Card>)
    requires cards != []
    ensures Reversed(cards) == Reversed(cards[1..]) + [cards[0]]
  {
  }

  /** Reversal is a permutation. */
  lemma {:induction false} ReversedPermutes(cards: seq<Card>)
    ensures multiset(Reversed(cards)) == multiset(cards)
    decreases |cards|
  {
    if cards != [] {
      ReversedCons(cards);
      ReversedPermutes(cards[1..]);
      assert cards == [cards[0]] + cards[1..];
    }
  }

  /** The cards with the given pips, in their order. */
  function WithPips(cards: seq<Card>, pips: int): seq<Card> {
    if cards == [] then []
    else (if cards[0].pips == pips then [cards[0]] else []) + WithPips(cards[1..], pips)
  }

  lemma WithPipsCons(c: Card, cards: seq<Card>, pips: int)
    ensures WithPips([c] + cards, pips) == (if c.pips == pips then [c] else []) + WithPips(cards, pips)
  {
    assert ([c] + cards)[1..] == cards;
  }

  lemma {:induction false} WithPipsInsert(c: Card, cards: seq<Card>, pips: int)
    ensures WithPips(InsertByPips(c, cards), pips)
         == (if c.pips == pips then [c] else []) + WithPips(cards, pips)
  {
    if cards == [] || c.pips <= cards[0].pips {
      WithPipsCons(c, cards, pips);
    } else {
      WithPipsInsert(c, cards[1..], pips);
      WithPipsCons(cards[0], InsertByPips(c, cards[1..]), pips);
    }
  }

  /** The sort is stable: cards of equal pips keep their relative order. */
  lemma {:induction false} SortByPipsStable(cards: seq<Card>, pips: int)
    ensures WithPips(SortByPips(cards), pips) == WithPips(cards, pips)
  {
    if cards != [] {
      SortByPipsStable(cards[1..], pips);
      WithPipsInsert(cards[0], SortByPips(cards[1..]), pips);
    }
  }

  // ---------------------------------------------------------------------
  // Holding back Aces and Twos

  /** Held back to the end of the hand: an Ace when Aces count 14, a Two when Twos count 15. */
  predicate IsHeld(c: Card, aceIsFourteen: bool, twoIsFifteen: bool) {
    (aceIsFourteen && c.pips == 1) || (twoIsFifteen && c.pips == 2)
  }

  /** The cards whose held status is `held`, in their order. */
  function Keep(cards: seq<Card>, held: bool, aceIsFourteen: bool, twoIsFifteen: bool): (r: seq<Card>)
    ensures forall c :: c in r ==> c in cards && IsHeld(c, aceIsFourteen, twoIsFifteen) == held
    decreases |cards|
  {
    if cards == [] then []
    else
      var last := cards[|cards| - 1];
      Keep(cards[..|cards| - 1], held, aceIsFourteen, twoIsFifteen)
        + (if IsHeld(last, aceIsFourteen, twoIsFifteen) == held then [last] else [])
  }

  /** Keep on a sequence with one more card at the end. */
  lemma KeepSnoc(init: seq<Card>, last: Card, held: bool, aceIsFourteen: bool, twoIsFifteen: bool)
    ensures Keep(init + [last], held, aceIsFourteen, twoIsFifteen)
         == Keep(init, held, aceIsFourteen, twoIsFifteen)
            + (if IsHeld(last, aceIsFourteen, twoIsFifteen) == held then [last] else [])
  {
    assert (init + [last])[..|init|] == init;
  }

  lemma {:induction false} KeepSplits(cards: seq<Card>, aceIsFourteen: bool, twoIsFifteen: bool)
    ensures multiset(Keep(cards, false, aceIsFourteen, twoIsFifteen))
          + multiset(Keep(cards, true, aceIsFourteen, twoIsFifteen)) == multiset(cards)
    decreases |cards|
  {
    if cards != [] {
      var init, last := cards[..|cards| - 1], cards[|cards| - 1];
      assert cards == init + [last];
      KeepSplits(init, aceIsFourteen, twoIsFifteen);
      KeepSnoc(init, last, false, aceIsFourteen, twoIsFifteen);
      KeepSnoc(init, last, true, aceIsFourteen, twoIsFifteen);
    }
  }

  lemma {:induction false} KeepAscending(cards: seq<Card>, held: bool, aceIsFourteen: bool, twoIsFifteen: bool)
    requires Ascending(cards)
    ensures Ascending(Keep(cards, held, aceIsFourteen, twoIsFifteen))
    decreases |cards|
  {
    if cards != [] {
      var init := cards[..|cards| - 1];
      assert Ascending(init);
      KeepAscending(init, held, aceIsFourteen, twoIsFifteen);
      var k := Keep(init, held, aceIsFourteen, twoIsFifteen);
      forall x | x in k ensures x.pips <= cards[|cards| - 1].pips {
        var i :| 0 <= i < |init| && init[i] == x;
      }
    }
  }

  /** The hand after the source's sort: the non-held cards ascending, then the held cards ascending. */
  function SortedHand(cards: seq<Card>, aceIsFourteen: bool, twoIsFifteen: bool): seq<Card> {
    var sorted := SortByPips(cards);
    Keep(sorted, false, aceIsFourteen, twoIsFifteen) + Keep(sorted, true, aceIsFourteen, twoIsFifteen)
  }

  /** The number of cards in a hand that are not held back. */
  function RegularCount(cards: seq<Card>, aceIsFourteen: bool, twoIsFifteen: bool): nat {
    |Keep(SortByPips(cards), false, aceIsFourteen, twoIsFifteen)|
  }

  /**
   * The shape of a sorted hand: its first k cards are the non-held ones,
   * ascending in pips; the cards from k on are the held ones, ascending in
   * pips too.
   */
  predicate HeldLast(r: seq<Card>, k: int, aceIsFourteen: bool, twoIsFifteen: bool) {
    0 <= k <= |r| &&
    (forall i :: 0 <= i < |r| ==> (IsHeld(r[i], aceIsFourteen, twoIsFifteen) <==> k <= i)) &&
    (forall i, j :: 0 <= i < j < k ==> r[i].pips <= r[j].pips) &&
    (forall i, j :: k <= i < j < |r| ==> r[i].pips <= r[j].pips)
  }

  /** The sorted hand is a permutation of the hand with the HeldLast shape, split after RegularCount cards. */
  lemma SortedHandSpec(cards: seq<Card>, aceIsFourteen: bool, twoIsFifteen: bool)
    ensures multiset(SortedHand(cards, aceIsFourteen, twoIsFifteen)) == multiset(cards)
    ensures HeldLast(SortedHand(cards, aceIsFourteen, twoIsFifteen), RegularCount(cards, aceIsFourteen, twoIsFifteen),
                     aceIsFourteen, twoIsFifteen)
  {
    var sorted := SortByPips(cards);
    var regular := Keep(sorted, false, aceIsFourteen, twoIsFifteen);
    var held := Keep(sorted, true, aceIsFourteen, twoIsFifteen);
    KeepSplits(sorted, aceIsFourteen, twoIsFifteen);
    KeepAscending(sorted, false, aceIsFourteen, twoIsFifteen);
    KeepAscending(sorted, true, aceIsFourteen, twoIsFifteen);
    ConcatHeldLast(regular, held, aceIsFourteen, twoIsFifteen);
  }

  lemma ConcatHeldLast(regular: seq<Card>, held: seq<Card>, aceIsFourteen: bool, twoIsFifteen: bool)
    requires forall c :: c in regular ==> !IsHeld(c, aceIsFourteen, twoIsFifteen)
    requires forall c :: c in held ==> IsHeld(c, aceIsFourteen, twoIsFifteen)
    requires Ascending(regular) && Ascending(held)
    ensures HeldLast(regular + held, |regular|, aceIsFourteen, twoIsFifteen)
  {
    var r := regular + held;
    forall i | 0 <= i < |r|
      ensures IsHeld(r[i], aceIsFourteen, twoIsFifteen) <==> |regular| <= i
    {
      if i < |regular| { assert r[i] in regular; } else { assert r[i] == held[i - |regular|]; }
    }
    forall i, j | |regular| <= i < j < |r| ensures r[i].pips <= r[j].pips {
      assert r[i] == held[i - |regular|] && r[j] == held[j - |regular|];
    }
  }

  /** With both Aces and Twos promoted, every Ace of the sorted hand comes before every Two. */
  lemma SortedHandAcesBeforeTwos(cards: seq<Card>, i: int, j: int)
    requires 0 <= i < |SortedHand(cards, true, true)| && 0 <= j < |SortedHand(cards, true, true)|
    requires SortedHand(cards, true, true)[i].pips == 1 && SortedHand(cards, true, true)[j].pips == 2
    ensures i < j
  {
    var r := SortedHand(cards, true, true);
    SortedHandSpec(cards, true, true);
    HeldLastAcesBeforeTwos(r, RegularCount(cards, true, true), i, j);
  }

  lemma HeldLastAcesBeforeTwos(r: seq<Card>, k: int, i: int, j: int)
    requires HeldLast(r, k, true, true)
    requires 0 <= i < |r| && 0 <= j < |r| && r[i].pips == 1 && r[j].pips == 2
    ensures i < j
  {
    assert IsHeld(r[i], true, true) && IsHeld(r[j], true, true);
  }

  /** In the HeldLast shape the last card is the held card with the most pips when any card is held, and the card with the most pips when none is. */
  lemma HeldLastLast(r: seq<Card>, k: int, aceIsFourteen: bool, twoIsFifteen: bool)
    requires HeldLast(r, k, aceIsFourteen, twoIsFifteen) && |r| > 0
    ensures (exists c :: c in r && IsHeld(c, aceIsFourteen, twoIsFifteen)) ==>
      IsHeld(r[|r| - 1], aceIsFourteen, twoIsFifteen) &&
      forall c :: c in r && IsHeld(c, aceIsFourteen, twoIsFifteen) ==> c.pips <= r[|r| - 1].pips
    ensures (forall c :: c in r ==> !IsHeld(c, aceIsFourteen, twoIsFifteen)) ==>
      forall c :: c in r ==> c.pips <= r[|r| - 1].pips
  {
    forall c | c in r
      ensures IsHeld(c, aceIsFourteen, twoIsFifteen) ==> IsHeld(r[|r| - 1], aceIsFourteen, twoIsFifteen) && c.pips <= r[|r| - 1].pips
    {
      var i :| 0 <= i < |r| && r[i] == c;
    }
    if forall c :: c in r ==> !IsHeld(c, aceIsFourteen, twoIsFifteen) {
      assert !IsHeld(r[|r| - 1], aceIsFourteen, twoIsFifteen);
      forall c | c in r ensures c.pips <= r[|r| - 1].pips {
        var i :| 0 <= i < |r| && r[i] == c;
      }
    }
  }

  /** In the HeldLast shape the first card, when anything is not held, is the non-held card with the fewest pips. */
  lemma HeldLastFirst(r: seq<Card>, k: int, aceIsFourteen: bool, twoIsFifteen: bool)
    requires HeldLast(r, k, aceIsFourteen, twoIsFifteen) && |r| > 0
    ensures (exists c :: c in r && !IsHeld(c, aceIsFourteen, twoIsFifteen)) ==>
      !IsHeld(r[0], aceIsFourteen, twoIsFifteen) &&
      forall c :: c in r && !IsHeld(c, aceIsFourteen, twoIsFifteen) ==> r[0].pips <= c.pips
  {
    forall c | c in r && !IsHeld(c, aceIsFourteen, twoIsFifteen)
      ensures !IsHeld(r[0], aceIsFourteen, twoIsFifteen) && r[0].pips <= c.pips
    {
      var i :| 0 <= i < |r| && r[i] == c;
    }
  }

  /**
   * The last card of the sorted hand, the one taken as the best: the held
   * card with the most pips when the hand holds any, otherwise the card
   * with the most pips.
   */
  lemma SortedHandLast(cards: seq<Card>, aceIsFourteen: bool, twoIsFifteen: bool)
    requires |cards| > 0
    ensures var r := SortedHand(cards, aceIsFourteen, twoIsFifteen);
      |r| == |cards| && r[|r| - 1] in cards &&
      ((exists c :: c in cards && IsHeld(c, aceIsFourteen, twoIsFifteen)) ==>
         IsHeld(r[|r| - 1], aceIsFourteen, twoIsFifteen) &&
         forall c :: c in cards && IsHeld(c, aceIsFourteen, twoIsFifteen) ==> c.pips <= r[|r| - 1].pips) &&
      ((forall c :: c in cards ==> !IsHeld(c, aceIsFourteen, twoIsFifteen)) ==>
         forall c :: c in cards ==> c.pips <= r[|r| - 1].pips)
  {
    var r := SortedHand(cards, aceIsFourteen, twoIsFifteen);
    SortedHandSpec(cards, aceIsFourteen, twoIsFifteen);
    SameElements(r, cards);
    HeldLastLast(r, RegularCount(cards, aceIsFourteen, twoIsFifteen), aceIsFourteen, twoIsFifteen);
  }

  /**
   * The first card of the sorted hand, the one taken as the worst: when the
   * hand has a card that is not held, the non-held card with the fewest pips.
   */
  lemma SortedHandFirst(cards: seq<Card>, aceIsFourteen: bool, twoIsFifteen: bool)
    requires |cards| > 0
    ensures var r := SortedHand(cards, aceIsFourteen, twoIsFifteen);
      |r| == |cards| && r[0] in cards &&
      ((exists c :: c in cards && !IsHeld(c, aceIsFourteen, twoIsFifteen)) ==>
         !IsHeld(r[0], aceIsFourteen, twoIsFifteen) &&
         forall c :: c in cards && !IsHeld(c, aceIsFourteen, twoIsFifteen) ==> r[0].pips <= c.pips)
  {
    var r := SortedHand(cards, aceIsFourteen, twoIsFifteen);
    SortedHandSpec(cards, aceIsFourteen, twoIsFifteen);
    SameElements(r, cards);
    HeldLastFirst(r, RegularCount(cards, aceIsFourteen, twoIsFifteen), aceIsFourteen, twoIsFifteen);
  }

  lemma SameElements(a: seq<Card>, b: seq<Card>)
    requires multiset(a) == multiset(b)
    ensures |a| == |b| && forall c :: c in a <==> c in b
  {
    assert |multiset(a)| == |multiset(b)|;
    forall c ensures c in a <==> c in b {
      assert c in a <==> c in multiset(a);
      assert c in b <==> c in multiset(b);
    }
  }

  /** Without promotion nothing is held back, and the sorted hand is the plain sort by pips. */
  lemma {:induction false} KeepNoneHeld(cards: seq<Card>)
    ensures Keep(cards, false, false, false) == cards
    ensures Keep(cards, true, false, false) == []
    decreases |cards|
  {
    if cards != [] {
      KeepNoneHeld(cards[..|cards| - 1]);
      assert cards == cards[..|cards| - 1] + [cards[|cards| - 1]];
    }
  }

  lemma SortedHandNoPromotion(cards: seq<Card>)
    ensures SortedHand(cards, false, false) == SortByPips(cards)
  {
    KeepNoneHeld(SortByPips(cards));
  }

  // ---------------------------------------------------------------------
  // Dealing

  /** The cards each of `players` hands gets: the count divided by the players, rounded down. */
  function HandSize(count: nat, players: nat): nat
    requires players >= 1
  {
    count / players
  }

  lemma HandBounds(count: nat, players: nat, i: nat)
    requires players >= 1 && i < players
    ensures HandSize(count, players) * (i + 1) <= HandSize(count, players) * players <= count
  {
    var k := HandSize(count, players);
    assert k * players + count % players == count;
    var d := players - (i + 1);
    assert k * players == k * (i + 1) + k * d;
  }

  /** The cards of hand i (0-based): the i-th run of HandSize cards. */
  function HandSlice(cards: seq<Card>, players: nat, i: nat): (hand: seq<Card>)
    requires players >= 1 && i < players
    ensures |hand| == HandSize(|cards|, players)
  {
    var k := HandSize(|cards|, players);
    HandBounds(|cards|, players, i);
    cards[k * i..k * (i + 1)]
  }

  /** A single player's hand is the whole deck. */
  lemma SinglePlayerGetsAll(cards: seq<Card>)
    ensures HandSlice(cards, 1, 0) == cards
  {
    assert HandSize(|cards|, 1) == |cards|;
  }

  /** The first n hands, one after another. */
  function Dealt(cards: seq<Card>, players: nat, n: nat): seq<Card>
    requires players >= 1 && n <= players
  {
    if n == 0 then [] else Dealt(cards, players, n - 1) + HandSlice(cards, players, n - 1)
  }

  /**
   * The hands together are the deck's first players * HandSize cards, in
   * order, each card dealt once; the count mod players cards after them go
   * to no hand.
   */
  lemma {:induction false} DealtIsPrefix(cards: seq<Card>, players: nat, n: nat)
    requires players >= 1 && n <= players
    ensures HandSize(|cards|, players) * n <= |cards|
    ensures Dealt(cards, players, n) == cards[..HandSize(|cards|, players) * n]
    ensures n == players ==> |cards| - |Dealt(cards, players, n)| == |cards| % players
  {
    var k := HandSize(|cards|, players);
    if n > 0 {
      HandBounds(|cards|, players, n - 1);
      MulPred(k, n);
      calc {
        Dealt(cards, players, n);
        Dealt(cards, players, n - 1) + HandSlice(cards, players, n - 1);
        { DealtIsPrefix(cards, players, n - 1); }
        cards[..k * (n - 1)] + cards[k * (n - 1)..k * n];
        { PrefixConcat(cards, k * (n - 1), k * n); }
        cards[..k * n];
      }
    } else {
      assert k * 0 == 0;
    }
    if n == players {
      HandSizeRemainder(|cards|, players);
    }
  }

  /** The cards no hand gets number the count modulo the players. */
  lemma HandSizeRemainder(count: nat, players: nat)
    requires players >= 1
    ensures count - HandSize(count, players) * players == count % players
  {
  }

  lemma MulPred(k: int, n: int)
    ensures k * n == k * (n - 1) + k
  {
  }

  lemma PrefixConcat(s: seq<Card>, a: nat, b: nat)
    requires a <= b <= |s|
    ensures s[..b] == s[..a] + s[a..b]
  {
  }
}
