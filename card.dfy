/**
 * A playing card: its suit, its pips (1 = Ace, 11 = Jack, 12 = Queen,
 * 13 = King) and the file name of its artwork, fixed when the card is made.
 * The three static mappers of the card class are total functions to strings.
 */
module Cards {
  import opened Options
  import opened Decimal

  /** The four French suits, in the order of the `Suits` enumeration. */
  datatype Suit = Clubs | Diamonds | Hearts | Spades

  /**
   * A card value. `pips` is a JavaScript number in the source; the model
   * takes it to be an integer. Nothing changes a card once it is made.
   * The cards the game handles are the ones NewCard makes, whose
   * `imageURI` is the ImageAsset of their suit and pips; the type itself
   * does not enforce that.
   */
  datatype Card = Card(suit: Suit, pips: int, imageURI: string)

  /** The card constructor: stores suit and pips and derives the artwork name from them. */
  function NewCard(suit: Suit, pips: int): (c: Card)
    ensures c.suit == suit && c.pips == pips
    ensures c.imageURI == ImageAsset(suit, pips)
    ensures ParseImageAsset(c.imageURI) == Some((suit, pips))
  {
    ParseImageAssetRoundTrip(suit, pips);
    Card(suit, pips, ImageAsset(suit, pips))
  }

  // ---------------------------------------------------------------------
  // Artwork file name

  /** The one-letter code of a suit in an artwork file name. */
  function SuitCode(suit: Suit): char {
    match suit
    case Clubs => 'k'
    case Diamonds => 'l'
    case Hearts => 's'
    case Spades => 'p'
  }

  /** The code of a pip value in an artwork file name: a letter for the Ace and the court cards, the number otherwise. */
  function PipCode(pip: int): string {
    match pip
    case 1 => "a"
    case 11 => "j"
    case 12 => "q"
    case 13 => "k"
    case _ => IntToDecimal(pip)
  }

  /** The artwork file name: suit code, pip code, ".png". */
  function ImageAsset(suit: Suit, pip: int): (uri: string)
    ensures |uri| >= 6
    ensures uri[0] == SuitCode(suit) && uri[|uri| - 4..] == ".png"
  {
    [SuitCode(suit)] + PipCode(pip) + ".png"
  }

  function SuitOfCode(code: char): Option<Suit> {
    match code
    case 'k' => Some(Clubs)
    case 'l' => Some(Diamonds)
    case 's' => Some(Hearts)
    case 'p' => Some(Spades)
    case _ => None
  }

  function PipOfCode(code: string): Option<int> {
    if code == "a" then Some(1)
    else if code == "j" then Some(11)
    else if code == "q" then Some(12)
    else if code == "k" then Some(13)
    else ParseDecimal(code)
  }

  /** Reads the suit and pips back from an artwork file name. */
  function ParseImageAsset(uri: string): Option<(Suit, int)> {
    if |uri| < 6 || uri[|uri| - 4..] != ".png" then None
    else match (SuitOfCode(uri[0]), PipOfCode(uri[1..|uri| - 4]))
      case (Some(suit), Some(pip)) => Some((suit, pip))
      case _ => None
  }

  lemma PipCodeRoundTrip(pip: int)
    ensures PipOfCode(PipCode(pip)) == Some(pip)
  {
    if pip !in {1, 11, 12, 13} {
      var code := IntToDecimal(pip);
      assert code[0] != 'a' && code[0] != 'j' && code[0] != 'q' && code[0] != 'k';
      IntToDecimalRoundTrip(pip);
    }
  }

  /** Every artwork file name decodes to the suit and pips it was made from. */
  lemma ParseImageAssetRoundTrip(suit: Suit, pip: int)
    ensures ParseImageAsset(ImageAsset(suit, pip)) == Some((suit, pip))
  {
    var uri := ImageAsset(suit, pip);
    assert uri[1..|uri| - 4] == PipCode(pip);
    PipCodeRoundTrip(pip);
  }

  /** Two cards share an artwork file only if they have the same suit and pips. */
  lemma ImageAssetInjective(s1: Suit, p1: int, s2: Suit, p2: int)
    requires ImageAsset(s1, p1) == ImageAsset(s2, p2)
    ensures s1 == s2 && p1 == p2
  {
    ParseImageAssetRoundTrip(s1, p1);
    ParseImageAssetRoundTrip(s2, p2);
  }

  // ---------------------------------------------------------------------
  // Display names

  /** The suit's name; every value the switch does not list falls to "Spades". */
  function SuitName(suit: Suit): (name: string)
    ensures name in {"Clubs", "Diamonds", "Hearts", "Spades"}
  {
    match suit
    case Clubs => "Clubs"
    case Diamonds => "Diamonds"
    case Hearts => "Hearts"
    case _ => "Spades"
  }

  /** Distinct suits have distinct names. */
  lemma SuitNameInjective(s1: Suit, s2: Suit)
    requires SuitName(s1) == SuitName(s2)
    ensures s1 == s2
  {
    match s1
    case Clubs =>
    case Diamonds =>
    case Hearts =>
    case Spades =>
  }

  /**
   * The pip value's name: "Ace" for 1, the number for any other value below
   * 11, the court names for 11 to 13, and "Undefined" above 13.
   */
  function PipName(pips: int): (name: string)
    ensures name == "Undefined" <==> pips > 13
    ensures pips == 1 <==> name == "Ace"
  {
    if pips == 1 then "Ace"
    else if pips < 11 then IntToDecimal(pips)
    else if pips == 11 then "Jack"
    else if pips == 12 then "Queen"
    else if pips == 13 then "King"
    else "Undefined"
  }

  /** Up to the King, distinct pip values have distinct names. */
  lemma PipNameInjective(p1: int, p2: int)
    requires p1 <= 13 && p2 <= 13
    requires PipName(p1) == PipName(p2)
    ensures p1 == p2
  {
    if p1 != 1 && p1 < 11 && p2 != 1 && p2 < 11 {
      IntToDecimalInjective(p1, p2);
    }
  }

  /** Every pip value of a real card, 1 to 13, has a name other than "Undefined". */
  lemma PipNameDefinedOnDeck(pips: int)
    requires 1 <= pips <= 13
    ensures PipName(pips) != "Undefined"
    ensures forall q :: 1 <= q <= 13 && q != pips ==> PipName(q) != PipName(pips)
  {
    forall q | 1 <= q <= 13 && q != pips
      ensures PipName(q) != PipName(pips)
    {
      if PipName(q) == PipName(pips) {
        PipNameInjective(q, pips);
      }
    }
  }
}
