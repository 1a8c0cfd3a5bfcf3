/**
 * internal/poker/card.go: hand ranks, card values and suit flags, the
 * `Card`, `Hole` and `Hand` records, hole-card summary, rank names, sorting
 * and reversing card lists, and card naming.
 */
module PokerCard {
  import opened Common

  type Rank = r: int | -128 <= r < 128
  const RankMuck: Rank := -1
  const RankHighCard: Rank := 0
  const RankPair: Rank := 1
  const RankTwoPair: Rank := 2
  const RankTrips: Rank := 3
  const RankStraight: Rank := 4
  const RankFlush: Rank := 5
  const RankFullHouse: Rank := 6
  const RankQuads: Rank := 7
  const RankStraightFlush: Rank := 8
  const RankRoyalFlush: Rank := 9

  type CardVal = uint8
  const CardAceLow: CardVal := 1
  const CardTwo: CardVal := 2
  const CardTen: CardVal := 10
  const CardJack: CardVal := 11
  const CardQueen: CardVal := 12
  const CardKing: CardVal := 13
  const CardAce: CardVal := 14

  type Suit = uint8
  const SuitClub: Suit := 1
  const SuitDiamond: Suit := 2
  const SuitHeart: Suit := 4
  const SuitSpade: Suit := 8

  /** A card. Its suit and value are fixed at creation; its names are filled in by `CardNumToString`. */
  class Card {
    var Name: string
    var FullName: string
    const Suit: Suit
    const NumValue: CardVal

    constructor (suit: Suit, numValue: CardVal)
      ensures Suit == suit && NumValue == numValue
      ensures Name == "" && FullName == ""
    {
      Suit, NumValue := suit, numValue;
      Name, FullName := "", "";
    }
  }

  /** A player's hole cards and what FillHoleInfo derives from the first two. */
  class Hole {
    var IsSuited: bool
    var IsPair: bool
    var Suit: Suit
    var CombinedNumValue: uint16
    var Cards: seq<Card>

    constructor ()
      ensures !IsSuited && !IsPair && Suit == 0 && CombinedNumValue == 0 && Cards == []
    {
      IsSuited, IsPair, Suit, CombinedNumValue, Cards := false, false, 0, 0, [];
    }

    /**
     * Summarises the first two hole cards. The flags are only ever set, never
     * cleared. With fewer than two cards the first index expression panics
     * before anything is written.
     */
    method FillHoleInfo() returns (panicked: bool)
      modifies this
      ensures panicked <==> |Cards| < 2
      ensures Cards == old(Cards)
      ensures panicked ==> (IsPair == old(IsPair) && IsSuited == old(IsSuited)
                            && Suit == old(Suit) && CombinedNumValue == old(CombinedNumValue))
      ensures !panicked ==> IsPair == (old(IsPair) || Cards[0].NumValue == Cards[1].NumValue)
      ensures !panicked ==> IsSuited == (old(IsSuited) || Cards[0].Suit == Cards[1].Suit)
      ensures !panicked ==> Suit == if Cards[0].Suit == Cards[1].Suit then Cards[0].Suit else old(Suit)
      ensures !panicked && Cards[0].NumValue + Cards[1].NumValue < UINT8_LIMIT ==>
        CombinedNumValue == Cards[0].NumValue + Cards[1].NumValue
      ensures !panicked && Cards[0].NumValue + Cards[1].NumValue >= UINT8_LIMIT ==>
        CombinedNumValue == Cards[0].NumValue + Cards[1].NumValue - UINT8_LIMIT
      ensures !panicked ==> CombinedNumValue == AddWrap8(Cards[0].NumValue, Cards[1].NumValue) < UINT8_LIMIT
    {
      if |Cards| < 2 {
        return true;
      }
      var cardOne, cardTwo := Cards[0], Cards[1];
      if cardOne.NumValue == cardTwo.NumValue {
        IsPair := true;
      }
      if cardOne.Suit == cardTwo.Suit {
        IsSuited := true;
        // the source ORs the two suits, which are equal here
        Suit := cardOne.Suit;
      }
      // uint8 addition, then widened to uint16
      CombinedNumValue := AddWrap8(cardOne.NumValue, cardTwo.NumValue);
      return false;
    }
  }

  datatype Hand = HandOf(Rank: Rank, Kicker: uint8, Cards: seq<Card>)

  /** The name of each defined rank; the source panics on any other value (None). */
  function RankName(rank: Rank): (r: Option<string>)
    ensures r.Some? <==> RankMuck <= rank <= RankRoyalFlush
    ensures rank == RankMuck ==> r == Some("muck")
    ensures rank == RankRoyalFlush ==> r == Some("royal flush")
  {
    match rank
    case -1 => Some("muck")
    case 0 => Some("high card")
    case 1 => Some("pair")
    case 2 => Some("two pair")
    case 3 => Some("three of a kind")
    case 4 => Some("straight")
    case 5 => Some("flush")
    case 6 => Some("full house")
    case 7 => Some("four of a kind")
    case 8 => Some("straight flush")
    case 9 => Some("royal flush")
    case _ => None
  }

  /** Distinct ranks have distinct names. */
  lemma RankNameInjective(a: Rank, b: Rank)
    requires RankName(a).Some? && RankName(a) == RankName(b)
    ensures a == b
  {
  }

  predicate SortedByValue(cards: seq<Card>) {
    forall i, j :: 0 <= i < j < |cards| ==> cards[i].NumValue <= cards[j].NumValue
  }

  /**
   * Sorts by ascending `NumValue`. The source delegates to sort.Slice, whose
   * order among equal values is unspecified, so the contract promises only a
   * sorted permutation. Implemented here by insertion.
   */
  method CardsSort(cards: seq<Card>) returns (sorted: seq<Card>)
    ensures SortedByValue(sorted)
    ensures multiset(sorted) == multiset(cards)
  {
    sorted := [];
    var i := 0;
    while i < |cards|
      invariant 0 <= i <= |cards|
      invariant SortedByValue(sorted)
      invariant multiset(sorted) == multiset(cards[..i])
    {
      sorted := Insert(sorted, cards[i]);
      assert cards[..i + 1] == cards[..i] + [cards[i]];
      i := i + 1;
    }
    assert cards[..|cards|] == cards;
  }

  /** Inserts `c` after every card of smaller or equal value. */
  method Insert(s: seq<Card>, c: Card) returns (r: seq<Card>)
    requires SortedByValue(s)
    ensures SortedByValue(r)
    ensures multiset(r) == multiset(s) + multiset{c}
  {
    var k := 0;
    while k < |s| && s[k].NumValue <= c.NumValue
      invariant 0 <= k <= |s|
      invariant forall j :: 0 <= j < k ==> s[j].NumValue <= c.NumValue
    {
      k := k + 1;
    }
    r := s[..k] + [c] + s[k..];
    assert s == s[..k] + s[k..];
  }

  /** A new list holding the cards in the opposite order; filled with one index rising as the other falls. */
  method ReverseCards(cards: seq<Card>) returns (reversed: seq<Card>)
    ensures |reversed| == |cards|
    ensures forall j :: 0 <= j < |cards| ==> reversed[j] == cards[|cards| - 1 - j]
  {
    reversed := [];
    var i, j := |cards| - 1, 0;
    while i >= 0
      invariant -1 <= i < |cards|
      invariant j == |cards| - 1 - i
      invariant |reversed| == j
      invariant forall k :: 0 <= k < j ==> reversed[k] == cards[|cards| - 1 - k]
    {
      reversed := reversed + [cards[i]];
      i, j := i - 1, j + 1;
    }
  }

  /** The text for a card value; the source's map has no entry for CardAceLow or anything outside 2..14. */
  function ValueText(v: CardVal): (t: string)
    ensures t != "" <==> CardTwo <= v <= CardAce
  {
    match v
    case 2 => "2"
    case 3 => "3"
    case 4 => "4"
    case 5 => "5"
    case 6 => "6"
    case 7 => "7"
    case 8 => "8"
    case 9 => "9"
    case 10 => "10"
    case 11 => "J"
    case 12 => "Q"
    case 13 => "K"
    case 14 => "A"
    case _ => ""
  }

  predicate IsSuit(s: Suit) {
    s == SuitClub || s == SuitDiamond || s == SuitHeart || s == SuitSpade
  }

  /** The symbol and the name of a suit flag. */
  function SuitText(s: Suit): (t: Option<(char, string)>)
    ensures t.Some? <==> IsSuit(s)
  {
    if s == SuitClub then Some(('♣', "clubs"))
    else if s == SuitDiamond then Some(('♦', "diamonds"))
    else if s == SuitHeart then Some(('♥', "hearts"))
    else if s == SuitSpade then Some(('♠', "spades"))
    else None
  }

  predicate IsNamedCard(v: CardVal, s: Suit) {
    CardTwo <= v <= CardAce && IsSuit(s)
  }

  /** The short name: value text, a space, the suit symbol. */
  function CardName(v: CardVal, s: Suit): string
    requires IsNamedCard(v, s)
  {
    ValueText(v) + " " + [SuitText(s).value.0]
  }

  /** The long name: value text, " of ", the suit name. */
  function CardFullName(v: CardVal, s: Suit): string
    requires IsNamedCard(v, s)
  {
    ValueText(v) + " of " + SuitText(s).value.1
  }

  /**
   * Fills in `Name` and `FullName` from the card's value and suit. An unknown
   * value or suit is an error and leaves both names as they were.
   */
  method CardNumToString(card: Card) returns (err: Option<Error>)
    modifies card
    ensures err.None? <==> IsNamedCard(card.NumValue, card.Suit)
    ensures err.Some? ==> err.value == Error("cardNumToString")
    ensures err.Some? ==> card.Name == old(card.Name) && card.FullName == old(card.FullName)
    ensures err.None? ==> card.Name == CardName(card.NumValue, card.Suit)
    ensures err.None? ==> card.FullName == CardFullName(card.NumValue, card.Suit)
  {
    var name := ValueText(card.NumValue);
    if name == "" {
      return Some(Error("cardNumToString"));
    }
    var suitName := SuitText(card.Suit);
    if suitName.None? {
      return Some(Error("cardNumToString"));
    }
    var (suit, suitFull) := suitName.value;
    card.Name := name + " " + [suit];
    card.FullName := name + " of " + suitFull;
    return None;
  }

  lemma ValueTextInjective(a: CardVal, b: CardVal)
    requires ValueText(a) != "" && ValueText(a) == ValueText(b)
    ensures a == b
  {
  }

  /** The short name identifies the card: no two (value, suit) pairs share one. */
  lemma {:induction false} CardNameInjective(v1: CardVal, s1: Suit, v2: CardVal, s2: Suit)
    requires IsNamedCard(v1, s1) && IsNamedCard(v2, s2)
    requires CardName(v1, s1) == CardName(v2, s2)
    ensures v1 == v2 && s1 == s2
  {
    var n1, n2 := CardName(v1, s1), CardName(v2, s2);
    assert n1[|n1| - 1] == SuitText(s1).value.0;
    assert n2[|n2| - 1] == SuitText(s2).value.0;
    assert n1[..|n1| - 2] == ValueText(v1);
    assert n2[..|n2| - 2] == ValueText(v2);
    ValueTextInjective(v1, v2);
  }
}
