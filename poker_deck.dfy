/**
 * internal/poker/deck.go: a 52-card deck with a read position.
 */
module PokerDeck {
  import opened Common
  import opened PokerCard

  /** Suit of the k-th card of a fresh deck: suits 1, 2, 4, 8 in that order, thirteen cards each. */
  function SuitAt(k: nat): (s: Suit)
    requires k < 52
    ensures IsSuit(s)
  {
    if k < 13 then SuitClub else if k < 26 then SuitDiamond else if k < 39 then SuitHeart else SuitSpade
  }

  /** Value of the k-th card of a fresh deck: 2..14 within each suit. */
  function ValueAt(k: nat): (v: CardVal)
    requires k < 52
    ensures CardTwo <= v <= CardAce
  {
    CardTwo + k % 13
  }

  /** Every (suit, value) pair of a real card occurs at exactly one position of a fresh deck. */
  lemma FreshDeckPositionsDistinct(i: nat, j: nat)
    requires i < j < 52
    ensures SuitAt(i) != SuitAt(j) || ValueAt(i) != ValueAt(j)
  {
  }

  /** The k-th card of a fresh deck: its suit, value and both names. */
  ghost predicate NamedAt(c: Card, k: nat)
    requires k < 52
    reads c
  {
    c.Suit == SuitAt(k) && c.NumValue == ValueAt(k)
    && c.Name == CardName(ValueAt(k), SuitAt(k)) && c.FullName == CardFullName(ValueAt(k), SuitAt(k))
  }

  /** The inner loop of NewDeck: the thirteen cards of one suit, at positions p..p+12. */
  method FillSuit(a: array<Card>, p: nat, suit: Suit, ghost round: nat)
    requires a.Length == 52 && round < 4 && p == 13 * round
    requires suit == if round == 0 then 1 else if round == 1 then 2 else if round == 2 then 4 else 8
    requires forall k :: 0 <= k < p ==> NamedAt(a[k], k)
    modifies a
    ensures forall k :: 0 <= k < p + 13 ==> NamedAt(a[k], k)
  {
    var q := p;
    var cNum: CardVal := CardTwo;
    while cNum <= CardAce
      invariant CardTwo <= cNum <= CardAce + 1
      invariant q == p + (cNum - CardTwo)
      invariant forall k :: 0 <= k < q ==> NamedAt(a[k], k)
    {
      var curCard := new Card(suit, cNum);
      var err := CardNumToString(curCard);
      if err.Some? {
        // NewDeck panics here; every value and suit of the loops has a name
        assert false;
      }
      a[q] := curCard;
      q := q + 1;
      cNum := cNum + 1;
    }
  }

  class Deck {
    var pos: uint64
    var cards: array<Card>
    var size: int

    ghost predicate Valid()
      reads this
    {
      size == cards.Length == 52
    }

    /** NewDeck: fills the cards suit-major and names each one; the read position ends at 0. */
    constructor ()
      ensures Valid() && fresh(cards) && pos == 0
      ensures forall k :: 0 <= k < 52 ==> NamedAt(cards[k], k)
      ensures forall i, j :: 0 <= i < j < 52 ==> cards[i] != cards[j]
    {
      size := 52;
      var placeholder := new Card(0, 0);
      var a := new Card[52](_ => placeholder);
      var p: nat := 0;
      var suit: Suit := SuitClub;
      var round := 0;
      while suit <= SuitSpade
        invariant round <= 4 && p == 13 * round
        invariant suit == if round == 0 then 1 else if round == 1 then 2 else if round == 2 then 4
                          else if round == 3 then 8 else 16
        invariant forall k :: 0 <= k < p ==> NamedAt(a[k], k)
      {
        FillSuit(a, p, suit, round);
        p := p + 13;
        suit := suit * 2;
        round := round + 1;
      }
      forall i, j | 0 <= i < j < 52 ensures a[i] != a[j] {
        FreshDeckPositionsDistinct(i, j);
      }
      cards := a;
      pos := 0;
    }

    /** The deck as a sequence of cards. */
    ghost function Contents(): seq<Card>
      reads this, cards
    {
      cards[..]
    }

    /**
     * Between one and four rounds of 52 random swaps; only swaps, so the
     * result is a permutation. The random choices are arbitrary here.
     */
    method Shuffle()
      requires Valid()
      modifies this`pos, cards
      ensures Valid() && cards == old(cards) && pos == 0
      ensures multiset(cards[..]) == multiset(old(cards[..]))
    {
      var a, n := cards, size;
      var rounds :| 1 <= rounds <= 4;
      var r := rounds;
      while r > 0
        invariant 0 <= r <= rounds
        invariant multiset(a[..]) == multiset(old(a[..]))
      {
        var i := 0;
        while i < n
          invariant 0 <= i <= n
          invariant multiset(a[..]) == multiset(old(a[..]))
        {
          var randIdx :| 0 <= randIdx < n;
          a[randIdx], a[i] := a[i], a[randIdx];
          i := i + 1;
        }
        r := r - 1;
      }
      pos := 0;
    }

    /**
     * Advances the position and returns the card under the old position.
     * There is no bound check: past the end the index expression panics
     * (None) after the increment has happened.
     */
    method Pop() returns (c: Option<Card>)
      requires Valid()
      modifies this
      ensures Valid() && cards == old(cards)
      ensures pos == AddWrap64(old(pos), 1)
      ensures old(pos) < size ==> c == Some(cards[old(pos)])
      ensures old(pos) >= size ==> c.None?
    {
      pos := AddWrap64(pos, 1);
      var idx := SubWrap64(pos, 1);
      if idx < size {
        c := Some(cards[idx]);
      } else {
        c := None;
      }
    }
  }
}
