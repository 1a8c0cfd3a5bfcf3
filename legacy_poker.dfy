/**
 * poker.go of the legacy root package: the older single-file engine. Modelled
 * here are its circular player list, its deck, the open-seat search, card
 * naming and two unsigned helpers. Go's `uint` is taken to be 64 bits wide.
 */
module LegacyPoker {
  import opened Common
  import PokerCard
  import PokerDeck
  import PokerPlayer

  /** The part of the legacy player record the list and the seat search touch. */
  class LegacyPlayer {
    var Name: string
    var IsCPU: bool
    var IsVacant: bool
    var ChipCount: uint64

    constructor (name: string, isCPU: bool, isVacant: bool, chipCount: uint64)
      ensures Name == name && IsCPU == isCPU && IsVacant == isVacant && ChipCount == chipCount
    {
      Name, IsCPU, IsVacant, ChipCount := name, isCPU, isVacant, chipCount;
    }
  }

  class LegacyNode {
    var next: LegacyNode?
    const Player: LegacyPlayer

    constructor (player: LegacyPlayer, next: LegacyNode?)
      ensures this.Player == player && this.next == next
    {
      this.Player := player;
      this.next := next;
    }
  }

  /** The players held by a sequence of nodes, in the same order. */
  function PlayersAt(ns: seq<LegacyNode>): (ps: seq<LegacyPlayer>)
    ensures |ps| == |ns|
    ensures forall i :: 0 <= i < |ns| ==> ps[i] == ns[i].Player
  {
    if ns == [] then [] else [ns[0].Player] + PlayersAt(ns[1..])
  }

  /** The index of the first node whose player is named `name`; |ns| when there is none. */
  function NameIndex(ns: seq<LegacyNode>, name: string): (k: nat)
    reads set i | 0 <= i < |ns| :: ns[i].Player
    ensures k <= |ns|
    ensures forall j :: 0 <= j < k ==> ns[j].Player.Name != name
    ensures k < |ns| ==> ns[k].Player.Name == name
  {
    if ns == [] then 0
    else if ns[0].Player.Name == name then 0
    else 1 + NameIndex(ns[1..], name)
  }

  /**
   * Removal undoes an append: a player whose name no earlier node carries is
   * found at the tail it was appended to, and removing it gives the old nodes back.
   */
  lemma {:induction false} AppendThenRemove(ns: seq<LegacyNode>, n: LegacyNode)
    requires forall j :: 0 <= j < |ns| ==> ns[j].Player.Name != n.Player.Name
    ensures NameIndex(ns + [n], n.Player.Name) == |ns|
    ensures PokerPlayer.RemoveAt(ns + [n], |ns|) == ns
  {
    if ns != [] {
      assert (ns + [n])[1..] == ns[1..] + [n];
      AppendThenRemove(ns[1..], n);
    }
  }

  /**
   * playerList: `len` nodes reachable from `node`, each node's `next` the
   * following one and the last pointing back to `node`. `Nodes` is the ring
   * read from `node`. The zero value has no nodes and an empty name.
   */
  class LegacyList {
    var len: int
    var name: string
    var node: LegacyNode?
    ghost var Nodes: seq<LegacyNode>

    ghost predicate Valid()
      reads this, Nodes
    {
      len == |Nodes|
      && (forall i, j :: 0 <= i < j < |Nodes| ==> Nodes[i] != Nodes[j])
      && (forall i :: 0 <= i < |Nodes| - 1 ==> Nodes[i].next == Nodes[i + 1])
      && (|Nodes| > 0 ==> Nodes[|Nodes| - 1].next == Nodes[0])
      && node == (if |Nodes| == 0 then null else Nodes[0])
    }

    /** The players in list order, from `node`. */
    ghost function Players(): seq<LegacyPlayer>
      reads this
    {
      PlayersAt(Nodes)
    }

    /** The zero value `playerList{}`. */
    constructor ()
      ensures Valid() && len == 0 && name == "" && Nodes == []
    {
      len, name, node, Nodes := 0, "", null, [];
    }

    /**
     * Init: fewer than two players is an error that leaves the list as it was;
     * otherwise the list becomes a ring of fresh nodes for `players`, in order.
     */
    method Init(name: string, players: seq<LegacyPlayer>) returns (err: Option<Error>)
      modifies this
      ensures |players| < 2 ==>
        err == Some(Error("playerList(): Init(): players param must be >= 2"))
        && len == old(len) && this.name == old(this.name) && node == old(node) && Nodes == old(Nodes)
      ensures |players| >= 2 ==> err.None? && Valid() && this.name == name && len == |players|
      ensures |players| >= 2 ==> Players() == players && forall i :: 0 <= i < |Nodes| ==> fresh(Nodes[i])
    {
      if |players| < 2 {
        return Some(Error("playerList(): Init(): players param must be >= 2"));
      }
      var head := new LegacyNode(players[0], null);
      var cur := head;
      ghost var ns := [head];
      var i := 1;
      while i < |players|
        invariant 1 <= i <= |players|
        invariant |ns| == i && ns[0] == head && ns[i - 1] == cur
        invariant forall k :: 0 <= k < i ==> ns[k].Player == players[k] && fresh(ns[k])
        invariant forall k :: 0 <= k < i - 1 ==> ns[k].next == ns[k + 1]
        invariant forall k, l :: 0 <= k < l < i ==> ns[k] != ns[l]
      {
        var n := new LegacyNode(players[i], null);
        cur.next := n;
        cur := n;
        ns := ns + [n];
        i := i + 1;
      }
      cur.next := head;
      this.name, node, len, Nodes := name, head, |players|, ns;
      return None;
    }

    /**
     * A new list with fresh nodes for the same players in the same order.
     * Cloning an empty list gives the zero value, whose name is empty rather
     * than `newName`.
     */
    method Clone(newName: string) returns (c: LegacyList)
      requires Valid()
      ensures fresh(c) && c.Valid() && c.Players() == Players()
      ensures c.name == if len == 0 then "" else newName
      ensures forall i :: 0 <= i < |c.Nodes| ==> fresh(c.Nodes[i])
    {
      c := new LegacyList();
      if len == 0 {
        return;
      }
      if len == 1 {
        var n := new LegacyNode(node.Player, null);
        n.next := n;
        c.name, c.node, c.len, c.Nodes := newName, n, 1, [n];
        return;
      }
      var players := ToPlayerArray();
      var err := c.Init(newName, players);
    }

    /** Appends a fresh node for `player` at the tail, just before `node`. */
    method AddPlayer(player: LegacyPlayer)
      requires Valid()
      modifies this, Nodes
      ensures Valid() && name == old(name)
      ensures len == old(len) + 1
      ensures Nodes[..old(len)] == old(Nodes) && fresh(Nodes[old(len)]) && Nodes[old(len)].Player == player
      ensures Players() == old(Players()) + [player]
      ensures old(len) > 0 ==> node == old(node)
    {
      if len == 0 {
        var n := new LegacyNode(player, null);
        n.next := n;
        node := n;
        Nodes := [n];
      } else {
        var newNode := new LegacyNode(player, node);
        var cur := node;
        var i := 0;
        while i < len - 1
          invariant 0 <= i <= len - 1
          invariant cur == Nodes[i]
        {
          cur := cur.next;
          i := i + 1;
        }
        cur.next := newNode;
        Nodes := Nodes + [newNode];
      }
      len := len + 1;
    }

    /**
     * Unlinks the first node whose player has `player`'s name and returns the
     * node after it (the new `node` when the head was removed). Null when the
     * list is empty, `player` is null, the name is absent (and then `len` is
     * kept) or the only node was removed.
     */
    method RemovePlayer(player: LegacyPlayer?) returns (r: LegacyNode?)
      requires Valid()
      modifies this, Nodes
      ensures Valid() && name == old(name)
      ensures (old(len) == 0 || player == null) ==> Nodes == old(Nodes) && r == null
      ensures old(len) > 0 && player != null && old(NameIndex(Nodes, player.Name)) == old(len) ==>
                Nodes == old(Nodes) && r == null
      ensures old(len) > 0 && player != null && old(NameIndex(Nodes, player.Name)) < old(len) ==>
                Nodes == PokerPlayer.RemoveAt(old(Nodes), old(NameIndex(Nodes, player.Name)))
      ensures old(len) == 1 && player != null && old(NameIndex(Nodes, player.Name)) == 0 ==> r == null
      ensures old(len) > 1 && player != null && old(NameIndex(Nodes, player.Name)) < old(len) ==>
                r == old(var k := NameIndex(Nodes, player.Name); if k + 1 < len then Nodes[k + 1] else Nodes[0])
    {
      if len == 0 || player == null {
        return null;
      }
      ghost var k := NameIndex(Nodes, player.Name);
      var cur, prevNode := node, node;
      var i := 0;
      var found := false;
      while i < len && !found
        invariant 0 <= i <= len && i <= k
        invariant found ==> i < len && i == k
        invariant i < len ==> cur == Nodes[i]
        invariant prevNode == Nodes[if i == 0 then 0 else i - 1]
        decreases len - i, if found then 0 else 1
      {
        if cur.Player.Name == player.Name {
          found := true;
        } else {
          prevNode := cur;
          cur := cur.next;
          i := i + 1;
        }
      }
      if !found {
        // the deferred decrement is skipped
        return null;
      }
      if i == 0 {
        if len == 1 {
          node := null;
          Nodes := [];
          len := len - 1;
          return null;
        }
        r := UnlinkHead();
      } else {
        r := UnlinkAfter(prevNode, i);
      }
    }

    /** The head branch of RemovePlayer: the second node becomes `node` and the tail is relinked to it. */
    method UnlinkHead() returns (r: LegacyNode?)
      requires Valid() && len > 1
      modifies this, Nodes
      ensures Valid() && name == old(name)
      ensures Nodes == old(Nodes)[1..] && r == node == old(Nodes)[1]
    {
      node := node.next;
      var tailNode := node;
      var j := 0;
      while j < len - 2
        invariant 0 <= j <= len - 2
        invariant tailNode == Nodes[j + 1]
      {
        tailNode := tailNode.next;
        j := j + 1;
      }
      tailNode.next := node;
      Nodes := Nodes[1..];
      len := len - 1;
      return node;
    }

    /** The other branch of RemovePlayer: the node before position i skips over it. */
    method UnlinkAfter(prevNode: LegacyNode, i: nat) returns (r: LegacyNode?)
      requires Valid() && 0 < i < len && prevNode == Nodes[i - 1]
      modifies this, Nodes
      ensures Valid() && name == old(name)
      ensures Nodes == PokerPlayer.RemoveAt(old(Nodes), i)
      ensures r == if i + 1 < old(len) then old(Nodes)[i + 1] else old(Nodes)[0]
    {
      ghost var ns := Nodes;
      var n := len;
      var gone := prevNode.next;
      assert gone == ns[i];
      var after := gone.next;
      prevNode.next := after;
      r := after;
      Nodes := PokerPlayer.RemoveAt(ns, i);
      len := n - 1;
      forall j | 0 <= j < |Nodes| - 1 ensures Nodes[j].next == Nodes[j + 1] {
        if j < i - 1 {
          assert Nodes[j] == ns[j] != prevNode;
        } else if j == i - 1 {
          assert Nodes[j] == prevNode && Nodes[j + 1] == ns[i + 1];
        } else {
          assert Nodes[j] == ns[j + 1] != prevNode;
        }
      }
      if |Nodes| > 0 {
        if i == n - 1 {
          assert Nodes[|Nodes| - 1] == prevNode;
        } else {
          assert Nodes[|Nodes| - 1] == ns[n - 1] != prevNode;
        }
      }
    }

    /** The players in order from `node`; nil (empty) for an empty list. */
    method ToPlayerArray() returns (players: seq<LegacyPlayer>)
      requires Valid()
      ensures players == Players()
    {
      if len == 0 {
        return [];
      }
      players := [];
      var cur := node;
      var i := 0;
      while i < len
        invariant 0 <= i <= len
        invariant players == PlayersAt(Nodes[..i])
        invariant i < len ==> cur == Nodes[i]
      {
        assert Nodes[..i + 1] == Nodes[..i] + [Nodes[i]];
        assert PlayersAt(Nodes[..i + 1]) == PlayersAt(Nodes[..i]) + [Nodes[i].Player];
        players := players + [cur.Player];
        cur := cur.next;
        i := i + 1;
      }
      assert Nodes[..len] == Nodes;
    }
  }

  // ---- cards and deck ----

  /** The legacy suits are 0..3 (clubs, diamonds, hearts, spades) and the values 2..14. */
  predicate IsLegacyCard(value: int, suit: int) {
    2 <= value <= 14 && 0 <= suit <= 3
  }

  class LegacyCard {
    var Name: string
    var FullName: string
    var Suit: int
    var NumValue: int

    constructor (suit: int, numValue: int)
      ensures Suit == suit && NumValue == numValue && Name == "" && FullName == ""
    {
      Suit, NumValue, Name, FullName := suit, numValue, "", "";
    }
  }

  /** The value text of cardNumStringMap; "" where the map has no entry. */
  function ValueName(value: int): (t: string)
    ensures t != "" <==> 2 <= value <= 14
  {
    if 2 <= value <= 14 then PokerCard.ValueText(value as PokerCard.CardVal) else ""
  }

  /** The symbol and name of cardSuitStringMap; None where the map has no entry. */
  function SuitName(suit: int): (t: Option<(char, string)>)
    ensures t.Some? <==> 0 <= suit <= 3
  {
    if suit == 0 then Some(('♣', "clubs"))
    else if suit == 1 then Some(('♦', "diamonds"))
    else if suit == 2 then Some(('♥', "hearts"))
    else if suit == 3 then Some(('♠', "spades"))
    else None
  }

  /** The flag the newer engine uses for legacy suit `suit`: 1 << suit. */
  function EngineSuit(suit: int): (s: PokerCard.Suit)
    requires 0 <= suit <= 3
    ensures PokerCard.IsSuit(s)
  {
    if suit == 0 then 1 else if suit == 1 then 2 else if suit == 2 then 4 else 8
  }

  /**
   * Fills in `Name` (value, space, symbol) and `FullName` (value, " of ",
   * suit name). An unknown value or suit is an error that leaves both as they
   * were. The names are the newer engine's for the suit flag 1 << suit.
   */
  method CardNumToString(card: LegacyCard) returns (err: Option<Error>)
    modifies card`Name, card`FullName
    ensures err.None? <==> IsLegacyCard(card.NumValue, card.Suit)
    ensures err.Some? ==> err.value == Error("cardNumToString")
    ensures err.Some? ==> card.Name == old(card.Name) && card.FullName == old(card.FullName)
    ensures err.None? ==>
      card.Name == PokerCard.CardName(card.NumValue as PokerCard.CardVal, EngineSuit(card.Suit))
      && card.FullName == PokerCard.CardFullName(card.NumValue as PokerCard.CardVal, EngineSuit(card.Suit))
  {
    var name := ValueName(card.NumValue);
    if name == "" {
      return Some(Error("cardNumToString"));
    }
    var suitName := SuitName(card.Suit);
    if suitName.None? {
      return Some(Error("cardNumToString"));
    }
    var (suit, suitFull) := suitName.value;
    card.Name := name + " " + [suit];
    card.FullName := name + " of " + suitFull;
    return None;
  }

  /** Suit and value of the k-th card of an initialised deck: suit-major, 2..14 in each suit. */
  function LegacySuitAt(k: nat): int
    requires k < 52
  {
    k / 13
  }

  function LegacyValueAt(k: nat): int
    requires k < 52
  {
    2 + k % 13
  }

  /** The legacy deck's order is the newer engine's: the same card names at every position. */
  lemma DeckOrderAgrees(k: nat)
    requires k < 52
    ensures IsLegacyCard(LegacyValueAt(k), LegacySuitAt(k))
    ensures LegacyValueAt(k) == PokerDeck.ValueAt(k) as int
    ensures EngineSuit(LegacySuitAt(k)) == PokerDeck.SuitAt(k)
  {
  }

  /** The k-th card of an initialised deck, named. */
  ghost predicate LegacyNamedAt(c: LegacyCard, k: nat)
    requires k < 52
    reads c
  {
    c.Suit == LegacySuitAt(k) && c.NumValue == LegacyValueAt(k)
    && c.Name == PokerCard.CardName(LegacyValueAt(k) as PokerCard.CardVal, EngineSuit(LegacySuitAt(k)))
    && c.FullName == PokerCard.CardFullName(LegacyValueAt(k) as PokerCard.CardVal, EngineSuit(LegacySuitAt(k)))
  }

  class LegacyDeck {
    var pos: uint64
    var cards: array<LegacyCard?>

    /** `&Deck{}`: no cards and position 0. */
    constructor ()
      ensures pos == 0 && cards.Length == 0
    {
      pos := 0;
      cards := new LegacyCard?[0];
    }

    /**
     * Init: a fresh 52-card array filled suit by suit, 2..14 within a suit, at
     * the positions `pos` counts through; `pos` ends at 0. The fill starts at
     * the current `pos`, so a deck whose position is not 0 indexes past the
     * end and panics; the state it leaves then is not described.
     */
    method Init() returns (panicked: bool)
      modifies this
      ensures panicked <==> old(pos) != 0
      ensures !panicked ==> fresh(cards) && cards.Length == 52 && pos == 0
      ensures !panicked ==> forall k :: 0 <= k < 52 ==> cards[k] != null && LegacyNamedAt(cards[k], k)
      ensures !panicked ==> forall i, j :: 0 <= i < j < 52 ==> cards[i] != cards[j]
    {
      if pos != 0 {
        return true;
      }
      var a := new LegacyCard?[52];
      var suit := 0;
      while suit <= 3
        invariant 0 <= suit <= 4 && pos == 13 * suit
        invariant forall k :: 0 <= k < pos ==> a[k] != null && LegacyNamedAt(a[k], k)
        invariant forall i, j :: 0 <= i < j < pos ==> a[i] != a[j]
      {
        FillLegacySuit(a, suit);
        suit := suit + 1;
      }
      cards := a;
      pos := 0;
      return false;
    }

    /** The inner loop of Init: the thirteen cards of `suit`, at positions pos..pos+12. */
    method FillLegacySuit(a: array<LegacyCard?>, suit: int)
      requires a.Length == 52 && 0 <= suit <= 3 && pos == 13 * suit
      requires forall k :: 0 <= k < pos ==> a[k] != null && LegacyNamedAt(a[k], k)
      requires forall i, j :: 0 <= i < j < pos ==> a[i] != a[j]
      modifies this`pos, a
      ensures pos == old(pos) + 13
      ensures forall k :: 0 <= k < pos ==> a[k] != null && LegacyNamedAt(a[k], k)
      ensures forall i, j :: 0 <= i < j < pos ==> a[i] != a[j]
    {
      var cNum := 2;
      while cNum <= 14
        invariant 2 <= cNum <= 15 && pos == 13 * suit + (cNum - 2)
        invariant forall k :: 0 <= k < pos ==> a[k] != null && LegacyNamedAt(a[k], k)
        invariant forall i, j :: 0 <= i < j < pos ==> a[i] != a[j]
      {
        var curCard := new LegacyCard(suit, cNum);
        var err := CardNumToString(curCard);
        if err.Some? {
          // Init returns this error; every value and suit of the loops has a name
          assert false;
        }
        a[pos] := curCard;
        pos := pos + 1;
        cNum := cNum + 1;
      }
    }

    /**
     * Pop: advances the position and returns the card under the old one. There
     * is no bound check; past the end the index panics (None) after the
     * increment has happened.
     */
    method Pop() returns (c: Option<LegacyCard?>)
      modifies this`pos
      ensures pos == AddWrap64(old(pos), 1)
      ensures old(pos) < cards.Length ==> c == Some(cards[old(pos)])
      ensures old(pos) >= cards.Length ==> c.None?
    {
      pos := AddWrap64(pos, 1);
      var idx := SubWrap64(pos, 1);
      if idx < cards.Length {
        c := Some(cards[idx]);
      } else {
        c := None;
      }
    }
  }

  // ---- seats ----

  /** The index of the first vacant seat; |ps| when none is vacant. */
  function FirstVacant(ps: seq<LegacyPlayer>): (k: nat)
    reads set i | 0 <= i < |ps| :: ps[i]
    ensures k <= |ps|
    ensures forall j :: 0 <= j < k ==> !ps[j].IsVacant
    ensures k < |ps| ==> ps[k].IsVacant
  {
    if ps == [] then 0
    else if ps[0].IsVacant then 0
    else 1 + FirstVacant(ps[1..])
  }

  class LegacyTable {
    var players: seq<LegacyPlayer>
    var NumPlayers: uint64
    var NumSeats: uint64

    constructor (players: seq<LegacyPlayer>, numSeats: uint64)
      ensures this.players == players && NumPlayers == 0 && NumSeats == numSeats
    {
      this.players, NumPlayers, NumSeats := players, 0, numSeats;
    }

    /**
     * getOpenSeat: the first vacant seat, now marked occupied, with
     * `NumPlayers` one higher; null, and nothing changed, when no seat is vacant.
     */
    method GetOpenSeat() returns (p: LegacyPlayer?)
      modifies this`NumPlayers, set i | 0 <= i < |players| :: players[i]
      ensures old(FirstVacant(players)) == |players| ==> p == null && NumPlayers == old(NumPlayers)
      ensures old(FirstVacant(players)) < |players| ==>
        p == players[old(FirstVacant(players))] && !p.IsVacant && NumPlayers == AddWrap64(old(NumPlayers), 1)
      ensures forall q :: q in players && q != p ==> q.IsVacant == old(q.IsVacant)
      ensures forall q :: q in players ==>
        q.Name == old(q.Name) && q.ChipCount == old(q.ChipCount) && q.IsCPU == old(q.IsCPU)
    {
      ghost var k := FirstVacant(players);
      var i := 0;
      while i < |players|
        invariant 0 <= i <= k
      {
        var seat := players[i];
        if seat.IsVacant {
          seat.IsVacant := false;
          NumPlayers := AddWrap64(NumPlayers, 1);
          return seat;
        }
        i := i + 1;
      }
      return null;
    }
  }

  // ---- helpers ----

  /** absUint: |x - y| computed without unsigned underflow. */
  function AbsUint(x: uint64, y: uint64): (r: uint64)
    ensures r == IntAbs(x - y)
  {
    if x > y then x - y else y - x
  }

  /** minUInt: the smaller argument. */
  function MinUInt(x: uint64, y: uint64): (r: uint64)
    ensures r <= x && r <= y && (r == x || r == y)
  {
    if x < y then x else y
  }

  lemma AbsUintSymmetric(x: uint64, y: uint64)
    ensures AbsUint(x, y) == AbsUint(y, x)
    ensures AbsUint(x, y) == x - MinUInt(x, y) + (y - MinUInt(x, y))
  {
  }
}
