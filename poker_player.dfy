/**
 * internal/poker/player.go: players, their last action, and the circular
 * singly linked list of players seated at a table.
 */
module PokerPlayer {
  import opened Common
  import opened PlayerState
  import opened PokerCard

  /** Chip counts are uint64 in the source. */
  type Chips = uint64

  datatype Action = ActionOf(Action: PlayerState, Amount: Chips)
  {
    /** Action.Clear: back to "waiting for first action" with no amount. */
    function Clear(): (r: Action)
      ensures r.Action == FirstAction && r.Amount == 0
    {
      ActionOf(FirstAction, 0)
    }
  }

  const DefaultChipCount: Chips := 100000

  class Player {
    const defaultName: string
    var Name: string
    var IsCPU: bool
    var IsVacant: bool
    var TablePos: uint64
    var ChipCount: Chips
    var Hole: Hole
    var Hand: Hand
    var PreHand: Hand
    var Action: Action

    /** NewPlayer: a vacant seat with the default chip count and fresh, empty cards. */
    constructor (name: string, isCPU: bool)
      ensures defaultName == name && Name == name && IsCPU == isCPU
      ensures IsVacant && TablePos == 0 && ChipCount == DefaultChipCount
      ensures Action == ActionOf(VacantSeat, 0)
      ensures fresh(Hole) && Hole.Cards == [] && Hand == HandOf(RankMuck, 0, [])
    {
      defaultName := name;
      Name := name;
      IsCPU := isCPU;
      IsVacant := true;
      TablePos := 0;
      ChipCount := DefaultChipCount;
      Action := ActionOf(VacantSeat, 0);
      PreHand := HandOf(0, 0, []);
      Hand := HandOf(RankMuck, 0, []);
      Hole := new Hole();
    }

    /** A fresh, empty hole and a mucked, empty hand. */
    method NewCards()
      modifies this`Hole, this`Hand
      ensures fresh(Hole) && Hole.Cards == [] && Hand == HandOf(RankMuck, 0, [])
      ensures Name == old(Name) && IsCPU == old(IsCPU) && IsVacant == old(IsVacant)
      ensures TablePos == old(TablePos) && ChipCount == old(ChipCount)
      ensures Action == old(Action) && PreHand == old(PreHand)
    {
      Hole := new Hole();
      Hand := HandOf(RankMuck, 0, []);
    }

    /** The empty name restores the default name; any other name is kept verbatim. */
    method SetName(name: string)
      modifies this`Name
      ensures Name == if name == "" then defaultName else name
    {
      if name == "" {
        Name := defaultName;
      } else {
        Name := name;
      }
    }

    /** A seated player who has not folded, gone all in or joined mid-round. */
    predicate CanBet()
      reads this
      ensures CanBet() ==> !IsVacant
      ensures CanBet() ==> Action.Action !in {MidroundAddition, Fold, AllIn}
      ensures !IsVacant && Action.Action == FirstAction ==> CanBet()
    {
      !IsVacant && Action.Action != MidroundAddition && Action.Action != Fold && Action.Action != AllIn
    }

    /** Vacates the seat and resets name, chips, cards and action. */
    method Clear()
      modifies this
      ensures Name == defaultName && IsVacant && ChipCount == DefaultChipCount
      ensures Action == ActionOf(VacantSeat, 0)
      ensures fresh(Hole) && Hole.Cards == [] && Hand == HandOf(RankMuck, 0, [])
      ensures IsCPU == old(IsCPU) && TablePos == old(TablePos) && PreHand == old(PreHand)
    {
      Name := defaultName;
      IsVacant := true;
      ChipCount := DefaultChipCount;
      NewCards();
      Action := Action.(Amount := 0);
      Action := Action.(Action := VacantSeat);
    }

    /** View of this player's current state for the client; chip amounts are formatted by `fmtChips`. */
    function ActionToString(fmtChips: Chips -> string): (s: string)
      reads this
      ensures s == "bad player state" <==> !IsPlayerState(Action.Action)
      ensures Action.Action == VacantSeat ==> s == "seat is open"
    {
      ActionTextBadIff(Action, fmtChips);
      ActionText(Action, fmtChips)
    }
  }

  /** The text of each action; the source's printer formats the amounts. */
  function ActionText(a: Action, fmtChips: Chips -> string): string
  {
    match a.Action
    case 2 => "all in (" + fmtChips(a.Amount) + " chips)"
    case 4 => "raise (bet " + fmtChips(a.Amount) + " chips)"
    case 8 => "call (" + fmtChips(a.Amount) + " chips)"
    case 16 => "check"
    case 32 => "fold"
    case 64 => "seat is open"
    case 128 => "(player's turn) waiting for action"
    case 1 => "waiting for first action"
    case 256 => "waiting to add to next round"
    case _ => "bad player state"
  }

  /** "bad player state" is produced exactly for values that are not a player state. */
  lemma ActionTextBadIff(a: Action, fmtChips: Chips -> string)
    ensures ActionText(a, fmtChips) == "bad player state" <==> !IsPlayerState(a.Action)
  {
    var s := ActionText(a, fmtChips);
    if a.Action == AllIn {
      assert s[0] == 'a';
    } else if a.Action == Bet {
      assert s[0] == 'r';
    } else if a.Action == Call {
      assert s[0] == 'c';
    }
  }

  class PlayerNode {
    var next: PlayerNode?
    const Player: Player

    constructor (player: Player, next: PlayerNode?)
      ensures this.Player == player && this.next == next
    {
      this.Player := player;
      this.next := next;
    }
  }

  /** The players held by a sequence of nodes, in the same order. */
  function PlayersOf(ns: seq<PlayerNode>): (ps: seq<Player>)
    ensures |ps| == |ns|
    ensures forall i :: 0 <= i < |ns| ==> ps[i] == ns[i].Player
  {
    if ns == [] then [] else [ns[0].Player] + PlayersOf(ns[1..])
  }

  /** Index of the first node whose player is named `name`, or |ns| when there is none. */
  function FirstWithName(ns: seq<PlayerNode>, name: string): (k: nat)
    reads set i | 0 <= i < |ns| :: ns[i].Player
    ensures k <= |ns|
    ensures forall j :: 0 <= j < k ==> ns[j].Player.Name != name
    ensures k < |ns| ==> ns[k].Player.Name == name
  {
    if ns == [] then 0
    else if ns[0].Player.Name == name then 0
    else 1 + FirstWithName(ns[1..], name)
  }

  /** `s` without its k-th element. */
  function RemoveAt<T>(s: seq<T>, k: nat): (r: seq<T>)
    requires k < |s|
    ensures |r| == |s| - 1
    ensures forall i :: 0 <= i < k ==> r[i] == s[i]
    ensures forall i :: k <= i < |r| ==> r[i] == s[i + 1]
  {
    s[..k] + s[k + 1..]
  }

  /** Removing one element keeps every other one, with its multiplicity. */
  lemma {:induction false} RemoveAtMultiset<T>(s: seq<T>, k: nat)
    requires k < |s|
    ensures multiset(RemoveAt(s, k)) + multiset{s[k]} == multiset(s)
  {
    assert s == s[..k] + [s[k]] + s[k + 1..];
    assert RemoveAt(s, k) == s[..k] + s[k + 1..];
  }

  /** Removing the head keeps the others in their cyclic order, starting from the old second node. */
  lemma RemoveAtHead<T>(s: seq<T>)
    requires |s| > 0
    ensures RemoveAt(s, 0) == s[1..]
  {
  }

  /**
   * PlayerList: `Len` nodes reachable from `Head`, each node's `next` the
   * following one and the last pointing back to `Head`. `Nodes` is the ring
   * read from `Head`.
   */
  class PlayerList {
    var Len: int
    var Name: string
    var Head: PlayerNode?
    ghost var Nodes: seq<PlayerNode>

    /** The ring shape of `Nodes`, whatever `Head` points at. */
    ghost predicate Ring()
      reads this, Nodes
    {
      Len == |Nodes|
      && (forall i, j :: 0 <= i < j < |Nodes| ==> Nodes[i] != Nodes[j])
      && (forall i :: 0 <= i < |Nodes| - 1 ==> Nodes[i].next == Nodes[i + 1])
      && (|Nodes| > 0 ==> Nodes[|Nodes| - 1].next == Nodes[0])
    }

    ghost predicate Valid()
      reads this, Nodes
    {
      Ring() && Head == (if |Nodes| == 0 then null else Nodes[0])
    }

    /** The players in list order, from `Head`. */
    ghost function Players(): seq<Player>
      reads this
    {
      PlayersOf(Nodes)
    }

    /** NewPlayerList: a ring of fresh nodes for `players`, in order; empty input gives an empty list. */
    constructor (name: string, players: seq<Player>)
      ensures Valid() && Name == name && Len == |players|
      ensures Players() == players
      ensures forall i :: 0 <= i < |Nodes| ==> fresh(Nodes[i])
    {
      Name := name;
      if |players| == 0 {
        Len, Head, Nodes := 0, null, [];
      } else {
        var head := new PlayerNode(players[0], null);
        var cur := head;
        ghost var ns := [head];
        var i := 1;
        while i < |players|
          invariant 1 <= i <= |players|
          invariant |ns| == i && ns[0] == head && ns[i - 1] == cur
          invariant forall k :: 0 <= k < i ==> ns[k].Player == players[k] && fresh(ns[k])
          invariant forall k :: 0 <= k < i - 1 ==> ns[k].next == ns[k + 1]
          invariant forall k, l :: 0 <= k < l < i ==> ns[k] != ns[l]
        {
          var n := new PlayerNode(players[i], null);
          cur.next := n;
          cur := n;
          ns := ns + [n];
          i := i + 1;
        }
        cur.next := head;
        Len, Head, Nodes := |players|, head, ns;
      }
    }

    /** A new list with fresh nodes for the same players in the same order. */
    method Clone(newName: string) returns (c: PlayerList)
      requires Valid()
      ensures fresh(c) && c.Valid() && c.Name == newName
      ensures c.Players() == Players()
      ensures forall i :: 0 <= i < |c.Nodes| ==> fresh(c.Nodes[i])
    {
      var players := ToPlayerArray();
      c := new PlayerList(newName, players);
    }

    /** Appends a fresh node for `player` at the tail, just before `Head`. */
    method AddPlayer(player: Player)
      requires Valid()
      modifies this, Nodes
      ensures Valid() && Name == old(Name)
      ensures Len == old(Len) + 1
      ensures Nodes[..old(Len)] == old(Nodes) && fresh(Nodes[old(Len)]) && Nodes[old(Len)].Player == player
      ensures Players() == old(Players()) + [player]
      ensures old(Len) > 0 ==> Head == old(Head)
    {
      if Len == 0 {
        var n := new PlayerNode(player, null);
        n.next := n;
        Head := n;
        Nodes := [n];
      } else {
        var newNode := new PlayerNode(player, Head);
        var node := Head;
        var i := 0;
        while i < Len - 1
          invariant 0 <= i <= Len - 1
          invariant node == Nodes[i]
        {
          node := node.next;
          i := i + 1;
        }
        node.next := newNode;
        Nodes := Nodes + [newNode];
      }
      Len := Len + 1;
      assert PlayersOf(Nodes) == PlayersOf(old(Nodes)) + [player];
    }

    /**
     * Unlinks the first node whose player has `player`'s name. Returns the
     * node that follows it (the new `Head` when the head was removed), or
     * null when the list is empty, `player` is null, the name is absent,
     * or the only node was removed.
     */
    method RemovePlayer(player: Player?) returns (r: PlayerNode?)
      requires Valid()
      modifies this, Nodes
      ensures Valid() && Name == old(Name)
      ensures (old(Len) == 0 || player == null) ==> Nodes == old(Nodes) && r == null
      ensures old(Len) > 0 && player != null && old(FirstWithName(Nodes, player.Name)) == old(Len) ==>
                Nodes == old(Nodes) && r == null
      ensures old(Len) > 0 && player != null && old(FirstWithName(Nodes, player.Name)) < old(Len) ==>
                Nodes == RemoveAt(old(Nodes), old(FirstWithName(Nodes, player.Name)))
      ensures old(Len) == 1 && player != null && old(FirstWithName(Nodes, player.Name)) == 0 ==> r == null
      ensures old(Len) > 1 && player != null && old(FirstWithName(Nodes, player.Name)) < old(Len) ==>
                r == old(var k := FirstWithName(Nodes, player.Name); if k + 1 < Len then Nodes[k + 1] else Nodes[0])
    {
      if Len == 0 || player == null {
        return null;
      }
      ghost var k := FirstWithName(Nodes, player.Name);
      var node, prevNode := Head, Head;
      var i := 0;
      var found := false;
      while i < Len && !found
        invariant 0 <= i <= Len && i <= k
        invariant found ==> i < Len && i == k
        invariant i < Len ==> node == Nodes[i]
        invariant prevNode == Nodes[if i == 0 then 0 else i - 1]
        decreases Len - i, if found then 0 else 1
      {
        if node.Player.Name == player.Name {
          found := true;
        } else {
          prevNode := node;
          node := node.next;
          i := i + 1;
        }
      }
      if !found {
        // not found: the deferred decrement is skipped
        return null;
      }
      if i == 0 {
        if Len == 1 {
          Head := null;
          Nodes := [];
          Len := Len - 1;
          return null;
        }
        r := UnlinkHead();
      } else {
        r := UnlinkAfter(prevNode, i);
      }
    }

    /** The head branch of RemovePlayer: the second node becomes `Head` and the tail is relinked to it. */
    method UnlinkHead() returns (r: PlayerNode?)
      requires Valid() && Len > 1
      modifies this, Nodes
      ensures Valid() && Name == old(Name)
      ensures Nodes == old(Nodes)[1..] && r == Head == old(Nodes)[1]
    {
      Head := Head.next;
      var tailNode := Head;
      var j := 0;
      while j < Len - 2
        invariant 0 <= j <= Len - 2
        invariant tailNode == Nodes[j + 1]
      {
        tailNode := tailNode.next;
        j := j + 1;
      }
      tailNode.next := Head;
      Nodes := Nodes[1..];
      Len := Len - 1;
      return Head;
    }

    /** The other branch of RemovePlayer: the node before position i skips over it. */
    method UnlinkAfter(prevNode: PlayerNode, i: nat) returns (r: PlayerNode?)
      requires Valid() && 0 < i < Len && prevNode == Nodes[i - 1]
      modifies this, Nodes
      ensures Valid() && Name == old(Name)
      ensures Nodes == RemoveAt(old(Nodes), i)
      ensures r == if i + 1 < old(Len) then old(Nodes)[i + 1] else old(Nodes)[0]
    {
      ghost var ns := Nodes;
      var n := Len;
      var node := prevNode.next;
      assert node == ns[i];
      var after := node.next;
      prevNode.next := after;
      r := after;
      Nodes := RemoveAt(ns, i);
      Len := n - 1;
      forall j | 0 <= j < |Nodes| - 1 ensures Nodes[j].next == Nodes[j + 1] {
        if j < i - 1 {
          assert Nodes[j] == ns[j] != prevNode;
        } else if j == i - 1 {
          assert Nodes[j] == prevNode && Nodes[j + 1] == ns[i + 1];
        } else {
          assert Nodes[j] == ns[j + 1] != prevNode;
        }
      }
      if |Nodes| > 0 {
        if i == n - 1 {
          assert Nodes[|Nodes| - 1] == prevNode;
        } else {
          assert Nodes[|Nodes| - 1] == ns[n - 1] != prevNode;
        }
      }
    }

    /** The first node, walking at most `Len` steps from `Head`, whose player has `player`'s name; null if none. */
    method GetPlayerNode(player: Player) returns (r: PlayerNode?)
      requires Valid()
      ensures var k := FirstWithName(Nodes, player.Name);
        r == if k < Len then Nodes[k] else null
    {
      var node := Head;
      var i := 0;
      ghost var k := FirstWithName(Nodes, player.Name);
      while i < Len
        invariant 0 <= i <= Len && i <= k
        invariant i < Len ==> node == Nodes[i]
      {
        if node.Player.Name == player.Name {
          return node;
        }
        node := node.next;
        i := i + 1;
      }
      return null;
    }

    /**
     * Makes `node` the head. The ring is unchanged; read from the new head
     * it is a rotation of the old order. A null `node` empties `Head`,
     * which leaves a non-empty list without a valid head.
     */
    method SetHead(node: PlayerNode?) returns (ghost k: nat)
      requires Valid()
      requires node == null || node in Nodes
      modifies this
      ensures Name == old(Name) && Len == old(Len) && Head == node
      ensures node != null ==>
        k < |old(Nodes)| && old(Nodes)[k] == node && Nodes == old(Nodes)[k..] + old(Nodes)[..k] && Valid()
      ensures node == null ==> Nodes == old(Nodes)
    {
      ghost var ns := Nodes;
      k := 0;
      if node != null {
        k :| 0 <= k < |ns| && ns[k] == node;
        Nodes := ns[k..] + ns[..k];
        RotationIsRing(ns, k);
      }
      Head := node;
    }

    /** The nodes in order from `Head`, collected by walking `Len` steps. */
    method ToNodeArray() returns (nodes: seq<PlayerNode>)
      requires Valid()
      ensures nodes == Nodes
    {
      nodes := [];
      var node := Head;
      var i := 0;
      while i < Len
        invariant 0 <= i <= Len
        invariant nodes == Nodes[..i]
        invariant i < Len ==> node == Nodes[i]
      {
        nodes := nodes + [node];
        node := node.next;
        i := i + 1;
      }
    }

    /** The players in order from `Head`; nil (empty) for an empty list. */
    method ToPlayerArray() returns (players: seq<Player>)
      requires Valid()
      ensures players == Players()
      ensures |players| == Len
    {
      if Len == 0 {
        return [];
      }
      players := [];
      var node := Head;
      var i := 0;
      while i < Len
        invariant 0 <= i <= Len
        invariant players == PlayersOf(Nodes[..i])
        invariant i < Len ==> node == Nodes[i]
      {
        assert Nodes[..i + 1] == Nodes[..i] + [Nodes[i]];
        PlayersOfAppend(Nodes[..i], Nodes[i]);
        players := players + [node.Player];
        node := node.next;
        i := i + 1;
      }
      assert Nodes[..Len] == Nodes;
    }
  }

  lemma PlayersOfAppend(ns: seq<PlayerNode>, n: PlayerNode)
    ensures PlayersOf(ns + [n]) == PlayersOf(ns) + [n.Player]
  {
  }

  /** A rotation of a ring, read from any of its nodes, is again a ring. */
  lemma RotationIsRing(ns: seq<PlayerNode>, k: nat)
    requires k < |ns|
    requires forall i, j :: 0 <= i < j < |ns| ==> ns[i] != ns[j]
    requires forall i :: 0 <= i < |ns| - 1 ==> ns[i].next == ns[i + 1]
    requires ns[|ns| - 1].next == ns[0]
    ensures var rs := ns[k..] + ns[..k];
      |rs| == |ns|
      && (forall i, j :: 0 <= i < j < |rs| ==> rs[i] != rs[j])
      && (forall i :: 0 <= i < |rs| - 1 ==> rs[i].next == rs[i + 1])
      && rs[|rs| - 1].next == rs[0]
  {
    var rs := ns[k..] + ns[..k];
    var n := |ns|;
    assert forall i :: 0 <= i < n ==> rs[i] == ns[if i < n - k then k + i else i - (n - k)];
  }
}
