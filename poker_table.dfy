/**
 * internal/poker/poker.go: the table, its seats, the community cards and the
 * rotation of dealer and blinds around the ring of active players.
 */
module PokerTable {
  import opened Common
  import opened PlayerState
  import opened PokerCard
  import opened PokerDeck
  import opened PokerPlayer
  import opened PokerPot

  type TableState = int
  const TableStateNotStarted: TableState := 0
  const TableStatePreFlop: TableState := 1
  const TableStateFlop: TableState := 2
  const TableStateTurn: TableState := 3
  const TableStateRiver: TableState := 4
  const TableStateRounds: TableState := 5
  const TableStatePlayerRaised: TableState := 6
  const TableStateDoneBetting: TableState := 7
  const TableStateShowHands: TableState := 8
  const TableStateSplitPot: TableState := 9
  const TableStateRoundOver: TableState := 10
  const TableStateNewRound: TableState := 11
  const TableStateGameOver: TableState := 12
  const TableStateReset: TableState := 13

  type TableLock = int
  const TableLockNone: TableLock := 0
  const TableLockPlayers: TableLock := 1
  const TableLockSpectators: TableLock := 2
  const TableLockAll: TableLock := 3

  /** How a table operation ends: normally, by a Go panic, or in a loop that never exits. */
  datatype Outcome = Done | Panicked | Diverges

  /** TableLockNameMap; a lock without an entry reads as Go's zero string. */
  function TableLockToString(lock: TableLock): (s: string)
  {
    if lock == TableLockNone then "no lock"
    else if lock == TableLockPlayers then "player lock"
    else if lock == TableLockSpectators then "spectator lock"
    else if lock == TableLockAll then "player & spectator lock"
    else ""
  }

  lemma TableLockNames(a: TableLock, b: TableLock)
    ensures TableLockToString(a) == "" <==> !(TableLockNone <= a <= TableLockAll)
    ensures TableLockToString(a) != "" && TableLockToString(a) == TableLockToString(b) ==> a == b
  {
  }

  /** The name of a table state; `TableStateReset` has no entry. */
  function TableStateName(state: TableState): (s: string)
  {
    if state == TableStateNotStarted then "waiting for start"
    else if state == TableStatePreFlop then "preflop"
    else if state == TableStateFlop then "flop"
    else if state == TableStateTurn then "turn"
    else if state == TableStateRiver then "river"
    else if state == TableStateRounds then "betting rounds"
    else if state == TableStateRoundOver then "round over"
    else if state == TableStateNewRound then "new round"
    else if state == TableStateGameOver then "game over"
    else if state == TableStatePlayerRaised then "player raised"
    else if state == TableStateDoneBetting then "finished betting"
    else if state == TableStateShowHands then "showing hands"
    else if state == TableStateSplitPot then "split pot"
    else "BUG: bad table state"
  }

  /** Every state from NotStarted to GameOver has its own name; Reset and anything else reads as a bug. */
  lemma TableStateNames(a: TableState, b: TableState)
    ensures TableStateName(a) == "BUG: bad table state" <==> !(TableStateNotStarted <= a <= TableStateGameOver)
    ensures TableStateName(a) == TableStateName(b) && TableStateName(a) != "BUG: bad table state" ==> a == b
  {
  }

  /** The states in which players may bet. */
  predicate IsBettingState(state: TableState) {
    state !in {TableStateNotStarted, TableStateDoneBetting, TableStateRoundOver, TableStateShowHands,
               TableStateSplitPot, TableStateNewRound, TableStateGameOver}
  }

  lemma BettingStates()
    ensures forall s :: TableStateNotStarted <= s <= TableStateReset && IsBettingState(s) ==>
      s in {TableStatePreFlop, TableStateFlop, TableStateTurn, TableStateRiver, TableStateRounds,
            TableStatePlayerRaised, TableStateReset}
    ensures IsBettingState(TableStateRounds) && !IsBettingState(TableStateRoundOver)
  {
  }

  // ---------------------------------------------------------------------
  // Positions in a ring of `n` nodes

  /** The position after `k` in a ring of `n` nodes. */
  function Succ(k: nat, n: nat): (r: nat)
    requires k < n
    ensures r < n
  {
    if k + 1 < n then k + 1 else 0
  }

  /** The position before `k` in a ring of `n` nodes. */
  function Pred(k: nat, n: nat): (r: nat)
    requires k < n
    ensures r < n && Succ(r, n) == k
  {
    if k == 0 then n - 1 else k - 1
  }

  /** The position `d` steps after `k`. */
  function Step(k: nat, d: nat, n: nat): (r: nat)
    requires k < n
    ensures r < n
  {
    if d == 0 then k else Succ(Step(k, d - 1, n), n)
  }

  /** The position `d` steps before `m`. */
  function Back(m: nat, d: nat, n: nat): (r: nat)
    requires m < n
    ensures r < n
    decreases d
  {
    if d == 0 then m else Back(Pred(m, n), d - 1, n)
  }

  /** Every position is reached `d` steps after some position. */
  lemma {:induction false} StepBack(m: nat, d: nat, n: nat)
    requires m < n
    ensures Step(Back(m, d, n), d, n) == m
    decreases d
  {
    if d > 0 {
      var p := Pred(m, n);
      StepBack(p, d - 1, n);
      StepAfter(Back(p, d - 1, n), d - 1, n);
    }
  }

  /** Stepping `d` then one more is one step after stepping `d`... (unfolded form used by StepBack). */
  lemma {:induction false} StepAfter(k: nat, d: nat, n: nat)
    requires k < n
    ensures Step(k, d + 1, n) == Succ(Step(k, d, n), n)
  {
  }

  /** The first index `k` whose node `d` steps further on has a player named `name`; `|ns|` if none. */
  ghost function FirstAhead(ns: seq<PlayerNode>, name: string, d: nat, from: nat): (k: nat)
    requires from <= |ns|
    reads set i | 0 <= i < |ns| :: ns[i].Player
    ensures from <= k <= |ns|
    ensures k < |ns| ==> ns[Step(k, d, |ns|)].Player.Name == name
    ensures forall j :: from <= j < k ==> ns[Step(j, d, |ns|)].Player.Name != name
    decreases |ns| - from
  {
    if from == |ns| then |ns|
    else if ns[Step(from, d, |ns|)].Player.Name == name then from
    else FirstAhead(ns, name, d, from + 1)
  }

  /** If the name belongs to a node of the ring, some node `d` steps before it is found. */
  lemma AheadFound(ns: seq<PlayerNode>, m: nat, d: nat)
    requires m < |ns|
    ensures FirstAhead(ns, ns[m].Player.Name, d, 0) < |ns|
  {
    var k := Back(m, d, |ns|);
    StepBack(m, d, |ns|);
    assert ns[Step(k, d, |ns|)].Player.Name == ns[m].Player.Name;
  }

  /** In a list with the ring shape, `next` is the successor position. */
  lemma NextInRing(l: PlayerList, k: nat)
    requires l.Ring() && k < |l.Nodes|
    ensures l.Nodes[k].next == l.Nodes[Succ(k, |l.Nodes|)]
  {
  }

  lemma RotationMembers(ns: seq<PlayerNode>, k: nat)
    requires k <= |ns|
    ensures forall x :: x in ns <==> x in ns[k..] + ns[..k]
  {
    assert ns == ns[..k] + ns[k..];
  }

  // ---------------------------------------------------------------------
  // Seats

  /** The seats whose `IsVacant` is false, in seat order. */
  ghost function OccupiedOf(ps: seq<Player>): (r: seq<Player>)
    reads set p | p in ps
    ensures |r| <= |ps|
    ensures forall i :: 0 <= i < |r| ==> r[i] in ps && !r[i].IsVacant
    ensures forall i :: 0 <= i < |ps| && !ps[i].IsVacant ==> ps[i] in r
  {
    if ps == [] then []
    else OccupiedOf(ps[..|ps| - 1]) + (if !ps[|ps| - 1].IsVacant then [ps[|ps| - 1]] else [])
  }

  /** The occupied seats that did not join in the middle of the round. */
  ghost function ActiveOf(ps: seq<Player>): (r: seq<Player>)
    reads set p | p in ps
    ensures |r| <= |ps|
    ensures forall i :: 0 <= i < |r| ==> r[i] in ps && !r[i].IsVacant && r[i].Action.Action != MidroundAddition
    ensures forall i :: 0 <= i < |ps| && !ps[i].IsVacant && ps[i].Action.Action != MidroundAddition ==> ps[i] in r
  {
    if ps == [] then []
    else
      var p := ps[|ps| - 1];
      ActiveOf(ps[..|ps| - 1]) + (if !p.IsVacant && p.Action.Action != MidroundAddition then [p] else [])
  }

  /** The index of the first vacant seat; `|ps|` if none. */
  ghost function FirstVacant(ps: seq<Player>): (k: nat)
    reads set p | p in ps
    ensures k <= |ps|
    ensures k < |ps| ==> ps[k].IsVacant
    ensures forall j :: 0 <= j < k ==> !ps[j].IsVacant
  {
    if ps == [] then 0
    else if ps[0].IsVacant then 0
    else 1 + FirstVacant(ps[1..])
  }

  /** The player-state update of addNewPlayers. */
  function Admitted(a: Action): (r: Action)
    ensures r.Amount == a.Amount
    ensures r.Action == if a.Action == MidroundAddition then FirstAction else a.Action
  {
    if a.Action == MidroundAddition then a.(Action := FirstAction) else a
  }

  lemma AdmittedIdempotent(a: Action)
    ensures Admitted(Admitted(a)) == Admitted(a)
    ensures Admitted(a).Action != MidroundAddition
  {
  }

  /** The seat name `fmt.Sprintf("p%d", i)`. */
  function SeatName(i: nat): (s: string)
    ensures |s| >= 2 && s[0] == 'p'
  {
    "p" + NatToString(i)
  }

  class Table {
    const deck: Deck
    var Community: seq<Card>
    var comsorted: seq<Card>

    const MainPot: Pot
    const sidePots: SidePots
    var Ante: Chips
    var Bet: Chips

    var Dealer: PlayerNode?
    var SmallBlind: PlayerNode?
    var BigBlind: PlayerNode?

    var players: seq<Player>
    const activePlayers: PlayerList
    var curPlayers: PlayerList
    var Winners: seq<Player>
    var curPlayer: PlayerNode?
    var better: Player?
    var NumPlayers: uint8
    var NumSeats: uint8
    var roundCount: uint64

    var WinInfo: string

    var State: TableState
    var CommState: TableState
    var NumConnected: uint64

    var Lock: TableLock
    var Password: string

    /** Both player lists are rings over different list objects, and the seats are distinct players. */
    ghost predicate ListsValid()
      reads this`curPlayers, this`players, deck, activePlayers, activePlayers.Nodes, curPlayers, curPlayers.Nodes
    {
      deck.Valid()
      && activePlayers.Valid() && curPlayers.Valid() && activePlayers != curPlayers
      && (forall i, j :: 0 <= i < j < |players| ==> players[i] != players[j])
    }

    /** The dealer and the blinds are null or nodes of the active ring. */
    ghost predicate BlindsInRing()
      reads this`Dealer, this`SmallBlind, this`BigBlind, activePlayers
    {
      (Dealer == null || Dealer in activePlayers.Nodes)
      && (SmallBlind == null || SmallBlind in activePlayers.Nodes)
      && (BigBlind == null || BigBlind in activePlayers.Nodes)
    }

    /** The players of the active ring, as a set: the objects whose per-round fields NewRound resets. */
    ghost function Seated(): set<Player>
      reads this, activePlayers
    {
      set p | p in activePlayers.Players()
    }

    ghost predicate Valid()
      reads this`curPlayers, this`players, this`Dealer, this`SmallBlind, this`BigBlind, deck, activePlayers, activePlayers.Nodes, curPlayers, curPlayers.Nodes
    {
      ListsValid() && BlindsInRing()
    }

    /** NewTable after its range check: `numSeats` fresh vacant seats "p0", "p1", ... */
    constructor (deck: Deck, numSeats: uint8, lock: TableLock, password: string, CPUPlayers: seq<bool>)
      requires deck.Valid()
      requires 2 <= numSeats <= 7 && |CPUPlayers| >= numSeats as int
      ensures Valid() && this.deck == deck
      ensures NumSeats == numSeats && NumPlayers == 0 && Ante == 10 && Bet == 0
      ensures |players| == numSeats as int
      ensures forall i :: 0 <= i < |players| ==>
        fresh(players[i]) && players[i].defaultName == SeatName(i) && players[i].Name == SeatName(i)
        && players[i].IsVacant && players[i].IsCPU == CPUPlayers[i]
      ensures Community == [] && comsorted == []
      ensures fresh(MainPot) && MainPot.Name == "mainpot" && MainPot.Players == map[] && MainPot.Total == 0
      ensures fresh(sidePots) && sidePots.AllInPots.Pots == [] && sidePots.BettingPot == null
      ensures activePlayers.Len == 0 && activePlayers.Name == "activePlayers"
      ensures curPlayers.Len == 0 && curPlayers.Name == "curPlayers"
      ensures Dealer == null && SmallBlind == null && BigBlind == null && curPlayer == null
      ensures State == TableStateNotStarted && CommState == TableStateNotStarted
      ensures Lock == lock && Password == password
    {
      var ps := NewSeats(numSeats, CPUPlayers);
      this.deck := deck;
      Ante, Bet := 10, 0;
      MainPot := new Pot("mainpot", 0);
      sidePots := new SidePots();
      players := ps;
      activePlayers := new PlayerList("activePlayers", []);
      curPlayers := new PlayerList("curPlayers", []);
      Winners := [];
      Dealer, SmallBlind, BigBlind, curPlayer, better := null, null, null, null, null;
      NumPlayers, NumSeats, roundCount := 0, numSeats, 0;
      WinInfo := "";
      State, CommState, NumConnected := TableStateNotStarted, TableStateNotStarted, 0;
      Lock, Password := lock, password;
      Community, comsorted := [], [];
    }

    /** Changes the seat count when it is within 2..7 and not below the number of players. */
    method SetNumSeats(numSeats: uint8) returns (err: Option<Error>)
      modifies this`NumSeats
      ensures !(2 <= numSeats <= 7) ==> err == Some(Error("numSeats must be between 2 and 7"))
      ensures 2 <= numSeats <= 7 && numSeats < NumPlayers ==>
        err == Some(Error("numSeats must be greater than the current number of players"))
      ensures err.None? <==> 2 <= numSeats <= 7 && numSeats >= NumPlayers
      ensures NumSeats == if err.None? then numSeats else old(NumSeats)
    {
      if numSeats < 2 || numSeats > 7 {
        return Some(Error("numSeats must be between 2 and 7"));
      } else if numSeats < NumPlayers {
        return Some(Error("numSeats must be greater than the current number of players"));
      }
      NumSeats := numSeats;
      return None;
    }

    /** Open seats as uint8 arithmetic: this subtraction can wrap when NumPlayers exceeds NumSeats. */
    function GetNumOpenSeats(): (r: uint8)
      reads this
      ensures NumPlayers <= NumSeats ==> r == NumSeats - NumPlayers
      ensures NumPlayers > NumSeats ==> r == NumSeats as int - NumPlayers as int + UINT8_LIMIT
      ensures r == 0 <==> NumPlayers == NumSeats
    {
      SubWrap8(NumSeats, NumPlayers)
    }

    /**
     * The first vacant seat, which becomes occupied while NumPlayers grows
     * by one (uint8, wrapping); null when the open-seat count is 0 or no
     * seat is vacant.
     */
    method GetOpenSeat() returns (seat: Player?)
      requires Valid()
      modifies this`NumPlayers, (set p | p in players)`IsVacant
      ensures old(GetNumOpenSeats()) == 0 ==> seat == null
      ensures seat == null ==>
        NumPlayers == old(NumPlayers) && forall p :: p in players ==> p.IsVacant == old(p.IsVacant)
      ensures old(GetNumOpenSeats()) != 0 && old(FirstVacant(players)) < |players| ==>
        seat == players[old(FirstVacant(players))] && !seat.IsVacant
        && NumPlayers == AddWrap8(old(NumPlayers), 1)
        && forall p :: p in players && p != seat ==> p.IsVacant == old(p.IsVacant)
      ensures old(FirstVacant(players)) == |players| ==> seat == null
      ensures forall p :: p in players ==> p.Name == old(p.Name) && p.Action == old(p.Action)
    {
      if GetNumOpenSeats() == 0 {
        return null;
      }
      ghost var k := FirstVacant(players);
      var i := 0;
      while i < |players|
        invariant 0 <= i <= |players| && i <= k
      {
        if players[i].IsVacant {
          break;
        }
        i := i + 1;
      }
      if i == |players| {
        return null;
      }
      seat := players[i];
      seat.IsVacant := false;
      NumPlayers := AddWrap8(NumPlayers, 1);
    }

    /** The occupied seats in seat order. */
    method GetOccupiedSeats() returns (seats: seq<Player>)
      ensures seats == OccupiedOf(players)
      ensures forall p :: p in seats <==> p in players && !p.IsVacant
    {
      seats := [];
      var i := 0;
      while i < |players|
        invariant 0 <= i <= |players|
        invariant seats == OccupiedOf(players[..i])
      {
        assert players[..i + 1][..i] == players[..i];
        if !players[i].IsVacant {
          seats := seats + [players[i]];
        }
        i := i + 1;
      }
      assert players[..i] == players;
    }

    /** The occupied seats of players not added in the middle of the round (getActiveSeats). */
    method GetActiveSeats() returns (seats: seq<Player>)
      ensures seats == ActiveOf(players)
      ensures forall p :: p in seats <==> p in players && !p.IsVacant && p.Action.Action != MidroundAddition
    {
      seats := [];
      var i := 0;
      while i < |players|
        invariant 0 <= i <= |players|
        invariant seats == ActiveOf(players[..i])
      {
        assert players[..i + 1][..i] == players[..i];
        var seat := players[i];
        if !seat.IsVacant && seat.Action.Action != MidroundAddition {
          seats := seats + [seat];
        }
        i := i + 1;
      }
      assert players[..i] == players;
    }

    /** Each seat's default name, in seat order. */
    method DefaultPlayerNames() returns (names: seq<string>)
      ensures |names| == |players|
      ensures forall i :: 0 <= i < |names| ==> names[i] == players[i].defaultName
    {
      names := [];
      var i := 0;
      while i < |players|
        invariant 0 <= i <= |players| && |names| == i
        invariant forall k :: 0 <= k < i ==> names[k] == players[k].defaultName
      {
        names := names + [players[i].defaultName];
        i := i + 1;
      }
    }

    predicate InBettingState()
      reads this
      ensures InBettingState() <==> IsBettingState(State)
    {
      !(State == TableStateNotStarted || State == TableStateDoneBetting || State == TableStateRoundOver
        || State == TableStateShowHands || State == TableStateSplitPot || State == TableStateNewRound
        || State == TableStateGameOver)
    }

    function TableStateToString(): (s: string)
      reads this
      ensures s == TableStateName(State)
      ensures s == "BUG: bad table state" <==> !(TableStateNotStarted <= State <= TableStateGameOver)
    {
      TableStateNames(State, State);
      TableStateName(State)
    }

    /** Whether `p` has the name of the big or the small blind. */
    predicate IsABlind(p: Player)
      reads this, p, if BigBlind != null then {BigBlind.Player} else {}, if SmallBlind != null then {SmallBlind.Player} else {}
      ensures IsABlind(p) <==> exists b :: b in {BigBlind, SmallBlind} && b != null && b.Player.Name == p.Name
    {
      (BigBlind != null && BigBlind.Player.Name == p.Name)
      || (SmallBlind != null && SmallBlind.Player.Name == p.Name)
    }

    /** At most one player can still bet. */
    predicate BettingIsImpossible()
      reads this, curPlayers
      ensures BettingIsImpossible() <==> curPlayers.Len < 2
    {
      curPlayers.Len < 2
    }

    /** Players who joined mid-round start waiting for their first action. */
    method AddNewPlayers()
      requires Valid()
      modifies Seated()`Action
      ensures forall p :: p in activePlayers.Players() ==> p.Action == Admitted(old(p.Action))
    {
      var ps := activePlayers.ToPlayerArray();
      AdmitPlayers(ps);
    }

    /**
     * The first part of NewRound: a shuffled deck, new players admitted,
     * fresh cards and a first action for every active player, and an
     * empty community.
     */
    method PrepareRound()
      requires Valid()
      modifies deck, deck.cards, this`Community, this`comsorted, this`roundCount, this`Ante
      modifies Seated()`Action, Seated()`Hole, Seated()`Hand
      ensures Valid() && PlayersReset() && HolesEmpty()
      ensures RoundPrepared(old(multiset(deck.cards[..])), old(roundCount), old(Ante))
    {
      ShuffleAndAdmit();
      // The community and round counter share no state with the players, so
      // the order of these two steps is immaterial.
      NextRoundCount();
      ResetActivePlayers();
    }

    /** The deck shuffled with nothing dealt, and every active player admitted. */
    method ShuffleAndAdmit()
      requires Valid()
      modifies deck, deck.cards, Seated()`Action
      ensures Valid() && deck.pos == 0 && multiset(deck.cards[..]) == old(multiset(deck.cards[..]))
      ensures forall p :: p in activePlayers.Players() ==> p.Action == Admitted(old(p.Action))
    {
      deck.Shuffle();
      AddNewPlayers();
    }

    /** The loop of NewRound over the active players. */
    method ResetActivePlayers()
      requires Valid()
      modifies Seated()`Action, Seated()`Hole, Seated()`Hand
      ensures Valid()
      ensures PlayersReset() && HolesEmpty()
    {
      var ps := activePlayers.ToPlayerArray();
      ResetPlayers(ps);
    }

    /** An empty community, one more round, and the ante doubled (wrapping at 2^64) every tenth round. */
    method NextRoundCount()
      requires Valid()
      modifies this`Community, this`comsorted, this`roundCount, this`Ante
      ensures Valid() && Community == [] && comsorted == []
      ensures roundCount == AddWrap64(old(roundCount), 1)
      ensures Ante == if roundCount % 10 == 0 then MulWrap64(old(Ante), 2) else old(Ante)
    {
      NewCommunity();
      roundCount := AddWrap64(roundCount, 1);
      if roundCount % 10 == 0 {
        Ante := MulWrap64(Ante, 2);
      }
    }

    /** The current list becomes a fresh copy of the active one (it was a clone before as well). */
    method RenewCurrent()
      requires Valid()
      modifies this`curPlayers
      ensures Valid() && fresh(curPlayers) && curPlayers.Name == "curPlayers"
      ensures curPlayers.Players() == activePlayers.Players()
    {
      curPlayers := activePlayers.Clone("curPlayers");
    }

    /**
     * The deck shuffled from `cards0` with nothing dealt, an empty
     * community, the round count one past `round0`, and the ante `ante0`
     * doubled (wrapping at 2^64) when the new count is a multiple of ten.
     */
    ghost predicate RoundPrepared(cards0: multiset<Card>, round0: uint64, ante0: Chips)
      reads this`Community, this`comsorted, this`roundCount, this`Ante, deck, deck.cards
    {
      deck.pos == 0 && multiset(deck.cards[..]) == cards0
      && Community == [] && comsorted == []
      && roundCount == AddWrap64(round0, 1)
      && Ante == if roundCount % 10 == 0 then MulWrap64(ante0, 2) else ante0
    }

    /** Every active player waits for a first action with nothing bet, and holds the muck hand. */
    ghost predicate PlayersReset()
      reads activePlayers, set p | p in activePlayers.Players()
    {
      forall p :: p in activePlayers.Players() ==> p.Action == ActionOf(FirstAction, 0) && p.Hand == HandOf(RankMuck, 0, [])
    }

    /** Every active player holds new, empty hole cards. */
    ghost predicate HolesEmpty()
      reads activePlayers, set p | p in activePlayers.Players(), set p | p in activePlayers.Players() :: p.Hole
    {
      forall p :: p in activePlayers.Players() ==> p.Hole.Cards == []
    }

    /** The betting state NewRound leaves: no better, the bet at the ante, empty pots, state NewRound. */
    ghost predicate BettingReset()
      reads this`better, this`Bet, this`Ante, this`State, MainPot, sidePots, sidePots.AllInPots
    {
      better == null && Bet == Ante && MainPot.Bet == Ante && MainPot.Total == 0 && MainPot.Players == map[]
      && sidePots.IsEmpty() && State == TableStateNewRound
    }

    /** The rest of NewRound once the seats are repaired: no better, the bet at the ante, and empty pots. */
    method StartBetting()
      modifies this`better, this`Bet, this`State
      modifies MainPot`Players, MainPot`Bet, MainPot`Total, MainPot`IsClosed, MainPot`WinInfo, sidePots`BettingPot, sidePots.AllInPots`Pots
      ensures BettingReset()
    {
      better, Bet := null, Ante;
      ClearPots(MainPot, sidePots, Bet);
      State := TableStateNewRound;
    }

    /**
     * Starts a round: PrepareRound, the ante doubled every tenth round
     * (wrapping at 2^64), missing seats repaired, then StartBetting. The
     * panic is the one of HandleOrphanedSeats.
     */
    method NewRound() returns (panicked: bool)
      requires Valid()
      modifies this`roundCount, this`Ante, this`Dealer, this`SmallBlind, this`BigBlind, this`curPlayers
      modifies this`better, this`Bet, this`State, this`Community, this`comsorted
      modifies deck, deck.cards
      modifies MainPot`Players, MainPot`Bet, MainPot`Total, MainPot`IsClosed, MainPot`WinInfo, sidePots`BettingPot, sidePots.AllInPots`Pots
      modifies Seated()`Action, Seated()`Hole, Seated()`Hand
      ensures panicked <==>
        (old(Dealer) == null && old(SmallBlind) == null && old(BigBlind) == null && activePlayers.Len == 0)
      ensures RoundPrepared(old(multiset(deck.cards[..])), old(roundCount), old(Ante))
      ensures !panicked ==>
        Valid() && Dealer != null && SmallBlind != null && BigBlind != null
        && fresh(curPlayers) && curPlayers.Name == "curPlayers" && curPlayers.Players() == activePlayers.Players()
        && BettingReset()
    {
      PrepareRound();
      panicked := StartRound();
    }

    /** The part of NewRound from handleOrphanedSeats on. */
    method StartRound() returns (panicked: bool)
      requires Valid()
      modifies this`Dealer, this`SmallBlind, this`BigBlind, this`curPlayers, this`better, this`Bet, this`State
      modifies MainPot`Players, MainPot`Bet, MainPot`Total, MainPot`IsClosed, MainPot`WinInfo, sidePots`BettingPot, sidePots.AllInPots`Pots
      ensures panicked <==>
        (old(Dealer) == null && old(SmallBlind) == null && old(BigBlind) == null && activePlayers.Len == 0)
      ensures !panicked ==>
        Valid() && Dealer != null && SmallBlind != null && BigBlind != null
        && fresh(curPlayers) && curPlayers.Name == "curPlayers" && curPlayers.Players() == activePlayers.Players()
        && BettingReset()
    {
      panicked := RepairSeats();
      if panicked {
        return;
      }
      ResumeRound();
    }

    method RepairSeats() returns (panicked: bool)
      requires Valid()
      modifies this`Dealer, this`SmallBlind, this`BigBlind
      ensures Valid()
      ensures panicked <==>
        (old(Dealer) == null && old(SmallBlind) == null && old(BigBlind) == null && activePlayers.Len == 0)
      ensures !panicked ==> Dealer != null && SmallBlind != null && BigBlind != null
    {
      panicked := HandleOrphanedSeats();
    }

    /** NewRound after the seats are repaired: a fresh current list, then StartBetting. */
    method ResumeRound()
      requires Valid()
      modifies this`curPlayers, this`better, this`Bet, this`State
      modifies MainPot`Players, MainPot`Bet, MainPot`Total, MainPot`IsClosed, MainPot`WinInfo, sidePots`BettingPot, sidePots.AllInPots`Pots
      ensures Valid() && fresh(curPlayers) && curPlayers.Name == "curPlayers" && curPlayers.Players() == activePlayers.Players()
      ensures BettingReset() && activePlayers.Len == old(activePlayers.Len)
      ensures Dealer == old(Dealer) && SmallBlind == old(SmallBlind) && BigBlind == old(BigBlind)
    {
      RenewCurrent();
      StartBetting();
      assert ListsValid();
      assert BlindsInRing();
    }

    // -------------------------------------------------------------------
    // Community cards

    /** Empties both community-card lists (newCommunity). */
    method NewCommunity()
      modifies this`Community, this`comsorted
      ensures Community == [] && comsorted == []
    {
      Community, comsorted := [], [];
    }

    method AddToCommunity(card: Card)
      modifies this`Community, this`comsorted
      ensures Community == old(Community) + [card] && comsorted == old(comsorted) + [card]
    {
      Community := Community + [card];
      comsorted := comsorted + [card];
    }

    method SortCommunity()
      modifies this`comsorted
      ensures SortedByValue(comsorted) && multiset(comsorted) == multiset(old(comsorted))
    {
      comsorted := CardsSort(comsorted);
    }

    /**
     * Pops one card into the community and re-sorts the sorted copy; a
     * Pop past the end of the deck panics before anything is added.
     */
    method DrawCommunityCard() returns (panicked: bool)
      requires deck.Valid()
      modifies deck, this`Community, this`comsorted
      ensures deck.Valid() && deck.cards == old(deck.cards) && deck.pos == AddWrap64(old(deck.pos), 1)
      ensures panicked <==> old(deck.pos) >= 52
      ensures panicked ==> Community == old(Community) && comsorted == old(comsorted)
      ensures !panicked ==> Community == old(Community) + [deck.cards[old(deck.pos)]]
      ensures !panicked ==>
        SortedByValue(comsorted) && multiset(comsorted) == multiset(old(comsorted)) + multiset{deck.cards[old(deck.pos)]}
    {
      panicked := PopToCommunity();
      if !panicked {
        SortCommunity();
      }
    }

    /** Pops one card and appends it to both community lists; past the end of the deck it panics instead. */
    method PopToCommunity() returns (panicked: bool)
      requires deck.Valid()
      modifies deck, this`Community, this`comsorted
      ensures deck.Valid() && deck.cards == old(deck.cards) && deck.pos == AddWrap64(old(deck.pos), 1)
      ensures panicked <==> old(deck.pos) >= 52
      ensures panicked ==> Community == old(Community) && comsorted == old(comsorted)
      ensures !panicked ==>
        Community == old(Community) + [deck.cards[old(deck.pos)]]
        && comsorted == old(comsorted) + [deck.cards[old(deck.pos)]]
    {
      var c := deck.Pop();
      if c.None? {
        // index out of range in Deck.Pop
        return true;
      }
      AddToCommunity(c.value);
      return false;
    }

    /** Three cards to the community, one sort of the copy, then `State` becomes Rounds. */
    method DoFlop() returns (panicked: bool)
      requires deck.Valid()
      modifies deck, this`Community, this`comsorted, this`State
      ensures deck.Valid() && deck.cards == old(deck.cards)
      ensures panicked <==> old(deck.pos) > 49
      ensures !panicked ==>
        deck.pos == old(deck.pos) + 3 && State == TableStateRounds
        && Community == old(Community) + deck.cards[old(deck.pos)..old(deck.pos) + 3]
        && SortedByValue(comsorted)
        && multiset(comsorted) == multiset(old(comsorted)) + multiset(deck.cards[old(deck.pos)..old(deck.pos) + 3])
    {
      panicked := DealFlop();
      if panicked {
        return;
      }
      SortCommunity();
      State := TableStateRounds;
    }

    /** The loop of DoFlop: three cards popped into both community lists, unless the deck runs out. */
    method DealFlop() returns (panicked: bool)
      requires deck.Valid()
      modifies deck, this`Community, this`comsorted
      ensures deck.Valid() && deck.cards == old(deck.cards)
      ensures panicked <==> old(deck.pos) > 49
      ensures !panicked ==>
        deck.pos == old(deck.pos) + 3
        && Community == old(Community) + deck.cards[old(deck.pos)..old(deck.pos) + 3]
        && comsorted == old(comsorted) + deck.cards[old(deck.pos)..old(deck.pos) + 3]
    {
      ghost var p0: int := deck.pos;
      var i := 0;
      while i < 3
        invariant 0 <= i <= 3 && deck.Valid() && deck.cards == old(deck.cards)
        invariant i > 0 ==> p0 + i <= 52
        invariant deck.pos == p0 + i
        invariant p0 + i <= 52 ==>
          Community == old(Community) + deck.cards[p0..p0 + i]
          && comsorted == old(comsorted) + deck.cards[p0..p0 + i]
      {
        panicked := PopToCommunity();
        if panicked {
          return;
        }
        assert deck.cards[p0..p0 + i + 1] == deck.cards[p0..p0 + i] + [deck.cards[p0 + i]];
        i := i + 1;
      }
      return false;
    }

    /** One card to the community (the turn). */
    method DoTurn() returns (panicked: bool)
      requires deck.Valid()
      modifies deck, this`Community, this`comsorted
      ensures deck.Valid() && deck.cards == old(deck.cards) && deck.pos == AddWrap64(old(deck.pos), 1)
      ensures panicked <==> old(deck.pos) >= 52
      ensures !panicked ==>
        Community == old(Community) + [deck.cards[old(deck.pos)]]
        && SortedByValue(comsorted)
        && multiset(comsorted) == multiset(old(comsorted)) + multiset{deck.cards[old(deck.pos)]}
    {
      panicked := DrawCommunityCard();
    }

    /** One card to the community (the river). */
    method DoRiver() returns (panicked: bool)
      requires deck.Valid()
      modifies deck, this`Community, this`comsorted
      ensures deck.Valid() && deck.cards == old(deck.cards) && deck.pos == AddWrap64(old(deck.pos), 1)
      ensures panicked <==> old(deck.pos) >= 52
      ensures !panicked ==>
        Community == old(Community) + [deck.cards[old(deck.pos)]]
        && SortedByValue(comsorted)
        && multiset(comsorted) == multiset(old(comsorted)) + multiset{deck.cards[old(deck.pos)]}
    {
      panicked := DrawCommunityCard();
    }

    /**
     * The community state machine: PreFlop deals the flop, Flop the turn,
     * Turn the river, each then leaving `State` at Rounds; River ends the
     * round without touching the cards; any other state panics. After the
     * flop the betting order is reset unless at most one player can bet.
     */
    method NextCommunityAction() returns (o: Outcome)
      requires Valid()
      modifies deck, this`Community, this`comsorted, this`State, this`CommState
      modifies this`Dealer, this`SmallBlind, this`BigBlind, this`curPlayer, activePlayers, curPlayers
      ensures deck.cards == old(deck.cards)
      ensures old(CommState) !in {TableStatePreFlop, TableStateFlop, TableStateTurn, TableStateRiver} ==>
        o == Panicked && Community == old(Community) && State == old(State) && CommState == old(CommState)
      ensures old(CommState) == TableStateRiver ==>
        o == Done && State == TableStateRoundOver && CommState == old(CommState) && Community == old(Community)
      ensures o == Done ==> Valid()
      ensures old(CommState) in {TableStatePreFlop, TableStateFlop, TableStateTurn} && o == Done ==>
        State == TableStateRounds && InBettingState()
      ensures old(CommState) == TableStatePreFlop && old(deck.pos) <= 49 ==>
        CommState == TableStateFlop && deck.pos == old(deck.pos) + 3
        && Community == old(Community) + deck.cards[old(deck.pos)..old(deck.pos) + 3]
      ensures old(CommState) == TableStatePreFlop && old(deck.pos) <= 49 && old(curPlayers.Len) < 2 ==> o == Done
      ensures old(CommState) == TableStatePreFlop && old(deck.pos) <= 49 && old(curPlayers.Len) >= 2 ==>
        curPlayers.Len == old(curPlayers.Len)
        && activePlayers.Head == old(activePlayers.Head) && activePlayers.Nodes == old(activePlayers.Nodes)
      ensures old(CommState) == TableStatePreFlop && old(deck.pos) <= 49 && old(curPlayers.Len) >= 2 && o == Done ==>
        curPlayer == curPlayers.Head && curPlayer != null
      ensures old(CommState) == TableStatePreFlop && old(deck.pos) <= 49 && old(curPlayers.Len) >= 2 && o == Diverges ==>
        forall n :: n in activePlayers.Nodes ==> !n.Player.CanBet()
      ensures old(CommState) == TableStatePreFlop && old(deck.pos) <= 49 && old(curPlayers.Len) >= 2 && old(SmallBlind) != null ==>
        Dealer == old(Dealer) && SmallBlind == old(SmallBlind) && BigBlind == old(BigBlind)
      ensures (old(CommState) == TableStatePreFlop && old(deck.pos) <= 49 && old(curPlayers.Len) >= 2 && old(SmallBlind) != null
        && old(FirstWithName(curPlayers.Nodes, SmallBlind.Player.Name)) < old(curPlayers.Len)) ==>
        o == Done && curPlayers.Head == old(curPlayers.Nodes)[old(FirstWithName(curPlayers.Nodes, SmallBlind.Player.Name))]
      ensures old(CommState) == TableStatePreFlop && old(deck.pos) > 49 ==> o == Panicked
      ensures old(CommState) == TableStateFlop && old(deck.pos) < 52 ==>
        o == Done && State == TableStateRounds && CommState == TableStateTurn
        && Community == old(Community) + [deck.cards[old(deck.pos)]]
      ensures old(CommState) == TableStateTurn && old(deck.pos) < 52 ==>
        o == Done && State == TableStateRounds && CommState == TableStateRiver
        && Community == old(Community) + [deck.cards[old(deck.pos)]]
      ensures old(CommState) in {TableStateFlop, TableStateTurn} && old(deck.pos) >= 52 ==> o == Panicked
      ensures old(CommState) in {TableStatePreFlop, TableStateFlop, TableStateTurn} && o == Done ==> SortedByValue(comsorted)
      ensures old(CommState) == TableStateRiver ==> comsorted == old(comsorted)
    {
      if CommState == TableStatePreFlop {
        o := FlopStep();
        return;
      } else if CommState == TableStateFlop {
        var failed := DoTurn();
        if failed {
          return Panicked;
        }
        CommState := TableStateTurn;
      } else if CommState == TableStateTurn {
        var failed := DoRiver();
        if failed {
          return Panicked;
        }
        CommState := TableStateRiver;
      } else if CommState == TableStateRiver {
        State := TableStateRoundOver;
        return Done;
      } else {
        // panic("BUG: Table.NextCommunityAction(): invalid community state")
        return Panicked;
      }
      State := TableStateRounds;
      return Done;
    }

    // -------------------------------------------------------------------
    // Dealer and blinds

    /**
     * The first node of the active ring whose node `d` steps further on has
     * a player called `name`, walking at most `Len` steps from the head.
     */
    method FindAhead(name: string, d: nat) returns (r: PlayerNode?)
      requires activePlayers.Valid() && 1 <= d <= 2
      ensures var ns := activePlayers.Nodes; var k := old(FirstAhead(activePlayers.Nodes, name, d, 0));
        r == if k < |ns| then ns[k] else null
    {
      ghost var ns := activePlayers.Nodes;
      ghost var k := FirstAhead(ns, name, d, 0);
      var n := activePlayers.Head;
      var i := 0;
      while i < activePlayers.Len
        invariant 0 <= i <= |ns| && i <= k
        invariant i < |ns| ==> n == ns[i]
      {
        NextInRing(activePlayers, i);
        var ahead := n.next;
        assert Step(i, 1, |ns|) == Succ(i, |ns|);
        if d == 2 {
          NextInRing(activePlayers, Succ(i, |ns|));
          ahead := ahead.next;
          assert Step(i, 2, |ns|) == Succ(Succ(i, |ns|), |ns|);
        }
        if ahead.Player.Name == name {
          return n;
        }
        n := n.next;
        i := i + 1;
      }
      return null;
    }

    /** All three missing: the head deals and the blinds are the next two seats. */
    method RestartAtHead()
      requires Valid() && activePlayers.Len > 0
      modifies this`Dealer, this`SmallBlind, this`BigBlind
      ensures Valid()
      ensures Dealer == activePlayers.Head && Dealer != null
      ensures SmallBlind == Dealer.next && SmallBlind != null && BigBlind == SmallBlind.next && BigBlind != null
    {
      NextMember(activePlayers, activePlayers.Head);
      Dealer := activePlayers.Head;
      NextMember(activePlayers, Dealer.next);
      SmallBlind := Dealer.next;
      BigBlind := SmallBlind.next;
    }

    /** Dealer and small blind missing: the dealer is the first seat two before the big blind's name. */
    method DealerFromBigBlind()
      requires Valid() && BigBlind != null
      modifies this`Dealer, this`SmallBlind, this`BigBlind
      ensures Valid()
      ensures var ns := activePlayers.Nodes; var k := old(FirstAhead(activePlayers.Nodes, BigBlind.Player.Name, 2, 0));
        k < |ns| && Dealer == ns[k]
      ensures Dealer != null && SmallBlind == Dealer.next && SmallBlind != null
      ensures BigBlind == SmallBlind.next && BigBlind != null
    {
      ghost var ns := activePlayers.Nodes;
      ghost var m :| 0 <= m < |ns| && ns[m] == BigBlind;
      AheadFound(ns, m, 2);
      // the Assert(newDealerNode != nil) cannot fail: the big blind is in the ring
      var d := FindAhead(BigBlind.Player.Name, 2);
      SetButton(d);
    }

    /** The dealer at `d` of the active ring, the small blind after it and the big blind after that. */
    method SetButton(d: PlayerNode)
      requires Valid() && d in activePlayers.Nodes
      modifies this`Dealer, this`SmallBlind, this`BigBlind
      ensures Valid() && Dealer == d && d.next != null && SmallBlind == d.next
      ensures BigBlind == SmallBlind.next && BigBlind != null && BigBlind.next != null
    {
      NextMember(activePlayers, d);
      NextMember(activePlayers, d.next);
      NextMember(activePlayers, d.next.next);
      Dealer := d;
      SmallBlind := d.next;
      BigBlind := SmallBlind.next;
    }

    /** Only the dealer missing: it is the first seat before the small blind's name. */
    method DealerFromSmallBlind()
      requires Valid() && SmallBlind != null
      modifies this`Dealer
      ensures Valid()
      ensures var ns := activePlayers.Nodes; var k := old(FirstAhead(activePlayers.Nodes, SmallBlind.Player.Name, 1, 0));
        k < |ns| && Dealer == ns[k]
    {
      ghost var ns := activePlayers.Nodes;
      ghost var m :| 0 <= m < |ns| && ns[m] == SmallBlind;
      AheadFound(ns, m, 1);
      // the Assert(newDealerNode != nil) cannot fail: the small blind is in the ring
      Dealer := FindAhead(SmallBlind.Player.Name, 1);
    }

    /**
     * Repairs missing dealer and blinds: all three missing restarts at the
     * head of the active list; a missing dealer is found two seats before
     * the big blind (when the small blind is missing too) or one seat
     * before the small blind; a missing blind is the seat after the one
     * before it. The only panic left is an empty active list.
     */
    method HandleOrphanedSeats() returns (panicked: bool)
      requires Valid()
      modifies this`Dealer, this`SmallBlind, this`BigBlind
      ensures Valid()
      ensures panicked <==>
        (old(Dealer) == null && old(SmallBlind) == null && old(BigBlind) == null && activePlayers.Len == 0)
      ensures !panicked ==> Dealer != null && SmallBlind != null && BigBlind != null
      ensures old(Dealer) != null ==> Dealer == old(Dealer)
      ensures old(SmallBlind) != null ==> SmallBlind == old(SmallBlind)
      ensures old(BigBlind) != null && (old(Dealer) != null || old(SmallBlind) != null) ==> BigBlind == old(BigBlind)
      ensures !panicked && old(Dealer) == null && old(SmallBlind) == null && old(BigBlind) == null ==>
        Dealer == activePlayers.Head
      ensures old(Dealer) == null && old(SmallBlind) == null && old(BigBlind) != null ==>
        var ns := activePlayers.Nodes; var k := old(FirstAhead(activePlayers.Nodes, BigBlind.Player.Name, 2, 0));
        k < |ns| && Dealer == ns[k]
      ensures old(Dealer) == null && old(SmallBlind) != null ==>
        var ns := activePlayers.Nodes; var k := old(FirstAhead(activePlayers.Nodes, SmallBlind.Player.Name, 1, 0));
        k < |ns| && Dealer == ns[k]
      ensures !panicked && old(SmallBlind) == null ==> SmallBlind == Dealer.next
      ensures !panicked && (old(BigBlind) == null || (old(Dealer) == null && old(SmallBlind) == null)) ==>
        BigBlind == SmallBlind.next
    {
      if Dealer == null && SmallBlind == null && BigBlind == null {
        if activePlayers.Head == null {
          // table.Dealer.Next() on a nil dealer
          return true;
        }
        RestartAtHead();
      }
      if Dealer == null && SmallBlind == null {
        DealerFromBigBlind();
      }
      if Dealer == null {
        DealerFromSmallBlind();
      }
      FillBlinds();
      return false;
    }

    /** The last two steps of handleOrphanedSeats: a missing blind is the seat after the one before it. */
    method FillBlinds()
      requires Valid() && Dealer != null
      modifies this`SmallBlind, this`BigBlind
      ensures Valid() && SmallBlind != null && BigBlind != null
      ensures SmallBlind == if old(SmallBlind) == null then Dealer.next else old(SmallBlind)
      ensures BigBlind == if old(BigBlind) == null then SmallBlind.next else old(BigBlind)
    {
      if SmallBlind == null {
        NextMember(activePlayers, Dealer);
        SmallBlind := Dealer.next;
      }
      if BigBlind == null {
        NextMember(activePlayers, SmallBlind);
        BigBlind := SmallBlind.next;
      }
    }

    /**
     * Walks the active ring from the seat after `s` to the first player who
     * can bet. The source loops forever when nobody can; that is the null
     * result here. `start` and `steps` place the result in the ring read
     * from the seat after `s`.
     */
    method FirstBettorAfter(s: PlayerNode) returns (r: PlayerNode?, ghost start: nat, ghost steps: nat)
      requires activePlayers.Valid() && s in activePlayers.Nodes
      ensures start < |activePlayers.Nodes| && activePlayers.Nodes[start] == s.next
      ensures r == null ==> forall n :: n in activePlayers.Nodes ==> !n.Player.CanBet()
      ensures r != null ==> r in activePlayers.Nodes && r.Player.CanBet()
      ensures r != null ==>
        var ns := activePlayers.Nodes; var rs := ns[start..] + ns[..start];
        steps < |rs| && rs[steps] == r && forall j :: 0 <= j < steps ==> !rs[j].Player.CanBet()
    {
      ghost var ns := activePlayers.Nodes;
      ghost var m :| 0 <= m < |ns| && ns[m] == s;
      NextInRing(activePlayers, m);
      start := Succ(m, |ns|);
      ghost var rs := ns[start..] + ns[..start];
      RotatedChain(activePlayers, start);
      RotationMembers(ns, start);
      var n, c := WalkToBettor(s.next, activePlayers.Len, rs);
      steps := c;
      if c == activePlayers.Len {
        return null, start, steps;
      }
      return n, start, steps;
    }

    /** `activePlayers.SetHead(node)` for a node of the active ring; the table stays valid. */
    method SetActiveHead(node: PlayerNode)
      requires Valid() && node in activePlayers.Nodes
      modifies activePlayers
      ensures Valid() && activePlayers.Head == node && activePlayers.Len == old(activePlayers.Len)
      ensures forall x :: x in activePlayers.Nodes <==> x in old(activePlayers.Nodes)
    {
      ghost var ns := activePlayers.Nodes;
      ghost var r := activePlayers.SetHead(node);
      RotationMembers(ns, r);
    }

    /** `curPlayers.SetHead(node)` followed by `curPlayer = curPlayers.Head`; a null node is the panic. */
    method SetCurHead(node: PlayerNode?) returns (o: Outcome)
      requires Valid() && (node == null || node in curPlayers.Nodes)
      modifies this`curPlayer, curPlayers
      ensures curPlayers.Head == node && curPlayers.Len == old(curPlayers.Len)
      ensures (o == Done <==> node != null) && o != Diverges
      ensures o == Done ==> Valid() && curPlayer == node
    {
      ghost var r := curPlayers.SetHead(node);
      if curPlayers.Head == null {
        // Assert: couldn't find Bb+1 player node
        return Panicked;
      }
      curPlayer := curPlayers.Head;
      return Done;
    }

    /** Before the flop both lists start with the player after the big blind (`bbNext`). */
    method ReorderPreFlop(bbNext: PlayerNode) returns (o: Outcome)
      requires Valid() && BigBlind != null && bbNext == BigBlind.next
      modifies this`curPlayer, activePlayers, curPlayers
      ensures activePlayers.Valid() && activePlayers.Head == bbNext
      ensures activePlayers.Len == old(activePlayers.Len) && curPlayers.Len == old(curPlayers.Len)
      ensures var k := old(FirstWithName(curPlayers.Nodes, bbNext.Player.Name));
        (o == Done <==> k < old(curPlayers.Len)) && (o == Done ==> curPlayers.Head == old(curPlayers.Nodes)[k])
      ensures o != Diverges
      ensures o == Done ==> Valid() && curPlayer == curPlayers.Head && curPlayer != null
    {
      NextMember(activePlayers, BigBlind);
      var node := curPlayers.GetPlayerNode(bbNext.Player);
      SetActiveHead(bbNext);
      o := SetCurHead(node);
    }

    /** Walking from the head, the node whose successor carries the big blind's name. */
    method BeforeBigBlind() returns (n: PlayerNode)
      requires Valid() && BigBlind != null
      ensures var ns := activePlayers.Nodes; var k := old(FirstAhead(activePlayers.Nodes, BigBlind.Player.Name, 1, 0));
        k < |ns| && n == ns[k]
    {
      ghost var ns := activePlayers.Nodes;
      ghost var m :| 0 <= m < |ns| && ns[m] == BigBlind;
      AheadFound(ns, m, 1);
      ghost var k := FirstAhead(ns, BigBlind.Player.Name, 1, 0);
      n := activePlayers.Head;
      ghost var i := 0;
      NextInRing(activePlayers, 0);
      while n.next.Player.Name != BigBlind.Player.Name
        invariant 0 <= i <= k && n == ns[i] && n.next == ns[Succ(i, |ns|)]
        decreases k - i
      {
        assert Step(i, 1, |ns|) == Succ(i, |ns|);
        n := n.next;
        i := i + 1;
        NextInRing(activePlayers, i);
      }
      assert Step(i, 1, |ns|) == Succ(i, |ns|);
    }

    /**
     * After the flop, with the small blind gone: the seat after the dealer,
     * else the seat before the big blind's name, else whatever repairing
     * the missing seats makes the small blind.
     */
    method SmallBlindStandIn() returns (sb: PlayerNode?)
      requires Valid() && SmallBlind == null
      modifies this`Dealer, this`SmallBlind, this`BigBlind
      ensures Valid()
      ensures sb != null ==> sb in activePlayers.Nodes
      ensures sb == null <==> (old(Dealer) == null && old(BigBlind) == null && activePlayers.Len == 0)
      ensures old(Dealer) != null || old(BigBlind) != null ==>
        Dealer == old(Dealer) && SmallBlind == null && BigBlind == old(BigBlind)
      ensures old(Dealer) != null ==> sb == old(Dealer).next
      ensures old(Dealer) == null && old(BigBlind) != null ==>
        var ns := activePlayers.Nodes; var k := old(FirstAhead(activePlayers.Nodes, BigBlind.Player.Name, 1, 0));
        k < |ns| && sb == ns[k]
      ensures old(Dealer) == null && old(BigBlind) == null && sb != null ==> sb == SmallBlind
    {
      if Dealer != null {
        NextMember(activePlayers, Dealer);
        return Dealer.next;
      } else if BigBlind != null {
        sb := BeforeBigBlind();
      } else {
        var failed := HandleOrphanedSeats();
        if failed {
          return null;
        }
        return SmallBlind;
      }
    }

    /**
     * The PreFlop case of NextCommunityAction: the flop is dealt, the
     * community state becomes Flop, the post-flop betting order is set
     * unless fewer than two players are left in the current list, and
     * `State` ends at Rounds.
     */
    method FlopStep() returns (o: Outcome)
      requires Valid()
      modifies deck, this`Community, this`comsorted, this`State, this`CommState
      modifies this`Dealer, this`SmallBlind, this`BigBlind, this`curPlayer, activePlayers, curPlayers
      ensures deck.cards == old(deck.cards)
      ensures o == Done ==> Valid() && State == TableStateRounds
      ensures old(deck.pos) > 49 ==> o == Panicked
      ensures old(deck.pos) <= 49 ==>
        CommState == TableStateFlop && deck.pos == old(deck.pos) + 3
        && Community == old(Community) + deck.cards[old(deck.pos)..old(deck.pos) + 3]
        && SortedByValue(comsorted)
        && multiset(comsorted) == multiset(old(comsorted)) + multiset(deck.cards[old(deck.pos)..old(deck.pos) + 3])
      ensures old(deck.pos) <= 49 && old(curPlayers.Len) < 2 ==> o == Done
      ensures old(deck.pos) <= 49 && old(curPlayers.Len) >= 2 ==>
        curPlayers.Len == old(curPlayers.Len)
        && activePlayers.Head == old(activePlayers.Head) && activePlayers.Nodes == old(activePlayers.Nodes)
      ensures old(deck.pos) <= 49 && old(curPlayers.Len) >= 2 && o == Done ==>
        curPlayer == curPlayers.Head && curPlayer != null
      ensures old(deck.pos) <= 49 && old(curPlayers.Len) >= 2 && o == Diverges ==>
        forall n :: n in activePlayers.Nodes ==> !n.Player.CanBet()
      ensures old(deck.pos) <= 49 && old(curPlayers.Len) >= 2 && old(SmallBlind) != null ==>
        Dealer == old(Dealer) && SmallBlind == old(SmallBlind) && BigBlind == old(BigBlind)
      ensures (old(deck.pos) <= 49 && old(curPlayers.Len) >= 2 && old(SmallBlind) != null
        && old(FirstWithName(curPlayers.Nodes, SmallBlind.Player.Name)) < old(curPlayers.Len)) ==>
        o == Done && curPlayers.Head == old(curPlayers.Nodes)[old(FirstWithName(curPlayers.Nodes, SmallBlind.Player.Name))]
    {
      ghost var k := if SmallBlind != null then FirstWithName(curPlayers.Nodes, SmallBlind.Player.Name) else 0;
      var failed := DoFlop();
      if failed {
        return Panicked;
      }
      CommState := TableStateFlop;
      assert Valid();
      assert SmallBlind != null ==> k == FirstWithName(curPlayers.Nodes, SmallBlind.Player.Name);
      o := FlopReorder();
    }

    /** After the flop is dealt: the post-flop betting order, unless fewer than two players are left. */
    method FlopReorder() returns (o: Outcome)
      requires Valid() && State == TableStateRounds
      modifies this`State, this`Dealer, this`SmallBlind, this`BigBlind, this`curPlayer, activePlayers, curPlayers
      ensures o == Done ==> Valid() && State == TableStateRounds
      ensures old(curPlayers.Len) < 2 ==> o == Done
      ensures curPlayers.Len == old(curPlayers.Len)
        && activePlayers.Head == old(activePlayers.Head) && activePlayers.Nodes == old(activePlayers.Nodes)
      ensures old(curPlayers.Len) >= 2 && o == Done ==> curPlayer == curPlayers.Head && curPlayer != null
      ensures o == Diverges ==> forall n :: n in activePlayers.Nodes ==> !n.Player.CanBet()
      ensures old(SmallBlind) != null ==>
        Dealer == old(Dealer) && SmallBlind == old(SmallBlind) && BigBlind == old(BigBlind)
      ensures (old(curPlayers.Len) >= 2 && old(SmallBlind) != null
        && old(FirstWithName(curPlayers.Nodes, SmallBlind.Player.Name)) < old(curPlayers.Len)) ==>
        o == Done && curPlayers.Head == old(curPlayers.Nodes)[old(FirstWithName(curPlayers.Nodes, SmallBlind.Player.Name))]
    {
      if !BettingIsImpossible() {
        o := ReorderPlayers();
        if o != Done {
          return o;
        }
      }
      State := TableStateRounds;
      return Done;
    }

    /**
     * After the flop: the current list starts at `sb`'s player, or, when
     * that player no longer bets, at the first player after the small blind
     * who can.
     */
    method ReorderFrom(sb: PlayerNode) returns (o: Outcome, ghost b: PlayerNode?)
      requires Valid() && sb in activePlayers.Nodes
      modifies this`curPlayer, curPlayers
      ensures curPlayers.Len == old(curPlayers.Len)
      ensures o == Done ==> Valid() && curPlayer == curPlayers.Head && curPlayer != null
      ensures var k := old(FirstWithName(curPlayers.Nodes, sb.Player.Name));
        k < old(curPlayers.Len) ==> o == Done && curPlayers.Head == old(curPlayers.Nodes)[k]
      ensures old(FirstWithName(curPlayers.Nodes, sb.Player.Name)) == old(curPlayers.Len) ==>
        if SmallBlind == null then o == Panicked
        else
          (o == Diverges <==> forall n :: n in activePlayers.Nodes ==> !n.Player.CanBet())
          && (o != Diverges ==>
                b != null && b in activePlayers.Nodes && b.Player.CanBet()
                && var k := old(FirstWithName(curPlayers.Nodes, b.Player.Name));
                (o == Done <==> k < old(curPlayers.Len)) && (o == Done ==> curPlayers.Head == old(curPlayers.Nodes)[k]))
    {
      b := null;
      var sbNode := curPlayers.GetPlayerNode(sb.Player);
      if sbNode == null {
        if SmallBlind == null {
          // table.SmallBlind.Next() on a nil small blind
          return Panicked, b;
        }
        o, b := ReorderAtBettor();
        return;
      }
      o := SetCurHead(sbNode);
    }

    /**
     * The small blind's player is not in the current list: the current
     * list starts at the first player after the small blind who can still
     * bet (`b`); the walk never ends when nobody can.
     */
    method ReorderAtBettor() returns (o: Outcome, ghost b: PlayerNode?)
      requires Valid() && SmallBlind != null
      modifies this`curPlayer, curPlayers
      ensures curPlayers.Len == old(curPlayers.Len)
      ensures o == Done ==> Valid() && curPlayer == curPlayers.Head && curPlayer != null
      ensures o == Diverges <==> forall n :: n in activePlayers.Nodes ==> !n.Player.CanBet()
      ensures o != Diverges ==> b != null && b in activePlayers.Nodes && b.Player.CanBet()
      ensures o != Diverges ==> var k := old(FirstWithName(curPlayers.Nodes, b.Player.Name));
        (o == Done <==> k < old(curPlayers.Len)) && (o == Done ==> curPlayers.Head == old(curPlayers.Nodes)[k])
    {
      var n, sbNode := BettorNode();
      b := n;
      if n == null {
        // `for !smallBlindNode.Player.canBet()` never exits
        return Diverges, b;
      }
      // a null node is the Assert(couldn't find a nonfolded player after Sb)
      o := SetCurHead(sbNode);
    }

    /** The first bettor `b` after the small blind, and the node of the current list carrying its name. */
    method BettorNode() returns (b: PlayerNode?, r: PlayerNode?)
      requires Valid() && SmallBlind != null
      ensures b == null <==> forall n :: n in activePlayers.Nodes ==> !n.Player.CanBet()
      ensures b != null ==> b in activePlayers.Nodes && b.Player.CanBet()
      ensures b != null ==> var k := FirstWithName(curPlayers.Nodes, b.Player.Name);
        r == if k < curPlayers.Len then curPlayers.Nodes[k] else null
    {
      ghost var start: nat, steps: nat;
      b, start, steps := FirstBettorAfter(SmallBlind);
      r := null;
      if b != null {
        r := curPlayers.GetPlayerNode(b.Player);
      }
    }

    /**
     * Puts the betting order back: before the flop both lists start after
     * the big blind; after it the current list starts at the small blind,
     * or at the first player after the small blind who can still bet.
     */
    method ReorderPlayers() returns (o: Outcome)
      requires Valid()
      modifies this`Dealer, this`SmallBlind, this`BigBlind, this`curPlayer, activePlayers, curPlayers
      ensures activePlayers.Len == old(activePlayers.Len) && curPlayers.Len == old(curPlayers.Len)
      ensures o == Done ==> Valid() && curPlayer == curPlayers.Head && curPlayer != null
      ensures o == Diverges ==> forall n :: n in activePlayers.Nodes ==> !n.Player.CanBet()
      ensures State in {TableStateNewRound, TableStatePreFlop} || old(SmallBlind) != null ==>
        Dealer == old(Dealer) && SmallBlind == old(SmallBlind) && BigBlind == old(BigBlind)
      ensures State in {TableStateNewRound, TableStatePreFlop} ==> o != Diverges
      ensures State in {TableStateNewRound, TableStatePreFlop} && old(BigBlind) == null ==> o == Panicked
      ensures State in {TableStateNewRound, TableStatePreFlop} && old(BigBlind) != null && old(BigBlind.next) != null ==>
        activePlayers.Valid() && activePlayers.Head == old(BigBlind.next)
        && var k := old(FirstWithName(curPlayers.Nodes, BigBlind.next.Player.Name));
        (o == Done <==> k < old(curPlayers.Len)) && (o == Done ==> curPlayers.Head == old(curPlayers.Nodes)[k])
      ensures State !in {TableStateNewRound, TableStatePreFlop} ==>
        activePlayers.Head == old(activePlayers.Head) && activePlayers.Nodes == old(activePlayers.Nodes)
      ensures (State !in {TableStateNewRound, TableStatePreFlop} && old(SmallBlind) != null
        && old(FirstWithName(curPlayers.Nodes, SmallBlind.Player.Name)) < old(curPlayers.Len)) ==>
        o == Done && curPlayers.Head == old(curPlayers.Nodes)[old(FirstWithName(curPlayers.Nodes, SmallBlind.Player.Name))]
    {
      if State == TableStateNewRound || State == TableStatePreFlop {
        if BigBlind == null {
          // table.BigBlind.Next() on a nil big blind
          return Panicked;
        }
        NextMember(activePlayers, BigBlind);
        o := ReorderPreFlop(BigBlind.next);
        return o;
      }
      o := ReorderPostFlop();
    }

    /** The branch of ReorderPlayers after the flop: the current list restarts at the small blind or its stand-in. */
    method ReorderPostFlop() returns (o: Outcome)
      requires Valid()
      modifies this`Dealer, this`SmallBlind, this`BigBlind, this`curPlayer, curPlayers
      ensures curPlayers.Len == old(curPlayers.Len)
      ensures o == Done ==> Valid() && curPlayer == curPlayers.Head && curPlayer != null
      ensures o == Diverges ==> forall n :: n in activePlayers.Nodes ==> !n.Player.CanBet()
      ensures old(SmallBlind) != null ==>
        Dealer == old(Dealer) && SmallBlind == old(SmallBlind) && BigBlind == old(BigBlind)
      ensures old(SmallBlind) != null && old(FirstWithName(curPlayers.Nodes, SmallBlind.Player.Name)) < old(curPlayers.Len) ==>
        o == Done && curPlayers.Head == old(curPlayers.Nodes)[old(FirstWithName(curPlayers.Nodes, SmallBlind.Player.Name))]
    {
      var sb := SmallBlind;
      if sb == null {
        sb := SmallBlindStandIn();
        if sb == null {
          // handleOrphanedSeats panicked
          return Panicked;
        }
      }
      ghost var b;
      o, b := ReorderFrom(sb);
    }

    /**
     * Moves the button: with at least two active players and a started
     * game, missing seats are repaired first (`d0`, `b0` are the dealer and
     * big blind then), the dealer moves to the big blind when the big
     * blind's successor is the dealer (heads-up) and to the next seat
     * otherwise, and the blinds follow it. The deferred ReorderPlayers
     * then runs; its outcome is `o`.
     */
    method RotatePlayers() returns (o: Outcome, ghost d0: PlayerNode?, ghost b0: PlayerNode?)
      requires Valid()
      modifies this`Dealer, this`SmallBlind, this`BigBlind, this`curPlayer, activePlayers, curPlayers
      ensures old(State) == TableStateNotStarted || old(activePlayers.Len) < 2 ==>
        o == Done && Dealer == old(Dealer) && SmallBlind == old(SmallBlind) && BigBlind == old(BigBlind)
        && curPlayer == old(curPlayer) && activePlayers.Head == old(activePlayers.Head)
        && curPlayers.Head == old(curPlayers.Head)
      ensures old(State) != TableStateNotStarted && old(activePlayers.Len) >= 2 ==>
        d0 != null && b0 != null && d0.next != null && b0.next != null
        && (old(Dealer) != null && old(SmallBlind) != null && old(BigBlind) != null ==>
              d0 == old(Dealer) && b0 == old(BigBlind))
        && Dealer == (if b0.next.Player.Name == d0.Player.Name then b0 else d0.next)
        && Dealer.next != null && SmallBlind == Dealer.next && BigBlind == SmallBlind.next
      ensures o == Done ==> Valid()
      ensures activePlayers.Len == old(activePlayers.Len) && curPlayers.Len == old(curPlayers.Len)
      ensures old(State) != TableStateNotStarted && old(activePlayers.Len) >= 2 && o == Done ==>
        curPlayer == curPlayers.Head && curPlayer != null
      ensures o == Diverges ==> forall n :: n in activePlayers.Nodes ==> !n.Player.CanBet()
      ensures old(State) in {TableStateNewRound, TableStatePreFlop} && old(activePlayers.Len) >= 2 ==>
        o != Diverges && BigBlind != null && BigBlind.next != null
        && activePlayers.Valid() && activePlayers.Head == BigBlind.next
        && var k := FirstWithName(old(curPlayers.Nodes), BigBlind.next.Player.Name);
        (o == Done <==> k < old(curPlayers.Len)) && (o == Done ==> curPlayers.Head == old(curPlayers.Nodes)[k])
      ensures old(State) !in {TableStateNotStarted, TableStateNewRound, TableStatePreFlop} && old(activePlayers.Len) >= 2 ==>
        activePlayers.Head == old(activePlayers.Head) && activePlayers.Nodes == old(activePlayers.Nodes)
        && SmallBlind != null
        && var k := FirstWithName(old(curPlayers.Nodes), SmallBlind.Player.Name);
        (k < old(curPlayers.Len) ==> o == Done && curPlayers.Head == old(curPlayers.Nodes)[k])
    {
      d0, b0 := Dealer, BigBlind;
      if State == TableStateNotStarted || activePlayers.Len < 2 {
        return Done, d0, b0;
      }
      if State == TableStateNewRound || State == TableStatePreFlop {
        o, d0, b0 := RotateBeforeFlop();
      } else {
        o, d0, b0 := RotateAfterFlop();
      }
    }

    /** RotatePlayers on a started table of at least two, before the flop: the big blind's successor heads both lists. */
    method RotateBeforeFlop() returns (o: Outcome, ghost d0: PlayerNode?, ghost b0: PlayerNode?)
      requires Valid() && State in {TableStateNewRound, TableStatePreFlop} && activePlayers.Len >= 2
      modifies this`Dealer, this`SmallBlind, this`BigBlind, this`curPlayer, activePlayers, curPlayers
      ensures d0 != null && b0 != null && d0.next != null && b0.next != null
        && (old(Dealer) != null && old(SmallBlind) != null && old(BigBlind) != null ==>
              d0 == old(Dealer) && b0 == old(BigBlind))
        && Dealer == (if b0.next.Player.Name == d0.Player.Name then b0 else d0.next)
        && Dealer.next != null && SmallBlind == Dealer.next && BigBlind == SmallBlind.next
      ensures o == Done ==> Valid() && curPlayer == curPlayers.Head && curPlayer != null
      ensures activePlayers.Len == old(activePlayers.Len) && curPlayers.Len == old(curPlayers.Len)
      ensures o != Diverges && BigBlind != null && BigBlind.next != null
        && activePlayers.Valid() && activePlayers.Head == BigBlind.next
        && var k := FirstWithName(old(curPlayers.Nodes), BigBlind.next.Player.Name);
        (o == Done <==> k < old(curPlayers.Len)) && (o == Done ==> curPlayers.Head == old(curPlayers.Nodes)[k])
    {
      d0, b0 := MoveButton();
      o := ReorderPlayers();
    }

    /** RotatePlayers on a started table of at least two, after the flop: the small blind's player heads the current list. */
    method RotateAfterFlop() returns (o: Outcome, ghost d0: PlayerNode?, ghost b0: PlayerNode?)
      requires Valid() && State !in {TableStateNotStarted, TableStateNewRound, TableStatePreFlop} && activePlayers.Len >= 2
      modifies this`Dealer, this`SmallBlind, this`BigBlind, this`curPlayer, activePlayers, curPlayers
      ensures d0 != null && b0 != null && d0.next != null && b0.next != null
        && (old(Dealer) != null && old(SmallBlind) != null && old(BigBlind) != null ==>
              d0 == old(Dealer) && b0 == old(BigBlind))
        && Dealer == (if b0.next.Player.Name == d0.Player.Name then b0 else d0.next)
        && Dealer.next != null && SmallBlind == Dealer.next && BigBlind == SmallBlind.next
      ensures o == Done ==> Valid() && curPlayer == curPlayers.Head && curPlayer != null
      ensures activePlayers.Len == old(activePlayers.Len) && curPlayers.Len == old(curPlayers.Len)
      ensures o == Diverges ==> forall n :: n in activePlayers.Nodes ==> !n.Player.CanBet()
      ensures activePlayers.Head == old(activePlayers.Head) && activePlayers.Nodes == old(activePlayers.Nodes)
        && SmallBlind != null
        && var k := FirstWithName(old(curPlayers.Nodes), SmallBlind.Player.Name);
        (k < old(curPlayers.Len) ==> o == Done && curPlayers.Head == old(curPlayers.Nodes)[k])
    {
      d0, b0 := MoveButton();
      o := ReorderPlayers();
    }

    /**
     * The button move of RotatePlayers on a ring of at least two: after
     * repairing missing seats (the dealer and big blind are then `d0` and
     * `b0`), heads-up the big blind deals, otherwise the next seat does.
     */
    method MoveButton() returns (ghost d0: PlayerNode?, ghost b0: PlayerNode?)
      requires Valid() && activePlayers.Len >= 2
      modifies this`Dealer, this`SmallBlind, this`BigBlind
      ensures Valid()
      ensures d0 != null && b0 != null && d0.next != null && b0.next != null
      ensures old(Dealer) != null && old(SmallBlind) != null && old(BigBlind) != null ==>
        d0 == old(Dealer) && b0 == old(BigBlind)
      ensures Dealer == (if b0.next.Player.Name == d0.Player.Name then b0 else d0.next)
      ensures Dealer.next != null && SmallBlind == Dealer.next && BigBlind == SmallBlind.next
      ensures BigBlind != null && BigBlind.next != null
    {
      if Dealer == null || SmallBlind == null || BigBlind == null {
        var failed := HandleOrphanedSeats();
        assert !failed;
      }
      d0, b0 := Dealer, BigBlind;
      NextMember(activePlayers, Dealer);
      NextMember(activePlayers, BigBlind);
      if BigBlind.next.Player.Name == Dealer.Player.Name {
        SetButton(BigBlind);
      } else {
        SetButton(Dealer.next);
      }
    }
  }

  /**
   * NewTable: a seat count outside 2..7 is refused; any other gives a table
   * with that many vacant seats, as the Table constructor describes.
   */
  method NewTable(deck: Deck, numSeats: uint8, lock: TableLock, password: string, CPUPlayers: seq<bool>)
    returns (t: Table?, err: Option<Error>)
    requires deck.Valid()
    requires 2 <= numSeats <= 7 ==> |CPUPlayers| >= numSeats as int
    ensures err.None? <==> 2 <= numSeats <= 7
    ensures err.Some? ==> t == null && err == Some(Error("numPlayers must be between 2 and 7"))
    ensures err.None? ==>
      t != null && fresh(t) && t.Valid() && t.deck == deck && t.NumSeats == numSeats && t.NumPlayers == 0
      && |t.players| == numSeats as int && (forall i :: 0 <= i < |t.players| ==> t.players[i].IsVacant)
      && t.Ante == 10 && t.Community == [] && t.State == TableStateNotStarted
  {
    if numSeats < 2 || numSeats > 7 {
      return null, Some(Error("numPlayers must be between 2 and 7"));
    }
    t := new Table(deck, numSeats, lock, password, CPUPlayers);
    return t, None;
  }

  /** The loop of addNewPlayers: a player added mid-round now waits for a first action. */
  method AdmitPlayers(ps: seq<Player>)
    modifies (set p | p in ps)`Action
    ensures forall p :: p in ps ==> p.Action == Admitted(old(p.Action))
  {
    var i := 0;
    while i < |ps|
      invariant 0 <= i <= |ps|
      invariant forall p :: p in ps ==> p.Action == if p in ps[..i] then Admitted(old(p.Action)) else old(p.Action)
    {
      var player := ps[i];
      AdmittedIdempotent(old(player.Action));
      if player.Action.Action == MidroundAddition {
        player.Action := player.Action.(Action := FirstAction);
      }
      assert ps[..i + 1] == ps[..i] + [player];
      i := i + 1;
    }
    assert ps[..i] == ps;
  }

  /** The seat loop of NewTable: `numSeats` fresh, distinct, vacant players "p0", "p1", ... */
  method NewSeats(numSeats: uint8, CPUPlayers: seq<bool>) returns (ps: seq<Player>)
    requires |CPUPlayers| >= numSeats as int
    ensures |ps| == numSeats as int
    ensures forall k :: 0 <= k < |ps| ==>
      fresh(ps[k]) && ps[k].defaultName == SeatName(k) && ps[k].Name == SeatName(k)
      && ps[k].IsVacant && ps[k].IsCPU == CPUPlayers[k]
    ensures forall k, l :: 0 <= k < l < |ps| ==> ps[k] != ps[l]
  {
    ps := [];
    var i: uint8 := 0;
    while i < numSeats
      invariant i <= numSeats && |ps| == i as int
      invariant forall k :: 0 <= k < |ps| ==>
        fresh(ps[k]) && ps[k].defaultName == SeatName(k) && ps[k].Name == SeatName(k)
        && ps[k].IsVacant && ps[k].IsCPU == CPUPlayers[k]
      invariant forall k, l :: 0 <= k < l < |ps| ==> ps[k] != ps[l]
    {
      var p := new Player(SeatName(i as nat), CPUPlayers[i]);
      ps := ps + [p];
      i := i + 1;
    }
  }

  /** The loop of NewRound over the active players: fresh cards, and a first action with nothing bet. */
  method ResetPlayers(ps: seq<Player>)
    modifies (set p | p in ps)`Action, (set p | p in ps)`Hole, (set p | p in ps)`Hand
    ensures forall p :: p in ps ==>
      p.Action == ActionOf(FirstAction, 0) && fresh(p.Hole) && p.Hole.Cards == [] && p.Hand == HandOf(RankMuck, 0, [])
  {
    var i := 0;
    while i < |ps|
      invariant 0 <= i <= |ps|
      invariant forall p :: p in ps[..i] ==>
        p.Action == ActionOf(FirstAction, 0) && fresh(p.Hole) && p.Hole.Cards == [] && p.Hand == HandOf(RankMuck, 0, [])
    {
      var player := ps[i];
      player.NewCards();
      player.Action := ActionOf(FirstAction, 0);
      assert ps[..i + 1] == ps[..i] + [player];
      i := i + 1;
    }
    assert ps[..i] == ps;
  }

  /** The pot part of NewRound: the main pot empty with its bet at `bet`, no side pots. */
  method ClearPots(main: Pot, side: SidePots, bet: Chips)
    modifies main`Players, main`Bet, main`Total, main`IsClosed, main`WinInfo, side`BettingPot, side.AllInPots`Pots
    ensures main.Bet == bet && main.Total == 0 && main.Players == map[] && side.IsEmpty()
  {
    main.Clear();
    main.Bet := bet;
    side.Clear();
  }

  /** In a ring, the successor of a member is a member. */
  lemma NextMember(l: PlayerList, x: PlayerNode?)
    requires l.Ring() && x in l.Nodes
    ensures x != null && x.next != null && x.next in l.Nodes
  {
    var m :| 0 <= m < |l.Nodes| && l.Nodes[m] == x;
    NextInRing(l, m);
  }

  /** Each node of `rs` but the last links to the one after it. */
  ghost predicate Chain(rs: seq<PlayerNode>)
    reads rs
  {
    forall j :: 0 <= j < |rs| - 1 ==> rs[j].next == rs[j + 1]
  }

  /** A ring read from any of its positions is a chain. */
  lemma RotatedChain(l: PlayerList, start: nat)
    requires l.Ring() && start < |l.Nodes|
    ensures Chain(l.Nodes[start..] + l.Nodes[..start])
  {
    var rs := l.Nodes[start..] + l.Nodes[..start];
    forall c | 0 <= c < |rs| - 1
      ensures rs[c].next == rs[c + 1]
    {
      RotatedNext(l, start, c);
    }
  }

  /**
   * The `for !node.Player.canBet()` walk along the chain `rs` from `first`,
   * stopped after `len` nodes: `c` is the position of the first player who
   * can bet, or `len` when nobody can.
   */
  method WalkToBettor(first: PlayerNode, len: int, ghost rs: seq<PlayerNode>) returns (n: PlayerNode, c: nat)
    requires |rs| == len && len > 0 && rs[0] == first && Chain(rs)
    ensures c <= |rs| && (c < |rs| ==> n == rs[c] && n.Player.CanBet())
    ensures forall j :: 0 <= j < c ==> !rs[j].Player.CanBet()
  {
    n, c := first, 0;
    while c < len && !n.Player.CanBet()
      invariant 0 <= c <= |rs|
      invariant c < |rs| ==> n == rs[c]
      invariant forall j :: 0 <= j < c ==> !rs[j].Player.CanBet()
    {
      if c + 1 == len {
        return n, len;
      }
      assert n.next == rs[c + 1];
      n, c := n.next, c + 1;
    }
  }

  /** Read from position `start`, consecutive nodes of a ring are still linked. */
  lemma RotatedNext(l: PlayerList, start: nat, c: nat)
    requires l.Ring() && start < |l.Nodes| && c + 1 < |l.Nodes|
    ensures var rs := l.Nodes[start..] + l.Nodes[..start]; rs[c].next == rs[c + 1]
  {
    var ns := l.Nodes;
    var n := |ns|;
    var rs := ns[start..] + ns[..start];
    var a := if c < n - start then start + c else c - (n - start);
    assert rs[c] == ns[a];
    NextInRing(l, a);
    assert rs[c + 1] == ns[Succ(a, n)];
  }
}
