/**
 * internal/poker/pot.go: pots keyed by player name, side pots with their
 * uint64 total calculation, the ordered array of all-in side pots, and the
 * collection of all side pots of a round.
 */
module PokerPot {
  import opened Common
  import opened PokerPlayer

  class Pot {
    var Name: string
    var Bet: Chips
    var Total: Chips
    var Players: map<string, Player>
    var IsClosed: bool
    var WinInfo: string

    /** NewPot: an empty, open pot; the empty name becomes "unnamed pot". */
    constructor (name: string, bet: Chips)
      ensures Name == (if name == "" then "unnamed pot" else name)
      ensures Bet == bet && Total == 0 && Players == map[] && !IsClosed && WinInfo == ""
    {
      Name := if name == "" then "unnamed pot" else name;
      Bet := bet;
      Total := 0;
      Players := map[];
      IsClosed := false;
      WinInfo := "";
    }

    /** The source's range loop over `players`, storing each entry under its key. */
    method PutAll(players: map<string, Player>)
      modifies this`Players
      ensures Players == old(Players) + players
    {
      var rest := players.Keys;
      while rest != {}
        invariant rest <= players.Keys
        invariant Players == old(Players) + (map k | k in players && k !in rest :: players[k])
        decreases |rest|
      {
        var name :| name in rest;
        Players := Players[name := players[name]];
        rest := rest - {name};
      }
      assert (map k | k in players && k !in rest :: players[k]) == players;
    }

    method WithPlayers(players: map<string, Player>) returns (r: Pot)
      modifies this`Players
      ensures r == this && Players == old(Players) + players
    {
      PutAll(players);
      return this;
    }

    /** Membership is by the player's current name. */
    predicate HasPlayer(player: Player)
      reads this, player
      ensures HasPlayer(player) <==> player.Name in Players
    {
      player.Name in Players
    }

    /** Stores `player` under its name; adding the same player again changes nothing. */
    method AddPlayer(player: Player)
      modifies this`Players
      ensures Players == old(Players)[player.Name := player]
      ensures player.Name in old(Players) && old(Players)[player.Name] == player ==> Players == old(Players)
    {
      Players := Players[player.Name := player];
    }

    method AddPlayers(playerMap: map<string, Player>)
      modifies this`Players
      ensures Players == old(Players) + playerMap
    {
      PutAll(playerMap);
    }

    /** Deletes only `player`'s name; a null player empties the pot's player map. */
    method RemovePlayer(player: Player?)
      modifies this`Players
      ensures player == null ==> Players == map[]
      ensures player != null ==> Players == old(Players) - {player.Name}
    {
      if player == null {
        Players := map[];
      } else {
        Players := Players - {player.Name};
      }
    }

    /** Resets players, bet, total, closed flag and win text; the name is kept. */
    method Clear()
      modifies this`Players, this`Bet, this`Total, this`IsClosed, this`WinInfo
      ensures Players == map[] && Bet == 0 && Total == 0 && !IsClosed && WinInfo == ""
      ensures Name == old(Name)
    {
      Players := map[];
      Bet := 0;
      Total := 0;
      IsClosed := false;
      WinInfo := "";
    }
  }

  /** Go's conversion of a length (a non-negative int) to `Chips`. */
  function LenChips(n: nat): Chips {
    n % UINT64_LIMIT
  }

  /** A side pot embeds a pot and may carry the pot of players who must still call. */
  class SidePot {
    const Pot: Pot
    var MustCall: Pot?

    /** NewSidePot: a fresh pot named "unknown sidepot" with the given bet. */
    constructor (bet: Chips)
      ensures fresh(Pot) && Pot.Name == "unknown sidepot" && Pot.Bet == bet
      ensures Pot.Total == 0 && Pot.Players == map[] && !Pot.IsClosed && MustCall == null
    {
      Pot := new Pot("unknown sidepot", bet);
      MustCall := null;
    }

    method WithName(name: string) returns (r: SidePot)
      modifies Pot`Name
      ensures r == this && Pot.Name == name
    {
      Pot.Name := name;
      return this;
    }

    method WithPlayers(players: map<string, Player>) returns (r: SidePot)
      modifies Pot`Players
      ensures r == this && Pot.Players == old(Pot.Players) + players
    {
      Pot.PutAll(players);
      return this;
    }

    /** Names the side pot after `player` and adds the player. */
    method WithPlayer(player: Player) returns (r: SidePot)
      modifies Pot`Name, Pot`Players
      ensures r == this
      ensures Pot.Name == player.Name + " sidePot"
      ensures Pot.Players == old(Pot.Players)[player.Name := player]
    {
      Pot.Name := player.Name + " sidePot";
      Pot.Players := Pot.Players[player.Name := player];
      return this;
    }

    method WithMustCall(mustCall: Pot?) returns (r: SidePot)
      modifies this`MustCall
      ensures r == this && MustCall == mustCall
    {
      MustCall := mustCall;
      return this;
    }

    /**
     * Adds the must-call pot's bet times its number of players (when there
     * is one), then (Bet - prevBet) times this pot's number of players. All
     * of it is uint64 arithmetic: the subtraction wraps when prevBet > Bet
     * and each sum and product wraps modulo 2^64. The net effect is exact
     * integer arithmetic reduced modulo 2^64.
     */
    method Calculate(prevBet: Chips)
      modifies Pot`Total
      ensures Pot.Total == (old(Pot.Total) + old(MustCallChips(MustCall)) + (Pot.Bet - prevBet) * |Pot.Players|) % UINT64_LIMIT
    {
      ghost var t0 := Pot.Total;
      ghost var mcBet, mcLen := 0, 0;
      if MustCall != null {
        mcBet, mcLen := MustCall.Bet, |MustCall.Players|;
        var mustCallChips := MulWrap64(MustCall.Bet, LenChips(|MustCall.Players|));
        Pot.Total := AddWrap64(Pot.Total, mustCallChips);
      }
      Pot.Total := AddWrap64(Pot.Total, MulWrap64(SubWrap64(Pot.Bet, prevBet), LenChips(|Pot.Players|)));
      CalculateExact(t0, mcBet, mcLen, Pot.Bet, prevBet, |Pot.Players|);
    }
  }

  /** The exact number of chips a must-call pot adds: its bet once per player in it; none without one. */
  ghost function MustCallChips(mc: Pot?): (r: int)
    reads mc
    ensures mc == null ==> r == 0
  {
    if mc == null then 0 else mc.Bet * |mc.Players|
  }

  /** The two uint64 updates of Calculate equal the exact sum reduced modulo 2^64. */
  lemma CalculateExact(t0: Chips, mcBet: Chips, mcLen: nat, bet: Chips, prevBet: Chips, n: nat)
    ensures var t1 := AddWrap64(t0, MulWrap64(mcBet, LenChips(mcLen)));
      AddWrap64(t1, MulWrap64(SubWrap64(bet, prevBet), LenChips(n)))
        == (t0 + mcBet * mcLen + (bet - prevBet) * n) % UINT64_LIMIT
  {
    MulWrapExact(mcBet, mcLen);
    var d := SubWrap64(bet, prevBet);
    MulWrapExact(d, n);
    ModMulLeft(bet - prevBet, n);
    WrapSum(t0, MulWrap64(mcBet, LenChips(mcLen)), mcBet * mcLen, MulWrap64(d, LenChips(n)), (bet - prevBet) * n);
  }

  /** Two uint64 additions of reduced terms equal the exact sum reduced modulo 2^64. */
  lemma WrapSum(t0: Chips, x: Chips, a: int, y: Chips, b: int)
    requires x == a % UINT64_LIMIT && y == b % UINT64_LIMIT
    ensures AddWrap64(AddWrap64(t0, x), y) == (t0 + a + b) % UINT64_LIMIT
  {
    ModAddRight(t0, a);
    ModAddRight(AddWrap64(t0, x), b);
    ModAddLeft(t0 + a, b);
  }

  /** Without wrap-around, Calculate adds exactly the must-call chips and the new bets. */
  lemma CalculateNoWrap(t0: Chips, mcBet: Chips, mcLen: nat, bet: Chips, prevBet: Chips, n: nat)
    requires prevBet <= bet
    requires t0 + mcBet * mcLen + (bet - prevBet) * n < UINT64_LIMIT
    ensures var t1 := AddWrap64(t0, MulWrap64(mcBet, LenChips(mcLen)));
      AddWrap64(t1, MulWrap64(SubWrap64(bet, prevBet), LenChips(n))) == t0 + mcBet * mcLen + (bet - prevBet) * n
  {
    CalculateExact(t0, mcBet, mcLen, bet, prevBet, n);
    NonNegProduct(mcBet, mcLen);
    NonNegProduct(bet - prevBet, n);
    SmallMod(t0 + mcBet * mcLen + (bet - prevBet) * n);
  }

  lemma NonNegProduct(x: nat, y: nat)
    ensures x * y >= 0
  {
  }

  lemma SmallMod(e: int)
    requires 0 <= e < UINT64_LIMIT
    ensures e % UINT64_LIMIT == e
  {
  }

  /** A uint64 product of x and a converted length is the exact product reduced modulo 2^64. */
  lemma MulWrapExact(x: Chips, n: nat)
    ensures MulWrap64(x, LenChips(n)) == (x * n) % UINT64_LIMIT
  {
    ModMulLeft(n, x);
    assert x * LenChips(n) == LenChips(n) * x;
    assert x * n == n * x;
  }

  /** Reducing the right operand of a sum first does not change the sum modulo 2^64. */
  lemma ModAddRight(a: int, b: int)
    ensures (a + b % UINT64_LIMIT) % UINT64_LIMIT == (a + b) % UINT64_LIMIT
  {
    ModAddLeft(b, a);
  }

  /** The pots of `ps` that are not closed, in their original order. */
  function OpenPots(ps: seq<SidePot>): (r: seq<SidePot>)
    reads set i | 0 <= i < |ps| :: ps[i].Pot
    ensures |r| <= |ps|
    ensures forall i :: 0 <= i < |r| ==> r[i] in ps && !r[i].Pot.IsClosed
    ensures forall p :: p in ps && !p.Pot.IsClosed ==> p in r
  {
    if ps == [] then []
    else if !ps[0].Pot.IsClosed then [ps[0]] + OpenPots(ps[1..])
    else OpenPots(ps[1..])
  }

  /** The all-in side pots of a round, in the order they were created. */
  class SidePotArray {
    var Pots: seq<SidePot>

    constructor ()
      ensures Pots == []
    {
      Pots := [];
    }

    method Add(sidePot: SidePot)
      modifies this
      ensures Pots == old(Pots) + [sidePot]
    {
      Pots := Pots + [sidePot];
    }

    /**
     * Insert as the source writes it. It panics for a negative index, or
     * for an index past the last pot of a non-empty array; on an empty
     * array a positive index overruns the slice's zero capacity and panics
     * too. Index 0 prepends. For a positive index the inner `append` writes
     * `sidePot` into the shared backing array at `idx` before the suffix is
     * read, so the result is computed by `InsertAsWritten`.
     */
    method Insert(sidePot: SidePot, idx: int) returns (panicked: bool)
      modifies this
      ensures panicked <==> !InsertAccepts(|old(Pots)|, idx)
      ensures panicked ==> Pots == old(Pots)
      ensures !panicked ==> Pots == InsertAsWritten(old(Pots), sidePot, idx)
    {
      if idx < 0 || (|Pots| != 0 && idx > |Pots| - 1) {
        return true;
      }
      if idx == 0 {
        Pots := [sidePot] + Pots;
      } else {
        if |Pots| == 0 {
          // Pots[:idx] with idx greater than the capacity, 0
          return true;
        }
        var prefix := Pots[..idx] + [sidePot];
        var shared := prefix + Pots[idx + 1..];
        Pots := prefix + shared[idx..];
      }
      return false;
    }

    /** Insert as evidently intended: `sidePot` lands at `idx` and every old pot is kept. */
    method InsertIntended(sidePot: SidePot, idx: int) returns (panicked: bool)
      modifies this
      ensures panicked <==> !InsertAccepts(|old(Pots)|, idx)
      ensures panicked ==> Pots == old(Pots)
      ensures !panicked ==> Pots == InsertedAt(old(Pots), sidePot, idx)
    {
      if !InsertAccepts(|Pots|, idx) {
        return true;
      }
      Pots := Pots[..idx] + [sidePot] + Pots[idx..];
      return false;
    }

    /** The open pots, collected by a loop over `Pots`. */
    method GetOpenPots() returns (openSidePots: seq<SidePot>)
      ensures openSidePots == OpenPots(Pots)
    {
      openSidePots := [];
      var i := 0;
      while i < |Pots|
        invariant 0 <= i <= |Pots|
        invariant openSidePots + OpenPots(Pots[i..]) == OpenPots(Pots)
      {
        assert Pots[i..][1..] == Pots[i + 1..];
        if !Pots[i].Pot.IsClosed {
          openSidePots := openSidePots + [Pots[i]];
        }
        i := i + 1;
      }
    }

    /** The pots from `idx` on; empty unless 0 <= idx < |Pots|. */
    function GetPotsStartingAt(idx: int): (r: seq<SidePot>)
      reads this
      ensures 0 <= idx < |Pots| ==> |r| == |Pots| - idx && forall i :: 0 <= i < |r| ==> r[i] == Pots[idx + i]
      ensures !(0 <= idx < |Pots|) ==> r == []
    {
      if idx < 0 || idx > |Pots| - 1 then [] else Pots[idx..]
    }

    /** The last open pot, or null when every pot is closed. */
    method GetLargest() returns (r: SidePot?)
      ensures r == null <==> OpenPots(Pots) == []
      ensures r != null ==> r == OpenPots(Pots)[|OpenPots(Pots)| - 1] && !r.Pot.IsClosed && r in Pots
    {
      var openSidePots := GetOpenPots();
      if |openSidePots| == 0 {
        return null;
      }
      return openSidePots[|openSidePots| - 1];
    }

    /** Closes every open pot; only the pots' closed flags change. */
    method CloseAll()
      modifies (set i | 0 <= i < |Pots| :: Pots[i].Pot)`IsClosed
      ensures forall i :: 0 <= i < |Pots| ==> Pots[i].Pot.IsClosed
      ensures OpenPots(Pots) == []
    {
      var open := GetOpenPots();
      CloseEach(open, Pots);
      forall k | 0 <= k < |Pots| ensures Pots[k].Pot.IsClosed {
        if !old(Pots[k].Pot.IsClosed) {
          assert Pots[k] in open;
        }
      }
      NoOpenPots(Pots);
    }

    predicate IsEmpty()
      reads this
      ensures IsEmpty() <==> Pots == []
    {
      |Pots| == 0
    }
  }

  /** The loop of CloseAll: sets the closed flag of each pot of `ps`, a selection of `all`. */
  method CloseEach(ps: seq<SidePot>, ghost all: seq<SidePot>)
    requires forall p :: p in ps ==> p in all
    modifies (set p | p in ps :: p.Pot)`IsClosed
    ensures forall p :: p in ps ==> p.Pot.IsClosed
    ensures forall k :: 0 <= k < |all| && old(all[k].Pot.IsClosed) ==> all[k].Pot.IsClosed
  {
    var i := 0;
    while i < |ps|
      invariant 0 <= i <= |ps|
      invariant forall j :: 0 <= j < i ==> ps[j].Pot.IsClosed
      invariant forall k :: 0 <= k < |all| && old(all[k].Pot.IsClosed) ==> all[k].Pot.IsClosed
    {
      ps[i].Pot.IsClosed := true;
      i := i + 1;
    }
  }

  /** When every pot is closed there are no open pots. */
  lemma {:induction false} NoOpenPots(ps: seq<SidePot>)
    requires forall p :: p in ps ==> p.Pot.IsClosed
    ensures OpenPots(ps) == []
  {
    if ps != [] {
      NoOpenPots(ps[1..]);
    }
  }

  /** The indices Insert accepts for an array of length n. */
  predicate InsertAccepts(n: nat, idx: int) {
    0 <= idx && (n == 0 ==> idx == 0) && (n != 0 ==> idx <= n - 1)
  }

  /** The Go result of `append(append(s[:idx], x), s[idx:]...)` when s[:idx] shares s's backing array. */
  function InsertAsWritten<T>(s: seq<T>, x: T, idx: int): seq<T>
    requires InsertAccepts(|s|, idx)
  {
    if idx == 0 then [x] + s
    else s[..idx] + [x] + ([x] + s[idx + 1..])
  }

  /** A clean insertion at `idx`. */
  function InsertedAt<T>(s: seq<T>, x: T, idx: int): (r: seq<T>)
    requires 0 <= idx <= |s|
    ensures |r| == |s| + 1 && r[idx] == x
    ensures forall i :: 0 <= i < idx ==> r[i] == s[i]
    ensures forall i :: idx <= i < |s| ==> r[i + 1] == s[i]
  {
    s[..idx] + [x] + s[idx..]
  }

  /** The intended insertion keeps every old element, plus the new one. */
  lemma InsertedAtMultiset<T>(s: seq<T>, x: T, idx: int)
    requires 0 <= idx <= |s|
    ensures multiset(InsertedAt(s, x, idx)) == multiset(s) + multiset{x}
  {
    assert s == s[..idx] + s[idx..];
  }

  /** At index 0 the written code agrees with the intended insertion. */
  lemma InsertAtZeroAgrees<T>(s: seq<T>, x: T)
    ensures InsertAsWritten(s, x, 0) == InsertedAt(s, x, 0)
  {
  }

  /**
   * The written code at a positive index: the old element at `idx` is gone
   * and `x` appears twice. With [a, b] and index 1 it yields [a, x, x].
   */
  lemma {:induction false} InsertAsWrittenLosesElement<T>(s: seq<T>, x: T, idx: int)
    requires InsertAccepts(|s|, idx) && idx > 0
    ensures |InsertAsWritten(s, x, idx)| == |s| + 1
    ensures InsertAsWritten(s, x, idx)[idx] == x && InsertAsWritten(s, x, idx)[idx + 1] == x
    ensures multiset(InsertAsWritten(s, x, idx)) == multiset(s) - multiset{s[idx]} + multiset{x, x}
  {
    var r := InsertAsWritten(s, x, idx);
    assert s == s[..idx] + [s[idx]] + s[idx + 1..];
    assert r == s[..idx] + [x] + [x] + s[idx + 1..];
    calc {
      multiset(r);
      multiset(s[..idx]) + multiset{x} + multiset{x} + multiset(s[idx + 1..]);
      multiset(s[..idx]) + multiset(s[idx + 1..]) + multiset{x, x};
    }
    assert multiset(s) == multiset(s[..idx]) + multiset{s[idx]} + multiset(s[idx + 1..]);
  }

  /** Concrete witness: inserting 9 at index 1 of [1, 2] gives [1, 9, 9] instead of [1, 9, 2]. */
  lemma InsertAsWrittenExample()
    ensures InsertAsWritten([1, 2], 9, 1) == [1, 9, 9]
    ensures InsertedAt([1, 2], 9, 1) == [1, 9, 2]
  {
  }

  /** All side pots of a round: the all-in pots and the pot being bet into. */
  class SidePots {
    const AllInPots: SidePotArray
    var BettingPot: SidePot?

    /** NewSidePots: no all-in pots and no betting pot. */
    constructor ()
      ensures fresh(AllInPots) && AllInPots.Pots == [] && BettingPot == null
    {
      AllInPots := new SidePotArray();
      BettingPot := null;
    }

    /** The all-in pots in order, then the betting pot when there is one. */
    method GetAllPots() returns (pots: seq<SidePot>)
      ensures pots == AllInPots.Pots + (if BettingPot != null then [BettingPot] else [])
    {
      pots := [];
      var i := 0;
      while i < |AllInPots.Pots|
        invariant 0 <= i <= |AllInPots.Pots|
        invariant pots == AllInPots.Pots[..i]
      {
        pots := pots + [AllInPots.Pots[i]];
        i := i + 1;
      }
      if BettingPot != null {
        pots := pots + [BettingPot];
      }
    }

    predicate IsEmpty()
      reads this, AllInPots
      ensures IsEmpty() <==> AllInPots.Pots == [] && BettingPot == null
    {
      AllInPots.IsEmpty() && BettingPot == null
    }

    method Clear()
      modifies this`BettingPot, AllInPots`Pots
      ensures AllInPots.Pots == [] && BettingPot == null && IsEmpty()
    {
      AllInPots.Pots := [];
      BettingPot := null;
    }
  }
}
