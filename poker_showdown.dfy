/**
 * internal/poker/poker.go, showdown: picking the winners among the players
 * still in the hand (BestHand and checkTies) and the entry step of the hand
 * evaluation (AssembleBestHand).
 */
module PokerShowdown {
  import opened Common
  import opened PokerCard
  import opened PokerPlayer
  import opened PokerTable

  /** What a selection pass compares: the hand's rank, or the value of the hand card at an index. */
  datatype Key = RankKey | CardKey(idx: int)

  /**
   * The compared value of a player. An index outside the hand reads as 0
   * here; the source panics there, and CheckTies rules that case out first.
   */
  function KeyOf(p: Player, key: Key): int
    reads p
  {
    match key
    case RankKey => p.Hand.Rank
    case CardKey(i) => if 0 <= i < |p.Hand.Cards| then p.Hand.Cards[i].NumValue as int else 0
  }

  /** The largest key among the players. */
  ghost function MaxKey(ps: seq<Player>, key: Key): int
    requires |ps| > 0
    reads set p | p in ps
  {
    var last := ps[|ps| - 1];
    if |ps| == 1 then KeyOf(last, key)
    else
      var m := MaxKey(ps[..|ps| - 1], key);
      if KeyOf(last, key) > m then KeyOf(last, key) else m
  }

  /** The players whose key is `m`, in their order in `ps`. */
  ghost function WithKey(ps: seq<Player>, key: Key, m: int): (r: seq<Player>)
    reads set p | p in ps
    ensures forall p :: p in r ==> p in ps
  {
    if ps == [] then []
    else
      var last := ps[|ps| - 1];
      WithKey(ps[..|ps| - 1], key, m) + (if KeyOf(last, key) == m then [last] else [])
  }

  /** MaxKey bounds every key and is the key of some player. */
  lemma {:induction false} MaxKeyIsMax(ps: seq<Player>, key: Key)
    requires |ps| > 0
    ensures forall q :: q in ps ==> KeyOf(q, key) <= MaxKey(ps, key)
    ensures exists q :: q in ps && KeyOf(q, key) == MaxKey(ps, key)
  {
    var last := ps[|ps| - 1];
    if |ps| > 1 {
      var init := ps[..|ps| - 1];
      MaxKeyIsMax(init, key);
      assert forall q :: q in ps ==> q in init || q == last;
      var w :| w in init && KeyOf(w, key) == MaxKey(init, key);
      assert w in ps;
    } else {
      assert last in ps;
    }
  }

  /** WithKey keeps exactly the players whose key is `m`. */
  lemma {:induction false} WithKeyExactly(ps: seq<Player>, key: Key, m: int)
    ensures forall p :: p in WithKey(ps, key, m) <==> p in ps && KeyOf(p, key) == m
  {
    if ps != [] {
      var init := ps[..|ps| - 1];
      WithKeyExactly(init, key, m);
      assert forall q :: q in ps <==> q in init || q == ps[|ps| - 1];
    }
  }

  /** Keeping the players of the largest key keeps at least one. */
  lemma WithMaxNonEmpty(ps: seq<Player>, key: Key)
    requires |ps| > 0
    ensures |WithKey(ps, key, MaxKey(ps, key))| > 0
  {
    MaxKeyIsMax(ps, key);
    WithKeyExactly(ps, key, MaxKey(ps, key));
    var w :| w in ps && KeyOf(w, key) == MaxKey(ps, key);
    assert w in WithKey(ps, key, MaxKey(ps, key));
  }

  /** No player has a key of `m` or more, so none is kept. */
  lemma WithKeyAbove(ps: seq<Player>, key: Key, m: int)
    requires forall q :: q in ps ==> KeyOf(q, key) < m
    ensures WithKey(ps, key, m) == []
  {
    WithKeyExactly(ps, key, m);
  }

  /** MaxKey extended by one player. */
  lemma MaxKeySnoc(ps: seq<Player>, x: Player, key: Key)
    requires |ps| > 0
    ensures MaxKey(ps + [x], key) == if KeyOf(x, key) > MaxKey(ps, key) then KeyOf(x, key) else MaxKey(ps, key)
  {
    assert (ps + [x])[..|ps|] == ps;
  }

  /** WithKey extended by one player. */
  lemma WithKeySnoc(ps: seq<Player>, x: Player, key: Key, m: int)
    ensures WithKey(ps + [x], key, m) == WithKey(ps, key, m) + (if KeyOf(x, key) == m then [x] else [])
  {
    assert (ps + [x])[..|ps|] == ps;
  }

  /** One step of KeepBest's loop keeps its invariant for the prefix extended by `x`. */
  lemma KeepBestStep(pre: seq<Player>, x: Player, key: Key, best: seq<Player>)
    requires |pre| > 0 && |best| > 0
    requires best == WithKey(pre, key, MaxKey(pre, key)) && KeyOf(best[0], key) == MaxKey(pre, key)
    ensures var nb := if KeyOf(x, key) == KeyOf(best[0], key) then best + [x]
                      else if KeyOf(x, key) > KeyOf(best[0], key) then [x] else best;
      |nb| > 0 && nb == WithKey(pre + [x], key, MaxKey(pre + [x], key)) && KeyOf(nb[0], key) == MaxKey(pre + [x], key)
  {
    MaxKeySnoc(pre, x, key);
    if KeyOf(x, key) == KeyOf(best[0], key) {
      WithKeySnoc(pre, x, key, KeyOf(x, key));
    } else if KeyOf(x, key) > KeyOf(best[0], key) {
      MaxKeyIsMax(pre, key);
      WithKeyAbove(pre, key, KeyOf(x, key));
      WithKeySnoc(pre, x, key, KeyOf(x, key));
    } else {
      WithKeySnoc(pre, x, key, KeyOf(best[0], key));
    }
  }

  /**
   * The selection loop shared by BestHand and checkTies: start from the first
   * player, append a player with an equal key, restart from a player with a
   * greater one. The result is the players of the largest key, in order.
   */
  method KeepBest(players: seq<Player>, key: Key) returns (best: seq<Player>)
    requires |players| > 0
    ensures best == WithKey(players, key, MaxKey(players, key))
  {
    best := [players[0]];
    assert players[..1][..0] == [];
    var i := 1;
    while i < |players|
      invariant 1 <= i <= |players|
      invariant best == WithKey(players[..i], key, MaxKey(players[..i], key))
      invariant |best| > 0 && KeyOf(best[0], key) == MaxKey(players[..i], key)
    {
      var player := players[i];
      assert players[..i + 1] == players[..i] + [player];
      KeepBestStep(players[..i], player, key, best);
      if KeyOf(player, key) == KeyOf(best[0], key) {
        best := best + [player];
      } else if KeyOf(player, key) > KeyOf(best[0], key) {
        best := [player];
      }
      i := i + 1;
    }
    assert players[..i] == players;
  }

  /** Every hand among the players has a card at index `k`. */
  predicate Indexable(ps: seq<Player>, k: int)
    reads set p | p in ps
  {
    forall p :: p in ps ==> 0 <= k < |p.Hand.Cards|
  }

  /**
   * When checkTies panics: it goes on comparing (more than one player, or
   * none, and an index other than -1) and there is no first player, or some
   * hand has no card at the index.
   */
  predicate TiesPanic(ps: seq<Player>, k: int)
    reads set p | p in ps
  {
    |ps| != 1 && k != -1 && (|ps| == 0 || !Indexable(ps, k))
  }

  /** What checkTies returns: narrow to the highest card at `k`, then at k - 1, down to index 0. */
  ghost function Ties(ps: seq<Player>, k: int): seq<Player>
    reads set p | p in ps
    decreases if k < 0 then 0 else k + 1
  {
    if |ps| <= 1 || k < 0 then ps
    else Ties(WithKey(ps, CardKey(k), MaxKey(ps, CardKey(k))), k - 1)
  }

  /** checkTies: the tie-break on hand cards k, k - 1, ..., 0. */
  method CheckTies(players: seq<Player>, cardidx: int) returns (tied: seq<Player>, panicked: bool)
    ensures panicked <==> TiesPanic(players, cardidx)
    ensures !panicked ==> tied == Ties(players, cardidx)
    decreases if cardidx < 0 then 0 else cardidx + 1
  {
    if |players| == 1 || cardidx == -1 {
      return players, false;
    }
    if |players| == 0 || !Indexable(players, cardidx) {
      // players[0] or Hand.Cards[cardidx] is out of range
      return [], true;
    }
    var best := KeepBest(players, CardKey(cardidx));
    WithMaxNonEmpty(players, CardKey(cardidx));
    tied, panicked := CheckTies(best, cardidx - 1);
  }

  /** The values of hand cards k, k - 1, ..., 0: the order checkTies compares them in. */
  ghost function Values(p: Player, k: int): seq<int>
    reads p
    decreases if k < 0 then 0 else k + 1
  {
    if k < 0 then [] else [KeyOf(p, CardKey(k))] + Values(p, k - 1)
  }

  /** `a` is at most `b` in lexicographic order. */
  ghost predicate LexLe(a: seq<int>, b: seq<int>)
  {
    |a| == 0 || |b| == 0 || a[0] < b[0] || (a[0] == b[0] && LexLe(a[1..], b[1..]))
  }

  lemma {:induction false} LexLeRefl(a: seq<int>)
    ensures LexLe(a, a)
  {
    if |a| > 0 {
      LexLeRefl(a[1..]);
    }
  }

  lemma {:induction false} LexLeAntisym(a: seq<int>, b: seq<int>)
    requires |a| == |b| && LexLe(a, b) && LexLe(b, a)
    ensures a == b
  {
    if |a| > 0 {
      LexLeAntisym(a[1..], b[1..]);
      assert a == [a[0]] + a[1..] && b == [b[0]] + b[1..];
    }
  }

  lemma ValuesLength(p: Player, k: int)
    ensures |Values(p, k)| == if k < 0 then 0 else k + 1
    decreases if k < 0 then 0 else k + 1
  {
    if k >= 0 {
      ValuesLength(p, k - 1);
    }
  }

  /**
   * The players checkTies returns: at least one, all of them from the input,
   * none beaten by an input player on cards k..0 (lexicographically), and
   * every input player with the same cards k..0 among them.
   */
  lemma {:induction false} TiesMeaning(ps: seq<Player>, k: int)
    requires |ps| > 0
    ensures |Ties(ps, k)| > 0
    ensures forall p :: p in Ties(ps, k) ==> p in ps
    ensures forall p, q :: p in Ties(ps, k) && q in ps ==> LexLe(Values(q, k), Values(p, k))
    ensures forall p, q :: p in Ties(ps, k) && q in ps && Values(q, k) == Values(p, k) ==> q in Ties(ps, k)
    decreases if k < 0 then 0 else k + 1
  {
    if |ps| <= 1 || k < 0 {
      forall p | p in ps
        ensures LexLe(Values(p, k), Values(p, k))
      {
        LexLeRefl(Values(p, k));
      }
      if k < 0 {
        forall p, q | p in ps && q in ps
          ensures LexLe(Values(q, k), Values(p, k))
        {
          assert Values(q, k) == [];
        }
      } else {
        assert forall p, q :: p in ps && q in ps ==> p == q;
      }
    } else {
      var key := CardKey(k);
      var m := MaxKey(ps, key);
      var b := WithKey(ps, key, m);
      MaxKeyIsMax(ps, key);
      WithKeyExactly(ps, key, m);
      WithMaxNonEmpty(ps, key);
      TiesMeaning(b, k - 1);
      var r := Ties(ps, k);
      assert r == Ties(b, k - 1);
      forall p, q | p in r && q in ps
        ensures LexLe(Values(q, k), Values(p, k))
      {
        assert Values(q, k)[1..] == Values(q, k - 1);
        assert Values(p, k)[1..] == Values(p, k - 1);
        if KeyOf(q, key) == m {
          assert q in b;
        }
      }
      forall p, q | p in r && q in ps && Values(q, k) == Values(p, k)
        ensures q in r
      {
        assert Values(q, k)[0] == KeyOf(q, key) && Values(p, k)[0] == KeyOf(p, key);
        assert q in b;
        assert Values(q, k - 1) == Values(q, k)[1..];
        assert Values(p, k - 1) == Values(p, k)[1..];
      }
    }
  }

  /** Players checkTies returns together have the same cards k..0. */
  lemma TiedAreEqual(ps: seq<Player>, k: int)
    requires |ps| > 0
    ensures forall p, q :: p in Ties(ps, k) && q in Ties(ps, k) ==> Values(p, k) == Values(q, k)
  {
    TiesMeaning(ps, k);
    forall p, q | p in Ties(ps, k) && q in Ties(ps, k)
      ensures Values(p, k) == Values(q, k)
    {
      ValuesLength(p, k);
      ValuesLength(q, k);
      LexLeAntisym(Values(p, k), Values(q, k));
    }
  }

  /** The players of the highest rank, as BestHand collects them. */
  ghost function BestRanked(ps: seq<Player>): seq<Player>
    requires |ps| > 0
    reads set p | p in ps
  {
    WithKey(ps, RankKey, MaxKey(ps, RankKey))
  }

  /**
   * BestHand's choice of winners: the players of the highest rank (an empty
   * list panics at players[0]), then checkTies from the fifth hand card.
   */
  method BestHand(players: seq<Player>) returns (tied: seq<Player>, panicked: bool)
    ensures panicked <==> |players| == 0 || TiesPanic(BestRanked(players), 4)
    ensures !panicked ==> tied == Ties(BestRanked(players), 4)
  {
    if |players| == 0 {
      return [], true;
    }
    var best := KeepBest(players, RankKey);
    tied, panicked := CheckTies(best, 4);
  }

  /**
   * The winners BestHand returns are players of the list, of the highest
   * rank, with the best five hand cards among the players of that rank, and
   * every player of that rank with the same five cards is a winner too.
   */
  lemma BestHandWinners(ps: seq<Player>)
    requires |ps| > 0
    ensures |Ties(BestRanked(ps), 4)| > 0
    ensures forall p, q :: p in Ties(BestRanked(ps), 4) && q in ps ==>
      p in ps && p.Hand.Rank >= q.Hand.Rank
    ensures forall p, q :: p in Ties(BestRanked(ps), 4) && q in ps && q.Hand.Rank == p.Hand.Rank ==>
      LexLe(Values(q, 4), Values(p, 4))
    ensures forall p, q ::
      (p in Ties(BestRanked(ps), 4) && q in ps && q.Hand.Rank == p.Hand.Rank && Values(q, 4) == Values(p, 4))
      ==> q in Ties(BestRanked(ps), 4)
  {
    var b := BestRanked(ps);
    MaxKeyIsMax(ps, RankKey);
    WithKeyExactly(ps, RankKey, MaxKey(ps, RankKey));
    WithMaxNonEmpty(ps, RankKey);
    TiesMeaning(b, 4);
    forall p, q | p in Ties(b, 4) && q in ps
      ensures p in ps && p.Hand.Rank >= q.Hand.Rank
    {
      assert KeyOf(p, RankKey) == MaxKey(ps, RankKey);
    }
    forall p, q | p in Ties(b, 4) && q in ps && q.Hand.Rank == p.Hand.Rank
      ensures q in b
    {
      assert KeyOf(p, RankKey) == MaxKey(ps, RankKey);
    }
  }

  /** AssembleBestHand's early return: pre-flop, without exactly two hole cards, or with fewer than three community cards. */
  predicate SkipsEvaluation(state: TableState, holeCards: int, communityCards: int)
  {
    state == TableStatePreFlop || holeCards != 2 || communityCards < 3
  }

  /**
   * AssembleBestHand: unless the guard returns early, the community and hole
   * cards are joined and sorted by value, and `evaluate` (the rank and
   * five-card search that follows, not part of this model) builds the hand
   * on top of the player's current one. With `preshow` the deferred step
   * then moves the result to PreHand and restores the hand held before.
   */
  method AssembleBestHand(preshow: bool, table: Table, player: Player, evaluate: (Hand, seq<Card>) -> Hand)
    returns (cards: seq<Card>)
    modifies player`Hand, player`PreHand
    ensures SkipsEvaluation(table.State, |player.Hole.Cards|, |table.Community|) ==>
      cards == [] && player.Hand == old(player.Hand)
      && player.PreHand == (if preshow then old(player.Hand) else old(player.PreHand))
    ensures !SkipsEvaluation(table.State, |player.Hole.Cards|, |table.Community|) ==>
      SortedByValue(cards) && multiset(cards) == multiset(table.Community + player.Hole.Cards)
      && (if preshow
          then player.PreHand == evaluate(old(player.Hand), cards) && player.Hand == old(player.Hand)
          else player.Hand == evaluate(old(player.Hand), cards) && player.PreHand == old(player.PreHand))
  {
    var restoreHand := player.Hand;
    cards := [];
    if !SkipsEvaluation(table.State, |player.Hole.Cards|, |table.Community|) {
      cards := CardsSort(table.Community + player.Hole.Cards);
      player.Hand := evaluate(player.Hand, cards);
    }
    if preshow {
      player.PreHand := player.Hand;
      player.Hand := restoreHand;
    }
  }
}
