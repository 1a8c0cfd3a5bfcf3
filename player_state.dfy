/**
 * internal/playerState/playerState.go: the player action states, one bit
 * each of a uint64.
 */
module PlayerState {
  import opened Common

  type PlayerState = uint64

  const FirstAction: PlayerState := 1
  const AllIn: PlayerState := 2
  const Bet: PlayerState := 4
  const Call: PlayerState := 8
  const Check: PlayerState := 16
  const Fold: PlayerState := 32
  const VacantSeat: PlayerState := 64
  const PlayerTurn: PlayerState := 128
  const MidroundAddition: PlayerState := 256

  /** The declared states, in declaration order: `1 << iota` for iota = 0..8. */
  const States: seq<PlayerState> :=
    [FirstAction, AllIn, Bet, Call, Check, Fold, VacantSeat, PlayerTurn, MidroundAddition]

  predicate IsPlayerState(s: int) { s in States }

  lemma StatesAreSingleBits()
    ensures |States| == 9
    ensures forall k :: 0 <= k < |States| ==> States[k] == Pow2(k)
    ensures forall i, j :: 0 <= i < j < |States| ==> States[i] < States[j]
  {
    assert Pow2(0) == 1 && Pow2(1) == 2 && Pow2(2) == 4 && Pow2(3) == 8 && Pow2(4) == 16;
    assert Pow2(5) == 32 && Pow2(6) == 64 && Pow2(7) == 128 && Pow2(8) == 256;
  }

  /** Zero is not a state: every declared state is a non-zero bit. */
  lemma ZeroIsNotAState()
    ensures !IsPlayerState(0)
  {
  }
}
