/**
 * internal/net/util.go: the table from the player-action tags to the
 * player states of internal/playerState/playerState.go.
 */
module NetUtil {
  import opened Common
  import opened PlayerState
  import opened LegacyNet

  // The action tags are those of the root package's net.go (LegacyNet), whose bit
  // positions stand in for internal/net's own declarations, not part of this model.

  /** netActionToPlayerState, built once in init. */
  const ActionStates: map<NetAction, PlayerState> := map[
    NetDataFirstAction := FirstAction,
    NetDataAllIn := AllIn,
    NetDataBet := Bet,
    NetDataCall := Call,
    NetDataCheck := Check,
    NetDataFold := Fold,
    NetDataVacantSeat := VacantSeat,
    NetDataPlayerTurn := PlayerTurn,
    NetDataMidroundAddition := MidroundAddition
  ]

  /** A lookup that misses yields the zero PlayerState. */
  function NetActionToPlayerState(a: NetAction): (s: PlayerState)
  {
    if a in ActionStates then ActionStates[a] else 0
  }

  /** Each of the nine tags maps to the state of the same name. */
  lemma SameNamedStates()
    ensures NetActionToPlayerState(NetDataFirstAction) == FirstAction
    ensures NetActionToPlayerState(NetDataAllIn) == AllIn
    ensures NetActionToPlayerState(NetDataBet) == Bet
    ensures NetActionToPlayerState(NetDataCall) == Call
    ensures NetActionToPlayerState(NetDataCheck) == Check
    ensures NetActionToPlayerState(NetDataFold) == Fold
    ensures NetActionToPlayerState(NetDataVacantSeat) == VacantSeat
    ensures NetActionToPlayerState(NetDataPlayerTurn) == PlayerTurn
    ensures NetActionToPlayerState(NetDataMidroundAddition) == MidroundAddition
  {
  }

  /**
   * The result is zero exactly for actions outside the table, such as
   * NetDataRaise or NetDataChatMsg, and zero is no PlayerState; every other
   * result is one.
   */
  lemma ZeroOutsideTable(a: NetAction)
    ensures NetActionToPlayerState(a) == 0 <==> a !in ActionStates
    ensures a !in ActionStates ==> !IsPlayerState(NetActionToPlayerState(a))
    ensures a in ActionStates ==> IsPlayerState(NetActionToPlayerState(a))
    ensures NetDataRaise !in ActionStates && NetDataChatMsg !in ActionStates
  {
    ZeroIsNotAState();
  }

  /** No two actions of the table map to the same state. */
  lemma StatesInjective(a: NetAction, b: NetAction)
    requires a in ActionStates && b in ActionStates
    requires NetActionToPlayerState(a) == NetActionToPlayerState(b)
    ensures a == b
  {
  }
}
