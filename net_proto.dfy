/**
 * net.go (the older root package): the one-bit NetAction tags exchanged
 * between client and server, the masks saying which messages carry a table
 * or a player, and the NetData envelope. The file declaring the tags of
 * the internal/net package is not part of this model; that package also
 * uses tags this list lacks (player reconnection, room settings).
 */
module LegacyNet {
  import opened Common

  type NetAction = uint64

  /** The tag declared k-th: `1 << iota`. */
  function Tag(k: nat): (t: NetAction)
    requires k < 64
  {
    Pow2Fits(k);
    Pow2(k)
  }

  const NetDataClose: NetAction := 0x1
  const NetDataNewConn: NetAction := 0x2
  const NetDataYourPlayer: NetAction := 0x4
  const NetDataNewPlayer: NetAction := 0x8
  const NetDataCurPlayers: NetAction := 0x10
  const NetDataUpdatePlayer: NetAction := 0x20
  const NetDataUpdateTable: NetAction := 0x40
  const NetDataPlayerLeft: NetAction := 0x80
  const NetDataClientExited: NetAction := 0x100
  const NetDataClientSettings: NetAction := 0x200
  const NetDataReset: NetAction := 0x400
  const NetDataServerClosed: NetAction := 0x800
  const NetDataTableLocked: NetAction := 0x1000
  const NetDataBadAuth: NetAction := 0x2000
  const NetDataMakeAdmin: NetAction := 0x4000
  const NetDataStartGame: NetAction := 0x8000
  const NetDataChatMsg: NetAction := 0x10000
  const NetDataPlayerAction: NetAction := 0x20000
  const NetDataPlayerTurn: NetAction := 0x40000
  const NetDataPlayerHead: NetAction := 0x80000
  const NetDataAllIn: NetAction := 0x100000
  const NetDataBet: NetAction := 0x200000
  const NetDataCall: NetAction := 0x400000
  const NetDataCheck: NetAction := 0x800000
  const NetDataRaise: NetAction := 0x1000000
  const NetDataFold: NetAction := 0x2000000
  const NetDataCurHand: NetAction := 0x4000000
  const NetDataShowHand: NetAction := 0x8000000
  const NetDataFirstAction: NetAction := 0x10000000
  const NetDataMidroundAddition: NetAction := 0x20000000
  const NetDataEliminated: NetAction := 0x40000000
  const NetDataVacantSeat: NetAction := 0x80000000
  const NetDataDeal: NetAction := 0x100000000
  const NetDataFlop: NetAction := 0x200000000
  const NetDataTurn: NetAction := 0x400000000
  const NetDataRiver: NetAction := 0x800000000
  const NetDataBestHand: NetAction := 0x1000000000
  const NetDataRoundOver: NetAction := 0x2000000000
  const NetDataServerMsg: NetAction := 0x4000000000
  const NetDataBadRequest: NetAction := 0x8000000000

  /** The number of declared tags: NetDataClose is Tag(0), NetDataBadRequest is Tag(39). */
  const TagCount: nat := 40

  /** The tag names without their "NetData" prefix, in the same order. */
  const FlagNames: seq<string> := [
    "Close", "NewConn", "YourPlayer", "NewPlayer", "CurPlayers",
    "UpdatePlayer", "UpdateTable", "PlayerLeft", "ClientExited", "ClientSettings",
    "Reset", "ServerClosed", "TableLocked", "BadAuth", "MakeAdmin",
    "StartGame", "ChatMsg", "PlayerAction", "PlayerTurn", "PlayerHead",
    "AllIn", "Bet", "Call", "Check", "Raise",
    "Fold", "CurHand", "ShowHand", "FirstAction", "MidroundAddition",
    "Eliminated", "VacantSeat", "Deal", "Flop", "Turn",
    "River", "BestHand", "RoundOver", "ServerMsg", "BadRequest"
  ]

  /** The named constants are the tags in declaration order: NetDataClose is bit 0, NetDataBadRequest bit 39. */
  lemma {:induction false} NamedTags()
    ensures NetDataClose == Tag(0) && NetDataNewConn == Tag(1) && NetDataYourPlayer == Tag(2) && NetDataNewPlayer == Tag(3)
    ensures NetDataCurPlayers == Tag(4) && NetDataUpdatePlayer == Tag(5) && NetDataUpdateTable == Tag(6) && NetDataPlayerLeft == Tag(7)
    ensures NetDataClientExited == Tag(8) && NetDataClientSettings == Tag(9) && NetDataReset == Tag(10) && NetDataServerClosed == Tag(11)
    ensures NetDataTableLocked == Tag(12) && NetDataBadAuth == Tag(13) && NetDataMakeAdmin == Tag(14) && NetDataStartGame == Tag(15)
    ensures NetDataChatMsg == Tag(16) && NetDataPlayerAction == Tag(17) && NetDataPlayerTurn == Tag(18) && NetDataPlayerHead == Tag(19)
    ensures NetDataAllIn == Tag(20) && NetDataBet == Tag(21) && NetDataCall == Tag(22) && NetDataCheck == Tag(23)
    ensures NetDataRaise == Tag(24) && NetDataFold == Tag(25) && NetDataCurHand == Tag(26) && NetDataShowHand == Tag(27)
    ensures NetDataFirstAction == Tag(28) && NetDataMidroundAddition == Tag(29) && NetDataEliminated == Tag(30) && NetDataVacantSeat == Tag(31)
    ensures NetDataDeal == Tag(32) && NetDataFlop == Tag(33) && NetDataTurn == Tag(34) && NetDataRiver == Tag(35)
    ensures NetDataBestHand == Tag(36) && NetDataRoundOver == Tag(37) && NetDataServerMsg == Tag(38) && NetDataBadRequest == Tag(39)
  {
    assert Pow2(1) == 0x2;
    assert Pow2(2) == 0x4;
    assert Pow2(3) == 0x8;
    assert Pow2(4) == 0x10;
    assert Pow2(5) == 0x20;
    assert Pow2(6) == 0x40;
    assert Pow2(7) == 0x80;
    assert Pow2(8) == 0x100;
    assert Pow2(9) == 0x200;
    assert Pow2(10) == 0x400;
    assert Pow2(11) == 0x800;
    assert Pow2(12) == 0x1000;
    assert Pow2(13) == 0x2000;
    assert Pow2(14) == 0x4000;
    assert Pow2(15) == 0x8000;
    assert Pow2(16) == 0x10000;
    assert Pow2(17) == 0x20000;
    assert Pow2(18) == 0x40000;
    assert Pow2(19) == 0x80000;
    assert Pow2(20) == 0x100000;
    assert Pow2(21) == 0x200000;
    assert Pow2(22) == 0x400000;
    assert Pow2(23) == 0x800000;
    assert Pow2(24) == 0x1000000;
    assert Pow2(25) == 0x2000000;
    assert Pow2(26) == 0x4000000;
    assert Pow2(27) == 0x8000000;
    assert Pow2(28) == 0x10000000;
    assert Pow2(29) == 0x20000000;
    assert Pow2(30) == 0x40000000;
    assert Pow2(31) == 0x80000000;
    assert Pow2(32) == 0x100000000;
    assert Pow2(33) == 0x200000000;
    assert Pow2(34) == 0x400000000;
    assert Pow2(35) == 0x800000000;
    assert Pow2(36) == 0x1000000000;
    assert Pow2(37) == 0x2000000000;
    assert Pow2(38) == 0x4000000000;
    assert Pow2(39) == 0x8000000000;
  }

  /** The tags or-ed into NetActionNeedsTableBitMask, ...NeedsPlayerBitMask and ...NeedsActionBitMask. */
  const TableTags: set<int> := {NetDataNewConn, NetDataClientExited, NetDataUpdateTable, NetDataDeal}
  const PlayerTags: set<int> := {
    NetDataYourPlayer, NetDataNewPlayer, NetDataCurPlayers, NetDataPlayerLeft, NetDataPlayerAction,
    NetDataPlayerTurn, NetDataUpdatePlayer, NetDataCurHand, NetDataShowHand, NetDataDeal}
  const ActionTags: set<int> := {NetDataAllIn, NetDataBet, NetDataCall, NetDataCheck, NetDataFold, NetDataRaise}
  /** NetActionNeedsBitMask: the table mask or the player mask. */
  const NeedsTags: set<int> := TableTags + PlayerTags

  /** Tag k is bit k: the tags strictly increase, so no two are equal. */
  lemma {:induction false} FlagsAreDistinctBits()
    ensures TagCount == 40 && |FlagNames| == 40
    ensures forall k :: 0 <= k < TagCount ==> Tag(k) == Pow2(k)
    ensures forall i, j :: 0 <= i < j < TagCount ==> Tag(i) < Tag(j)
  {
    forall i, j | 0 <= i < j < TagCount
      ensures Tag(i) < Tag(j)
    {
      Pow2Below(i, j);
    }
  }

  /**
   * The precedence of NeedsTable and NeedsPlayer: a non-zero Request decides
   * against the mask, and only a zero Request lets the Response decide.
   */
  predicate Needs(request: NetAction, response: NetAction, mask: set<int>)
  {
    if request != 0 then HasAny(request, mask) else HasAny(response, mask)
  }

  /** A single tag needs a table exactly when it is one of the four table tags, whether it is a request or a response. */
  lemma {:induction false} TagNeedsTable(k: nat, other: NetAction)
    requires k < TagCount
    ensures Needs(Tag(k), other, TableTags) <==> Tag(k) in TableTags
    ensures Needs(0, Tag(k), TableTags) <==> Tag(k) in TableTags
  {
    Pow2Fits(k);
    TagInMask(k, TableTags);
  }

  /** A single tag needs a player exactly when it is one of the ten player tags; Deal needs both. */
  lemma {:induction false} TagNeedsPlayer(k: nat, other: NetAction)
    requires k < TagCount
    ensures Needs(Tag(k), other, PlayerTags) <==> Tag(k) in PlayerTags
    ensures Needs(0, Tag(k), PlayerTags) <==> Tag(k) in PlayerTags
    ensures NetDataDeal in TableTags * PlayerTags
  {
    Pow2Fits(k);
    TagInMask(k, PlayerTags);
  }

  /** A single tag meets NetActionNeedsActionBitMask exactly when it is AllIn, Bet, Call, Check, Fold or Raise. */
  lemma {:induction false} TagNeedsAction(k: nat)
    requires k < TagCount
    ensures HasAny(Tag(k), ActionTags) <==> Tag(k) in {NetDataAllIn, NetDataBet, NetDataCall, NetDataCheck, NetDataFold, NetDataRaise}
  {
    Pow2Fits(k);
    TagInMask(k, ActionTags);
  }

  /** NetActionNeedsBitMask meets a message exactly when it needs a table or a player. */
  lemma {:induction false} NeedsEitherMask(request: NetAction, response: NetAction)
    ensures Needs(request, response, NeedsTags) <==> Needs(request, response, TableTags) || Needs(request, response, PlayerTags)
  {
    HasAnyUnion(request, TableTags, PlayerTags);
    HasAnyUnion(response, TableTags, PlayerTags);
  }

  /** The position of a tag among Flags; none for a value that is not a single tag. */
  function TagIndex(v: NetAction): (r: Option<nat>)
    ensures r.Some? ==> r.value < TagCount && Tag(r.value) == v
  {
    FindTag(v, 0)
  }

  function FindTag(v: NetAction, i: nat): (r: Option<nat>)
    requires i <= TagCount
    ensures r.Some? ==> i <= r.value < TagCount && Tag(r.value) == v
    ensures r.None? ==> forall j :: i <= j < TagCount ==> Tag(j) != v
    decreases TagCount - i
  {
    if i == TagCount then None
    else if Tag(i) == v then Some(i)
    else FindTag(v, i + 1)
  }

  /** Every tag is found at its own position. */
  lemma TagIndexOfTag(k: nat)
    requires k < TagCount
    ensures TagIndex(Tag(k)) == Some(k)
  {
    FindTagOf(k, 0);
  }

  lemma {:induction false} FindTagOf(k: nat, i: nat)
    requires i <= k < TagCount
    ensures FindTag(Tag(k), i) == Some(k)
    decreases TagCount - i
  {
    if i < k {
      Pow2Below(i, k);
      FindTagOf(k, i + 1);
    }
  }

  function InvalidText(v: NetAction): string
  {
    "invalid NetData request: " + NatToString(v)
  }

  /**
   * The lookup in NetActionToString's name map. The map as written has an
   * entry for every tag except NetDataServerClosed.
   */
  function ActionName(v: NetAction): (s: string)
  {
    match TagIndex(v)
    case Some(k) => if Tag(k) == NetDataServerClosed then InvalidText(v) else "NetData" + FlagNames[k]
    case None => InvalidText(v)
  }

  /** ActionName with the missing NetDataServerClosed entry added. */
  function ActionNameIntended(v: NetAction): (s: string)
  {
    match TagIndex(v)
    case Some(k) => "NetData" + FlagNames[k]
    case None => InvalidText(v)
  }

  /** Every tag but NetDataServerClosed gets its own name; any other value gets the invalid-request text with its decimal value. */
  lemma ActionNames(v: NetAction)
    ensures (exists k :: 0 <= k < TagCount && Tag(k) == v && v != NetDataServerClosed) ==>
      exists k :: 0 <= k < TagCount && Tag(k) == v && ActionName(v) == "NetData" + FlagNames[k]
    ensures (forall k :: 0 <= k < TagCount ==> Tag(k) != v) ==> ActionName(v) == InvalidText(v)
  {
    if exists k :: 0 <= k < TagCount && Tag(k) == v && v != NetDataServerClosed {
      var k :| 0 <= k < TagCount && Tag(k) == v && v != NetDataServerClosed;
      TagIndexOfTag(k);
    }
  }

  /** NetDataServerClosed, bit 11, has no name in the map as written. */
  lemma ServerClosedUnnamed()
    ensures ActionName(NetDataServerClosed) == "invalid NetData request: 2048"
  {
    NamedTags();
    TagIndexOfTag(11);
    assert NatToString(2048) == "2048";
  }

  /** With the entry added, every tag is named by its own name, NetDataServerClosed included. */
  lemma ActionNamesIntended(k: nat)
    requires k < TagCount
    ensures ActionNameIntended(Tag(k)) == "NetData" + FlagNames[k]
  {
    TagIndexOfTag(k);
  }

  /** The corrected lookup names NetDataServerClosed, and still names nothing that is not a tag. */
  lemma ServerClosedNamedIntended(v: NetAction)
    ensures ActionNameIntended(NetDataServerClosed) == "NetDataServerClosed"
    ensures (forall j :: 0 <= j < TagCount ==> Tag(j) != v) ==> ActionNameIntended(v) == InvalidText(v)
  {
    NamedTags();
    TagIndexOfTag(11);
  }

  /** The NetData envelope; its Client and Table pointers are plain object references here. */
  class NetData {
    var Client: object?
    var Request: NetAction
    var Response: NetAction
    var Msg: string
    var Table: object?

    constructor (client: object?, request: NetAction, response: NetAction, msg: string, table: object?)
      ensures Client == client && Request == request && Response == response && Msg == msg && Table == table
    {
      Client := client;
      Request := request;
      Response := response;
      Msg := msg;
      Table := table;
    }

    /** Clears everything but the client, which is replaced only by a non-nil one. */
    method ClearData(client: object?)
      modifies this
      ensures Request == 0 && Response == 0 && Msg == "" && Table == null
      ensures Client == if client != null then client else old(Client)
    {
      Request := 0;
      Response := 0;
      Msg := "";
      Table := null;
      if client != null {
        Client := client;
      }
    }

    predicate NeedsTable()
      reads this
    {
      Needs(Request, Response, TableTags)
    }

    predicate NeedsPlayer()
      reads this
    {
      Needs(Request, Response, PlayerTags)
    }
  }

  /** NetActionToString: the name of the Request when it is non-zero, else of the Response. */
  function NetActionToString(d: NetData?): (s: string)
    reads d
  {
    if d == null then "netData == nil"
    else ActionName(if d.Request != 0 then d.Request else d.Response)
  }

  /** A nil envelope says so; otherwise the name is the Request's when there is one, and the Response's only when the Request is zero. */
  lemma NetActionToStringChoice(d: NetData?)
    ensures d == null ==> NetActionToString(d) == "netData == nil"
    ensures d != null && d.Request != 0 ==> NetActionToString(d) == ActionName(d.Request)
    ensures d != null && d.Request == 0 ==> NetActionToString(d) == ActionName(d.Response)
    ensures d != null && d.Request == 0 && d.Response == 0 ==> NetActionToString(d) == "invalid NetData request: 0"
  {
    if d != null && d.Request == 0 && d.Response == 0 {
      assert TagIndex(0).None?;
      assert NatToString(0) == "0";
    }
  }
}
