// The web client's protocol library, web/lib/libgopoker.js: the NETDATA tags and
// masks, their predicates and names, the lock and state names, the outgoing
// settings record, the NetData envelope and the card image path.

module WebProto {
  import opened Common
  import opened PokerCard
  import opened PokerPlayer
  import opened PokerTable
  import opened LegacyNet

  /** NETDATA declares 41 tags: CLOSE is 1n << 0n and ROOM_SETTINGS is 1n << 40n. */
  const JsTagCount: nat := 41

  function JsTag(k: nat): (t: NetAction)
    requires k < JsTagCount
  {
    Pow2Fits(k);
    Pow2(k)
  }

  const RoomSettings: NetAction := 0x100_0000_0000

  /** The masks; their tags are distinct single bits, so the or is a sum. */
  const TableMask: NetAction := NetDataNewConn + NetDataClientExited + NetDataUpdateTable + NetDataDeal
  const PlayerMask: NetAction :=
    NetDataYourPlayer + NetDataNewPlayer + NetDataCurPlayers + NetDataPlayerLeft + NetDataPlayerAction
    + NetDataPlayerTurn + NetDataUpdatePlayer + NetDataCurHand + NetDataShowHand + NetDataDeal
  const ActionMask: NetAction := NetDataAllIn + NetDataBet + NetDataCall + NetDataCheck + NetDataFold + NetDataRaise
  /** NEEDS_TABLE_BITMASK | NEEDS_PLAYER_BITMASK: DEAL is in both, so it is counted once. */
  const NeedsMask: NetAction := TableMask + PlayerMask - NetDataDeal

  /**
   * The BigInt-valued keys of NETDATA in insertion order: the 41 tags, then the
   * four masks. needsTable and needsPlayer are functions and never equal a BigInt.
   */
  const JsKeys: seq<string> := [
    "CLOSE", "NEWCONN", "YOUR_PLAYER", "NEW_PLAYER", "CUR_PLAYERS",
    "UPDATE_PLAYER", "UPDATE_TABLE", "PLAYER_LEFT", "CLIENT_EXITED", "CLIENT_SETTINGS",
    "RESET", "SERVER_CLOSED", "TABLE_LOCKED", "BAD_AUTH", "MAKE_ADMIN",
    "START_GAME", "CHAT_MSG", "PLAYER_ACTION", "PLAYER_TURN", "PLAYER_HEAD",
    "ALLIN", "BET", "CALL", "CHECK", "RAISE",
    "FOLD", "CUR_HAND", "SHOW_HAND", "FIRST_ACTION", "MIDROUND_ADDITION",
    "ELIMINATED", "VACANT_SEAT", "DEAL", "FLOP", "TURN",
    "RIVER", "BEST_HAND", "ROUND_OVER", "SERVER_MSG", "BAD_REQUEST",
    "ROOM_SETTINGS",
    "NEEDS_TABLE_BITMASK", "NEEDS_PLAYER_BITMASK", "NEEDS_ACTION_BITMASK", "NEEDS_BITMASK"
  ]

  /** The value stored under the i-th key. */
  function JsValue(i: nat): NetAction
    requires i < |JsKeys|
  {
    if i < JsTagCount then JsTag(i)
    else if i == 41 then TableMask
    else if i == 42 then PlayerMask
    else if i == 43 then ActionMask
    else NeedsMask
  }

  /** The first key at or after `i` whose value equals `v`. */
  function FindKey(v: NetAction, i: nat): (r: Option<nat>)
    requires i <= |JsKeys|
    ensures r.Some? ==> (i <= r.value < |JsKeys| && JsValue(r.value) == v
                         && forall l :: i <= l < r.value ==> JsValue(l) != v)
    ensures r.None? ==> forall l :: i <= l < |JsKeys| ==> JsValue(l) != v
    decreases |JsKeys| - i
  {
    if i == |JsKeys| then None
    else if JsValue(i) == v then Some(i)
    else FindKey(v, i + 1)
  }

  /** NetDataToString: the first key whose value is `v`, or undefined. */
  function NetDataToString(v: NetAction): Option<string>
  {
    match FindKey(v, 0)
    case Some(i) => Some(JsKeys[i])
    case None => None
  }

  /**
   * The tags are the Go tags at the same positions (TagsNamedAlike gives their
   * names on both sides); ROOM_SETTINGS, bit 40, has no Go counterpart.
   */
  lemma {:induction false} JsTagsMatchGo()
    ensures forall k :: 0 <= k < TagCount ==> JsTag(k) == Tag(k)
    ensures JsTag(40) == RoomSettings
    ensures TagIndex(RoomSettings) == None
  {
    NamedTags();
    assert Pow2(40) == 2 * Pow2(39);
    forall j | 0 <= j < TagCount
      ensures Tag(j) != RoomSettings
    {
      Pow2Below(j, 40);
    }
  }

  /** Tag k, the same value on both sides, carries the web key JsKeys[k] and the Go name "NetData" + FlagNames[k]. */
  lemma TagsNamedAlike()
    ensures forall k :: 0 <= k < TagCount ==>
      NetDataToString(JsTag(k)) == Some(JsKeys[k]) && ActionNameIntended(Tag(k)) == "NetData" + FlagNames[k]
  {
    forall k | 0 <= k < TagCount
      ensures NetDataToString(JsTag(k)) == Some(JsKeys[k]) && ActionNameIntended(Tag(k)) == "NetData" + FlagNames[k]
    {
      NetDataToStringTag(k);
      ActionNamesIntended(k);
    }
  }

  /** Every tag is named by its own key. */
  lemma {:induction false} NetDataToStringTag(k: nat)
    requires k < JsTagCount
    ensures NetDataToString(JsTag(k)) == Some(JsKeys[k])
  {
    FindKeyTag(k, 0);
  }

  lemma {:induction false} FindKeyTag(k: nat, i: nat)
    requires i <= k < JsTagCount
    ensures FindKey(JsTag(k), i) == Some(k)
    decreases k - i
  {
    if i < k {
      Pow2Below(i, k);
      FindKeyTag(k, i + 1);
    }
  }

  /** A value with two distinct bits set is no power of two. */
  lemma TwoBitsNoTag(v: nat, a: nat, b: nat)
    requires a != b && BitSet(v, a) && BitSet(v, b)
    ensures forall k :: Pow2(k) != v
  {
    forall k
      ensures Pow2(k) != v
    {
      SingleBit(k, a);
      SingleBit(k, b);
    }
  }

  lemma {:induction false} FindKeySkipsTags(v: NetAction, i: nat)
    requires i <= JsTagCount
    requires forall k :: Pow2(k) != v
    ensures FindKey(v, i) == FindKey(v, JsTagCount)
    decreases JsTagCount - i
  {
    if i < JsTagCount {
      FindKeySkipsTags(v, i + 1);
    }
  }

  /** Each mask is found under its own key, after all the tags. */
  lemma NetDataToStringTableMask()
    ensures NetDataToString(TableMask) == Some("NEEDS_TABLE_BITMASK")
  {
    assert Pow2(1) == 2 && Pow2(6) == 64;
    TwoBitsNoTag(TableMask, 1, 6);
    FindKeySkipsTags(TableMask, 0);
  }

  lemma NetDataToStringPlayerMask()
    ensures NetDataToString(PlayerMask) == Some("NEEDS_PLAYER_BITMASK")
  {
    assert Pow2(2) == 4 && Pow2(3) == 8;
    TwoBitsNoTag(PlayerMask, 2, 3);
    FindKeySkipsTags(PlayerMask, 0);
  }

  lemma NetDataToStringActionMask()
    ensures NetDataToString(ActionMask) == Some("NEEDS_ACTION_BITMASK")
  {
    NamedTags();
    TwoBitsNoTag(ActionMask, 20, 21);
    FindKeySkipsTags(ActionMask, 0);
  }

  lemma NetDataToStringNeedsMask()
    ensures NetDataToString(NeedsMask) == Some("NEEDS_BITMASK")
  {
    assert Pow2(1) == 2 && Pow2(2) == 4;
    TwoBitsNoTag(NeedsMask, 1, 2);
    FindKeySkipsTags(NeedsMask, 0);
  }

  /** needsTable and needsPlayer: a non-zero Response decides, else the Request. */
  predicate JsNeeds(request: NetAction, response: NetAction, mask: set<int>)
  {
    if response != 0 then HasAny(response, mask) else HasAny(request, mask)
  }

  /** The client and the server agree whenever one of the two fields is zero. */
  lemma {:induction false} NeedsAgreeOnOneField(request: NetAction, response: NetAction, mask: set<int>)
    requires request == 0 || response == 0
    ensures JsNeeds(request, response, mask) == Needs(request, response, mask)
  {
    ZeroHasNone(mask);
  }

  /** With both fields set they can disagree: a CLOSE request carrying a DEAL response
      needs a table for the client but not for the server. */
  lemma {:induction false} NeedsPrecedenceDiffers()
    ensures JsNeeds(NetDataClose, NetDataDeal, TableTags)
    ensures !Needs(NetDataClose, NetDataDeal, TableTags)
    ensures JsNeeds(NetDataClose, NetDataDeal, PlayerTags) && !Needs(NetDataClose, NetDataDeal, PlayerTags)
  {
    NamedTags();
    TagInMask(32, TableTags);
    TagInMask(32, PlayerTags);
    TagInMask(0, TableTags);
    TagInMask(0, PlayerTags);
  }

  /** PlayerActionToString; `locale` stands for BigInt's toLocaleString. */
  function PlayerActionToString(action: Action, locale: Chips -> string): string
  {
    var a := action.Action;
    if a == NetDataAllIn then "all in (" + locale(action.Amount) + " chips)"
    else if a == NetDataBet then "raise (bet " + locale(action.Amount) + " chips)"
    else if a == NetDataCall then "call (" + locale(action.Amount) + " chips)"
    else if a == NetDataCheck then "check"
    else if a == NetDataFold then "fold"
    else if a == NetDataVacantSeat then "N/A"
    else if a == NetDataPlayerTurn then "(player's turn) waiting for action"
    else if a == NetDataFirstAction then "waiting for first action"
    else if a == NetDataMidroundAddition then "waiting to add to next round"
    else "bad player state"
  }

  /** Exactly the nine handled actions get a text of their own. */
  lemma PlayerActionKnown(action: Action, locale: Chips -> string)
    ensures PlayerActionToString(action, locale) == "bad player state" <==>
      !(action.Action in {NetDataAllIn, NetDataBet, NetDataCall, NetDataCheck, NetDataFold,
                          NetDataVacantSeat, NetDataPlayerTurn, NetDataFirstAction, NetDataMidroundAddition})
  {
    var t := PlayerActionToString(action, locale);
    var bad := "bad player state";
    if action.Action in {NetDataAllIn, NetDataBet, NetDataCall, NetDataCheck, NetDataFold,
                         NetDataVacantSeat, NetDataPlayerTurn, NetDataFirstAction, NetDataMidroundAddition} {
      assert t[0] != bad[0] || |t| != |bad|;
    }
  }

  /** RAISE has no case of its own, while a BET reads as a raise. */
  lemma RaiseIsBadState(amount: Chips, locale: Chips -> string)
    ensures PlayerActionToString(ActionOf(NetDataRaise, amount), locale) == "bad player state"
    ensures PlayerActionToString(ActionOf(NetDataBet, amount), locale) == "raise (bet " + locale(amount) + " chips)"
  {
  }

  const JsLockNames: seq<string> := ["none", "player lock", "spectator lock", "player & spectator lock"]

  /** TABLE_LOCK.toString. */
  function JsLockName(lock: int): string
  {
    if 0 <= lock < |JsLockNames| then JsLockNames[lock] else "invalid table lock"
  }

  /** The client's lock names match the server's, except that no lock reads "none"
      instead of "no lock", and an unknown lock reads "invalid table lock" instead of "". */
  lemma LockNamesAgainstGo(lock: int)
    ensures JsLockName(lock) == TableLockToString(lock) <==> TableLockPlayers <= lock <= TableLockAll
    ensures JsLockName(lock) == "invalid table lock" <==> TableLockToString(lock) == ""
  {
    TableLockNames(lock, lock);
  }

  const JsStateNames: seq<string> := [
    "NOT_STARTED", "PREFLOP", "FLOP", "TURN", "RIVER",
    "ROUNDS", "PLAYER_RAISED", "DONE_BETTING",
    "SHOW_HANDS", "SPLIT_POT", "ROUND_OVER", "NEW_ROUND", "GAME_OVER", "RESET"
  ]

  function LowerChar(c: char): char {
    if 'A' <= c <= 'Z' then (c as int + 32) as char else c
  }

  /** String.prototype.toLowerCase over ASCII. */
  function Lower(s: string): (r: string)
    ensures |r| == |s|
    ensures forall i :: 0 <= i < |s| ==> r[i] == LowerChar(s[i])
  {
    if s == [] then [] else [LowerChar(s[0])] + Lower(s[1..])
  }

  /** TABLE_STATE.toString. */
  function JsStateName(state: int): string
  {
    if 0 <= state < |JsStateNames| then Lower(JsStateNames[state]) else "invalid table state"
  }

  /** The client names every state from NOT_STARTED to RESET and nothing else. */
  lemma JsStateNameValid(state: int)
    ensures JsStateName(state) == "invalid table state" <==> !(TableStateNotStarted <= state <= TableStateReset)
  {
    if 0 <= state < |JsStateNames| {
      var n := JsStateNames[state];
      assert |n| <= 13;
      assert |Lower(n)| != |"invalid table state"|;
    }
  }

  /** Every name the client shows is in lower case. */
  lemma JsStateNameLower(state: int)
    ensures forall i :: 0 <= i < |JsStateName(state)| ==> !('A' <= JsStateName(state)[i] <= 'Z')
  {
  }

  /** The server's names stop at GameOver, so Reset is a name only on the client. */
  lemma StateNamesAgainstGo(state: int)
    ensures TableStateName(state) == "BUG: bad table state" && JsStateName(state) != "invalid table state"
      <==> state == TableStateReset
  {
    TableStateNames(state, state);
    JsStateNameValid(state);
  }

  /** The admin part of the outgoing settings. */
  datatype JsAdmin = JsAdmin(RoomName: Option<string>, Lock: Option<int>, Password: Option<string>)

  /** NewClient's argument; every field may be undefined. */
  datatype JsSettingsArg = JsSettingsArg(
    RoomName: Option<string>, Name: Option<string>, Password: Option<string>,
    TableLock: Option<int>, TablePass: Option<string>)

  datatype JsSettings = JsSettings(Name: Option<string>, Password: Option<string>, Admin: Option<JsAdmin>)

  /** The object NewClient returns: the settings under a `Settings` field. */
  datatype JsClient = JsClient(Settings: JsSettings)

  /** NewClient: the admin part is null exactly when no admin field is given. */
  function NewClient(settings: JsSettingsArg): (c: JsClient)
    ensures c.Settings.Name == settings.Name && c.Settings.Password == settings.Password
    ensures c.Settings.Admin.None? <==> settings.RoomName.None? && settings.TableLock.None? && settings.TablePass.None?
    ensures c.Settings.Admin.Some? ==>
      c.Settings.Admin.value == JsAdmin(settings.RoomName, settings.TableLock, settings.TablePass)
  {
    var haveAdmin := settings.RoomName.Some? || settings.TableLock.Some? || settings.TablePass.Some?;
    JsClient(JsSettings(settings.Name, settings.Password,
                        if haveAdmin then Some(JsAdmin(settings.RoomName, settings.TableLock, settings.TablePass)) else None))
  }

  /** The client-side NetData. It never sets a Response, which reads as 0 (falsy). */
  class JsNetData {
    var Client: object?
    var Request: NetAction
    var Response: NetAction
    var Msg: string
    var Table: object?

    /** `msg` defaults to "" and `table` to null. */
    constructor (client: object?, request: NetAction, msg: Option<string>, table: object?)
      ensures Client == client && Request == request && Response == 0 && Table == table
      ensures Msg == if msg.Some? then msg.value else ""
    {
      Client := client;
      Request := request;
      Response := 0;
      Msg := if msg.Some? then msg.value else "";
      Table := table;
    }

    predicate NeedsTable()
      reads this
    {
      JsNeeds(Request, Response, TableTags)
    }

    predicate NeedsPlayer()
      reads this
    {
      JsNeeds(Request, Response, PlayerTags)
    }

    /** A message the client builds has no Response, so its needs are those the server computes. */
    lemma BuiltNeedsAgree()
      requires Response == 0
      ensures NeedsTable() == Needs(Request, Response, TableTags)
      ensures NeedsPlayer() == Needs(Request, Response, PlayerTags)
    {
      NeedsAgreeOnOneField(Request, Response, TableTags);
      NeedsAgreeOnOneField(Request, Response, PlayerTags);
    }
  }

  const Sep: string := " of "

  /** " of " starts at position j of s. */
  predicate SepAt(s: string, j: nat) {
    j + |Sep| <= |s| && s[j..j + |Sep|] == Sep
  }

  /** The first position at or after `i` where " of " starts. */
  function FindSep(s: string, i: nat): (r: Option<nat>)
    requires i <= |s|
    ensures r.Some? ==> i <= r.value && SepAt(s, r.value) && forall j :: i <= j < r.value ==> !SepAt(s, j)
    ensures r.None? ==> forall j :: i <= j ==> !SepAt(s, j)
    decreases |s| - i
  {
    if i + |Sep| > |s| then None
    else if SepAt(s, i) then Some(i)
    else FindSep(s, i + 1)
  }

  function UpperChar(c: char): char {
    if 'a' <= c <= 'z' then (c as int - 32) as char else c
  }

  /** charAt(0).toUpperCase() + slice(1), over ASCII. */
  function Capitalize(s: string): string {
    if s == [] then [] else [UpperChar(s[0])] + s[1..]
  }

  /** cardToImagePath: split the full name at " of ", capitalise the suit, and
      `/cards/card<Suit><Value>.png`. A full name without " of " throws. */
  function CardToImagePath(fullName: string): Option<string>
  {
    match FindSep(fullName, 0)
    case None => None
    case Some(j) =>
      var rest := fullName[j + |Sep|..];
      var suit := match FindSep(rest, 0) case Some(q) => rest[..q] case None => rest;
      Some("/cards/card" + Capitalize(suit) + fullName[..j] + ".png")
  }

  /** `x + " of " + y` with no space in x splits first at the end of x. */
  lemma {:induction false} SplitAtSep(x: string, y: string, i: nat)
    requires i <= |x|
    requires forall c :: 0 <= c < |x| ==> x[c] != ' '
    ensures FindSep(x + Sep + y, i) == Some(|x|)
    decreases |x| - i
  {
    var s := x + Sep + y;
    if i < |x| {
      assert s[i..i + |Sep|][0] == x[i];
      SplitAtSep(x, y, i + 1);
    } else {
      assert s[i..i + |Sep|] == Sep;
    }
  }

  lemma NoSepWithoutSpace(y: string)
    requires forall c :: 0 <= c < |y| ==> y[c] != ' '
    ensures FindSep(y, 0) == None
  {
    forall j: nat
      ensures !SepAt(y, j)
    {
      if j + |Sep| <= |y| {
        assert y[j..j + |Sep|][0] == y[j];
      }
    }
  }

  /** The image path of a card's full name: the capitalised suit name then the value text. */
  lemma ImagePathOfCard(v: CardVal, s: Suit)
    requires IsNamedCard(v, s)
    ensures CardToImagePath(CardFullName(v, s)) ==
      Some("/cards/card" + Capitalize(SuitText(s).value.1) + ValueText(v) + ".png")
  {
    var x := ValueText(v);
    var y := SuitText(s).value.1;
    assert forall c :: 0 <= c < |x| ==> x[c] != ' ';
    assert forall c :: 0 <= c < |y| ==> y[c] != ' ';
    SplitAtSep(x, y, 0);
    var full := x + Sep + y;
    assert full[|x| + |Sep|..] == y;
    assert full[..|x|] == x;
    NoSepWithoutSpace(y);
  }
}
