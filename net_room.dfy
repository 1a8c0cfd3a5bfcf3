// The room's client-settings validator and applier, the table-lock test and the
// community-state response map of internal/net/room.go.

module NetRoom {
  import opened Common
  import opened PokerPlayer
  import opened PokerTable
  import opened LegacyNet
  import opened NetClient

  const MaxNameLen: nat := 15
  const MaxPassLen: nat := 50

  const LongNameNotice: string :=
    "You've requested a name that was longer than 15 characters. Using a default name.\n\n"
  const PasswordTooLong: string :=
    "Your password is too long. Please choose a password that is less than 50 characters."
  const ErrorsHeader: string :=
    "server response: unable to complete request due to following errors:\n\n"
  const SettingsHeader: string := "server response: settings changes:\n\n"

  /** Go's unicode.IsSpace: the Latin-1 spaces and the other White_Space code points. */
  predicate IsSpace(c: char) {
    c == '\t' || c == '\n' || c == '\U{000B}' || c == '\U{000C}' || c == '\r' || c == ' '
    || c == '\U{0085}' || c == '\U{00A0}' || c == '\U{1680}' || ('\U{2000}' <= c <= '\U{200A}')
    || c == '\U{2028}' || c == '\U{2029}' || c == '\U{202F}' || c == '\U{205F}' || c == '\U{3000}'
  }

  /** Drops the leading white space. */
  function TrimLeft(s: string): string {
    if s != [] && IsSpace(s[0]) then TrimLeft(s[1..]) else s
  }

  /** Drops the trailing white space. */
  function TrimRight(s: string): string {
    if s != [] && IsSpace(s[|s| - 1]) then TrimRight(s[..|s| - 1]) else s
  }

  /** strings.TrimSpace. */
  function TrimSpace(s: string): string {
    TrimRight(TrimLeft(s))
  }

  /** TrimLeft keeps a suffix that does not start with white space, and drops only white space. */
  lemma {:induction false} TrimLeftShape(s: string)
    ensures |TrimLeft(s)| <= |s| && TrimLeft(s) == s[|s| - |TrimLeft(s)|..]
    ensures TrimLeft(s) != [] ==> !IsSpace(TrimLeft(s)[0])
    ensures forall i :: 0 <= i < |s| - |TrimLeft(s)| ==> IsSpace(s[i])
  {
    if s != [] && IsSpace(s[0]) {
      TrimLeftShape(s[1..]);
      var r := TrimLeft(s);
      forall i | 1 <= i < |s| - |r|
        ensures IsSpace(s[i])
      {
        assert s[i] == s[1..][i - 1];
      }
    }
  }

  /** TrimRight keeps a prefix that does not end in white space, and drops only white space. */
  lemma {:induction false} TrimRightShape(s: string)
    ensures |TrimRight(s)| <= |s| && TrimRight(s) == s[..|TrimRight(s)|]
    ensures TrimRight(s) != [] ==> !IsSpace(TrimRight(s)[|TrimRight(s)| - 1])
    ensures forall i :: |TrimRight(s)| <= i < |s| ==> IsSpace(s[i])
  {
    if s != [] && IsSpace(s[|s| - 1]) {
      TrimRightShape(s[..|s| - 1]);
      var r := TrimRight(s);
      forall i | |r| <= i < |s| - 1
        ensures IsSpace(s[i])
      {
        assert s[i] == s[..|s| - 1][i];
      }
    }
  }

  /** TrimSpace keeps the slice `s[lo..hi]` of its input, with no white space at either
      end, and everything it drops is white space. */
  lemma TrimSpaceSlice(s: string) returns (lo: nat, hi: nat)
    ensures lo <= hi <= |s| && TrimSpace(s) == s[lo..hi]
    ensures forall i :: 0 <= i < lo ==> IsSpace(s[i])
    ensures forall i :: hi <= i < |s| ==> IsSpace(s[i])
    ensures lo < hi ==> !IsSpace(s[lo]) && !IsSpace(s[hi - 1])
  {
    var l := TrimLeft(s);
    TrimLeftShape(s);
    lo := |s| - |l|;
    var r := TrimRight(l);
    TrimRightShape(l);
    hi := lo + |r|;
    TailSpaces(s, lo, l);
    if lo < hi {
      assert s[lo] == l[0];
      assert s[hi - 1] == r[|r| - 1];
    }
  }

  /** What TrimRight keeps of a suffix `l` of `s` is a slice of `s`, and what it drops is
      white space at the end of `s`. */
  lemma TailSpaces(s: string, lo: nat, l: string)
    requires lo <= |s| && l == s[lo..]
    ensures lo + |TrimRight(l)| <= |s| && TrimRight(l) == s[lo..lo + |TrimRight(l)|]
    ensures forall i :: lo + |TrimRight(l)| <= i < |s| ==> IsSpace(s[i])
  {
    TrimRightShape(l);
    var r := TrimRight(l);
    forall i | lo + |r| <= i < |s|
      ensures IsSpace(s[i])
    {
      assert s[i] == l[i - lo];
    }
  }

  /** Trimming twice is trimming once. */
  lemma TrimSpaceIdempotent(s: string)
    ensures TrimSpace(TrimSpace(s)) == TrimSpace(s)
  {
    var t := TrimSpace(s);
    var lo, hi := TrimSpaceSlice(s);
    assert TrimLeft(t) == t;
  }

  /** What handleClientSettings leaves in `settings.Name` for a trimmed request `t`: a
      too-long name and, for a spectator, a name some seat already carries become "". */
  function SettledName(t: string, seated: bool, seatClash: bool): string {
    if t == "" || ByteLen(t) > MaxNameLen then ""
    else if !seated && seatClash then ""
    else t
  }

  /** The settled name is the request or empty, fits both the room's and the client's limit,
      and a spectator never settles on a seat's name. */
  lemma SettledNameBounds(raw: string, seated: bool, seatClash: bool)
    ensures SettledName(TrimSpace(raw), seated, seatClash) in {"", TrimSpace(raw)}
    ensures ByteLen(SettledName(TrimSpace(raw), seated, seatClash)) <= MaxNameLen < MaxClientNameLen
    ensures !seated && seatClash ==> SettledName(TrimSpace(raw), seated, seatClash) == ""
    ensures TrimSpace(SettledName(TrimSpace(raw), seated, seatClash)) == SettledName(TrimSpace(raw), seated, seatClash)
  {
    TrimSpaceIdempotent(raw);
  }

  /** The name part of the reply. `current` is the seated player's name, if any. */
  function NameNotice(t: string, current: Option<string>, inMap: bool, seatClash: bool): string {
    if t == "" then ""
    else if ByteLen(t) > MaxNameLen then LongNameNotice
    else if current.Some? then
      (if current.value == t then "name: unchanged\n\n"
       else if inMap then "Name '" + t + "' already in use. Current name unchanged.\n\n"
       else "")
    else if seatClash then "Name '" + t + "' already in use. Using a default name.\n\n"
    else ""
  }

  /** The admin part of the reply when no error is returned. */
  function AdminNotice(lock: int, tableLock: TableLock, pass: string, tablePass: string): string {
    "admin settings:\n\n"
    + (if TableLockToString(lock) == "" then "" else if lock == tableLock then "table lock: unchanged\n" else "table lock: changed\n")
    + (if pass == tablePass then "table password: unchanged\n"
       else "table password: " + (if pass == "" then "removed\n" else "changed\n"))
  }

  /** A changed, non-empty password longer than the limit. */
  predicate PasswordRejected(pass: string, tablePass: string) {
    pass != tablePass && pass != "" && ByteLen(pass) > MaxPassLen
  }

  /** The seated request that the reply calls "unchanged" is still what applyClientSettings
      installs: for a seated player asking for a name another client holds, the settled
      name is that taken name. */
  lemma SeatedTakenNameKept()
    ensures NameNotice("bob", Some("ann"), true, false) == "Name '" + "bob" + "' already in use. Current name unchanged.\n\n"
    ensures SettledName("bob", true, false) == "bob"
  {
    assert ByteLen("bob") == 3 by {
      assert ByteLen("b") == 1;
      assert "bob"[1..] == "ob" && "ob"[1..] == "b";
    }
    assert "ann"[0] != "bob"[0];
  }

  /** The evidently intended settling: a seated player asking for a name that is taken
      (held by another client, or one of the table's default seat names) keeps the
      current name. */
  function SettledNameIntended(t: string, current: Option<string>, taken: bool, seatClash: bool): string {
    if t == "" || ByteLen(t) > MaxNameLen then ""
    else if current.Some? then (if t != current.value && taken then current.value else t)
    else if seatClash then ""
    else t
  }

  /** With the intended rule, a seated player's name never moves to a taken name, and a
      free request is installed as asked. */
  lemma SettledNameIntendedKeeps(t: string, current: string, taken: bool, defaultName: string)
    requires current != "" && t != "" && ByteLen(t) <= MaxNameLen
    ensures taken && t != current ==> PlayerNameAfter(SettledNameIntended(t, Some(current), taken, false), defaultName) == current
    ensures !taken ==> PlayerNameAfter(SettledNameIntended(t, Some(current), taken, false), defaultName) == t
    ensures SettledNameIntended(t, None, taken, true) == "" && SettledNameIntended(t, None, taken, false) == t
  {
  }

  /** Player.SetName's effect on the name. */
  function PlayerNameAfter(name: string, defaultName: string): string {
    if name == "" then defaultName else name
  }

  /** Some seat carries `name`. */
  predicate NameSeated(ps: seq<Player>, name: string)
    reads set i | 0 <= i < |ps| :: ps[i]
  {
    exists j :: 0 <= j < |ps| && ps[j].Name == name
  }

  /** The spectator scan over the table's seats, stopping at the first match. */
  method SeatTaken(ps: seq<Player>, name: string) returns (found: bool)
    ensures found <==> NameSeated(ps, name)
  {
    var i := 0;
    while i < |ps|
      invariant 0 <= i <= |ps|
      invariant forall j :: 0 <= j < i ==> ps[j].Name != name
    {
      if ps[i].Name == name {
        return true;
      }
      i := i + 1;
    }
    return false;
  }

  /**
   * The reply of handleClientSettings once the name is settled: a non-admin
   * gets the name notice; an admin's password is vetted first, then the lock,
   * and only then is the admin notice added.
   */
  function SettingsReply(nameMsg: string, isAdmin: bool, admin: AdminSettings, tableLock: TableLock, tablePass: string): (r: (string, Option<Error>))
    ensures r.1.Some? <==> isAdmin && (PasswordRejected(admin.Password, tablePass) || TableLockToString(admin.Lock) == "")
    ensures r.1.Some? ==> r.0 == ""
    ensures isAdmin && PasswordRejected(admin.Password, tablePass) ==> r.1 == Some(Error(PasswordTooLong))
    ensures isAdmin && !PasswordRejected(admin.Password, tablePass) && TableLockToString(admin.Lock) == "" ==>
      r.1 == Some(Error(ErrorsHeader + "invalid table lock: '" + IntToString(admin.Lock) + "'\n"))
    ensures r.1.None? ==>
      r.0 == SettingsHeader + nameMsg + (if isAdmin then AdminNotice(admin.Lock, tableLock, admin.Password, tablePass) else "")
  {
    if !isAdmin then (SettingsHeader + nameMsg, None)
    else if PasswordRejected(admin.Password, tablePass) then ("", Some(Error(PasswordTooLong)))
    else if TableLockToString(admin.Lock) == "" then
      ("", Some(Error(ErrorsHeader + "invalid table lock: '" + IntToString(admin.Lock) + "'\n")))
    else (SettingsHeader + nameMsg + AdminNotice(admin.Lock, tableLock, admin.Password, tablePass), None)
  }

  class Room {
    const table: Table
    var tableAdminID: string
    var nameClientMap: map<string, Client>

    constructor (table: Table, tableAdminID: string)
      ensures this.table == table && this.tableAdminID == tableAdminID && nameClientMap == map[]
    {
      this.table := table;
      this.tableAdminID := tableAdminID;
      nameClientMap := map[];
    }

    /** isLocked: everyone is locked out, or spectators are and no seat is open. */
    predicate IsLocked()
      reads table
    {
      table.Lock == TableLockAll || (table.Lock == TableLockSpectators && table.GetNumOpenSeats() == 0)
    }

    /** A spectator lock only bites on a full table; no lock and a player lock never lock the room. */
    lemma IsLockedMeaning()
      requires table.NumPlayers <= table.NumSeats
      ensures table.Lock == TableLockNone || table.Lock == TableLockPlayers ==> !IsLocked()
      ensures table.Lock == TableLockSpectators ==> (IsLocked() <==> table.NumPlayers == table.NumSeats)
      ensures table.Lock == TableLockAll ==> IsLocked()
    {
    }

    /** commState2NetDataResponse. */
    function CommStateResponse(): (r: NetAction)
      reads table
    {
      var m := map[TableStateFlop := NetDataFlop, TableStateTurn := NetDataTurn, TableStateRiver := NetDataRiver];
      if table.CommState in m then m[table.CommState] else NetDataBadRequest
    }

    /** Flop, turn and river get their own responses; every other state is a bad request. */
    lemma CommStateResponseMeaning()
      ensures table.CommState == TableStateFlop <==> CommStateResponse() == NetDataFlop
      ensures table.CommState == TableStateTurn <==> CommStateResponse() == NetDataTurn
      ensures table.CommState == TableStateRiver <==> CommStateResponse() == NetDataRiver
      ensures CommStateResponse() == NetDataBadRequest <==>
        !(table.CommState in {TableStateFlop, TableStateTurn, TableStateRiver})
    {
    }

    /** handleClientSettings: trims and vets the requested name into `settings.Name`, vets
        the admin's lock and password, and builds the reply. */
    method HandleClientSettings(client: Client?, settings: ClientSettings?) returns (msg: string, err: Option<Error>)
      modifies (if settings == null then {} else {settings})`Name
      ensures client == null ==> msg == "" && err == Some(Error("room.handleClientSettings(): BUG: client == nil"))
      ensures client != null && settings == null ==>
        msg == "" && err == Some(Error("Room.handleClientSettings(): BUG: settings == nil"))
      ensures client != null && settings != null ==>
        var t := old(TrimSpace(settings.Name));
        var clash := old(NameSeated(table.players, TrimSpace(settings.Name)));
        var current := if client.Player != null then Some(client.Player.Name) else None;
        settings.Name == SettledName(t, client.Player != null, clash)
        && (msg, err) == SettingsReply(NameNotice(t, current, t in nameClientMap, clash),
                                       client.ID == tableAdminID, settings.Admin, table.Lock, table.Password)
    {
      if client == null {
        return "", Some(Error("room.handleClientSettings(): BUG: client == nil"));
      } else if settings == null {
        return "", Some(Error("Room.handleClientSettings(): BUG: settings == nil"));
      }
      var t := TrimSpace(settings.Name);
      var clash, nameMsg := SettleName(client, settings, t);
      var reply := SettingsReply(nameMsg, client.ID == tableAdminID, settings.Admin, table.Lock, table.Password);
      msg, err := reply.0, reply.1;
    }

    /** The name part of handleClientSettings: the trimmed name `t` is vetted into
        `settings.Name` against the seats (`clash`) and the notice about it is returned. */
    method SettleName(client: Client, settings: ClientSettings, t: string) returns (clash: bool, nameMsg: string)
      modifies settings`Name
      ensures clash <==> NameSeated(table.players, t)
      ensures settings.Name == SettledName(t, client.Player != null, clash)
      ensures nameMsg == NameNotice(t, if client.Player != null then Some(client.Player.Name) else None,
                                    t in nameClientMap, clash)
    {
      clash := SeatTaken(table.players, t);
      nameMsg := NameNotice(t, if client.Player != null then Some(client.Player.Name) else None,
                            t in nameClientMap, clash);
      settings.Name := SettledName(t, client.Player != null, clash);
    }

    /** The part of applyClientSettings after the settings record is installed. */
    method ApplySettings(client: Client, s: ClientSettings)
      modifies client`Name, (if client.Player == null then {} else {client.Player})`Name, table`Lock, table`Password
      ensures client.Player != null ==>
        client.Player.Name == PlayerNameAfter(s.Name, client.Player.defaultName)
        && client.Name == (if ByteLen(client.Player.Name) <= MaxClientNameLen then client.Player.Name else old(client.Name))
      ensures client.Player == null ==>
        client.Name == (if ByteLen(s.Name) <= MaxClientNameLen then s.Name else old(client.Name))
      ensures client.Player != null && client.ID == tableAdminID ==>
        table.Lock == s.Admin.Lock && table.Password == s.Admin.Password
      ensures !(client.Player != null && client.ID == tableAdminID) ==>
        table.Lock == old(table.Lock) && table.Password == old(table.Password)
    {
      var player := client.Player;
      if player != null {
        player.SetName(s.Name);
        var _ := client.SetName(player.Name);
        if client.ID == tableAdminID {
          table.Lock := s.Admin.Lock;
          table.Password := s.Admin.Password;
        }
      } else {
        var _ := client.SetName(s.Name);
      }
    }

    /** applyClientSettings as written: a nil record installs fresh defaults and then
        reads the nil record's name, which panics. */
    method ApplyClientSettings(client: Client, settings: ClientSettings?) returns (panicked: bool)
      modifies client`Name, client`Settings, (if client.Player == null then {} else {client.Player})`Name, table`Lock, table`Password
      ensures panicked <==> settings == null
      ensures settings == null ==> fresh(client.Settings) && client.Settings.Name == "noname"
      ensures settings != null ==> client.Settings == settings
      ensures settings != null && client.Player != null ==>
        client.Player.Name == PlayerNameAfter(settings.Name, client.Player.defaultName)
        && client.Name == (if ByteLen(client.Player.Name) <= MaxClientNameLen then client.Player.Name else old(client.Name))
      ensures settings != null && client.Player == null ==>
        client.Name == (if ByteLen(settings.Name) <= MaxClientNameLen then settings.Name else old(client.Name))
      ensures settings != null && client.Player != null && client.ID == tableAdminID ==>
        table.Lock == settings.Admin.Lock && table.Password == settings.Admin.Password
    {
      if settings == null {
        client.Settings := NewClientSettings();
        return true;
      }
      client.Settings := settings;
      ApplySettings(client, settings);
      return false;
    }

    /** applyClientSettings as evidently intended: a nil record is replaced by the defaults,
        which are then applied. */
    method ApplyClientSettingsIntended(client: Client, settings: ClientSettings?)
      modifies client`Name, client`Settings, (if client.Player == null then {} else {client.Player})`Name, table`Lock, table`Password
      ensures client.Settings != null
      ensures settings != null ==> client.Settings == settings
      ensures settings == null ==> fresh(client.Settings) && client.Settings.Name == "noname"
      ensures client.Player != null ==>
        client.Player.Name == PlayerNameAfter(client.Settings.Name, client.Player.defaultName)
      ensures client.Player == null ==>
        client.Name == (if ByteLen(client.Settings.Name) <= MaxClientNameLen then client.Settings.Name else old(client.Name))
      ensures client.Player != null && client.ID == tableAdminID ==>
        table.Lock == client.Settings.Admin.Lock && table.Password == client.Settings.Admin.Password
    {
      var s := settings;
      if s == null {
        s := NewClientSettings();
      }
      client.Settings := s;
      ApplySettings(client, s);
    }
  }
}
