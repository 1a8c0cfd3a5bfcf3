/**
 * internal/net/client.go, with the ClientSettings record of
 * internal/net/room.go: a connected client, its settings and its setters.
 */
module NetClient {
  import opened Common
  import opened PokerPlayer

  const MaxClientNameLen: nat := 20

  /** The admin part of the settings, a struct value in the source. */
  datatype AdminSettings = AdminSettings(RoomName: string, NumSeats: uint8, Lock: int, Password: string)

  class ClientSettings {
    var IsSpectator: bool
    var Name: string
    var Password: string
    var Admin: AdminSettings

    /** A settings record with every field given. */
    constructor (isSpectator: bool, name: string, password: string, admin: AdminSettings)
      ensures IsSpectator == isSpectator && Name == name && Password == password && Admin == admin
    {
      IsSpectator := isSpectator;
      Name := name;
      Password := password;
      Admin := admin;
    }
  }

  /** NewClientSettings: zero settings except for the name "noname". */
  method NewClientSettings() returns (s: ClientSettings)
    ensures fresh(s)
    ensures s.Name == "noname" && !s.IsSpectator && s.Password == "" && s.Admin == AdminSettings("", 0, 0, "")
  {
    s := new ClientSettings(false, "noname", "", AdminSettings("", 0, 0, ""));
  }

  class Client {
    var ID: string
    var Name: string
    var Player: Player?
    var Settings: ClientSettings?

    var privID: string
    var conn: object?
    var connType: string
    var isDisconnected: bool

    /** The struct literal `&Client{Settings: settings}`: every other field is zero. */
    constructor (settings: ClientSettings?)
      ensures Settings == settings
      ensures ID == "" && Name == "" && Player == null && privID == "" && conn == null && connType == "" && !isDisconnected
    {
      ID := "";
      Name := "";
      Player := null;
      Settings := settings;
      privID := "";
      conn := null;
      connType := "";
      isDisconnected := false;
    }

    /** A name longer than MaxClientNameLen bytes is rejected and the old name kept; any other name is taken as is. */
    method SetName(name: string) returns (c: Client)
      modifies this`Name
      ensures c == this
      ensures ByteLen(name) > MaxClientNameLen ==> Name == old(Name)
      ensures ByteLen(name) <= MaxClientNameLen ==> Name == name
    {
      if ByteLen(name) > MaxClientNameLen {
        return this;
      }
      Name := name;
      return this;
    }

    method SetConn(newConn: object?) returns (c: Client)
      modifies this`conn
      ensures c == this && conn == newConn
    {
      conn := newConn;
      return this;
    }

    method SetConnType(newConnType: string) returns (c: Client)
      modifies this`connType
      ensures c == this && connType == newConnType
    {
      connType := newConnType;
      return this;
    }
  }

  /** NewClient: nil settings are replaced by NewClientSettings' defaults. */
  method NewClient(settings: ClientSettings?) returns (client: Client)
    ensures fresh(client) && client.Settings != null
    ensures settings != null ==> client.Settings == settings
    ensures settings == null ==> fresh(client.Settings) && client.Settings.Name == "noname"
    ensures client.ID == "" && client.Name == "" && client.Player == null
  {
    var s := settings;
    if s == null {
      s := NewClientSettings();
    }
    client := new Client(s);
  }
}
