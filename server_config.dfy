/**
 * web/serverConfig.js: the web client's server address and the HTTP and
 * websocket URLs derived from it. The two environment variables are
 * parameters; an absent one is None.
 */
module ServerConfig {
  import opened Common
  import WebProto

  datatype Config = Config(ServerAddr: string, HTTPURL: string, WSURL: string, SSLEnabled: bool)

  /** `env || 'localhost'`: an absent or empty address falls back to localhost. */
  function ServerAddr(env: Option<string>): (r: string)
    ensures r != ""
    ensures env.Some? && env.value != "" ==> r == env.value
  {
    if env.Some? && env.value != "" then env.value else "localhost"
  }

  /**
   * The module's config object. Calling toLowerCase on an absent
   * NEXT_PUBLIC_SSL_ENABLED throws while the module loads (None).
   */
  function LoadConfig(addrEnv: Option<string>, sslEnv: Option<string>): (r: Option<Config>)
  {
    if sslEnv.None? then None
    else
      var ssl := WebProto.Lower(sslEnv.value) == "true";
      var addr := ServerAddr(addrEnv);
      Some(Config(addr, (if ssl then "https://" else "http://") + addr, (if ssl then "wss://" else "ws://") + addr, ssl))
  }

  /**
   * SSL is on exactly when the variable reads "true" in any letter case, and
   * then both URLs use the secure scheme; both URLs end in the same address.
   */
  lemma ConfigMeaning(addrEnv: Option<string>, sslEnv: Option<string>)
    ensures LoadConfig(addrEnv, sslEnv).Some? <==> sslEnv.Some?
    ensures sslEnv.Some? ==>
      var c := LoadConfig(addrEnv, sslEnv).value;
      (c.SSLEnabled <==> WebProto.Lower(sslEnv.value) == "true")
      && c.HTTPURL == (if c.SSLEnabled then "https://" else "http://") + ServerAddr(addrEnv)
      && c.WSURL == (if c.SSLEnabled then "wss://" else "ws://") + ServerAddr(addrEnv)
      && c.ServerAddr == ServerAddr(addrEnv)
  {
  }

  /** "TRUE" and "True" enable SSL like "true"; "1" and "yes" do not. */
  lemma SslSpellings(addrEnv: Option<string>)
    ensures LoadConfig(addrEnv, Some("TRUE")).value.SSLEnabled
    ensures LoadConfig(addrEnv, Some("True")).value.SSLEnabled
    ensures !LoadConfig(addrEnv, Some("1")).value.SSLEnabled
    ensures !LoadConfig(addrEnv, Some("yes")).value.SSLEnabled
  {
    assert WebProto.Lower("TRUE") == "true" by {
      assert "TRUE"[1..] == "RUE" && "RUE"[1..] == "UE" && "UE"[1..] == "E" && "E"[1..] == "";
    }
    assert WebProto.Lower("True") == "true" by {
      assert "True"[1..] == "rue" && "rue"[1..] == "ue" && "ue"[1..] == "e" && "e"[1..] == "";
    }
  }

  /** The secure and plain schemes line up: https with wss, http with ws. */
  lemma SchemesPaired(addrEnv: Option<string>, sslEnv: Option<string>)
    requires sslEnv.Some?
    ensures var c := LoadConfig(addrEnv, sslEnv).value;
      HasPrefix(c.HTTPURL, "https://") <==> HasPrefix(c.WSURL, "wss://")
  {
    var c := LoadConfig(addrEnv, sslEnv).value;
    var a := ServerAddr(addrEnv);
    if c.SSLEnabled {
      assert c.HTTPURL[..8] == "https://";
      assert c.WSURL[..6] == "wss://";
    } else {
      assert c.HTTPURL[4] == ':';
      assert c.WSURL[2] == ':';
    }
  }
}
