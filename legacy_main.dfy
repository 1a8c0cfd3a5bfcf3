/**
 * main.go of the legacy root package: how the client turns the `-c`
 * address into a websocket URL and a keepalive URL, and how the `-ns`
 * seat count is narrowed to a byte.
 */
module LegacyMain {
  import opened Common

  /**
   * runClient's normalisation: an address already starting with "ws://" is
   * kept; otherwise a leading "http://" or "https://" is dropped and "ws://"
   * is put in front.
   */
  function WsAddr(addr: string): (r: string)
    ensures HasPrefix(r, "ws://")
  {
    if HasPrefix(addr, "ws://") then addr
    else if HasPrefix(addr, "http://") then "ws://" + addr[7..]
    else if HasPrefix(addr, "https://") then "ws://" + addr[8..]
    else "ws://" + addr
  }

  /** The keepalive request's URL: "http://" and the address after its five-character scheme. */
  function KeepaliveURL(wsAddr: string): (r: string)
    requires |wsAddr| >= 5
    ensures HasPrefix(r, "http://") && r[7..] == wsAddr[5..]
  {
    "http://" + wsAddr[5..]
  }

  lemma PrefixOfConcat(p: string, rest: string)
    ensures HasPrefix(p + rest, p) && (p + rest)[|p|..] == rest
  {
    assert (p + rest)[..|p|] == p;
  }

  /** Normalising twice is normalising once. */
  lemma WsAddrIdempotent(addr: string)
    ensures WsAddr(WsAddr(addr)) == WsAddr(addr)
  {
  }

  /**
   * The websocket URL and the keepalive URL name the same host: for "http://h",
   * "https://h" and a bare "h" (not starting with one of the three schemes)
   * the websocket URL is "ws://h" and the keepalive is "http://h".
   */
  lemma SchemesOfHost(host: string)
    requires !HasPrefix(host, "ws://") && !HasPrefix(host, "http://") && !HasPrefix(host, "https://")
    ensures WsAddr("http://" + host) == "ws://" + host
    ensures WsAddr("https://" + host) == "ws://" + host
    ensures WsAddr(host) == "ws://" + host
    ensures KeepaliveURL(WsAddr("http://" + host)) == "http://" + host
    ensures KeepaliveURL(WsAddr("https://" + host)) == "http://" + host
    ensures KeepaliveURL(WsAddr(host)) == "http://" + host
  {
    PrefixOfConcat("http://", host);
    PrefixOfConcat("https://", host);
    PrefixOfConcat("ws://", host);
    assert !HasPrefix("http://" + host, "ws://") by {
      assert ("http://" + host)[0] == 'h';
    }
    assert !HasPrefix("https://" + host, "ws://") by {
      assert ("https://" + host)[0] == 'h';
    }
    assert !HasPrefix("https://" + host, "http://") by {
      assert ("https://" + host)[4] == 's';
    }
  }

  /** An address of the "wss://" scheme is not recognised: it gets a second scheme in front. */
  lemma WssGetsSecondScheme(host: string)
    ensures WsAddr("wss://" + host) == "ws://wss://" + host
  {
    var a := "wss://" + host;
    assert a[..5][2] == 's';
    if |a| >= 7 {
      assert a[..7][0] == 'w';
    }
    if |a| >= 8 {
      assert a[..8][0] == 'w';
    }
  }

  /** main's `-ns` check: a count above 255 is refused (None); any other is kept as a byte. */
  function SeatCount(numSeats: uint64): (r: Option<uint8>)
    ensures r.Some? <==> numSeats <= 255
    ensures r.Some? ==> r.value == numSeats
  {
    if numSeats > 255 then None else Some(numSeats as uint8)
  }
}
