/**
 * The connection pool: `_connection_pool`, `_get_connection_key`,
 * `_get_or_create_client` and `modbus_disconnect` (modbus_tcp_mcp.py).
 * The process-wide dictionary becomes a pool object that callers hold.
 */
module Pool {

  /** `DEFAULT_TIMEOUT`, in seconds. */
  const DefaultTimeout: real := 10.0

  function DigitChar(d: int): char
    requires 0 <= d < 10
  {
    ('0' as int + d) as char
  }

  predicate IsDigit(c: char) {
    '0' <= c <= '9'
  }

  /** The decimal digits of a natural number, most significant first. */
  function NatToDecimal(n: nat): (s: string)
    ensures |s| >= 1
    ensures forall i :: 0 <= i < |s| ==> IsDigit(s[i])
    decreases n
  {
    if n < 10 then [DigitChar(n)] else NatToDecimal(n / 10) + [DigitChar(n % 10)]
  }

  /** The number a string of decimal digits stands for. */
  function DecimalValue(s: string): int
    requires forall i :: 0 <= i < |s| ==> IsDigit(s[i])
  {
    if s == [] then 0 else DecimalValue(s[..|s| - 1]) * 10 + (s[|s| - 1] as int - '0' as int)
  }

  /** Reading back the digits of `n` gives `n`. */
  lemma {:induction false} DecimalRoundTrip(n: nat)
    ensures DecimalValue(NatToDecimal(n)) == n
  {
    if n >= 10 {
      var s := NatToDecimal(n);
      assert s[..|s| - 1] == NatToDecimal(n / 10);
      DecimalRoundTrip(n / 10);
    }
  }

  /** Python's `str(n)` for an integer. */
  function IntToDecimal(n: int): (s: string)
    ensures ':' !in s
  {
    if n < 0 then "-" + NatToDecimal(-n) else NatToDecimal(n)
  }

  /** The decimal form starts with a minus sign exactly for a negative number. */
  lemma LeadingSign(n: int)
    ensures |IntToDecimal(n)| >= 1 && (IntToDecimal(n)[0] == '-' <==> n < 0)
  {
    if n >= 0 {
      assert IsDigit(NatToDecimal(n)[0]);
    }
  }

  /** Distinct integers have distinct decimal forms. */
  lemma IntToDecimalInjective(a: int, b: int)
    requires IntToDecimal(a) == IntToDecimal(b)
    ensures a == b
  {
    LeadingSign(a);
    LeadingSign(b);
    if a < 0 {
      var da, db := NatToDecimal(-a), NatToDecimal(-b);
      assert ("-" + da)[1..] == da && ("-" + db)[1..] == db;
      DecimalRoundTrip(-a);
      DecimalRoundTrip(-b);
    } else {
      DecimalRoundTrip(a);
      DecimalRoundTrip(b);
    }
  }

  /** The index of the last colon of `s`, or -1 when it has none. */
  function LastColonAt(s: string): (i: int)
    ensures -1 <= i < |s|
    ensures i >= 0 ==> s[i] == ':'
  {
    if s == [] then -1
    else if s[|s| - 1] == ':' then |s| - 1
    else LastColonAt(s[..|s| - 1])
  }

  /** In `h:d` with no colon in `d`, the colon after `h` is the last one. */
  lemma {:induction false} LastColon(h: string, d: string)
    requires ':' !in d
    ensures LastColonAt(h + ":" + d) == |h|
  {
    if d != [] {
      var s := h + ":" + d;
      assert s[|s| - 1] == d[|d| - 1];
      assert s[..|s| - 1] == h + ":" + d[..|d| - 1];
      LastColon(h, d[..|d| - 1]);
    } else {
      assert h + ":" + d == h + ":";
    }
  }

  /** `_get_connection_key`: the pool key `host:port`. */
  function Key(host: string, port: int): string {
    host + ":" + IntToDecimal(port)
  }

  /**
   * The port's decimal form has no colon, so the colon written after the host is
   * the key's last colon.
   */
  lemma KeyLastColon(host: string, port: int)
    ensures LastColonAt(Key(host, port)) == |host|
  {
    LastColon(host, IntToDecimal(port));
  }

  /**
   * The key is unique per (host, port): its last colon separates the host from the
   * port, even when the host has colons.
   */
  lemma {:induction false} KeyInjective(host1: string, port1: int, host2: string, port2: int)
    requires Key(host1, port1) == Key(host2, port2)
    ensures host1 == host2 && port1 == port2
  {
    var key := Key(host1, port1);
    var d1, d2 := IntToDecimal(port1), IntToDecimal(port2);
    KeyLastColon(host1, port1);
    KeyLastColon(host2, port2);
    assert |host1| == |host2|;
    assert d1 == key[|host1| + 1..] == d2;
    assert host1 == key[..|host1|] == host2;
    IntToDecimalInjective(port1, port2);
  }

  /** A Modbus TCP client: the endpoint it was made for and whether its transport is up. */
  class Client {
    const host: string
    const port: int
    const timeout: real
    var connected: bool

    constructor (host: string, port: int, timeout: real)
      ensures this.host == host && this.port == port && this.timeout == timeout
      ensures !connected
    {
      this.host := host;
      this.port := port;
      this.timeout := timeout;
      connected := false;
    }

    /** The TCP handshake; whether the device accepts it is the parameter. */
    method Connect(succeeds: bool)
      modifies this
      ensures connected == succeeds
    {
      connected := succeeds;
    }

    method Close()
      modifies this
      ensures !connected
    {
      connected := false;
    }
  }

  class ConnectionPool {
    /** `_connection_pool`: the client registered for each `host:port` key. */
    var entries: map<string, Client>
    /** The keys for which a handshake was attempted, in order. */
    ghost var Handshakes: seq<string>

    /** Every client is registered under its own endpoint's key. */
    ghost predicate Valid()
      reads this
    {
      forall k :: k in entries ==> Key(entries[k].host, entries[k].port) == k
    }

    /** The pool holds a connected client for the endpoint. */
    ghost predicate Live(host: string, port: int)
      reads this, entries.Values
    {
      Key(host, port) in entries && entries[Key(host, port)].connected
    }

    /**
     * The state an acquisition for the endpoint leaves, given whether the endpoint
     * was live and the entries and handshakes before it: nothing changes for a live
     * endpoint; otherwise one handshake is logged, and the endpoint's key then maps
     * to a connected client for the endpoint (success) or to nothing (failure),
     * every other key keeping its client.
     */
    ghost predicate Acquired(host: string, port: int, timeout: real, succeeds: bool,
                             wasLive: bool, entries0: map<string, Client>, handshakes0: seq<string>)
      reads this, entries.Values
    {
      if wasLive then entries == entries0 && Handshakes == handshakes0
      else
        && Handshakes == handshakes0 + [Key(host, port)]
        && if succeeds then
             && Key(host, port) in entries
             && entries == entries0[Key(host, port) := entries[Key(host, port)]]
             && var c := entries[Key(host, port)];
                c.host == host && c.port == port && c.timeout == timeout && c.connected
           else entries == entries0 - {Key(host, port)}
    }

    constructor ()
      ensures Valid() && entries == map[] && Handshakes == []
    {
      entries := map[];
      Handshakes := [];
    }

    /** A client found under an endpoint's key was made for that endpoint. */
    lemma EntryMatchesEndpoint(host: string, port: int)
      requires Valid() && Key(host, port) in entries
      ensures entries[Key(host, port)].host == host && entries[Key(host, port)].port == port
    {
      var c := entries[Key(host, port)];
      KeyInjective(c.host, c.port, host, port);
    }

    /**
     * `_get_or_create_client`: a connected client registered for the endpoint is
     * returned as it is, without a handshake. Otherwise a registered client (a dead
     * one) is dropped, a new client attempts the handshake, and it is registered
     * only when the handshake succeeds; on failure (`ConnectionException`) the
     * result is null and no entry is left for the endpoint.
     */
    method Acquire(host: string, port: int, timeout: real, handshakeSucceeds: bool) returns (c: Client?)
      requires Valid()
      modifies this
      ensures Valid()
      ensures c != null ==> c.host == host && c.port == port && c.connected
      ensures old(Live(host, port)) ==>
        c == old(entries[Key(host, port)]) && entries == old(entries) && Handshakes == old(Handshakes)
      ensures !old(Live(host, port)) ==> Handshakes == old(Handshakes) + [Key(host, port)]
      ensures !old(Live(host, port)) && handshakeSucceeds ==>
        c != null && fresh(c) && c.timeout == timeout && entries == old(entries)[Key(host, port) := c]
      ensures !old(Live(host, port)) && !handshakeSucceeds ==>
        c == null && entries == old(entries) - {Key(host, port)}
      ensures Acquired(host, port, timeout, handshakeSucceeds, old(Live(host, port)), old(entries), old(Handshakes))
    {
      var key := Key(host, port);
      if key in entries {
        var existing := entries[key];
        if existing.connected {
          EntryMatchesEndpoint(host, port);
          return existing;
        }
        entries := entries - {key};
      }
      var client := new Client(host, port, timeout);
      Handshakes := Handshakes + [key];
      client.Connect(handshakeSucceeds);
      if !client.connected {
        return null;
      }
      entries := entries[key := client];
      c := client;
    }

    /**
     * `modbus_disconnect`: removes the endpoint's entry, closing its client, and
     * reports whether there was one; without an entry nothing changes.
     */
    method Disconnect(host: string, port: int) returns (found: bool)
      requires Valid()
      modifies this, if Key(host, port) in entries then {entries[Key(host, port)]} else {}
      ensures Valid()
      ensures found == (Key(host, port) in old(entries))
      ensures entries == old(entries) - {Key(host, port)}
      ensures found ==> !old(entries)[Key(host, port)].connected
      ensures Handshakes == old(Handshakes)
    {
      var key := Key(host, port);
      found := key in entries;
      if found {
        var client := entries[key];
        entries := entries - {key};
        if client.connected {
          client.Close();
        }
      }
    }
  }

  /** Two acquisitions in a row: once the first has a client, the second returns it without a handshake. */
  method AcquireTwice(pool: ConnectionPool, host: string, port: int, first: bool, second: bool)
    returns (c1: Client?, c2: Client?)
    requires pool.Valid()
    modifies pool
    ensures pool.Valid()
    ensures c1 != null <==> old(pool.Live(host, port)) || first
    ensures c1 != null ==> c2 == c1
    ensures c1 != null && old(pool.Live(host, port)) ==> pool.Handshakes == old(pool.Handshakes)
    ensures c1 != null && !old(pool.Live(host, port)) ==> pool.Handshakes == old(pool.Handshakes) + [Key(host, port)]
  {
    c1 := pool.Acquire(host, port, DefaultTimeout, first);
    c2 := pool.Acquire(host, port, DefaultTimeout, second);
  }

  /** After a disconnect, the next acquisition performs a fresh handshake. */
  method ReconnectAfterDisconnect(pool: ConnectionPool, host: string, port: int, succeeds: bool)
    returns (c: Client?)
    requires pool.Valid()
    modifies pool, pool.entries.Values
    ensures pool.Valid()
    ensures pool.Handshakes == old(pool.Handshakes) + [Key(host, port)]
    ensures succeeds ==> c != null && fresh(c)
    ensures !succeeds ==> c == null && Key(host, port) !in pool.entries
  {
    var _ := pool.Disconnect(host, port);
    c := pool.Acquire(host, port, DefaultTimeout, succeeds);
  }
}
