/**
 The SOCKS clients of `drift-core/src/proxy/socks4.rs` and `socks5.rs`, and the chains of `proxy/mod.rs`.
 A `Talk` is a negotiation seen from the wire: how it ended, what the client wrote and what it left unread.
 */
module Socks {
  import opened Bytes
  import opened Ipv4
  import opened ByteStreams

  datatype ProxyError = Io | Protocol | Refused | AuthFailed | Unsupported

  datatype Auth = UserPassword(user: bytes, pass: bytes)

  datatype ProxyKind = Socks4 | Socks4a | Socks5

  datatype Proxy = Proxy(kind: ProxyKind, host: bytes, port: u16, auth: Option<Auth>)

  datatype Talk = Talk(result: Result<(), ProxyError>, sent: bytes, rest: bytes)

  function Prefixed(sent: bytes, t: Talk): Talk {
    t.(sent := sent + t.sent)
  }

  const VER: byte := 5
  const CMD_CONNECT: byte := 1
  const RSV: byte := 0
  const METHOD_NO_AUTH: byte := 0
  const METHOD_USER_PASS: byte := 2
  const METHOD_NONE_ACCEPTABLE: byte := 0xFF
  const ATYP_IPV4: byte := 1
  const ATYP_DOMAIN: byte := 3
  const ATYP_IPV6: byte := 4

  // ---- SOCKS4 and SOCKS4a ----

  function Socks4Request(named: bool, host: bytes, port: u16, user: bytes): Result<bytes, ProxyError> {
    if named then Ok([4, 1] + U16Be(port) + [0, 0, 0, 1] + user + [0] + host + [0])
    else
      match ParseIpv4(host)
      case None => Err(Protocol)
      case Some(ip) => Ok([4, 1] + U16Be(port) + ip + user + [0])
  }

  function Socks4Verdict(vn: byte, cd: byte): Result<(), ProxyError> {
    if vn != 0 then Err(Protocol)
    else if cd == 0x5A then Ok(())
    else if cd == 0x5B || cd == 0x5C || cd == 0x5D then Err(Refused)
    else Err(Protocol)
  }

  function Socks4Talk(named: bool, host: bytes, port: u16, user: bytes, input: bytes): Talk {
    match Socks4Request(named, host, port, user)
    case Err(e) => Talk(Err(e), [], input)
    case Ok(req) =>
      if |input| < 8 then Talk(Err(Io), req, []) else Talk(Socks4Verdict(input[0], input[1]), req, input[8..])
  }

  method NegotiateSocks4(stream: ByteStream, named: bool, host: bytes, port: u16, user: bytes)
    returns (r: Result<(), ProxyError>)
    requires stream.Valid()
    modifies stream
    ensures stream.Valid()
    ensures var t := Socks4Talk(named, host, port, user, old(stream.Rest()));
            r == t.result && stream.sent == old(stream.sent) + t.sent && stream.Rest() == t.rest
  {
    var req: bytes := [4, 1] + U16Be(port);
    if named {
      req := req + [0, 0, 0, 1];
    } else {
      var ip := ParseIpv4(host);
      if ip.None? {
        assert stream.sent + [] == stream.sent;
        return Err(Protocol);
      }
      req := req + ip.value;
    }
    req := req + user + [0];
    if named {
      req := req + host + [0];
    }
    hide ParseIpv4;
    stream.WriteAll(req);
    var resp := stream.ReadExact(8);
    if resp.None? {
      return Err(Io);
    }
    var vn, cd := resp.value[0], resp.value[1];
    if vn != 0 {
      return Err(Protocol);
    }
    match cd {
      case 0x5A => return Ok(());
      case 0x5B => return Err(Refused);
      case 0x5C => return Err(Refused);
      case 0x5D => return Err(Refused);
      case _ => return Err(Protocol);
    }
  }

  // ---- SOCKS5 ----

  function Methods(auth: Option<Auth>): bytes {
    [METHOD_NO_AUTH] + if auth.Some? then [METHOD_USER_PASS] else []
  }

  function Greeting(auth: Option<Auth>): bytes {
    [VER, |Methods(auth)|] + Methods(auth)
  }

  predicate Short(s: bytes) {
    |s| <= 255
  }

  function UserPassMessage(auth: Auth): bytes
    requires Short(auth.user) && Short(auth.pass)
  {
    [1, |auth.user|] + auth.user + [|auth.pass|] + auth.pass
  }

  /** The subnegotiation of RFC 1929. */
  function UserPassTalk(auth: Auth, input: bytes): Talk {
    if !Short(auth.user) || !Short(auth.pass) then Talk(Err(Protocol), [], input)
    else
      var msg := UserPassMessage(auth);
      if |input| < 2 then Talk(Err(Io), msg, [])
      else Talk(if input[0] != 1 then Err(Protocol) else if input[1] != 0 then Err(AuthFailed) else Ok(()), msg, input[2..])
  }

  function Skip(n: nat, input: bytes): (Result<(), ProxyError>, bytes) {
    if |input| < n then (Err(Io), []) else (Ok(()), input[n..])
  }

  /** Reading past the bound address and port of a reply. */
  function SkipBound(atyp: byte, input: bytes): (Result<(), ProxyError>, bytes) {
    if atyp == ATYP_IPV4 then Skip(4 + 2, input)
    else if atyp == ATYP_IPV6 then Skip(16 + 2, input)
    else if atyp == ATYP_DOMAIN then if |input| < 1 then (Err(Io), []) else Skip(input[0] as int + 2, input[1..])
    else (Err(Protocol), input)
  }

  function ConnectRequest(host: bytes, port: u16): bytes
    requires Short(host)
  {
    [VER, CMD_CONNECT, RSV, ATYP_DOMAIN, |host|] + host + U16Be(port)
  }

  /** From the CONNECT request on. */
  function ConnectTalk(host: bytes, port: u16, input: bytes): Talk {
    if !Short(host) then Talk(Err(Protocol), [], input)
    else
      var req := ConnectRequest(host, port);
      if |input| < 4 then Talk(Err(Io), req, [])
      else if input[0] != VER then Talk(Err(Protocol), req, input[4..])
      else if input[1] != 0 then Talk(Err(Refused), req, input[4..])
      else
        var (result, rest) := SkipBound(input[3], input[4..]);
        Talk(result, req, rest)
  }

  function Socks5Talk(host: bytes, port: u16, auth: Option<Auth>, input: bytes): Talk {
    var greet := Greeting(auth);
    if |input| < 2 then Talk(Err(Io), greet, [])
    else if input[0] != VER then Talk(Err(Protocol), greet, input[2..])
    else if input[1] == METHOD_NO_AUTH then Prefixed(greet, ConnectTalk(host, port, input[2..]))
    else if input[1] == METHOD_USER_PASS then
      match auth
      case None => Talk(Err(Protocol), greet, input[2..])
      case Some(a) =>
        var t := UserPassTalk(a, input[2..]);
        if t.result.Err? then Prefixed(greet, t) else Prefixed(greet + t.sent, ConnectTalk(host, port, t.rest))
    else if input[1] == METHOD_NONE_ACCEPTABLE then Talk(Err(AuthFailed), greet, input[2..])
    else Talk(Err(Unsupported), greet, input[2..])
  }

  method DoUserPass(stream: ByteStream, auth: Auth) returns (r: Result<(), ProxyError>)
    requires stream.Valid()
    modifies stream
    ensures stream.Valid()
    ensures var t := UserPassTalk(auth, old(stream.Rest()));
            r == t.result && stream.sent == old(stream.sent) + t.sent && stream.Rest() == t.rest
  {
    if !Short(auth.user) || !Short(auth.pass) {
      assert stream.sent + [] == stream.sent;
      return Err(Protocol);
    }
    var msg: bytes := [1];
    msg := msg + [|auth.user|] + auth.user + [|auth.pass|] + auth.pass;
    assert msg == UserPassMessage(auth);
    stream.WriteAll(msg);
    hide UserPassMessage;
    var resp := stream.ReadExact(2);
    if resp.None? {
      return Err(Io);
    }
    if resp.value[0] != 1 {
      return Err(Protocol);
    }
    if resp.value[1] != 0 {
      return Err(AuthFailed);
    }
    return Ok(());
  }

  method ReadBound(stream: ByteStream, atyp: byte) returns (r: Result<(), ProxyError>)
    requires stream.Valid()
    modifies stream`pieces
    ensures stream.Valid()
    ensures (r, stream.Rest()) == SkipBound(atyp, old(stream.Rest()))
  {
    var length: nat;
    match atyp {
      case 1 => length := 4 + 2;
      case 4 => length := 16 + 2;
      case 3 =>
        var len := stream.ReadExact(1);
        if len.None? {
          return Err(Io);
        }
        length := len.value[0] as int + 2;
      case _ => return Err(Protocol);
    }
    var skipped := stream.ReadExact(length);
    return if skipped.Some? then Ok(()) else Err(Io);
  }

  method RequestConnect(stream: ByteStream, host: bytes, port: u16) returns (r: Result<(), ProxyError>)
    requires stream.Valid()
    modifies stream
    ensures stream.Valid()
    ensures var t := ConnectTalk(host, port, old(stream.Rest()));
            r == t.result && stream.sent == old(stream.sent) + t.sent && stream.Rest() == t.rest
  {
    var req: bytes := [VER, CMD_CONNECT, RSV, ATYP_DOMAIN];
    if !Short(host) {
      assert stream.sent + [] == stream.sent;
      return Err(Protocol);
    }
    req := req + [|host|] + host + U16Be(port);
    assert req == ConnectRequest(host, port);
    stream.WriteAll(req);
    hide ConnectRequest, SkipBound;
    var head := stream.ReadExact(4);
    if head.None? {
      return Err(Io);
    }
    if head.value[0] != VER {
      return Err(Protocol);
    }
    if head.value[1] != 0 {
      return Err(Refused);
    }
    r := ReadBound(stream, head.value[3]);
  }

  method NegotiateSocks5(stream: ByteStream, host: bytes, port: u16, auth: Option<Auth>)
    returns (r: Result<(), ProxyError>)
    requires stream.Valid()
    modifies stream
    ensures stream.Valid()
    ensures var t := Socks5Talk(host, port, auth, old(stream.Rest()));
            r == t.result && stream.sent == old(stream.sent) + t.sent && stream.Rest() == t.rest
  {
    hide UserPassTalk, ConnectTalk;
    var methods: bytes := [METHOD_NO_AUTH];
    if auth.Some? {
      methods := methods + [METHOD_USER_PASS];
    }
    var greet: bytes := [VER];
    greet := greet + [|methods|] + methods;
    assert greet == Greeting(auth);
    stream.WriteAll(greet);
    hide Greeting;
    var resp := stream.ReadExact(2);
    if resp.None? {
      return Err(Io);
    }
    if resp.value[0] != VER {
      return Err(Protocol);
    }
    match resp.value[1] {
      case 0x00 =>
      case 0x02 =>
        if auth.None? {
          return Err(Protocol);
        }
        r := DoUserPass(stream, auth.value);
        if r.Err? {
          return;
        }
      case 0xFF =>
        return Err(AuthFailed);
      case _ =>
        return Err(Unsupported);
    }
    r := RequestConnect(stream, host, port);
  }

  // ---- Chains ----

  function ExtractUser(auth: Option<Auth>): bytes {
    match auth
    case Some(a) => a.user
    case None => []
  }

  function HopTalk(hop: Proxy, host: bytes, port: u16, input: bytes): Talk {
    match hop.kind
    case Socks5 => Socks5Talk(host, port, hop.auth, input)
    case Socks4 => Socks4Talk(false, host, port, ExtractUser(hop.auth), input)
    case Socks4a => Socks4Talk(true, host, port, ExtractUser(hop.auth), input)
  }

  /** Where the first hop of a chain must lead. */
  function Target(chain: seq<Proxy>, host: bytes, port: u16): (bytes, u16)
    requires chain != []
  {
    if |chain| > 1 then (chain[1].host, chain[1].port) else (host, port)
  }

  function ChainTalk(chain: seq<Proxy>, host: bytes, port: u16, input: bytes): Talk {
    if chain == [] then Talk(Ok(()), [], input)
    else
      var (h, p) := Target(chain, host, port);
      var t := HopTalk(chain[0], h, p, input);
      if t.result.Err? then t else Prefixed(t.sent, ChainTalk(chain[1..], host, port, t.rest))
  }

  method NegotiateHop(stream: ByteStream, hop: Proxy, host: bytes, port: u16) returns (r: Result<(), ProxyError>)
    requires stream.Valid()
    modifies stream
    ensures stream.Valid()
    ensures var t := HopTalk(hop, host, port, old(stream.Rest()));
            r == t.result && stream.sent == old(stream.sent) + t.sent && stream.Rest() == t.rest
  {
    match hop.kind {
      case Socks5 => r := NegotiateSocks5(stream, host, port, hop.auth);
      case Socks4 => r := NegotiateSocks4(stream, false, host, port, ExtractUser(hop.auth));
      case Socks4a => r := NegotiateSocks4(stream, true, host, port, ExtractUser(hop.auth));
    }
  }

  method ApplyChain(stream: ByteStream, chain: seq<Proxy>, host: bytes, port: u16) returns (r: Result<(), ProxyError>)
    requires stream.Valid()
    modifies stream
    ensures stream.Valid()
    ensures var t := ChainTalk(chain, host, port, old(stream.Rest()));
            r == t.result && stream.sent == old(stream.sent) + t.sent && stream.Rest() == t.rest
  {
    hide HopTalk;
    ghost var whole := ChainTalk(chain, host, port, stream.Rest());
    assert chain[0..] == chain && stream.sent + whole.sent == stream.sent + whole.sent;
    for i := 0 to |chain|
      invariant stream.Valid()
      invariant var t := ChainTalk(chain[i..], host, port, stream.Rest());
                whole.result == t.result && old(stream.sent) + whole.sent == stream.sent + t.sent && whole.rest == t.rest
    {
      assert chain[i..][1..] == chain[i + 1..];
      var nextHost, nextPort := host, port;
      if i + 1 < |chain| {
        nextHost, nextPort := chain[i + 1].host, chain[i + 1].port;
      }
      r := NegotiateHop(stream, chain[i], nextHost, nextPort);
      if r.Err? {
        return;
      }
    }
    assert stream.sent + [] == stream.sent;
    return Ok(());
  }
}
