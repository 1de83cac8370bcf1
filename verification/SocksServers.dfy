/**
 Reference SOCKS servers, from sections 3 to 6 of RFC 1928, section 2 of RFC 1929 and the SOCKS4 and SOCKS4A
 protocols: the replies by which they grant a request, and what they read in the bytes a client wrote.
 */
module SocksServers {
  import opened Bytes
  import opened Text
  import opened Ipv4
  import opened Socks

  // ---- The values of RFC 1928, and the login version of RFC 1929 ----

  const VERSION: byte := 5
  const CONNECT: byte := 1
  const RESERVED: byte := 0
  const IP_V4: byte := 1
  const DOMAINNAME: byte := 3
  const IP_V6: byte := 4
  const NO_AUTHENTICATION: byte := 0
  const USERNAME_PASSWORD: byte := 2
  const NO_ACCEPTABLE_METHODS: byte := 0xFF
  const LOGIN_VERSION: byte := 1

  /** A field whose length fits the byte in front of it. */
  predicate Fits(field: bytes) {
    |field| < 0x100
  }

  /** A port in network order. */
  function PortIn(s: bytes): u16
    requires |s| == 2
  {
    256 * (s[0] as int) + s[1] as int
  }

  // ---- Replies that grant ----

  datatype Address = Ip4(ip: bytes) | Ip6(ip: bytes) | Name(name: bytes)

  predicate Sized(a: Address) {
    match a
    case Ip4(ip) => |ip| == 4
    case Ip6(ip) => |ip| == 16
    case Name(name) => Fits(name)
  }

  function AddressBytes(a: Address): bytes {
    match a
    case Ip4(ip) => [IP_V4] + ip
    case Ip6(ip) => [IP_V6] + ip
    case Name(name) => if Fits(name) then [DOMAINNAME, |name|] + name else []
  }

  /** A SOCKS4 reply, or everything a SOCKS5 server replies: the method, the verdict on the login, the bound address. */
  datatype Grant = Granted4(port: u16, ip: bytes) | Granted5(chosen: byte, reserved: byte, bound: Address, port: u16)

  function LoginAccepted(chosen: byte): bytes {
    if chosen == USERNAME_PASSWORD then [LOGIN_VERSION, 0] else []
  }

  function ReplyBytes(reserved: byte, bound: Address, port: u16): bytes {
    [VERSION, 0, reserved] + AddressBytes(bound) + U16Be(port)
  }

  function GrantBytes(g: Grant): bytes {
    match g
    case Granted4(port, ip) => [0, 0x5A] + U16Be(port) + ip
    case Granted5(chosen, reserved, bound, port) =>
      [VERSION, chosen] + LoginAccepted(chosen) + ReplyBytes(reserved, bound, port)
  }

  /** The client has credentials to show, and they fit their length fields. */
  predicate CanLogIn(auth: Option<Auth>) {
    auth.Some? && Fits(auth.value.user) && Fits(auth.value.pass)
  }

  /** `g` is what a server of the hop's kind may reply to grant the client's request. */
  predicate Grants(hop: Proxy, g: Grant) {
    if hop.kind.Socks5? then
      && g.Granted5? && Sized(g.bound)
      && (g.chosen == NO_AUTHENTICATION || (g.chosen == USERNAME_PASSWORD && CanLogIn(hop.auth)))
    else g.Granted4? && |g.ip| == 4
  }

  /** The hop's kind of request can name `host`. */
  predicate HostFits(kind: ProxyKind, host: bytes) {
    match kind
    case Socks5 => Fits(host)
    case Socks4 => ParseIpv4(host).Some?
    case Socks4a => true
  }

  lemma PortFound(b: bytes)
    requires |b| == 2
    ensures U16Be(FromU16Be(b)) == b
  {
  }

  lemma BoundSkipped(a: Address, port: u16, rest: bytes)
    requires Sized(a)
    ensures var s := AddressBytes(a) + U16Be(port) + rest;
            s != [] && SkipBound(s[0], s[1..]) == (Ok(()), rest)
  {
    var s := AddressBytes(a) + U16Be(port) + rest;
    match a {
      case Ip4(ip) => assert s[1..][6..] == rest;
      case Ip6(ip) => assert s[1..][18..] == rest;
      case Name(name) => assert s[1..][1..][|name| + 2..] == rest;
    }
  }

  lemma Cut(s: bytes, i: nat, j: nat)
    requires i <= j <= |s|
    ensures s == s[..i] + s[i..j] + s[j..]
  {
  }

  /** Address bytes of which only the first `k` say what they are. */
  lemma BoundCut(s: bytes, k: nat, n: nat, rest: bytes)
    requires |s| >= k + n + 2 && rest == s[k + n + 2..]
    ensures s == s[..k] + s[k..k + n] + U16Be(FromU16Be(s[k + n..k + n + 2])) + rest
  {
    PortFound(s[k + n..k + n + 2]);
    hide U16Be, FromU16Be;
    Cut(s, k + n, k + n + 2);
    assert s[..k + n] == s[..k] + s[k..k + n];
  }

  lemma BoundFound(s: bytes, rest: bytes) returns (a: Address, port: u16)
    requires s != [] && SkipBound(s[0], s[1..]) == (Ok(()), rest)
    ensures Sized(a) && s == AddressBytes(a) + U16Be(port) + rest
  {
    hide U16Be, FromU16Be;
    var k := if s[0] == DOMAINNAME then 2 else 1;
    var n: int := if s[0] == DOMAINNAME then s[1] else if s[0] == IP_V4 then 4 else 16;
    assert |s| >= k + n + 2 && rest == s[k + n + 2..];
    var body := s[k..k + n];
    a := if s[0] == DOMAINNAME then Name(body) else if s[0] == IP_V4 then Ip4(body) else Ip6(body);
    port := FromU16Be(s[k + n..k + n + 2]);
    BoundCut(s, k, n, rest);
    assert s[..k] == if s[0] == DOMAINNAME then [s[0], s[1]] else [s[0]];
  }

  lemma Split(front: bytes, back: bytes)
    ensures (front + back)[..|front|] == front && (front + back)[|front|..] == back
  {
  }

  lemma ReplySplits(reserved: byte, bound: Address, boundPort: u16, rest: bytes)
    requires Sized(bound)
    ensures var s := AddressBytes(bound) + U16Be(boundPort) + rest;
            var input := ReplyBytes(reserved, bound, boundPort) + rest;
            && |input| >= 4 && s != [] && input[0] == VERSION && input[1] == 0
            && input[3] == s[0] && input[4..] == s[1..]
  {
    var s := AddressBytes(bound) + U16Be(boundPort) + rest;
    var input := ReplyBytes(reserved, bound, boundPort) + rest;
    assert input == [VERSION, 0, reserved] + s;
    assert AddressBytes(bound) != [];
    hide AddressBytes;
    assert input[3..] == s;
    assert input[4..] == input[3..][1..];
  }

  lemma ReplyAccepted(host: bytes, port: u16, reserved: byte, bound: Address, boundPort: u16, rest: bytes)
    requires Fits(host) && Sized(bound)
    ensures ConnectTalk(host, port, ReplyBytes(reserved, bound, boundPort) + rest)
            == Talk(Ok(()), ConnectRequest(host, port), rest)
  {
    hide AddressBytes, SkipBound, ConnectRequest, ReplyBytes;
    BoundSkipped(bound, boundPort, rest);
    ReplySplits(reserved, bound, boundPort, rest);
  }

  lemma ReplyJoins(input: bytes, reserved: byte, bound: Address, boundPort: u16, rest: bytes)
    requires |input| >= 3 && input[0] == VERSION && input[1] == 0 && input[2] == reserved
    requires input[3..] == AddressBytes(bound) + U16Be(boundPort) + rest
    ensures input == ReplyBytes(reserved, bound, boundPort) + rest
  {
    hide AddressBytes, U16Be;
    assert input == [input[0], input[1], input[2]] + input[3..];
  }

  lemma SkippedWhole(atyp: byte, s: bytes)
    requires SkipBound(atyp, s).0.Ok?
    ensures SkipBound(atyp, s) == (Ok(()), SkipBound(atyp, s).1)
  {
  }

  lemma ReplyFound(host: bytes, port: u16, input: bytes)
    returns (reserved: byte, bound: Address, boundPort: u16)
    requires ConnectTalk(host, port, input).result.Ok?
    ensures Fits(host) && Sized(bound)
    ensures input == ReplyBytes(reserved, bound, boundPort) + ConnectTalk(host, port, input).rest
  {
    hide ConnectRequest, SkipBound, AddressBytes, U16Be, ReplyBytes, Sized;
    reserved := input[2];
    assert input[3..][0] == input[3] && input[3..][1..] == input[4..];
    var rest := ConnectTalk(host, port, input).rest;
    SkippedWhole(input[3], input[4..]);
    bound, boundPort := BoundFound(input[3..], rest);
    ReplyJoins(input, reserved, bound, boundPort, rest);
  }

  /** What the client writes to a hop that chose the login method `chosen`. */
  function HopSent(hop: Proxy, host: bytes, port: u16, chosen: byte): bytes {
    match hop.kind
    case Socks5 =>
      Greeting(hop.auth)
      + (if chosen == USERNAME_PASSWORD && CanLogIn(hop.auth) then UserPassMessage(hop.auth.value) else [])
      + if Fits(host) then ConnectRequest(host, port) else []
    case Socks4 =>
      (match Socks4Request(false, host, port, ExtractUser(hop.auth)) case Ok(req) => req case Err(_) => [])
    case Socks4a =>
      (match Socks4Request(true, host, port, ExtractUser(hop.auth)) case Ok(req) => req case Err(_) => [])
  }

  function MethodOf(g: Grant): byte {
    if g.Granted5? then g.chosen else 0
  }

  /** A SOCKS5 server's replies, around what answers the login. */
  lemma GrantSplits(g: Grant, rest: bytes)
    requires g.Granted5?
    ensures var input := GrantBytes(g) + rest;
            && |input| >= 2 && input[0] == VERSION && input[1] == g.chosen
            && input[2..] == LoginAccepted(g.chosen) + (ReplyBytes(g.reserved, g.bound, g.port) + rest)
  {
    hide LoginAccepted, ReplyBytes;
    var more := LoginAccepted(g.chosen) + (ReplyBytes(g.reserved, g.bound, g.port) + rest);
    assert GrantBytes(g) + rest == [VERSION, g.chosen] + more;
    Split([VERSION, g.chosen], more);
  }

  lemma LoginSplits(chosen: byte, reply: bytes)
    ensures chosen == USERNAME_PASSWORD ==>
              var s := LoginAccepted(chosen) + reply;
              |s| >= 2 && s[0] == LOGIN_VERSION && s[1] == 0 && s[2..] == reply
    ensures chosen != USERNAME_PASSWORD ==> LoginAccepted(chosen) + reply == reply
  {
  }

  lemma Granted5Accepted(hop: Proxy, host: bytes, port: u16, g: Grant, rest: bytes)
    requires hop.kind.Socks5? && Fits(host) && Grants(hop, g)
    ensures Socks5Talk(host, port, hop.auth, GrantBytes(g) + rest)
            == Talk(Ok(()), HopSent(hop, host, port, g.chosen), rest)
  {
    hide ReplyBytes, ConnectTalk, ConnectRequest, Greeting, UserPassMessage, GrantBytes, LoginAccepted;
    GrantSplits(g, rest);
    LoginSplits(g.chosen, ReplyBytes(g.reserved, g.bound, g.port) + rest);
    ReplyAccepted(host, port, g.reserved, g.bound, g.port, rest);
    assert Greeting(hop.auth) + [] == Greeting(hop.auth);
  }

  lemma GrantJoins(input: bytes, g: Grant, rest: bytes)
    requires g.Granted5? && |input| >= 2 && input[0] == VERSION && input[1] == g.chosen
    requires input[2..] == LoginAccepted(g.chosen) + (ReplyBytes(g.reserved, g.bound, g.port) + rest)
    ensures input == GrantBytes(g) + rest
  {
    hide LoginAccepted, ReplyBytes;
    assert input == [input[0], input[1]] + input[2..];
  }

  lemma LoginJoins(chosen: byte, s: bytes)
    requires chosen == USERNAME_PASSWORD ==> |s| >= 2 && s[0] == 1 && s[1] == 0
    ensures s == LoginAccepted(chosen) + if chosen == USERNAME_PASSWORD then s[2..] else s
  {
  }

  lemma Granted5Found(hop: Proxy, host: bytes, port: u16, input: bytes) returns (g: Grant)
    requires hop.kind.Socks5? && Socks5Talk(host, port, hop.auth, input).result.Ok?
    ensures Fits(host) && Grants(hop, g)
    ensures input == GrantBytes(g) + Socks5Talk(host, port, hop.auth, input).rest
  {
    hide Greeting, UserPassMessage, ConnectTalk, ReplyBytes, GrantBytes, LoginAccepted;
    var chosen := input[1];
    var replies := if chosen == USERNAME_PASSWORD then input[2..][2..] else input[2..];
    LoginJoins(chosen, input[2..]);
    var reserved, bound, boundPort := ReplyFound(host, port, replies);
    g := Granted5(chosen, reserved, bound, boundPort);
    GrantJoins(input, g, ConnectTalk(host, port, replies).rest);
  }

  lemma Granted4Accepted(named: bool, host: bytes, port: u16, user: bytes, g: Grant, rest: bytes)
    requires Socks4Request(named, host, port, user).Ok? && g.Granted4? && |g.ip| == 4
    ensures Socks4Talk(named, host, port, user, GrantBytes(g) + rest)
            == Talk(Ok(()), Socks4Request(named, host, port, user).value, rest)
  {
    hide Socks4Request;
    assert (GrantBytes(g) + rest)[8..] == rest;
  }

  lemma Granted4Found(named: bool, host: bytes, port: u16, user: bytes, input: bytes) returns (g: Grant)
    requires Socks4Talk(named, host, port, user, input).result.Ok?
    ensures Socks4Request(named, host, port, user).Ok? && g.Granted4? && |g.ip| == 4
    ensures input == GrantBytes(g) + Socks4Talk(named, host, port, user, input).rest
  {
    hide Socks4Request;
    g := Granted4(FromU16Be(input[2..4]), input[4..8]);
    PortFound(input[2..4]);
    assert input == [input[0], input[1]] + input[2..4] + input[4..8] + input[8..];
  }

  lemma HopAccepts(hop: Proxy, host: bytes, port: u16, g: Grant, rest: bytes)
    requires HostFits(hop.kind, host) && Grants(hop, g)
    ensures HopTalk(hop, host, port, GrantBytes(g) + rest) == Talk(Ok(()), HopSent(hop, host, port, MethodOf(g)), rest)
  {
    match hop.kind {
      case Socks5 => Granted5Accepted(hop, host, port, g, rest);
      case Socks4 => Granted4Accepted(false, host, port, ExtractUser(hop.auth), g, rest);
      case Socks4a => Granted4Accepted(true, host, port, ExtractUser(hop.auth), g, rest);
    }
  }

  lemma GrantFound(hop: Proxy, host: bytes, port: u16, input: bytes) returns (g: Grant)
    requires HopTalk(hop, host, port, input).result.Ok?
    ensures HostFits(hop.kind, host) && Grants(hop, g)
    ensures input == GrantBytes(g) + HopTalk(hop, host, port, input).rest
  {
    match hop.kind {
      case Socks5 => g := Granted5Found(hop, host, port, input);
      case Socks4 => g := Granted4Found(false, host, port, ExtractUser(hop.auth), input);
      case Socks4a => g := Granted4Found(true, host, port, ExtractUser(hop.auth), input);
    }
  }

  // ---- Replies that do not grant ----

  /** How a server turns a client down. */
  datatype Denial =
    | Denied4(code: byte, tail: bytes)
    | NoMethod
    | LoginRejected(status: byte)
    | ConnectRefused(chosen: byte, code: byte, reserved: byte, atyp: byte)

  predicate MethodFits(hop: Proxy, chosen: byte) {
    hop.kind.Socks5? ==> chosen == NO_AUTHENTICATION || (chosen == USERNAME_PASSWORD && CanLogIn(hop.auth))
  }

  predicate Denies(hop: Proxy, d: Denial) {
    match d
    case Denied4(code, tail) => !hop.kind.Socks5? && 0x5B <= code <= 0x5D && |tail| == 6
    case NoMethod => hop.kind.Socks5?
    case LoginRejected(status) => hop.kind.Socks5? && CanLogIn(hop.auth) && status != 0
    case ConnectRefused(chosen, code, _, _) => hop.kind.Socks5? && MethodFits(hop, chosen) && code != 0
  }

  function DenialBytes(d: Denial): bytes {
    match d
    case Denied4(code, tail) => [0, code] + tail
    case NoMethod => [VERSION, NO_ACCEPTABLE_METHODS]
    case LoginRejected(status) => [VERSION, USERNAME_PASSWORD] + [1, status]
    case ConnectRefused(chosen, code, reserved, atyp) => [VERSION, chosen] + (LoginAccepted(chosen) + [VERSION, code, reserved, atyp])
  }

  lemma LoginRejectionReported(hop: Proxy, host: bytes, port: u16, status: byte, rest: bytes)
    requires hop.kind.Socks5? && CanLogIn(hop.auth) && status != 0
    ensures var t := Socks5Talk(host, port, hop.auth, [VERSION, USERNAME_PASSWORD] + [1, status] + rest);
            t.result == Err(AuthFailed) && t.rest == rest
  {
    hide Greeting, UserPassMessage;
    var more := [1, status] + rest;
    var input := [VERSION, USERNAME_PASSWORD] + [1, status] + rest;
    assert input == [VERSION, USERNAME_PASSWORD] + more;
    Split([VERSION, USERNAME_PASSWORD], more);
    Split([1, status], rest);
  }

  lemma RefusalReported(host: bytes, port: u16, code: byte, reserved: byte, atyp: byte, rest: bytes)
    requires Fits(host) && code != 0
    ensures ConnectTalk(host, port, [VERSION, code, reserved, atyp] + rest) == Talk(Err(Refused), ConnectRequest(host, port), rest)
  {
    hide ConnectRequest;
    Split([VERSION, code, reserved, atyp], rest);
  }

  lemma ConnectRefusalReported(hop: Proxy, host: bytes, port: u16, chosen: byte, reply: bytes)
    requires hop.kind.Socks5? && MethodFits(hop, chosen)
    ensures var (t, c) := (Socks5Talk(host, port, hop.auth, [VERSION, chosen] + (LoginAccepted(chosen) + reply)),
                           ConnectTalk(host, port, reply));
            t.result == c.result && t.rest == c.rest
  {
    hide Greeting, UserPassMessage, ConnectTalk, LoginAccepted;
    Split([VERSION, chosen], LoginAccepted(chosen) + reply);
    LoginSplits(chosen, reply);
  }

  lemma Denial4Reported(named: bool, host: bytes, port: u16, user: bytes, d: Denial, rest: bytes)
    requires d.Denied4? && 0x5B <= d.code <= 0x5D && |d.tail| == 6 && (named || ParseIpv4(host).Some?)
    ensures var t := Socks4Talk(named, host, port, user, DenialBytes(d) + rest);
            t.result == Err(Refused) && t.rest == rest
  {
    hide ParseIpv4;
    assert (DenialBytes(d) + rest)[8..] == rest;
  }

  lemma NoMethodReported(hop: Proxy, host: bytes, port: u16, rest: bytes)
    ensures var t := Socks5Talk(host, port, hop.auth, [VERSION, NO_ACCEPTABLE_METHODS] + rest);
            t.result == Err(AuthFailed) && t.rest == rest
  {
    Split([VERSION, NO_ACCEPTABLE_METHODS], rest);
  }

  /** A client that is turned down reports which way, and has read that reply and nothing after it. */
  lemma DenialsAreReported(hop: Proxy, host: bytes, port: u16, d: Denial, rest: bytes)
    requires HostFits(hop.kind, host) && Denies(hop, d)
    ensures var t := HopTalk(hop, host, port, DenialBytes(d) + rest);
            t.rest == rest && t.result == Err(if d.NoMethod? || d.LoginRejected? then AuthFailed else Refused)
  {
    hide Socks5Talk, ConnectTalk, LoginAccepted, Socks4Request;
    match d {
      case Denied4(_, tail) =>
        Denial4Reported(hop.kind.Socks4a?, host, port, ExtractUser(hop.auth), d, rest);
      case NoMethod =>
        NoMethodReported(hop, host, port, rest);
      case LoginRejected(status) =>
        LoginRejectionReported(hop, host, port, status, rest);
      case ConnectRefused(chosen, code, reserved, atyp) =>
        var reply := [VERSION, code, reserved, atyp] + rest;
        RefusalReported(host, port, code, reserved, atyp, rest);
        ConnectRefusalReported(hop, host, port, chosen, reply);
        assert DenialBytes(d) + rest == [VERSION, chosen] + (LoginAccepted(chosen) + reply);
    }
  }

  // ---- Replies that break the protocol ----

  datatype Breach =
    | Version4(version: byte, code: byte, tail: bytes)
    | Code4(code: byte, tail: bytes)
    | MethodVersion(version: byte, chosen: byte)
    | UnofferedLogin
    | UnknownMethod(chosen: byte)
    | LoginVersion(version: byte, status: byte)
    | ReplyVersion(chosen: byte, version: byte, code: byte, reserved: byte, atyp: byte)
    | AddressType(chosen: byte, reserved: byte, atyp: byte)

  predicate Breaks(hop: Proxy, b: Breach) {
    match b
    case Version4(version, _, tail) => !hop.kind.Socks5? && version != 0 && |tail| == 6
    case Code4(code, tail) => !hop.kind.Socks5? && !(0x5A <= code <= 0x5D) && |tail| == 6
    case MethodVersion(version, _) => hop.kind.Socks5? && version != 5
    case UnofferedLogin => hop.kind.Socks5? && hop.auth.None?
    case UnknownMethod(chosen) => hop.kind.Socks5? && chosen !in {0, 2, 0xFF}
    case LoginVersion(version, _) => hop.kind.Socks5? && CanLogIn(hop.auth) && version != 1
    case ReplyVersion(chosen, version, _, _, _) => hop.kind.Socks5? && MethodFits(hop, chosen) && version != 5
    case AddressType(chosen, _, atyp) => hop.kind.Socks5? && MethodFits(hop, chosen) && atyp !in {1, 3, 4}
  }

  function BreachBytes(b: Breach): bytes {
    match b
    case Version4(version, code, tail) => [version, code] + tail
    case Code4(code, tail) => [0, code] + tail
    case MethodVersion(version, chosen) => [version, chosen]
    case UnofferedLogin => [5, 2]
    case UnknownMethod(chosen) => [5, chosen]
    case LoginVersion(version, status) => [5, 2] + [version, status]
    case ReplyVersion(chosen, version, code, reserved, atyp) => [5, chosen] + (LoginAccepted(chosen) + [version, code, reserved, atyp])
    case AddressType(chosen, reserved, atyp) => [5, chosen] + (LoginAccepted(chosen) + [5, 0, reserved, atyp])
  }

  lemma Breach4Reported(named: bool, host: bytes, port: u16, user: bytes, b: Breach, rest: bytes)
    requires b.Version4? || b.Code4?
    requires |b.tail| == 6 && (named || ParseIpv4(host).Some?)
    requires if b.Version4? then b.version != 0 else !(0x5A <= b.code <= 0x5D)
    ensures var t := Socks4Talk(named, host, port, user, BreachBytes(b) + rest);
            t.result == Err(Protocol) && t.rest == rest
  {
    hide ParseIpv4;
    assert (BreachBytes(b) + rest)[8..] == rest;
  }

  lemma MethodBreachReported(hop: Proxy, host: bytes, port: u16, version: byte, chosen: byte, rest: bytes)
    requires version != 5 || (chosen == 2 && hop.auth.None?) || chosen !in {0, 2, 0xFF}
    ensures var t := Socks5Talk(host, port, hop.auth, [version, chosen] + rest);
            t.rest == rest && t.result == Err(if version == 5 && chosen != 2 then Unsupported else Protocol)
  {
    hide Greeting;
    Split([version, chosen], rest);
  }

  lemma LoginBreachReported(hop: Proxy, host: bytes, port: u16, version: byte, status: byte, rest: bytes)
    requires hop.kind.Socks5? && CanLogIn(hop.auth) && version != 1
    ensures var t := Socks5Talk(host, port, hop.auth, [5, 2] + [version, status] + rest);
            t.result == Err(Protocol) && t.rest == rest
  {
    hide Greeting, UserPassMessage;
    assert [5, 2] + [version, status] + rest == [5, 2] + ([version, status] + rest);
    Split([5, 2], [version, status] + rest);
    Split([version, status], rest);
  }

  lemma ReplyBreachReported(host: bytes, port: u16, version: byte, code: byte, reserved: byte, atyp: byte, rest: bytes)
    requires Fits(host) && (version != 5 || (code == 0 && atyp !in {1, 3, 4}))
    ensures ConnectTalk(host, port, [version, code, reserved, atyp] + rest)
            == Talk(Err(Protocol), ConnectRequest(host, port), rest)
  {
    hide ConnectRequest;
    Split([version, code, reserved, atyp], rest);
  }

  lemma LateBreachReported(hop: Proxy, host: bytes, port: u16, chosen: byte, reply: bytes, rest: bytes)
    requires hop.kind.Socks5? && MethodFits(hop, chosen) && ConnectTalk(host, port, reply + rest).result == Err(Protocol)
    requires ConnectTalk(host, port, reply + rest).rest == rest
    ensures var t := Socks5Talk(host, port, hop.auth, [5, chosen] + (LoginAccepted(chosen) + reply) + rest);
            t.result == Err(Protocol) && t.rest == rest
  {
    hide Socks5Talk, ConnectTalk, LoginAccepted;
    ConnectRefusalReported(hop, host, port, chosen, reply + rest);
    assert [5, chosen] + (LoginAccepted(chosen) + reply) + rest == [5, chosen] + (LoginAccepted(chosen) + (reply + rest));
  }

  /**
   A reply that breaks the protocol is an error of its own kind, whatever follows it, and the client has read it and
   nothing more.
   */
  lemma BreachesAreReported(hop: Proxy, host: bytes, port: u16, b: Breach, rest: bytes)
    requires HostFits(hop.kind, host) && Breaks(hop, b)
    ensures var t := HopTalk(hop, host, port, BreachBytes(b) + rest);
            t.rest == rest && t.result == Err(if b.UnknownMethod? then Unsupported else Protocol)
  {
    hide Socks5Talk, Socks4Talk, ConnectTalk, LoginAccepted, ParseIpv4;
    match b {
      case Version4(_, _, _) => Breach4Reported(hop.kind.Socks4a?, host, port, ExtractUser(hop.auth), b, rest);
      case Code4(_, _) => Breach4Reported(hop.kind.Socks4a?, host, port, ExtractUser(hop.auth), b, rest);
      case MethodVersion(version, chosen) => MethodBreachReported(hop, host, port, version, chosen, rest);
      case UnofferedLogin => MethodBreachReported(hop, host, port, 5, 2, rest);
      case UnknownMethod(chosen) => MethodBreachReported(hop, host, port, 5, chosen, rest);
      case LoginVersion(version, status) => LoginBreachReported(hop, host, port, version, status, rest);
      case ReplyVersion(chosen, version, code, reserved, atyp) =>
        ReplyBreachReported(host, port, version, code, reserved, atyp, rest);
        LateBreachReported(hop, host, port, chosen, [version, code, reserved, atyp], rest);
      case AddressType(chosen, reserved, atyp) =>
        ReplyBreachReported(host, port, 5, 0, reserved, atyp, rest);
        LateBreachReported(hop, host, port, chosen, [5, 0, reserved, atyp], rest);
    }
  }

  // ---- Requests that cannot be made ----

  /** A host the request cannot name is a protocol error, and no request for it goes out. */
  lemma UnfitHostsFail(hop: Proxy, host: bytes, port: u16, chosen: byte, rest: bytes)
    requires !HostFits(hop.kind, host) && MethodFits(hop, chosen)
    ensures var input := if hop.kind.Socks5? then [5, chosen] + (LoginAccepted(chosen) + rest) else rest;
            HopTalk(hop, host, port, input) == Talk(Err(Protocol), HopSent(hop, host, port, chosen), rest)
  {
    if hop.kind.Socks5? {
      hide Greeting, UserPassMessage, LoginAccepted;
      Split([5, chosen], LoginAccepted(chosen) + rest);
      LoginSplits(chosen, rest);
      assert Greeting(hop.auth) + [] == Greeting(hop.auth);
      assert Greeting(hop.auth) + [] + [] == Greeting(hop.auth);
      if chosen == USERNAME_PASSWORD {
        var greet, login := Greeting(hop.auth), UserPassMessage(hop.auth.value);
        assert greet + login + [] == greet + login;
      }
    } else {
      hide ParseIpv4;
    }
  }

  /** A login too long for its length bytes is a protocol error, and nothing of it goes out. */
  lemma UnfitLoginsFail(hop: Proxy, host: bytes, port: u16, rest: bytes)
    requires hop.kind.Socks5? && hop.auth.Some? && !CanLogIn(hop.auth)
    ensures HopTalk(hop, host, port, [5, 2] + rest) == Talk(Err(Protocol), Greeting(hop.auth), rest)
  {
    hide Greeting;
    Split([5, 2], rest);
    assert Greeting(hop.auth) + [] == Greeting(hop.auth);
  }

  lemma ShortReplyFails(host: bytes, port: u16, reserved: byte, bound: Address, boundPort: u16, input: bytes)
    requires Fits(host) && Sized(bound) && input < ReplyBytes(reserved, bound, boundPort)
    ensures ConnectTalk(host, port, input).result == Err(Io) && ConnectTalk(host, port, input).rest == []
  {
    hide ConnectRequest;
    var reply := ReplyBytes(reserved, bound, boundPort);
    if |input| >= 4 {
      assert reply[3] == AddressBytes(bound)[0] && input[3] == reply[3] && input[0] == reply[0] && input[1] == reply[1];
      if |input| >= 5 && bound.Name? {
        assert reply[4] == AddressBytes(bound)[1] && input[4] == reply[4];
      }
    }
  }

  /** A server that stops anywhere inside a granting reply is reported as an I/O error. */
  lemma TruncatedGrantsFail(hop: Proxy, host: bytes, port: u16, g: Grant, input: bytes)
    requires HostFits(hop.kind, host) && Grants(hop, g) && input < GrantBytes(g)
    ensures HopTalk(hop, host, port, input).result == Err(Io) && HopTalk(hop, host, port, input).rest == []
  {
    hide Greeting, UserPassMessage, ConnectTalk, ReplyBytes, ParseIpv4;
    if hop.kind.Socks5? {
      var reply := ReplyBytes(g.reserved, g.bound, g.port);
      GrantSplits(g, []);
      var whole := GrantBytes(g);
      assert whole + [] == whole && reply + [] == reply;
      if |input| >= 2 {
        assert input[0] == whole[0] && input[1] == whole[1] && input[2..] < whole[2..];
        LoginSplits(g.chosen, reply);
        hide GrantBytes, LoginAccepted;
        if g.chosen == USERNAME_PASSWORD {
          if |input| >= 4 {
            assert input[2..][0] == 1 && input[2..][1] == 0 && input[2..][2..] < reply;
            ShortReplyFails(host, port, g.reserved, g.bound, g.port, input[2..][2..]);
          }
        } else {
          ShortReplyFails(host, port, g.reserved, g.bound, g.port, input[2..]);
        }
      }
    }
  }

  // ---- Chains ----

  function GrantsBytes(gs: seq<Grant>): bytes {
    if gs == [] then [] else GrantBytes(gs[0]) + GrantsBytes(gs[1..])
  }

  /** One granting reply for each hop, and every host named to a hop one it can be told. */
  predicate ChainGrants(chain: seq<Proxy>, host: bytes, port: u16, gs: seq<Grant>)
    requires |gs| == |chain|
  {
    chain == []
    || (&& HostFits(chain[0].kind, Target(chain, host, port).0) && Grants(chain[0], gs[0])
        && ChainGrants(chain[1..], host, port, gs[1..]))
  }

  function ChainSent(chain: seq<Proxy>, host: bytes, port: u16, gs: seq<Grant>): bytes
    requires |gs| == |chain|
  {
    if chain == [] then []
    else
      var (h, p) := Target(chain, host, port);
      HopSent(chain[0], h, p, MethodOf(gs[0])) + ChainSent(chain[1..], host, port, gs[1..])
  }

  lemma {:induction false} ChainAccepts(chain: seq<Proxy>, host: bytes, port: u16, gs: seq<Grant>, rest: bytes)
    requires |gs| == |chain| && ChainGrants(chain, host, port, gs)
    ensures ChainTalk(chain, host, port, GrantsBytes(gs) + rest) == Talk(Ok(()), ChainSent(chain, host, port, gs), rest)
    decreases |chain|
  {
    hide HopTalk, GrantBytes, HopSent, Grants, HostFits;
    if chain == [] {
      assert GrantsBytes(gs) + rest == rest;
    } else {
      var (h, p) := Target(chain, host, port);
      var more := GrantsBytes(gs[1..]) + rest;
      HopAccepts(chain[0], h, p, gs[0], more);
      ChainAccepts(chain[1..], host, port, gs[1..], rest);
      assert GrantsBytes(gs) + rest == GrantBytes(gs[0]) + more;
    }
  }

  lemma {:induction false} ChainGrantsFound(chain: seq<Proxy>, host: bytes, port: u16, input: bytes) returns (gs: seq<Grant>)
    requires ChainTalk(chain, host, port, input).result.Ok?
    ensures |gs| == |chain| && ChainGrants(chain, host, port, gs)
    ensures input == GrantsBytes(gs) + ChainTalk(chain, host, port, input).rest
    decreases |chain|
  {
    hide HopTalk, GrantBytes, Grants, HostFits;
    gs := [];
    if chain == [] {
      assert input == [] + input;
    } else {
      var (h, p) := Target(chain, host, port);
      var t := HopTalk(chain[0], h, p, input);
      var g := GrantFound(chain[0], h, p, input);
      var gs' := ChainGrantsFound(chain[1..], host, port, t.rest);
      gs := [g] + gs';
      assert gs[1..] == gs';
    }
  }

  /**
   A chain succeeds exactly when every hop grants and every host fits its hop's request; it then leaves unread
   exactly the bytes after the last reply.
   */
  lemma ChainSucceedsIff(chain: seq<Proxy>, host: bytes, port: u16, input: bytes, rest: bytes)
    ensures (var t := ChainTalk(chain, host, port, input); t.result.Ok? && t.rest == rest) <==>
            exists gs: seq<Grant> ::
              |gs| == |chain| && ChainGrants(chain, host, port, gs) && input == GrantsBytes(gs) + rest
  {
    var t := ChainTalk(chain, host, port, input);
    if t.result.Ok? {
      var gs := ChainGrantsFound(chain, host, port, input);
    }
    hide ChainTalk, ChainGrants, GrantsBytes;
    forall gs: seq<Grant> | |gs| == |chain| && ChainGrants(chain, host, port, gs) && input == GrantsBytes(gs) + rest
      ensures t.result.Ok? && t.rest == rest
    {
      ChainAccepts(chain, host, port, gs, rest);
    }
  }

  // ---- What a server reads ----

  datatype Login = Anonymous | UserId(user: bytes) | Password(user: bytes, pass: bytes)

  datatype Request = Request(host: bytes, port: u16, login: Login)

  /** An address 0.0.0.x with x not zero announces a host name. */
  predicate AnnouncesName(ip: bytes) {
    |ip| == 4 && ip[0] == 0 && ip[1] == 0 && ip[2] == 0 && ip[3] != 0
  }

  /** The bytes up to the first NUL, and those after it. */
  function UpToNul(s: bytes): Option<(bytes, bytes)> {
    match Position(s, [0])
    case None => None
    case Some(p) => Some((s[..p], s[p + 1..]))
  }

  function Heard4(s: bytes): Option<(Request, bytes)> {
    if |s| < 8 || s[0] != 4 || s[1] != 1 then None
    else
      var port, ip := PortIn(s[2..4]), s[4..8];
      match UpToNul(s[8..])
      case None => None
      case Some((user, s1)) =>
        if !AnnouncesName(ip) then Some((Request(DottedQuad(ip), port, UserId(user)), s1))
        else
          match UpToNul(s1)
          case None => None
          case Some((host, s2)) => Some((Request(host, port, UserId(user)), s2))
  }

  function HeardGreeting(chosen: byte, s: bytes): Option<bytes> {
    if |s| < 2 || s[0] != VERSION || |s| < 2 + s[1] as int || chosen !in s[2..2 + s[1] as int] then None
    else Some(s[2 + s[1] as int..])
  }

  function HeardLogin(chosen: byte, s: bytes): Option<(Login, bytes)> {
    if chosen != USERNAME_PASSWORD then Some((Anonymous, s))
    else if |s| < 2 || s[0] != LOGIN_VERSION then None
    else
      var n: int := s[1];
      if |s| < 3 + n then None
      else
        var m: int := s[2 + n];
        if |s| < 3 + n + m then None
        else Some((Password(s[2..2 + n], s[3 + n..3 + n + m]), s[3 + n + m..]))
  }

  function HeardConnect(s: bytes): Option<(bytes, u16, bytes)> {
    if |s| < 5 || s[0] != VERSION || s[1] != CONNECT || s[2] != RESERVED || s[3] != DOMAINNAME then None
    else
      var n: int := s[4];
      if |s| < 7 + n then None else Some((s[5..5 + n], PortIn(s[5 + n..7 + n]), s[7 + n..]))
  }

  function Heard5(chosen: byte, s: bytes): Option<(Request, bytes)> {
    match HeardGreeting(chosen, s)
    case None => None
    case Some(s1) =>
      match HeardLogin(chosen, s1)
      case None => None
      case Some((login, s2)) =>
        match HeardConnect(s2)
        case None => None
        case Some((host, port, s3)) => Some((Request(host, port, login), s3))
  }

  function Heard(kind: ProxyKind, chosen: byte, s: bytes): Option<(Request, bytes)> {
    if kind.Socks5? then Heard5(chosen, s) else Heard4(s)
  }

  /** The user a SOCKS4 server should read: the one of the credentials, or an empty one. */
  function UserOf(hop: Proxy): bytes {
    if hop.auth == None then [] else hop.auth.value.user
  }

  function LoginOf(hop: Proxy, chosen: byte): Login {
    if !hop.kind.Socks5? then UserId(UserOf(hop))
    else if chosen == USERNAME_PASSWORD && hop.auth.Some? then Password(hop.auth.value.user, hop.auth.value.pass)
    else Anonymous
  }

  /** The hop's request can carry the host without being read as something else. */
  predicate Tellable(hop: Proxy, host: bytes) {
    match hop.kind
    case Socks5 => true
    case Socks4 => 0 !in UserOf(hop) && !(ParseIpv4(host).Some? && AnnouncesName(ParseIpv4(host).value))
    case Socks4a => 0 !in UserOf(hop) && 0 !in host
  }

  lemma NulEnds(a: bytes, tail: bytes)
    ensures var r := UpToNul(a + ([0] + tail));
            r.Some? && (r == Some((a, tail)) <==> 0 !in a) && (r.value.0 == a ==> 0 !in a)
  {
    var s := a + ([0] + tail);
    PositionIsFirst(s, [0]);
    assert At(s, [0], |a|) by {
      assert s[|a|..|a| + 1] == [0];
    }
    var p := Position(s, [0]).value;
    assert p <= |a|;
    hide Position;
    assert s[p..p + 1][0] == s[p];
    if p < |a| {
      assert a[p] == 0;
      assert |s[..p]| < |a|;
    } else {
      forall q: nat | q < |a| ensures a[q] != 0 {
        assert !At(s, [0], q);
        assert s[q..q + 1] == [s[q]] && a[q] == s[q];
      }
      assert s[..p] == a && s[p + 1..] == tail;
    }
  }

  lemma Prefix4(port: u16, ip: bytes, tail: bytes)
    requires |ip| == 4
    ensures var s := [4, 1] + U16Be(port) + ip + tail;
            |s| >= 8 && s[0] == 4 && s[1] == 1 && PortIn(s[2..4]) == port && s[4..8] == ip && s[8..] == tail
  {
    var s := [4, 1] + U16Be(port) + ip + tail;
    assert s[2..4] == U16Be(port);
  }

  lemma ShorterAfterNul(s: bytes)
    ensures UpToNul(s).Some? ==> |UpToNul(s).value.1| < |s|
  {
  }

  lemma IpHeard(ip: bytes, port: u16, user: bytes, more: bytes)
    requires |ip| == 4
    ensures Heard4([4, 1] + U16Be(port) + ip + user + [0] + more) == Some((Request(DottedQuad(ip), port, UserId(user)), more))
            <==> 0 !in user && !AnnouncesName(ip)
  {
    hide DottedQuad, UpToNul, U16Be, PortIn;
    Prefix4(port, ip, user + ([0] + more));
    assert [4, 1] + U16Be(port) + ip + user + [0] + more == [4, 1] + U16Be(port) + ip + (user + ([0] + more));
    NulEnds(user, more);
    ShorterAfterNul(more);
  }

  lemma NameHeard(host: bytes, port: u16, user: bytes, more: bytes)
    ensures Heard4([4, 1] + U16Be(port) + [0, 0, 0, 1] + user + [0] + host + [0] + more)
            == Some((Request(host, port, UserId(user)), more))
            <==> 0 !in user && 0 !in host
  {
    hide DottedQuad, UpToNul, U16Be, PortIn;
    var after := host + ([0] + more);
    Prefix4(port, [0, 0, 0, 1], user + ([0] + after));
    assert [4, 1] + U16Be(port) + [0, 0, 0, 1] + user + [0] + host + [0] + more
        == [4, 1] + U16Be(port) + [0, 0, 0, 1] + (user + ([0] + after));
    NulEnds(user, after);
    NulEnds(host, more);
  }

  lemma Hop4Heard(hop: Proxy, host: bytes, port: u16, more: bytes)
    requires !hop.kind.Socks5? && HostFits(hop.kind, host)
    ensures Heard4(HopSent(hop, host, port, 0) + more)
            == Some((Request(host, port, UserId(ExtractUser(hop.auth))), more))
            <==> Tellable(hop, host)
  {
    var user := ExtractUser(hop.auth);
    hide Heard4, ParseIpv4;
    if hop.kind.Socks4? {
      var ip := ParseIpv4(host).value;
      Ipv4Codec(host, ip);
      IpHeard(ip, port, user, more);
    } else {
      NameHeard(host, port, user, more);
    }
  }

  /** The greeting offers no authentication, and a login only where there is one to show. */
  lemma MethodsOffered(auth: Option<Auth>)
    ensures Greeting(auth) == if auth.None? then [5, 1, 0] else [5, 2, 0, 2]
  {
  }

  lemma GreetingHeard(auth: Option<Auth>, chosen: byte, more: bytes)
    requires chosen == NO_AUTHENTICATION || (chosen == USERNAME_PASSWORD && auth.Some?)
    ensures HeardGreeting(chosen, Greeting(auth) + more) == Some(more)
  {
    var s := Greeting(auth) + more;
    var n := |Methods(auth)|;
    assert s[2..2 + n] == Methods(auth) && s[2 + n..] == more;
    assert Methods(auth)[0] == NO_AUTHENTICATION && (auth.Some? ==> Methods(auth)[1] == USERNAME_PASSWORD);
  }

  lemma LoginHeard(auth: Auth, more: bytes)
    requires Fits(auth.user) && Fits(auth.pass)
    ensures HeardLogin(USERNAME_PASSWORD, UserPassMessage(auth) + more) == Some((Password(auth.user, auth.pass), more))
  {
    var s := UserPassMessage(auth) + more;
    var n, m := |auth.user|, |auth.pass|;
    assert s[2..2 + n] == auth.user && s[2 + n] == m;
    assert s[3 + n..3 + n + m] == auth.pass && s[3 + n + m..] == more;
  }

  lemma ConnectHeard(host: bytes, port: u16, more: bytes)
    requires Fits(host)
    ensures HeardConnect(ConnectRequest(host, port) + more) == Some((host, port, more))
  {
    var s := ConnectRequest(host, port) + more;
    var n := |host|;
    assert s[5..5 + n] == host && s[5 + n..7 + n] == U16Be(port) && s[7 + n..] == more;
  }

  lemma Hop5Heard(hop: Proxy, host: bytes, port: u16, chosen: byte, more: bytes)
    requires hop.kind.Socks5? && Fits(host) && MethodFits(hop, chosen)
    ensures Heard5(chosen, HopSent(hop, host, port, chosen) + more) == Some((Request(host, port, LoginOf(hop, chosen)), more))
  {
    hide Greeting, UserPassMessage, ConnectRequest, HeardGreeting, HeardConnect;
    var last := ConnectRequest(host, port) + more;
    ConnectHeard(host, port, more);
    if chosen == USERNAME_PASSWORD {
      var auth := hop.auth.value;
      LoginHeard(auth, last);
      hide HeardLogin;
      GreetingHeard(hop.auth, chosen, UserPassMessage(auth) + last);
      assert HopSent(hop, host, port, chosen) + more == Greeting(hop.auth) + (UserPassMessage(auth) + last);
    } else {
      GreetingHeard(hop.auth, chosen, last);
      assert HopSent(hop, host, port, chosen) + more == Greeting(hop.auth) + last;
    }
  }

  /** The hop's server reads back the host, the port and the login it was asked with, exactly when they can be told. */
  lemma HopIsHeard(hop: Proxy, host: bytes, port: u16, chosen: byte, more: bytes)
    requires HostFits(hop.kind, host) && MethodFits(hop, chosen)
    ensures Heard(hop.kind, chosen, HopSent(hop, host, port, chosen) + more)
            == Some((Request(host, port, LoginOf(hop, chosen)), more))
            <==> Tellable(hop, host)
  {
    if hop.kind.Socks5? {
      Hop5Heard(hop, host, port, chosen, more);
    } else {
      Hop4Heard(hop, host, port, more);
    }
  }

  /** What the servers of a chain read, one after the other, in what the client wrote. */
  function HeardChain(chain: seq<Proxy>, gs: seq<Grant>, s: bytes): Option<(seq<Request>, bytes)>
    requires |gs| == |chain|
  {
    if chain == [] then Some(([], s))
    else
      match Heard(chain[0].kind, MethodOf(gs[0]), s)
      case None => None
      case Some((request, s1)) =>
        match HeardChain(chain[1..], gs[1..], s1)
        case None => None
        case Some((requests, s2)) => Some(([request] + requests, s2))
  }

  /** Each hop is asked for the address of the next one, the last for the final destination. */
  function Requests(chain: seq<Proxy>, host: bytes, port: u16, gs: seq<Grant>): seq<Request>
    requires |gs| == |chain|
  {
    if chain == [] then []
    else
      var (h, p) := Target(chain, host, port);
      [Request(h, p, LoginOf(chain[0], MethodOf(gs[0])))] + Requests(chain[1..], host, port, gs[1..])
  }

  /** Hop by hop: the address after the last one is the final destination. */
  lemma {:induction false} RequestsByHop(chain: seq<Proxy>, host: bytes, port: u16, gs: seq<Grant>, i: nat)
    requires |gs| == |chain| && i < |chain|
    ensures |Requests(chain, host, port, gs)| == |chain|
    ensures Requests(chain, host, port, gs)[i] ==
            Request(if i + 1 < |chain| then chain[i + 1].host else host,
                    if i + 1 < |chain| then chain[i + 1].port else port,
                    LoginOf(chain[i], MethodOf(gs[i])))
    decreases |chain|
  {
    hide LoginOf, MethodOf;
    if |chain| > 1 {
      RequestsByHop(chain[1..], host, port, gs[1..], if i > 0 then i - 1 else 0);
    } else {
      assert chain[1..] == [] && Requests([], host, port, gs[1..]) == [];
    }
  }

  predicate ChainTellable(chain: seq<Proxy>, host: bytes, port: u16) {
    chain == [] || (Tellable(chain[0], Target(chain, host, port).0) && ChainTellable(chain[1..], host, port))
  }

  lemma GrantFitsMethod(hop: Proxy, g: Grant)
    requires Grants(hop, g)
    ensures MethodFits(hop, MethodOf(g))
  {
  }

  lemma SentStartsWithVersion(hop: Proxy, host: bytes, port: u16, chosen: byte)
    requires HostFits(hop.kind, host)
    ensures HopSent(hop, host, port, chosen) != []
    ensures HopSent(hop, host, port, chosen)[0] == 4 || HopSent(hop, host, port, chosen)[0] == 5
  {
    hide ParseIpv4, UserPassMessage, ConnectRequest, Methods;
  }

  lemma AnnouncingQuad(ip: bytes)
    requires AnnouncesName(ip)
    ensures DottedQuad(ip) != [] && DottedQuad(ip)[0] == 48
  {
    assert Decimal(0) == [48];
  }

  lemma NameInFront(s: bytes)
    ensures UpToNul(s).Some? && UpToNul(s).value.0 != [] ==> s != [] && s[0] == UpToNul(s).value.0[0]
  {
    hide Position;
  }

  lemma AnnouncedIpHeard(ip: bytes, port: u16, user: bytes, later: bytes, rest: bytes)
    requires AnnouncesName(ip)
    requires Heard4([4, 1] + U16Be(port) + ip + user + [0] + later) == Some((Request(DottedQuad(ip), port, UserId(user)), rest))
    ensures later != [] && later[0] == 48
  {
    AnnouncingQuad(ip);
    hide DottedQuad, UpToNul, U16Be, PortIn;
    Prefix4(port, ip, user + ([0] + later));
    assert [4, 1] + U16Be(port) + ip + user + [0] + later == [4, 1] + U16Be(port) + ip + (user + ([0] + later));
    NulEnds(user, later);
    assert UpToNul(later).Some? && UpToNul(later).value.0 == DottedQuad(ip);
    NameInFront(later);
  }

  lemma NameHeardRight(host: bytes, port: u16, user: bytes, later: bytes, rest: bytes)
    requires Heard4([4, 1] + U16Be(port) + [0, 0, 0, 1] + user + [0] + host + [0] + later)
             == Some((Request(host, port, UserId(user)), rest))
    ensures 0 !in user && 0 !in host
  {
    hide DottedQuad, UpToNul, U16Be, PortIn;
    var after := host + ([0] + later);
    Prefix4(port, [0, 0, 0, 1], user + ([0] + after));
    assert [4, 1] + U16Be(port) + [0, 0, 0, 1] + user + [0] + host + [0] + later
        == [4, 1] + U16Be(port) + [0, 0, 0, 1] + (user + ([0] + after));
    NulEnds(user, after);
    NulEnds(host, later);
  }

  lemma UserHeardRight(ip: bytes, port: u16, user: bytes, later: bytes, r: Request, rest: bytes)
    requires |ip| == 4 && r.login == UserId(user)
    requires Heard4([4, 1] + U16Be(port) + ip + user + [0] + later) == Some((r, rest))
    ensures 0 !in user
  {
    hide DottedQuad, UpToNul, U16Be, PortIn;
    Prefix4(port, ip, user + ([0] + later));
    assert [4, 1] + U16Be(port) + ip + user + [0] + later == [4, 1] + U16Be(port) + ip + (user + ([0] + later));
    NulEnds(user, later);
  }

  /**
   The one way to be heard right without being tellable: an announcing address, as its own dotted quad found in what
   follows the request. No SOCKS request starts like that.
   */
  lemma HeardByChance(hop: Proxy, host: bytes, port: u16, chosen: byte, later: bytes, rest: bytes)
    requires HostFits(hop.kind, host) && MethodFits(hop, chosen) && !Tellable(hop, host)
    requires Heard(hop.kind, chosen, HopSent(hop, host, port, chosen) + later)
             == Some((Request(host, port, LoginOf(hop, chosen)), rest))
    ensures later != [] && later[0] == 48
  {
    hide ParseIpv4, Heard4, DottedQuad, AnnouncesName;
    var user := ExtractUser(hop.auth);
    if hop.kind.Socks4? {
      var ip := ParseIpv4(host).value;
      Ipv4Codec(host, ip);
      UserHeardRight(ip, port, user, later, Request(host, port, UserId(user)), rest);
      AnnouncedIpHeard(ip, port, user, later, rest);
    } else {
      NameHeardRight(host, port, user, later, rest);
    }
  }

  lemma ConsParts<T>(a: T, x: seq<T>, b: T, y: seq<T>)
    ensures [a] + x == [b] + y <==> a == b && x == y
  {
    if [a] + x == [b] + y {
      assert ([a] + x)[0] == a && ([b] + y)[0] == b;
      assert ([a] + x)[1..] == x && ([b] + y)[1..] == y;
    }
  }

  lemma UntellableIsMisheard(chain: seq<Proxy>, host: bytes, port: u16, gs: seq<Grant>, more: bytes)
    requires |gs| == |chain| && chain != [] && ChainGrants(chain, host, port, gs)
    requires !Tellable(chain[0], Target(chain, host, port).0)
    ensures HeardChain(chain, gs, ChainSent(chain, host, port, gs) + more) != Some((Requests(chain, host, port, gs), more))
  {
    hide Tellable, Grants, HostFits, MethodFits, Heard, HopSent, LoginOf, MethodOf;
    var (h, p) := Target(chain, host, port);
    var hop, chosen := chain[0], MethodOf(gs[0]);
    var later := ChainSent(chain[1..], host, port, gs[1..]) + more;
    GrantFitsMethod(hop, gs[0]);
    HopIsHeard(hop, h, p, chosen, later);
    assert ChainSent(chain, host, port, gs) + more == HopSent(hop, h, p, chosen) + later;
    var heard := Heard(hop.kind, chosen, HopSent(hop, h, p, chosen) + later);
    if |chain| == 1 {
      assert chain[1..] == [] && later == more;
    } else {
      var (h2, p2) := Target(chain[1..], host, port);
      SentStartsWithVersion(chain[1], h2, p2, MethodOf(gs[1]));
    }
    if heard.Some? {
      var rest := HeardChain(chain[1..], gs[1..], heard.value.1);
      if rest.Some? {
        ConsParts(heard.value.0, rest.value.0,
                  Request(h, p, LoginOf(hop, chosen)), Requests(chain[1..], host, port, gs[1..]));
      }
    }
    if heard.Some? && heard.value.0 == Request(h, p, LoginOf(hop, chosen)) {
      HeardByChance(hop, h, p, chosen, later, heard.value.1);
    }
  }

  /**
   The hops' servers, in order, read exactly the addresses the chain prescribes and leave exactly what was written
   after the chain, if and only if every hop can tell its server the next address.
   */
  lemma {:induction false} ChainIsHeard(chain: seq<Proxy>, host: bytes, port: u16, gs: seq<Grant>, more: bytes)
    requires |gs| == |chain| && ChainGrants(chain, host, port, gs)
    ensures HeardChain(chain, gs, ChainSent(chain, host, port, gs) + more) == Some((Requests(chain, host, port, gs), more))
            <==> ChainTellable(chain, host, port)
    decreases |chain|
  {
    hide Tellable, Grants, HostFits, MethodFits, Heard, HopSent, LoginOf, MethodOf;
    if chain == [] {
      assert ChainSent(chain, host, port, gs) + more == more;
    } else {
      var (h, p) := Target(chain, host, port);
      var hop, chosen := chain[0], MethodOf(gs[0]);
      var later := ChainSent(chain[1..], host, port, gs[1..]) + more;
      GrantFitsMethod(hop, gs[0]);
      HopIsHeard(hop, h, p, chosen, later);
      ChainIsHeard(chain[1..], host, port, gs[1..], more);
      assert ChainSent(chain, host, port, gs) + more == HopSent(hop, h, p, chosen) + later;
      if Tellable(hop, h) {
        var rest := HeardChain(chain[1..], gs[1..], later);
        if rest.Some? {
          ConsParts(Request(h, p, LoginOf(hop, chosen)), rest.value.0,
                    Request(h, p, LoginOf(hop, chosen)), Requests(chain[1..], host, port, gs[1..]));
        }
      } else {
        UntellableIsMisheard(chain, host, port, gs, more);
      }
    }
  }
}
