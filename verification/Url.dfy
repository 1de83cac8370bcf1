/** URL parsing and redirect targets from `drift-core/src/handle.rs`. */
module Url {
  import opened Bytes
  import opened Text

  const SLASH: byte := 47
  const COLON: byte := 58
  const SEPARATOR: bytes := [COLON, SLASH, SLASH]

  datatype Scheme = Http | Https

  datatype ParsedUrl = ParsedUrl(scheme: Scheme, host: bytes, port: u16, path: bytes)

  datatype UrlError = MissingScheme | UnsupportedScheme | BadPort | EmptyHost

  /** The first and the last occurrence of a byte. */
  function Find(s: bytes, b: byte): (r: Option<nat>)
    ensures r.Some? ==> r.value < |s| && s[r.value] == b
  {
    if s == [] then None
    else if s[0] == b then Some(0)
    else match Find(s[1..], b) case None => None case Some(p) => Some(p + 1)
  }

  function FindLast(s: bytes, b: byte): (r: Option<nat>)
    ensures r.Some? ==> r.value < |s| && s[r.value] == b
  {
    if s == [] then None
    else if s[|s| - 1] == b then Some(|s| - 1)
    else FindLast(s[..|s| - 1], b)
  }

  function SchemeOf(s: bytes): Option<Scheme> {
    if s == Ascii("http") then Some(Http) else if s == Ascii("https") then Some(Https) else None
  }

  function SchemeText(scheme: Scheme): bytes {
    if scheme.Http? then Ascii("http") else Ascii("https")
  }

  function DefaultPort(scheme: Scheme): u16 {
    if scheme.Http? then 80 else 443
  }

  /** The authority, and the path or "/" when there is none. */
  function SplitPath(rest: bytes): (bytes, bytes) {
    match Find(rest, SLASH)
    case Some(i) => (rest[..i], rest[i..])
    case None => (rest, [SLASH])
  }

  function HostAndPort(scheme: Scheme, authority: bytes): Result<(bytes, u16), UrlError> {
    match FindLast(authority, COLON)
    case None => Ok((authority, DefaultPort(scheme)))
    case Some(i) =>
      match ParseUnsigned(authority[i + 1..], 10, 0x1_0000)
      case None => Err(BadPort)
      case Some(port) => Ok((authority[..i], port))
  }

  /** What the three parts of a URL amount to. */
  function Assembled(scheme: Scheme, authority: bytes, path: bytes): Result<ParsedUrl, UrlError> {
    match HostAndPort(scheme, authority)
    case Err(e) => Err(e)
    case Ok((host, port)) => if host == [] then Err(EmptyHost) else Ok(ParsedUrl(scheme, host, port, path))
  }

  function ParseUrl(s: bytes): Result<ParsedUrl, UrlError> {
    match Position(s, SEPARATOR)
    case None => Err(MissingScheme)
    case Some(p) =>
      match SchemeOf(s[..p])
      case None => Err(UnsupportedScheme)
      case Some(scheme) =>
        var (authority, path) := SplitPath(s[p + 3..]);
        Assembled(scheme, authority, path)
  }

  // ---- Redirect targets ----

  predicate IsRedirectStatus(status: nat) {
    status == 301 || status == 302 || status == 303 || status == 307 || status == 308
  }

  /** The pieces between slashes. */
  function Segments(s: bytes): seq<bytes> {
    match Find(s, SLASH)
    case None => [s]
    case Some(i) => [s[..i]] + Segments(s[i + 1..])
  }

  function JoinedBySlash(parts: seq<bytes>): bytes {
    if parts == [] then [] else if |parts| == 1 then parts[0] else parts[0] + [SLASH] + JoinedBySlash(parts[1..])
  }

  function Take(parts: seq<bytes>, n: nat): seq<bytes> {
    if |parts| <= n then parts else parts[..n]
  }

  predicate StartsWith(s: bytes, front: bytes) {
    front <= s
  }

  function ResolveUrl(base: bytes, location: bytes): bytes {
    if StartsWith(location, Ascii("http://")) || StartsWith(location, Ascii("https://")) then location
    else if StartsWith(location, [SLASH]) then JoinedBySlash(Take(Segments(base), 3)) + location
    else
      match FindLast(base, SLASH)
      case Some(i) => (if i > 8 then base[..i + 1] else base) + location
      case None => base + location
  }

  // ---- What a path-only location keeps ----

  lemma {:induction false} FindFirst(s: bytes, tail: bytes, b: byte)
    requires b !in s
    ensures Find(s, b) == None && Find(s + ([b] + tail), b) == Some(|s|)
  {
    if s == [] {
      assert s + ([b] + tail) == [b] + tail;
    } else {
      assert (s + ([b] + tail))[1..] == s[1..] + ([b] + tail);
      FindFirst(s[1..], tail, b);
    }
  }

  lemma {:induction false} FindSplits(s: bytes, b: byte)
    ensures match Find(s, b)
            case None => b !in s
            case Some(i) => b !in s[..i]
  {
    if s != [] && s[0] != b {
      FindSplits(s[1..], b);
      if Find(s, b).Some? {
        var i := Find(s, b).value;
        assert s[..i] == [s[0]] + s[1..][..i - 1];
      }
    }
  }

  lemma SegmentsCons(part: bytes, tail: bytes)
    requires SLASH !in part
    ensures Segments(part) == [part] && Segments(part + ([SLASH] + tail)) == [part] + Segments(tail)
  {
    FindFirst(part, tail, SLASH);
    var s := part + ([SLASH] + tail);
    assert s[..|part|] == part && s[|part| + 1..] == tail;
  }

  /** A URL as written; the path is empty or starts with a slash. */
  function Written(scheme: Scheme, authority: bytes, path: bytes): bytes {
    SchemeText(scheme) + SEPARATOR + (authority + path)
  }

  predicate IsPath(path: bytes) {
    path == [] || path[0] == SLASH
  }

  function PathOrRoot(path: bytes): bytes {
    if path == [] then [SLASH] else path
  }

  lemma PathSplits(rest: bytes) returns (authority: bytes, path: bytes)
    ensures SLASH !in authority && IsPath(path) && rest == authority + path
    ensures SplitPath(rest) == (authority, PathOrRoot(path))
  {
    FindSplits(rest, SLASH);
    authority := SplitPath(rest).0;
    path := if Find(rest, SLASH).Some? then SplitPath(rest).1 else [];
    hide Find;
    assert rest == authority + path;
  }

  lemma PathJoins(authority: bytes, path: bytes)
    requires SLASH !in authority && IsPath(path)
    ensures SplitPath(authority + path) == (authority, PathOrRoot(path))
  {
    var rest := authority + path;
    if path == [] {
      FindFirst(authority, [], SLASH);
      assert rest == authority;
    } else {
      FindFirst(authority, path[1..], SLASH);
      hide Find;
      assert [SLASH] + path[1..] == path;
      assert rest[..|authority|] == authority && rest[|authority|..] == path;
    }
  }

  lemma SchemeSplits(s: bytes, p: nat, scheme: Scheme)
    requires Position(s, SEPARATOR) == Some(p) && SchemeOf(s[..p]) == Some(scheme)
    ensures s == SchemeText(scheme) + SEPARATOR + s[p + 3..]
  {
    PositionIsFirst(s, SEPARATOR);
    hide Position;
    assert s == s[..p] + s[p..p + 3] + s[p + 3..];
  }

  lemma UrlShape(s: bytes) returns (scheme: Scheme, authority: bytes, path: bytes)
    requires ParseUrl(s).Ok?
    ensures SLASH !in authority && IsPath(path) && s == Written(scheme, authority, path)
    ensures ParseUrl(s) == Assembled(scheme, authority, PathOrRoot(path))
  {
    hide Position, SchemeOf, SchemeText, Assembled, SplitPath, PathOrRoot;
    var p := Position(s, SEPARATOR).value;
    scheme := SchemeOf(s[..p]).value;
    SchemeSplits(s, p, scheme);
    authority, path := PathSplits(s[p + 3..]);
  }

  lemma SchemeIsPlain(scheme: Scheme)
    ensures SLASH !in SchemeText(scheme) && COLON !in SchemeText(scheme) && SchemeOf(SchemeText(scheme)) == Some(scheme)
  {
    assert Ascii("http") == [104, 116, 116, 112] && Ascii("https") == [104, 116, 116, 112, 115];
    hide Ascii;
  }

  lemma SeparatorFound(text: bytes, rest: bytes)
    requires COLON !in text
    ensures Position(text + SEPARATOR + rest, SEPARATOR) == Some(|text|)
  {
    hide Position;
    var s, n := text + SEPARATOR + rest, |text|;
    assert s[n..n + 3] == SEPARATOR;
    forall q: nat | q < n ensures !At(s, SEPARATOR, q) {
      assert s[q] == text[q] && text[q] in text;
      assert q + 3 <= |s| ==> s[q..q + 3][0] == s[q];
    }
    PositionUnique(s, SEPARATOR, n);
  }

  lemma AfterSeparator(text: bytes, rest: bytes)
    ensures var s := text + SEPARATOR + rest; s[..|text|] == text && s[|text| + 3..] == rest
  {
  }

  /** Parsing finds the parts a URL was written from. */
  lemma UrlParses(scheme: Scheme, authority: bytes, path: bytes)
    requires SLASH !in authority && IsPath(path)
    ensures ParseUrl(Written(scheme, authority, path)) == Assembled(scheme, authority, PathOrRoot(path))
  {
    hide Assembled, Position, SplitPath, SchemeText, SchemeOf, PathOrRoot;
    SchemeIsPlain(scheme);
    SeparatorFound(SchemeText(scheme), authority + path);
    AfterSeparator(SchemeText(scheme), authority + path);
    PathJoins(authority, path);
  }

  lemma ThreeJoined(a: bytes, b: bytes)
    ensures JoinedBySlash([a, [], b]) == a + ([SLASH] + ([] + ([SLASH] + b)))
  {
    assert [a, [], b][1..] == [[], b] && [[], b][1..] == [b];
    assert JoinedBySlash([[], b]) == [] + [SLASH] + JoinedBySlash([b]);
    assert a + [SLASH] + ([] + [SLASH] + b) == a + ([SLASH] + ([] + ([SLASH] + b)));
  }

  lemma AuthoritySegments(authority: bytes, path: bytes)
    requires SLASH !in authority && IsPath(path)
    ensures Segments(authority + path) == [authority] + if path == [] then [] else Segments(path[1..])
  {
    if path == [] {
      SegmentsCons(authority, []);
      assert authority + path == authority;
    } else {
      SegmentsCons(authority, path[1..]);
      assert path == [SLASH] + path[1..];
    }
  }

  lemma RegroupSlashes(text: bytes, rest: bytes)
    ensures text + SEPARATOR + rest == text + [COLON] + ([SLASH] + ([] + ([SLASH] + rest)))
  {
    assert [] + ([SLASH] + rest) == [SLASH] + rest;
    assert [SLASH] + ([SLASH] + rest) == [SLASH, SLASH] + rest;
    assert SEPARATOR == [COLON] + [SLASH, SLASH];
  }

  lemma SchemeAndColon(scheme: Scheme, rest: bytes)
    ensures var front := SchemeText(scheme) + [COLON];
            && SLASH !in front
            && SchemeText(scheme) + SEPARATOR + rest == front + ([SLASH] + ([] + ([SLASH] + rest)))
  {
    hide SchemeText;
    SchemeIsPlain(scheme);
    RegroupSlashes(SchemeText(scheme), rest);
  }

  lemma TwoSlashes(front: bytes, rest: bytes)
    requires SLASH !in front
    ensures Segments(front + ([SLASH] + ([] + ([SLASH] + rest)))) == [front] + ([[]] + Segments(rest))
  {
    hide Segments;
    SegmentsCons(front, [] + ([SLASH] + rest));
    SegmentsCons([], rest);
  }

  lemma FirstThree(a: bytes, b: bytes, more: seq<bytes>)
    ensures Take([a] + ([[]] + ([b] + more)), 3) == [a, [], b]
  {
  }

  /** The first three segments of a URL are all of it but the path. */
  lemma OriginSegments(scheme: Scheme, authority: bytes, path: bytes)
    requires SLASH !in authority && IsPath(path)
    ensures JoinedBySlash(Take(Segments(Written(scheme, authority, path)), 3)) == Written(scheme, authority, [])
  {
    hide Segments, JoinedBySlash, SchemeText, Take;
    var front := SchemeText(scheme) + [COLON];
    SchemeAndColon(scheme, authority + path);
    SchemeAndColon(scheme, authority + []);
    TwoSlashes(front, authority + path);
    AuthoritySegments(authority, path);
    FirstThree(front, authority, if path == [] then [] else Segments(path[1..]));
    ThreeJoined(front, authority);
    assert authority + [] == authority;
  }

  /** A location that is only a path keeps the scheme, the host and the port, and becomes the path. */
  lemma ResolvedPathKeepsOrigin(base: bytes, location: bytes)
    requires ParseUrl(base).Ok? && location != [] && location[0] == SLASH
    ensures ParseUrl(ResolveUrl(base, location)) == Ok(ParseUrl(base).value.(path := location))
  {
    hide ParseUrl, Segments, JoinedBySlash, SchemeText;
    var scheme, authority, path := UrlShape(base);
    OriginSegments(scheme, authority, path);
    UrlParses(scheme, authority, location);
    hide HostAndPort;
    assert Ascii("http://")[0] != SLASH && Ascii("https://")[0] != SLASH;
    assert [SLASH] <= location;
    assert Written(scheme, authority, location) == Written(scheme, authority, []) + location;
  }

  // ---- Host and port ----

  lemma {:induction false} FindLastColon(host: bytes, digits: bytes)
    requires COLON !in digits
    ensures FindLast(host + [COLON] + digits, COLON) == Some(|host|)
  {
    var s := host + [COLON] + digits;
    if digits != [] {
      var front := digits[..|digits| - 1];
      assert digits[|digits| - 1] in digits;
      FindLastColon(host, front);
      assert s[..|s| - 1] == host + [COLON] + front;
    }
  }

  lemma HostAndPortRead(scheme: Scheme, host: bytes, port: u16)
    ensures HostAndPort(scheme, host + [COLON] + Decimal(port)) == Ok((host, port))
  {
    hide Decimal, FindLast, ParseUnsigned;
    var digits := Decimal(port);
    DecimalParses(port);
    DecimalReads(port, 0x1_0000);
    FindLastColon(host, digits);
    var authority := host + [COLON] + digits;
    assert authority[..|host|] == host && authority[|host| + 1..] == digits;
  }

  /** A URL written with its port in decimal parses back to its parts, whatever host it names. */
  lemma UrlRoundTrip(url: ParsedUrl)
    requires url.host != [] && SLASH !in url.host && url.path != [] && url.path[0] == SLASH
    ensures ParseUrl(Written(url.scheme, url.host + [COLON] + Decimal(url.port), url.path)) == Ok(url)
  {
    hide Decimal, DigitsValue, HostAndPort, Written, ParseUrl;
    DecimalParses(url.port);
    HostAndPortRead(url.scheme, url.host, url.port);
    UrlParses(url.scheme, url.host + [COLON] + Decimal(url.port), url.path);
  }

  // ---- Which URLs parse, and to what ----

  /** `authority` names a host and a port: written after the last colon, or 80 and 443 where there is none. */
  ghost predicate Names(scheme: Scheme, authority: bytes, host: bytes, port: u16) {
    || (COLON !in authority && host == authority && port == if scheme.Http? then 80 else 443)
    || exists digits ::
         && authority == host + Ascii(":") + digits && COLON !in digits
         && ParseUnsigned(digits, 10, 65536) == Some(port)
  }

  lemma {:induction false} FindLastSplits(s: bytes, b: byte)
    ensures match FindLast(s, b)
            case None => b !in s
            case Some(i) => b !in s[i + 1..]
  {
    if s != [] && s[|s| - 1] != b {
      var front := s[..|s| - 1];
      FindLastSplits(front, b);
      assert s == front + [s[|s| - 1]];
      if FindLast(s, b).Some? {
        var i := FindLast(s, b).value;
        assert s[i + 1..] == front[i + 1..] + [s[|s| - 1]];
      }
    }
  }

  lemma HostAndPortIff(scheme: Scheme, authority: bytes, host: bytes, port: u16)
    ensures HostAndPort(scheme, authority) == Ok((host, port)) <==> Names(scheme, authority, host, port)
  {
    hide FindLast, ParseUnsigned;
    assert Ascii(":") == [COLON];
    FindLastSplits(authority, COLON);
    if HostAndPort(scheme, authority) == Ok((host, port)) && COLON in authority {
      var i := FindLast(authority, COLON).value;
      assert authority == host + [COLON] + authority[i + 1..];
    }
    forall digits | authority == host + [COLON] + digits && COLON !in digits && ParseUnsigned(digits, 10, 65536) == Some(port)
      ensures HostAndPort(scheme, authority) == Ok((host, port))
    {
      FindLastColon(host, digits);
      assert authority[..|host|] == host && authority[|host| + 1..] == digits;
    }
  }

  /** `s` is the URL of the given scheme, authority and path, the path possibly left out. */
  predicate IsUrlOf(s: bytes, scheme: Scheme, authority: bytes, path: bytes) {
    && s == (if scheme.Http? then Ascii("http://") else Ascii("https://")) + authority + path
    && SLASH !in authority && (path == [] || path[0] == SLASH)
  }

  lemma IsUrlOfIff(s: bytes, scheme: Scheme, authority: bytes, path: bytes)
    ensures IsUrlOf(s, scheme, authority, path) <==>
            s == Written(scheme, authority, path) && SLASH !in authority && IsPath(path)
  {
    assert Ascii("http://") == Ascii("http") + SEPARATOR && Ascii("https://") == Ascii("https") + SEPARATOR;
    hide Ascii;
    var front := SchemeText(scheme) + SEPARATOR;
    assert front + (authority + path) == front + authority + path;
  }

  /** A URL parses exactly as its scheme, the host and port its authority names, and its path, "/" if it has none. */
  lemma UrlIff(s: bytes, u: ParsedUrl)
    ensures ParseUrl(s) == Ok(u) <==>
            && u.host != []
            && exists authority, path ::
                 && IsUrlOf(s, u.scheme, authority, path) && Names(u.scheme, authority, u.host, u.port)
                 && u.path == if path == [] then Ascii("/") else path
  {
    hide ParseUrl, HostAndPort, Written, Names, IsUrlOf;
    assert Ascii("/") == [SLASH];
    if ParseUrl(s) == Ok(u) {
      var scheme, authority, path := UrlShape(s);
      IsUrlOfIff(s, scheme, authority, path);
      HostAndPortIff(scheme, authority, u.host, u.port);
    }
    forall authority, path | IsUrlOf(s, u.scheme, authority, path) && Names(u.scheme, authority, u.host, u.port)
      ensures u.host != [] && u.path == PathOrRoot(path) ==> ParseUrl(s) == Ok(u)
    {
      IsUrlOfIff(s, u.scheme, authority, path);
      UrlParses(u.scheme, authority, path);
      HostAndPortIff(u.scheme, authority, u.host, u.port);
    }
  }

  /** The first "://" of `s` is at `p`. */
  ghost predicate FirstSeparator(s: bytes, p: nat) {
    At(s, Ascii("://"), p) && forall q: nat | q < p :: !At(s, Ascii("://"), q)
  }

  /** A URL is refused for its scheme when it has none, or one that is neither "http" nor "https". */
  lemma SchemeRejections(s: bytes)
    ensures ParseUrl(s) == Err(MissingScheme) <==> forall p: nat :: !At(s, Ascii("://"), p)
    ensures ParseUrl(s) == Err(UnsupportedScheme) <==>
            exists p: nat :: FirstSeparator(s, p) && s[..p] != Ascii("http") && s[..p] != Ascii("https")
  {
    assert Ascii("://") == SEPARATOR;
    PositionIsFirst(s, SEPARATOR);
    hide Position, Assembled, SplitPath, Ascii, At;
    if Position(s, SEPARATOR).Some? {
      assert FirstSeparator(s, Position(s, SEPARATOR).value);
    }
    forall p: nat | FirstSeparator(s, p)
      ensures Position(s, SEPARATOR) == Some(p)
    {
      PositionUnique(s, SEPARATOR, p);
    }
  }

  /** `authority` ends in a colon and something that is no port. */
  ghost predicate NamesNoPort(authority: bytes) {
    exists host, digits ::
      && authority == host + Ascii(":") + digits && COLON !in digits
      && forall port: u16 :: ParseUnsigned(digits, 10, 65536) != Some(port)
  }

  lemma BadPortFound(scheme: Scheme, authority: bytes) returns (host: bytes, digits: bytes)
    requires HostAndPort(scheme, authority).Err?
    ensures authority == host + [COLON] + digits && COLON !in digits
    ensures forall port: u16 :: ParseUnsigned(digits, 10, 65536) != Some(port)
    ensures HostAndPort(scheme, authority) == Err(BadPort)
  {
    hide FindLast, ParseUnsigned;
    FindLastSplits(authority, COLON);
    var i := FindLast(authority, COLON).value;
    host, digits := authority[..i], authority[i + 1..];
    assert authority == authority[..i] + [COLON] + authority[i + 1..];
  }

  lemma PortBelowLimit(digits: bytes)
    ensures ParseUnsigned(digits, 10, 65536).Some? ==> ParseUnsigned(digits, 10, 65536).value < 65536
  {
    hide DigitsValue;
  }

  lemma BadPortKept(scheme: Scheme, authority: bytes, host: bytes, digits: bytes)
    requires authority == host + [COLON] + digits && COLON !in digits
    requires forall port: u16 :: ParseUnsigned(digits, 10, 65536) != Some(port)
    ensures HostAndPort(scheme, authority) == Err(BadPort)
  {
    hide FindLast, ParseUnsigned;
    FindLastColon(host, digits);
    PortBelowLimit(digits);
    assert authority[..|host|] == host && authority[|host| + 1..] == digits;
  }

  lemma ColonByte()
    ensures Ascii(":") == [COLON]
  {
  }

  lemma NoPortIff(scheme: Scheme, authority: bytes)
    ensures HostAndPort(scheme, authority) == Err(BadPort) <==> NamesNoPort(authority)
    ensures HostAndPort(scheme, authority).Err? ==> HostAndPort(scheme, authority).error == BadPort
  {
    hide HostAndPort, ParseUnsigned, Ascii;
    ColonByte();
    if HostAndPort(scheme, authority).Err? {
      var host, digits := BadPortFound(scheme, authority);
    }
    forall host, digits
      | && authority == host + [COLON] + digits && COLON !in digits
        && forall port: u16 :: ParseUnsigned(digits, 10, 65536) != Some(port)
      ensures HostAndPort(scheme, authority) == Err(BadPort)
    {
      BadPortKept(scheme, authority, host, digits);
    }
  }

  /** A URL with a known scheme is refused for its port or its host, exactly when its authority says so. */
  lemma AuthorityRejections(s: bytes, scheme: Scheme, authority: bytes, path: bytes)
    requires IsUrlOf(s, scheme, authority, path)
    ensures ParseUrl(s) == Err(BadPort) <==> NamesNoPort(authority)
    ensures ParseUrl(s) == Err(EmptyHost) <==> exists port: u16 :: Names(scheme, authority, [], port)
  {
    hide ParseUrl, HostAndPort, Written, Names, IsUrlOf, NamesNoPort;
    IsUrlOfIff(s, scheme, authority, path);
    UrlParses(scheme, authority, path);
    NoPortIff(scheme, authority);
    forall port: u16
      ensures HostAndPort(scheme, authority) == Ok(([], port)) <==> Names(scheme, authority, [], port)
    {
      HostAndPortIff(scheme, authority, [], port);
    }
    if HostAndPort(scheme, authority).Ok? && HostAndPort(scheme, authority).value.0 == [] {
      assert Names(scheme, authority, [], HostAndPort(scheme, authority).value.1);
    }
  }

  // ---- Other locations ----

  /** A location that is a URL of its own, or begins like one, is the target, wherever it was found. */
  lemma AbsoluteLocations(base: bytes, location: bytes)
    requires ParseUrl(location).Ok? || Ascii("http://") <= location || Ascii("https://") <= location
    ensures ResolveUrl(base, location) == location
  {
    hide ParseUrl, Written;
    if ParseUrl(location).Ok? {
      var scheme, authority, path := UrlShape(location);
      IsUrlOfIff(location, scheme, authority, path);
      hide Ascii;
      if scheme.Http? {
        assert Ascii("http://") <= location;
      } else {
        assert Ascii("https://") <= location;
      }
    }
  }

  /** A location that is neither a URL nor a path from the root. */
  predicate IsRelative(location: bytes) {
    && location != [] && location[0] != SLASH
    && !(Ascii("http://") <= location) && !(Ascii("https://") <= location)
  }

  /** A path up to its last slash. */
  function Directory(path: bytes): bytes {
    match FindLast(path, SLASH)
    case None => []
    case Some(i) => path[..i + 1]
  }

  lemma {:induction false} FindLastAfter(front: bytes, s: bytes, b: byte)
    ensures FindLast(front + s, b) ==
            match FindLast(s, b)
            case Some(i) => Some(|front| + i)
            case None => FindLast(front, b)
    decreases |s|
  {
    if s == [] {
      assert front + s == front;
    } else {
      FindLastAfter(front, s[..|s| - 1], b);
      assert (front + s)[..|front + s| - 1] == front + s[..|s| - 1];
    }
  }

  lemma SchemeLength(scheme: Scheme)
    ensures |SchemeText(scheme) + SEPARATOR| == if scheme.Http? then 7 else 8
    ensures FindLast(SchemeText(scheme) + SEPARATOR, SLASH) == Some(|SchemeText(scheme) + SEPARATOR| - 1)
  {
  }

  lemma NoneAtAll(s: bytes, b: byte)
    ensures b !in s ==> FindLast(s, b) == None
  {
    FindLastSplits(s, b);
  }

  /** Where the last slash of a URL is: in its path, or in front of its authority. */
  lemma LastSlash(scheme: Scheme, authority: bytes, path: bytes)
    requires SLASH !in authority && IsPath(path)
    ensures var start := |SchemeText(scheme) + SEPARATOR|;
            FindLast(Written(scheme, authority, path), SLASH) ==
            Some(match FindLast(path, SLASH) case None => start - 1 case Some(i) => start + |authority| + i)
  {
    SchemeLength(scheme);
    NoneAtAll(authority, SLASH);
    FindLastSplits(path, SLASH);
    hide FindLast, SchemeText;
    var front := SchemeText(scheme) + SEPARATOR;
    FindLastAfter(front, authority + path, SLASH);
    FindLastAfter(authority, path, SLASH);
  }

  /** A URL so short that `resolve_url` takes the slash in front of its file name for one of "://". */
  predicate LooksBare(scheme: Scheme, authority: bytes, path: bytes) {
    scheme.Http? && |authority| == 1 && |path| > 1 && SLASH !in path[1..]
  }

  lemma FirstIsLast(path: bytes)
    requires path != [] && path[0] == SLASH
    ensures FindLast(path, SLASH).Some?
    ensures FindLast(path, SLASH) == Some(0) <==> SLASH !in path[1..]
  {
    FindLastSplits(path, SLASH);
    hide FindLast;
    var i := FindLast(path, SLASH).value;
    assert i > 0 ==> path[1..][i - 1] == SLASH;
    assert path[0] == SLASH;
  }

  lemma UpToSlash(scheme: Scheme, authority: bytes, path: bytes)
    ensures match FindLast(path, SLASH)
            case None => Directory(path) == []
            case Some(i) =>
              var k := |SchemeText(scheme) + SEPARATOR| + |authority| + i + 1;
              k <= |Written(scheme, authority, path)|
              && Written(scheme, authority, path)[..k] == Written(scheme, authority, Directory(path))
  {
    hide FindLast, SchemeText;
  }

  lemma Appended(scheme: Scheme, authority: bytes, path: bytes, more: bytes)
    ensures Written(scheme, authority, path) + more == Written(scheme, authority, path + more)
  {
    hide SchemeText;
    assert authority + path + more == authority + (path + more);
  }

  lemma RelativeBranch(base: bytes, location: bytes)
    requires IsRelative(location)
    ensures ResolveUrl(base, location) ==
            match FindLast(base, SLASH)
            case Some(i) => (if i > 8 then base[..i + 1] else base) + location
            case None => base + location
  {
    hide FindLast, Ascii, Segments, JoinedBySlash;
    assert !([SLASH] <= location);
  }

  /** What a relative location is appended to. */
  lemma RelativeResolved(scheme: Scheme, authority: bytes, path: bytes, location: bytes)
    requires SLASH !in authority && authority != [] && IsPath(path) && IsRelative(location)
    ensures ResolveUrl(Written(scheme, authority, path), location) ==
            Written(scheme, authority, (if LooksBare(scheme, authority, path) then path else Directory(path)) + location)
  {
    hide ResolveUrl, IsRelative, Ascii, Written;
    LastSlash(scheme, authority, path);
    SchemeLength(scheme);
    RelativeBranch(Written(scheme, authority, path), location);
    if path != [] {
      FirstIsLast(path);
      assert |path| == 1 ==> Directory(path) == path;
    } else {
      NoneAtAll(path, SLASH);
    }
    hide FindLast, SchemeText, Directory;
    UpToSlash(scheme, authority, path);
    Appended(scheme, authority, path, location);
    Appended(scheme, authority, Directory(path), location);
  }

  lemma HasAuthority(base: bytes, scheme: Scheme, authority: bytes, path: bytes)
    requires IsUrlOf(base, scheme, authority, path) && ParseUrl(base).Ok?
    ensures authority != []
    ensures forall p | IsPath(p) && p != [] ::
              ParseUrl(Written(scheme, authority, p)) == Ok(ParseUrl(base).value.(path := p))
  {
    hide ParseUrl, HostAndPort, Written, IsUrlOf;
    IsUrlOfIff(base, scheme, authority, path);
    UrlParses(scheme, authority, path);
    HostAndPortIff(scheme, [], [], if scheme.Http? then 80 else 443);
    forall p | IsPath(p) && p != []
      ensures ParseUrl(Written(scheme, authority, p)) == Ok(ParseUrl(base).value.(path := p))
    {
      UrlParses(scheme, authority, p);
    }
  }

  lemma SameFront(front: bytes, a: bytes, b: bytes)
    ensures front + a == front + b <==> a == b
  {
    if front + a == front + b {
      assert a == (front + a)[|front|..] && b == (front + b)[|front|..];
    }
  }

  /** Two URLs written with one scheme and authority differ as their paths do. */
  lemma SameAuthority(scheme: Scheme, authority: bytes, p: bytes, q: bytes)
    ensures Written(scheme, authority, p) == Written(scheme, authority, q) <==> p == q
  {
    hide SchemeText;
    SameFront(SchemeText(scheme) + SEPARATOR, authority + p, authority + q);
    SameFront(authority, p, q);
  }

  lemma KeptPath(scheme: Scheme, authority: bytes, path: bytes, location: bytes)
    requires IsPath(path) && IsRelative(location)
    ensures var kept := if LooksBare(scheme, authority, path) then path else Directory(path);
            && (if path == [] then kept == [] else kept != [] && kept[0] == SLASH)
            && (kept + location == Directory(path) + location <==> !LooksBare(scheme, authority, path))
  {
    if path != [] {
      FirstIsLast(path);
    } else {
      NoneAtAll(path, SLASH);
    }
    hide FindLast;
    var dir := Directory(path);
    assert |dir + location| == |dir| + |location| && |path + location| == |path| + |location|;
  }

  lemma RelativeTarget(base: bytes, scheme: Scheme, authority: bytes, path: bytes, location: bytes) returns (kept: bytes)
    requires IsUrlOf(base, scheme, authority, path) && ParseUrl(base).Ok? && IsRelative(location)
    ensures kept == if LooksBare(scheme, authority, path) then path else Directory(path)
    ensures ResolveUrl(base, location) == Written(scheme, authority, kept + location) && SLASH !in authority
    ensures IsPath(kept + location) <==> path != []
    ensures kept + location != []
    ensures kept + location == Directory(path) + location <==> !LooksBare(scheme, authority, path)
  {
    kept := if LooksBare(scheme, authority, path) then path else Directory(path);
    HasAuthority(base, scheme, authority, path);
    IsUrlOfIff(base, scheme, authority, path);
    KeptPath(scheme, authority, path, location);
    hide ParseUrl, ResolveUrl, Written, LooksBare, Directory, IsUrlOf;
    RelativeResolved(scheme, authority, path, location);
  }

  /**
   A relative location stays with the scheme, host and port of the base if and only if the base has a path. Then it
   replaces what follows the path's last slash, if and only if the base does not look bare.
   */
  lemma RelativeLocations(base: bytes, scheme: Scheme, authority: bytes, path: bytes, location: bytes)
    requires IsUrlOf(base, scheme, authority, path) && ParseUrl(base).Ok? && IsRelative(location)
    ensures (exists p :: IsUrlOf(ResolveUrl(base, location), scheme, authority, p)) <==> path != []
    ensures path != [] ==>
              var p := (if LooksBare(scheme, authority, path) then path else Directory(path)) + location;
              ParseUrl(ResolveUrl(base, location)) == Ok(ParseUrl(base).value.(path := p))
    ensures ResolveUrl(base, location) == Written(scheme, authority, Directory(path) + location) <==>
            !LooksBare(scheme, authority, path)
  {
    hide ParseUrl, ResolveUrl, Written, LooksBare, Directory, IsUrlOf, IsRelative;
    var kept := RelativeTarget(base, scheme, authority, path, location);
    HasAuthority(base, scheme, authority, path);
    SameAuthority(scheme, authority, kept + location, Directory(path) + location);
    IsUrlOfIff(ResolveUrl(base, location), scheme, authority, kept + location);
    forall p | IsUrlOf(ResolveUrl(base, location), scheme, authority, p)
      ensures path != []
    {
      IsUrlOfIff(ResolveUrl(base, location), scheme, authority, p);
      SameAuthority(scheme, authority, p, kept + location);
    }
  }

  /** A base without a path: the location becomes part of the host. */
  lemma NoPathExample()
    ensures ResolveUrl(Ascii("http://h"), Ascii("x")) == Ascii("http://hx")
  {
    assert Ascii("http://h") == Written(Http, [104], []);
    assert Ascii("http://hx") == Written(Http, [104], [120]);
    assert Ascii("x") == [120] && IsRelative([120]);
    hide ResolveUrl, Written, IsRelative, Ascii, FindLast;
    RelativeResolved(Http, [104], [], [120]);
    assert [] + [120] == [120];
  }

  /** A base that looks bare: the file name stays in front of the location. */
  lemma BareExample()
    ensures ResolveUrl(Ascii("http://h/x"), Ascii("y")) == Ascii("http://h/xy")
  {
    assert Ascii("http://h/x") == Written(Http, [104], [47, 120]);
    assert Ascii("http://h/xy") == Written(Http, [104], [47, 120, 121]);
    assert Ascii("y") == [121] && IsRelative([121]);
    hide ResolveUrl, Written, IsRelative, Ascii, FindLast;
    RelativeResolved(Http, [104], [47, 120], [121]);
    assert [47, 120] + [121] == [47, 120, 121];
  }
}
