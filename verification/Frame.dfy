/** The Wisp v2.1 packet codecs of `drift-core/src/wisp/frame.rs`. */
module Frame {
  import opened Bytes
  import opened Text

  const HEADER_LEN := 5
  const HANDSHAKE_STREAM_ID: u32 := 0
  const WISP_MAJOR: byte := 2
  const WISP_MINOR: byte := 1

  datatype PacketType = Connect | Data | Continue | Close | Info {
    function AsU8(): byte {
      match this
      case Connect => 1
      case Data => 2
      case Continue => 3
      case Close => 4
      case Info => 5
    }

    static function FromU8(b: byte): Option<PacketType> {
      match b
      case 1 => Some(Connect)
      case 2 => Some(Data)
      case 3 => Some(Continue)
      case 4 => Some(Close)
      case 5 => Some(Info)
      case _ => None
    }
  }

  datatype StreamType = Tcp | Udp {
    function AsU8(): byte {
      if Tcp? then 1 else 2
    }

    static function FromU8(b: byte): Option<StreamType> {
      if b == 1 then Some(Tcp) else if b == 2 then Some(Udp) else None
    }
  }

  datatype Packet = Packet(packetType: PacketType, streamId: u32, payload: bytes)

  datatype Extension = Extension(id: byte, metadata: bytes)

  datatype InfoPayload = InfoPayload(major: byte, minor: byte, extensions: seq<Extension>)

  datatype ConnectPayload = ConnectPayload(kind: StreamType, port: u16, hostname: bytes)

  datatype DecodeError =
    | TooShort(got: nat, need: nat)
    | UnknownPacketType(b: byte)
    | UnknownStreamType(b: byte)
    | InvalidHostname
    | ExtensionOverrun(declared: u32, available: nat)

  // ---- Packet header ----

  function PacketBytes(packetType: PacketType, streamId: u32, payload: bytes): bytes {
    [packetType.AsU8()] + U32Le(streamId) + payload
  }

  method EncodePacketToVec(packetType: PacketType, streamId: u32, payload: bytes) returns (buf: bytes)
    ensures buf == PacketBytes(packetType, streamId, payload)
  {
    buf := [];
    buf := buf + [packetType.AsU8()];
    buf := buf + U32Le(streamId);
    buf := buf + payload;
  }

  function DecodePacket(buf: bytes): Result<Packet, DecodeError> {
    if |buf| < HEADER_LEN then Err(TooShort(|buf|, HEADER_LEN))
    else
      match PacketType.FromU8(buf[0])
      case None => Err(UnknownPacketType(buf[0]))
      case Some(t) => Ok(Packet(t, FromU32Le(buf[1..]), buf[HEADER_LEN..]))
  }

  /** Decoding a frame yields `p` exactly when the frame is the encoding of `p`: the header codec is a bijection. */
  lemma PacketCodec(buf: bytes, p: Packet)
    ensures DecodePacket(buf) == Ok(p) <==> buf == PacketBytes(p.packetType, p.streamId, p.payload)
  {
    var wire := PacketBytes(p.packetType, p.streamId, p.payload);
    assert wire[1..] == U32Le(p.streamId) + p.payload;
    U32LeInverse(p.streamId, p.payload);
    assert wire[HEADER_LEN..] == p.payload;
    if DecodePacket(buf) == Ok(p) {
      FromU32LeInverse(buf[1..]);
      assert buf == [buf[0]] + buf[1..][..4] + buf[HEADER_LEN..];
    }
  }

  /** A frame is rejected for its length when it has no whole header, and for its type when that is not one of five. */
  lemma PacketRejections(buf: bytes)
    ensures DecodePacket(buf) == Err(TooShort(|buf|, HEADER_LEN)) <==> |buf| < HEADER_LEN
    ensures |buf| >= HEADER_LEN ==>
              (DecodePacket(buf) == Err(UnknownPacketType(buf[0])) <==>
                forall t: PacketType :: t.AsU8() != buf[0])
  {
    if |buf| >= HEADER_LEN && PacketType.FromU8(buf[0]).Some? {
      assert PacketType.FromU8(buf[0]).value.AsU8() == buf[0];
    }
  }

  const TYPES_BY_NUMBER := [Connect, Data, Continue, Close, Info]

  /** Four bytes, least significant first. */
  function LittleEndian(b0: byte, b1: byte, b2: byte, b3: byte): u32 {
    b0 as int + 256 * (b1 as int) + 65536 * (b2 as int) + 16777216 * (b3 as int)
  }

  /** The header: a packet type numbered from one, then the stream id, least significant byte first. */
  lemma PacketLayout(buf: bytes, p: Packet)
    ensures DecodePacket(buf) == Ok(p) <==>
            && |buf| >= 5 && 1 <= buf[0] <= 5 && p.packetType == TYPES_BY_NUMBER[buf[0] - 1]
            && p.streamId == LittleEndian(buf[1], buf[2], buf[3], buf[4]) && p.payload == buf[5..]
  {
  }

  lemma HeaderReads(buf: bytes)
    ensures DecodePacket(buf).Err? ==>
              DecodePacket(buf).error == if |buf| < 5 then TooShort(|buf|, 5) else UnknownPacketType(buf[0])
    ensures DecodePacket(buf).Ok? <==> |buf| >= 5 && 1 <= buf[0] <= 5
  {
  }

  lemma ZeroBytes(b0: byte, b1: byte, b2: byte, b3: byte)
    ensures LittleEndian(b0, b1, b2, b3) == 0 <==> b0 == 0 && b1 == 0 && b2 == 0 && b3 == 0
  {
  }

  // ---- CONNECT ----

  function ConnectBytes(kind: StreamType, port: u16, hostname: bytes): bytes {
    [kind.AsU8()] + U16Le(port) + hostname
  }

  function DecodeConnect(payload: bytes): Result<ConnectPayload, DecodeError> {
    if |payload| < 3 then Err(TooShort(|payload|, 3))
    else
      match StreamType.FromU8(payload[0])
      case None => Err(UnknownStreamType(payload[0]))
      case Some(kind) =>
        if !ValidUtf8(payload[3..]) then Err(InvalidHostname)
        else Ok(ConnectPayload(kind, FromU16Le(payload[1..]), payload[3..]))
  }

  lemma ConnectCodec(payload: bytes, c: ConnectPayload)
    ensures DecodeConnect(payload) == Ok(c) <==>
            ValidUtf8(c.hostname) && payload == ConnectBytes(c.kind, c.port, c.hostname)
  {
    var wire := ConnectBytes(c.kind, c.port, c.hostname);
    assert wire[3..] == c.hostname;
    assert wire[1..] == U16Le(c.port) + c.hostname;
    if DecodeConnect(payload) == Ok(c) {
      assert payload == [payload[0]] + [payload[1], payload[2]] + payload[3..];
    }
  }

  /** CONNECT: 1 for TCP or 2 for UDP, the port with its low byte first, and the host as UTF-8. */
  lemma ConnectLayout(payload: bytes, c: ConnectPayload)
    ensures DecodeConnect(payload) == Ok(c) <==>
            && |payload| >= 3 && payload[0] == (if c.kind.Tcp? then 1 else 2)
            && c.port == payload[1] as int + 256 * (payload[2] as int) && c.hostname == payload[3..]
            && ValidUtf8(c.hostname)
  {
  }

  /** A CONNECT payload is refused without its three fixed bytes, for a type that is neither 1 nor 2, or for its host. */
  lemma ConnectRefusals(payload: bytes)
    ensures DecodeConnect(payload).Err? ==>
              DecodeConnect(payload).error ==
              if |payload| < 3 then TooShort(|payload|, 3)
              else if payload[0] != 1 && payload[0] != 2 then UnknownStreamType(payload[0])
              else InvalidHostname
    ensures DecodeConnect(payload).Ok? <==> |payload| >= 3 && (payload[0] == 1 || payload[0] == 2) && ValidUtf8(payload[3..])
  {
  }

  // ---- CONTINUE ----

  function DecodeContinue(payload: bytes): Result<u32, DecodeError> {
    if |payload| < 4 then Err(TooShort(|payload|, 4)) else Ok(FromU32Le(payload))
  }

  /** Every credit value survives the CONTINUE payload; bytes after the fourth are ignored. */
  lemma ContinueCodec(n: u32, tail: bytes)
    ensures DecodeContinue(U32Le(n) + tail) == Ok(n)
  {
    U32LeInverse(n, tail);
  }

  /** CONTINUE: the credit, least significant byte first, and whatever follows. */
  lemma ContinueLayout(payload: bytes, n: u32)
    ensures DecodeContinue(payload).Ok? <==> |payload| >= 4
    ensures DecodeContinue(payload) == Ok(n) <==>
            |payload| >= 4 && n == LittleEndian(payload[0], payload[1], payload[2], payload[3])
  {
  }

  lemma CreditRefused(payload: bytes)
    ensures DecodeContinue(payload).Err? <==> |payload| < 4
    ensures DecodeContinue(payload).Err? ==> DecodeContinue(payload).error == TooShort(|payload|, 4)
  {
  }

  // ---- INFO ----

  /** The length field: metadata longer than a u32 can say is written as `u32::MAX`. */
  function LengthField(metadata: bytes): u32 {
    if |metadata| <= U32_MAX then |metadata| else U32_MAX
  }

  function ExtensionBytes(x: Extension): bytes {
    [x.id] + U32Le(LengthField(x.metadata)) + x.metadata
  }

  function ExtensionsBytes(xs: seq<Extension>): bytes {
    if xs == [] then [] else ExtensionBytes(xs[0]) + ExtensionsBytes(xs[1..])
  }

  function InfoBytes(xs: seq<Extension>): bytes {
    [WISP_MAJOR, WISP_MINOR] + ExtensionsBytes(xs)
  }

  lemma EntryPushed(buf: bytes, xs: seq<Extension>, i: nat)
    requires i < |xs|
    ensures buf + ExtensionsBytes(xs[i..]) ==
            buf + [xs[i].id] + U32Le(LengthField(xs[i].metadata)) + xs[i].metadata + ExtensionsBytes(xs[i + 1..])
  {
    hide U32Le, LengthField;
    assert xs[i..][1..] == xs[i + 1..];
  }

  method EncodeInfo(extensions: seq<Extension>) returns (buf: bytes)
    ensures buf == InfoBytes(extensions)
  {
    assert ExtensionsBytes([]) == [] && extensions[0..] == extensions;
    hide U32Le, ExtensionsBytes;
    buf := [WISP_MAJOR];
    buf := buf + [WISP_MINOR];
    for i := 0 to |extensions|
      invariant buf + ExtensionsBytes(extensions[i..]) == InfoBytes(extensions)
    {
      var ext := extensions[i];
      EntryPushed(buf, extensions, i);
      buf := buf + [ext.id];
      buf := buf + U32Le(if |ext.metadata| <= U32_MAX then |ext.metadata| else U32_MAX);
      buf := buf + ext.metadata;
    }
    assert buf + [] == buf;
  }

  /** The INFO grammar: a version pair, then entries each announcing a length that fits what is left. */
  predicate IsExtensionList(b: bytes)
    decreases |b|
  {
    b == [] || (|b| >= 5 && 5 + FromU32Le(b[1..]) <= |b| && IsExtensionList(b[5 + FromU32Le(b[1..])..]))
  }

  predicate IsInfo(payload: bytes) {
    |payload| >= 2 && IsExtensionList(payload[2..])
  }

  /** The entries of a byte string in the grammar, and the error of one that is not. */
  function ParseExtensions(b: bytes): Result<seq<Extension>, DecodeError>
    decreases |b|
  {
    if b == [] then Ok([])
    else if |b| < 5 then Err(TooShort(|b|, 5))
    else
      var len := FromU32Le(b[1..]);
      if |b| - 5 < len then Err(ExtensionOverrun(len, |b| - 5))
      else
        match ParseExtensions(b[5 + len..])
        case Err(e) => Err(e)
        case Ok(xs) => Ok([Extension(b[0], b[5..5 + len])] + xs)
  }

  lemma {:induction false} ParsedExactlyTheGrammar(b: bytes)
    ensures ParseExtensions(b).Ok? <==> IsExtensionList(b)
    ensures ParseExtensions(b).Ok? ==> forall x | x in ParseExtensions(b).value :: |x.metadata| <= U32_MAX
    decreases |b|
  {
    if |b| >= 5 && 5 + FromU32Le(b[1..]) <= |b| {
      ParsedExactlyTheGrammar(b[5 + FromU32Le(b[1..])..]);
    }
  }

  function DecodedInfo(payload: bytes): Result<InfoPayload, DecodeError> {
    if |payload| < 2 then Err(TooShort(|payload|, 2))
    else
      match ParseExtensions(payload[2..])
      case Err(e) => Err(e)
      case Ok(xs) => Ok(InfoPayload(payload[0], payload[1], xs))
  }

  /** `r` with the entries already collected put in front. */
  function Prepend(done: seq<Extension>, r: Result<seq<Extension>, DecodeError>): Result<seq<Extension>, DecodeError> {
    match r
    case Err(e) => Err(e)
    case Ok(xs) => Ok(done + xs)
  }

  /** One turn of the decoding loop, at offset `i`. */
  lemma ParseStep(payload: bytes, i: nat, len: u32)
    requires i + 5 <= |payload| && len == FromU32Le(payload[i + 1..])
    ensures ParseExtensions(payload[i..]) ==
            if |payload| - (i + 5) < len then Err(ExtensionOverrun(len, |payload| - (i + 5)))
            else Prepend([Extension(payload[i], payload[i + 5..i + 5 + len])], ParseExtensions(payload[i + 5 + len..]))
  {
    var b := payload[i..];
    assert b[1..] == payload[i + 1..];
    if |payload| - (i + 5) >= len {
      assert b[5..5 + len] == payload[i + 5..i + 5 + len];
      assert b[5 + len..] == payload[i + 5 + len..];
    }
  }

  lemma PrependNothing(r: Result<seq<Extension>, DecodeError>)
    ensures Prepend([], r) == r
  {
    assert r.Ok? ==> [] + r.value == r.value;
  }

  /** The entry read at offset `i` moves from what is left to what is done. */
  lemma EntryMoves(done: seq<Extension>, payload: bytes, i: nat, len: u32)
    requires i + 5 <= |payload| && len == FromU32Le(payload[i + 1..])
    ensures Prepend(done, ParseExtensions(payload[i..])) ==
            if |payload| - (i + 5) < len then Err(ExtensionOverrun(len, |payload| - (i + 5)))
            else Prepend(done + [Extension(payload[i], payload[i + 5..i + 5 + len])], ParseExtensions(payload[i + 5 + len..]))
  {
    ParseStep(payload, i, len);
    if i + 5 + len <= |payload| {
      var x, r := Extension(payload[i], payload[i + 5..i + 5 + len]), ParseExtensions(payload[i + 5 + len..]);
      if r.Ok? {
        assert done + ([x] + r.value) == done + [x] + r.value;
      }
    }
  }

  lemma NoHeader(b: bytes)
    ensures b == [] ==> ParseExtensions(b) == Ok([])
    ensures 0 < |b| < 5 ==> ParseExtensions(b) == Err(TooShort(|b|, 5))
  {
  }

  method DecodeInfo(payload: bytes) returns (r: Result<InfoPayload, DecodeError>)
    ensures r == DecodedInfo(payload)
  {
    hide ParseExtensions, FromU32Le;
    if |payload| < 2 {
      return Err(TooShort(|payload|, 2));
    }
    var major, minor := payload[0], payload[1];
    var extensions: seq<Extension> := [];
    var i := 2;
    ghost var all := ParseExtensions(payload[2..]);
    PrependNothing(all);
    while i < |payload|
      invariant 2 <= i <= |payload|
      invariant all == Prepend(extensions, ParseExtensions(payload[i..]))
      decreases |payload| - i
    {
      NoHeader(payload[i..]);
      if |payload| - i < 5 {
        return Err(TooShort(|payload| - i, 5));
      }
      var id := payload[i];
      var len := FromU32Le(payload[i + 1..]);
      var start := i + 5;
      EntryMoves(extensions, payload, i, len);
      if |payload| - start < len {
        return Err(ExtensionOverrun(len, |payload| - start));
      }
      var metadata := payload[start..start + len];
      extensions := extensions + [Extension(id, metadata)];
      i := start + len;
    }
    NoHeader(payload[i..]);
    assert extensions + [] == extensions;
    return Ok(InfoPayload(major, minor, extensions));
  }

  lemma ParseEncoded(x: Extension, rest: bytes)
    requires |x.metadata| <= U32_MAX
    ensures ParseExtensions(ExtensionBytes(x) + rest) == Prepend([x], ParseExtensions(rest))
  {
    hide ParseExtensions, U32Le, FromU32Le, Prepend;
    var b := ExtensionBytes(x) + rest;
    assert b[1..] == U32Le(|x.metadata|) + (x.metadata + rest);
    U32LeInverse(|x.metadata|, x.metadata + rest);
    ParseStep(b, 0, |x.metadata|);
    assert b[5..5 + |x.metadata|] == x.metadata;
    assert b[5 + |x.metadata|..] == rest;
    assert b[0..] == b;
  }

  lemma {:induction false} ExtensionsInverse(xs: seq<Extension>)
    requires forall x | x in xs :: |x.metadata| <= U32_MAX
    ensures ParseExtensions(ExtensionsBytes(xs)) == Ok(xs)
    decreases |xs|
  {
    if xs != [] {
      ExtensionsInverse(xs[1..]);
      ParseEncoded(xs[0], ExtensionsBytes(xs[1..]));
      assert xs == [xs[0]] + xs[1..];
    }
  }

  lemma CutEntry(x: Extension, cut: nat)
    requires |x.metadata| <= U32_MAX && 0 < cut < |ExtensionBytes(x)|
    ensures ParseExtensions(ExtensionBytes(x)[..cut])
            == Err(if cut < 5 then TooShort(cut, 5) else ExtensionOverrun(|x.metadata|, cut - 5))
  {
    var b := ExtensionBytes(x)[..cut];
    if cut >= 5 {
      assert b[1..] == U32Le(|x.metadata|) + x.metadata[..cut - 5];
      U32LeInverse(|x.metadata|, x.metadata[..cut - 5]);
    }
  }

  lemma {:induction false} CutList(xs: seq<Extension>, x: Extension, cut: nat)
    requires forall y | y in xs + [x] :: |y.metadata| <= U32_MAX
    requires 0 < cut < |ExtensionBytes(x)|
    ensures ParseExtensions(ExtensionsBytes(xs) + ExtensionBytes(x)[..cut])
            == Err(if cut < 5 then TooShort(cut, 5) else ExtensionOverrun(|x.metadata|, cut - 5))
    decreases |xs|
  {
    assert x in xs + [x];
    CutEntry(x, cut);
    var end := ExtensionBytes(x)[..cut];
    hide ExtensionBytes, ParseExtensions;
    if xs == [] {
      assert [] + end == end;
    } else {
      assert xs[0] in xs + [x];
      CutList(xs[1..], x, cut);
      ParseEncoded(xs[0], ExtensionsBytes(xs[1..]) + end);
      assert ExtensionsBytes(xs) + end == ExtensionBytes(xs[0]) + (ExtensionsBytes(xs[1..]) + end);
    }
  }

  lemma InfoTail(xs: seq<Extension>, end: bytes)
    ensures |InfoBytes(xs) + end| >= 2 && (InfoBytes(xs) + end)[2..] == ExtensionsBytes(xs) + end
  {
  }

  /** An INFO cut off inside any of its entries is rejected, and the error says where: in a header, or in what metadata. */
  lemma CutInfoIsReported(xs: seq<Extension>, x: Extension, cut: nat)
    requires forall y | y in xs + [x] :: |y.metadata| <= U32_MAX
    requires 0 < cut < |ExtensionBytes(x)|
    ensures DecodedInfo(InfoBytes(xs) + ExtensionBytes(x)[..cut])
            == Err(if cut < 5 then TooShort(cut, 5) else ExtensionOverrun(|x.metadata|, cut - 5))
  {
    CutList(xs, x, cut);
    hide ExtensionBytes, ParseExtensions, InfoBytes, ExtensionsBytes;
    InfoTail(xs, ExtensionBytes(x)[..cut]);
  }

  /** `decode_info` accepts exactly the payloads of the grammar. */
  lemma InfoAcceptsTheGrammar(payload: bytes)
    ensures DecodedInfo(payload).Ok? <==> IsInfo(payload)
    ensures |payload| < 2 ==> DecodedInfo(payload) == Err(TooShort(|payload|, 2))
  {
    if |payload| >= 2 {
      ParsedExactlyTheGrammar(payload[2..]);
    }
  }

  /** The INFO payload round trips exactly when every metadata length fits the u32 length field. */
  lemma InfoRoundTrip(xs: seq<Extension>)
    ensures DecodedInfo(InfoBytes(xs)) == Ok(InfoPayload(WISP_MAJOR, WISP_MINOR, xs)) <==>
            forall x | x in xs :: |x.metadata| <= U32_MAX
  {
    assert InfoBytes(xs)[2..] == ExtensionsBytes(xs);
    ParsedExactlyTheGrammar(ExtensionsBytes(xs));
    if forall x | x in xs :: |x.metadata| <= U32_MAX {
      ExtensionsInverse(xs);
    }
  }

  lemma FirstEntry(b: bytes, len: u32)
    requires |b| >= 5 + len && len == FromU32Le(b[1..])
    ensures b == ExtensionBytes(Extension(b[0], b[5..5 + len])) + b[5 + len..]
  {
    FromU32LeInverse(b[1..]);
    assert b[1..][..4] == b[1..5];
    assert b == [b[0]] + b[1..5] + b[5..5 + len] + b[5 + len..];
  }

  lemma EncodePrepended(x: Extension, xs: seq<Extension>)
    ensures ExtensionsBytes([x] + xs) == ExtensionBytes(x) + ExtensionsBytes(xs)
  {
    assert ([x] + xs)[1..] == xs;
  }

  lemma {:induction false} ParsedIsCanonical(b: bytes)
    requires ParseExtensions(b).Ok?
    ensures ExtensionsBytes(ParseExtensions(b).value) == b
    decreases |b|
  {
    if b != [] {
      var len := FromU32Le(b[1..]);
      var rest := b[5 + len..];
      ParsedIsCanonical(rest);
      FirstEntry(b, len);
      EncodePrepended(Extension(b[0], b[5..5 + len]), ParseExtensions(rest).value);
    }
  }

  /** Every payload of the grammar with version 2.1 re-encodes to itself, byte for byte. */
  lemma InfoIsCanonical(payload: bytes)
    requires IsInfo(payload) && payload[..2] == [WISP_MAJOR, WISP_MINOR]
    ensures DecodedInfo(payload).Ok? && InfoBytes(DecodedInfo(payload).value.extensions) == payload
  {
    hide ParseExtensions, ExtensionsBytes, IsExtensionList;
    ParsedExactlyTheGrammar(payload[2..]);
    ParsedIsCanonical(payload[2..]);
    assert payload == payload[..2] + payload[2..];
  }

  /** An extension list in the grammar, read entry by entry: a byte, its length least significant byte first, its data. */
  lemma InfoLayout(payload: bytes, i: InfoPayload)
    requires DecodedInfo(payload) == Ok(i)
    ensures |payload| >= 2 && i.major == payload[0] && i.minor == payload[1]
    ensures i.extensions == [] <==> |payload| == 2
    ensures i.extensions != [] ==>
              var x := i.extensions[0];
              && |payload| >= 7 + |x.metadata| && x.id == payload[2]
              && |x.metadata| == LittleEndian(payload[3], payload[4], payload[5], payload[6])
              && x.metadata == payload[7..7 + |x.metadata|]
              && DecodedInfo(payload[..2] + payload[7 + |x.metadata|..])
                 == Ok(InfoPayload(payload[0], payload[1], i.extensions[1..]))
  {
    hide ParseExtensions;
    NoHeader(payload[2..]);
    if |payload| > 2 {
      var len := FromU32Le(payload[3..]);
      ParseStep(payload, 2, len);
      hide FromU32Le;
      var x, rest := Extension(payload[2], payload[7..7 + len]), ParseExtensions(payload[7 + len..]);
      assert i.extensions == [x] + rest.value && i.extensions[1..] == rest.value;
      assert (payload[..2] + payload[7 + len..])[2..] == payload[7 + len..];
    } else {
      assert payload[2..] == [];
    }
  }
}
