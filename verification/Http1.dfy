/** The HTTP/1.1 reader and request encoder of `drift-core/src/http1.rs`. */
module Http1 {
  import opened Bytes
  import opened Text
  import opened ByteStreams

  const MAX_HEAD := 1024 * 1024
  const HEAD_READ := 32768
  const BODY_READ := 65536
  const TRAILER_READ := 4096
  const USIZE_LIMIT := 0x1_0000_0000_0000_0000 // 64-bit targets
  const U64_LIMIT := 0x1_0000_0000_0000_0000
  const CRLFCRLF: bytes := [CR, LF, CR, LF]

  datatype ChunkFault = NoSizeLine | NotUtf8 | BadSize | EofInBody

  /** `Overflow` stands for the arithmetic overflow of `size + 2`, where the source does not go on. */
  datatype Http1Error =
    | ParseHeaders
    | BadContentLength
    | Chunked(fault: ChunkFault)
    | UnsupportedTransferEncoding(value: bytes)
    | ResponseTooLarge
    | Overflow

  // ---- Searching ----

  function FindCrlf(buf: bytes): Option<nat> {
    Position(buf, CRLF)
  }

  function FindHeadersEnd(buf: bytes): (r: Option<nat>)
    ensures r.Some? ==> r.value <= |buf|
  {
    match Position(buf, CRLFCRLF)
    case None => None
    case Some(p) => Some(p + 4)
  }

  // ---- The head ----

  /** What `read_until_headers_end` does when the rest of the stream arrives as `pieces`. */
  function ScanHead(buf: bytes, pieces: seq<bytes>): Result<nat, Http1Error>
    requires Arriving(pieces)
    decreases |Joined(pieces)|
  {
    if FindHeadersEnd(buf).Some? then Ok(FindHeadersEnd(buf).value)
    else if pieces == [] then Err(ParseHeaders)
    else
      ReadOnceKeepsBytes(pieces, HEAD_READ);
      var (chunk, left) := ReadOnce(pieces, HEAD_READ);
      if |buf + chunk| > MAX_HEAD then Err(ParseHeaders) else ScanHead(buf + chunk, left)
  }

  /** What the search has buffered when it stops. */
  function HeadBuffer(buf: bytes, pieces: seq<bytes>): bytes
    requires Arriving(pieces)
    decreases |Joined(pieces)|
  {
    if FindHeadersEnd(buf).Some? || pieces == [] then buf
    else
      ReadOnceKeepsBytes(pieces, HEAD_READ);
      var (chunk, left) := ReadOnce(pieces, HEAD_READ);
      if |buf + chunk| > MAX_HEAD then buf + chunk else HeadBuffer(buf + chunk, left)
  }

  method ReadUntilHeadersEnd(s: ByteStream, start: bytes) returns (r: Result<nat, Http1Error>, buf: bytes)
    requires s.Valid()
    modifies s`pieces
    ensures s.Valid()
    ensures r == ScanHead(start, old(s.pieces)) && buf == HeadBuffer(start, old(s.pieces))
    ensures buf + s.Rest() == start + old(s.Rest())
    ensures r.Ok? ==> FindHeadersEnd(buf) == Some(r.value)
  {
    buf := start;
    while true
      invariant s.Valid()
      invariant ScanHead(buf, s.pieces) == ScanHead(start, old(s.pieces))
      invariant HeadBuffer(buf, s.pieces) == HeadBuffer(start, old(s.pieces))
      invariant buf + s.Rest() == start + old(s.Rest())
      decreases |s.Rest()|
    {
      var idx := FindHeadersEnd(buf);
      if idx.Some? {
        return Ok(idx.value), buf;
      }
      ReadOnceKeepsBytes(s.pieces, HEAD_READ);
      var chunk := s.Read(HEAD_READ);
      if chunk == [] {
        return Err(ParseHeaders), buf;
      }
      buf := buf + chunk;
      if |buf| > MAX_HEAD {
        return Err(ParseHeaders), buf;
      }
    }
  }

  lemma HeadStays(buf: bytes, rest: bytes)
    requires FindHeadersEnd(buf).Some?
    ensures FindHeadersEnd(buf + rest) == FindHeadersEnd(buf)
  {
    hide Position;
    PositionStable(buf, rest, CRLFCRLF);
  }

  /**
   Whatever the search finds is the input's first blank line, no later than the guard; what it has buffered by then is
   the front of the input, and goes less than one read past the head.
   */
  lemma {:induction false} ScanFinds(buf: bytes, pieces: seq<bytes>)
    requires Arriving(pieces) && |buf| <= MAX_HEAD
    ensures match ScanHead(buf, pieces)
            case Err(e) => e == ParseHeaders
            case Ok(h) =>
              && h <= |HeadBuffer(buf, pieces)| <= MAX_HEAD && HeadBuffer(buf, pieces) <= buf + Joined(pieces)
              && FindHeadersEnd(buf + Joined(pieces)) == Some(h)
              && (FindHeadersEnd(buf).None? ==> |HeadBuffer(buf, pieces)| < h + HEAD_READ)
    decreases |Joined(pieces)|
  {
    if FindHeadersEnd(buf).Some? {
      HeadStays(buf, Joined(pieces));
    } else if pieces != [] {
      ReadOnceKeepsBytes(pieces, HEAD_READ);
      var (chunk, left) := ReadOnce(pieces, HEAD_READ);
      assert buf + chunk + Joined(left) == buf + Joined(pieces);
      if |buf + chunk| <= MAX_HEAD {
        PositionStable(buf, chunk, CRLFCRLF);
        hide Position, Joined;
        ScanFinds(buf + chunk, left);
      }
    }
  }

  /** The search gives up only at the end of the stream or past 1 MiB, and never buffers more than 32 KiB past that. */
  lemma {:induction false} SearchIsBounded(buf: bytes, pieces: seq<bytes>)
    requires Arriving(pieces) && |buf| <= 1048576
    ensures |HeadBuffer(buf, pieces)| <= 1048576 + 32768
    ensures ScanHead(buf, pieces).Err? ==>
              HeadBuffer(buf, pieces) == buf + Joined(pieces) || |HeadBuffer(buf, pieces)| > 1048576
    decreases |Joined(pieces)|
  {
    hide FindHeadersEnd;
    if pieces == [] {
      assert buf + [] == buf;
    } else if FindHeadersEnd(buf).None? {
      ReadOnceKeepsBytes(pieces, HEAD_READ);
      var (chunk, left) := ReadOnce(pieces, HEAD_READ);
      assert buf + chunk + Joined(left) == buf + Joined(pieces);
      if |buf + chunk| <= MAX_HEAD {
        SearchIsBounded(buf + chunk, left);
      }
    }
  }

  /** While the head ends with the input, nothing shorter holds it. */
  lemma HeadNotYet(buf: bytes, back: bytes)
    requires FindHeadersEnd(buf + back) == Some(|buf + back|) && back != []
    ensures FindHeadersEnd(buf).None?
  {
    if FindHeadersEnd(buf).Some? {
      HeadStays(buf, back);
    }
  }

  /** A piece that ends with the head stops the search where it ends. */
  lemma {:induction false} FrontIsFound(buf: bytes, front: bytes, more: seq<bytes>)
    requires Arriving([front] + more) && FindHeadersEnd(buf + front) == Some(|buf + front|) && |buf + front| <= MAX_HEAD
    ensures ScanHead(buf, [front] + more) == Ok(|buf + front|)
    ensures FindHeadersEnd(buf).None? ==> HeadBuffer(buf, [front] + more) == buf + front
    decreases |front|
  {
    var pieces := [front] + more;
    if FindHeadersEnd(buf).Some? {
      HeadStays(buf, front);
    } else {
      assert pieces[0] == front && pieces[1..] == more && front in pieces;
      assert Arriving(more) by {
        assert forall p | p in more :: p in pieces;
      }
      ReadOnceKeepsBytes(pieces, HEAD_READ);
      if |front| <= HEAD_READ {
        hide FindHeadersEnd;
        assert ScanHead(buf + front, more).Ok?;
      } else {
        var chunk, back := front[..HEAD_READ], front[HEAD_READ..];
        assert ReadOnce(pieces, HEAD_READ) == (chunk, [back] + more);
        assert buf + chunk + back == buf + front;
        HeadNotYet(buf + chunk, back);
        FrontIsFound(buf + chunk, back, more);
      }
    }
  }

  /** Heads up to this length are found whatever the fragmentation. */
  const SAFE_HEAD := MAX_HEAD - HEAD_READ + 1

  lemma {:induction false} SafeHeadsAreFound(buf: bytes, pieces: seq<bytes>, h: nat)
    requires Arriving(pieces) && FindHeadersEnd(buf + Joined(pieces)) == Some(h)
    requires h <= SAFE_HEAD || |buf + Joined(pieces)| <= MAX_HEAD
    ensures ScanHead(buf, pieces) == Ok(h)
    decreases |Joined(pieces)|
  {
    PositionStable(buf, Joined(pieces), CRLFCRLF);
    if FindHeadersEnd(buf).None? {
      assert pieces == [] ==> buf + Joined(pieces) == buf;
      ReadOnceKeepsBytes(pieces, HEAD_READ);
      var (chunk, left) := ReadOnce(pieces, HEAD_READ);
      assert buf + chunk + Joined(left) == buf + Joined(pieces);
      SafeHeadsAreFound(buf + chunk, left, h);
    }
  }

  /** After one read of a single byte, reads of full size step over a longer head's end and past the guard. */
  lemma {:induction false} LongHeadsCanTrip(buf: bytes, rest: bytes, h: nat)
    requires FindHeadersEnd(buf + rest) == Some(h) && h > SAFE_HEAD && |buf + rest| > MAX_HEAD
    requires |buf| % HEAD_READ == 1 && |buf| <= SAFE_HEAD
    ensures Arriving([rest]) && ScanHead(buf, [rest]) == Err(ParseHeaders)
    decreases |rest|
  {
    PositionStable(buf, rest, CRLFCRLF);
    assert FindHeadersEnd(buf).None?;
    ReadOnceKeepsBytes([rest], HEAD_READ);
    var (chunk, left) := ReadOnce([rest], HEAD_READ);
    assert |chunk| == HEAD_READ;
    if |buf + chunk| <= MAX_HEAD {
      var more := rest[HEAD_READ..];
      assert left == [more] + [] == [more];
      assert buf + chunk + more == buf + rest;
      LongHeadsCanTrip(buf + chunk, more, h);
    }
  }

  lemma OneByteThenTheRest(input: bytes, h: nat)
    requires FindHeadersEnd(input) == Some(h) && h > SAFE_HEAD && |input| > MAX_HEAD
    ensures var pieces := [input[..1], input[1..]];
            Arriving(pieces) && Joined(pieces) == input && ScanHead([], pieces) == Err(ParseHeaders)
  {
    var pieces := [input[..1], input[1..]];
    assert pieces[1..] == [input[1..]];
    assert Joined([input[1..]]) == input[1..] + Joined([]);
    assert input[..1] + input[1..] == input;
    assert [] + input[..1] == input[..1];
    LongHeadsCanTrip(input[..1], input[1..], h);
  }

  /**
   The head of an input is found at its first blank line under every fragmentation, if and only if it is at most
   1 MiB - 32 KiB + 1 bytes long or the whole input fits the 1 MiB guard.
   */
  lemma HeadSearchIgnoresFragmentation(input: bytes, h: nat)
    requires FindHeadersEnd(input) == Some(h)
    ensures (forall pieces | Arriving(pieces) && Joined(pieces) == input :: ScanHead([], pieces) == Ok(h)) <==>
            (h <= 1015809 || |input| <= 1048576)
  {
    if h <= SAFE_HEAD || |input| <= MAX_HEAD {
      forall pieces | Arriving(pieces) && Joined(pieces) == input
        ensures ScanHead([], pieces) == Ok(h)
      {
        assert [] + Joined(pieces) == input;
        SafeHeadsAreFound([], pieces, h);
      }
    } else {
      OneByteThenTheRest(input, h);
    }
  }

  lemma HeadAtEnd(input: bytes, h: nat)
    requires FindHeadersEnd(input) == Some(h)
    ensures 4 <= h <= |input| && FindHeadersEnd(input[..h]) == Some(h)
  {
    PositionIsFirst(input, CRLFCRLF);
    var front := input[..h];
    assert front[h - 4..h] == input[h - 4..h];
    forall q: nat | q < h - 4 ensures !At(front, CRLFCRLF, q) {
      assert !At(input, CRLFCRLF, q);
      assert front[q..q + 4] == input[q..q + 4];
    }
    PositionUnique(front, CRLFCRLF, h - 4);
  }

  lemma HeadThenTheRest(input: bytes, h: nat)
    requires FindHeadersEnd(input) == Some(h) && h <= MAX_HEAD
    ensures var pieces := [input[..h]] + if h == |input| then [] else [input[h..]];
            && Arriving(pieces) && Joined(pieces) == input && ScanHead([], pieces) == Ok(h)
            && HeadBuffer([], pieces) == input[..h]
  {
    var more := if h == |input| then [] else [input[h..]];
    var pieces := [input[..h]] + more;
    HeadAtEnd(input, h);
    assert [] + input[..h] == input[..h] && pieces[1..] == more;
    assert Joined(more) == input[h..];
    assert input[..h] + input[h..] == input;
    FrontIsFound([], input[..h], more);
  }

  lemma {:induction false} BackBuffersAll(buf: bytes, front: bytes, back: bytes, h: nat)
    requires front != [] && 0 < |back| <= HEAD_READ && |buf + front + back| <= MAX_HEAD
    requires FindHeadersEnd(buf + front).None? && FindHeadersEnd(buf + front + back) == Some(h)
    ensures Arriving([front, back])
    ensures ScanHead(buf, [front, back]) == Ok(h) && HeadBuffer(buf, [front, back]) == buf + front + back
    decreases |front|
  {
    var pieces := [front, back];
    assert pieces[1..] == [back];
    if FindHeadersEnd(buf).Some? {
      HeadStays(buf, front);
    }
    hide FindHeadersEnd;
    if |front| <= HEAD_READ {
      assert ReadOnce(pieces, HEAD_READ) == (front, [back]);
      assert [back][1..] == [];
      assert ReadOnce([back], HEAD_READ) == (back, []);
      ReadOnceKeepsBytes([back], HEAD_READ);
      assert ScanHead(buf + front, [back]) == ScanHead(buf + front + back, []);
      assert HeadBuffer(buf + front, [back]) == HeadBuffer(buf + front + back, []);
    } else {
      var chunk, more := front[..HEAD_READ], front[HEAD_READ..];
      assert [more] + [back] == [more, back];
      assert ReadOnce(pieces, HEAD_READ) == (chunk, [more, back]);
      assert buf + chunk + more == buf + front;
      BackBuffersAll(buf + chunk, more, back, h);
    }
  }

  /** When the head's last byte comes with the rest, in one read, everything is buffered. */
  lemma LastByteWithBody(input: bytes, h: nat)
    requires FindHeadersEnd(input) == Some(h) && |input| - h < HEAD_READ && |input| <= MAX_HEAD
    ensures var pieces := [input[..h - 1], input[h - 1..]];
            && h > 1 && Arriving(pieces) && Joined(pieces) == input
            && ScanHead([], pieces) == Ok(h) && HeadBuffer([], pieces) == input
  {
    HeadAtEnd(input, h);
    var front, back := input[..h - 1], input[h - 1..];
    var pieces := [front, back];
    assert pieces[1..] == [back] && Joined([back]) == back + Joined([]) && back + [] == back;
    assert front + back == input && [] + front == front;
    assert pieces == [front] + [back];
    assert front + [input[h - 1]] == input[..h];
    HeadNotYet(front, [input[h - 1]]);
    BackBuffersAll([], front, back, h);
  }

  /** Some fragmentation lets the search find a head if and only if the head itself fits the guard. */
  lemma HeadsThatCanBeFound(input: bytes, h: nat)
    requires FindHeadersEnd(input) == Some(h)
    ensures (exists pieces :: Arriving(pieces) && Joined(pieces) == input && ScanHead([], pieces) == Ok(h)) <==>
            h <= 1048576
    ensures h > 1048576 ==>
              forall pieces | Arriving(pieces) && Joined(pieces) == input :: ScanHead([], pieces) == Err(ParseHeaders)
  {
    if h <= MAX_HEAD {
      HeadThenTheRest(input, h);
    }
    hide ScanHead, HeadBuffer, FindHeadersEnd, Joined;
    forall pieces | Arriving(pieces) && Joined(pieces) == input && h > MAX_HEAD
      ensures ScanHead([], pieces) == Err(ParseHeaders)
    {
      assert [] + input == input;
      ScanFinds([], pieces);
    }
  }

  // ---- Chunked bodies ----

  const SEMICOLON: bytes := [59]

  function BeforeSemicolon(line: bytes): bytes {
    match Position(line, SEMICOLON)
    case None => line
    case Some(p) => line[..p]
  }

  /** The size a chunk-size line announces, extensions and surrounding white space dropped. */
  function ParseSize(line: bytes): Result<nat, ChunkFault> {
    if !ValidUtf8(line) then Err(NotUtf8)
    else
      match ParseUnsigned(Trim(BeforeSemicolon(line)), 16, USIZE_LIMIT)
      case None => Err(BadSize)
      case Some(n) => Ok(n)
  }

  predicate Exceeds(n: nat, max: Option<nat>) {
    max.Some? && n > max.value
  }

  /** The decoded body of a whole chunked input, `out` being what was decoded before it. */
  function Dechunk(input: bytes, out: bytes, max: Option<nat>): Result<bytes, Http1Error>
    decreases |input|
  {
    match FindCrlf(input)
    case None => Err(Chunked(NoSizeLine))
    case Some(p) =>
      match ParseSize(input[..p])
      case Err(fault) => Err(Chunked(fault))
      case Ok(size) => if size == 0 then Ok(out) else DechunkData(input[p + 2..], size, out, max)
  }

  function DechunkData(body: bytes, size: nat, out: bytes, max: Option<nat>): Result<bytes, Http1Error>
    decreases |body|
  {
    if size + 2 >= USIZE_LIMIT then Err(Overflow)
    else if |body| < size + 2 then Err(Chunked(EofInBody))
    else if Exceeds(|out| + size, max) then Err(ResponseTooLarge)
    else Dechunk(body[size + 2..], out + body[..size], max)
  }

  /** What is left of an input after its trailer section: past the first blank line, or a line without end. */
  function AfterTrailers(input: bytes): bytes
    decreases |input|
  {
    match FindCrlf(input)
    case None => input
    case Some(p) => if p == 0 then input[2..] else AfterTrailers(input[p + 2..])
  }

  /** What is left of an input after the chunked body it starts with, trailers included. */
  function AfterChunks(input: bytes): bytes
    decreases |input|
  {
    match FindCrlf(input)
    case None => input
    case Some(p) =>
      match ParseSize(input[..p])
      case Err(_) => input
      case Ok(size) => if size == 0 then AfterTrailers(input[p + 2..]) else AfterData(input[p + 2..], size)
  }

  function AfterData(body: bytes, size: nat): bytes
    decreases |body|
  {
    if |body| < size + 2 then body else AfterChunks(body[size + 2..])
  }

  /** The loop that reads until a line is complete. */
  method ReadLine(s: ByteStream, start: bytes) returns (r: Option<nat>, buf: bytes)
    requires s.Valid()
    modifies s`pieces
    ensures s.Valid()
    ensures buf + s.Rest() == start + old(s.Rest())
    ensures r == FindCrlf(start + old(s.Rest())) && (r.Some? ==> FindCrlf(buf) == r)
  {
    hide Position, Joined;
    buf := start;
    while true
      invariant s.Valid()
      invariant buf + s.Rest() == start + old(s.Rest())
      decreases |s.Rest()|
    {
      PositionStable(buf, s.Rest(), CRLF);
      r := FindCrlf(buf);
      if r.Some? {
        return;
      }
      ghost var rest := s.Rest();
      var chunk := s.Read(HEAD_READ);
      if chunk == [] {
        assert buf + rest == buf;
        return;
      }
      assert buf + chunk + s.Rest() == buf + rest;
      buf := buf + chunk;
    }
  }

  lemma TrailerLine(buf: bytes, rest: bytes)
    ensures match FindCrlf(buf)
            case Some(p) => AfterTrailers(buf + rest) ==
                            if p == 0 then buf[2..] + rest else AfterTrailers(buf[p + 2..] + rest)
            case None => rest == [] ==> AfterTrailers(buf + rest) == buf
  {
    PositionStable(buf, rest, CRLF);
    hide Position;
    match FindCrlf(buf)
    case Some(p) => assert (buf + rest)[p + 2..] == buf[p + 2..] + rest;
    case None => assert rest == [] ==> buf + rest == buf;
  }

  /** The loop that consumes trailers up to the blank line, or the end of the stream. */
  method SkipTrailers(s: ByteStream, start: bytes) returns (buf: bytes)
    requires s.Valid()
    modifies s`pieces
    ensures s.Valid()
    ensures buf + s.Rest() == AfterTrailers(start + old(s.Rest()))
  {
    hide AfterTrailers, Position, Joined;
    buf := start;
    while true
      invariant s.Valid()
      invariant AfterTrailers(buf + s.Rest()) == AfterTrailers(start + old(s.Rest()))
      decreases |buf| + |s.Rest()|, |s.Rest()|
    {
      TrailerLine(buf, s.Rest());
      var p := FindCrlf(buf);
      if p.Some? {
        buf := buf[p.value + 2..];
        if p.value == 0 {
          return;
        }
      } else {
        var chunk := s.Read(TRAILER_READ);
        if chunk == [] {
          assert buf + s.Rest() == buf;
          return;
        }
        assert buf + chunk + s.Rest() == buf + (chunk + s.Rest());
        buf := buf + chunk;
      }
    }
  }

  /** The loop that reads until the buffer holds `need` bytes. */
  method FillChunk(s: ByteStream, start: bytes, need: nat) returns (ok: bool, buf: bytes)
    requires s.Valid()
    modifies s`pieces
    ensures s.Valid()
    ensures buf + s.Rest() == start + old(s.Rest())
    ensures ok == (|start + old(s.Rest())| >= need) && (ok ==> |buf| >= need)
  {
    hide Joined;
    buf := start;
    while |buf| < need
      invariant s.Valid()
      invariant buf + s.Rest() == start + old(s.Rest())
      decreases need - |buf|
    {
      var chunk := s.Read(Min(need - |buf|, BODY_READ));
      if chunk == [] {
        assert |buf + s.Rest()| == |buf|;
        return false, buf;
      }
      buf := buf + chunk;
    }
    assert |buf + s.Rest()| >= |buf|;
    ok := true;
  }

  lemma AtSizeLine(buf: bytes, rest: bytes, p: nat, out: bytes, max: Option<nat>)
    requires FindCrlf(buf + rest) == Some(p) && FindCrlf(buf) == Some(p)
    ensures Dechunk(buf + rest, out, max) ==
            match ParseSize(buf[..p])
            case Err(fault) => Err(Chunked(fault))
            case Ok(size) => if size == 0 then Ok(out) else DechunkData(buf[p + 2..] + rest, size, out, max)
    ensures AfterChunks(buf + rest) ==
            match ParseSize(buf[..p])
            case Err(_) => buf + rest
            case Ok(size) => if size == 0 then AfterTrailers(buf[p + 2..] + rest) else AfterData(buf[p + 2..] + rest, size)
  {
    hide AfterTrailers, ParseSize, Position;
    assert (buf + rest)[..p] == buf[..p];
    assert (buf + rest)[p + 2..] == buf[p + 2..] + rest;
  }

  lemma AtChunkData(buf: bytes, rest: bytes, size: nat, out: bytes, max: Option<nat>)
    requires size + 2 < USIZE_LIMIT
    ensures |buf + rest| < size + 2 ==> DechunkData(buf + rest, size, out, max) == Err(Chunked(EofInBody))
    ensures |buf| >= size + 2 ==>
              DechunkData(buf + rest, size, out, max) ==
              if Exceeds(|out| + size, max) then Err(ResponseTooLarge)
              else Dechunk(buf[size + 2..] + rest, out + buf[..size], max)
    ensures |buf| >= size + 2 ==> AfterData(buf + rest, size) == AfterChunks(buf[size + 2..] + rest)
  {
    if |buf| >= size + 2 {
      assert (buf + rest)[..size] == buf[..size];
      assert (buf + rest)[size + 2..] == buf[size + 2..] + rest;
    }
  }

  lemma NoLineNoBody(input: bytes, out: bytes, max: Option<nat>)
    requires FindCrlf(input).None?
    ensures Dechunk(input, out, max) == Err(Chunked(NoSizeLine))
  {
  }

  lemma OverflowingSize(body: bytes, size: nat, out: bytes, max: Option<nat>)
    requires size + 2 >= USIZE_LIMIT
    ensures DechunkData(body, size, out, max) == Err(Overflow)
  {
  }

  /**
   Whatever the fragmentation, the result is that of decoding the prefix and the rest of the stream as one input. A
   whole body is consumed with its trailers: what the decoder drops and what the stream still holds is what follows.
   */
  method ReadChunkedBody(s: ByteStream, prefix: bytes, max: Option<nat>)
    returns (r: Result<bytes, Http1Error>, ghost dropped: bytes)
    requires s.Valid()
    modifies s`pieces
    ensures s.Valid()
    ensures r == Dechunk(prefix + old(s.Rest()), [], max)
    ensures r.Ok? ==> dropped + s.Rest() == AfterChunks(prefix + old(s.Rest()))
  {
    hide Dechunk, DechunkData, AfterChunks, AfterData, AfterTrailers, Position, Joined, ParseSize;
    var buf, out := prefix, [];
    dropped := [];
    while true
      invariant s.Valid()
      invariant AfterChunks(buf + s.Rest()) == AfterChunks(prefix + old(s.Rest()))
      invariant Dechunk(buf + s.Rest(), out, max) == Dechunk(prefix + old(s.Rest()), [], max)
      decreases |buf| + |s.Rest()|
    {
      ghost var before := |buf| + |s.Rest()|;
      var sizeEnd;
      sizeEnd, buf := ReadLine(s, buf);
      if sizeEnd.None? {
        NoLineNoBody(buf + s.Rest(), out, max);
        return Err(Chunked(NoSizeLine)), dropped;
      }
      AtSizeLine(buf, s.Rest(), sizeEnd.value, out, max);
      assert |buf + s.Rest()| == before;
      var parsed := ParseSize(buf[..sizeEnd.value]);
      if parsed.Err? {
        return Err(Chunked(parsed.error)), dropped;
      }
      var size := parsed.value;
      buf := buf[sizeEnd.value + 2..];
      if size == 0 {
        buf := SkipTrailers(s, buf);
        return Ok(out), buf;
      }
      if size + 2 >= USIZE_LIMIT {
        OverflowingSize(buf + s.Rest(), size, out, max);
        return Err(Overflow), dropped;
      }
      AtChunkData(buf, s.Rest(), size, out, max);
      var filled;
      filled, buf := FillChunk(s, buf, size + 2);
      if !filled {
        return Err(Chunked(EofInBody)), dropped;
      }
      AtChunkData(buf, s.Rest(), size, out, max);
      if max.Some? && |out| + size > max.value {
        return Err(ResponseTooLarge), dropped;
      }
      assert |buf + s.Rest()| < before;
      out := out + buf[..size];
      buf := buf[size + 2..];
    }
  }

  // ---- Well-formed chunked input ----

  /** A chunk as a sender writes it: hex digits of its size, an optional extension, and its data. */
  datatype Chunk = Chunk(digits: bytes, extension: bytes, data: bytes)

  function SizeLine(c: Chunk): bytes {
    c.digits + c.extension
  }

  /** Section 7.1 of RFC 9112: the digits spell the size, an extension starts with ';' and holds no CRLF. */
  predicate WellFormed(c: Chunk) {
    && c.digits != [] && Numeral(c.digits, |c.data|, 16)
    && (c.extension == [] || c.extension[0] == SEMICOLON[0])
    && FindCrlf(c.extension).None?
  }

  function ChunkBytes(c: Chunk): bytes {
    SizeLine(c) + CRLF + (c.data + CRLF)
  }

  /** Chunks, then the last chunk's size line and whatever follows it. */
  function Serialized(chunks: seq<Chunk>, last: Chunk, after: bytes): bytes {
    if chunks == [] then SizeLine(last) + CRLF + after
    else ChunkBytes(chunks[0]) + Serialized(chunks[1..], last, after)
  }

  function DataOf(chunks: seq<Chunk>): bytes {
    if chunks == [] then [] else chunks[0].data + DataOf(chunks[1..])
  }

  /** What the decoder asks of a chunk beyond its being well formed. */
  predicate Acceptable(c: Chunk) {
    ValidUtf8(SizeLine(c)) && |c.data| + 2 < 0x1_0000_0000_0000_0000
  }

  lemma {:induction false} HexDigits(s: bytes, i: nat)
    requires DigitsValue(s, 16).Some? && i < |s|
    ensures Digit(s[i], 16).Some?
    decreases |s|
  {
    if i < |s| - 1 {
      HexDigits(s[..|s| - 1], i);
    }
  }

  lemma HexIsNotTrimmed(s: bytes)
    requires s != [] && forall i | 0 <= i < |s| :: Digit(s[i], 16).Some?
    ensures Trim(s) == s && s[0] != 43 && SEMICOLON[0] !in s
  {
    assert LeadingSpace(s) == 0;
    assert TrailingSpace(s) == 0;
  }

  lemma ExtensionIsDropped(c: Chunk)
    requires WellFormed(c) && SEMICOLON[0] !in c.digits
    ensures BeforeSemicolon(SizeLine(c)) == c.digits
  {
    hide Position, DigitsValue;
    var line := SizeLine(c);
    PositionIsFirst(line, SEMICOLON);
    forall q: nat | q < |c.digits|
      ensures !At(line, SEMICOLON, q)
    {
      assert line[q..q + 1][0] == c.digits[q];
    }
    if c.extension == [] {
      assert line == c.digits;
    } else {
      assert line[|c.digits|..|c.digits| + 1] == SEMICOLON;
      PositionUnique(line, SEMICOLON, |c.digits|);
    }
  }

  lemma DigitsStand(c: Chunk)
    requires WellFormed(c)
    ensures Trim(BeforeSemicolon(SizeLine(c))) == c.digits
    ensures c.digits[0] != 43
  {
    NumeralIff(c.digits, |c.data|, 16);
    forall i | 0 <= i < |c.digits|
      ensures Digit(c.digits[i], 16).Some?
    {
      HexDigits(c.digits, i);
    }
    HexIsNotTrimmed(c.digits);
    ExtensionIsDropped(c);
  }

  lemma SizeLineParses(c: Chunk)
    requires WellFormed(c)
    ensures ParseSize(SizeLine(c)) ==
            if !ValidUtf8(SizeLine(c)) then Err(NotUtf8) else if |c.data| < USIZE_LIMIT then Ok(|c.data|) else Err(BadSize)
  {
    DigitsStand(c);
    NumeralIff(c.digits, |c.data|, 16);
  }

  lemma AtCrlf(buf: bytes, q: nat)
    ensures At(buf, CRLF, q) <==> q + 1 < |buf| && buf[q] == CR && buf[q + 1] == LF
  {
    if q + 1 < |buf| {
      assert buf[q..q + 2] == [buf[q], buf[q + 1]];
    }
  }

  /** No CRLF starts inside a size line, not even at its last byte. */
  lemma NoCrlfInSizeLine(c: Chunk, more: bytes, q: nat)
    requires WellFormed(c) && q < |SizeLine(c)|
    ensures !At(SizeLine(c) + CRLF + more, CRLF, q)
  {
    hide Position, DigitsValue, At;
    var input := SizeLine(c) + CRLF + more;
    AtCrlf(input, q);
    if q < |c.digits| {
      NumeralIff(c.digits, |c.data|, 16);
      HexDigits(c.digits, q);
      assert input[q] == c.digits[q];
    } else {
      var k := q - |c.digits|;
      PositionIsFirst(c.extension, CRLF);
      AtCrlf(c.extension, k);
      assert input[q] == c.extension[k];
      assert input[q + 1] == if k + 1 < |c.extension| then c.extension[k + 1] else CR;
    }
  }

  lemma SizeLineEnds(c: Chunk, more: bytes)
    requires WellFormed(c)
    ensures FindCrlf(SizeLine(c) + CRLF + more) == Some(|SizeLine(c)|)
  {
    hide SizeLine, WellFormed, Position, At;
    var line := SizeLine(c);
    forall q: nat | q < |line|
      ensures !At(line + CRLF + more, CRLF, q)
    {
      NoCrlfInSizeLine(c, more, q);
    }
    AtCrlf(line + CRLF + more, |line|);
    PositionUnique(line + CRLF + more, CRLF, |line|);
  }

  /** The decoder reads a size line and goes on to the data. */
  lemma SizeLineRead(c: Chunk, tail: bytes, out: bytes, max: Option<nat>)
    requires WellFormed(c) && c.data != []
    ensures Dechunk(SizeLine(c) + CRLF + tail, out, max) ==
            if !ValidUtf8(SizeLine(c)) then Err(Chunked(NotUtf8))
            else if |c.data| < USIZE_LIMIT then DechunkData(tail, |c.data|, out, max)
            else Err(Chunked(BadSize))
    ensures Acceptable(c) ==> AfterChunks(SizeLine(c) + CRLF + tail) == AfterData(tail, |c.data|)
  {
    hide Dechunk, DechunkData, AfterChunks, AfterData, WellFormed, SizeLine, Position, ParseSize, DigitsValue, ValidUtf8;
    var line := SizeLine(c);
    SizeLineEnds(c, tail);
    SizeLineEnds(c, []);
    assert line + CRLF + [] == line + CRLF;
    assert (line + CRLF)[..|line|] == line && (line + CRLF)[|line| + 2..] + tail == tail;
    AtSizeLine(line + CRLF, tail, |line|, out, max);
    SizeLineParses(c);
  }

  /** The decoder reads a chunk's data and its CRLF. */
  lemma ChunkDataRead(data: bytes, more: bytes, out: bytes, max: Option<nat>)
    requires |data| + 2 < USIZE_LIMIT
    ensures DechunkData(data + CRLF + more, |data|, out, max) ==
            if Exceeds(|out| + |data|, max) then Err(ResponseTooLarge) else Dechunk(more, out + data, max)
    ensures AfterData(data + CRLF + more, |data|) == AfterChunks(more)
  {
    hide Dechunk, DechunkData, AfterChunks, AfterData;
    AtChunkData(data + CRLF, more, |data|, out, max);
    assert (data + CRLF)[..|data|] == data && (data + CRLF)[|data| + 2..] + more == more;
  }

  lemma ChunkInFront(c: Chunk, more: bytes)
    ensures ChunkBytes(c) + more == SizeLine(c) + CRLF + (c.data + CRLF + more)
  {
    hide SizeLine;
  }

  /** One well-formed chunk in front of more input. */
  lemma OneChunk(c: Chunk, more: bytes, out: bytes, max: Option<nat>)
    requires WellFormed(c) && c.data != []
    ensures var r := Dechunk(ChunkBytes(c) + more, out, max);
            if Acceptable(c) && !Exceeds(|out| + |c.data|, max) then r == Dechunk(more, out + c.data, max) else r.Err?
  {
    hide Dechunk, DechunkData, WellFormed, SizeLine, ChunkBytes, ValidUtf8;
    ChunkInFront(c, more);
    SizeLineRead(c, c.data + CRLF + more, out, max);
    if |c.data| + 2 >= USIZE_LIMIT {
      OverflowingSize(c.data + CRLF + more, |c.data|, out, max);
    } else {
      ChunkDataRead(c.data, more, out, max);
    }
  }

  lemma LastChunk(last: Chunk, after: bytes, out: bytes, max: Option<nat>)
    requires WellFormed(last) && last.data == []
    ensures Dechunk(SizeLine(last) + CRLF + after, out, max) == Ok(out) <==> Acceptable(last)
  {
    SizeLineEnds(last, after);
    SizeLineParses(last);
    var input := SizeLine(last) + CRLF + after;
    assert input[..|SizeLine(last)|] == SizeLine(last);
  }

  /**
   For well-formed chunks and a last chunk, followed by any trailers, the decoder returns exactly the data end to end
   if and only if every size line is UTF-8, no size overflows, and the data fits the limit.
   */
  lemma {:induction false} ChunkedRoundTrip(chunks: seq<Chunk>, last: Chunk, after: bytes, out: bytes, max: Option<nat>)
    requires forall c | c in chunks :: WellFormed(c) && c.data != []
    requires WellFormed(last) && last.data == []
    ensures Dechunk(Serialized(chunks, last, after), out, max) == Ok(out + DataOf(chunks)) <==>
            && (forall c | c in chunks :: Acceptable(c)) && Acceptable(last)
            && (chunks != [] ==> !Exceeds(|out + DataOf(chunks)|, max))
    decreases |chunks|
  {
    hide Dechunk, ValidUtf8, DigitsValue, Position;
    if chunks == [] {
      LastChunk(last, after, out, max);
      assert out + DataOf(chunks) == out;
    } else {
      var c, more := chunks[0], Serialized(chunks[1..], last, after);
      OneChunk(c, more, out, max);
      ChunkedRoundTrip(chunks[1..], last, after, out + c.data, max);
      assert out + c.data + DataOf(chunks[1..]) == out + DataOf(chunks);
    }
  }

  /** A line without CRLF ends at the one written after it. */
  lemma LineEnds(line: bytes, more: bytes)
    requires FindCrlf(line).None?
    ensures FindCrlf(line + CRLF + more) == Some(|line|)
  {
    hide Position, At;
    var input := line + CRLF + more;
    PositionIsFirst(line, CRLF);
    forall q: nat | q < |line|
      ensures !At(input, CRLF, q)
    {
      AtCrlf(input, q);
      AtCrlf(line, q);
      assert input[q] == line[q] && input[q + 1] == if q + 1 < |line| then line[q + 1] else CR;
    }
    AtCrlf(input, |line|);
    PositionUnique(input, CRLF, |line|);
  }

  /** A trailer section: its lines, and the blank line that ends it. */
  function TrailerBytes(trailers: seq<bytes>): bytes {
    if trailers == [] then CRLF else trailers[0] + CRLF + TrailerBytes(trailers[1..])
  }

  lemma TrailerSkipped(line: bytes, more: bytes)
    requires line != [] && FindCrlf(line).None?
    ensures AfterTrailers(line + CRLF + more) == AfterTrailers(more)
  {
    hide FindCrlf;
    LineEnds(line, more);
    assert (line + CRLF + more)[|line| + 2..] == more;
  }

  lemma BlankLineSkipped(next: bytes)
    ensures AfterTrailers(CRLF + next) == next
  {
    LineEnds([], next);
    hide FindCrlf;
    assert [] + CRLF + next == CRLF + next && (CRLF + next)[2..] == next;
  }

  lemma TrailerInFront(trailers: seq<bytes>, next: bytes)
    requires trailers != []
    ensures TrailerBytes(trailers) + next == trailers[0] + CRLF + (TrailerBytes(trailers[1..]) + next)
  {
  }

  lemma {:induction false} TrailersEnd(trailers: seq<bytes>, next: bytes)
    requires forall l | l in trailers :: l != [] && FindCrlf(l).None?
    ensures AfterTrailers(TrailerBytes(trailers) + next) == next
    decreases |trailers|
  {
    hide FindCrlf, AfterTrailers;
    if trailers == [] {
      BlankLineSkipped(next);
    } else {
      hide TrailerBytes;
      assert trailers[0] in trailers && forall l | l in trailers[1..] :: l in trailers;
      TrailerInFront(trailers, next);
      TrailerSkipped(trailers[0], TrailerBytes(trailers[1..]) + next);
      TrailersEnd(trailers[1..], next);
    }
  }

  lemma OneChunkLeaves(c: Chunk, more: bytes)
    requires WellFormed(c) && c.data != [] && Acceptable(c)
    ensures AfterChunks(ChunkBytes(c) + more) == AfterChunks(more)
  {
    hide AfterChunks, AfterData, WellFormed, SizeLine, ChunkBytes, ValidUtf8;
    ChunkInFront(c, more);
    SizeLineRead(c, c.data + CRLF + more, [], None);
    ChunkDataRead(c.data, more, [], None);
  }

  /** A whole chunked body, its trailers and its blank line are consumed, and nothing after them. */
  lemma {:induction false} ChunksLeaveTheRest(chunks: seq<Chunk>, last: Chunk, trailers: seq<bytes>, next: bytes)
    requires forall c | c in chunks :: WellFormed(c) && c.data != [] && Acceptable(c)
    requires WellFormed(last) && last.data == [] && Acceptable(last)
    requires forall l | l in trailers :: l != [] && FindCrlf(l).None?
    ensures AfterChunks(Serialized(chunks, last, TrailerBytes(trailers) + next)) == next
    decreases |chunks|
  {
    hide AfterChunks, AfterData, AfterTrailers, Position, ParseSize, ValidUtf8, DigitsValue;
    var after := TrailerBytes(trailers) + next;
    if chunks == [] {
      var line := SizeLine(last);
      SizeLineEnds(last, after);
      SizeLineEnds(last, []);
      SizeLineParses(last);
      assert line + CRLF + [] == line + CRLF;
      assert (line + CRLF)[..|line|] == line && (line + CRLF)[|line| + 2..] + after == after;
      AtSizeLine(line + CRLF, after, |line|, [], None);
      TrailersEnd(trailers, next);
    } else {
      OneChunkLeaves(chunks[0], Serialized(chunks[1..], last, after));
      ChunksLeaveTheRest(chunks[1..], last, trailers, next);
    }
  }

  lemma CutInLine(c: Chunk, more: bytes, input: bytes, out: bytes, max: Option<nat>)
    requires WellFormed(c) && input <= SizeLine(c) + CRLF + more && |input| < |SizeLine(c)| + 2
    ensures Dechunk(input, out, max) == Err(Chunked(NoSizeLine))
  {
    hide WellFormed, SizeLine, Position;
    var whole := SizeLine(c) + CRLF + more;
    SizeLineEnds(c, more);
    PositionStable(input, whole[|input|..], CRLF);
    assert input + whole[|input|..] == whole;
  }

  lemma CutInData(c: Chunk, input: bytes, out: bytes, max: Option<nat>)
    requires WellFormed(c) && c.data != [] && input < ChunkBytes(c) && |input| >= |SizeLine(c)| + 2
    ensures Dechunk(input, out, max).Err?
  {
    hide WellFormed, SizeLine, Dechunk, DechunkData, ValidUtf8;
    var line := SizeLine(c);
    var data := input[|line| + 2..];
    assert input[..|line| + 2] == line + CRLF && input == line + CRLF + data;
    SizeLineRead(c, data, out, max);
    if |c.data| + 2 >= USIZE_LIMIT {
      OverflowingSize(data, |c.data|, out, max);
    } else {
      AtChunkData([], data, |c.data|, out, max);
      assert [] + data == data;
    }
  }

  /** A chunked body cut off anywhere before the end of its last size line is never taken for a whole one. */
  lemma {:induction false} CutBodiesFail(chunks: seq<Chunk>, last: Chunk, input: bytes, out: bytes, max: Option<nat>)
    requires forall c | c in chunks :: WellFormed(c) && c.data != []
    requires WellFormed(last) && last.data == [] && input < Serialized(chunks, last, [])
    ensures Dechunk(input, out, max).Err?
    decreases |chunks|
  {
    hide Dechunk, Position, WellFormed, SizeLine, Acceptable;
    if chunks == [] {
      CutInLine(last, [], input, out, max);
    } else {
      var c, more := chunks[0], Serialized(chunks[1..], last, []);
      assert c in chunks;
      if |input| < |SizeLine(c)| + 2 {
        assert ChunkBytes(c) + more == SizeLine(c) + CRLF + ((c.data + CRLF) + more);
        CutInLine(c, (c.data + CRLF) + more, input, out, max);
      } else if |input| < |ChunkBytes(c)| {
        assert ChunkBytes(c) == (ChunkBytes(c) + more)[..|ChunkBytes(c)|];
        CutInData(c, input, out, max);
      } else {
        var left := input[|ChunkBytes(c)|..];
        assert input == ChunkBytes(c) + left && left < more;
        OneChunk(c, left, out, max);
        CutBodiesFail(chunks[1..], last, left, out + c.data, max);
      }
    }
  }

  // ---- Bodies ----

  /** `HeaderValue::to_str().unwrap_or("")`. */
  function ToStr(value: bytes): bytes {
    if forall b | b in value :: b == 9 || 32 <= b < 127 then value else []
  }

  function ToLower(s: bytes): bytes {
    seq(|s|, i requires 0 <= i < |s| => LowerByte(s[i]))
  }

  /** A body of exactly `n` bytes out of `input`. */
  function ExactBody(input: bytes, n: nat): Result<bytes, Http1Error> {
    if |input| < n then Err(ParseHeaders) else Ok(input[..n])
  }

  /** A body that ends with the stream; only what is read is checked against the limit, the prefix is not. */
  function ClosedBody(prefix: bytes, rest: bytes, max: Option<nat>): Result<bytes, Http1Error> {
    if rest != [] && Exceeds(|prefix + rest|, max) then Err(ResponseTooLarge) else Ok(prefix + rest)
  }

  /** What `read_body` returns for the first `transfer-encoding` and `content-length` header values. */
  function BodyOf(te: Option<bytes>, cl: Option<bytes>, prefix: bytes, rest: bytes, max: Option<nat>)
    : Result<bytes, Http1Error>
  {
    if te.Some? then
      var value := ToLower(ToStr(te.value));
      if Position(value, Ascii("chunked")).Some? then Dechunk(prefix + rest, [], max)
      else Err(UnsupportedTransferEncoding(value))
    else if cl.Some? then
      match ParseUnsigned(ToStr(cl.value), 10, U64_LIMIT)
      case None => Err(BadContentLength)
      case Some(n) => if Exceeds(n, max) then Err(ResponseTooLarge) else ExactBody(prefix + rest, n)
    else ClosedBody(prefix, rest, max)
  }

  /** Printable ASCII, blanks and tabs. */
  predicate Readable(value: bytes) {
    forall b | b in value :: b == '\t' as int || ' ' as int <= b <= '~' as int
  }

  predicate SpelledAt(value: bytes, word: bytes, p: nat) {
    p + |word| <= |value| && forall i | 0 <= i < |word| :: SameLetter(value[p + i], word[i])
  }

  /** `word` occurs in `value`, in any case. */
  ghost predicate Mentions(value: bytes, word: bytes) {
    exists p: nat :: SpelledAt(value, word, p)
  }

  lemma LowerAt(value: bytes, word: bytes, p: nat)
    requires forall i | 0 <= i < |word| :: LowerByte(word[i]) == word[i]
    ensures At(ToLower(value), word, p) <==> SpelledAt(value, word, p)
  {
    hide LowerByte, SameLetter;
    if p + |word| <= |value| {
      var part := ToLower(value)[p..p + |word|];
      forall i | 0 <= i < |word|
        ensures part[i] == word[i] <==> SameLetter(value[p + i], word[i])
      {
        assert part[i] == LowerByte(value[p + i]);
        LowerIff(value[p + i], word[i]);
      }
    }
  }

  lemma ChunkedIsSmall()
    ensures forall i | 0 <= i < |Ascii("chunked")| :: LowerByte(Ascii("chunked")[i]) == Ascii("chunked")[i]
  {
  }

  lemma MentionsIff(value: bytes)
    ensures Position(ToLower(value), Ascii("chunked")).Some? <==> Mentions(value, Ascii("chunked"))
  {
    ChunkedIsSmall();
    var word := Ascii("chunked");
    PositionIsFirst(ToLower(value), word);
    hide Position, ToLower, Ascii, At, LowerByte, SpelledAt;
    forall p: nat
      ensures At(ToLower(value), word, p) <==> SpelledAt(value, word, p)
    {
      LowerAt(value, word, p);
    }
  }

  lemma NothingMentioned()
    ensures !Mentions([], Ascii("chunked")) && ToLower([]) == []
  {
    assert |Ascii("chunked")| == 7;
  }

  lemma ReadableIff(value: bytes)
    ensures ToStr(value) == if Readable(value) then value else []
  {
  }

  /**
   Which framing a body has: chunked if the transfer encoding mentions it, in any case; else as long as a readable
   Content-Length says, up to the limit; else up to the end of the stream.
   */
  lemma FramingRule(te: Option<bytes>, cl: Option<bytes>, prefix: bytes, rest: bytes, max: Option<nat>)
    ensures te.Some? && Readable(te.value) ==>
              BodyOf(te, cl, prefix, rest, max) ==
              if Mentions(te.value, Ascii("chunked")) then Dechunk(prefix + rest, [], max)
              else Err(UnsupportedTransferEncoding(ToLower(te.value)))
    ensures te.Some? && !Readable(te.value) ==> BodyOf(te, cl, prefix, rest, max) == Err(UnsupportedTransferEncoding([]))
    ensures te.None? && cl.Some? ==>
              BodyOf(te, cl, prefix, rest, max) ==
              match ParseUnsigned(if Readable(cl.value) then cl.value else [], 10, 0x1_0000_0000_0000_0000)
              case None => Err(BadContentLength)
              case Some(n) =>
                if max.Some? && n > max.value then Err(ResponseTooLarge)
                else if |prefix + rest| < n then Err(ParseHeaders)
                else Ok((prefix + rest)[..n])
    ensures te.None? && cl.None? ==>
              BodyOf(te, cl, prefix, rest, max) ==
              if rest != [] && max.Some? && |prefix + rest| > max.value then Err(ResponseTooLarge) else Ok(prefix + rest)
  {
    if te.Some? {
      ReadableIff(te.value);
      MentionsIff(ToStr(te.value));
      hide Mentions, ToStr, Position, Ascii, Dechunk, ToLower;
      if !Readable(te.value) {
        NothingMentioned();
      }
    } else if cl.Some? {
      ReadableIff(cl.value);
      hide ToStr, Position, Dechunk, ParseUnsigned;
    }
  }

  /** Returns the body and reads nothing past it: the stream is left where the body ends. */
  method ReadExactBody(s: ByteStream, prefix: bytes, n: nat) returns (r: Result<bytes, Http1Error>)
    requires s.Valid()
    modifies s`pieces
    ensures s.Valid()
    ensures r == ExactBody(prefix + old(s.Rest()), n)
    ensures r.Ok? && |prefix| <= n ==> r.value + s.Rest() == prefix + old(s.Rest())
    ensures |prefix| > n ==> s.Rest() == old(s.Rest())
  {
    var out := prefix[..Min(|prefix|, n)];
    if |prefix| >= n {
      assert (prefix + s.Rest())[..n] == out;
    }
    while |out| < n
      invariant s.Valid() && |out| <= n
      invariant |prefix| < n ==> out + s.Rest() == prefix + old(s.Rest())
      invariant |prefix| >= n ==> |out| == n && out == (prefix + old(s.Rest()))[..n] && s.Rest() == old(s.Rest())
      decreases n - |out|
    {
      var chunk := s.Read(Min(n - |out|, BODY_READ));
      if chunk == [] {
        assert out + s.Rest() == out;
        return Err(ParseHeaders);
      }
      out := out + chunk;
    }
    assert |prefix| < n ==> (out + s.Rest())[..n] == out;
    assert |prefix| == n ==> out == prefix;
    return Ok(out);
  }

  method ReadClosedBody(s: ByteStream, prefix: bytes, max: Option<nat>) returns (r: Result<bytes, Http1Error>)
    requires s.Valid()
    modifies s`pieces
    ensures s.Valid()
    ensures r == ClosedBody(prefix, old(s.Rest()), max)
  {
    var out := prefix;
    ghost var all := prefix + s.Rest();
    while true
      invariant s.Valid()
      invariant out + s.Rest() == all
      invariant out == prefix || !Exceeds(|out|, max)
      decreases |s.Rest()|
    {
      var chunk := s.Read(BODY_READ);
      if chunk == [] {
        assert out + s.Rest() == out;
        return Ok(out);
      }
      assert |out + (chunk + s.Rest())| >= |out| + |chunk|;
      if max.Some? && |out| + |chunk| > max.value {
        return Err(ResponseTooLarge);
      }
      out := out + chunk;
    }
  }

  method ReadBody(s: ByteStream, te: Option<bytes>, cl: Option<bytes>, prefix: bytes, max: Option<nat>)
    returns (r: Result<bytes, Http1Error>)
    requires s.Valid()
    modifies s`pieces
    ensures s.Valid()
    ensures r == BodyOf(te, cl, prefix, old(s.Rest()), max)
  {
    if te.Some? {
      var value := ToLower(ToStr(te.value));
      if Position(value, Ascii("chunked")).Some? {
        ghost var dropped;
        r, dropped := ReadChunkedBody(s, prefix, max);
        return;
      }
      return Err(UnsupportedTransferEncoding(value));
    }
    if cl.Some? {
      var n := ParseUnsigned(ToStr(cl.value), 10, U64_LIMIT);
      if n.None? {
        return Err(BadContentLength);
      }
      if max.Some? && n.value > max.value {
        return Err(ResponseTooLarge);
      }
      r := ReadExactBody(s, prefix, n.value);
      return;
    }
    r := ReadClosedBody(s, prefix, max);
  }

  lemma {:induction false} DechunkedFits(input: bytes, out: bytes, max: Option<nat>)
    requires !Exceeds(|out|, max)
    ensures Dechunk(input, out, max).Ok? ==> !Exceeds(|Dechunk(input, out, max).value|, max)
    decreases |input|
  {
    hide Position, ParseSize;
    if FindCrlf(input).Some? && ParseSize(input[..FindCrlf(input).value]).Ok? {
      var size, body := ParseSize(input[..FindCrlf(input).value]).value, input[FindCrlf(input).value + 2..];
      if size != 0 && |body| >= size + 2 && !Exceeds(|out| + size, max) {
        DechunkedFits(body[size + 2..], out + body[..size], max);
      }
    }
  }

  /**
   A returned body respects the limit: it is within it when chunked, exactly the declared length and within it under
   Content-Length, and at most the larger of the limit and the prefix when it ends with the stream.
   */
  lemma BodiesStayInBounds(te: Option<bytes>, cl: Option<bytes>, prefix: bytes, rest: bytes, max: nat)
    requires BodyOf(te, cl, prefix, rest, Some(max)).Ok?
    ensures var body := BodyOf(te, cl, prefix, rest, Some(max)).value;
            && (te.Some? ==> |body| <= max)
            && (te.None? && cl.Some? ==> ParseUnsigned(ToStr(cl.value), 10, U64_LIMIT) == Some(|body|) && |body| <= max)
            && (te.None? && cl.None? ==> |body| <= max || body == prefix)
  {
    if te.Some? {
      DechunkedFits(prefix + rest, [], Some(max));
    } else if cl.None? && rest == [] {
      assert prefix + rest == prefix;
    }
  }

  /**
   The body does not depend on how its bytes split between the bytes already read and the stream, unless it ends with
   the stream, exceeds the limit, and exactly one of the two splits leaves nothing to read.
   */
  lemma BodyIgnoresTheSplit(te: Option<bytes>, cl: Option<bytes>, prefix: bytes, rest: bytes, prefix': bytes, rest': bytes,
                            max: Option<nat>)
    requires prefix + rest == prefix' + rest'
    ensures BodyOf(te, cl, prefix, rest, max) == BodyOf(te, cl, prefix', rest', max) <==>
            !(te.None? && cl.None? && Exceeds(|prefix + rest|, max) && (rest == []) != (rest' == []))
  {
  }

  // ---- Requests ----

  /** A header as the header map holds it; names are lower-case there. */
  datatype Header = Header(name: bytes, value: bytes)

  datatype Request = Request(verb: bytes, path: bytes, headers: seq<Header>, body: bytes)

  predicate HasHeader(headers: seq<Header>, name: bytes) {
    exists i | 0 <= i < |headers| :: headers[i].name == name
  }

  predicate AddsLength(req: Request) {
    req.body != [] && !HasHeader(req.headers, Ascii("content-length")) && !HasHeader(req.headers, Ascii("transfer-encoding"))
  }

  function HeaderLine(h: Header): bytes {
    h.name + Ascii(": ") + h.value
  }

  function HeaderLines(headers: seq<Header>): seq<bytes> {
    if headers == [] then [] else HeaderLines(headers[..|headers| - 1]) + [HeaderLine(headers[|headers| - 1])]
  }

  function RequestLine(req: Request): bytes {
    req.verb + Ascii(" ") + req.path + Ascii(" HTTP/1.1")
  }

  function LengthLine(req: Request): seq<bytes> {
    if AddsLength(req) then [Ascii("Content-Length: ") + Decimal(|req.body|)] else []
  }

  /** The lines of the head, without their CRLFs. */
  function HeadLines(req: Request): seq<bytes> {
    [RequestLine(req)] + HeaderLines(req.headers) + LengthLine(req)
  }

  function Lines(lines: seq<bytes>): bytes {
    if lines == [] then [] else Lines(lines[..|lines| - 1]) + (lines[|lines| - 1] + CRLF)
  }

  function Head(req: Request): bytes {
    Lines(HeadLines(req)) + CRLF
  }

  lemma LinesSnoc(lines: seq<bytes>, line: bytes)
    ensures Lines(lines + [line]) == Lines(lines) + (line + CRLF)
  {
    assert (lines + [line])[..|lines|] == lines;
  }

  lemma HeaderPushed(req: Request, lines: seq<bytes>, i: nat)
    requires i < |req.headers| && lines == [RequestLine(req)] + HeaderLines(req.headers[..i])
    ensures var h := req.headers[i];
            && lines + [HeaderLine(h)] == [RequestLine(req)] + HeaderLines(req.headers[..i + 1])
            && Lines(lines + [HeaderLine(h)]) == Lines(lines) + h.name + Ascii(": ") + h.value + CRLF
  {
    var front := req.headers[..i + 1];
    assert front[..|front| - 1] == req.headers[..i];
    LinesSnoc(lines, HeaderLine(req.headers[i]));
  }

  lemma FirstLinePushed(req: Request)
    ensures req.verb + [32] + req.path + Ascii(" HTTP/1.1") + CRLF == Lines([RequestLine(req)])
    ensures [RequestLine(req)] == [RequestLine(req)] + HeaderLines(req.headers[..0])
  {
    LinesSnoc([], RequestLine(req));
    assert [] + [RequestLine(req)] == [RequestLine(req)];
    assert Lines([]) + (RequestLine(req) + CRLF) == RequestLine(req) + CRLF;
  }

  method EncodeRequest(req: Request) returns (out: bytes)
    ensures out == Head(req) + req.body
  {
    hide Lines, HeaderLines, Decimal, RequestLine, HasHeader;
    FirstLinePushed(req);
    out := req.verb;
    out := out + [32];
    out := out + req.path;
    out := out + Ascii(" HTTP/1.1");
    out := out + CRLF;
    ghost var lines := [RequestLine(req)];
    for i := 0 to |req.headers|
      invariant lines == [RequestLine(req)] + HeaderLines(req.headers[..i])
      invariant out == Lines(lines)
    {
      var h := req.headers[i];
      HeaderPushed(req, lines, i);
      out := out + h.name;
      out := out + Ascii(": ");
      out := out + h.value;
      out := out + CRLF;
      lines := lines + [HeaderLine(h)];
    }
    assert req.headers[..|req.headers|] == req.headers;
    var hasLength := HasHeader(req.headers, Ascii("content-length"));
    var hasEncoding := HasHeader(req.headers, Ascii("transfer-encoding"));
    if req.body != [] && !hasLength && !hasEncoding {
      var length := Decimal(|req.body|);
      LinesSnoc(lines, Ascii("Content-Length: ") + length);
      out := out + (Ascii("Content-Length: ") + length + CRLF);
    } else {
      assert lines + [] == lines;
    }
    out := out + CRLF;
    if req.body != [] {
      out := out + req.body;
    }
  }

  predicate OneLine(s: bytes) {
    forall b | b in s :: b != CR && b != LF
  }

  lemma AppendLine(text: bytes, line: bytes, ended: bool)
    requires line != [] && OneLine(line)
    requires forall q | 0 <= q < |text| - 2 :: text[q] == CR ==> text[q + 2] != CR
    requires if ended then |text| >= 2 && text[|text| - 2] == CR && text[|text| - 1] == LF else text == []
    ensures var more := text + (line + CRLF);
            forall q | 0 <= q < |more| - 2 :: more[q] == CR ==> more[q + 2] != CR
  {
    var more := text + (line + CRLF);
    forall q | 0 <= q < |more| - 2 && more[q] == CR
      ensures more[q + 2] != CR
    {
      assert forall k | |text| <= k < |more| - 2 :: more[k] == line[k - |text|] && line[k - |text|] in line;
    }
  }

  /** In a list of non-empty lines, no CR is two places before another, and the text ends with CRLF. */
  lemma {:induction false} LinesHaveNoBlank(lines: seq<bytes>)
    requires forall l | l in lines :: l != [] && OneLine(l)
    ensures var text := Lines(lines);
            && (forall q | 0 <= q < |text| - 2 :: text[q] == CR ==> text[q + 2] != CR)
            && (lines != [] ==> |text| >= 2 && text[|text| - 2] == CR && text[|text| - 1] == LF)
            && (lines == [] ==> text == [])
    decreases |lines|
  {
    if lines != [] {
      var front, line := lines[..|lines| - 1], lines[|lines| - 1];
      assert line in lines && forall l | l in front :: l in lines;
      LinesHaveNoBlank(front);
      AppendLine(Lines(front), line, front != []);
    }
  }

  /** Text whose carriage returns are never two apart, before a blank line. */
  predicate Spaced(text: bytes) {
    && |text| >= 2 && text[|text| - 2] == CR && text[|text| - 1] == LF
    && forall q | 0 <= q < |text| - 2 :: text[q] == CR ==> text[q + 2] != CR
  }

  lemma NoBlankInside(text: bytes, body: bytes, q: nat)
    requires Spaced(text) && q < |text| - 2
    ensures !At(text + CRLF + body, CRLFCRLF, q)
  {
    var input := text + CRLF + body;
    assert input[q] == text[q] && input[q + 2] == text[q + 2];
    assert |input| >= q + 4;
    assert input[q..q + 4][0] == input[q] && input[q..q + 4][2] == input[q + 2];
    assert CRLFCRLF[0] == CR && CRLFCRLF[2] == CR;
  }

  lemma BlankAtEnd(text: bytes, body: bytes)
    requires Spaced(text)
    ensures At(text + CRLF + body, CRLFCRLF, |text| - 2)
  {
    var input, k := text + CRLF + body, |text| - 2;
    assert input[k] == CR && input[k + 1] == LF && input[k + 2] == CR && input[k + 3] == LF;
    assert input[k..k + 4] == [input[k], input[k + 1], input[k + 2], input[k + 3]];
  }

  lemma BlankLineFound(text: bytes, body: bytes)
    requires Spaced(text)
    ensures FindHeadersEnd(text + CRLF + body) == Some(|text + CRLF|)
  {
    BlankAtEnd(text, body);
    hide Position, At;
    forall q: nat | q < |text| - 2
      ensures !At(text + CRLF + body, CRLFCRLF, q)
    {
      NoBlankInside(text, body, q);
    }
    PositionUnique(text + CRLF + body, CRLFCRLF, |text| - 2);
  }

  /** The first blank line of a head is its last line break. */
  lemma HeadEndsAtBlankLine(lines: seq<bytes>, body: bytes)
    requires lines != [] && forall l | l in lines :: l != [] && OneLine(l)
    ensures FindHeadersEnd(Lines(lines) + CRLF + body) == Some(|Lines(lines) + CRLF|)
  {
    hide Lines, FindHeadersEnd;
    LinesHaveNoBlank(lines);
    BlankLineFound(Lines(lines), body);
  }

  predicate CleanRequest(req: Request) {
    OneLine(req.verb) && OneLine(req.path) && forall h | h in req.headers :: OneLine(h.name) && OneLine(h.value)
  }

  lemma {:induction false} HeaderLinesAreClean(headers: seq<Header>)
    requires forall h | h in headers :: OneLine(h.name) && OneLine(h.value)
    ensures forall l | l in HeaderLines(headers) :: l != [] && OneLine(l)
    decreases |headers|
  {
    if headers != [] {
      var front, h := headers[..|headers| - 1], headers[|headers| - 1];
      assert h in headers && forall x | x in front :: x in headers;
      HeaderLinesAreClean(front);
      assert HeaderLine(h)[|h.name|] == 58;
    }
  }

  lemma RequestLineIsClean(req: Request)
    requires OneLine(req.verb) && OneLine(req.path)
    ensures RequestLine(req) != [] && OneLine(RequestLine(req))
  {
    assert RequestLine(req)[|req.verb|] == 32;
  }

  lemma JoinedLine(a: bytes, b: bytes)
    requires a != [] && OneLine(a) && forall x | x in b :: 48 <= x <= 57
    ensures a + b != [] && OneLine(a + b)
  {
  }

  lemma LengthLineIsClean(req: Request)
    ensures forall l | l in LengthLine(req) :: l != [] && OneLine(l)
  {
    hide Decimal, DigitsValue;
    DecimalParses(|req.body|);
    var name := Ascii("Content-Length: ");
    assert OneLine(name);
    hide Ascii;
    JoinedLine(name, Decimal(|req.body|));
  }

  lemma HeadLinesAreClean(req: Request)
    requires CleanRequest(req)
    ensures HeadLines(req) != [] && forall l | l in HeadLines(req) :: l != [] && OneLine(l)
  {
    HeaderLinesAreClean(req.headers);
    RequestLineIsClean(req);
    LengthLineIsClean(req);
    hide HeaderLines, RequestLine, LengthLine, OneLine;
    assert forall l | l in HeadLines(req) :: l == RequestLine(req) || l in HeaderLines(req.headers) || l in LengthLine(req);
  }

  lemma LengthIsLast(req: Request)
    ensures AddsLength(req) && |req.body| < U64_LIMIT ==>
              && HeadLines(req)[|HeadLines(req)| - 1] == Ascii("Content-Length: ") + Decimal(|req.body|)
              && ParseUnsigned(Decimal(|req.body|), 10, U64_LIMIT) == Some(|req.body|)
  {
    hide Decimal, HeaderLines, ParseUnsigned;
    if |req.body| < U64_LIMIT {
      DecimalReads(|req.body|, U64_LIMIT);
    }
  }

  /**
   When no part of a request holds CR or LF, the first blank line of its encoding ends the head and everything after it
   is the body; a Content-Length the encoder adds is the head's last line and parses back to the body's length.
   */
  lemma RequestsSplitBack(req: Request)
    requires CleanRequest(req)
    ensures var wire := Head(req) + req.body;
            && FindHeadersEnd(wire) == Some(|Head(req)|)
            && wire[|Head(req)|..] == req.body
    ensures AddsLength(req) && |req.body| < U64_LIMIT ==>
              && HeadLines(req)[|HeadLines(req)| - 1] == Ascii("Content-Length: ") + Decimal(|req.body|)
              && ParseUnsigned(Decimal(|req.body|), 10, U64_LIMIT) == Some(|req.body|)
  {
    HeadLinesAreClean(req);
    LengthIsLast(req);
    hide Lines, HeaderLines, Decimal, HeadLines, DigitsValue;
    HeadEndsAtBlankLine(HeadLines(req), req.body);
  }

  // ---- Reading a request back ----

  /** Where the line that ends at `k` starts. */
  function LineStart(text: bytes, k: nat): (start: nat)
    requires k <= |text|
    ensures start <= k
  {
    if k == 0 || (k >= 2 && text[k - 2..k] == CRLF) then k else LineStart(text, k - 1)
  }

  /** The last line of a head, without the blank line after it. */
  function LastLine(head: bytes): bytes {
    if |head| < 4 then [] else head[LineStart(head, |head| - 4)..|head| - 4]
  }

  /** The value of a Content-Length line. */
  function AnnouncedLength(line: bytes): Option<nat> {
    var name := Ascii("Content-Length: ");
    if name <= line then ParseUnsigned(line[|name|..], 10, U64_LIMIT) else None
  }

  lemma {:induction false} LineStartsAfter(front: bytes, line: bytes, more: bytes, k: nat)
    requires OneLine(line) && k <= |line|
    requires front == [] || (|front| >= 2 && front[|front| - 2..] == CRLF)
    ensures LineStart(front + line + more, |front| + k) == |front|
    decreases k
  {
    var text, at := front + line + more, |front| + k;
    if k == 0 {
      assert front != [] ==> text[at - 2..at] == front[|front| - 2..];
    } else {
      assert text[at - 1] == line[k - 1] && line[k - 1] in line;
      assert at >= 2 ==> text[at - 2..at][1] == text[at - 1];
      LineStartsAfter(front, line, more, k - 1);
    }
  }

  lemma LinesHaveNoBlankFront(lines: seq<bytes>, front: seq<bytes>)
    requires front <= lines && forall l | l in lines :: l != [] && OneLine(l)
    ensures var text := Lines(front);
            text == [] || (|text| >= 2 && text[|text| - 2..] == CRLF)
  {
    assert forall l | l in front :: l in lines;
    LinesHaveNoBlank(front);
    var text := Lines(front);
    assert front != [] ==> text[|text| - 2..] == [text[|text| - 2], text[|text| - 1]];
  }

  lemma LineFromEnd(top: bytes, line: bytes)
    requires OneLine(line) && (top == [] || (|top| >= 2 && top[|top| - 2..] == CRLF))
    ensures LastLine(top + (line + CRLF) + CRLF) == line
  {
    hide LineStart, OneLine;
    var head := top + (line + CRLF) + CRLF;
    assert head == top + line + (CRLF + CRLF) && |head| - 4 == |top| + |line|;
    LineStartsAfter(top, line, CRLF + CRLF, |line|);
    assert head[|top|..|top| + |line|] == line;
  }

  /** The lines before the added Content-Length. */
  lemma LengthComesLast(req: Request) returns (front: seq<bytes>)
    requires AddsLength(req)
    ensures HeadLines(req) == front + [Ascii("Content-Length: ") + Decimal(|req.body|)]
  {
    hide Decimal, RequestLine, HeaderLines;
    front := [RequestLine(req)] + HeaderLines(req.headers);
  }

  lemma LastLineOfHead(req: Request)
    requires CleanRequest(req) && AddsLength(req)
    ensures LastLine(Head(req)) == Ascii("Content-Length: ") + Decimal(|req.body|)
  {
    hide CleanRequest, AddsLength, HeadLines, Decimal, HeaderLines, RequestLine, Lines, Ascii, OneLine, LastLine;
    HeadLinesAreClean(req);
    var front := LengthComesLast(req);
    var line := Ascii("Content-Length: ") + Decimal(|req.body|);
    assert line in HeadLines(req);
    LinesSnoc(front, line);
    LinesHaveNoBlankFront(HeadLines(req), front);
    LineFromEnd(Lines(front), line);
  }

  lemma LengthIsRead(n: nat)
    requires n < U64_LIMIT
    ensures AnnouncedLength(Ascii("Content-Length: ") + Decimal(n)) == Some(n)
  {
    hide Decimal, ParseUnsigned;
    DecimalReads(n, U64_LIMIT);
    var name := Ascii("Content-Length: ");
    hide Ascii;
    assert (name + Decimal(n))[|name|..] == Decimal(n);
  }

  lemma SplitAgain(buf: bytes, rest: bytes, front: bytes, back: bytes)
    requires buf + rest == front + back && |front| <= |buf|
    ensures buf[..|front|] == front && buf[|front|..] + rest == back
  {
    assert (buf + rest)[..|front|] == front && (buf + rest)[|front|..] == back;
  }

  lemma RequestHeadFound(req: Request, next: bytes, pieces: seq<bytes>)
    requires Arriving(pieces) && Joined(pieces) == Head(req) + req.body + next
    requires CleanRequest(req) && AddsLength(req) && |req.body| < U64_LIMIT && |Head(req)| <= SAFE_HEAD
    ensures ScanHead([], pieces) == Ok(|Head(req)|)
    ensures AnnouncedLength(LastLine(Head(req))) == Some(|req.body|)
  {
    hide Head, CleanRequest, AddsLength, FindHeadersEnd, ScanHead, Decimal, LastLine, AnnouncedLength, Joined;
    RequestsSplitBack(req);
    LastLineOfHead(req);
    LengthIsRead(|req.body|);
    HeadStays(Head(req) + req.body, next);
    assert [] + Joined(pieces) == Joined(pieces);
    SafeHeadsAreFound([], pieces, |Head(req)|);
  }

  /**
   A reader that finds the head, takes the length from its last line and reads that many bytes gets the body of any
   clean request with an added Content-Length, under every fragmentation, and leaves what follows it.
   */
  method ReceiveRequest(s: ByteStream, ghost req: Request, ghost next: bytes)
    returns (r: Result<bytes, Http1Error>, extra: bytes)
    requires s.Valid() && s.Rest() == Head(req) + req.body + next
    requires CleanRequest(req) && AddsLength(req) && |req.body| < U64_LIMIT && |Head(req)| <= SAFE_HEAD
    modifies s`pieces
    ensures s.Valid()
    ensures r == Ok(req.body) && extra + s.Rest() == next
  {
    hide Head, CleanRequest, AddsLength, FindHeadersEnd, ScanHead, HeadBuffer, LastLine, AnnouncedLength, Joined;
    ghost var head, body := Head(req), req.body;
    RequestHeadFound(req, next, s.pieces);
    assert [] + s.Rest() == head + body + next == head + (body + next);
    var end, buf := ReadUntilHeadersEnd(s, []);
    ghost var rest := s.Rest();
    SplitAgain(buf, rest, head, body + next);
    var length := AnnouncedLength(LastLine(buf[..end.value])).value;
    var prefix := buf[end.value..];
    r := ReadExactBody(s, prefix, length);
    assert (body + next)[..|body|] == body;
    if |prefix| <= length {
      extra := [];
      SplitAgain(body, s.Rest(), body, next);
    } else {
      extra := prefix[length..];
      SplitAgain(prefix, rest, body, next);
    }
  }
}
