/**
 A whole request and response: `send_request` of `drift-core/src/http1.rs`. What `httparse` makes of a head is a
 parameter; the reader itself decides where the head ends and how the body is delimited.
 */
module HttpExchange {
  import opened Bytes
  import opened Text
  import opened ByteStreams
  import opened Http1

  /** The status, and the first transfer-encoding and content-length values. */
  datatype ResponseHead = ResponseHead(status: nat, encoding: Option<bytes>, length: Option<bytes>)

  datatype Response = Response(status: nat, body: bytes)

  type HeadParser = bytes -> Result<ResponseHead, Http1Error>

  /** The response when the head ends at `h` and the reader had buffered `k` bytes by then. */
  function Answer(parse: HeadParser, input: bytes, h: nat, k: nat, max: Option<nat>): Result<Response, Http1Error>
    requires h <= k <= |input|
  {
    match parse(input[..h])
    case Err(e) => Err(e)
    case Ok(head) =>
      match BodyOf(head.encoding, head.length, input[h..k], input[k..], max)
      case Err(e) => Err(e)
      case Ok(body) => Ok(Response(head.status, body))
  }

  /** A response in `input`, however it arrives. */
  function ReplyIn(parse: HeadParser, input: bytes, h: nat, max: Option<nat>): Result<Response, Http1Error>
    requires h <= |input|
  {
    Answer(parse, input, h, h, max)
  }

  // ---- How it arrives ----

  /** The input has a head, and every fragmentation finds it. */
  predicate HasHead(input: bytes) {
    FindHeadersEnd(input).Some? && (FindHeadersEnd(input).value <= 1015809 || |input| <= 1048576)
  }

  lemma Scanned(pieces: seq<bytes>)
    requires Arriving(pieces)
    ensures match ScanHead([], pieces)
            case Err(e) => e == ParseHeaders && !HasHead(Joined(pieces))
            case Ok(h) =>
              && h <= |HeadBuffer([], pieces)| < h + HEAD_READ && HeadBuffer([], pieces) <= Joined(pieces)
              && FindHeadersEnd(Joined(pieces)) == Some(h) && h <= MAX_HEAD
  {
    var input := Joined(pieces);
    hide ScanHead, HeadBuffer, Joined;
    assert [] + input == input;
    ScanFinds([], pieces);
    if HasHead(input) {
      SafeHeadsAreFound([], pieces, FindHeadersEnd(input).value);
    }
  }

  /** What the reader makes of an input that arrives as `pieces`. */
  function ResponseFrom(parse: HeadParser, pieces: seq<bytes>, max: Option<nat>): Result<Response, Http1Error>
    requires Arriving(pieces)
  {
    match ScanHead([], pieces)
    case Err(e) => Err(e)
    case Ok(h) =>
      Scanned(pieces);
      Answer(parse, Joined(pieces), h, |HeadBuffer([], pieces)|, max)
  }

  /** A body that ends with the stream and is over the limit. */
  predicate OverlongUnframed(parse: HeadParser, input: bytes, h: nat, max: Option<nat>)
    requires h <= |input|
  {
    var head := parse(input[..h]);
    head.Ok? && head.value.encoding.None? && head.value.length.None? && Exceeds(|input[h..]|, max)
  }

  /** Such a body, short enough for the read that ends the head to bring all of it. */
  predicate MayArriveWithHead(parse: HeadParser, input: bytes, h: nat, max: Option<nat>)
    requires h <= |input|
  {
    OverlongUnframed(parse, input, h, max) && |input| - h < 32768
  }

  /** How much is buffered with the head matters only to an over-long unframed body, and then only if it is all of it. */
  lemma BufferedBodyMatters(parse: HeadParser, input: bytes, h: nat, k: nat, max: Option<nat>)
    requires h <= k <= |input|
    ensures Answer(parse, input, h, k, max) ==
            if OverlongUnframed(parse, input, h, max) then
              if k == |input| then Ok(Response(parse(input[..h]).value.status, input[h..])) else Err(ResponseTooLarge)
            else ReplyIn(parse, input, h, max)
    ensures OverlongUnframed(parse, input, h, max) ==> ReplyIn(parse, input, h, max) == Err(ResponseTooLarge)
  {
    if parse(input[..h]).Ok? {
      var head := parse(input[..h]).value;
      hide Dechunk, ParseUnsigned, Position;
      assert input[h..k] + input[k..] == input[h..];
      assert input[h..h] + input[h..] == input[h..];
    }
  }

  /** What reading a response may give: the response in the input; one that may arrive with its head may be returned whole. */
  predicate Prescribed(parse: HeadParser, input: bytes, h: nat, max: Option<nat>, r: Result<Response, Http1Error>)
    requires h <= |input|
  {
    || r == ReplyIn(parse, input, h, max)
    || (MayArriveWithHead(parse, input, h, max) && r == Ok(Response(parse(input[..h]).value.status, input[h..])))
  }

  /** A response is refused for its head only when some fragmentation can lose the head; otherwise it is as prescribed. */
  lemma ResponsesArePrescribed(parse: HeadParser, pieces: seq<bytes>, max: Option<nat>)
    requires Arriving(pieces)
    ensures var (input, r) := (Joined(pieces), ResponseFrom(parse, pieces, max));
            match FindHeadersEnd(input)
            case None => r == Err(ParseHeaders)
            case Some(h) =>
              && (h > MAX_HEAD ==> r == Err(ParseHeaders))
              && ((!HasHead(input) && r == Err(ParseHeaders)) || Prescribed(parse, input, h, max, r))
  {
    Scanned(pieces);
    hide ScanHead, HeadBuffer, Joined, FindHeadersEnd, Answer;
    if ScanHead([], pieces).Ok? {
      BufferedBodyMatters(parse, Joined(pieces), ScanHead([], pieces).value, |HeadBuffer([], pieces)|, max);
    }
  }

  lemma ArrivedWithHead(parse: HeadParser, input: bytes, max: Option<nat>)
    requires HasHead(input) && MayArriveWithHead(parse, input, FindHeadersEnd(input).value, max)
    ensures var h := FindHeadersEnd(input).value;
            var together, apart := [input[..h - 1], input[h - 1..]], [input[..h], input[h..]];
            && Arriving(together) && Joined(together) == input
            && Arriving(apart) && Joined(apart) == input
            && ResponseFrom(parse, together, max) == Ok(Response(parse(input[..h]).value.status, input[h..]))
            && ResponseFrom(parse, apart, max) == Err(ResponseTooLarge)
  {
    var h := FindHeadersEnd(input).value;
    HeadThenTheRest(input, h);
    var apart := [input[..h], input[h..]];
    assert apart == [input[..h]] + [input[h..]];
    BufferedBodyMatters(parse, input, h, h, max);
    LastByteWithBody(input, h);
    BufferedBodyMatters(parse, input, h, |input|, max);
    hide ScanHead, HeadBuffer, Joined, Answer, FindHeadersEnd;
    Scanned([input[..h - 1], input[h - 1..]]);
  }

  /**
   A response whose head every fragmentation finds is the same under every fragmentation if and only if it is not an
   over-long body without framing, short enough to arrive with the head.
   */
  lemma ResponseIgnoresFragmentation(parse: HeadParser, input: bytes, max: Option<nat>)
    requires HasHead(input)
    ensures (forall p, q | Arriving(p) && Joined(p) == input && Arriving(q) && Joined(q) == input ::
               ResponseFrom(parse, p, max) == ResponseFrom(parse, q, max)) <==>
            !MayArriveWithHead(parse, input, FindHeadersEnd(input).value, max)
  {
    var h := FindHeadersEnd(input).value;
    hide ScanHead, HeadBuffer, Joined, Answer, ResponseFrom, FindHeadersEnd, MayArriveWithHead;
    if MayArriveWithHead(parse, input, h, max) {
      ArrivedWithHead(parse, input, max);
    } else {
      forall p | Arriving(p) && Joined(p) == input
        ensures ResponseFrom(parse, p, max) == ReplyIn(parse, input, h, max)
      {
        ResponsesArePrescribed(parse, p, max);
      }
    }
  }

  lemma UnframedReply(parse: HeadParser, input: bytes, h: nat, max: Option<nat>)
    requires h <= |input| && parse(input[..h]).Ok?
    requires parse(input[..h]).value.encoding.None? && parse(input[..h]).value.length.None?
    ensures !OverlongUnframed(parse, input, h, max) ==>
              ReplyIn(parse, input, h, max) == Ok(Response(parse(input[..h]).value.status, input[h..]))
  {
    assert input[h..h] + input[h..] == input[h..];
  }

  lemma HeadMustParse(parse: HeadParser, input: bytes, h: nat, max: Option<nat>)
    requires h <= |input|
    ensures ReplyIn(parse, input, h, max).Ok? ==> parse(input[..h]).Ok?
  {
  }

  /** An unframed body that is returned is within the limit, or arrived whole in the read that ended the head. */
  lemma UnframedBodiesAreBounded(parse: HeadParser, pieces: seq<bytes>, max: nat)
    requires Arriving(pieces) && ResponseFrom(parse, pieces, Some(max)).Ok?
    ensures FindHeadersEnd(Joined(pieces)).Some?
    ensures var head := parse(Joined(pieces)[..FindHeadersEnd(Joined(pieces)).value]);
            && head.Ok?
            && (head.value.encoding.None? && head.value.length.None? ==>
                  |ResponseFrom(parse, pieces, Some(max)).value.body| <= if max < 32768 then 32767 else max)
  {
    ResponsesArePrescribed(parse, pieces, Some(max));
    hide ResponseFrom, FindHeadersEnd, ScanHead, Joined;
    var input := Joined(pieces);
    var h := FindHeadersEnd(input).value;
    HeadMustParse(parse, input, h, Some(max));
    var head := parse(input[..h]);
    if head.Ok? && head.value.encoding.None? && head.value.length.None? {
      UnframedReply(parse, input, h, Some(max));
      BufferedBodyMatters(parse, input, h, h, Some(max));
      hide ReplyIn, Answer;
    }
  }

  lemma Buffered(buf: bytes, rest: bytes, h: nat)
    requires h <= |buf|
    ensures (buf + rest)[..h] == buf[..h] && (buf + rest)[h..|buf|] == buf[h..] && (buf + rest)[|buf|..] == rest
  {
  }

  /** The reading half. */
  method ReadResponse(s: ByteStream, parse: HeadParser, max: Option<nat>) returns (r: Result<Response, Http1Error>)
    requires s.Valid()
    modifies s`pieces
    ensures s.Valid()
    ensures r == ResponseFrom(parse, old(s.pieces), max)
  {
    hide BodyOf, FindHeadersEnd, ScanHead, HeadBuffer;
    ghost var input := s.Rest();
    assert [] + input == input;
    Scanned(s.pieces);
    var end, buf := ReadUntilHeadersEnd(s, []);
    if end.Err? {
      return Err(end.error);
    }
    Buffered(buf, s.Rest(), end.value);
    var head := parse(buf[..end.value]);
    if head.Err? {
      return Err(head.error);
    }
    var body := ReadBody(s, head.value.encoding, head.value.length, buf[end.value..], max);
    r := match body case Err(e) => Err(e) case Ok(b) => Ok(Response(head.value.status, b));
  }

  /**
   The request goes out whole. A response whose head can be found is the one in the input under every fragmentation;
   only an over-long body without framing, under 32 KiB, may be refused or returned whole.
   */
  method SendRequest(s: ByteStream, req: Request, parse: HeadParser, max: Option<nat>)
    returns (r: Result<Response, Http1Error>)
    requires s.Valid()
    modifies s
    ensures s.Valid() && s.sent == old(s.sent) + Head(req) + req.body
    ensures r == ResponseFrom(parse, old(s.pieces), max)
    ensures match FindHeadersEnd(old(s.Rest()))
            case None => r == Err(ParseHeaders)
            case Some(h) =>
              && (h > MAX_HEAD ==> r == Err(ParseHeaders))
              && ((!HasHead(old(s.Rest())) && r == Err(ParseHeaders)) || Prescribed(parse, old(s.Rest()), h, max, r))
  {
    hide Head, FindHeadersEnd, ScanHead, Prescribed, Answer, ResponseFrom;
    var wire := EncodeRequest(req);
    ghost var before := s.sent;
    s.WriteAll(wire);
    assert before + (Head(req) + req.body) == before + Head(req) + req.body;
    ResponsesArePrescribed(parse, s.pieces, max);
    r := ReadResponse(s, parse, max);
  }

  // ---- What a server sends comes back ----

  lemma ChunkedIsChunked()
    ensures Position(ToLower(ToStr(Ascii("chunked"))), Ascii("chunked")).Some?
  {
    var word := Ascii("chunked");
    assert ToStr(word) == word && ToLower(word) == word;
    assert word[..|word|] == word;
  }

  lemma AfterTop(top: bytes, tail: bytes)
    ensures var input := top + tail;
            input[..|top|] == top && input[|top|..|top|] == [] && input[|top|..] == tail
  {
  }

  /** A chunked response comes back as its data, under the conditions of the chunked decoder. */
  lemma ChunkedReply(parse: HeadParser, top: bytes, chunks: seq<Chunk>, last: Chunk, after: bytes, max: Option<nat>)
    requires parse(top).Ok? && parse(top).value.encoding == Some(Ascii("chunked"))
    requires (forall c | c in chunks :: WellFormed(c) && c.data != []) && WellFormed(last) && last.data == []
    ensures var input := top + Serialized(chunks, last, after);
            ReplyIn(parse, input, |top|, max) == Ok(Response(parse(top).value.status, DataOf(chunks)))
            <==> && (forall c | c in chunks :: Acceptable(c)) && Acceptable(last)
                 && (chunks != [] ==> !Exceeds(|DataOf(chunks)|, max))
  {
    var wire := Serialized(chunks, last, after);
    AfterTop(top, wire);
    assert [] + wire == wire;
    ChunkedRoundTrip(chunks, last, after, [], max);
    assert [] + DataOf(chunks) == DataOf(chunks);
    ChunkedIsChunked();
    hide Dechunk, Serialized, Position, Ascii, ToLower, ToStr, WellFormed, Acceptable;
  }

  lemma LengthValue(n: nat)
    requires n < U64_LIMIT
    ensures ParseUnsigned(ToStr(Decimal(n)), 10, U64_LIMIT) == Some(n)
  {
    hide Decimal, DigitsValue, ParseUnsigned;
    DecimalParses(n);
    DecimalReads(n, U64_LIMIT);
  }

  lemma SizedBody(body: bytes, next: bytes, max: Option<nat>)
    requires |body| < U64_LIMIT
    ensures BodyOf(None, Some(Decimal(|body|)), [], body + next, max)
            == if Exceeds(|body|, max) then Err(ResponseTooLarge) else Ok(body)
  {
    hide Decimal, ParseUnsigned, ToStr, Dechunk;
    LengthValue(|body|);
    assert [] + (body + next) == body + next && (body + next)[..|body|] == body;
  }

  /** A response with a Content-Length comes back as its body, whatever follows it on the stream. */
  lemma SizedReply(parse: HeadParser, top: bytes, body: bytes, next: bytes, max: Option<nat>)
    requires parse(top).Ok? && parse(top).value.encoding.None?
    requires parse(top).value.length == Some(Decimal(|body|)) && |body| < U64_LIMIT
    ensures ReplyIn(parse, top + (body + next), |top|, max)
            == if Exceeds(|body|, max) then Err(ResponseTooLarge) else Ok(Response(parse(top).value.status, body))
  {
    hide Decimal, BodyOf;
    AfterTop(top, body + next);
    SizedBody(body, next, max);
  }
}
