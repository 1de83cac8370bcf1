/** A reference server: how the head of a request reads by sections 2 to 6 of RFC 9112. */
module HttpServer {
  import opened Bytes
  import opened Text
  import opened Http1

  const SPACE: byte := 32
  const COLON: byte := 58

  /** The lines up to the blank one, and what follows it. */
  function ReadLines(input: bytes): Option<(seq<bytes>, bytes)>
    decreases |input|
  {
    match FindCrlf(input)
    case None => None
    case Some(p) =>
      if p == 0 then Some(([], input[2..]))
      else
        match ReadLines(input[p + 2..])
        case None => None
        case Some((lines, rest)) => Some(([input[..p]] + lines, rest))
  }

  /** Method, target and version, a space between each. */
  function ReadRequestLine(line: bytes): Option<(bytes, bytes, bytes)> {
    match Position(line, [SPACE])
    case None => None
    case Some(p) =>
      var more := line[p + 1..];
      match Position(more, [SPACE])
      case None => None
      case Some(q) => Some((line[..p], more[..q], more[q + 1..]))
  }

  predicate IsBlank(b: byte) {
    b == SPACE || b == 9
  }

  function WithoutBlanks(s: bytes): bytes
    decreases |s|
  {
    if s == [] then s
    else if IsBlank(s[0]) then WithoutBlanks(s[1..])
    else if IsBlank(s[|s| - 1]) then WithoutBlanks(s[..|s| - 1])
    else s
  }

  /** A name in any case, a colon, and a value with optional white space around it. */
  function ReadField(line: bytes): Option<Header> {
    match Position(line, [COLON])
    case None => None
    case Some(p) => Some(Header(ToLower(line[..p]), WithoutBlanks(line[p + 1..])))
  }

  function ReadFields(lines: seq<bytes>): Option<seq<Header>> {
    if lines == [] then Some([])
    else
      match (ReadFields(lines[..|lines| - 1]), ReadField(lines[|lines| - 1]))
      case (Some(fields), Some(field)) => Some(fields + [field])
      case _ => None
  }

  /** The value of the first field of that name. */
  function FirstField(fields: seq<Header>, name: bytes): Option<bytes> {
    if fields == [] then None
    else if fields[0].name == name then Some(fields[0].value)
    else FirstField(fields[1..], name)
  }

  /** How long the body is: as Content-Length says, or empty; chunked requests are not read. */
  function BodyLength(fields: seq<Header>): Option<nat> {
    if FirstField(fields, Ascii("transfer-encoding")).Some? then None
    else
      match FirstField(fields, Ascii("content-length"))
      case None => Some(0)
      case Some(value) => ParseUnsigned(value, 10, U64_LIMIT)
  }

  datatype Message = Message(verb: bytes, target: bytes, version: bytes, fields: seq<Header>, body: bytes)

  /** The request an input starts with, and what follows it. */
  function Heard(input: bytes): Option<(Message, bytes)> {
    match ReadLines(input)
    case None => None
    case Some((lines, rest)) =>
      if lines == [] then None
      else
        match (ReadRequestLine(lines[0]), ReadFields(lines[1..]))
        case (Some((verb, target, version)), Some(fields)) =>
          (match BodyLength(fields)
           case None => None
           case Some(n) =>
             if |rest| < n then None else Some((Message(verb, target, version, fields, rest[..n]), rest[n..])))
        case _ => None
  }

  // ---- Lines ----

  lemma OneLineHasNoCrlf(line: bytes)
    requires OneLine(line)
    ensures FindCrlf(line).None?
  {
    PositionIsFirst(line, CRLF);
    hide Position, At;
    forall p: nat
      ensures !At(line, CRLF, p)
    {
      AtCrlf(line, p);
      assert p < |line| ==> line[p] in line;
    }
  }

  lemma {:induction false} LinesCons(line: bytes, more: seq<bytes>)
    ensures Lines([line] + more) == line + CRLF + Lines(more)
    decreases |more|
  {
    if more == [] {
      LinesSnoc([], line);
      assert [] + [line] == [line] + more;
      assert Lines([]) + (line + CRLF) == line + CRLF + Lines([]);
    } else {
      var front, last := more[..|more| - 1], more[|more| - 1];
      LinesCons(line, front);
      LinesSnoc([line] + front, last);
      LinesSnoc(front, last);
      hide Lines;
      assert more == front + [last] && [line] + more == [line] + front + [last];
      assert line + CRLF + Lines(front) + (last + CRLF) == line + CRLF + (Lines(front) + (last + CRLF));
    }
  }

  lemma OneMoreLine(line: bytes, more: bytes)
    requires line != [] && OneLine(line)
    ensures ReadLines(line + CRLF + more) ==
            match ReadLines(more) case None => None case Some((lines, rest)) => Some(([line] + lines, rest))
  {
    hide FindCrlf;
    OneLineHasNoCrlf(line);
    LineEnds(line, more);
    var input := line + CRLF + more;
    assert input[..|line|] == line && input[|line| + 2..] == more;
  }

  lemma BlankLineEnds(rest: bytes)
    ensures ReadLines(CRLF + rest) == Some(([], rest))
  {
    hide FindCrlf;
    OneLineHasNoCrlf([]);
    LineEnds([], rest);
    assert [] + CRLF + rest == CRLF + rest && (CRLF + rest)[2..] == rest;
  }

  lemma {:induction false} LinesAreRead(lines: seq<bytes>, rest: bytes)
    requires forall l | l in lines :: l != [] && OneLine(l)
    ensures ReadLines(Lines(lines) + CRLF + rest) == Some((lines, rest))
    decreases |lines|
  {
    hide ReadLines, OneLine;
    if lines == [] {
      BlankLineEnds(rest);
      assert Lines([]) + CRLF + rest == CRLF + rest;
    } else {
      var line, more := lines[0], lines[1..];
      assert line in lines && forall l | l in more :: l in lines;
      LinesCons(line, more);
      LinesAreRead(more, rest);
      OneMoreLine(line, Lines(more) + CRLF + rest);
      hide Lines;
      assert lines == [line] + more;
      assert line + CRLF + Lines(more) + CRLF + rest == line + CRLF + (Lines(more) + CRLF + rest);
    }
  }

  // ---- What a client may say ----

  /** A header as `HeaderMap` holds it: a lower-case name without a colon, a value without white space around it. */
  predicate SayableHeader(h: Header) {
    && OneLine(h.name) && COLON !in h.name && ToLower(h.name) == h.name
    && OneLine(h.value) && (h.value != [] ==> !IsBlank(h.value[0]) && !IsBlank(h.value[|h.value| - 1]))
  }

  predicate Sayable(req: Request) {
    && OneLine(req.verb) && SPACE !in req.verb && OneLine(req.path) && SPACE !in req.path
    && forall h | h in req.headers :: SayableHeader(h)
  }

  /** The caller has said how long the body is. */
  predicate Framed(headers: seq<Header>) {
    exists h | h in headers :: h.name == Ascii("content-length") || h.name == Ascii("transfer-encoding")
  }

  /** The fields the server should read: the caller's, and a length where a body has no framing of its own. */
  function Fields(req: Request): seq<Header> {
    req.headers
    + if req.body == [] || Framed(req.headers) then [] else [Header(Ascii("content-length"), Decimal(|req.body|))]
  }

  lemma RequestLineIsRead(req: Request)
    requires Sayable(req)
    ensures ReadRequestLine(RequestLine(req)) == Some((req.verb, req.path, Ascii("HTTP/1.1")))
  {
    hide Position, OneLine, SayableHeader;
    var version := Ascii("HTTP/1.1");
    assert Ascii(" HTTP/1.1") == [SPACE] + version && Ascii(" ") == [SPACE];
    hide Ascii;
    var more := req.path + [SPACE] + version;
    assert RequestLine(req) == req.verb + [SPACE] + more;
    ByteFound(req.verb, SPACE, more);
    ByteFound(req.path, SPACE, version);
  }

  lemma BlanksGo(value: bytes)
    requires value != [] ==> !IsBlank(value[0]) && !IsBlank(value[|value| - 1])
    ensures WithoutBlanks([SPACE] + value) == value
  {
    assert ([SPACE] + value)[1..] == value;
    assert WithoutBlanks(value) == value;
  }

  lemma FieldIsRead(h: Header)
    requires SayableHeader(h)
    ensures ReadField(HeaderLine(h)) == Some(h)
  {
    hide Position, ToLower, WithoutBlanks;
    assert Ascii(": ") == [COLON] + [SPACE];
    hide Ascii;
    assert HeaderLine(h) == h.name + [COLON] + ([SPACE] + h.value);
    ByteFound(h.name, COLON, [SPACE] + h.value);
    BlanksGo(h.value);
  }

  const CONTENT_LENGTH: bytes := [67, 111, 110, 116, 101, 110, 116, 45, 76, 101, 110, 103, 116, 104]

  lemma LengthNameBytes()
    ensures Ascii("Content-Length: ") == CONTENT_LENGTH + [COLON] + [SPACE]
  {
  }

  lemma LowerNameBytes()
    ensures Ascii("content-length") == [99, 111, 110, 116, 101, 110, 116, 45, 108, 101, 110, 103, 116, 104]
  {
  }

  lemma LengthName()
    ensures ToLower(CONTENT_LENGTH) == Ascii("content-length") && COLON !in CONTENT_LENGTH
  {
    LowerNameBytes();
    hide Ascii;
  }

  lemma LengthIsRead(n: nat)
    ensures ReadField(Ascii("Content-Length: ") + Decimal(n)) == Some(Header(Ascii("content-length"), Decimal(n)))
  {
    hide Position, ToLower, WithoutBlanks, Decimal, DigitsValue, Ascii;
    DecimalParses(n);
    LengthName();
    LengthNameBytes();
    var name, value := CONTENT_LENGTH, Decimal(n);
    assert value[0] in value && value[|value| - 1] in value;
    assert Ascii("Content-Length: ") + value == name + [COLON] + ([SPACE] + value);
    ByteFound(name, COLON, [SPACE] + value);
    BlanksGo(value);
  }

  lemma FieldsSnoc(lines: seq<bytes>, line: bytes)
    ensures ReadFields(lines + [line]) ==
            match (ReadFields(lines), ReadField(line))
            case (Some(fields), Some(field)) => Some(fields + [field])
            case _ => None
  {
    hide ReadField;
    assert (lines + [line])[..|lines|] == lines;
  }

  lemma {:induction false} HeadersAreRead(headers: seq<Header>)
    requires forall h | h in headers :: SayableHeader(h)
    ensures ReadFields(HeaderLines(headers)) == Some(headers)
    decreases |headers|
  {
    hide SayableHeader, ReadField, HeaderLine;
    if headers != [] {
      var front, h := headers[..|headers| - 1], headers[|headers| - 1];
      assert headers == front + [h] && HeaderLines(headers) == HeaderLines(front) + [HeaderLine(h)];
      assert h in headers && forall x | x in front :: x in headers;
      HeadersAreRead(front);
      FieldIsRead(h);
      FieldsSnoc(HeaderLines(front), HeaderLine(h));
    }
  }

  lemma FramedIff(headers: seq<Header>)
    ensures Framed(headers) <==> HasHeader(headers, Ascii("content-length")) || HasHeader(headers, Ascii("transfer-encoding"))
  {
    hide Ascii;
  }

  lemma AddedFieldIsRead(lines: seq<bytes>, fields: seq<Header>, n: nat)
    requires ReadFields(lines) == Some(fields)
    ensures ReadFields(lines + [Ascii("Content-Length: ") + Decimal(n)])
            == Some(fields + [Header(Ascii("content-length"), Decimal(n))])
  {
    hide ReadFields, ReadField, Decimal, Ascii;
    LengthIsRead(n);
    FieldsSnoc(lines, Ascii("Content-Length: ") + Decimal(n));
  }

  lemma FieldsAreRead(req: Request)
    requires Sayable(req)
    ensures ReadFields(HeaderLines(req.headers) + LengthLine(req)) == Some(Fields(req))
  {
    hide ReadFields, ReadField, HeaderLines, Decimal, HasHeader, Framed, SayableHeader, Ascii;
    HeadersAreRead(req.headers);
    FramedIff(req.headers);
    if AddsLength(req) {
      AddedFieldIsRead(HeaderLines(req.headers), req.headers, |req.body|);
    } else {
      assert HeaderLines(req.headers) + [] == HeaderLines(req.headers);
      assert req.headers + [] == req.headers;
    }
  }

  // ---- The whole request ----

  lemma {:induction false} FirstFieldSnoc(fields: seq<Header>, f: Header, name: bytes)
    ensures FirstField(fields + [f], name) ==
            if FirstField(fields, name).Some? then FirstField(fields, name)
            else if f.name == name then Some(f.value) else None
    decreases |fields|
  {
    if fields == [] {
      assert (fields + [f])[0] == f && (fields + [f])[1..] == [];
    } else {
      assert (fields + [f])[1..] == fields[1..] + [f];
      FirstFieldSnoc(fields[1..], f, name);
    }
  }

  lemma {:induction false} NoSuchField(fields: seq<Header>, name: bytes)
    ensures FirstField(fields, name).None? <==> forall f | f in fields :: f.name != name
    decreases |fields|
  {
    if fields != [] {
      NoSuchField(fields[1..], name);
      assert forall f | f in fields :: f == fields[0] || f in fields[1..];
    }
  }

  /** A Content-Length of the caller's says how long the body is. */
  predicate Agrees(req: Request) {
    var given := FirstField(req.headers, Ascii("content-length"));
    given.None? || ParseUnsigned(given.value, 10, U64_LIMIT) == Some(|req.body|)
  }

  lemma NamesDiffer()
    ensures Ascii("content-length") != Ascii("transfer-encoding")
  {
    assert |Ascii("content-length")| != |Ascii("transfer-encoding")|;
  }

  lemma FramedMeans(headers: seq<Header>)
    ensures Framed(headers) <==>
            !((forall f | f in headers :: f.name != Ascii("content-length"))
              && (forall f | f in headers :: f.name != Ascii("transfer-encoding")))
  {
    hide Ascii;
  }

  /** The server finds the body's length exactly when the caller gave none or the right one. */
  lemma LengthIsFound(req: Request)
    requires FirstField(req.headers, Ascii("transfer-encoding")).None? && |req.body| < U64_LIMIT
    ensures BodyLength(Fields(req)) == Some(|req.body|) <==> Agrees(req)
  {
    var cl, te := Ascii("content-length"), Ascii("transfer-encoding");
    NamesDiffer();
    hide Ascii, ParseUnsigned, Decimal, FirstField, Framed;
    FramedMeans(req.headers);
    NoSuchField(req.headers, cl);
    NoSuchField(req.headers, te);
    var added := Header(cl, Decimal(|req.body|));
    FirstFieldSnoc(req.headers, added, cl);
    FirstFieldSnoc(req.headers, added, te);
    DecimalReads(|req.body|, U64_LIMIT);
    assert req.headers + [] == req.headers;
  }

  lemma SayableIsClean(req: Request)
    requires Sayable(req)
    ensures CleanRequest(req)
  {
    hide OneLine;
  }

  lemma HeadIsRead(req: Request, after: bytes)
    requires Sayable(req)
    ensures ReadLines(Head(req) + after) == Some((HeadLines(req), after))
    ensures var lines := HeadLines(req);
            && lines != [] && ReadRequestLine(lines[0]) == Some((req.verb, req.path, Ascii("HTTP/1.1")))
            && ReadFields(lines[1..]) == Some(Fields(req))
  {
    hide Sayable, CleanRequest, OneLine, Lines, ReadLines, ReadRequestLine, ReadFields, HeaderLines, LengthLine, RequestLine,
         Fields, Ascii;
    SayableIsClean(req);
    HeadLinesAreClean(req);
    RequestLineIsRead(req);
    FieldsAreRead(req);
    LinesAreRead(HeadLines(req), after);
    assert HeadLines(req)[1..] == HeaderLines(req.headers) + LengthLine(req);
  }

  lemma BodyCut(body: bytes, next: bytes, n: nat)
    requires n <= |body + next|
    ensures (body + next)[..n] == body && (body + next)[n..] == next <==> n == |body|
  {
    assert |(body + next)[..n]| == n;
  }

  /**
   The server reads back the method, the target, version 1.1, the fields in order with the added length among them, and
   the body, and leaves what follows, if and only if the caller gave no Content-Length or the right one.
   */
  lemma RequestIsHeard(req: Request, next: bytes)
    requires Sayable(req) && FirstField(req.headers, Ascii("transfer-encoding")).None? && |req.body| < U64_LIMIT
    ensures Heard(Head(req) + req.body + next)
            == Some((Message(req.verb, req.path, Ascii("HTTP/1.1"), Fields(req), req.body), next))
            <==> Agrees(req)
  {
    hide Sayable, Head, HeadLines, ReadLines, ReadRequestLine, ReadFields, Fields, BodyLength, Agrees, Ascii, FirstField;
    HeadIsRead(req, req.body + next);
    LengthIsFound(req);
    assert Head(req) + req.body + next == Head(req) + (req.body + next);
    var n := BodyLength(Fields(req));
    if n.Some? && n.value <= |req.body + next| {
      BodyCut(req.body, next, n.value);
    }
  }
}
