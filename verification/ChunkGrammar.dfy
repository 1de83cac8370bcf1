/**
 The language the chunked decoder accepts, which is wider than section 7.1 of RFC 9112: white space and a '+' around
 the size, any two bytes after a chunk's data, anything after the last size line.
 */
module ChunkGrammar {
  import opened Bytes
  import opened Text
  import opened Unicode
  import opened Http1

  // ---- Size lines ----

  /** A hexadecimal number, a '+' in front or not, with white space around it. */
  ghost predicate IsSize(text: bytes, n: nat) {
    exists before, digits, after ::
      && Blank(before) && Blank(after) && text == Encoded(before) + digits + Encoded(after) && Stripped(digits)
      && IsNumber(digits, n, 16)
  }

  /** `text` is what stands before the first semicolon, if there is one. */
  predicate Extended(line: bytes, text: bytes, extension: bytes) {
    line == text + extension && ';' as int !in text && (extension == [] || extension[0] == ';' as int)
  }

  /** A size, and from the first semicolon on anything. */
  ghost predicate IsSizeLine(line: bytes, n: nat) {
    exists text, extension :: Extended(line, text, extension) && IsSize(text, n)
  }

  lemma SizeIff(text: bytes, n: nat)
    ensures ParseUnsigned(Trim(text), 16, USIZE_LIMIT) == Some(n) <==> n < 0x1_0000_0000_0000_0000 && IsSize(text, n)
  {
    hide ParseUnsigned, Trim, Blank, Encoded, Stripped, IsNumber, Numeral, Ascii;
    forall digits
      ensures ParseUnsigned(digits, 16, USIZE_LIMIT) == Some(n) <==> n < USIZE_LIMIT && IsNumber(digits, n, 16)
    {
      UnsignedIff(digits, n, 16, USIZE_LIMIT);
    }
    TrimIff(text, Trim(text));
    forall before, digits, after
      | Blank(before) && Blank(after) && text == Encoded(before) + digits + Encoded(after) && Stripped(digits)
      ensures Trim(text) == digits
    {
      TrimIff(text, digits);
    }
  }

  lemma NoByte(s: bytes, b: byte)
    ensures b !in s ==> Position(s, [b]) == None
    ensures match Position(s, [b]) case None => b !in s case Some(p) => b !in s[..p] && s[p] == b
  {
    PositionIsFirst(s, [b]);
    hide Position;
    forall q: nat | q < |s|
      ensures At(s, [b], q) <==> s[q] == b
    {
      assert s[q..q + 1] == [s[q]];
    }
  }

  /** The extension starts at the first semicolon. */
  lemma ExtendedIff(line: bytes, text: bytes, extension: bytes)
    requires Extended(line, text, extension)
    ensures BeforeSemicolon(line) == text
  {
    hide Position;
    if extension == [] {
      assert line == text;
      NoByte(text, SEMICOLON[0]);
    } else {
      ByteFound(text, SEMICOLON[0], extension[1..]);
      assert text + [SEMICOLON[0]] + extension[1..] == line;
    }
  }

  lemma SomeExtension(line: bytes)
    ensures var text := BeforeSemicolon(line); |text| <= |line| && Extended(line, text, line[|text|..])
  {
    NoByte(line, SEMICOLON[0]);
    hide Position;
  }

  /** A size line is accepted exactly when it is UTF-8 and a size that fits 64 bits, with or without an extension. */
  lemma SizeLineIff(line: bytes, n: nat)
    ensures ParseSize(line) == Ok(n) <==> ValidUtf8(line) && n < 0x1_0000_0000_0000_0000 && IsSizeLine(line, n)
  {
    hide ParseUnsigned, Trim, ValidUtf8, IsSize, Extended, BeforeSemicolon;
    SizeIff(BeforeSemicolon(line), n);
    SomeExtension(line);
    forall text, extension | Extended(line, text, extension)
      ensures text == BeforeSemicolon(line)
    {
      ExtendedIff(line, text, extension);
    }
  }

  // ---- Whole bodies ----

  /** A size line, as many bytes as it says, and two more that are not looked at. */
  datatype Piece = Piece(line: bytes, data: bytes, end: bytes)

  /** A line that a CRLF ends, saying `n`. */
  predicate Says(line: bytes, n: nat) {
    FindCrlf(line).None? && ParseSize(line) == Ok(n)
  }

  predicate IsPiece(p: Piece) {
    Says(p.line, |p.data|) && p.data != [] && |p.end| == 2 && |p.data| + 2 < 0x1_0000_0000_0000_0000
  }

  predicate ArePieces(ps: seq<Piece>) {
    forall i | 0 <= i < |ps| :: IsPiece(ps[i])
  }

  function PieceBytes(p: Piece): bytes {
    p.line + CRLF + (p.data + p.end)
  }

  function PiecesBytes(ps: seq<Piece>, last: bytes, after: bytes): bytes {
    if ps == [] then last + CRLF + after else PieceBytes(ps[0]) + PiecesBytes(ps[1..], last, after)
  }

  function PiecesData(ps: seq<Piece>): bytes {
    if ps == [] then [] else ps[0].data + PiecesData(ps[1..])
  }

  /** `input` is pieces that hold `data`, a last line of size zero, and anything. */
  ghost predicate IsBody(input: bytes, data: bytes) {
    exists ps, last, after ::
      ArePieces(ps) && Says(last, 0) && input == PiecesBytes(ps, last, after) && data == PiecesData(ps)
  }

  lemma LineSplits(line: bytes, more: bytes)
    requires FindCrlf(line).None?
    ensures var input := line + CRLF + more;
            FindCrlf(input) == Some(|line|) && input[..|line|] == line && input[|line| + 2..] == more
  {
    LineEnds(line, more);
    hide FindCrlf;
  }

  lemma PieceRead(p: Piece, more: bytes, out: bytes, max: Option<nat>)
    requires IsPiece(p)
    ensures Dechunk(PieceBytes(p) + more, out, max) ==
            if Exceeds(|out| + |p.data|, max) then Err(ResponseTooLarge) else Dechunk(more, out + p.data, max)
  {
    hide ParseSize, FindCrlf;
    var rest := p.data + p.end + more;
    assert PieceBytes(p) + more == p.line + CRLF + rest;
    LineSplits(p.line, rest);
    assert rest[|p.data| + 2..] == more && rest[..|p.data|] == p.data;
  }

  lemma LastRead(last: bytes, after: bytes, out: bytes, max: Option<nat>)
    requires Says(last, 0)
    ensures Dechunk(last + CRLF + after, out, max) == Ok(out)
  {
    hide ParseSize, FindCrlf;
    LineSplits(last, after);
  }

  lemma {:induction false} PiecesRead(ps: seq<Piece>, last: bytes, after: bytes, out: bytes, max: Option<nat>)
    requires ArePieces(ps) && Says(last, 0) && (ps != [] ==> !Exceeds(|out + PiecesData(ps)|, max))
    ensures Dechunk(PiecesBytes(ps, last, after), out, max) == Ok(out + PiecesData(ps))
    decreases |ps|
  {
    hide Dechunk, IsPiece, Says, PieceBytes;
    if ps == [] {
      LastRead(last, after, out, max);
      assert out + [] == out;
    } else {
      PieceRead(ps[0], PiecesBytes(ps[1..], last, after), out, max);
      assert out + ps[0].data + PiecesData(ps[1..]) == out + PiecesData(ps);
      PiecesRead(ps[1..], last, after, out + ps[0].data, max);
    }
  }

  lemma FirstLine(input: bytes)
    requires FindCrlf(input).Some?
    ensures var p := FindCrlf(input).value;
            FindCrlf(input[..p]).None? && input == input[..p] + CRLF + input[p + 2..]
  {
    hide Position, At;
    var p := FindCrlf(input).value;
    PositionIsFirst(input, CRLF);
    PositionIsFirst(input[..p], CRLF);
    forall q: nat
      ensures !At(input[..p], CRLF, q)
    {
      AtCrlf(input[..p], q);
      AtCrlf(input, q);
    }
    AtCrlf(input, p);
    assert input[p..p + 2] == [input[p], input[p + 1]];
    assert input == input[..p] + input[p..p + 2] + input[p + 2..];
  }

  lemma PieceJoins(p: Piece, rest: bytes, body: bytes, size: nat)
    requires |body| >= size + 2 && p.data == body[..size] && p.end == body[size..size + 2] && rest == body[size + 2..]
    ensures body == p.data + p.end + rest
  {
  }

  /** What the decoder reads first: a last line of size zero, or a piece. */
  lemma FirstRead(input: bytes, out: bytes, max: Option<nat>) returns (p: Piece, rest: bytes)
    requires Dechunk(input, out, max).Ok?
    ensures |rest| < |input|
    ensures p.data == [] ==> Says(p.line, 0) && input == p.line + CRLF + rest && Dechunk(input, out, max) == Ok(out)
    ensures p.data != [] ==>
              && IsPiece(p) && input == PieceBytes(p) + rest && !Exceeds(|out + p.data|, max)
              && Dechunk(input, out, max) == Dechunk(rest, out + p.data, max)
  {
    hide ParseSize, Position;
    FirstLine(input);
    var k := FindCrlf(input).value;
    var line, body := input[..k], input[k + 2..];
    var size := ParseSize(line).value;
    if size == 0 {
      p, rest := Piece(line, [], []), body;
    } else {
      p, rest := Piece(line, body[..size], body[size..size + 2]), body[size + 2..];
      PieceJoins(p, rest, body, size);
      assert line + CRLF + (p.data + p.end) + rest == line + CRLF + (p.data + p.end + rest);
    }
  }

  lemma {:induction false} PiecesFound(input: bytes, out: bytes, max: Option<nat>)
    returns (ps: seq<Piece>, last: bytes, after: bytes)
    requires Dechunk(input, out, max).Ok?
    ensures ArePieces(ps) && Says(last, 0) && input == PiecesBytes(ps, last, after)
    ensures Dechunk(input, out, max).value == out + PiecesData(ps)
    ensures ps != [] ==> !Exceeds(|out + PiecesData(ps)|, max)
    decreases |input|
  {
    hide Dechunk, Says, IsPiece, PieceBytes;
    var p, rest := FirstRead(input, out, max);
    if p.data == [] {
      ps, last, after := [], p.line, rest;
      assert out + [] == out;
    } else {
      var more;
      more, last, after := PiecesFound(rest, out + p.data, max);
      ps := [p] + more;
      assert ps[1..] == more;
      assert out + p.data + PiecesData(more) == out + PiecesData(ps);
      assert more == [] ==> PiecesData(ps) == p.data;
    }
  }

  lemma PiecesHoldData(ps: seq<Piece>)
    requires ArePieces(ps)
    ensures ps != [] ==> PiecesData(ps) != []
  {
    hide Says;
  }

  /** The decoder returns `data` exactly for the bodies that hold it, as long as it fits the limit. */
  lemma BodyIff(input: bytes, data: bytes, max: Option<nat>)
    ensures Dechunk(input, [], max) == Ok(data) <==> IsBody(input, data) && (data != [] ==> !Exceeds(|data|, max))
  {
    hide Dechunk, ArePieces, Says, PiecesBytes;
    if Dechunk(input, [], max).Ok? {
      var ps, last, after := PiecesFound(input, [], max);
      assert [] + PiecesData(ps) == PiecesData(ps);
    }
    forall ps, last, after
      | ArePieces(ps) && Says(last, 0) && input == PiecesBytes(ps, last, after) && data == PiecesData(ps)
      ensures (data != [] ==> !Exceeds(|data|, max)) ==> Dechunk(input, [], max) == Ok(data)
    {
      assert [] + PiecesData(ps) == PiecesData(ps);
      PiecesHoldData(ps);
      if data != [] ==> !Exceeds(|data|, max) {
        PiecesRead(ps, last, after, [], max);
      }
    }
  }
}
