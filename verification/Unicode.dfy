/** What the text operations mean in code points: the encoding of section 3 of RFC 3629, and Unicode's White_Space. */
module Unicode {
  import opened Bytes
  import opened Text

  /** A code point that is no surrogate. */
  predicate Scalar(c: nat) {
    c < 0xD800 || 0xE000 <= c < 0x11_0000
  }

  function Utf8(c: nat): bytes {
    if c < 0x80 then [c]
    else if c < 0x800 then [0xC0 + c / 0x40, 0x80 + c % 0x40]
    else if c < 0x1_0000 then [0xE0 + c / 0x1000, 0x80 + c / 0x40 % 0x40, 0x80 + c % 0x40]
    else if c < 0x11_0000 then [0xF0 + c / 0x4_0000, 0x80 + c / 0x1000 % 0x40, 0x80 + c / 0x40 % 0x40, 0x80 + c % 0x40]
    else []
  }

  function Encoded(cs: seq<nat>): bytes {
    if cs == [] then [] else Utf8(cs[0]) + Encoded(cs[1..])
  }

  predicate Scalars(cs: seq<nat>) {
    forall i | 0 <= i < |cs| :: Scalar(cs[i])
  }

  lemma TwoDigits(a: nat, b: nat)
    requires b < 0x40
    ensures (a * 0x40 + b) / 0x40 == a && (a * 0x40 + b) % 0x40 == b
  {
  }

  lemma ThreeDigits(a: nat, b: nat, c: nat)
    requires b < 0x40 && c < 0x40
    ensures var n := a * 0x1000 + b * 0x40 + c; n / 0x1000 == a && n / 0x40 % 0x40 == b && n % 0x40 == c
  {
    TwoDigits(a * 0x40 + b, c);
    TwoDigits(a, b);
  }

  lemma FourDigits(a: nat, b: nat, c: nat, d: nat)
    requires b < 0x40 && c < 0x40 && d < 0x40
    ensures var n := a * 0x4_0000 + b * 0x1000 + c * 0x40 + d;
            n / 0x4_0000 == a && n / 0x1000 % 0x40 == b && n / 0x40 % 0x40 == c && n % 0x40 == d
  {
    TwoDigits(a * 0x1000 + b * 0x40 + c, d);
    ThreeDigits(a, b, c);
  }

  lemma TwoBytesDecode(s: bytes) returns (c: nat)
    requires s != [] && Utf8Len(s) == 2
    ensures Scalar(c) && Utf8(c) == s[..2]
  {
    var a, b := s[0] as int - 0xC0, s[1] as int - 0x80;
    c := a * 0x40 + b;
    TwoDigits(a, b);
    assert s[..2] == [s[0], s[1]];
  }

  lemma ThreeBytesDecode(s: bytes) returns (c: nat)
    requires s != [] && Utf8Len(s) == 3
    ensures Scalar(c) && Utf8(c) == s[..3]
  {
    var a, b, d := s[0] as int - 0xE0, s[1] as int - 0x80, s[2] as int - 0x80;
    c := a * 0x1000 + b * 0x40 + d;
    ThreeDigits(a, b, d);
    assert s[..3] == [s[0], s[1], s[2]];
  }

  lemma FourBytesDecode(s: bytes) returns (c: nat)
    requires s != [] && Utf8Len(s) == 4
    ensures Scalar(c) && Utf8(c) == s[..4]
  {
    var a, b, d, e := s[0] as int - 0xF0, s[1] as int - 0x80, s[2] as int - 0x80, s[3] as int - 0x80;
    c := a * 0x4_0000 + b * 0x1000 + d * 0x40 + e;
    FourDigits(a, b, d, e);
    assert s[..4] == [s[0], s[1], s[2], s[3]];
  }

  /** A well-formed sequence at the front is the encoding of a scalar value. */
  lemma SequenceDecodes(s: bytes) returns (c: nat)
    requires s != [] && Utf8Len(s) > 0
    ensures Scalar(c) && Utf8(c) == s[..Utf8Len(s)]
  {
    match Utf8Len(s) {
      case 1 =>
        c := s[0];
        assert s[..1] == [s[0]];
      case 2 => c := TwoBytesDecode(s);
      case 3 => c := ThreeBytesDecode(s);
      case _ => c := FourBytesDecode(s);
    }
  }

  lemma LastDigitOf(n: nat)
    ensures n == n / 0x40 * 0x40 + n % 0x40
  {
  }

  lemma Shifted(n: nat)
    ensures n / 0x40 / 0x40 == n / 0x1000 && n / 0x1000 / 0x40 == n / 0x4_0000
  {
  }

  lemma DigitsOf(c: nat)
    ensures c == c / 0x40 * 0x40 + c % 0x40
    ensures c == c / 0x1000 * 0x1000 + c / 0x40 % 0x40 * 0x40 + c % 0x40
    ensures c == c / 0x4_0000 * 0x4_0000 + c / 0x1000 % 0x40 * 0x1000 + c / 0x40 % 0x40 * 0x40 + c % 0x40
  {
    var x, y := c / 0x40, c / 0x1000;
    Shifted(c);
    LastDigitOf(c);
    LastDigitOf(x);
    LastDigitOf(y);
  }

  /** And every encoding of a scalar value is such a sequence. */
  lemma ScalarsAreSequences(c: nat, more: bytes)
    requires Scalar(c)
    ensures var s := Utf8(c) + more; s != [] && Utf8Len(s) == |Utf8(c)|
  {
    DigitsOf(c);
    assert forall i | 0 <= i < |Utf8(c)| :: (Utf8(c) + more)[i] == Utf8(c)[i];
  }

  lemma {:induction false} EncodedIsValid(cs: seq<nat>)
    requires Scalars(cs)
    ensures ValidUtf8(Encoded(cs))
    decreases |cs|
  {
    if cs != [] {
      EncodedIsValid(cs[1..]);
      ScalarsAreSequences(cs[0], Encoded(cs[1..]));
      hide Utf8, Utf8Len;
      var s, n := Encoded(cs), |Utf8(cs[0])|;
      assert s[n..] == Encoded(cs[1..]);
    }
  }

  lemma {:induction false} ValidDecodes(s: bytes) returns (cs: seq<nat>)
    requires ValidUtf8(s)
    ensures Scalars(cs) && Encoded(cs) == s
    decreases |s|
  {
    hide Utf8, Utf8Len;
    cs := [];
    if s != [] {
      var n := Utf8Len(s);
      var c := SequenceDecodes(s);
      var more := ValidDecodes(s[n..]);
      cs := [c] + more;
      assert cs[1..] == more && s == s[..n] + s[n..];
    }
  }

  /** Validation accepts exactly the encodings of lists of scalar values. */
  lemma ValidUtf8Iff(s: bytes)
    ensures ValidUtf8(s) <==> exists cs :: Scalars(cs) && Encoded(cs) == s
  {
    if ValidUtf8(s) {
      var cs := ValidDecodes(s);
    }
    forall cs | Scalars(cs) && Encoded(cs) == s
      ensures ValidUtf8(s)
    {
      EncodedIsValid(cs);
    }
  }

  // ---- White space ----

  /** Unicode's White_Space. */
  predicate WhiteSpace(c: nat) {
    || 9 <= c <= 13 || c == 0x20 || c == 0x85 || c == 0xA0 || c == 0x1680 || 0x2000 <= c <= 0x200A
    || c == 0x2028 || c == 0x2029 || c == 0x202F || c == 0x205F || c == 0x3000
  }

  predicate Blank(cs: seq<nat>) {
    forall i | 0 <= i < |cs| :: WhiteSpace(cs[i])
  }

  predicate EndsWith(s: bytes, end: bytes) {
    |end| <= |s| && s[|s| - |end|..] == end
  }

  /** Neither the first nor the last character is white space. */
  ghost predicate Stripped(s: bytes) {
    forall c | WhiteSpace(c) :: !(Utf8(c) <= s) && !EndsWith(s, Utf8(c))
  }

  lemma WhiteBytes(c: nat)
    requires WhiteSpace(c)
    ensures var b := Utf8(c);
            || (|b| == 1 && (9 <= b[0] <= 13 || b[0] == 32))
            || (|b| == 2 && b[0] == 0xC2 && (b[1] == 0x85 || b[1] == 0xA0))
            || (|b| == 3 && WideSpace(b[0], b[1], b[2]))
  {
  }

  lemma WideFound(x: byte, y: byte, z: byte) returns (c: nat)
    requires WideSpace(x, y, z)
    ensures WhiteSpace(c) && Utf8(c) == [x, y, z]
  {
    c := (x as int - 0xE0) * 0x1000 + (y as int - 0x80) * 0x40 + (z as int - 0x80);
    ThreeDigits(x as int - 0xE0, y as int - 0x80, z as int - 0x80);
    assert 0x800 <= c < 0x1_0000;
  }

  lemma WhiteFound(b: bytes) returns (c: nat)
    requires || (|b| == 1 && (9 <= b[0] <= 13 || b[0] == 32))
             || (|b| == 2 && b[0] == 0xC2 && (b[1] == 0x85 || b[1] == 0xA0))
             || (|b| == 3 && WideSpace(b[0], b[1], b[2]))
    ensures WhiteSpace(c) && Utf8(c) == b
  {
    if |b| == 1 {
      c := b[0];
    } else if |b| == 2 {
      c := b[1];
    } else {
      c := WideFound(b[0], b[1], b[2]);
      assert b == [b[0], b[1], b[2]];
    }
  }

  lemma LeadingFound(s: bytes) returns (c: nat)
    requires LeadingSpace(s) > 0
    ensures WhiteSpace(c) && Utf8(c) == s[..LeadingSpace(s)]
  {
    hide Utf8, WhiteSpace;
    c := WhiteFound(s[..LeadingSpace(s)]);
  }

  lemma TrailingFound(s: bytes) returns (c: nat)
    requires TrailingSpace(s) > 0
    ensures WhiteSpace(c) && Utf8(c) == s[|s| - TrailingSpace(s)..]
  {
    hide Utf8, WhiteSpace;
    c := WhiteFound(s[|s| - TrailingSpace(s)..]);
  }

  lemma WhiteLeads(c: nat, more: bytes)
    requires WhiteSpace(c)
    ensures |Utf8(c)| > 0 && LeadingSpace(Utf8(c) + more) == |Utf8(c)|
  {
    WhiteBytes(c);
    hide Utf8, WhiteSpace;
    assert forall i | 0 <= i < |Utf8(c)| :: (Utf8(c) + more)[i] == Utf8(c)[i];
  }

  lemma WhiteTrails(front: bytes, c: nat)
    requires WhiteSpace(c)
    ensures |Utf8(c)| > 0 && TrailingSpace(front + Utf8(c)) == |Utf8(c)|
  {
    WhiteBytes(c);
    hide Utf8, WhiteSpace;
    var s := front + Utf8(c);
    assert forall i | 0 <= i < |Utf8(c)| :: s[|front| + i] == Utf8(c)[i];
  }

  /** No white space at the ends, as the byte tests see it. */
  lemma StrippedIff(s: bytes)
    ensures Stripped(s) <==> LeadingSpace(s) == 0 && TrailingSpace(s) == 0
  {
    hide Utf8, WhiteSpace, LeadingSpace, TrailingSpace;
    forall c | WhiteSpace(c)
      ensures Utf8(c) <= s ==> LeadingSpace(s) > 0
      ensures EndsWith(s, Utf8(c)) ==> TrailingSpace(s) > 0
    {
      if Utf8(c) <= s {
        WhiteLeads(c, s[|Utf8(c)|..]);
        assert Utf8(c) + s[|Utf8(c)|..] == s;
      }
      if EndsWith(s, Utf8(c)) {
        WhiteTrails(s[..|s| - |Utf8(c)|], c);
        assert s[..|s| - |Utf8(c)|] + Utf8(c) == s;
      }
    }
    if LeadingSpace(s) > 0 {
      var c := LeadingFound(s);
      assert Utf8(c) <= s;
    }
    if TrailingSpace(s) > 0 {
      var c := TrailingFound(s);
      assert EndsWith(s, Utf8(c));
    }
  }

  lemma EncodedCons(c: nat, cs: seq<nat>)
    ensures Encoded([]) == [] && Encoded([c] + cs) == Utf8(c) + Encoded(cs)
  {
    hide Utf8;
    assert ([c] + cs)[1..] == cs;
  }

  lemma {:induction false} StartTrimmed(s: bytes) returns (cs: seq<nat>)
    ensures Blank(cs) && s == Encoded(cs) + TrimStart(s) && LeadingSpace(TrimStart(s)) == 0
    decreases |s|
  {
    hide Utf8, WhiteSpace, LeadingSpace, Encoded;
    cs := [];
    EncodedCons(0, []);
    if LeadingSpace(s) > 0 {
      var c := LeadingFound(s);
      var rest := s[LeadingSpace(s)..];
      assert TrimStart(s) == TrimStart(rest) && s == Utf8(c) + rest;
      hide TrimStart;
      var more := StartTrimmed(rest);
      cs := [c] + more;
      EncodedCons(c, more);
      assert Utf8(c) + (Encoded(more) + TrimStart(rest)) == Utf8(c) + Encoded(more) + TrimStart(rest);
    } else {
      assert [] + s == s;
    }
  }

  lemma {:induction false} EncodedSnoc(cs: seq<nat>, c: nat)
    ensures Encoded(cs + [c]) == Encoded(cs) + Utf8(c)
    decreases |cs|
  {
    hide Utf8;
    if cs == [] {
      assert [] + [c] == [c] && [c][1..] == [];
      assert Utf8(c) + [] == [] + Utf8(c);
    } else {
      assert (cs + [c])[1..] == cs[1..] + [c] && (cs + [c])[0] == cs[0];
      EncodedSnoc(cs[1..], c);
      assert Utf8(cs[0]) + (Encoded(cs[1..]) + Utf8(c)) == Utf8(cs[0]) + Encoded(cs[1..]) + Utf8(c);
    }
  }

  lemma {:induction false} EndTrimmed(s: bytes) returns (cs: seq<nat>)
    ensures Blank(cs) && s == TrimEnd(s) + Encoded(cs) && TrailingSpace(TrimEnd(s)) == 0
    decreases |s|
  {
    hide Utf8, WhiteSpace, TrailingSpace, Encoded;
    cs := [];
    EncodedCons(0, []);
    if TrailingSpace(s) > 0 {
      var c := TrailingFound(s);
      var rest := s[..|s| - TrailingSpace(s)];
      assert TrimEnd(s) == TrimEnd(rest);
      hide TrimEnd;
      var front := EndTrimmed(rest);
      cs := front + [c];
      EncodedSnoc(front, c);
      assert s == rest + Utf8(c);
      assert TrimEnd(rest) + Encoded(front) + Utf8(c) == TrimEnd(rest) + (Encoded(front) + Utf8(c));
    } else {
      assert s + [] == s;
    }
  }

  lemma LeadsPrefix(t: bytes, s: bytes)
    requires t <= s && LeadingSpace(s) == 0
    ensures LeadingSpace(t) == 0
  {
  }

  lemma TrimSplits(s: bytes) returns (before: seq<nat>, after: seq<nat>)
    ensures Blank(before) && Blank(after) && s == Encoded(before) + Trim(s) + Encoded(after) && Stripped(Trim(s))
  {
    hide Blank, Encoded, Stripped, LeadingSpace, TrailingSpace;
    before := StartTrimmed(s);
    after := EndTrimmed(TrimStart(s));
    LeadsPrefix(Trim(s), TrimStart(s));
    StrippedIff(Trim(s));
    assert Encoded(before) + (Trim(s) + Encoded(after)) == Encoded(before) + Trim(s) + Encoded(after);
  }

  lemma {:induction false} SpacesGoFirst(cs: seq<nat>, s: bytes)
    requires Blank(cs)
    ensures TrimStart(Encoded(cs) + s) == TrimStart(s)
    decreases |cs|
  {
    hide Utf8, WhiteSpace, LeadingSpace;
    if cs == [] {
      assert [] + s == s;
    } else {
      var more := Encoded(cs[1..]) + s;
      assert Encoded(cs) + s == Utf8(cs[0]) + more;
      WhiteLeads(cs[0], more);
      assert (Utf8(cs[0]) + more)[|Utf8(cs[0])|..] == more;
      SpacesGoFirst(cs[1..], s);
    }
  }

  lemma {:induction false} SpacesGoLast(s: bytes, cs: seq<nat>)
    requires Blank(cs)
    ensures TrimEnd(s + Encoded(cs)) == TrimEnd(s)
    decreases |cs|
  {
    hide Utf8, WhiteSpace, TrailingSpace;
    if cs == [] {
      assert s + [] == s;
    } else {
      var front, c := cs[..|cs| - 1], cs[|cs| - 1];
      assert cs == front + [c];
      EncodedSnoc(front, c);
      var most := s + Encoded(front);
      assert s + Encoded(cs) == most + Utf8(c);
      WhiteTrails(most, c);
      assert (most + Utf8(c))[..|most|] == most;
      SpacesGoLast(s, front);
    }
  }

  lemma NoSpaceGrows(t: bytes, more: bytes)
    requires t != [] && LeadingSpace(t) == 0 && (more != [] ==> !Continuation(more[0]))
    ensures LeadingSpace(t + more) == 0
  {
    assert |t| == 1 && more != [] ==> (t + more)[1] == more[0];
    assert |t| == 2 && more != [] ==> (t + more)[2] == more[0];
  }

  lemma BlanksBegin(cs: seq<nat>)
    requires Blank(cs)
    ensures Encoded(cs) != [] ==> !Continuation(Encoded(cs)[0])
  {
    if cs != [] {
      WhiteBytes(cs[0]);
      hide Utf8;
    }
  }

  lemma PaddingGoes(before: seq<nat>, t: bytes, after: seq<nat>)
    requires Blank(before) && Blank(after) && Stripped(t)
    ensures Trim(Encoded(before) + t + Encoded(after)) == t
  {
    hide Blank, Encoded, Stripped, LeadingSpace, TrailingSpace;
    StrippedIff(t);
    SpacesGoFirst(before, t + Encoded(after));
    assert Encoded(before) + t + Encoded(after) == Encoded(before) + (t + Encoded(after));
    SpacesGoLast(t, after);
    if t == [] {
      SpacesGoFirst(after, []);
      assert Encoded(after) + [] == [] + Encoded(after);
    } else {
      BlanksBegin(after);
      NoSpaceGrows(t, Encoded(after));
    }
  }

  /** Trimming takes the white-space characters off both ends, and nothing else. */
  lemma TrimIff(s: bytes, t: bytes)
    ensures Trim(s) == t <==>
            && Stripped(t)
            && exists before, after :: Blank(before) && Blank(after) && s == Encoded(before) + t + Encoded(after)
  {
    hide Blank, Encoded, Stripped, Trim;
    var front, back := TrimSplits(s);
    forall before, after | Blank(before) && Blank(after) && s == Encoded(before) + t + Encoded(after) && Stripped(t)
      ensures Trim(s) == t
    {
      PaddingGoes(before, t, after);
    }
  }
}
