/** The few text operations of the Rust standard library the client relies on, over UTF-8 bytes. */
module Text {
  import opened Bytes

  const CR: byte := 13
  const LF: byte := 10
  const CRLF: bytes := [CR, LF]

  /** An ASCII literal as bytes. */
  function Ascii(s: string): (b: bytes)
    requires forall i | 0 <= i < |s| :: s[i] < 128 as char
    ensures |b| == |s| && forall i | 0 <= i < |s| :: b[i] == s[i] as int
  {
    seq(|s|, i requires 0 <= i < |s| => s[i] as int)
  }

  predicate Continuation(b: byte) {
    0x80 <= b < 0xC0
  }

  /** Length of the well-formed UTF-8 sequence `s` starts with, 0 when there is none; section 4 of RFC 3629. */
  function Utf8Len(s: bytes): (n: nat)
    requires s != []
    ensures n <= |s|
  {
    var b := s[0];
    if b < 0x80 then 1
    else if 0xC2 <= b < 0xE0 && |s| >= 2 && Continuation(s[1]) then 2
    else if 0xE0 <= b < 0xF0 && |s| >= 3 && Continuation(s[1]) && Continuation(s[2])
            && (b == 0xE0 ==> s[1] >= 0xA0) && (b == 0xED ==> s[1] < 0xA0) then 3
    else if 0xF0 <= b < 0xF5 && |s| >= 4 && Continuation(s[1]) && Continuation(s[2]) && Continuation(s[3])
            && (b == 0xF0 ==> s[1] >= 0x90) && (b == 0xF4 ==> s[1] < 0x90) then 4
    else 0
  }

  /** `std::str::from_utf8` accepts `s`. */
  predicate ValidUtf8(s: bytes)
    decreases |s|
  {
    s == [] || (Utf8Len(s) > 0 && ValidUtf8(s[Utf8Len(s)..]))
  }

  predicate WideSpace(a: byte, b: byte, c: byte) {
    || (a == 0xE1 && b == 0x9A && c == 0x80)
    || (a == 0xE2 && b == 0x80 && (0x80 <= c <= 0x8A || c == 0xA8 || c == 0xA9 || c == 0xAF))
    || (a == 0xE2 && b == 0x81 && c == 0x9F)
    || (a == 0xE3 && b == 0x80 && c == 0x80)
  }

  /** Length of the white-space character (Unicode White_Space) at the front of `s`, 0 when there is none. */
  function LeadingSpace(s: bytes): (n: nat)
    ensures n <= |s|
  {
    if |s| >= 1 && (9 <= s[0] <= 13 || s[0] == 32) then 1
    else if |s| >= 2 && s[0] == 0xC2 && (s[1] == 0x85 || s[1] == 0xA0) then 2
    else if |s| >= 3 && WideSpace(s[0], s[1], s[2]) then 3
    else 0
  }

  /** Length of the white-space character at the end of `s`, 0 when there is none. */
  function TrailingSpace(s: bytes): (n: nat)
    ensures n <= |s|
  {
    var k := |s|;
    if k >= 1 && (9 <= s[k - 1] <= 13 || s[k - 1] == 32) then 1
    else if k >= 2 && s[k - 2] == 0xC2 && (s[k - 1] == 0x85 || s[k - 1] == 0xA0) then 2
    else if k >= 3 && WideSpace(s[k - 3], s[k - 2], s[k - 1]) then 3
    else 0
  }

  function TrimStart(s: bytes): (t: bytes)
    ensures |t| <= |s|
    decreases |s|
  {
    if LeadingSpace(s) == 0 then s else TrimStart(s[LeadingSpace(s)..])
  }

  function TrimEnd(s: bytes): (t: bytes)
    ensures t <= s
    decreases |s|
  {
    if TrailingSpace(s) == 0 then s else TrimEnd(s[..|s| - TrailingSpace(s)])
  }

  /** `str::trim`. */
  function Trim(s: bytes): bytes {
    TrimEnd(TrimStart(s))
  }

  function LowerByte(b: byte): byte {
    if 65 <= b <= 90 then b + 32 else b
  }

  const SMALL_LETTERS: bytes := Ascii("abcdefghijklmnopqrstuvwxyz")
  const CAPITAL_LETTERS: bytes := Ascii("ABCDEFGHIJKLMNOPQRSTUVWXYZ")

  lemma CapitalBytes()
    ensures CAPITAL_LETTERS == seq(26, i requires 0 <= i < 26 => 65 + i)
  {
  }

  lemma SmallBytes()
    ensures SMALL_LETTERS == seq(26, i requires 0 <= i < 26 => 97 + i)
  {
  }

  /** A capital letter becomes the small one in the same place of the alphabet, and everything else stays. */
  lemma LowerIsByLetter(b: byte)
    ensures b !in CAPITAL_LETTERS ==> LowerByte(b) == b
    ensures forall i | 0 <= i < 26 :: b == CAPITAL_LETTERS[i] ==> LowerByte(b) == SMALL_LETTERS[i]
  {
    hide Ascii;
    CapitalBytes();
    SmallBytes();
    if 65 <= b <= 90 {
      assert CAPITAL_LETTERS[b - 65] == b;
    }
  }

  /** The same byte, or the same letter in either case. */
  predicate SameLetter(a: byte, b: byte) {
    || a == b
    || (a in CAPITAL_LETTERS && b == a + 32)
    || (b in CAPITAL_LETTERS && a == b + 32)
  }

  lemma LowerIff(a: byte, b: byte)
    ensures LowerByte(a) == LowerByte(b) <==> SameLetter(a, b)
  {
    CapitalBytes();
    hide Ascii;
    assert 65 <= a <= 90 ==> CAPITAL_LETTERS[a - 65] == a;
    assert 65 <= b <= 90 ==> CAPITAL_LETTERS[b - 65] == b;
  }

  /** Value of a digit in bases up to 16, as `char::to_digit` reads it. */
  function Digit(b: byte, radix: nat): Option<nat>
    requires 2 <= radix <= 16
  {
    var d := if 48 <= b <= 57 then b - 48 else if 65 <= b <= 70 then b - 55 else if 97 <= b <= 102 then b - 87 else 16;
    if d < radix then Some(d) else None
  }

  /** The number a non-empty digit string spells, most significant digit first. */
  function DigitsValue(s: bytes, radix: nat): Option<nat>
    requires 2 <= radix <= 16
  {
    if s == [] then Some(0)
    else
      match (DigitsValue(s[..|s| - 1], radix), Digit(s[|s| - 1], radix))
      case (Some(v), Some(d)) => Some(v * radix + d)
      case _ => None
  }

  /** Rust's unsigned integer parsing: an optional '+', at least one digit, and a value below `limit`. */
  function ParseUnsigned(s: bytes, radix: nat, limit: nat): Option<nat>
    requires 2 <= radix <= 16
  {
    var digits := if |s| > 1 && s[0] == 43 then s[1..] else s;
    if digits == [] then None
    else
      match DigitsValue(digits, radix)
      case Some(v) => if v < limit then Some(v) else None
      case None => None
  }

  // ---- What a number looks like ----

  const DIGITS: bytes := Ascii("0123456789abcdef")
  const CAPITALS: bytes := Ascii("0123456789ABCDEF")

  /** `b` stands for the digit `d`, as a small or a capital letter from ten on. */
  predicate StandsFor(b: byte, d: nat) {
    d < 16 && (b == DIGITS[d] || b == CAPITALS[d])
  }

  /** `s` writes `n` in base `radix`; leading zeros are allowed. */
  predicate Numeral(s: bytes, n: nat, radix: nat)
    requires 2 <= radix <= 16
  {
    if s == [] then n == 0 else StandsFor(s[|s| - 1], n % radix) && Numeral(s[..|s| - 1], n / radix, radix)
  }

  lemma DigitBytes()
    ensures |DIGITS| == |CAPITALS| == 16
    ensures forall d | 0 <= d < 16 :: DIGITS[d] == (if d < 10 then 48 + d else 87 + d)
    ensures forall d | 0 <= d < 16 :: CAPITALS[d] == (if d < 10 then 48 + d else 55 + d)
  {
    assert DIGITS == [48, 49, 50, 51, 52, 53, 54, 55, 56, 57, 97, 98, 99, 100, 101, 102];
    assert CAPITALS == [48, 49, 50, 51, 52, 53, 54, 55, 56, 57, 65, 66, 67, 68, 69, 70];
  }

  lemma DigitIff(b: byte, radix: nat, d: nat)
    requires 2 <= radix <= 16
    ensures Digit(b, radix) == Some(d) <==> d < radix && StandsFor(b, d)
  {
    hide Ascii;
    DigitBytes();
  }

  lemma MultiplesApart(k: int, radix: nat)
    ensures k >= 1 ==> k * radix >= radix
    ensures k <= -1 ==> k * radix + radix <= 0
  {
  }

  lemma LastDigit(v: nat, d: nat, n: nat, radix: nat)
    requires 2 <= radix && d < radix
    ensures n == v * radix + d <==> v == n / radix && d == n % radix
  {
    assert n == n / radix * radix + n % radix;
    if n == v * radix + d {
      var k := v - n / radix;
      assert k * radix == n % radix - d;
      MultiplesApart(k, radix);
    }
  }

  /** Reading digits gives `n` for the numerals of `n` and for nothing else. */
  lemma {:induction false} NumeralIff(s: bytes, n: nat, radix: nat)
    requires 2 <= radix <= 16
    ensures DigitsValue(s, radix) == Some(n) <==> Numeral(s, n, radix)
    decreases |s|
  {
    hide Digit, StandsFor;
    if s != [] {
      var front, last := s[..|s| - 1], s[|s| - 1];
      DigitIff(last, radix, n % radix);
      NumeralIff(front, n / radix, radix);
      if DigitsValue(front, radix).Some? && Digit(last, radix).Some? {
        DigitIff(last, radix, Digit(last, radix).value);
        LastDigit(DigitsValue(front, radix).value, Digit(last, radix).value, n, radix);
      }
      LastDigit(n / radix, n % radix, n, radix);
    }
  }

  lemma PlusIsNoDigit(d: nat)
    ensures !StandsFor(43, d)
  {
    hide Ascii;
    DigitBytes();
  }

  lemma {:induction false} NoPlusInFront(s: bytes, n: nat, radix: nat)
    requires 2 <= radix <= 16 && Numeral(s, n, radix) && s != []
    ensures s[0] != 43
    decreases |s|
  {
    hide StandsFor;
    if |s| == 1 {
      PlusIsNoDigit(n % radix);
    } else {
      NoPlusInFront(s[..|s| - 1], n / radix, radix);
    }
  }

  /** A numeral of `n`, a '+' in front or not. */
  ghost predicate IsNumber(s: bytes, n: nat, radix: nat)
    requires 2 <= radix <= 16
  {
    exists t :: t != [] && Numeral(t, n, radix) && (s == t || s == Ascii("+") + t)
  }

  /** Parsing accepts exactly the numerals below the limit, with or without a '+' in front. */
  lemma UnsignedIff(s: bytes, n: nat, radix: nat, limit: nat)
    requires 2 <= radix <= 16
    ensures ParseUnsigned(s, radix, limit) == Some(n) <==>
            n < limit && IsNumber(s, n, radix)
  {
    hide DigitsValue, Numeral;
    assert Ascii("+") == [43];
    if ParseUnsigned(s, radix, limit) == Some(n) {
      var t := if |s| > 1 && s[0] == 43 then s[1..] else s;
      NumeralIff(t, n, radix);
      assert s == t || s == [43] + t;
    }
    forall t | t != [] && Numeral(t, n, radix) && (s == t || s == [43] + t)
      ensures n < limit ==> ParseUnsigned(s, radix, limit) == Some(n)
    {
      NumeralIff(t, n, radix);
      NoPlusInFront(t, n, radix);
      assert ([43] + t)[1..] == t;
    }
  }

  /** A number in decimal, as Rust writes it. */
  function Decimal(n: nat): bytes {
    (if n < 10 then [] else Decimal(n / 10)) + [48 + n % 10]
  }

  lemma {:induction false} DecimalParses(n: nat)
    ensures Decimal(n) != [] && DigitsValue(Decimal(n), 10) == Some(n)
    ensures forall b | b in Decimal(n) :: 48 <= b <= 57
    decreases n
  {
    var front: bytes := if n < 10 then [] else Decimal(n / 10);
    if n >= 10 {
      DecimalParses(n / 10);
    }
    assert Decimal(n)[..|Decimal(n)| - 1] == front;
    assert n / 10 * 10 + n % 10 == n;
  }

  /** A number written in decimal reads back wherever it is in range. */
  lemma DecimalReads(n: nat, limit: nat)
    requires n < limit
    ensures ParseUnsigned(Decimal(n), 10, limit) == Some(n)
  {
    hide Decimal, DigitsValue;
    DecimalParses(n);
    assert Decimal(n)[0] in Decimal(n);
  }

  // ---- Searching ----

  predicate At(buf: bytes, pat: bytes, p: nat) {
    p + |pat| <= |buf| && buf[p..p + |pat|] == pat
  }

  /** Position of the first occurrence of `pat`. */
  function Position(buf: bytes, pat: bytes): (r: Option<nat>)
    ensures r.Some? ==> r.value + |pat| <= |buf|
  {
    if |buf| < |pat| then None
    else if buf[..|pat|] == pat then Some(0)
    else if buf == [] then None
    else
      match Position(buf[1..], pat)
      case None => None
      case Some(p) => Some(p + 1)
  }

  lemma {:induction false} PositionIsFirst(buf: bytes, pat: bytes)
    ensures match Position(buf, pat)
            case None => forall q: nat :: !At(buf, pat, q)
            case Some(p) => At(buf, pat, p) && forall q: nat | q < p :: !At(buf, pat, q)
    decreases |buf|
  {
    if |buf| >= |pat| && buf[..|pat|] != pat && buf != [] {
      PositionIsFirst(buf[1..], pat);
      forall q: nat
        ensures At(buf, pat, q) <==> q > 0 && At(buf[1..], pat, q - 1)
      {
        if q > 0 && q + |pat| <= |buf| {
          assert buf[1..][q - 1..q - 1 + |pat|] == buf[q..q + |pat|];
        }
      }
    }
  }

  /** The first occurrence is where nothing earlier is one; later bytes do not move it. */
  lemma PositionUnique(buf: bytes, pat: bytes, p: nat)
    requires At(buf, pat, p) && forall q: nat | q < p :: !At(buf, pat, q)
    ensures Position(buf, pat) == Some(p)
  {
    hide Position;
    PositionIsFirst(buf, pat);
  }

  lemma ByteFound(front: bytes, b: byte, tail: bytes)
    requires b !in front
    ensures var s := front + [b] + tail;
            Position(s, [b]) == Some(|front|) && s[..|front|] == front && s[|front| + 1..] == tail
  {
    hide Position;
    var s := front + [b] + tail;
    assert s[|front|..|front| + 1] == [b];
    forall q: nat | q < |front|
      ensures !At(s, [b], q)
    {
      assert s[q..q + 1][0] == front[q];
    }
    PositionUnique(s, [b], |front|);
  }

  lemma PositionStable(buf: bytes, more: bytes, pat: bytes)
    ensures Position(buf, pat).Some? ==> Position(buf + more, pat) == Position(buf, pat)
    ensures Position(buf, pat).None? && Position(buf + more, pat).Some? ==>
              Position(buf + more, pat).value + |pat| > |buf|
  {
    hide Position;
    PositionIsFirst(buf, pat);
    PositionIsFirst(buf + more, pat);
    forall q: nat | q + |pat| <= |buf|
      ensures At(buf, pat, q) <==> At(buf + more, pat, q)
    {
      assert (buf + more)[q..q + |pat|] == buf[q..q + |pat|];
    }
  }
}
