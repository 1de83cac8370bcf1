/** The PEM splitter and base64 decoder of `drift-core/src/tls.rs`. */
module Pem {
  import opened Bytes
  import opened Text

  // ---- Base64 decoding ----

  datatype Base64Error = InvalidByte

  type sextet = b: byte | b < 64

  function Sextet(c: byte): Option<sextet> {
    if 65 <= c <= 90 then Some(c - 65)
    else if 97 <= c <= 122 then Some(26 + c - 97)
    else if 48 <= c <= 57 then Some(52 + c - 48)
    else if c == 43 then Some(62)
    else if c == 47 then Some(63)
    else None
  }

  predicate Skipped(c: byte) {
    c == 61 || c == 32 || c == 9 || c == 10 || c == 12 || c == 13
  }

  /** The sextets a text spells; padding and white space count for nothing. */
  function Sextets(s: bytes): Result<seq<sextet>, Base64Error> {
    if s == [] then Ok([])
    else
      var c := s[|s| - 1];
      match Sextets(s[..|s| - 1])
      case Err(e) => Err(e)
      case Ok(ds) => if Skipped(c) then Ok(ds) else if Sextet(c).None? then Err(InvalidByte) else Ok(ds + [Sextet(c).value])
  }

  /** The number sextets write, most significant first, however large. */
  function Number(ds: seq<sextet>): nat {
    if ds == [] then 0 else 64 * Number(ds[..|ds| - 1]) + ds[|ds| - 1]
  }

  /** The low `k` bytes of `n`, most significant first. */
  function BigEndian(n: nat, k: nat): bytes {
    if k == 0 then [] else BigEndian(n / 256, k - 1) + [n % 256]
  }

  /** `v` without the bits of its `n` sextets that do not make a whole byte. */
  function DropSpare(v: nat, n: nat): nat {
    match n % 4
    case 0 => v
    case 1 => v / 64
    case 2 => v / 16
    case _ => v / 4
  }

  function ByteCount(n: nat): nat {
    6 * n / 8
  }

  predicate StartsGroup(n: nat) {
    n % 4 == 1
  }

  /** The whole bytes among the bits of `n` sextets that write the number `v`. */
  function WholeBytes(v: nat, n: nat): bytes {
    BigEndian(DropSpare(v, n), ByteCount(n))
  }

  function BytesOf(ds: seq<sextet>): bytes {
    WholeBytes(Number(ds), |ds|)
  }

  /** What the last of `n` sextets completes: the last whole byte above the spare bits, or nothing. */
  function Completed(v: nat, n: nat): bytes {
    if StartsGroup(n) then [] else [DropSpare(v, n) % 256]
  }

  /** The decoder over unbounded integers; section 4 of RFC 4648. */
  function Decoded(s: bytes): Result<bytes, Base64Error> {
    match Sextets(s)
    case Err(e) => Err(e)
    case Ok(ds) => Ok(BytesOf(ds))
  }

  lemma NumberSnoc(ds: seq<sextet>, d: sextet)
    ensures Number(ds + [d]) == 64 * Number(ds) + d
  {
    assert (ds + [d])[..|ds|] == ds;
  }

  lemma ShiftedBytes(u: nat, d: sextet)
    ensures (64 * u + d) / 64 == u && (64 * u + d) / 256 == u / 4
    ensures (64 * u + d) / 16 / 256 == u / 64
    ensures (64 * u + d) / 4 / 256 == u / 16
  {
    assert (64 * u + d) / 16 == 4 * u + d / 16;
    assert (64 * u + d) / 4 == 16 * u + d / 4;
  }

  /** Shifting in a sextet moves the bits already there up by six. */
  lemma SextetShift(u: nat, d: sextet, n: nat)
    ensures var w := DropSpare(64 * u + d, n + 1);
            DropSpare(u, n) == if StartsGroup(n + 1) then w else w / 256
  {
    ShiftedBytes(u, d);
    match n % 4 {
      case 0 => assert (n + 1) % 4 == 1;
      case 1 => assert (n + 1) % 4 == 2;
      case 2 => assert (n + 1) % 4 == 3;
      case _ => assert (n + 1) % 4 == 0;
    }
  }

  lemma CountStep(n: nat)
    ensures ByteCount(n + 1) == if StartsGroup(n + 1) then ByteCount(n) else ByteCount(n) + 1
  {
    assert n == 4 * (n / 4) + n % 4;
  }

  lemma BigEndianNext(w: nat, k: nat)
    ensures BigEndian(w, k + 1) == BigEndian(w / 256, k) + [w % 256]
    ensures BigEndian(w, k) + [] == BigEndian(w, k)
  {
  }

  lemma NextBytes(u: nat, d: sextet, n: nat)
    ensures WholeBytes(64 * u + d, n + 1) == WholeBytes(u, n) + Completed(64 * u + d, n + 1)
  {
    CountStep(n);
    SextetShift(u, d, n);
    hide DropSpare, BigEndian, StartsGroup, ByteCount;
    BigEndianNext(DropSpare(64 * u + d, n + 1), ByteCount(n));
  }

  /** A further sextet completes a byte unless it starts a group of four. */
  lemma {:induction false} BytesSnoc(ds: seq<sextet>, d: sextet)
    ensures BytesOf(ds + [d]) == BytesOf(ds) + Completed(64 * Number(ds) + d, |ds| + 1)
  {
    NumberSnoc(ds, d);
    hide Number, WholeBytes, Completed;
    NextBytes(Number(ds), d, |ds|);
  }

  lemma SameLowByte(x: nat, y: nat, m: nat)
    requires x == 256 * m + y
    ensures x % 256 == y % 256
  {
  }

  /** A byte taken from the low 32 bits of a number is the number's own. */
  lemma HighBitsDrop(v: nat, low: nat, q: nat, n: nat)
    requires v == 0x1_0000_0000 * q + low && low < 0x1_0000_0000
    ensures v % 0x1_0000_0000 == low && Completed(low, n) == Completed(v, n)
  {
    if n % 4 == 0 {
      SameLowByte(v, low, 0x100_0000 * q);
    } else if n % 4 == 3 {
      assert v / 4 == 0x4000_0000 * q + low / 4;
      SameLowByte(v / 4, low / 4, 0x40_0000 * q);
    } else if n % 4 == 2 {
      assert v / 16 == 0x1000_0000 * q + low / 16;
      SameLowByte(v / 16, low / 16, 0x10_0000 * q);
    }
  }

  lemma ShiftedWord(buf: u32)
    ensures buf * 64 % 0x1_0000_0000 == buf * 64 - 0x1_0000_0000 * (buf / 0x400_0000)
    ensures buf * 64 % 0x1_0000_0000 <= 0x1_0000_0000 - 64
  {
  }

  /** The never-masked 32-bit accumulator agrees with the unbounded number wherever a byte is taken from it. */
  lemma AccumulatorAgrees(v: nat, buf: u32, d: sextet, n: nat)
    requires buf == v % 0x1_0000_0000
    ensures var (v', buf') := (64 * v + d, buf * 64 % 0x1_0000_0000 + d);
            buf' == v' % 0x1_0000_0000 && Completed(buf', n) == Completed(v', n)
  {
    hide Completed;
    var q := v / 0x1_0000_0000;
    assert v == 0x1_0000_0000 * q + buf;
    var r := buf / 0x400_0000;
    ShiftedWord(buf);
    var v', buf' := 64 * v + d, buf * 64 % 0x1_0000_0000 + d;
    assert v' == 0x1_0000_0000 * (64 * q + r) + buf';
    HighBitsDrop(v', buf', 64 * q + r, n);
  }

  lemma {:induction false} ErrorsPersist(s: bytes, i: nat)
    requires i <= |s| && Sextets(s[..i]).Err?
    ensures Sextets(s) == Err(InvalidByte)
    decreases |s|
  {
    if i == |s| {
      assert s[..i] == s;
      if Sextets(s[..|s| - 1]).Err? {
        assert s[..|s| - 1][..|s| - 1] == s[..|s| - 1];
        ErrorsPersist(s[..|s| - 1], |s| - 1);
      }
    } else {
      assert s[..|s| - 1][..i] == s[..i];
      ErrorsPersist(s[..|s| - 1], i);
    }
  }

  // ---- The decoding loop ----

  /** `n >> k` on an unsigned word. */
  function ShiftRight(n: u32, k: nat): u32 {
    if k == 0 then n else ShiftRight(n / 2, k - 1)
  }

  /** The bits left over after `n` sextets. */
  function SpareBits(n: nat): nat {
    match n % 4
    case 0 => 0
    case 1 => 6
    case 2 => 4
    case _ => 2
  }

  lemma ShiftDrops(buf: u32, n: nat)
    requires !StartsGroup(n)
    ensures ShiftRight(buf, SpareBits(n)) == DropSpare(buf, n)
  {
    var half := buf / 2;
    assert half / 2 == buf / 4;
    var eighth := half / 2 / 2;
    assert eighth / 2 == buf / 16;
    assert ShiftRight(buf, 2) == ShiftRight(half, 1) == ShiftRight(half / 2, 0);
    assert ShiftRight(buf, 4) == ShiftRight(half, 3) == ShiftRight(half / 2, 2) == ShiftRight(eighth, 1) == ShiftRight(eighth / 2, 0);
  }

  lemma SpareStep(n: nat)
    ensures SpareBits(n + 1) == if StartsGroup(n + 1) then SpareBits(n) + 6 else SpareBits(n) + 6 - 8
    ensures StartsGroup(n + 1) <==> SpareBits(n) + 6 < 8
  {
  }

  /** One turn of the loop, from the word and bit count the source keeps. */
  lemma {:induction false} TurnAgrees(ds: seq<sextet>, d: sextet, buf: u32, bits: nat)
    requires buf == Number(ds) % 0x1_0000_0000 && bits == SpareBits(|ds|)
    ensures var (buf', bits') := (buf * 64 % 0x1_0000_0000 + d, bits + 6);
            && buf' < 0x1_0000_0000 && buf' == Number(ds + [d]) % 0x1_0000_0000
            && (bits' < 8 ==> bits' == SpareBits(|ds| + 1) && BytesOf(ds + [d]) == BytesOf(ds))
            && (bits' >= 8 ==> && bits' - 8 == SpareBits(|ds| + 1)
                               && BytesOf(ds + [d]) == BytesOf(ds) + [ShiftRight(buf', bits' - 8) % 256])
  {
    NumberSnoc(ds, d);
    BytesSnoc(ds, d);
    SpareStep(|ds|);
    var n := |ds| + 1;
    AccumulatorAgrees(Number(ds), buf, d, n);
    hide Number, BytesOf, DropSpare, SpareBits, StartsGroup, ShiftRight;
    if bits + 6 >= 8 {
      ShiftDrops(buf * 64 % 0x1_0000_0000 + d, n);
    } else {
      assert BytesOf(ds) + [] == BytesOf(ds);
    }
  }

  lemma SextetsSnoc(s: bytes, c: byte)
    ensures Sextets(s + [c]) ==
            match Sextets(s)
            case Err(e) => Err(e)
            case Ok(ds) => if Skipped(c) then Ok(ds) else if Sextet(c).None? then Err(InvalidByte) else Ok(ds + [Sextet(c).value])
  {
    assert (s + [c])[..|s|] == s;
  }

  method Base64Decode(s: bytes) returns (r: Result<bytes, Base64Error>)
    ensures r == Decoded(s)
  {
    var out: bytes, buf: u32, bits: nat := [], 0, 0;
    ghost var ds: seq<sextet> := [];
    for i := 0 to |s|
      invariant Sextets(s[..i]) == Ok(ds)
      invariant bits == SpareBits(|ds|)
      invariant buf == Number(ds) % 0x1_0000_0000
      invariant out == BytesOf(ds)
    {
      hide Sextets, Number, BytesOf, SpareBits, ShiftRight;
      var c := s[i];
      SextetsSnoc(s[..i], c);
      assert s[..i] + [c] == s[..i + 1];
      if Skipped(c) {
        continue;
      }
      match Sextet(c) {
        case None =>
          ErrorsPersist(s, i + 1);
          return Err(InvalidByte);
        case Some(d) =>
          TurnAgrees(ds, d, buf, bits);
          buf := buf * 64 % 0x1_0000_0000 + d;
          bits := bits + 6;
          if bits >= 8 {
            bits := bits - 8;
            out := out + [ShiftRight(buf, bits) % 256];
          }
          ds := ds + [d];
      }
    }
    assert s[..|s|] == s;
    return Ok(out);
  }

  // ---- The encoding of section 4 of RFC 4648 ----

  function Alphabet(d: sextet): byte
  {
    if d < 26 then 65 + d else if d < 52 then 97 + (d - 26) else if d < 62 then 48 + (d - 52) else if d == 62 then 43 else 47
  }

  /** Three bytes as four sextets. */
  function Quad(x: byte, y: byte, z: byte): (q: seq<sextet>)
    ensures |q| == 4
  {
    [x / 4, x % 4 * 16 + y / 16, y % 16 * 4 + z / 64, z % 64]
  }

  /** The sextets of a byte string; a last group of one or two bytes gives two or three. */
  function SextetsOf(data: bytes): (ds: seq<sextet>)
  {
    if data == [] then []
    else if |data| == 1 then Quad(data[0], 0, 0)[..2]
    else if |data| == 2 then Quad(data[0], data[1], 0)[..3]
    else Quad(data[0], data[1], data[2]) + SextetsOf(data[3..])
  }

  function Spelled(ds: seq<sextet>): bytes
  {
    if ds == [] then [] else Spelled(ds[..|ds| - 1]) + [Alphabet(ds[|ds| - 1])]
  }

  function Padding(n: nat): bytes {
    match n % 3
    case 0 => []
    case 1 => [61, 61]
    case _ => [61]
  }

  function Base64Text(data: bytes, padded: bool): bytes {
    Spelled(SextetsOf(data)) + if padded then Padding(|data|) else []
  }

  // ---- Round trip ----

  lemma {:induction false} SpelledReads(ds: seq<sextet>)
    ensures Sextets(Spelled(ds)) == Ok(ds)
  {
    if ds != [] {
      var ds', d := ds[..|ds| - 1], ds[|ds| - 1];
      SpelledReads(ds');
      assert ds' + [d] == ds;
      SextetsSnoc(Spelled(ds'), Alphabet(d));
    }
  }

  lemma PaddingReads(s: bytes, n: nat)
    ensures Sextets(s + Padding(n)) == Sextets(s)
  {
    SextetsSnoc(s, 61);
    SextetsSnoc(s + [61], 61);
    assert s + [61] + [61] == s + [61, 61];
    assert s + [] == s;
  }

  lemma Quarter(m: nat, k: nat)
    requires k < 4
    ensures (4 * m + k) / 4 == m
  {
  }

  lemma SharedBits(w: nat, b: nat, hi: nat, lo: nat, k: nat)
    requires b < 4 && hi < 16 && lo < 16 && k < 4
    ensures (64 * (64 * w + (b * 16 + hi)) + (lo * 4 + k)) / 4 % 256 == 16 * hi + lo
  {
    var m, y := 4 * w + b, 16 * hi + lo;
    assert 64 * (64 * w + (b * 16 + hi)) + (lo * 4 + k) == 4 * (256 * m + y) + k;
    Quarter(256 * m + y, k);
    SameLowByte(256 * m + y, y, m);
  }

  lemma FirstOfQuad(u: nat, x: byte, y: byte, n: nat)
    requires n % 4 == 2
    ensures Completed(64 * (64 * u + x / 4) + (x % 4 * 16 + y / 16), n) == [x]
  {
    assert (64 * (64 * u + x / 4) + (x % 4 * 16 + y / 16)) / 16 == 256 * u + x;
  }

  lemma SecondOfQuad(w: nat, x: byte, y: byte, z: byte, n: nat)
    requires n % 4 == 3
    ensures Completed(64 * (64 * w + (x % 4 * 16 + y / 16)) + (y % 16 * 4 + z / 64), n) == [y]
  {
    SharedBits(w, x % 4, y / 16, y % 16, z / 64);
  }

  lemma ThirdOfQuad(v: nat, y: byte, z: byte, n: nat)
    requires n % 4 == 0
    ensures Completed(64 * (64 * v + (y % 16 * 4 + z / 64)) + z % 64, n) == [z]
  {
    var c, k := y % 16, z / 64;
    assert 64 * (64 * v + (c * 4 + k)) + z % 64 == 256 * (16 * v + c) + z;
    SameLowByte(256 * (16 * v + c) + z, z, 16 * v + c);
  }

  lemma QuadCompletes(u: nat, n: nat, x: byte, y: byte, z: byte)
    requires n % 4 == 0
    ensures var q := Quad(x, y, z);
            var v1 := 64 * u + q[0];
            var v2 := 64 * v1 + q[1];
            var v3 := 64 * v2 + q[2];
            && Completed(v1, n + 1) == [] && Completed(v2, n + 2) == [x]
            && Completed(v3, n + 3) == [y] && Completed(64 * v3 + q[3], n + 4) == [z]
  {
    var q := Quad(x, y, z);
    var v1 := 64 * u + q[0];
    var v2 := 64 * v1 + q[1];
    assert Completed(v1, n + 1) == [];
    hide Completed;
    FirstOfQuad(u, x, y, n + 2);
    SecondOfQuad(v1, x, y, z, n + 3);
    ThirdOfQuad(v2, y, z, n + 4);
  }

  lemma FourMore(ds: seq<sextet>, q: seq<sextet>)
    requires |q| == 4
    ensures ds + [q[0]] + [q[1]] == ds + q[..2] && ds + [q[0]] + [q[1]] + [q[2]] == ds + q[..3]
    ensures ds + [q[0]] + [q[1]] + [q[2]] + [q[3]] == ds + q
  {
  }

  lemma ThreeMore(b: bytes, x: byte, y: byte, z: byte)
    ensures b + [] + [x] == b + [x] && b + [] + [x] + [y] == b + [x, y]
    ensures b + [] + [x] + [y] + [z] == b + [x, y, z]
  {
  }

  predicate Spells(ds: seq<sextet>, v: nat, out: bytes) {
    Number(ds) == v && BytesOf(ds) == out
  }

  lemma SpellsSnoc(ds: seq<sextet>, d: sextet, v: nat, out: bytes)
    requires Spells(ds, v, out)
    ensures Spells(ds + [d], 64 * v + d, out + Completed(64 * v + d, |ds| + 1))
  {
    NumberSnoc(ds, d);
    BytesSnoc(ds, d);
  }

  lemma QuadSpells(ds: seq<sextet>, u: nat, out: bytes, x: byte, y: byte, z: byte)
    requires |ds| % 4 == 0 && Spells(ds, u, out)
    ensures var q := Quad(x, y, z);
            var v2 := 64 * (64 * u + q[0]) + q[1];
            var v3 := 64 * v2 + q[2];
            && Spells(ds + [q[0]] + [q[1]], v2, out + [] + [x])
            && Spells(ds + [q[0]] + [q[1]] + [q[2]], v3, out + [] + [x] + [y])
            && Spells(ds + [q[0]] + [q[1]] + [q[2]] + [q[3]], 64 * v3 + q[3], out + [] + [x] + [y] + [z])
  {
    hide Completed, Spells;
    QuadCompletes(u, |ds|, x, y, z);
    var q := Quad(x, y, z);
    hide Quad;
    var v1 := 64 * u + q[0];
    var v2 := 64 * v1 + q[1];
    SpellsSnoc(ds, q[0], u, out);
    SpellsSnoc(ds + [q[0]], q[1], v1, out + []);
    SpellsSnoc(ds + [q[0]] + [q[1]], q[2], v2, out + [] + [x]);
    SpellsSnoc(ds + [q[0]] + [q[1]] + [q[2]], q[3], 64 * v2 + q[2], out + [] + [x] + [y]);
  }

  lemma QuadDecodes(ds: seq<sextet>, x: byte, y: byte, z: byte)
    requires |ds| % 4 == 0
    ensures var q := Quad(x, y, z);
            && BytesOf(ds + q[..2]) == BytesOf(ds) + [x] && BytesOf(ds + q[..3]) == BytesOf(ds) + [x, y]
            && BytesOf(ds + q) == BytesOf(ds) + [x, y, z]
  {
    hide BytesOf, Quad, Number;
    QuadSpells(ds, Number(ds), BytesOf(ds), x, y, z);
    FourMore(ds, Quad(x, y, z));
    ThreeMore(BytesOf(ds), x, y, z);
  }

  lemma {:induction false} GroupsDecode(ds: seq<sextet>, data: bytes)
    requires |ds| % 4 == 0
    ensures BytesOf(ds + SextetsOf(data)) == BytesOf(ds) + data
    decreases |data|
  {
    hide BytesOf;
    if data == [] {
      assert ds + [] == ds && BytesOf(ds) + [] == BytesOf(ds);
    } else if |data| == 1 {
      QuadDecodes(ds, data[0], 0, 0);
      assert data == [data[0]];
    } else if |data| == 2 {
      QuadDecodes(ds, data[0], data[1], 0);
      assert data == [data[0], data[1]];
    } else {
      var q, more := Quad(data[0], data[1], data[2]), data[3..];
      QuadDecodes(ds, data[0], data[1], data[2]);
      GroupsDecode(ds + q, more);
      assert SextetsOf(data) == q + SextetsOf(more);
      hide Quad, SextetsOf;
      assert ds + (q + SextetsOf(more)) == ds + q + SextetsOf(more);
      assert BytesOf(ds) + [data[0], data[1], data[2]] + more == BytesOf(ds) + data;
    }
  }

  lemma Base64RoundTrip(data: bytes, padded: bool)
    ensures Decoded(Base64Text(data, padded)) == Ok(data)
  {
    GroupsDecode([], data);
    var ds := SextetsOf(data);
    SpelledReads(ds);
    PaddingReads(Spelled(ds), |data|);
    assert Spelled(ds) + [] == Spelled(ds);
    assert [] + ds == ds && [] + data == data;
    assert BytesOf([]) == [];
  }

  // ---- Which texts decode ----

  /** Table 1 of RFC 4648. */
  predicate Encodes(c: byte, d: sextet) {
    if d < 26 then c == CAPITAL_LETTERS[d]
    else if d < 52 then c == SMALL_LETTERS[d - 26]
    else if d < 62 then c == DIGITS[d - 52]
    else c == if d == 62 then '+' as int else '/' as int
  }

  lemma SextetIff(c: byte, d: sextet)
    ensures Sextet(c) == Some(d) <==> Encodes(c, d)
  {
    hide Ascii;
    CapitalBytes();
    SmallBytes();
    DigitBytes();
  }

  /** Padding, and ASCII white space. */
  predicate CountsForNothing(c: byte) {
    c == '=' as int || c == ' ' as int || c == '\t' as int || c == '\n' as int || c == 0x0C || c == '\r' as int
  }

  /** The text writes these sextets, with padding and white space anywhere. */
  predicate Writes(s: bytes, ds: seq<sextet>) {
    if s == [] then ds == []
    else
      var front, c := s[..|s| - 1], s[|s| - 1];
      || (CountsForNothing(c) && Writes(front, ds))
      || (ds != [] && Encodes(c, ds[|ds| - 1]) && Writes(front, ds[..|ds| - 1]))
  }

  lemma SkippedIff(c: byte)
    ensures Skipped(c) <==> CountsForNothing(c)
    ensures Skipped(c) ==> Sextet(c).None?
  {
  }

  lemma {:induction false} SextetsIff(s: bytes, ds: seq<sextet>)
    ensures Sextets(s) == Ok(ds) <==> Writes(s, ds)
    decreases |s|
  {
    hide Skipped, CountsForNothing, Sextet, Encodes;
    if s != [] {
      var front, c := s[..|s| - 1], s[|s| - 1];
      SkippedIff(c);
      SextetsIff(front, ds);
      if Sextet(c).Some? {
        SextetIff(c, Sextet(c).value);
      }
      if ds != [] {
        var d := ds[|ds| - 1];
        assert ds == ds[..|ds| - 1] + [d];
        SextetsIff(front, ds[..|ds| - 1]);
        SextetIff(c, d);
      }
      if Sextets(front).Ok? && Sextet(c).Some? {
        var all := Sextets(front).value + [Sextet(c).value];
        assert all[..|all| - 1] == Sextets(front).value;
      }
    }
  }

  /**
   The decoder accepts exactly the texts over the alphabet of RFC 4648 with padding and white space anywhere, and gives
   the whole bytes among the bits of the sextets they write.
   */
  lemma DecodedIff(s: bytes, data: bytes)
    ensures Decoded(s) == Ok(data) <==> exists ds :: Writes(s, ds) && data == BytesOf(ds)
  {
    hide Sextets, Writes, BytesOf;
    if Sextets(s).Ok? {
      SextetsIff(s, Sextets(s).value);
    }
    forall ds | Writes(s, ds)
      ensures Sextets(s) == Ok(ds)
    {
      SextetsIff(s, ds);
    }
  }

  // ---- Lines ----

  /** A line without the carriage return before its line feed. */
  function WithoutCr(line: bytes): bytes {
    if line != [] && line[|line| - 1] == CR then line[..|line| - 1] else line
  }

  /** `str::lines`. */
  function Lines(text: bytes): seq<bytes>
    decreases |text|
  {
    if text == [] then []
    else
      match Position(text, [LF])
      case None => [text]
      case Some(p) => [WithoutCr(text[..p])] + Lines(text[p + 1..])
  }

  datatype Ending = Lf | CrLf

  function EndingBytes(e: Ending): bytes {
    match e
    case Lf => [LF]
    case CrLf => CRLF
  }

  /** A line that its ending can be told apart from. */
  predicate Plain(line: bytes, e: Ending) {
    LF !in line && (e.Lf? && line != [] ==> line[|line| - 1] != CR)
  }

  /** Lines written with an ending each; `open` leaves the last one without. */
  function Written(lines: seq<bytes>, endings: seq<Ending>, unended: bytes): bytes
    requires |lines| == |endings|
  {
    if lines == [] then unended
    else lines[0] + EndingBytes(endings[0]) + Written(lines[1..], endings[1..], unended)
  }

  lemma LineEndsAt(line: bytes, e: Ending, more: bytes)
    requires Plain(line, e)
    ensures var text := line + EndingBytes(e) + more;
            && Position(text, [LF]) == Some(|line| + |EndingBytes(e)| - 1)
            && text[|line| + |EndingBytes(e)|..] == more
            && WithoutCr(text[..|line| + |EndingBytes(e)| - 1]) == line
  {
    var text, p := line + EndingBytes(e) + more, |line| + |EndingBytes(e)| - 1;
    assert text[p..p + 1] == [LF];
    forall q: nat | q < p ensures !At(text, [LF], q) {
      assert text[q] != LF;
      assert text[q..q + 1][0] != LF;
    }
    PositionUnique(text, [LF], p);
    assert e.Lf? ==> text[..p] == line;
    assert e.CrLf? ==> text[..p] == line + [CR] && (line + [CR])[..|line|] == line;
  }

  lemma {:induction false} NoLineFeed(s: bytes)
    requires LF !in s
    ensures Position(s, [LF]) == None
  {
    if s != [] {
      assert s[..1][0] == s[0] && LF !in s[1..];
      NoLineFeed(s[1..]);
    }
  }

  lemma NoLineFeedBefore(text: bytes)
    requires LF in text
    ensures Position(text, [LF]).Some?
    ensures var p := Position(text, [LF]).value; LF !in text[..p] && text[p] == LF
  {
    PositionIsFirst(text, [LF]);
    hide Position;
    forall q: nat | q < |text|
      ensures At(text, [LF], q) <==> text[q] == LF
    {
      assert text[q..q + 1] == [text[q]];
    }
  }

  lemma LinesCons(line: bytes, e: Ending, more: bytes)
    requires Plain(line, e)
    ensures Lines(line + EndingBytes(e) + more) == [line] + Lines(more)
  {
    LineEndsAt(line, e, more);
    hide Position, WithoutCr, Plain, EndingBytes;
    var text := line + EndingBytes(e) + more;
    assert text[|line| + |EndingBytes(e)| - 1 + 1..] == more;
  }

  lemma {:induction false} LinesOfWritten(lines: seq<bytes>, endings: seq<Ending>, unended: bytes)
    requires |lines| == |endings| && (forall i | 0 <= i < |lines| :: Plain(lines[i], endings[i])) && LF !in unended
    ensures Lines(Written(lines, endings, unended)) == lines + if unended == [] then [] else [unended]
    decreases |lines|
  {
    hide Plain, EndingBytes, Position;
    if lines == [] {
      NoLineFeed(unended);
      assert lines + [unended] == [unended];
    } else {
      var more := Written(lines[1..], endings[1..], unended);
      LinesOfWritten(lines[1..], endings[1..], unended);
      LinesCons(lines[0], endings[0], more);
      hide Lines;
      assert lines == [lines[0]] + lines[1..];
    }
  }

  lemma FirstLineOf(text: bytes) returns (line: bytes, e: Ending, more: bytes)
    requires LF in text
    ensures Plain(line, e) && text == line + EndingBytes(e) + more && |more| < |text|
  {
    NoLineFeedBefore(text);
    var p := Position(text, [LF]).value;
    hide Position;
    more := text[p + 1..];
    if p > 0 && text[p - 1] == CR {
      line, e := text[..p - 1], CrLf;
      assert text == text[..p - 1] + [text[p - 1], text[p]] + more;
    } else {
      line, e := text[..p], Lf;
      assert text == text[..p] + [text[p]] + more;
    }
  }

  /** Every text is written so, and so what `Lines` makes of any text is known. */
  lemma {:induction false} EveryTextIsWritten(text: bytes)
    returns (lines: seq<bytes>, endings: seq<Ending>, unended: bytes)
    ensures |lines| == |endings| && (forall i | 0 <= i < |lines| :: Plain(lines[i], endings[i])) && LF !in unended
    ensures text == Written(lines, endings, unended)
    decreases |text|
  {
    hide Plain, EndingBytes;
    if LF !in text {
      lines, endings, unended := [], [], text;
    } else {
      var line, e, more := FirstLineOf(text);
      lines, endings, unended := EveryTextIsWritten(more);
      lines, endings := [line] + lines, [e] + endings;
      assert Written(lines, endings, unended) == line + EndingBytes(e) + Written(lines[1..], endings[1..], unended);
    }
  }

  // ---- The certificates of a file ----

  const BEGIN := Ascii("-----BEGIN CERTIFICATE-----")
  const END := Ascii("-----END CERTIFICATE-----")

  /** The loop state of `split_pem_certs`: the text of the block being read, and the certificates so far. */
  datatype Splitter = Splitter(current: Option<bytes>, certs: seq<bytes>)

  function Next(st: Splitter, line: bytes): Splitter {
    var l := Trim(line);
    if l == BEGIN then st.(current := Some([]))
    else if l == END then
      if st.current.None? then st
      else
        match Decoded(st.current.value)
        case Ok(der) => Splitter(None, st.certs + [der])
        case Err(_) => st.(current := None)
    else if st.current.Some? then st.(current := Some(st.current.value + l))
    else st
  }

  function After(st: Splitter, lines: seq<bytes>): Splitter {
    if lines == [] then st else Next(After(st, lines[..|lines| - 1]), lines[|lines| - 1])
  }

  /** The certificates in a file. */
  function CertsIn(text: bytes): seq<bytes> {
    if ValidUtf8(text) then After(Splitter(None, []), Lines(text)).certs else []
  }

  method SplitPemCerts(text: bytes) returns (certs: seq<bytes>)
    ensures certs == CertsIn(text)
  {
    if !ValidUtf8(text) {
      return [];
    }
    certs := [];
    var current: Option<bytes> := None;
    var lines := Lines(text);
    for i := 0 to |lines|
      invariant After(Splitter(None, []), lines[..i]) == Splitter(current, certs)
    {
      assert lines[..i + 1][..i] == lines[..i];
      var line := Trim(lines[i]);
      if line == BEGIN {
        current := Some([]);
      } else if line == END {
        if current.Some? {
          var der := Base64Decode(current.value);
          current := None;
          if der.Ok? {
            certs := certs + [der.value];
          }
        }
      } else if current.Some? {
        current := Some(current.value + line);
      }
    }
    assert lines[..|lines|] == lines;
  }

  // ---- What a file is made of ----

  // The encapsulation boundaries of section 5.1 of RFC 7468.
  const BEGIN_BOUNDARY := Ascii("-----BEGIN CERTIFICATE-----")
  const END_BOUNDARY := Ascii("-----END CERTIFICATE-----")

  /** The text between two markers: its lines, trimmed, end to end. */
  function BodyText(body: seq<bytes>): bytes {
    if body == [] then [] else BodyText(body[..|body| - 1]) + Trim(body[|body| - 1])
  }

  predicate NoMarker(lines: seq<bytes>) {
    forall i | 0 <= i < |lines| :: Trim(lines[i]) != BEGIN_BOUNDARY && Trim(lines[i]) != END_BOUNDARY
  }

  lemma MarkersDiffer()
    ensures BEGIN_BOUNDARY != END_BOUNDARY && 45 in BEGIN_BOUNDARY && 45 in END_BOUNDARY
  {
    assert BEGIN_BOUNDARY[0] == 45 && END_BOUNDARY[0] == 45 && |BEGIN_BOUNDARY| != |END_BOUNDARY|;
  }

  // ---- Every file ----

  /** Line `b` is the latest BEGIN, and no END has come since. */
  predicate OpenSince(lines: seq<bytes>, b: nat) {
    b < |lines| && Trim(lines[b]) == BEGIN_BOUNDARY && NoMarker(lines[b + 1..])
  }

  /** The line that opened the block the lines end in. */
  function Opened(lines: seq<bytes>): (r: Option<nat>)
    ensures r.Some? ==> r.value < |lines|
  {
    if lines == [] then None
    else
      var last := Trim(lines[|lines| - 1]);
      if last == BEGIN_BOUNDARY then Some(|lines| - 1) else if last == END_BOUNDARY then None else Opened(lines[..|lines| - 1])
  }

  /** What a last line that is an END yields: the decoding of the lines since the latest BEGIN with no END between. */
  function YieldOfLast(lines: seq<bytes>): seq<bytes>
    requires lines != []
  {
    var before := lines[..|lines| - 1];
    if Trim(lines[|lines| - 1]) != END_BOUNDARY || Opened(before).None? then []
    else
      match Decoded(BodyText(before[Opened(before).value + 1..]))
      case Ok(der) => [der]
      case Err(_) => []
  }

  function Yields(lines: seq<bytes>): seq<bytes> {
    if lines == [] then [] else Yields(lines[..|lines| - 1]) + YieldOfLast(lines)
  }

  lemma NoMarkerSnoc(lines: seq<bytes>, line: bytes)
    ensures NoMarker(lines + [line]) <==> NoMarker(lines) && Trim(line) != BEGIN_BOUNDARY && Trim(line) != END_BOUNDARY
  {
    hide Trim;
    var all := lines + [line];
    assert all[|lines|] == line;
    assert forall i | 0 <= i < |lines| :: all[i] == lines[i];
  }

  lemma OpenSinceSnoc(lines: seq<bytes>, line: bytes, b: nat)
    ensures OpenSince(lines + [line], b) <==>
            if b == |lines| then Trim(line) == BEGIN_BOUNDARY
            else OpenSince(lines, b) && Trim(line) != BEGIN_BOUNDARY && Trim(line) != END_BOUNDARY
  {
    hide Trim;
    var all := lines + [line];
    if b < |lines| {
      NoMarkerSnoc(lines[b + 1..], line);
      hide NoMarker;
      assert all[b] == lines[b] && all[b + 1..] == lines[b + 1..] + [line];
    }
  }

  /** The recursion finds exactly the block that is open. */
  lemma {:induction false} OpenedIff(lines: seq<bytes>, b: nat)
    ensures Opened(lines) == Some(b) <==> OpenSince(lines, b)
    decreases |lines|
  {
    if lines != [] {
      var before, last := lines[..|lines| - 1], lines[|lines| - 1];
      MarkersDiffer();
      hide OpenSince, Trim;
      assert lines == before + [last];
      OpenSinceSnoc(before, last, b);
      OpenedIff(before, b);
      OpenedIff(before, |before|);
    }
  }

  lemma BodySnoc(body: seq<bytes>, line: bytes)
    ensures BodyText(body + [line]) == BodyText(body) + Trim(line)
  {
    hide Trim;
    assert (body + [line])[..|body|] == body;
  }

  lemma BodyGrows(lines: seq<bytes>, line: bytes, b: nat)
    requires b < |lines|
    ensures BodyText((lines + [line])[b + 1..]) == BodyText(lines[b + 1..]) + Trim(line)
  {
    hide Trim, BodyText;
    BodySnoc(lines[b + 1..], line);
    assert (lines + [line])[b + 1..] == lines[b + 1..] + [line];
  }

  /** The text of the block the lines end in. */
  function OpenText(lines: seq<bytes>): Option<bytes> {
    match Opened(lines)
    case None => None
    case Some(b) => Some(BodyText(lines[b + 1..]))
  }

  lemma OpenedSnoc(lines: seq<bytes>, line: bytes)
    ensures Opened(lines + [line]) ==
            if Trim(line) == BEGIN_BOUNDARY then Some(|lines|) else if Trim(line) == END_BOUNDARY then None else Opened(lines)
  {
    hide Trim;
    var all := lines + [line];
    assert all[..|lines|] == lines && all[|lines|] == line;
  }

  lemma OpenTextBegins(lines: seq<bytes>, line: bytes)
    requires Trim(line) == BEGIN_BOUNDARY
    ensures OpenText(lines + [line]) == Some([])
  {
    assert BodyText([]) == [];
    hide Trim, BodyText, Opened, Ascii;
    OpenedSnoc(lines, line);
    assert (lines + [line])[|lines| + 1..] == [];
  }

  lemma OpenTextEnds(lines: seq<bytes>, line: bytes)
    requires Trim(line) == END_BOUNDARY
    ensures OpenText(lines + [line]) == None
  {
    MarkersDiffer();
    hide Trim, BodyText, Opened, Ascii;
    OpenedSnoc(lines, line);
  }

  lemma OpenTextGoesOn(lines: seq<bytes>, line: bytes)
    requires Trim(line) != BEGIN_BOUNDARY && Trim(line) != END_BOUNDARY
    ensures OpenText(lines + [line]) ==
            match OpenText(lines) case None => None case Some(text) => Some(text + Trim(line))
  {
    hide Trim, BodyText, Opened, Ascii;
    OpenedSnoc(lines, line);
    if Opened(lines).Some? {
      BodyGrows(lines, line, Opened(lines).value);
    }
  }

  lemma OpenTextSnoc(lines: seq<bytes>, line: bytes)
    ensures var l := Trim(line);
            OpenText(lines + [line]) ==
            if l == BEGIN_BOUNDARY then Some([]) else if l == END_BOUNDARY || OpenText(lines).None? then None
            else Some(OpenText(lines).value + l)
  {
    hide Trim, OpenText, Opened, Ascii;
    if Trim(line) == BEGIN_BOUNDARY {
      OpenTextBegins(lines, line);
    } else if Trim(line) == END_BOUNDARY {
      OpenTextEnds(lines, line);
    } else {
      OpenTextGoesOn(lines, line);
    }
  }

  lemma YieldsSnoc(lines: seq<bytes>, line: bytes)
    ensures Yields(lines + [line]) == Yields(lines) +
            if Trim(line) != END_BOUNDARY || OpenText(lines).None? then []
            else match Decoded(OpenText(lines).value) case Ok(der) => [der] case Err(_) => []
  {
    hide Trim, BodyText, Opened, Decoded;
    var all := lines + [line];
    assert all[..|lines|] == lines && all[|lines|] == line;
  }

  /** The state the loop is in after any lines: the text since the open BEGIN, and what the ENDs so far have yielded. */
  lemma {:induction false} LoopState(lines: seq<bytes>)
    ensures After(Splitter(None, []), lines) == Splitter(OpenText(lines), Yields(lines))
    decreases |lines|
  {
    hide Trim, Decoded;
    if lines != [] {
      var before, last := lines[..|lines| - 1], lines[|lines| - 1];
      LoopState(before);
      MarkersDiffer();
      hide OpenText, Yields;
      assert lines == before + [last];
      OpenTextSnoc(before, last);
      YieldsSnoc(before, last);
      assert Yields(before) + [] == Yields(before);
    }
  }

  /**
   For every file: each END yields the decoding of the lines since the latest BEGIN with no END between, and nothing
   else yields anything, whatever the markers' order. A file that is not UTF-8 yields nothing.
   */
  lemma CertsOfEveryFile(text: bytes)
    ensures CertsIn(text) == if ValidUtf8(text) then Yields(Lines(text)) else []
  {
    hide ValidUtf8, Lines, After, Yields, OpenText;
    LoopState(Lines(text));
  }

  // ---- Files of blocks ----

  datatype Block =
    | Chatter(lines: seq<bytes>)
    | Certificate(begin: bytes, body: seq<bytes>, end: bytes, der: bytes, padded: bool)
    | Spoilt(begin: bytes, body: seq<bytes>, end: bytes)

  /**
   Text outside the blocks holds no BEGIN marker; a certificate is the RFC 4648 encoding of its DER, cut into
   lines anywhere and indented at will; a spoilt block is no base64.
   */
  predicate WellFormed(b: Block) {
    match b
    case Chatter(lines) => forall i | 0 <= i < |lines| :: Trim(lines[i]) != BEGIN_BOUNDARY
    case Certificate(begin, body, end, der, padded) =>
      Trim(begin) == BEGIN_BOUNDARY && Trim(end) == END_BOUNDARY && BodyText(body) == Base64Text(der, padded)
    case Spoilt(begin, body, end) =>
      Trim(begin) == BEGIN_BOUNDARY && Trim(end) == END_BOUNDARY && NoMarker(body) && Decoded(BodyText(body)).Err?
  }

  function BlockLines(b: Block): seq<bytes> {
    match b
    case Chatter(lines) => lines
    case Certificate(begin, body, end, _, _) => [begin] + body + [end]
    case Spoilt(begin, body, end) => [begin] + body + [end]
  }

  function FileLines(blocks: seq<Block>): seq<bytes> {
    if blocks == [] then [] else FileLines(blocks[..|blocks| - 1]) + BlockLines(blocks[|blocks| - 1])
  }

  /** The DER of every certificate block, in order. */
  function Ders(blocks: seq<Block>): seq<bytes> {
    if blocks == [] then []
    else
      var b := blocks[|blocks| - 1];
      Ders(blocks[..|blocks| - 1]) + if b.Certificate? then [b.der] else []
  }

  lemma {:induction false} AfterSum(st: Splitter, a: seq<bytes>, b: seq<bytes>)
    ensures After(st, a + b) == After(After(st, a), b)
    decreases |b|
  {
    hide Next;
    if b == [] {
      assert a + b == a;
    } else {
      assert (a + b)[..|a + b| - 1] == a + b[..|b| - 1];
      AfterSum(st, a, b[..|b| - 1]);
    }
  }

  lemma AfterOne(st: Splitter, line: bytes)
    ensures After(st, [line]) == Next(st, line)
  {
    hide Next;
    assert After(st, [line][..0]) == st;
  }

  lemma {:induction false} ChatterIgnored(lines: seq<bytes>, certs: seq<bytes>)
    requires forall i | 0 <= i < |lines| :: Trim(lines[i]) != BEGIN_BOUNDARY
    ensures After(Splitter(None, certs), lines) == Splitter(None, certs)
  {
    if lines != [] {
      ChatterIgnored(lines[..|lines| - 1], certs);
    }
  }

  lemma {:induction false} BodyGathered(body: seq<bytes>, certs: seq<bytes>)
    requires NoMarker(body)
    ensures After(Splitter(Some([]), certs), body) == Splitter(Some(BodyText(body)), certs)
  {
    if body != [] {
      BodyGathered(body[..|body| - 1], certs);
    }
  }

  lemma BlockRead(begin: bytes, body: seq<bytes>, end: bytes, certs: seq<bytes>)
    requires Trim(begin) == BEGIN_BOUNDARY && Trim(end) == END_BOUNDARY && NoMarker(body)
    ensures After(Splitter(None, certs), [begin] + body + [end])
            == Splitter(None, certs + match Decoded(BodyText(body)) case Ok(der) => [der] case Err(_) => [])
  {
    MarkersDiffer();
    var st := Splitter(None, certs);
    AfterSum(st, [begin] + body, [end]);
    AfterSum(st, [begin], body);
    AfterOne(st, begin);
    BodyGathered(body, certs);
    AfterOne(Splitter(Some(BodyText(body)), certs), end);
    assert certs + [] == certs;
  }

  lemma {:induction false} NoDashSpelled(ds: seq<sextet>)
    ensures 45 !in Spelled(ds)
  {
    if ds != [] {
      NoDashSpelled(ds[..|ds| - 1]);
    }
  }

  lemma NoDash(data: bytes, padded: bool)
    ensures 45 !in Base64Text(data, padded)
  {
    NoDashSpelled(SextetsOf(data));
  }

  lemma {:induction false} LineInBody(body: seq<bytes>, i: nat)
    requires i < |body|
    ensures forall b | b in Trim(body[i]) :: b in BodyText(body)
  {
    hide Trim;
    if i < |body| - 1 {
      LineInBody(body[..|body| - 1], i);
    }
  }

  lemma EncodedBodyHasNoMarker(body: seq<bytes>, der: bytes, padded: bool)
    requires BodyText(body) == Base64Text(der, padded)
    ensures NoMarker(body)
  {
    NoDash(der, padded);
    MarkersDiffer();
    hide Base64Text, Trim, BodyText;
    forall i | 0 <= i < |body|
      ensures Trim(body[i]) != BEGIN_BOUNDARY && Trim(body[i]) != END_BOUNDARY
    {
      LineInBody(body, i);
    }
  }

  lemma BlockOnce(b: Block, certs: seq<bytes>)
    requires WellFormed(b)
    ensures After(Splitter(None, certs), BlockLines(b)) == Splitter(None, certs + if b.Certificate? then [b.der] else [])
  {
    match b {
      case Chatter(lines) =>
        ChatterIgnored(lines, certs);
        assert certs + [] == certs;
      case Certificate(begin, body, end, der, padded) =>
        Base64RoundTrip(der, padded);
        EncodedBodyHasNoMarker(body, der, padded);
        BlockRead(begin, body, end, certs);
      case Spoilt(begin, body, end) =>
        BlockRead(begin, body, end, certs);
    }
  }

  lemma {:induction false} BlocksRead(blocks: seq<Block>)
    requires forall i | 0 <= i < |blocks| :: WellFormed(blocks[i])
    ensures After(Splitter(None, []), FileLines(blocks)) == Splitter(None, Ders(blocks))
  {
    if blocks != [] {
      var some, b := blocks[..|blocks| - 1], blocks[|blocks| - 1];
      BlocksRead(some);
      var st := Splitter(None, Ders(some));
      AfterSum(Splitter(None, []), FileLines(some), BlockLines(b));
      BlockOnce(b, Ders(some));
    }
  }

  /** A PEM file gives back exactly the certificates it was written from, in order, whatever its line width and endings. */
  lemma PemRoundTrip(blocks: seq<Block>, lines: seq<bytes>, endings: seq<Ending>, unended: bytes)
    requires forall i | 0 <= i < |blocks| :: WellFormed(blocks[i])
    requires |lines| == |endings| && (forall i | 0 <= i < |lines| :: Plain(lines[i], endings[i])) && LF !in unended
    requires FileLines(blocks) == lines + if unended == [] then [] else [unended]
    requires ValidUtf8(Written(lines, endings, unended))
    ensures CertsIn(Written(lines, endings, unended)) == Ders(blocks)
  {
    hide Plain, WellFormed, FileLines, Ders, Lines, Written, ValidUtf8, After;
    LinesOfWritten(lines, endings, unended);
    BlocksRead(blocks);
  }
}
