/** Bytes, fixed-width unsigned integers and the little-endian layout the Wisp wire format uses. */
module Bytes {

  type byte = x: int | 0 <= x < 0x100
  type bytes = seq<byte>
  type u16 = x: int | 0 <= x < 0x1_0000
  type u32 = x: int | 0 <= x < 0x1_0000_0000

  const U32_MAX: u32 := 0xFFFF_FFFF

  datatype Option<+T> = None | Some(value: T)

  datatype Result<+T, +E> = Ok(value: T) | Err(error: E)

  function Min(a: nat, b: nat): nat {
    if a <= b then a else b
  }

  function U32Le(n: u32): (b: bytes)
    ensures |b| == 4
  {
    [n % 0x100, n / 0x100 % 0x100, n / 0x1_0000 % 0x100, n / 0x100_0000]
  }

  function FromU32Le(b: bytes): u32
    requires |b| >= 4
  {
    b[0] as int + 0x100 * (b[1] as int) + 0x1_0000 * (b[2] as int) + 0x100_0000 * (b[3] as int)
  }

  function U16Le(n: u16): (b: bytes)
    ensures |b| == 2
  {
    [n % 0x100, n / 0x100]
  }

  function FromU16Le(b: bytes): u16
    requires |b| >= 2
  {
    b[0] as int + 0x100 * (b[1] as int)
  }

  function U16Be(n: u16): (b: bytes)
    ensures |b| == 2
  {
    [n / 0x100, n % 0x100]
  }

  function FromU16Be(b: bytes): u16
    requires |b| >= 2
  {
    0x100 * (b[0] as int) + b[1] as int
  }

  lemma U32LeInverse(n: u32, tail: bytes)
    ensures FromU32Le(U32Le(n) + tail) == n
  {
    var b := U32Le(n) + tail;
    var q: int := n / 0x100;
    var r: int := q / 0x100;
    assert n / 0x1_0000 == r && n / 0x100_0000 == r / 0x100;
    assert n == 0x100 * q + n % 0x100 && q == 0x100 * r + q % 0x100 && r == 0x100 * (r / 0x100) + r % 0x100;
    assert b[0] == n % 0x100 && b[1] == q % 0x100 && b[2] == r % 0x100 && b[3] == r / 0x100;
  }

  lemma LowDigits(b0: nat, b1: nat, b2: nat, b3: nat)
    requires b0 < 0x100 && b1 < 0x100 && b2 < 0x100 && b3 < 0x100
    ensures var n := b0 + 0x100 * b1 + 0x1_0000 * b2 + 0x100_0000 * b3;
            && n % 0x100 == b0 && n / 0x100 == b1 + 0x100 * b2 + 0x1_0000 * b3
            && n / 0x1_0000 == b2 + 0x100 * b3 && n / 0x100_0000 == b3
  {
  }

  lemma MiddleDigits(b1: nat, b2: nat, b3: nat)
    requires b1 < 0x100 && b2 < 0x100 && b3 < 0x100
    ensures (b1 + 0x100 * b2 + 0x1_0000 * b3) % 0x100 == b1 && (b2 + 0x100 * b3) % 0x100 == b2
  {
  }

  lemma FromU32LeInverse(b: bytes)
    requires |b| >= 4
    ensures U32Le(FromU32Le(b)) == b[..4]
  {
    LowDigits(b[0], b[1], b[2], b[3]);
    MiddleDigits(b[1], b[2], b[3]);
    assert b[..4] == [b[0], b[1], b[2], b[3]];
  }

  /** The payloads of a list of packets, end to end. */
  function Concat(parts: seq<bytes>): bytes {
    if parts == [] then [] else Concat(parts[..|parts| - 1]) + parts[|parts| - 1]
  }

  lemma ConcatSnoc(parts: seq<bytes>, p: bytes)
    ensures Concat(parts + [p]) == Concat(parts) + p
  {
    assert (parts + [p])[..|parts|] == parts;
  }

  lemma {:induction false} ConcatSum(a: seq<bytes>, b: seq<bytes>)
    ensures Concat(a + b) == Concat(a) + Concat(b)
    decreases |b|
  {
    if b == [] {
      assert a + b == a;
    } else {
      hide Concat;
      var b', p := b[..|b| - 1], b[|b| - 1];
      assert b == b' + [p] && a + b == a + b' + [p];
      ConcatSum(a, b');
      ConcatSnoc(b', p);
      ConcatSnoc(a + b', p);
    }
  }

  lemma ConcatCons(p: bytes, parts: seq<bytes>)
    ensures Concat([p] + parts) == p + Concat(parts)
  {
    ConcatSum([p], parts);
    ConcatSnoc([], p);
    assert [] + [p] == [p];
  }
}
