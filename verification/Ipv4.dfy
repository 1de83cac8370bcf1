/** IPv4 literals as the Rust standard library reads and writes them. */
module Ipv4 {
  import opened Bytes
  import opened Text

  predicate IsDigit(b: byte) {
    48 <= b <= 57
  }

  /** How many digits `s` starts with. */
  function DigitRun(s: bytes): (n: nat)
    ensures n <= |s|
  {
    if s == [] || !IsDigit(s[0]) then 0 else 1 + DigitRun(s[1..])
  }

  /** One number of a dotted quad, and the text after it: one to three digits, no leading zero, at most 255. */
  function ReadOctet(s: bytes): Option<(byte, bytes)> {
    var k := DigitRun(s);
    if k == 0 || k > 3 || (k > 1 && s[0] == 48) then None
    else
      match DigitsValue(s[..k], 10)
      case Some(v) => if v < 256 then Some((v, s[k..])) else None
      case None => None
  }

  function ReadDottedOctet(s: bytes): Option<(byte, bytes)> {
    if s == [] || s[0] != 46 then None else ReadOctet(s[1..])
  }

  /** `Ipv4Addr::from_str`. */
  function ParseIpv4(s: bytes): (r: Option<bytes>)
    ensures r.Some? ==> |r.value| == 4
  {
    match ReadOctet(s)
    case None => None
    case Some((a, s1)) =>
      match ReadDottedOctet(s1)
      case None => None
      case Some((b, s2)) =>
        match ReadDottedOctet(s2)
        case None => None
        case Some((c, s3)) =>
          match ReadDottedOctet(s3)
          case None => None
          case Some((d, s4)) => if s4 == [] then Some([a, b, c, d]) else None
  }

  function DottedQuad(ip: bytes): bytes
    requires |ip| == 4
  {
    Decimal(ip[0]) + ([46] + (Decimal(ip[1]) + ([46] + (Decimal(ip[2]) + ([46] + (Decimal(ip[3]) + []))))))
  }

  predicate NoDigitFirst(s: bytes) {
    s == [] || !IsDigit(s[0])
  }

  lemma SmallDecimal(v: nat)
    requires v < 1000
    ensures Decimal(v) == if v < 10 then [48 + v] else if v < 100 then [48 + v / 10, 48 + v % 10]
                          else [48 + v / 100, 48 + v / 10 % 10, 48 + v % 10]
  {
    assert v >= 10 ==> Decimal(v) == Decimal(v / 10) + [48 + v % 10];
    assert v >= 100 ==> Decimal(v / 10) == Decimal(v / 10 / 10) + [48 + v / 10 % 10] && v / 10 / 10 == v / 100 < 10;
  }

  lemma {:induction false} RunOfDigits(ds: bytes, rest: bytes)
    requires (forall b | b in ds :: IsDigit(b)) && NoDigitFirst(rest)
    ensures DigitRun(ds + rest) == |ds|
  {
    if ds == [] {
      assert ds + rest == rest;
    } else {
      assert (ds + rest)[1..] == ds[1..] + rest;
      assert (ds + rest)[0] == ds[0] && ds[0] in ds;
      RunOfDigits(ds[1..], rest);
    }
  }

  lemma OctetReads(v: byte, rest: bytes)
    requires NoDigitFirst(rest)
    ensures ReadOctet(Decimal(v) + rest) == Some((v, rest))
  {
    var s := Decimal(v) + rest;
    DecimalParses(v);
    RunOfDigits(Decimal(v), rest);
    SmallDecimal(v);
    hide DigitsValue, DigitRun, Decimal;
    assert s[..|Decimal(v)|] == Decimal(v) && s[|Decimal(v)|..] == rest;
    assert v >= 10 ==> s[0] != 48;
  }

  lemma {:induction false} RunIsDigits(s: bytes)
    ensures (forall i | 0 <= i < DigitRun(s) :: IsDigit(s[i])) && NoDigitFirst(s[DigitRun(s)..])
  {
    if s != [] && IsDigit(s[0]) {
      RunIsDigits(s[1..]);
      assert s[1..][DigitRun(s[1..])..] == s[DigitRun(s)..];
      assert forall i | 0 < i < DigitRun(s) :: s[i] == s[1..][i - 1];
    }
  }

  lemma DigitAppended(front: bytes, last: byte)
    requires IsDigit(last) && DigitsValue(front, 10).Some?
    ensures DigitsValue(front + [last], 10) == Some(DigitsValue(front, 10).value * 10 + (last - 48))
  {
    assert (front + [last])[..|front|] == front;
  }

  lemma DecimalAppended(v: nat, d: nat)
    requires v > 0 && d < 10
    ensures Decimal(v * 10 + d) == Decimal(v) + [48 + d]
  {
    assert (v * 10 + d) / 10 == v && (v * 10 + d) % 10 == d;
  }

  lemma OneDigitRead(d: byte)
    requires IsDigit(d)
    ensures DigitsValue([d], 10) == Some(d - 48)
  {
    assert DigitsValue([], 10) == Some(0);
    hide DigitsValue;
    DigitAppended([], d);
    assert [] + [d] == [d];
  }

  lemma OneDigitWritten(n: nat)
    requires n < 10
    ensures Decimal(n) == [48 + n]
  {
    assert n % 10 == n;
  }

  lemma {:induction false} DigitsOfThree(ds: bytes)
    requires 1 <= |ds| <= 3 && (forall i | 0 <= i < |ds| :: IsDigit(ds[i])) && (|ds| > 1 ==> ds[0] != 48)
    ensures DigitsValue(ds, 10).Some? && ds == Decimal(DigitsValue(ds, 10).value)
    ensures ds[0] != 48 ==> DigitsValue(ds, 10).value > 0
  {
    hide Decimal, DigitsValue;
    var front, last := ds[..|ds| - 1], ds[|ds| - 1];
    assert ds == front + [last];
    if |ds| == 1 {
      assert ds == [last];
      OneDigitRead(last);
      OneDigitWritten(last - 48);
    } else {
      DigitsOfThree(front);
      DigitAppended(front, last);
      DecimalAppended(DigitsValue(front, 10).value, last - 48);
    }
  }

  lemma OctetParts(s: bytes)
    requires ReadOctet(s).Some?
    ensures var (k, o) := (DigitRun(s), ReadOctet(s).value);
            && 1 <= k <= 3 && (k > 1 ==> s[0] != 48)
            && DigitsValue(s[..k], 10) == Some(o.0) && o.1 == s[k..]
  {
    hide DigitRun, DigitsValue;
  }

  lemma OctetWrites(s: bytes)
    requires ReadOctet(s).Some?
    ensures s == Decimal(ReadOctet(s).value.0) + ReadOctet(s).value.1 && NoDigitFirst(ReadOctet(s).value.1)
  {
    hide ReadOctet, DigitRun, DigitsValue, Decimal;
    OctetParts(s);
    RunIsDigits(s);
    var k := DigitRun(s);
    DigitsOfThree(s[..k]);
    assert s[..k] + s[k..] == s;
  }

  /** Octets are written in exactly one way. */
  lemma OctetText(s: bytes, v: byte, rest: bytes)
    ensures ReadOctet(s) == Some((v, rest)) <==> s == Decimal(v) + rest && NoDigitFirst(rest)
  {
    if s == Decimal(v) + rest && NoDigitFirst(rest) {
      OctetReads(v, rest);
    }
    if ReadOctet(s) == Some((v, rest)) {
      OctetWrites(s);
    }
  }

  /** The parser accepts exactly the literals the formatter writes. */
  lemma Ipv4Codec(s: bytes, ip: bytes)
    requires |ip| == 4
    ensures ParseIpv4(s) == Some(ip) <==> s == DottedQuad(ip)
  {
    hide Decimal, ReadOctet;
    var t3 := Decimal(ip[3]) + [];
    var t2 := Decimal(ip[2]) + ([46] + t3);
    var t1 := Decimal(ip[1]) + ([46] + t2);
    if s == DottedQuad(ip) {
      OctetText(s, ip[0], [46] + t1);
      OctetText(t1, ip[1], [46] + t2);
      OctetText(t2, ip[2], [46] + t3);
      OctetText(t3, ip[3], []);
      assert ([46] + t1)[1..] == t1 && ([46] + t2)[1..] == t2 && ([46] + t3)[1..] == t3;
      assert ip == [ip[0], ip[1], ip[2], ip[3]];
    }
    if ParseIpv4(s) == Some(ip) {
      var s1 := ReadOctet(s).value.1;
      var s2 := ReadOctet(s1[1..]).value.1;
      var s3 := ReadOctet(s2[1..]).value.1;
      OctetText(s, ip[0], s1);
      OctetText(s1[1..], ip[1], s2);
      OctetText(s2[1..], ip[2], s3);
      OctetText(s3[1..], ip[3], []);
      assert s1 == [46] + s1[1..] && s2 == [46] + s2[1..] && s3 == [46] + s3[1..];
    }
  }
}
