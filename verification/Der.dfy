/**
 Reading the DER values a key service returns: elements, positive integers, signatures brought to
 their low-s form, and the two independent readers of a public key (whose element loops are the same).
 */
module Der {
  import opened Common

  type Byte = b: int | 0 <= b < 256

  // ---------------------------------------------------------------- numbers as bytes

  function Pow256(n: nat): nat { if n == 0 then 1 else 256 * Pow256(n - 1) }

  /** Most significant byte first. */
  function BigEndian(bs: seq<Byte>): nat {
    if bs == [] then 0 else 256 * BigEndian(bs[..|bs| - 1]) + bs[|bs| - 1]
  }

  /** The shortest bytes of a number; none for zero. */
  function Minimal(n: nat): seq<Byte> {
    if n == 0 then [] else Minimal(n / 256) + [n % 256]
  }

  lemma {:induction false} MinimalReadsBack(n: nat)
    ensures BigEndian(Minimal(n)) == n
    ensures n > 0 ==> Minimal(n) != [] && Minimal(n)[0] != 0
  {
    if n > 0 {
      MinimalReadsBack(n / 256);
      var init := Minimal(n / 256);
      assert Minimal(n)[..|init|] == init;
    }
  }

  lemma {:induction false} MinimalIsShort(n: nat, k: nat)
    requires n < Pow256(k)
    ensures |Minimal(n)| <= k
  {
    if n > 0 {
      if k == 0 {
        assert false;
      }
      assert n / 256 < Pow256(k - 1);
      MinimalIsShort(n / 256, k - 1);
    }
  }

  lemma {:induction false} PowAdd(a: nat, b: nat)
    ensures Pow256(a + b) == Pow256(a) * Pow256(b)
    decreases a
  {
    if a > 0 {
      PowAdd(a - 1, b);
      assert Pow256(a + b) == 256 * Pow256(a - 1 + b);
      assert 256 * (Pow256(a - 1) * Pow256(b)) == (256 * Pow256(a - 1)) * Pow256(b);
    }
  }

  const TWO_256 := 0x1_0000000000000000_0000000000000000_0000000000000000_0000000000000000

  lemma PowLiterals()
    ensures Pow256(4) == 0x1_0000_0000 && Pow256(32) == TWO_256
  {
    assert Pow256(1) == 256;
    assert Pow256(2) == 0x1_0000;
    assert Pow256(3) == 0x100_0000;
    assert Pow256(4) == 0x1_0000_0000;
    PowAdd(4, 4);
    PowAdd(8, 8);
    PowAdd(16, 16);
  }

  lemma {:induction false} LeadingZero(bs: seq<Byte>)
    requires bs != [] && bs[0] == 0
    ensures BigEndian(bs) == BigEndian(bs[1..])
    decreases bs
  {
    if |bs| > 1 {
      var n := |bs| - 1;
      LeadingZero(bs[..n]);
      assert bs[1..][..n - 1] == bs[..n][1..];
    }
  }

  // ---------------------------------------------------------------- elements

  datatype Element = Element(tag: Byte, value: seq<Byte>, next: nat)

  /** Where the value of an element starts and how long it says it is. */
  function Header(bs: seq<Byte>, offset: nat): Option<(nat, nat)> {
    if offset + 2 > |bs| then None
    else
      var first := bs[offset + 1];
      if first < 128 then Some((offset + 2, first))
      else
        var k := first - 128;
        if k == 0 || k > 4 || offset + 2 + k > |bs| then None
        else Some((offset + 2 + k, BigEndian(bs[offset + 2..offset + 2 + k])))
  }

  function Read(bs: seq<Byte>, offset: nat): Option<Element> {
    match Header(bs, offset)
    case None => None
    case Some((start, length)) =>
      if start + length > |bs| then None
      else Some(Element(bs[offset], bs[start..start + length], start + length))
  }

  method ReadDerElement(bs: seq<Byte>, offset: nat) returns (e: Option<Element>)
    ensures e == Read(bs, offset)
  {
    if offset + 2 > |bs| { return None; }
    var tag, lengthByte := bs[offset], bs[offset + 1];
    var length: nat, valueOffset := lengthByte, offset + 2;
    if lengthByte >= 128 {
      var lengthBytes := lengthByte - 128;
      if lengthBytes == 0 || lengthBytes > 4 || valueOffset + lengthBytes > |bs| { return None; }
      length := 0;
      for i := 0 to lengthBytes
        invariant length == BigEndian(bs[valueOffset..valueOffset + i])
      {
        assert bs[valueOffset..valueOffset + i + 1][..i] == bs[valueOffset..valueOffset + i];
        length := length * 256 + bs[valueOffset + i];
      }
      valueOffset := valueOffset + lengthBytes;
    }
    var nextOffset := valueOffset + length;
    if nextOffset > |bs| { return None; }
    return Some(Element(tag, bs[valueOffset..nextOffset], nextOffset));
  }

  /** Length octets: one below 128, or a count of one to four and that many octets, not necessarily the fewest. */
  predicate IsLength(octets: seq<Byte>, n: nat) {
    || (|octets| == 1 && octets[0] < 128 && n == octets[0])
    || (2 <= |octets| <= 5 && octets[0] == 127 + |octets| && n == BigEndian(octets[1..]))
  }

  predicate IsElementBy(bs: seq<Byte>, tag: Byte, octets: seq<Byte>, value: seq<Byte>) {
    IsLength(octets, |value|) && bs == [tag] + octets + value
  }

  ghost predicate IsElement(bs: seq<Byte>, tag: Byte, value: seq<Byte>) {
    exists octets :: IsElementBy(bs, tag, octets, value)
  }

  lemma ReadIsElement(bs: seq<Byte>, offset: nat)
    requires Read(bs, offset).Some?
    ensures var e := Read(bs, offset).value;
            offset <= e.next <= |bs| && IsElement(bs[offset..e.next], e.tag, e.value)
  {
    var e, start := Read(bs, offset).value, Header(bs, offset).value.0;
    var octets := bs[offset + 1..start];
    if bs[offset + 1] >= 128 {
      assert octets[1..] == bs[offset + 2..start];
    }
    assert bs[offset..e.next] == [e.tag] + octets + e.value;
    assert IsElementBy(bs[offset..e.next], e.tag, octets, e.value);
  }

  lemma HeaderIsRead(bs: seq<Byte>, offset: nat, octets: seq<Byte>, n: nat)
    requires IsLength(octets, n) && offset + 1 + |octets| <= |bs| && bs[offset + 1..offset + 1 + |octets|] == octets
    ensures Header(bs, offset) == Some((offset + 1 + |octets|, n))
  {
    assert bs[offset + 1] == octets[0];
    if |octets| > 1 {
      assert bs[offset + 2..offset + 1 + |octets|] == octets[1..];
    }
  }

  lemma Parts(part: seq<Byte>, tag: Byte, octets: seq<Byte>, value: seq<Byte>)
    requires part == [tag] + octets + value
    ensures part[0] == tag && part[1..1 + |octets|] == octets && part[1 + |octets|..] == value
  {
  }

  lemma SliceOfSlice(bs: seq<Byte>, lo: nat, hi: nat, i: nat, j: nat)
    requires lo <= hi <= |bs| && i <= j <= hi - lo
    ensures bs[lo..hi][i..j] == bs[lo + i..lo + j]
  {
    var a, b := bs[lo..hi][i..j], bs[lo + i..lo + j];
    assert |a| == |b|;
    forall k | 0 <= k < |a| ensures a[k] == b[k] {
      assert a[k] == bs[lo..hi][i + k] == bs[lo + i + k];
    }
  }

  lemma ElementIsRead(bs: seq<Byte>, offset: nat, e: Element)
    requires offset <= e.next <= |bs| && IsElement(bs[offset..e.next], e.tag, e.value)
    ensures Read(bs, offset) == Some(e)
  {
    var part := bs[offset..e.next];
    var octets :| IsElementBy(part, e.tag, octets, e.value);
    Parts(part, e.tag, octets, e.value);
    SliceOfSlice(bs, offset, e.next, 1, 1 + |octets|);
    SliceOfSlice(bs, offset, e.next, 1 + |octets|, |part|);
    HeaderIsRead(bs, offset, octets, |e.value|);
  }

  /** An element is read exactly where the bytes from the offset are one, and it ends there. */
  lemma ReadExactly(bs: seq<Byte>, offset: nat, e: Element)
    ensures Read(bs, offset) == Some(e)
       <==> offset <= e.next <= |bs| && IsElement(bs[offset..e.next], e.tag, e.value)
  {
    if Read(bs, offset) == Some(e) {
      ReadIsElement(bs, offset);
    }
    if offset <= e.next <= |bs| && IsElement(bs[offset..e.next], e.tag, e.value) {
      ElementIsRead(bs, offset, e);
    }
  }

  /** The fewest length octets. */
  function LengthBytes(n: nat): (r: seq<Byte>)
    requires n < 0x1_0000_0000
    ensures IsLength(r, n)
  {
    if n < 128 then [n]
    else
      var bytes := Minimal(n);
      PowLiterals(); MinimalIsShort(n, 4); MinimalReadsBack(n);
      assert ([128 + |bytes|] + bytes)[1..] == bytes;
      [128 + |bytes|] + bytes
  }

  function Encode(tag: Byte, value: seq<Byte>): (r: seq<Byte>)
    requires |value| < 0x1_0000_0000
    ensures |value| + 2 <= |r| <= |value| + 6
  {
    [tag] + LengthBytes(|value|) + value
  }

  /** An encoded element is read back wherever it stands, whatever surrounds it. */
  lemma ReadsBack(before: seq<Byte>, tag: Byte, value: seq<Byte>, after: seq<Byte>)
    requires |value| < 0x1_0000_0000
    ensures Read(before + Encode(tag, value) + after, |before|)
         == Some(Element(tag, value, |before| + |Encode(tag, value)|))
  {
    var bs, next := before + Encode(tag, value) + after, |before| + |Encode(tag, value)|;
    assert bs[|before|..next] == Encode(tag, value);
    assert IsElementBy(Encode(tag, value), tag, LengthBytes(|value|), value);
    ElementIsRead(bs, |before|, Element(tag, value, next));
  }

  /** What was read does not depend on bytes after it. */
  lemma ReadIsLocal(bs: seq<Byte>, offset: nat, after: seq<Byte>)
    requires Read(bs, offset).Some?
    ensures Read(bs + after, offset) == Read(bs, offset)
  {
    var all := bs + after;
    var (start, length) := Header(bs, offset).value;
    assert forall i | 0 <= i < |bs| :: all[i] == bs[i];
    if bs[offset + 1] >= 128 {
      var k := bs[offset + 1] - 128;
      assert all[offset + 2..offset + 2 + k] == bs[offset + 2..offset + 2 + k];
    }
    assert all[start..start + length] == bs[start..start + length];
  }

  // ---------------------------------------------------------------- integers

  function ParseInteger(bs: seq<Byte>): Option<nat> {
    if bs == [] || bs[0] >= 128 then None
    else
      var normalized := if bs[0] == 0 then bs[1..] else bs;
      if normalized == [] || |normalized| > 32 then None else Some(BigEndian(normalized))
  }

  function IntegerBytes(n: nat): seq<Byte> {
    var bytes := Minimal(n);
    if bytes == [] || bytes[0] >= 128 then [0] + bytes else bytes
  }

  /** Every positive number below 2^256 is read back from its shortest signed form. */
  lemma IntegerReadsBack(n: nat)
    requires 0 < n < TWO_256
    ensures ParseInteger(IntegerBytes(n)) == Some(n)
    ensures |IntegerBytes(n)| <= 33
  {
    PowLiterals();
    MinimalIsShort(n, 32);
    MinimalReadsBack(n);
    var bytes := Minimal(n);
    assert ([0] + bytes)[1..] == bytes;
  }

  // ---------------------------------------------------------------- signatures

  const ORDER := 0xffffffffffffffff_fffffffffffffffe_baaedce6af48a03b_bfd25e8cd0364141
  const HALF_ORDER := ORDER / 2

  datatype Signature = Signature(r: nat, s: nat)

  function LowS(s: nat): nat
    requires s <= ORDER
  {
    if s > HALF_ORDER then ORDER - s else s
  }

  /** The contents of a value that is one sequence and nothing else. */
  function Contents(der: seq<Byte>): Option<seq<Byte>> {
    match Read(der, 0)
    case None => None
    case Some(outer) => if outer.tag != 0x30 || outer.next != |der| then None else Some(outer.value)
  }

  function Integers(value: seq<Byte>): Option<(nat, nat)> {
    match Read(value, 0)
    case None => None
    case Some(r) =>
      match Read(value, r.next)
      case None => None
      case Some(s) =>
        if r.tag != 0x02 || s.tag != 0x02 || s.next != |value| then None
        else
          match ParseInteger(r.value)
          case None => None
          case Some(x) =>
            match ParseInteger(s.value)
            case None => None
            case Some(y) => Some((x, y))
  }

  /** The two integers of a signature sequence, and nothing else. */
  function TwoIntegers(der: seq<Byte>): Option<(nat, nat)> {
    match Contents(der)
    case None => None
    case Some(value) => Integers(value)
  }

  function FromDer(der: seq<Byte>): Option<Signature> {
    match TwoIntegers(der)
    case None => None
    case Some((r, s)) =>
      if r == 0 || r >= ORDER || s == 0 || s >= ORDER then None else Some(Signature(r, LowS(s)))
  }

  function SignatureBytes(r: nat, s: nat): seq<Byte>
    requires 0 < r < TWO_256 && 0 < s < TWO_256
  {
    IntegerReadsBack(r);
    IntegerReadsBack(s);
    var body := Encode(0x02, IntegerBytes(r)) + Encode(0x02, IntegerBytes(s));
    Encode(0x30, body)
  }

  lemma SequenceReadsBack(value: seq<Byte>)
    requires |value| < 0x1_0000_0000
    ensures Contents(Encode(0x30, value)) == Some(value)
  {
    assert [] + Encode(0x30, value) + [] == Encode(0x30, value);
    ReadsBack([], 0x30, value, []);
  }

  lemma FirstReadsBack(tag: Byte, x: seq<Byte>, after: seq<Byte>)
    requires |x| < 0x1_0000_0000
    ensures Read(Encode(tag, x) + after, 0) == Some(Element(tag, x, |Encode(tag, x)|))
  {
    var a := Encode(tag, x);
    assert [] + a + after == a + after;
    ReadsBack([], tag, x, after);
  }

  lemma LastReadsBack(before: seq<Byte>, tag: Byte, x: seq<Byte>)
    requires |x| < 0x1_0000_0000
    ensures Read(before + Encode(tag, x), |before|) == Some(Element(tag, x, |before + Encode(tag, x)|))
  {
    var a := Encode(tag, x);
    assert before + a + [] == before + a;
    ReadsBack(before, tag, x, []);
  }

  lemma IntegersReadBack(r: nat, s: nat)
    requires 0 < r < TWO_256 && 0 < s < TWO_256
    ensures TwoIntegers(SignatureBytes(r, s)) == Some((r, s))
  {
    IntegerReadsBack(r);
    IntegerReadsBack(s);
    var x, y := IntegerBytes(r), IntegerBytes(s);
    SequenceReadsBack(Encode(0x02, x) + Encode(0x02, y));
    FirstReadsBack(0x02, x, Encode(0x02, y));
    LastReadsBack(Encode(0x02, x), 0x02, y);
  }

  /** Every in-range signature is read back, `s` in its low form. */
  lemma SignatureReadsBack(r: nat, s: nat)
    requires 0 < r < ORDER && 0 < s < ORDER
    ensures FromDer(SignatureBytes(r, s)) == Some(Signature(r, LowS(s)))
  {
    IntegersReadBack(r, s);
  }

  /** Whatever is accepted is in range, with a low `s`. */
  lemma AlwaysLowS(der: seq<Byte>)
    requires FromDer(der).Some?
    ensures var sig := FromDer(der).value; 0 < sig.r < ORDER && 0 < sig.s <= HALF_ORDER
  {
  }

  lemma LowSMeets(s: nat, s': nat)
    requires 0 < s < ORDER && 0 < s' < ORDER
    ensures LowS(s) == LowS(s') <==> s == s' || s + s' == ORDER
  {
  }

  /** A signature with anything after it is refused. */
  lemma NothingMayFollow(der: seq<Byte>, after: seq<Byte>)
    requires FromDer(der).Some? && after != []
    ensures FromDer(der + after) == None
  {
    ReadIsLocal(der, 0, after);
    assert Contents(der + after) == None;
  }

  // ---------------------------------------------------------------- public keys

  /** The bit string of a key structure, when it is an uncompressed point. */
  predicate IsPoint(e: Element, length: nat) {
    e.tag == 0x03 && e.next == length && |e.value| == 66 && e.value[0] == 0 && e.value[1] == 0x04
  }

  /** The signer's reader: the point with its leading format byte. */
  function SignerKey(der: seq<Byte>): Option<seq<Byte>> {
    match Contents(der)
    case None => None
    case Some(value) => SignerPoint(value)
  }

  function SignerPoint(value: seq<Byte>): Option<seq<Byte>> {
    match Read(value, 0)
    case None => None
    case Some(algorithm) =>
      if algorithm.tag != 0x30 then None
      else
        match Read(value, algorithm.next)
        case None => None
        case Some(bits) => if IsPoint(bits, |value|) then Some(bits.value[1..]) else None
  }

  /** The deployment script's reader, written separately: the two coordinates alone. */
  function ScriptKey(der: seq<Byte>): Option<seq<Byte>> {
    match Contents(der)
    case None => None
    case Some(value) => ScriptPoint(value)
  }

  function ScriptPoint(value: seq<Byte>): Option<seq<Byte>> {
    match Read(value, 0)
    case None => None
    case Some(algorithm) =>
      match Read(value, algorithm.next)
      case None => None
      case Some(point) =>
        if algorithm.tag != 0x30 || !IsPoint(point, |value|) then None else Some(point.value[2..])
  }

  /** Both accept the same keys and take the same point from them. */
  lemma ReadersAgree(der: seq<Byte>)
    ensures SignerKey(der).Some? <==> ScriptKey(der).Some?
    ensures SignerKey(der).Some? ==> SignerKey(der).value == [0x04] + ScriptKey(der).value && |ScriptKey(der).value| == 64
  {
  }

  /** Short enough for four length octets. */
  predicate Fits(algorithm: seq<Byte>) {
    |algorithm| < 0x1_0000_0000 && |Encode(0x30, algorithm)| + 68 < 0x1_0000_0000
  }

  function KeyBytes(algorithm: seq<Byte>, point: seq<Byte>): seq<Byte>
    requires Fits(algorithm) && |point| == 64
  {
    Encode(0x30, Encode(0x30, algorithm) + Encode(0x03, [0, 4] + point))
  }

  /** Every encoded point is found, whatever its algorithm identifier says. */
  lemma KeyReadsBack(algorithm: seq<Byte>, point: seq<Byte>)
    requires Fits(algorithm) && |point| == 64
    ensures SignerKey(KeyBytes(algorithm, point)) == Some([0x04] + point)
    ensures ScriptKey(KeyBytes(algorithm, point)) == Some(point)
  {
    SequenceReadsBack(Encode(0x30, algorithm) + Encode(0x03, [0, 4] + point));
    PointReadsBack(algorithm, point);
  }

  lemma PointReadsBack(algorithm: seq<Byte>, point: seq<Byte>)
    requires Fits(algorithm) && |point| == 64
    ensures var value := Encode(0x30, algorithm) + Encode(0x03, [0, 4] + point);
            SignerPoint(value) == Some([0x04] + point) && ScriptPoint(value) == Some(point)
  {
    var bits: seq<Byte> := [0, 4] + point;
    FirstReadsBack(0x30, algorithm, Encode(0x03, bits));
    LastReadsBack(Encode(0x30, algorithm), 0x03, bits);
    assert bits[1..] == [0x04] + point && bits[2..] == point;
  }
}
