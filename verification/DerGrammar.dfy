/**
 Which byte strings are accepted as signatures and keys, short and long lengths and spare zeros
 included: the grammar against the readers.
 */
module DerGrammar {
  import opened Common
  import opened Der

  // ---------------------------------------------------------------- elements

  ghost predicate IsElementAt(bs: seq<Byte>, offset: nat, e: Element) {
    offset <= e.next <= |bs| && IsElement(bs[offset..e.next], e.tag, e.value)
  }

  /** The deployment script's own element loop, proved against the grammar. */
  method ReadSpkiElement(bs: seq<Byte>, offset: nat) returns (r: Option<Element>)
    ensures r.Some? ==> IsElementAt(bs, offset, r.value)
    ensures forall e | IsElementAt(bs, offset, e) :: r == Some(e)
  {
    forall e | IsElementAt(bs, offset, e) ensures Read(bs, offset) == Some(e) { ElementIsRead(bs, offset, e); }
    if offset + 2 > |bs| { return None; }
    var length: nat, valueOffset := bs[offset + 1], offset + 2;
    if length >= 128 {
      var lengthBytes := length - 128;
      if lengthBytes == 0 || lengthBytes > 4 || valueOffset + lengthBytes > |bs| { return None; }
      length := 0;
      var index := 0;
      while index < lengthBytes
        invariant 0 <= index <= lengthBytes
        invariant length == BigEndian(bs[valueOffset..valueOffset + index])
      {
        assert bs[valueOffset..valueOffset + index + 1][..index] == bs[valueOffset..valueOffset + index];
        length := length * 256 + bs[valueOffset + index];
        index := index + 1;
      }
      valueOffset := valueOffset + lengthBytes;
    }
    if valueOffset + length > |bs| { return None; }
    r := Some(Element(bs[offset], bs[valueOffset..valueOffset + length], valueOffset + length));
    assert r == Read(bs, offset);
    ReadIsElement(bs, offset);
  }

  // ---------------------------------------------------------------- sequences

  /** One sequence and nothing else. */
  lemma ContentsExactly(der: seq<Byte>, value: seq<Byte>)
    ensures Contents(der) == Some(value) <==> IsElement(der, 0x30, value)
  {
    assert der[0..|der|] == der;
    ReadExactly(der, 0, Element(0x30, value, |der|));
  }

  /** Two elements and nothing else. */
  ghost predicate IsPair(value: seq<Byte>, e: Element, f: Element) {
    Read(value, 0) == Some(e) && Read(value, e.next) == Some(f) && f.next == |value|
  }

  ghost predicate SplitsInto(value: seq<Byte>, a: seq<Byte>, b: seq<Byte>, e: Element, f: Element) {
    && value == a + b && IsElement(a, e.tag, e.value) && IsElement(b, f.tag, f.value)
    && e.next == |a| && f.next == |value|
  }

  lemma PairExactly(value: seq<Byte>, e: Element, f: Element)
    ensures IsPair(value, e, f) <==> exists a, b :: SplitsInto(value, a, b, e, f)
  {
    if IsPair(value, e, f) {
      ReadExactly(value, 0, e);
      ReadExactly(value, e.next, f);
      assert value == value[0..e.next] + value[e.next..|value|];
      assert SplitsInto(value, value[0..e.next], value[e.next..|value|], e, f);
    }
    if a, b :| SplitsInto(value, a, b, e, f) {
      assert value[0..|a|] == a && value[|a|..|value|] == b;
      ReadExactly(value, 0, e);
      ReadExactly(value, |a|, f);
    }
  }

  // ---------------------------------------------------------------- signatures

  /** Contents of a positive integer: a clear sign bit, at most 32 octets after one spare zero, and not that zero alone. */
  predicate IsPositive(bs: seq<Byte>, n: nat) {
    && bs != [] && bs[0] < 128 && bs != [0] && |bs| <= (if bs[0] == 0 then 33 else 32)
    && n == BigEndian(bs)
  }

  lemma ParsesExactly(bs: seq<Byte>, n: nat)
    ensures ParseInteger(bs) == Some(n) <==> IsPositive(bs, n)
  {
    if bs != [] && bs[0] == 0 {
      LeadingZero(bs);
    }
  }

  ghost predicate IsSignatureBy(der: seq<Byte>, r: nat, s: nat, a: seq<Byte>, b: seq<Byte>, x: seq<Byte>, y: seq<Byte>) {
    && IsElement(der, 0x30, a + b) && IsElement(a, 0x02, x) && IsElement(b, 0x02, y)
    && IsPositive(x, r) && IsPositive(y, s)
  }

  /** A sequence of two positive integers. */
  ghost predicate IsSignature(der: seq<Byte>, r: nat, s: nat) {
    exists a, b, x, y :: IsSignatureBy(der, r, s, a, b, x, y)
  }

  lemma IntegersExactly(value: seq<Byte>, r: nat, s: nat)
    ensures Integers(value) == Some((r, s))
       <==> exists e, f :: IsPair(value, e, f) && e.tag == 0x02 && f.tag == 0x02
                           && IsPositive(e.value, r) && IsPositive(f.value, s)
  {
    if Integers(value) == Some((r, s)) {
      var e := Read(value, 0).value;
      var f := Read(value, e.next).value;
      ParsesExactly(e.value, r);
      ParsesExactly(f.value, s);
      assert IsPair(value, e, f);
    }
    if e, f :| IsPair(value, e, f) && e.tag == 0x02 && f.tag == 0x02 && IsPositive(e.value, r) && IsPositive(f.value, s) {
      ParsesExactly(e.value, r);
      ParsesExactly(f.value, s);
    }
  }

  lemma SignatureExactly(der: seq<Byte>, r: nat, s: nat)
    ensures TwoIntegers(der) == Some((r, s)) <==> IsSignature(der, r, s)
  {
    if TwoIntegers(der) == Some((r, s)) {
      var value := Contents(der).value;
      ContentsExactly(der, value);
      IntegersExactly(value, r, s);
      var e, f :| IsPair(value, e, f) && e.tag == 0x02 && f.tag == 0x02 && IsPositive(e.value, r) && IsPositive(f.value, s);
      PairExactly(value, e, f);
      var a, b :| SplitsInto(value, a, b, e, f);
      assert IsSignatureBy(der, r, s, a, b, e.value, f.value);
    }
    if a, b, x, y :| IsSignatureBy(der, r, s, a, b, x, y) {
      var value := a + b;
      ContentsExactly(der, value);
      var e, f := Element(0x02, x, |a|), Element(0x02, y, |value|);
      assert SplitsInto(value, a, b, e, f);
      PairExactly(value, e, f);
      IntegersExactly(value, r, s);
    }
  }

  /** A signature is taken from exactly the byte strings that hold two integers in range, `s` in its low form. */
  lemma AcceptedExactly(der: seq<Byte>, sig: Signature)
    ensures FromDer(der) == Some(sig)
       <==> exists s: nat :: IsSignature(der, sig.r, s) && 0 < sig.r < ORDER && 0 < s < ORDER && sig.s == LowS(s)
  {
    if FromDer(der) == Some(sig) {
      var (r, s) := TwoIntegers(der).value;
      SignatureExactly(der, r, s);
    }
    if s: nat :| IsSignature(der, sig.r, s) && 0 < sig.r < ORDER && 0 < s < ORDER && sig.s == LowS(s) {
      SignatureExactly(der, sig.r, s);
    }
  }

  /**
   Two accepted byte strings, however encoded, are taken for the same signature exactly when they share
   `r` and their `s` are equal or opposite.
   */
  lemma OppositeFormsMeet(der: seq<Byte>, r: nat, s: nat, der': seq<Byte>, r': nat, s': nat)
    requires IsSignature(der, r, s) && IsSignature(der', r', s')
    requires 0 < r < ORDER && 0 < s < ORDER && 0 < r' < ORDER && 0 < s' < ORDER
    ensures FromDer(der) == FromDer(der') <==> r == r' && (s == s' || s + s' == ORDER)
  {
    SignatureExactly(der, r, s);
    SignatureExactly(der', r', s');
    LowSMeets(s, s');
  }

  // ---------------------------------------------------------------- keys

  ghost predicate IsKeyBy(der: seq<Byte>, point: seq<Byte>, a: seq<Byte>, b: seq<Byte>, algorithm: seq<Byte>) {
    IsElement(der, 0x30, a + b) && IsElement(a, 0x30, algorithm) && IsElement(b, 0x03, [0, 4] + point)
  }

  /** A sequence of an algorithm and a bit string that is an uncompressed point. */
  ghost predicate IsKey(der: seq<Byte>, point: seq<Byte>) {
    |point| == 64 && exists a, b, algorithm :: IsKeyBy(der, point, a, b, algorithm)
  }

  ghost predicate HoldsPoint(value: seq<Byte>, point: seq<Byte>, e: Element, f: Element) {
    IsPair(value, e, f) && e.tag == 0x30 && f.tag == 0x03 && f.value == [0, 4] + point
  }

  lemma PointExactly(value: seq<Byte>, point: seq<Byte>)
    requires |point| == 64
    ensures SignerPoint(value) == Some([0x04] + point) <==> exists e, f :: HoldsPoint(value, point, e, f)
    ensures ScriptPoint(value) == Some(point) <==> exists e, f :: HoldsPoint(value, point, e, f)
  {
    if SignerPoint(value) == Some([0x04] + point) {
      var e := Read(value, 0).value;
      var f := Read(value, e.next).value;
      assert f.value == [0] + f.value[1..] == [0, 4] + point;
      assert HoldsPoint(value, point, e, f);
    }
    if ScriptPoint(value) == Some(point) {
      var e := Read(value, 0).value;
      var f := Read(value, e.next).value;
      assert f.value == [0, 4] + f.value[2..] == [0, 4] + point;
      assert HoldsPoint(value, point, e, f);
    }
    if e, f :| HoldsPoint(value, point, e, f) {
      assert f.value[1..] == [0x04] + point && f.value[2..] == point;
    }
  }

  /** Each reader, on its own, takes the point of exactly the byte strings that are a key, and that point. */
  lemma KeyExactly(der: seq<Byte>, point: seq<Byte>)
    requires |point| == 64
    ensures SignerKey(der) == Some([0x04] + point) <==> IsKey(der, point)
    ensures ScriptKey(der) == Some(point) <==> IsKey(der, point)
  {
    if SignerKey(der) == Some([0x04] + point) || ScriptKey(der) == Some(point) {
      KeyIsRead(der, point);
    }
    if IsKey(der, point) {
      var a, b, algorithm :| IsKeyBy(der, point, a, b, algorithm);
      var value := a + b;
      ContentsExactly(der, value);
      var e, f := Element(0x30, algorithm, |a|), Element(0x03, [0, 4] + point, |value|);
      assert SplitsInto(value, a, b, e, f);
      PairExactly(value, e, f);
      assert HoldsPoint(value, point, e, f);
      PointExactly(value, point);
    }
  }

  lemma KeyIsRead(der: seq<Byte>, point: seq<Byte>)
    requires |point| == 64 && (SignerKey(der) == Some([0x04] + point) || ScriptKey(der) == Some(point))
    ensures IsKey(der, point)
  {
    var value := Contents(der).value;
    ContentsExactly(der, value);
    PointExactly(value, point);
    var e, f :| HoldsPoint(value, point, e, f);
    PairExactly(value, e, f);
    var a, b :| SplitsInto(value, a, b, e, f);
    assert IsKeyBy(der, point, a, b, e.value);
  }
}
