/** The string operations the components rely on: decimal printing, ASCII lower-casing, hex hashes. */
module Text {

  function DigitChar(d: nat): char
    requires d < 10
  {
    ['0', '1', '2', '3', '4', '5', '6', '7', '8', '9'][d]
  }

  predicate IsDigit(c: char) { '0' <= c <= '9' }

  predicate AllDigits(s: string) { forall i | 0 <= i < |s| :: IsDigit(s[i]) }

  /** `String(n)` of a non-negative integer. */
  function Decimal(n: nat): string {
    if n < 10 then [DigitChar(n)] else Decimal(n / 10) + [DigitChar(n % 10)]
  }

  lemma DecimalDigits(n: nat)
    ensures AllDigits(Decimal(n)) && |Decimal(n)| >= 1
  {
  }

  lemma DigitCharInjective(a: nat, b: nat)
    requires a < 10 && b < 10 && DigitChar(a) == DigitChar(b)
    ensures a == b
  {
  }

  lemma {:induction false} DecimalInjective(a: nat, b: nat)
    requires Decimal(a) == Decimal(b)
    ensures a == b
    decreases a
  {
    var s, t := Decimal(a), Decimal(b);
    DecimalDigits(a / 10);
    DecimalDigits(b / 10);
    assert s[|s| - 1] == DigitChar(a % 10) && t[|t| - 1] == DigitChar(b % 10);
    DigitCharInjective(a % 10, b % 10);
    if a >= 10 {
      assert |s| >= 2;
      assert s[..|s| - 1] == Decimal(a / 10) && t[..|t| - 1] == Decimal(b / 10);
      DecimalInjective(a / 10, b / 10);
    } else {
      assert |s| == 1;
    }
  }

  /** A run of digits ends at its separator, so the split point is determined. */
  lemma DigitsThenSeparator(p: string, q: string, c: char, x: string, y: string)
    requires AllDigits(p) && AllDigits(q) && !IsDigit(c) && p + [c] + x == q + [c] + y
    ensures p == q && x == y
  {
    var s, t := p + [c] + x, q + [c] + y;
    assert s[|p|] == c && forall i | 0 <= i < |p| :: IsDigit(s[i]);
    assert t[|q|] == c && forall i | 0 <= i < |q| :: IsDigit(t[i]);
    assert |p| == |q|;
    assert s[..|p|] == p && t[..|q|] == q;
    assert s[|p| + 1..] == x && t[|q| + 1..] == y;
  }

  /** Mirror image: a separator followed by digits to the end. */
  lemma SeparatorThenDigits(x: string, y: string, c: char, p: string, q: string)
    requires AllDigits(p) && AllDigits(q) && !IsDigit(c) && x + [c] + p == y + [c] + q
    ensures x == y && p == q
  {
    var s, t := x + [c] + p, y + [c] + q;
    assert s[|x|] == c && forall i | |x| < i < |s| :: IsDigit(s[i]);
    assert t[|y|] == c && forall i | |y| < i < |t| :: IsDigit(t[i]);
    assert |x| == |y|;
    assert s[..|x|] == x && t[..|y|] == y;
    assert s[|x| + 1..] == p && t[|y| + 1..] == q;
  }

  function LowerChar(c: char): char {
    if 'A' <= c <= 'Z' then (c as int + 32) as char else c
  }

  /** `toLowerCase` on the ASCII strings it is applied to. */
  function Lower(s: string): (r: string)
    ensures |r| == |s|
  {
    seq(|s|, i requires 0 <= i < |s| => LowerChar(s[i]))
  }

  predicate IsHex(c: char) { '0' <= c <= '9' || 'a' <= c <= 'f' || 'A' <= c <= 'F' }

  /** `^0x[0-9a-fA-F]{64}$`. */
  predicate IsHash(s: string) {
    |s| == 66 && s[0] == '0' && s[1] == 'x' && forall i | 2 <= i < 66 :: IsHex(s[i])
  }

  const HEX_DIGITS := "0123456789abcdefABCDEF"

  lemma HexExactly(c: char)
    ensures IsHex(c) <==> c in HEX_DIGITS
  {
    var digits, lower, upper := "0123456789", "abcdef", "ABCDEF";
    assert HEX_DIGITS == digits + lower + upper;
    assert c in HEX_DIGITS <==> c in digits || c in lower || c in upper;
  }

  /** A hash is `0x` and 64 hex digits. */
  lemma HashExactly(s: string)
    ensures IsHash(s) <==> |s| == 66 && s[..2] == "0x" && forall i | 2 <= i < |s| :: s[i] in HEX_DIGITS
  {
    forall c ensures IsHex(c) <==> c in HEX_DIGITS { HexExactly(c); }
    if |s| == 66 { assert s[..2] == [s[0], s[1]]; }
  }

  // ---------------------------------------------------------------- order

  predicate Less(s: string, t: string) {
    t != [] && (s == [] || s[0] < t[0] || (s[0] == t[0] && Less(s[1..], t[1..])))
  }

  lemma {:induction false} LessIsTotal(s: string, t: string)
    ensures s != t ==> Less(s, t) || Less(t, s)
    ensures !(Less(s, t) && Less(t, s))
  {
    if s != [] && t != [] {
      LessIsTotal(s[1..], t[1..]);
      assert s == [s[0]] + s[1..] && t == [t[0]] + t[1..];
    }
  }

  lemma {:induction false} LessIsTransitive(s: string, t: string, u: string)
    requires Less(s, t) && Less(t, u)
    ensures Less(s, u)
  {
    if s != [] && s[0] == t[0] == u[0] {
      LessIsTransitive(s[1..], t[1..], u[1..]);
    }
  }
}
