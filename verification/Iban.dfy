/**
 The mod-97 check that tells account numbers from other codes: the digit-by-digit remainder against
 the remainder of the whole number, and the single mistakes it is sure to notice.
 */
module Iban {
  import opened Text

  predicate IsLetter(c: char) { 'A' <= c <= 'Z' }

  /** What a candidate is made of, by the pattern it was matched with. */
  predicate Plain(s: string) { forall i | 0 <= i < |s| :: IsLetter(s[i]) || IsDigit(s[i]) }

  predicate Candidate(s: string) { forall i | 0 <= i < |s| :: IsLetter(s[i]) || IsDigit(s[i]) || s[i] == ' ' }

  function Compact(s: string): string {
    if s == [] then [] else Compact(s[..|s| - 1]) + if s[|s| - 1] == ' ' then [] else [s[|s| - 1]]
  }

  lemma {:induction false} CompactPlain(s: string)
    requires Candidate(s)
    ensures Plain(Compact(s))
    decreases s
  {
    if s != [] {
      CompactPlain(s[..|s| - 1]);
    }
  }

  function Rearranged(s: string): string
    requires |s| >= 4
  {
    s[4..] + s[..4]
  }

  /** Letters count from ten. */
  function Value(c: char): nat
    requires IsLetter(c) || IsDigit(c)
    ensures Value(c) < if IsLetter(c) then 36 else 10
    ensures IsLetter(c) ==> Value(c) >= 10
  {
    if IsLetter(c) then c as int - 55 else c as int - '0' as int
  }

  const ALPHABET := "ABCDEFGHIJKLMNOPQRSTUVWXYZ"

  /** The letters count on from ten in the order of the alphabet, and the digits for themselves. */
  lemma ValuesExactly(i: nat)
    ensures i < 26 ==> IsLetter(ALPHABET[i]) && Value(ALPHABET[i]) == 10 + i
    ensures i < 10 ==> IsDigit("0123456789"[i]) && Value("0123456789"[i]) == i
  {
  }

  /** A number followed by the digits of one more character. */
  function Then(n: nat, c: char): nat
    requires IsLetter(c) || IsDigit(c)
  {
    if IsLetter(c) then 100 * n + Value(c) else 10 * n + Value(c)
  }

  /** The number a string spells once each letter is replaced by its two digits. */
  function Number(s: string): nat
    requires Plain(s)
  {
    if s == [] then 0
    else
      Then(Number(s[..|s| - 1]), s[|s| - 1])
  }

  ghost predicate Valid(compact: string)
    requires Plain(compact)
  {
    15 <= |compact| <= 34 && Number(Rearranged(compact)) % 97 == 1
  }

  // ---------------------------------------------------------------- the check

  /** The decimal digits of a character, as the check feeds them. */
  function Digits(c: char): seq<nat>
    requires IsLetter(c) || IsDigit(c)
  {
    if IsLetter(c) then [Value(c) / 10, Value(c) % 10] else [Value(c)]
  }

  method RemoveSpaces(s: string) returns (r: string)
    ensures r == Compact(s)
  {
    r := [];
    for i := 0 to |s|
      invariant r == Compact(s[..i])
    {
      assert s[..i + 1][..i] == s[..i];
      if s[i] != ' ' { r := r + [s[i]]; }
    }
    assert s[..|s|] == s;
  }

  lemma Feed(r: nat, n: nat, d: nat)
    requires r == n % 97
    ensures (r * 10 + d) % 97 == (10 * n + d) % 97
  {
    var q := n / 97;
    assert 10 * n + d == 97 * (10 * q) + (r * 10 + d);
  }

  method FeedCharacter(c: char, before: nat, ghost n: nat) returns (r: nat)
    requires (IsLetter(c) || IsDigit(c)) && before == n % 97
    ensures r == Then(n, c) % 97
  {
    var digits := Digits(c);
    r := (before * 10 + digits[0]) % 97;
    Feed(before, n, digits[0]);
    if |digits| == 2 {
      Feed(r, 10 * n + digits[0], digits[1]);
      r := (r * 10 + digits[1]) % 97;
    }
  }

  /** The running remainder never needs the whole number, and accepts exactly when that number leaves one. */
  method IsIban(candidate: string) returns (ok: bool)
    requires Candidate(candidate)
    ensures Plain(Compact(candidate)) && (ok <==> Valid(Compact(candidate)))
  {
    var compact := RemoveSpaces(candidate);
    CompactPlain(candidate);
    if |compact| < 15 || |compact| > 34 { return false; }
    var rearranged := Rearranged(compact);
    var remainder := 0;
    for i := 0 to |rearranged|
      invariant remainder == Number(rearranged[..i]) % 97
    {
      assert rearranged[..i + 1][..i] == rearranged[..i];
      remainder := FeedCharacter(rearranged[i], remainder, Number(rearranged[..i]));
    }
    assert rearranged[..|rearranged|] == rearranged;
    return remainder == 1;
  }

  // ---------------------------------------------------------------- mistakes it notices

  /** Ten and a hundred have inverses modulo 97: feeding on never makes different remainders equal. */
  lemma TenSeparates(a: nat, b: nat, d: nat)
    requires (10 * a + d) % 97 == (10 * b + d) % 97
    ensures a % 97 == b % 97
  {
    var q := (10 * a + d) / 97 - (10 * b + d) / 97;
    assert 10 * (a - b) == 97 * q;
    assert 680 * (a - b) == 97 * (68 * q);
    assert a - b == 97 * (68 * q - 7 * (a - b));
    Congruent(a, b, 68 * q - 7 * (a - b));
  }

  lemma Congruent(a: nat, b: nat, k: int)
    requires a - b == 97 * k
    ensures a % 97 == b % 97
  {
  }

  lemma HundredSeparates(a: nat, b: nat, d: nat)
    requires (100 * a + d) % 97 == (100 * b + d) % 97
    ensures a % 97 == b % 97
  {
    TenSeparates(10 * a, 10 * b, d);
    TenSeparates(a, b, 0);
  }

  lemma {:induction false} SuffixSeparates(x: string, y: string, z: string)
    requires Plain(x) && Plain(y) && Plain(z)
    requires Number(x) % 97 != Number(y) % 97
    ensures Number(x + z) % 97 != Number(y + z) % 97
    decreases z
  {
    if z == [] {
      assert x + z == x && y + z == y;
    } else {
      var n := |z| - 1;
      var x', y', c := x + z[..n], y + z[..n], z[n];
      SuffixSeparates(x, y, z[..n]);
      assert x + z == x' + [c] && y + z == y' + [c];
      PushSeparates(x', y', c);
    }
  }

  lemma PushSeparates(x: string, y: string, c: char)
    requires Plain(x) && Plain(y) && (IsLetter(c) || IsDigit(c)) && Number(x) % 97 != Number(y) % 97
    ensures Plain(x + [c]) && Plain(y + [c]) && Number(x + [c]) % 97 != Number(y + [c]) % 97
  {
    NumberPush(x, c);
    NumberPush(y, c);
    ThenApart(Number(x), Number(y), c);
  }

  lemma ThenApart(a: nat, b: nat, c: char)
    requires (IsLetter(c) || IsDigit(c)) && a % 97 != b % 97
    ensures Then(a, c) % 97 != Then(b, c) % 97
  {
    if IsLetter(c) {
      HundredApart(a, b, Value(c));
    } else {
      TenApart(a, b, Value(c));
    }
  }

  lemma TenApart(a: nat, b: nat, d: nat)
    requires a % 97 != b % 97
    ensures (10 * a + d) % 97 != (10 * b + d) % 97
  {
    if (10 * a + d) % 97 == (10 * b + d) % 97 { TenSeparates(a, b, d); }
  }

  lemma HundredApart(a: nat, b: nat, d: nat)
    requires a % 97 != b % 97
    ensures (100 * a + d) % 97 != (100 * b + d) % 97
  {
    if (100 * a + d) % 97 == (100 * b + d) % 97 { HundredSeparates(a, b, d); }
  }

  lemma NumberPush(x: string, c: char)
    requires Plain(x) && (IsLetter(c) || IsDigit(c))
    ensures Plain(x + [c]) && Number(x + [c]) == Then(Number(x), c)
  {
    assert (x + [c])[..|x|] == x;
  }

  lemma CloseApart(a: nat, b: nat)
    requires 0 < a - b < 97 || 0 < b - a < 97
    ensures a % 97 != b % 97
  {
  }

  /** One digit for another digit, or one letter for another letter, changes the remainder. */
  lemma SubstitutionNoticed(x: string, c: char, d: char, z: string)
    requires Plain(x) && Plain(z) && c != d
    requires (IsLetter(c) && IsLetter(d)) || (IsDigit(c) && IsDigit(d))
    ensures Plain(x + [c] + z) && Plain(x + [d] + z)
    ensures Number(x + [c] + z) % 97 != Number(x + [d] + z) % 97
  {
    NumberPush(x, c);
    NumberPush(x, d);
    CloseApart(Number(x + [c]), Number(x + [d]));
    SuffixSeparates(x + [c], x + [d], z);
  }

  lemma RearrangedApart(s: string, i: nat, d: char)
    requires Plain(s) && |s| >= 4 && i < |s| && d != s[i]
    requires (IsLetter(s[i]) && IsLetter(d)) || (IsDigit(s[i]) && IsDigit(d))
    ensures Plain(Rearranged(s)) && Plain(Rearranged(s[i := d]))
    ensures Number(Rearranged(s)) % 97 != Number(Rearranged(s[i := d])) % 97
  {
    var r, k := Rearranged(s), if i < 4 then |s| - 4 + i else i - 4;
    RearrangedAt(s, i, s[i], k);
    RearrangedAt(s, i, d, k);
    assert s[i := s[i]] == s;
    SubstitutionNoticed(r[..k], s[i], d, r[k + 1..]);
  }

  /** So an accepted account number with one such mistake is never accepted. */
  lemma MistypedIsRejected(s: string, i: nat, d: char)
    requires Plain(s) && Valid(s) && i < |s| && d != s[i]
    requires (IsLetter(s[i]) && IsLetter(d)) || (IsDigit(s[i]) && IsDigit(d))
    ensures Plain(s[i := d]) && !Valid(s[i := d])
  {
    RearrangedApart(s, i, d);
  }

  lemma RearrangedAt(s: string, i: nat, d: char, k: nat)
    requires i < |s| && |s| >= 4 && k == if i < 4 then |s| - 4 + i else i - 4
    ensures Rearranged(s[i := d]) == Rearranged(s)[..k] + [d] + Rearranged(s)[k + 1..]
  {
    var t, r := s[i := d], Rearranged(s);
    assert Rearranged(t)[..k] == r[..k] && Rearranged(t)[k] == d && Rearranged(t)[k + 1..] == r[k + 1..];
  }

  /** Two neighbours of one kind swapped change the remainder. */
  lemma SwapNoticed(x: string, c: char, d: char, z: string)
    requires Plain(x) && Plain(z) && c != d
    requires (IsLetter(c) && IsLetter(d)) || (IsDigit(c) && IsDigit(d))
    ensures Plain(x + [c, d] + z) && Plain(x + [d, c] + z)
    ensures Number(x + [c, d] + z) % 97 != Number(x + [d, c] + z) % 97
  {
    NumberTwo(x, c, d);
    NumberTwo(x, d, c);
    var a: int, b: int := Number(x + [c, d]), Number(x + [d, c]);
    if IsDigit(c) {
      CloseApart(a, b);
    } else {
      var v: int, w: int := Value(c), Value(d);
      assert a - b == 97 * (v - w) + 2 * (v - w);
      SwappedLettersApart(a, b, v - w);
    }
    SuffixSeparates(x + [c, d], x + [d, c], z);
  }

  lemma SwappedLettersApart(a: nat, b: nat, k: int)
    requires a - b == 97 * k + 2 * k && (0 < k < 26 || 0 < -k < 26)
    ensures a % 97 != b % 97
  {
    assert a - 97 * k == b + 2 * k;
  }

  lemma NumberTwo(x: string, c: char, d: char)
    requires Plain(x) && (IsLetter(c) || IsDigit(c)) && (IsLetter(d) || IsDigit(d))
    ensures Plain(x + [c, d])
    ensures Number(x + [c, d]) == Then(Then(Number(x), c), d)
  {
    NumberPush(x, c);
    NumberPush(x + [c], d);
    assert x + [c] + [d] == x + [c, d];
  }

  /** The three pairs of a digit and a letter that may change places. */
  predicate Unnoticed(d: char, c: char) { (d == '1' && c == 'B') || (d == '2' && c == 'M') || (d == '3' && c == 'X') }

  /** A digit swapped with a neighbouring letter goes unnoticed for exactly three pairs. */
  lemma MixedSwapNoticedExactly(x: string, d: char, c: char, z: string)
    requires Plain(x) && Plain(z) && IsDigit(d) && IsLetter(c)
    ensures Plain(x + [d, c] + z) && Plain(x + [c, d] + z)
    ensures Number(x + [d, c] + z) % 97 == Number(x + [c, d] + z) % 97
       <==> Unnoticed(d, c)
  {
    NumberTwo(x, d, c);
    NumberTwo(x, c, d);
    var a: int, b: int, v: int, w: int := Number(x + [d, c]), Number(x + [c, d]), Value(d), Value(c);
    assert a - b == 99 * v - 9 * w;
    if Unnoticed(d, c) {
      assert a == b;
      SuffixAgrees(x + [d, c], x + [c, d], z);
    } else {
      if a % 97 == b % 97 { NinesMeet(a, b, v, w); }
      SuffixSeparates(x + [d, c], x + [c, d], z);
    }
  }

  lemma NinesMeet(a: nat, b: nat, v: nat, w: nat)
    requires v < 10 && 10 <= w < 36 && a - b == 99 * v - 9 * w && a % 97 == b % 97
    ensures (v == 1 && w == 11) || (v == 2 && w == 22) || (v == 3 && w == 33)
  {
    var j := v - (a / 97 - b / 97);
    assert 97 * j == 9 * w - 2 * v;
    assert 1 <= j <= 3;
  }

  lemma {:induction false} SuffixAgrees(x: string, y: string, z: string)
    requires Plain(x) && Plain(y) && Plain(z) && Number(x) == Number(y)
    ensures Number(x + z) == Number(y + z)
    decreases z
  {
    if z == [] {
      assert x + z == x && y + z == y;
    } else {
      var n := |z| - 1;
      SuffixAgrees(x, y, z[..n]);
      assert x + z == (x + z[..n]) + [z[n]] && y + z == (y + z[..n]) + [z[n]];
      NumberPush(x + z[..n], z[n]);
      NumberPush(y + z[..n], z[n]);
    }
  }

  // ---------------------------------------------------------------- neighbours swapped in an account number

  /** Two letters and two digits in front, as the pattern asks of a candidate. */
  predicate Shaped(s: string) { |s| >= 4 && IsLetter(s[0]) && IsLetter(s[1]) && IsDigit(s[2]) && IsDigit(s[3]) }

  function Swapped(s: string, i: nat): string
    requires i + 1 < |s|
  {
    s[i := s[i + 1]][i + 1 := s[i]]
  }

  function Ten(n: nat): (r: nat)
    ensures r > 0
  {
    if n == 0 then 1 else 10 * Ten(n - 1)
  }

  /** How many decimal digits a string spells. */
  function Width(s: string): (w: nat)
    ensures w <= 2 * |s|
  {
    if s == [] then 0 else Width(s[..|s| - 1]) + if IsLetter(s[|s| - 1]) then 2 else 1
  }

  /** A number with `w` zeros behind it. */
  function Shift(n: nat, w: nat): nat { if w == 0 then n else 10 * Shift(n, w - 1) }

  lemma {:induction false} ShiftAdds(m: nat, n: nat, w: nat)
    ensures Shift(m + n, w) == Shift(m, w) + Shift(n, w)
  {
    if w > 0 { ShiftAdds(m, n, w - 1); }
  }

  lemma {:induction false} ShiftIsTimes(n: nat, w: nat)
    ensures Shift(n, w) == n * Ten(w)
  {
    if w > 0 {
      ShiftIsTimes(n, w - 1);
      assert 10 * (n * Ten(w - 1)) == n * (10 * Ten(w - 1));
    }
  }

  lemma {:induction false} NumberConcat(x: string, y: string)
    requires Plain(x) && Plain(y)
    ensures Number(x + y) == Shift(Number(x), Width(y)) + Number(y)
    decreases y
  {
    if y == [] {
      assert x + y == x;
    } else {
      var n := |y| - 1;
      NumberConcat(x, y[..n]);
      assert x + y == (x + y[..n]) + [y[n]];
      NumberPush(x + y[..n], y[n]);
      assert Shift(Number(x), Width(y[..n]) + 1) == 10 * Shift(Number(x), Width(y[..n]));
      assert Shift(Number(x), Width(y[..n]) + 2) == 10 * Shift(Number(x), Width(y[..n]) + 1);
    }
  }

  /** The powers of ten modulo 97. */
  function Power(n: nat): nat { if n == 0 then 1 else 10 * Power(n - 1) % 97 }

  lemma {:induction false} PowerIsTen(n: nat)
    ensures Power(n) == Ten(n) % 97
  {
    if n > 0 {
      PowerIsTen(n - 1);
      Feed(Power(n - 1), Ten(n - 1), 0);
    }
  }

  ghost predicate OffOne(n: nat) { forall j: nat | 0 < j <= n :: Power(j) != 1 }

  /** Five more powers, none of which is one. */
  lemma Five(k: nat, a: nat, b: nat, c: nat, d: nat, e: nat, f: nat)
    requires Power(k) == a && OffOne(k)
    requires 10 * a % 97 == b && 10 * b % 97 == c && 10 * c % 97 == d && 10 * d % 97 == e && 10 * e % 97 == f
    requires 1 !in {b, c, d, e, f}
    ensures Power(k + 5) == f && OffOne(k + 5)
  {
    assert Power(k + 1) == b;
    assert Power(k + 2) == c;
    assert Power(k + 3) == d;
    assert Power(k + 4) == e;
  }

  /** Ten to the power of anything from 1 to 65 does not leave one. */
  lemma NoEarlyOne(n: nat)
    requires n == 0
    ensures OffOne(n + 65)
  {
    Five(n, 1, 10, 3, 30, 9, 90);
    Five(n + 5, 90, 27, 76, 81, 34, 49);
    Five(n + 10, 49, 5, 50, 15, 53, 45);
    Five(n + 15, 45, 62, 38, 89, 17, 73);
    Five(n + 20, 73, 51, 25, 56, 75, 71);
    Five(n + 25, 71, 31, 19, 93, 57, 85);
    Five(n + 30, 85, 74, 61, 28, 86, 84);
    Five(n + 35, 84, 64, 58, 95, 77, 91);
    Five(n + 40, 91, 37, 79, 14, 43, 42);
    Five(n + 45, 42, 32, 29, 96, 87, 94);
    Five(n + 50, 94, 67, 88, 7, 70, 21);
    Five(n + 55, 21, 16, 63, 48, 92, 47);
    Five(n + 60, 47, 82, 44, 52, 35, 59);
  }

  lemma SmallMultipleApart(delta: int, q: int, j: int)
    requires 0 < delta < 10 && 0 < q < 97
    ensures delta * q != 97 * j
  {
    if delta == 1 {} else if delta == 2 {} else if delta == 3 {} else if delta == 4 {} else if delta == 5 {}
    else if delta == 6 {} else if delta == 7 {} else if delta == 8 {} else { assert delta == 9; }
  }

  lemma DifferenceApart(a: nat, b: nat, delta: nat, t: nat)
    requires a - b == delta * t - delta && t >= 1 && t % 97 != 1 && 0 < delta < 10
    ensures a % 97 != b % 97
  {
    if a % 97 == b % 97 {
      var j, q, e := a / 97 - b / 97, (t - 1) % 97, (t - 1) / 97;
      assert delta * t - delta == delta * (t - 1);
      assert delta * (97 * e + q) == 97 * (delta * e) + delta * q;
      SmallMultipleApart(delta, q, j - delta * e);
    }
  }

  /** Two digits swapped between the ends of a string of at most 34 characters change the remainder. */
  lemma EndsNoticed(a: char, m: string, b: char)
    requires IsDigit(a) && IsDigit(b) && a != b && Plain(m) && |m| <= 32
    ensures Plain([a] + m + [b]) && Plain([b] + m + [a])
    ensures Number([a] + m + [b]) % 97 != Number([b] + m + [a]) % 97
  {
    var x := EndsNumber(a, m, b);
    var y := EndsNumber(b, m, a);
    ValuesApart(a, b);
    if Value(a) > Value(b) {
      EndsApart(x, y, Value(a), Value(b), Width(m), Number(m));
    } else {
      EndsApart(y, x, Value(b), Value(a), Width(m), Number(m));
    }
  }

  lemma ValuesApart(a: char, b: char)
    requires IsDigit(a) && IsDigit(b) && a != b
    ensures Value(a) != Value(b)
  {
  }

  lemma EndsApart(a: nat, b: nat, v: nat, w: nat, k: nat, n: nat)
    requires a == 10 * (Shift(v, k) + n) + w && b == 10 * (Shift(w, k) + n) + v
    requires w < v < 10 && k < 65
    ensures a % 97 != b % 97
  {
    ShiftAdds(w, v - w, k);
    ShiftIsTimes(v - w, k + 1);
    NoEarlyOne(0);
    PowerIsTen(k + 1);
    assert Power(k + 1) != 1;
    assert Shift(v - w, k + 1) == 10 * Shift(v - w, k);
    DifferenceApart(a, b, v - w, Ten(k + 1));
  }

  lemma EndsNumber(a: char, m: string, b: char) returns (x: nat)
    requires IsDigit(a) && IsDigit(b) && Plain(m)
    ensures Plain([a] + m + [b]) && x == Number([a] + m + [b])
    ensures x == 10 * (Shift(Value(a), Width(m)) + Number(m)) + Value(b)
  {
    x := Number([a] + m + [b]);
    NumberPush([], a);
    assert [] + [a] == [a];
    NumberConcat([a], m);
    NumberPush([a] + m, b);
  }

  /** The rearranged account number with the two neighbours in their places. */
  lemma SwapInPlace(s: string, i: nat)
    requires |s| >= 5 && i + 1 < |s| && i != 3
    ensures var r, r', k := Rearranged(s), Rearranged(Swapped(s, i)), if i < 4 then |s| - 4 + i else i - 4;
            && r == r[..k] + [s[i], s[i + 1]] + r[k + 2..]
            && r' == r[..k] + [s[i + 1], s[i]] + r[k + 2..]
  {
    var t, r, r', k := Swapped(s, i), Rearranged(s), Rearranged(Swapped(s, i)), if i < 4 then |s| - 4 + i else i - 4;
    assert r[k] == s[i] && r[k + 1] == s[i + 1] && r'[k] == s[i + 1] && r'[k + 1] == s[i];
    forall n | 0 <= n < |r| && n != k && n != k + 1 ensures r'[n] == r[n] {
      var m := if n < |s| - 4 then n + 4 else n - (|s| - 4);
      assert r[n] == s[m] && r'[n] == t[m];
    }
  }

  lemma BoundarySwap(s: string)
    requires |s| >= 5
    ensures var m := s[5..] + s[..3];
            Rearranged(s) == [s[4]] + m + [s[3]] && Rearranged(Swapped(s, 3)) == [s[3]] + m + [s[4]]
  {
    var t := Swapped(s, 3);
    assert t[5..] == s[5..] && t[..3] == s[..3];
  }

  predicate MayTrade(c: char, d: char) { Unnoticed(c, d) || Unnoticed(d, c) }

  /** Different neighbours of any kind. */
  lemma PairNoticed(x: string, c: char, d: char, z: string)
    requires Plain(x) && Plain(z) && c != d && (IsLetter(c) || IsDigit(c)) && (IsLetter(d) || IsDigit(d))
    ensures Plain(x + [c, d] + z) && Plain(x + [d, c] + z)
    ensures Number(x + [c, d] + z) % 97 == Number(x + [d, c] + z) % 97 <==> MayTrade(c, d)
  {
    if IsLetter(c) == IsLetter(d) {
      SwapNoticed(x, c, d, z);
    } else if IsDigit(c) {
      MixedSwapNoticedExactly(x, c, d, z);
    } else {
      MixedSwapNoticedExactly(x, d, c, z);
    }
  }

  lemma SwapInPlaceNoticed(s: string, i: nat)
    requires Plain(s) && |s| >= 5 && i + 1 < |s| && i != 3 && s[i] != s[i + 1]
    ensures Plain(Rearranged(s)) && Plain(Rearranged(Swapped(s, i)))
    ensures Number(Rearranged(s)) % 97 == Number(Rearranged(Swapped(s, i))) % 97 <==> MayTrade(s[i], s[i + 1])
  {
    var r, k := Rearranged(s), if i < 4 then |s| - 4 + i else i - 4;
    SwapInPlace(s, i);
    PairNoticed(r[..k], s[i], s[i + 1], r[k + 2..]);
  }

  /**
   An accepted account number with two different neighbours swapped, wherever they stand: it is accepted
   again if and only if they are one of the three pairs and stand behind the first four characters.
   */
  lemma SwappedIsRejectedExactly(s: string, i: nat)
    requires Plain(s) && Shaped(s) && Valid(s) && i + 1 < |s| && s[i] != s[i + 1]
    ensures var t := Swapped(s, i);
            Plain(t) && (Shaped(t) && Valid(t) <==> i >= 4 && MayTrade(s[i], s[i + 1]))
  {
    var t := Swapped(s, i);
    if i == 3 {
      BoundarySwap(s);
      if IsDigit(s[4]) {
        EndsNoticed(s[4], s[5..] + s[..3], s[3]);
      } else {
        assert !Shaped(t);
      }
    } else if i == 1 {
      assert !Shaped(t);
    } else {
      SwapInPlaceNoticed(s, i);
    }
  }
}
