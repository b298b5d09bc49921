/**
 The signed-request middleware of the services: which requests get through, what a refused request
 leaves behind, and how long a nonce has to be remembered for a signed request to get through once.
 */
module ServiceAuth {
  import opened Common
  import opened NonceStore
  import opened Text

  datatype Principal = Principal(id: string, secret: string, active: bool)

  /** Header values of one request; `text` stands for method, path, query and body hash. */
  datatype SignedRequest = SignedRequest(
    apiKey: string, timestamp: Option<string>, nonce: Option<string>, signature: Option<string>, text: string)

  datatype Policy = Policy(
    maxSkewSeconds: nat, nonceTtlSeconds: nat,
    resolve: string -> Option<Principal>,
    derive: (string, string) -> string,
    sign: (string, string, string, string) -> string)

  datatype Decision =
    | Admitted(principal: string)
    | MissingHeaders
    | InvalidTimestamp
    | TimestampSkew
    | UnknownKey
    | Inactive
    | InvalidNonce
    | InvalidSignature
    | Replayed

  const NONCE_MAX_LENGTH := 255
  const MAX_SAFE_INTEGER := 9_007_199_254_740_991

  function Value(s: string): nat
    requires AllDigits(s)
  {
    if s == [] then 0 else 10 * Value(s[..|s| - 1]) + (s[|s| - 1] as int - '0' as int)
  }

  predicate TimestampOk(s: string) { s != [] && AllDigits(s) && 0 < Value(s) <= MAX_SAFE_INTEGER }

  /** Whole seconds of an instant in milliseconds. */
  function Seconds(ms: nat): nat { ms / 1000 }

  predicate WithinSkew(ts: nat, now: nat, skew: nat) { -(skew as int) <= Seconds(now) - ts <= skew }

  /** What `trim` takes off: the white space and line ends of ECMAScript. */
  predicate IsSpace(c: char) {
    || c == ' ' || '\t' <= c <= '\r' || c == '\U{00A0}' || c == '\U{1680}' || '\U{2000}' <= c <= '\U{200A}'
    || c == '\U{2028}' || c == '\U{2029}' || c == '\U{202F}' || c == '\U{205F}' || c == '\U{3000}' || c == '\U{FEFF}'
  }

  /** By code point. */
  lemma SpacesExactly(c: char)
    ensures IsSpace(c) <==> c as int in {0x9, 0xA, 0xB, 0xC, 0xD, 0x20, 0xA0, 0x1680, 0x2000, 0x2001, 0x2002, 0x2003, 0x2004,
                                         0x2005, 0x2006, 0x2007, 0x2008, 0x2009, 0x200A, 0x2028, 0x2029, 0x202F, 0x205F,
                                         0x3000, 0xFEFF}
  {
  }

  predicate Blank(s: string) { forall i | 0 <= i < |s| :: IsSpace(s[i]) }

  function Trim(s: string): string {
    if s == "" then ""
    else if IsSpace(s[0]) then Trim(s[1..])
    else if IsSpace(s[|s| - 1]) then Trim(s[..|s| - 1])
    else s
  }

  /** No space at either end. */
  predicate Clean(s: string) { s != "" ==> !IsSpace(s[0]) && !IsSpace(s[|s| - 1]) }

  ghost predicate Padded(s: string, lead: string, core: string, tail: string) {
    s == lead + core + tail && Blank(lead) && Blank(tail) && Clean(core)
  }

  /** What is left is the text between the spaces: any way of splitting them off gives it, and there is one. */
  lemma {:induction false} TrimExactly(s: string, core: string)
    ensures Trim(s) == core <==> exists lead, tail :: Padded(s, lead, core, tail)
  {
    var before, behind := TrimSplits(s);
    if lead, tail :| Padded(s, lead, core, tail) {
      TrimOfPadded(lead, core, tail);
    }
  }

  lemma {:induction false} TrimSplits(s: string) returns (lead: string, tail: string)
    ensures Padded(s, lead, Trim(s), tail)
    decreases |s|
  {
    if s == "" {
      lead, tail := "", "";
    } else if IsSpace(s[0]) {
      lead, tail := TrimSplits(s[1..]);
      PadFront(s, lead, Trim(s), tail);
      lead := [s[0]] + lead;
    } else if IsSpace(s[|s| - 1]) {
      lead, tail := TrimSplits(s[..|s| - 1]);
      PadBack(s, lead, Trim(s), tail);
      tail := tail + [s[|s| - 1]];
    } else {
      lead, tail := "", "";
    }
  }

  lemma PadFront(s: string, lead: string, core: string, tail: string)
    requires s != "" && IsSpace(s[0]) && Padded(s[1..], lead, core, tail)
    ensures Padded(s, [s[0]] + lead, core, tail)
  {
    assert s == [s[0]] + s[1..];
  }

  lemma PadBack(s: string, lead: string, core: string, tail: string)
    requires s != "" && IsSpace(s[|s| - 1]) && Padded(s[..|s| - 1], lead, core, tail)
    ensures Padded(s, lead, core, tail + [s[|s| - 1]])
  {
    assert s == s[..|s| - 1] + [s[|s| - 1]];
  }

  lemma TrimFront(s: string)
    requires s != "" && IsSpace(s[0])
    ensures Trim(s) == Trim(s[1..])
  {
  }

  lemma TrimBack(s: string)
    requires s != "" && !IsSpace(s[0]) && IsSpace(s[|s| - 1])
    ensures Trim(s) == Trim(s[..|s| - 1])
  {
  }

  lemma {:induction false} TrimLead(lead: string, rest: string)
    requires Blank(lead)
    ensures Trim(lead + rest) == Trim(rest)
    decreases lead
  {
    if lead == "" {
      assert lead + rest == rest;
    } else {
      assert (lead + rest)[0] == lead[0] && (lead + rest)[1..] == lead[1..] + rest;
      TrimFront(lead + rest);
      TrimLead(lead[1..], rest);
    }
  }

  lemma {:induction false} TrimTail(core: string, tail: string)
    requires Blank(tail) && core != "" && Clean(core)
    ensures Trim(core + tail) == core
    decreases tail
  {
    if tail == "" {
      assert core + tail == core;
    } else {
      var s, n := core + tail, |tail| - 1;
      assert s[0] == core[0] && s[|s| - 1] == tail[n] && s[..|s| - 1] == core + tail[..n];
      TrimBack(s);
      TrimTail(core, tail[..n]);
    }
  }

  lemma TrimOfPadded(lead: string, core: string, tail: string)
    requires Blank(lead) && Blank(tail) && Clean(core)
    ensures Trim(lead + core + tail) == core
  {
    assert lead + core + tail == lead + (core + tail);
    TrimLead(lead, core + tail);
    if core == "" {
      assert core + tail == tail + "";
      TrimLead(tail, "");
    } else {
      TrimTail(core, tail);
    }
  }

  lemma {:induction false} TrimOfBlank(s: string)
    ensures Trim(s) == "" <==> Blank(s)
    decreases |s|
  {
    var lead, tail := TrimSplits(s);
    if Trim(s) != "" { assert s[|lead|] == Trim(s)[0]; }
  }

  predicate Says(v: Option<string>) { v.Some? && !Blank(v.value) }

  /** The value of the first header that says something, without the spaces around it. */
  function FirstOf(values: seq<Option<string>>): Option<string> {
    if values == [] then None
    else if Says(values[0]) then Some(Trim(values[0].value))
    else FirstOf(values[1..])
  }

  method FirstHeader(values: seq<Option<string>>) returns (r: Option<string>)
    ensures r == FirstOf(values)
    ensures r.None? <==> forall i | 0 <= i < |values| :: !Says(values[i])
    ensures r.Some? ==> && r.value != ""
                        && exists i | 0 <= i < |values| :: && Says(values[i]) && r.value == Trim(values[i].value)
                                                          && forall j | 0 <= j < i :: !Says(values[j])
  {
    for i := 0 to |values|
      invariant FirstOf(values) == FirstOf(values[i..])
      invariant forall j | 0 <= j < i :: !Says(values[j])
    {
      assert values[i..][1..] == values[i + 1..];
      if values[i].Some? {
        var trimmed := Trim(values[i].value);
        TrimOfBlank(values[i].value);
        if trimmed != "" { return Some(trimmed); }
      }
    }
    return None;
  }

  /** The headers as they arrive, under each of their names in the order they are looked up. */
  datatype Headers = Headers(
    apiKey: seq<Option<string>>, timestamp: seq<Option<string>>, nonce: seq<Option<string>>,
    signature: seq<Option<string>>, text: string)

  function Received(h: Headers): SignedRequest {
    SignedRequest(FirstOf(h.apiKey).GetOr(""), FirstOf(h.timestamp), FirstOf(h.nonce), FirstOf(h.signature), h.text)
  }

  predicate IsSignature(s: string) { |s| == 64 && forall i | 0 <= i < 64 :: IsHex(s[i]) }

  /** Two signatures are the same bytes, whatever the case of their digits. */
  predicate SameHex(a: string, b: string) { IsSignature(a) && IsSignature(b) && Lower(a) == Lower(b) }

  function NonceOf(p: Policy, r: SignedRequest): string
    requires r.timestamp.Some?
  {
    if r.nonce.Some? && r.nonce.value != "" then r.nonce.value else p.derive(r.text, r.timestamp.value)
  }

  /** The checks before the nonce is spent. */
  function Screen(p: Policy, r: SignedRequest, now: nat): Option<Decision> {
    if r.timestamp.None? || r.signature.None? || r.timestamp.value == "" || r.signature.value == "" then Some(MissingHeaders)
    else if !TimestampOk(r.timestamp.value) then Some(InvalidTimestamp)
    else if !WithinSkew(Value(r.timestamp.value), now, p.maxSkewSeconds) then Some(TimestampSkew)
    else
      match p.resolve(r.apiKey)
      case None => Some(UnknownKey)
      case Some(who) =>
        if !who.active then Some(Inactive)
        else
          var nonce := NonceOf(p, r);
          if Blank(nonce) || |nonce| > NONCE_MAX_LENGTH then Some(InvalidNonce)
          else if !SameHex(r.signature.value, p.sign(who.secret, r.text, r.timestamp.value, nonce)) then
            Some(InvalidSignature)
          else None
  }

  /** A request an active caller signed, in time. */
  predicate Genuine(p: Policy, r: SignedRequest, now: nat) { Screen(p, r, now).None? }

  /** The key under which the nonce of a genuine request is spent. */
  function SpentKey(p: Policy, r: SignedRequest, now: nat): Key
    requires Genuine(p, r, now)
  {
    KeyFor(p.resolve(r.apiKey).value.id, NonceOf(p, r))
  }

  /** What becomes of one request and of the stored nonces. */
  function Decide(p: Policy, es: seq<Entry>, max: nat, r: SignedRequest, now: nat): (seq<Entry>, Decision) {
    match Screen(p, r, now)
    case Some(refusal) => (es, refusal)
    case None =>
      var (after, accepted) := Consumed(es, max, SpentKey(p, r, now), p.nonceTtlSeconds, now);
      (after, if accepted then Admitted(p.resolve(r.apiKey).value.id) else Replayed)
  }

  class Middleware {
    const policy: Policy
    const store: InMemoryNonceStore

    constructor (policy: Policy, store: InMemoryNonceStore)
      ensures this.policy == policy && this.store == store
    {
      this.policy := policy;
      this.store := store;
    }

    /**
     Admits exactly the genuine requests whose nonce is not remembered for that principal; a request
     that is not genuine spends no nonce, whoever it claims to come from.
     */
    method Authenticate(r: SignedRequest, now: nat) returns (d: Decision)
      modifies store
      ensures (store.entries, d) == Decide(policy, old(store.entries), store.maxEntries, r, now)
      ensures d.Admitted? <==> Genuine(policy, r, now) && !Remembers(old(store.entries), SpentKey(policy, r, now), now)
      ensures !Genuine(policy, r, now) ==> store.entries == old(store.entries)
      ensures d.Admitted? || d.Replayed? || store.entries != old(store.entries) ==> SignedByPrincipal(policy, r)
      ensures d.Admitted? ==> policy.resolve(r.apiKey).Some? && d.principal == policy.resolve(r.apiKey).value.id
    {
      GenuineExactly(policy, r, now);
      var refusal := Screen(policy, r, now);
      if refusal.Some? { return refusal.value; }
      var who := policy.resolve(r.apiKey).value;
      var accepted := store.Consume(who.id, NonceOf(policy, r), policy.nonceTtlSeconds, now);
      return if accepted then Admitted(who.id) else Replayed;
    }

    /** The same from the headers as they arrive. */
    method Handle(h: Headers, now: nat) returns (d: Decision)
      modifies store
      ensures (store.entries, d) == Decide(policy, old(store.entries), store.maxEntries, Received(h), now)
      ensures var r := Received(h);
              d.Admitted? <==> Genuine(policy, r, now) && !Remembers(old(store.entries), SpentKey(policy, r, now), now)
      ensures d.Admitted? || d.Replayed? || store.entries != old(store.entries) ==> SignedByPrincipal(policy, Received(h))
    {
      var apiKey := FirstHeader(h.apiKey);
      var timestamp := FirstHeader(h.timestamp);
      var nonce := FirstHeader(h.nonce);
      var signature := FirstHeader(h.signature);
      d := Authenticate(SignedRequest(apiKey.GetOr(""), timestamp, nonce, signature, h.text), now);
    }
  }

  // ---------------------------------------------------------------- what makes a request genuine

  /** The number a hex digit stands for, in either case. */
  function HexDigit(c: char): (n: nat)
    requires IsHex(c)
    ensures n < 16
  {
    if '0' <= c <= '9' then c as nat - '0' as nat
    else if 'a' <= c <= 'f' then c as nat - 'a' as nat + 10
    else c as nat - 'A' as nat + 10
  }

  /** Both spell the same 32 bytes. */
  predicate SameBytes(a: string, b: string) {
    && |a| == |b| == 64
    && forall i | 0 <= i < 64 :: IsHex(a[i]) && IsHex(b[i]) && HexDigit(a[i]) == HexDigit(b[i])
  }

  lemma LowerHex(c: char, d: char)
    requires IsHex(c) && IsHex(d)
    ensures LowerChar(c) == LowerChar(d) <==> HexDigit(c) == HexDigit(d)
  {
  }

  lemma SameHexIsSameBytes(a: string, b: string)
    ensures SameHex(a, b) <==> SameBytes(a, b)
  {
    if IsSignature(a) && IsSignature(b) {
      forall i | 0 <= i < 64 ensures LowerChar(a[i]) == LowerChar(b[i]) <==> HexDigit(a[i]) == HexDigit(b[i]) {
        LowerHex(a[i], b[i]);
      }
      if SameHex(a, b) {
        forall i | 0 <= i < 64 ensures LowerChar(a[i]) == LowerChar(b[i]) {
          assert Lower(a)[i] == Lower(b)[i];
        }
      }
      if SameBytes(a, b) { assert Lower(a) == Lower(b); }
    }
  }

  /** The header, or the value derived from the request where there is none. */
  predicate NonceIs(p: Policy, r: SignedRequest, nonce: string) {
    && r.timestamp.Some?
    && (r.nonce.Some? && r.nonce.value != "" ==> nonce == r.nonce.value)
    && (r.nonce.None? || r.nonce.value == "" ==> nonce == p.derive(r.text, r.timestamp.value))
  }

  /** The signature is the one the named principal makes over text, timestamp and nonce. */
  ghost predicate SignedByPrincipal(p: Policy, r: SignedRequest) {
    && r.timestamp.Some? && r.signature.Some? && p.resolve(r.apiKey).Some?
    && exists nonce :: NonceIs(p, r, nonce)
                       && SameBytes(r.signature.value, p.sign(p.resolve(r.apiKey).value.secret, r.text, r.timestamp.value, nonce))
  }

  predicate HasHeaders(r: SignedRequest) {
    r.timestamp.Some? && r.timestamp.value != "" && r.signature.Some? && r.signature.value != ""
  }

  /** A positive number of seconds, written in digits, that a double holds exactly. */
  predicate HasTime(r: SignedRequest) {
    && r.timestamp.Some? && r.timestamp.value != ""
    && (forall i | 0 <= i < |r.timestamp.value| :: '0' <= r.timestamp.value[i] <= '9')
    && 0 < Value(r.timestamp.value) <= 0x1F_FFFF_FFFF_FFFF
  }

  predicate InTime(p: Policy, r: SignedRequest, now: nat)
    requires HasTime(r)
  {
    var ts := Value(r.timestamp.value);
    ts <= now / 1000 + p.maxSkewSeconds && now / 1000 <= ts + p.maxSkewSeconds
  }

  ghost predicate HasNonce(p: Policy, r: SignedRequest) {
    exists nonce :: NonceIs(p, r, nonce) && |nonce| <= 255 && exists i | 0 <= i < |nonce| :: !IsSpace(nonce[i])
  }

  /**
   Which requests are genuine, and why any other is refused: by the first check that fails, of headers,
   timestamp, skew, key, activity, nonce and signature.
   */
  lemma GenuineExactly(p: Policy, r: SignedRequest, now: nat)
    ensures var who, d := p.resolve(r.apiKey), Screen(p, r, now);
            && (d == Some(MissingHeaders) <==> !HasHeaders(r))
            && (d == Some(InvalidTimestamp) <==> HasHeaders(r) && !HasTime(r))
            && (d == Some(TimestampSkew) <==> HasHeaders(r) && HasTime(r) && !InTime(p, r, now))
            && (d == Some(UnknownKey) <==> HasHeaders(r) && HasTime(r) && InTime(p, r, now) && who.None?)
            && (d == Some(Inactive) <==> && HasHeaders(r) && HasTime(r) && InTime(p, r, now)
                                         && who.Some? && !who.value.active)
            && (d == Some(InvalidNonce) <==> && HasHeaders(r) && HasTime(r) && InTime(p, r, now)
                                             && who.Some? && who.value.active && !HasNonce(p, r))
            && (d == Some(InvalidSignature) <==> && HasHeaders(r) && HasTime(r) && InTime(p, r, now)
                                                 && who.Some? && who.value.active && HasNonce(p, r)
                                                 && !SignedByPrincipal(p, r))
            && (Genuine(p, r, now) <==> && HasHeaders(r) && HasTime(r) && InTime(p, r, now)
                                        && who.Some? && who.value.active && HasNonce(p, r) && SignedByPrincipal(p, r))
  {
    if r.timestamp.Some? {
      assert NonceIs(p, r, NonceOf(p, r));
      if r.signature.Some? && p.resolve(r.apiKey).Some? {
        SameHexIsSameBytes(r.signature.value,
                           p.sign(p.resolve(r.apiKey).value.secret, r.text, r.timestamp.value, NonceOf(p, r)));
      }
    }
  }

  /** A genuine request spends the nonce it carries under the id of the principal who signed it. */
  lemma SpendsItsOwn(p: Policy, r: SignedRequest, now: nat, nonce: string)
    requires Genuine(p, r, now) && NonceIs(p, r, nonce)
    ensures SpentKey(p, r, now) == KeyFor(p.resolve(r.apiKey).value.id, nonce)
  {
  }

  // ---------------------------------------------------------------- whole runs

  datatype Presentation = Presentation(request: SignedRequest, now: nat)

  /** The clock does not go back. */
  ghost predicate Steady(ps: seq<Presentation>) { forall i, j | 0 <= i < j < |ps| :: ps[i].now <= ps[j].now }

  function EntriesAfter(p: Policy, max: nat, ps: seq<Presentation>): seq<Entry> {
    if ps == [] then []
    else
      var last := ps[|ps| - 1];
      Decide(p, EntriesAfter(p, max, ps[..|ps| - 1]), max, last.request, last.now).0
  }

  function DecisionAt(p: Policy, max: nat, ps: seq<Presentation>, i: nat): Decision
    requires i < |ps|
  {
    Decide(p, EntriesAfter(p, max, ps[..i]), max, ps[i].request, ps[i].now).1
  }

  predicate FindsRoom(p: Policy, max: nat, ps: seq<Presentation>, i: nat)
    requires i < |ps|
  {
    |Live(EntriesAfter(p, max, ps[..i]), ps[i].now)| < max
  }

  /** Every admitted request finds room beside the unexpired nonces. */
  ghost predicate Ample(p: Policy, max: nat, ps: seq<Presentation>) {
    forall i | 0 <= i < |ps| && DecisionAt(p, max, ps, i).Admitted? :: FindsRoom(p, max, ps, i)
  }

  /** The same principal, timestamp and nonce. */
  predicate SameClaim(p: Policy, a: SignedRequest, b: SignedRequest) {
    && p.resolve(a.apiKey).Some? && p.resolve(b.apiKey).Some?
    && p.resolve(a.apiKey).value.id == p.resolve(b.apiKey).value.id
    && a.timestamp.Some? && b.timestamp.Some? && TimestampOk(a.timestamp.value) && TimestampOk(b.timestamp.value)
    && Value(a.timestamp.value) == Value(b.timestamp.value) && NonceOf(p, a) == NonceOf(p, b)
  }

  lemma SecondsBound(ms: nat)
    ensures 1000 * Seconds(ms) <= ms <= 1000 * Seconds(ms) + 999
  {
  }

  /** Two presentations of one claim that are both in time are less than twice the skew and a second apart. */
  lemma InTimeTogether(ts: nat, first: nat, second: nat, skew: nat)
    requires WithinSkew(ts, first, skew) && WithinSkew(ts, second, skew)
    ensures second - first <= 2000 * skew + 999
  {
    SecondsBound(first);
    SecondsBound(second);
  }

  lemma EntriesNext(p: Policy, max: nat, ps: seq<Presentation>, n: nat)
    requires n < |ps|
    ensures EntriesAfter(p, max, ps[..n + 1])
         == Decide(p, EntriesAfter(p, max, ps[..n]), max, ps[n].request, ps[n].now).0
  {
    assert ps[..n + 1][..n] == ps[..n];
  }

  /** From an admission on, its key is refused for the lifetime of the nonce. */
  lemma {:induction false} AdmittedIsRemembered(p: Policy, max: nat, ps: seq<Presentation>, i: nat, n: nat, t: int)
    requires Steady(ps) && Ample(p, max, ps) && i < n <= |ps|
    requires DecisionAt(p, max, ps, i).Admitted? && ps[n - 1].now <= t < ps[i].now + 1000 * p.nonceTtlSeconds
    ensures Remembers(EntriesAfter(p, max, ps[..n]), SpentKey(p, ps[i].request, ps[i].now), t)
    decreases n
  {
    var es, last := EntriesAfter(p, max, ps[..n - 1]), ps[n - 1];
    EntriesNext(p, max, ps, n - 1);
    if n - 1 == i {
      assert FindsRoom(p, max, ps, i);
      AcceptedIsRemembered(es, max, SpentKey(p, last.request, last.now), p.nonceTtlSeconds, last.now, t);
    } else {
      AdmittedIsRemembered(p, max, ps, i, n - 1, t);
      if Genuine(p, last.request, last.now) {
        assert DecisionAt(p, max, ps, n - 1).Admitted? ==> FindsRoom(p, max, ps, n - 1);
        ConsumedRemembers(es, max, SpentKey(p, last.request, last.now), p.nonceTtlSeconds, last.now,
                          SpentKey(p, ps[i].request, ps[i].now), t);
      }
    }
  }

  /**
   Over every run of the middleware, whatever is presented: with a clock that does not go back, room for
   what is admitted and a nonce lifetime over twice the skew, no claim is admitted twice.
   */
  lemma AdmittedAtMostOnce(p: Policy, max: nat, ps: seq<Presentation>, i: nat, j: nat)
    requires Steady(ps) && Ample(p, max, ps) && p.nonceTtlSeconds > 2 * p.maxSkewSeconds
    requires i < j < |ps| && SameClaim(p, ps[i].request, ps[j].request)
    ensures !(DecisionAt(p, max, ps, i).Admitted? && DecisionAt(p, max, ps, j).Admitted?)
  {
    var a, b := ps[i], ps[j];
    if DecisionAt(p, max, ps, i).Admitted? && Genuine(p, b.request, b.now) {
      InTimeTogether(Value(a.request.timestamp.value), a.now, b.now, p.maxSkewSeconds);
      AdmittedIsRemembered(p, max, ps, i, j, b.now);
      RefusedExactly(EntriesAfter(p, max, ps[..j]), max, SpentKey(p, b.request, b.now), p.nonceTtlSeconds, b.now);
    }
  }

  /** In no run is a request admitted, or a nonce spent, that the principal it names did not sign, or not in time. */
  lemma ForgedLeavesNoTrace(p: Policy, max: nat, ps: seq<Presentation>, i: nat)
    requires i < |ps|
    requires var r := ps[i].request; !SignedByPrincipal(p, r) || !HasTime(r) || !InTime(p, r, ps[i].now)
    ensures !DecisionAt(p, max, ps, i).Admitted? && !DecisionAt(p, max, ps, i).Replayed?
    ensures EntriesAfter(p, max, ps[..i + 1]) == EntriesAfter(p, max, ps[..i])
  {
    GenuineExactly(p, ps[i].request, ps[i].now);
    EntriesNext(p, max, ps, i);
  }

  // ---------------------------------------------------------------- the failing settings

  lemma {:induction false} DecimalValue(n: nat)
    ensures AllDigits(Decimal(n)) && Decimal(n) != [] && Value(Decimal(n)) == n
  {
    DecimalDigits(n);
    if n >= 10 {
      DecimalValue(n / 10);
      var s := Decimal(n);
      assert s[..|s| - 1] == Decimal(n / 10);
    }
  }

  /** A caller able to sign: an active principal, a usable nonce and a well-formed signature. */
  predicate CanSign(p: Policy, apiKey: string, text: string, nonce: string) {
    && p.resolve(apiKey).Some? && p.resolve(apiKey).value.active
    && !Blank(nonce) && |nonce| <= NONCE_MAX_LENGTH && nonce != ""
    && p.maxSkewSeconds < MAX_SAFE_INTEGER
    && IsSignature(p.sign(p.resolve(apiKey).value.secret, text, Decimal(p.maxSkewSeconds + 1), nonce))
  }

  /** The request signed for the instant `skew + 1` seconds. */
  function Signed(p: Policy, apiKey: string, text: string, nonce: string): SignedRequest
    requires CanSign(p, apiKey, text, nonce)
  {
    var ts := Decimal(p.maxSkewSeconds + 1);
    SignedRequest(apiKey, Some(ts), Some(nonce), Some(p.sign(p.resolve(apiKey).value.secret, text, ts, nonce)), text)
  }

  /** Presented as early and as late as the skew allows. */
  function EarlyAndLate(p: Policy, r: SignedRequest): seq<Presentation> {
    [Presentation(r, 1000), Presentation(r, 1000 * (2 * p.maxSkewSeconds + 1) + 999)]
  }

  lemma SignedIsGenuine(p: Policy, apiKey: string, text: string, nonce: string)
    requires CanSign(p, apiKey, text, nonce)
    ensures var r := Signed(p, apiKey, text, nonce);
            && Genuine(p, r, 1000) && Genuine(p, r, 1000 * (2 * p.maxSkewSeconds + 1) + 999)
            && SpentKey(p, r, 1000) == SpentKey(p, r, 1000 * (2 * p.maxSkewSeconds + 1) + 999) && SameClaim(p, r, r)
  {
    DecimalValue(p.maxSkewSeconds + 1);
    assert Seconds(1000) == 1 && Seconds(1000 * (2 * p.maxSkewSeconds + 1) + 999) == 2 * p.maxSkewSeconds + 1;
  }

  lemma AdmittedTwice(p: Policy, max: nat, apiKey: string, text: string, nonce: string)
    requires CanSign(p, apiKey, text, nonce) && max > 0 && p.nonceTtlSeconds <= 2 * p.maxSkewSeconds
    ensures var ps := EarlyAndLate(p, Signed(p, apiKey, text, nonce));
            && Steady(ps) && Ample(p, max, ps)
            && DecisionAt(p, max, ps, 0).Admitted? && DecisionAt(p, max, ps, 1).Admitted?
  {
    var r := Signed(p, apiKey, text, nonce);
    var ps := EarlyAndLate(p, r);
    SignedIsGenuine(p, apiKey, text, nonce);
    var k, ttl, late := SpentKey(p, r, 1000), p.nonceTtlSeconds, ps[1].now;
    assert ps[..0] == [];
    EntriesNext(p, max, ps, 0);
    var es := EntriesAfter(p, max, ps[..1]);
    assert es == [] + [Entry(k, 1000 + 1000 * ttl)];
    assert es[..0] == [] && Live(es, late) == [];
    RefusedExactly(es, max, k, ttl, late);
  }

  /** Some run of the middleware admits one claim twice. */
  ghost predicate TwiceAdmitted(p: Policy, max: nat, ps: seq<Presentation>, i: nat, j: nat) {
    && i < j < |ps| && Steady(ps) && Ample(p, max, ps) && SameClaim(p, ps[i].request, ps[j].request)
    && DecisionAt(p, max, ps, i).Admitted? && DecisionAt(p, max, ps, j).Admitted?
  }

  /**
   Some run, with a clock that does not go back and room for what it admits, admits one claim twice if
   and only if the nonce lifetime is at most twice the skew.
   */
  lemma AdmittedTwiceExactly(p: Policy, max: nat, apiKey: string, text: string, nonce: string)
    requires CanSign(p, apiKey, text, nonce) && max > 0
    ensures (exists ps, i, j :: TwiceAdmitted(p, max, ps, i, j)) <==> p.nonceTtlSeconds <= 2 * p.maxSkewSeconds
  {
    if p.nonceTtlSeconds <= 2 * p.maxSkewSeconds {
      SignedIsGenuine(p, apiKey, text, nonce);
      AdmittedTwice(p, max, apiKey, text, nonce);
      assert TwiceAdmitted(p, max, EarlyAndLate(p, Signed(p, apiKey, text, nonce)), 0, 1);
    }
    forall ps, i: nat, j: nat | TwiceAdmitted(p, max, ps, i, j) ensures p.nonceTtlSeconds <= 2 * p.maxSkewSeconds {
      if p.nonceTtlSeconds > 2 * p.maxSkewSeconds { AdmittedAtMostOnce(p, max, ps, i, j); }
    }
  }

  /** The relayer's defaults, 600 and 300 seconds, are such settings; one second more would not be. */
  lemma RelayerDefaultsAdmitTwice(p: Policy, max: nat, apiKey: string, text: string, nonce: string)
    requires p.maxSkewSeconds == 300 && CanSign(p, apiKey, text, nonce) && max > 0
    ensures p.nonceTtlSeconds == 600 ==> exists ps, i, j :: TwiceAdmitted(p, max, ps, i, j)
    ensures p.nonceTtlSeconds == 601 ==> !exists ps, i, j :: TwiceAdmitted(p, max, ps, i, j)
  {
    AdmittedTwiceExactly(p, max, apiKey, text, nonce);
  }
}
