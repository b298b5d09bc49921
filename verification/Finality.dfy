/**
 The transaction finality model: one classifier over independent provider observations, and the
 relation that decides which stored position may follow which.
 */
module Finality {
  import opened Common
  import opened Text

  datatype State = Submitted | Confirmed | Safe | Finalized | Reverted | Replaced | Unknown | Failed
  datatype Depth = NoDepth | Included | SafeDepth | FinalizedDepth
  datatype Reason =
    | RejectedBeforeBroadcast | ContradictsRejection | AwaitingReceipt | AmbiguousBroadcast
    | InsufficientProviders | InvalidObservation | WrongChain | ProviderDisagreement
    | ReceiptNotCanonical | ReplacementNotCanonical
    | IncludedReason | FinalityTagUnsupported | SafeTagReached | FinalizedTagReached
  datatype Submission = Rejected | Broadcast | Ambiguous

  /** A provider's answer for a block tag. */
  datatype Tag = Number(n: int) | NoBlock | Unsupported

  datatype Receipt = Receipt(blockNumber: int, blockHash: string, status: int)
  datatype Replacement = Replacement(transactionHash: string, blockNumber: int, blockHash: string)

  datatype Observation = Observation(
    providerId: string,
    chainId: int,
    latest: int,
    safe: Tag,
    finalized: Tag,
    receipt: Option<Receipt>,
    canonicalBlockHash: Option<string>,
    replacement: Option<Replacement>)

  datatype Input = Input(
    expectedChainId: int, submission: Submission, observations: seq<Observation>, minimumProviders: Option<int>)

  datatype Assessment = Assessment(
    state: State, depth: Depth, final: bool, reason: Reason,
    blockNumber: Option<int>, blockHash: Option<string>, providerIds: seq<string>)

  // ---------------------------------------------------------------- validity

  const MAX_SAFE_INTEGER := 9007199254740991

  predicate IsBlockNumber(n: int) { 0 <= n <= MAX_SAFE_INTEGER }

  predicate IsTag(t: Tag) { t.Number? ==> IsBlockNumber(t.n) }

  predicate ValidReceipt(r: Receipt, latest: int) {
    IsBlockNumber(r.blockNumber) && r.blockNumber <= latest && IsHash(r.blockHash) && (r.status == 0 || r.status == 1)
  }

  predicate ValidReplacement(r: Replacement, latest: int) {
    IsHash(r.transactionHash) && IsHash(r.blockHash) && IsBlockNumber(r.blockNumber) && r.blockNumber <= latest
  }

  predicate ValidObservation(o: Observation) {
    && o.providerId != "" && IsBlockNumber(o.chainId) && IsBlockNumber(o.latest) && IsTag(o.safe) && IsTag(o.finalized)
    && (o.safe.Number? ==> o.safe.n <= o.latest)
    && (o.finalized.Number? ==> o.finalized.n <= o.latest)
    && (o.safe.Number? && o.finalized.Number? ==> o.finalized.n <= o.safe.n)
    && (o.canonicalBlockHash.Some? ==> IsHash(o.canonicalBlockHash.value))
    && (o.receipt.Some? ==> ValidReceipt(o.receipt.value, o.latest))
    && (o.replacement.Some? ==> o.receipt.None? && ValidReplacement(o.replacement.value, o.latest))
  }

  // ---------------------------------------------------------------- depth and agreement

  function DepthRank(d: Depth): nat {
    match d case NoDepth => 0 case Included => 1 case SafeDepth => 2 case FinalizedDepth => 3
  }

  function DepthAt(o: Observation, blockNumber: int): Depth {
    if o.finalized.Number? && o.finalized.n >= blockNumber then FinalizedDepth
    else if o.safe.Number? && o.safe.n >= blockNumber then SafeDepth
    else Included
  }

  /** The printed key every provider must agree on. */
  function AgreementKey(o: Observation): string
    requires ValidObservation(o)
  {
    if o.receipt.Some? then
      var r := o.receipt.value;
      "receipt:" + Decimal(r.blockNumber) + ":" + Lower(r.blockHash) + ":" + Decimal(r.status)
    else if o.replacement.Some? then
      var r := o.replacement.value;
      "replacement:" + Lower(r.transactionHash) + ":" + Decimal(r.blockNumber) + ":" + Lower(r.blockHash)
    else "none"
  }

  /** What a key stands for. */
  datatype Meaning =
    | Nothing
    | Executed(blockNumber: int, blockHash: string, status: int)
    | Superseded(transactionHash: string, blockNumber: int, blockHash: string)

  function MeaningOf(o: Observation): Meaning {
    if o.receipt.Some? then
      Executed(o.receipt.value.blockNumber, Lower(o.receipt.value.blockHash), o.receipt.value.status)
    else if o.replacement.Some? then
      Superseded(Lower(o.replacement.value.transactionHash), o.replacement.value.blockNumber,
                 Lower(o.replacement.value.blockHash))
    else Nothing
  }

  function Keys(obs: seq<Observation>): set<string>
    requires forall o | o in obs :: ValidObservation(o)
  {
    set o | o in obs :: AgreementKey(o)
  }

  function ProviderIds(obs: seq<Observation>): seq<string> {
    seq(|obs|, i requires 0 <= i < |obs| => obs[i].providerId)
  }

  function Providers(obs: seq<Observation>): set<string> { set o | o in obs :: o.providerId }

  /** The left-to-right reduction that keeps the weakest depth. */
  function Weakest(obs: seq<Observation>, blockNumber: int): Depth
    requires obs != []
  {
    var next := DepthAt(obs[|obs| - 1], blockNumber);
    if |obs| == 1 then next
    else
      var weakest := Weakest(obs[..|obs| - 1], blockNumber);
      if DepthRank(next) < DepthRank(weakest) then next else weakest
  }

  // ---------------------------------------------------------------- the classifier

  function Plain(input: Input, state: State, reason: Reason, final: bool): Assessment {
    Assessment(state, NoDepth, final, reason, None, None, ProviderIds(input.observations))
  }

  function Required(input: Input): int { Max(1, input.minimumProviders.GetOr(1)) }

  predicate AnyInvalid(obs: seq<Observation>) { exists o | o in obs :: !ValidObservation(o) }

  predicate AnyOffChain(obs: seq<Observation>, chainId: int) { exists o | o in obs :: o.chainId != chainId }

  predicate AnySeen(obs: seq<Observation>) { exists o | o in obs :: o.receipt.Some? || o.replacement.Some? }

  /** A block that cannot be read never counts as canonical. */
  predicate AnyNonCanonical(obs: seq<Observation>, hash: string) {
    exists o | o in obs :: o.canonicalBlockHash.None? || Lower(o.canonicalBlockHash.value) != hash
  }

  predicate AnyUnsupported(obs: seq<Observation>) { exists o | o in obs :: o.finalized == Unsupported }

  function DepthReason(obs: seq<Observation>, depth: Depth): Reason {
    if depth == FinalizedDepth then FinalizedTagReached
    else if depth == SafeDepth then SafeTagReached
    else if AnyUnsupported(obs) then FinalityTagUnsupported
    else IncludedReason
  }

  function SuccessState(depth: Depth): State {
    if depth == FinalizedDepth then Finalized else if depth == SafeDepth then Safe else Confirmed
  }

  /** The part of the classification that runs once all observations agree on one anchor. */
  function Locate(input: Input, first: Observation, number: int, hash: string): Assessment
    requires input.observations != []
    requires first.replacement.None? ==> first.receipt.Some?
  {
    var obs := input.observations;
    if AnyNonCanonical(obs, hash) then
      Plain(input, Unknown, if first.receipt.Some? then ReceiptNotCanonical else ReplacementNotCanonical, false)
    else
      var depth := Weakest(obs, number);
      var state := if first.replacement.Some? then Replaced
                   else if first.receipt.value.status == 0 then Reverted
                   else SuccessState(depth);
      Assessment(state, depth, depth == FinalizedDepth, DepthReason(obs, depth), Some(number), Some(hash), ProviderIds(obs))
  }

  function Classify(input: Input): Assessment {
    var obs := input.observations;
    if AnyInvalid(obs) then Plain(input, Unknown, InvalidObservation, false)
    else if AnyOffChain(obs, input.expectedChainId) then Plain(input, Unknown, WrongChain, false)
    else if input.submission == Rejected then
      if AnySeen(obs) then Plain(input, Unknown, ContradictsRejection, false)
      else Plain(input, Failed, RejectedBeforeBroadcast, true)
    else if |Providers(obs)| < Required(input) || |obs| < Required(input) then
      Plain(input, if input.submission == Broadcast then Submitted else Unknown, InsufficientProviders, false)
    else if |Keys(obs)| != 1 then Plain(input, Unknown, ProviderDisagreement, false)
    else
      var first := obs[0];
      if first.receipt.Some? then
        Locate(input, first, first.receipt.value.blockNumber, Lower(first.receipt.value.blockHash))
      else if first.replacement.Some? then
        Locate(input, first, first.replacement.value.blockNumber, Lower(first.replacement.value.blockHash))
      else if input.submission == Broadcast then Plain(input, Submitted, AwaitingReceipt, false)
      else Plain(input, Unknown, AmbiguousBroadcast, false)
  }

  // ---------------------------------------------------------------- keys mean what they print

  lemma ReceiptKeyMeans(a: Receipt, b: Receipt, latestA: int, latestB: int)
    requires ValidReceipt(a, latestA) && ValidReceipt(b, latestB)
    requires "receipt:" + Decimal(a.blockNumber) + ":" + Lower(a.blockHash) + ":" + Decimal(a.status)
          == "receipt:" + Decimal(b.blockNumber) + ":" + Lower(b.blockHash) + ":" + Decimal(b.status)
    ensures a.blockNumber == b.blockNumber && Lower(a.blockHash) == Lower(b.blockHash) && a.status == b.status
  {
    var x := Lower(a.blockHash) + ":" + Decimal(a.status);
    var y := Lower(b.blockHash) + ":" + Decimal(b.status);
    var s := "receipt:" + Decimal(a.blockNumber) + ":" + Lower(a.blockHash) + ":" + Decimal(a.status);
    assert s[8..] == Decimal(a.blockNumber) + [':'] + x;
    assert s[8..] == Decimal(b.blockNumber) + [':'] + y;
    DecimalDigits(a.blockNumber);
    DecimalDigits(b.blockNumber);
    DigitsThenSeparator(Decimal(a.blockNumber), Decimal(b.blockNumber), ':', x, y);
    DecimalInjective(a.blockNumber, b.blockNumber);
    assert x[..66] == Lower(a.blockHash) && y[..66] == Lower(b.blockHash);
    assert x[67..] == Decimal(a.status) && y[67..] == Decimal(b.status);
    DecimalInjective(a.status, b.status);
  }

  lemma ReplacementKeyMeans(a: Replacement, b: Replacement, latestA: int, latestB: int)
    requires ValidReplacement(a, latestA) && ValidReplacement(b, latestB)
    requires "replacement:" + Lower(a.transactionHash) + ":" + Decimal(a.blockNumber) + ":" + Lower(a.blockHash)
          == "replacement:" + Lower(b.transactionHash) + ":" + Decimal(b.blockNumber) + ":" + Lower(b.blockHash)
    ensures Lower(a.transactionHash) == Lower(b.transactionHash)
    ensures a.blockNumber == b.blockNumber && Lower(a.blockHash) == Lower(b.blockHash)
  {
    var s := "replacement:" + Lower(a.transactionHash) + ":" + Decimal(a.blockNumber) + ":" + Lower(a.blockHash);
    assert s[12..78] == Lower(a.transactionHash) && s[12..78] == Lower(b.transactionHash);
    assert s[79..] == Decimal(a.blockNumber) + [':'] + Lower(a.blockHash);
    assert s[79..] == Decimal(b.blockNumber) + [':'] + Lower(b.blockHash);
    DecimalDigits(a.blockNumber);
    DecimalDigits(b.blockNumber);
    DigitsThenSeparator(Decimal(a.blockNumber), Decimal(b.blockNumber), ':', Lower(a.blockHash), Lower(b.blockHash));
    DecimalInjective(a.blockNumber, b.blockNumber);
  }

  /** Providers print the same key exactly when they report the same receipt, replacement or absence. */
  lemma KeysAgreeIffMeaningsAgree(a: Observation, b: Observation)
    requires ValidObservation(a) && ValidObservation(b)
    ensures AgreementKey(a) == AgreementKey(b) <==> MeaningOf(a) == MeaningOf(b)
  {
    var s, t := AgreementKey(a), AgreementKey(b);
    if s == t {
      if a.receipt.Some? {
        assert t[2] == 'c';
        ReceiptKeyMeans(a.receipt.value, b.receipt.value, a.latest, b.latest);
      } else if a.replacement.Some? {
        assert t[2] == 'p';
        ReplacementKeyMeans(a.replacement.value, b.replacement.value, a.latest, b.latest);
      } else {
        assert t[0] == 'n';
      }
    }
  }
}
