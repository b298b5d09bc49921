/**
 Every answer of the classifier by what the providers reported: eight conditions on the observations,
 one for each state, with the block, the depth and the reason that go with them.
 */
module FinalityMeaning {
  import opened Common
  import opened Text
  import opened Finality
  import opened FinalityTheorems

  // ---------------------------------------------------------------- what was reported

  predicate Counts(n: int) { 0 <= n <= 0x1F_FFFF_FFFF_FFFF }

  /** A tag is not a number, or one no later than the latest block. */
  predicate TagWithin(t: Tag, latest: int) { t == NoBlock || t == Unsupported || (t.Number? && Counts(t.n) && t.n <= latest) }

  predicate ReportWithin(number: int, hash: string, latest: int) { Counts(number) && number <= latest && IsHash(hash) }

  /** A named provider whose numbers fit together and whose hashes are hashes. */
  predicate Sound(o: Observation) {
    && o.providerId != "" && Counts(o.chainId) && Counts(o.latest)
    && TagWithin(o.safe, o.latest) && TagWithin(o.finalized, o.latest)
    && (o.safe.Number? && o.finalized.Number? ==> o.finalized.n <= o.safe.n)
    && (o.canonicalBlockHash.Some? ==> IsHash(o.canonicalBlockHash.value))
    && (o.receipt.Some? ==> && ReportWithin(o.receipt.value.blockNumber, o.receipt.value.blockHash, o.latest)
                            && o.receipt.value.status in {0, 1} && o.replacement.None?)
    && (o.replacement.Some? ==> && ReportWithin(o.replacement.value.blockNumber, o.replacement.value.blockHash, o.latest)
                                && IsHash(o.replacement.value.transactionHash))
  }

  ghost predicate Trusted(input: Input) {
    forall o | o in input.observations :: Sound(o) && o.chainId == input.expectedChainId
  }

  ghost predicate Silent(input: Input) {
    forall o | o in input.observations :: o.receipt.None? && o.replacement.None?
  }

  /** Fewer different providers than asked for, or none at all. */
  ghost predicate TooFew(input: Input) {
    var ids := set o | o in input.observations :: o.providerId;
    ids == {} || (input.minimumProviders.Some? && |ids| < input.minimumProviders.value)
  }

  /** Trusted providers, enough of them, for a transaction that was or may have been sent. */
  ghost predicate Enough(input: Input) { Trusted(input) && input.submission != Rejected && !TooFew(input) }

  predicate Canonical(o: Observation, hash: string) {
    o.canonicalBlockHash.Some? && Lower(o.canonicalBlockHash.value) == hash
  }

  /** Every provider has the receipt, with this outcome, in this block, which is its canonical one. */
  ghost predicate AllExecuted(input: Input, number: int, hash: string, status: int) {
    forall o | o in input.observations ::
      && o.receipt.Some? && o.receipt.value.blockNumber == number && Lower(o.receipt.value.blockHash) == hash
      && o.receipt.value.status == status && Canonical(o, hash)
  }

  /** Every provider has the replacement, in this block, which is its canonical one. */
  ghost predicate AllReplaced(input: Input, tx: string, number: int, hash: string) {
    forall o | o in input.observations ::
      && o.receipt.None? && o.replacement.Some? && Lower(o.replacement.value.transactionHash) == tx
      && o.replacement.value.blockNumber == number && Lower(o.replacement.value.blockHash) == hash && Canonical(o, hash)
  }

  predicate Reaches(t: Tag, number: int) { t.Number? && number <= t.n }

  ghost predicate AllFinal(input: Input, number: int) {
    forall o | o in input.observations :: Reaches(o.finalized, number)
  }

  ghost predicate AllSafe(input: Input, number: int) {
    forall o | o in input.observations :: Reaches(o.finalized, number) || Reaches(o.safe, number)
  }

  // ---------------------------------------------------------------- the same, as the classifier asks it

  lemma SoundIsValid(o: Observation)
    ensures Sound(o) <==> ValidObservation(o)
  {
  }

  lemma TrustedExactly(input: Input)
    ensures Trusted(input) <==> !AnyInvalid(input.observations) && !AnyOffChain(input.observations, input.expectedChainId)
    ensures Silent(input) <==> !AnySeen(input.observations)
    ensures TooFew(input) <==> |Providers(input.observations)| < Required(input) || |input.observations| < Required(input)
    ensures Enough(input) <==> Admissible(input)
  {
    forall o | o in input.observations ensures Sound(o) <==> ValidObservation(o) { SoundIsValid(o); }
    ProvidersFit(input.observations);
  }

  lemma ExecutedIsAnchored(input: Input, number: int, hash: string, status: int)
    ensures Enough(input) && AllExecuted(input, number, hash, status) <==> AnchoredAt(input, Executed(number, hash, status))
  {
    TrustedExactly(input);
  }

  lemma ReplacedIsAnchored(input: Input, tx: string, number: int, hash: string)
    ensures Enough(input) && AllReplaced(input, tx, number, hash) <==> AnchoredAt(input, Superseded(tx, number, hash))
  {
    TrustedExactly(input);
  }

  /** The depth of an anchored answer by the providers' tags. */
  lemma DepthByTags(input: Input, m: Meaning)
    requires AnchoredAt(input, m)
    ensures var d := Classify(input).depth;
            && (d == FinalizedDepth <==> AllFinal(input, m.blockNumber))
            && (d == SafeDepth <==> AllSafe(input, m.blockNumber) && !AllFinal(input, m.blockNumber))
            && (d == Included <==> !AllSafe(input, m.blockNumber))
  {
    AnchoredAnswer(input, m);
    WeakestByTags(input, m.blockNumber);
  }

  lemma WeakestByTags(input: Input, n: int)
    requires input.observations != []
    ensures var d := Weakest(input.observations, n);
            (AllFinal(input, n) <==> DepthRank(d) == 3) && (AllSafe(input, n) <==> DepthRank(d) >= 2) && d != NoDepth
  {
    WeakestIsMinimum(input.observations, n);
    forall o | o in input.observations
      ensures Reaches(o.finalized, n) <==> DepthRank(DepthAt(o, n)) == 3
      ensures Reaches(o.finalized, n) || Reaches(o.safe, n) <==> DepthRank(DepthAt(o, n)) >= 2
    {}
  }

  // ---------------------------------------------------------------- the eight answers

  ghost predicate SaysFailed(input: Input) { Trusted(input) && input.submission == Rejected && Silent(input) }

  ghost predicate SaysSubmitted(input: Input) {
    Trusted(input) && input.submission == Broadcast && (TooFew(input) || Silent(input))
  }

  ghost predicate SaysReverted(input: Input) { Enough(input) && exists n, h :: AllExecuted(input, n, h, 0) }

  ghost predicate SaysReplaced(input: Input) { Enough(input) && exists tx, n, h :: AllReplaced(input, tx, n, h) }

  ghost predicate SaysConfirmed(input: Input) {
    Enough(input) && exists n, h :: AllExecuted(input, n, h, 1) && !AllSafe(input, n)
  }

  ghost predicate SaysSafe(input: Input) {
    Enough(input) && exists n, h :: AllExecuted(input, n, h, 1) && AllSafe(input, n) && !AllFinal(input, n)
  }

  ghost predicate SaysFinalized(input: Input) {
    Enough(input) && exists n, h :: AllExecuted(input, n, h, 1) && AllFinal(input, n)
  }

  /** Somebody cannot be trusted, or saw what was rejected, or nobody can tell whether it was sent, or they disagree. */
  ghost predicate SaysUnknown(input: Input) {
    || !Trusted(input)
    || (input.submission == Rejected && !Silent(input))
    || (input.submission == Ambiguous && (TooFew(input) || Silent(input)))
    || (&& Enough(input) && !Silent(input) && (forall n, h, status :: !AllExecuted(input, n, h, status))
        && (forall tx, n, h :: !AllReplaced(input, tx, n, h)))
  }

  lemma AnchorStates(input: Input, m: Meaning)
    requires AnchoredAt(input, m)
    ensures !Silent(input) && !TooFew(input) && Trusted(input) && input.submission != Rejected
    ensures m.Executed? ==> AllExecuted(input, m.blockNumber, m.blockHash, m.status) && m.status in {0, 1}
    ensures m.Superseded? ==> AllReplaced(input, m.transactionHash, m.blockNumber, m.blockHash)
    ensures forall n, h, s | AllExecuted(input, n, h, s) :: m == Executed(n, h, s)
    ensures forall tx, n, h | AllReplaced(input, tx, n, h) :: m == Superseded(tx, n, h)
  {
    TrustedExactly(input);
    assert input.observations[0] in input.observations;
    if m.Executed? { ExecutedIsAnchored(input, m.blockNumber, m.blockHash, m.status); }
    if m.Superseded? { ReplacedIsAnchored(input, m.transactionHash, m.blockNumber, m.blockHash); }
  }

  lemma AnchoredSays(input: Input, m: Meaning)
    requires AnchoredAt(input, m)
    ensures !SaysFailed(input) && !SaysSubmitted(input) && !SaysUnknown(input)
    ensures var s := Classify(input).state;
            && (s == Reverted <==> SaysReverted(input)) && (s == Replaced <==> SaysReplaced(input))
            && (s == Confirmed <==> SaysConfirmed(input)) && (s == Safe <==> SaysSafe(input))
            && (s == Finalized <==> SaysFinalized(input))
            && s in {Reverted, Replaced, Confirmed, Safe, Finalized}
  {
    AnchorStates(input, m);
    AnchoredAnswer(input, m);
    DepthByTags(input, m);
  }

  lemma LocatePlain(input: Input, first: Observation, number: int, hash: string)
    requires input.observations != [] && (first.replacement.None? ==> first.receipt.Some?)
    requires Locate(input, first, number, hash).depth == NoDepth
    ensures var a := Locate(input, first, number, hash);
            a.state == Unknown && !a.final && a.blockNumber.None? && a.blockHash.None?
  {
    WeakestIsMinimum(input.observations, number);
  }

  /** An answer without a depth, as the checks come to it. */
  lemma PlainState(input: Input)
    requires Classify(input).depth == NoDepth
    ensures var a, obs := Classify(input), input.observations;
            && a.blockNumber.None? && a.blockHash.None? && (a.final <==> a.state == Failed)
            && a.state == if AnyInvalid(obs) || AnyOffChain(obs, input.expectedChainId) then Unknown
                          else if input.submission == Rejected then if AnySeen(obs) then Unknown else Failed
                          else if !Admissible(input) || !AnySeen(obs) then
                            if input.submission == Broadcast then Submitted else Unknown
                          else Unknown
  {
    var obs := input.observations;
    if Admissible(input) {
      var first := obs[0];
      assert first in obs;
      SingletonKeys(obs);
      if |Keys(obs)| == 1 && first.receipt.Some? {
        LocatePlain(input, first, first.receipt.value.blockNumber, Lower(first.receipt.value.blockHash));
      } else if |Keys(obs)| == 1 && first.replacement.Some? {
        LocatePlain(input, first, first.replacement.value.blockNumber, Lower(first.replacement.value.blockHash));
      }
    }
  }

  lemma NothingAgreed(input: Input)
    requires forall m :: !AnchoredAt(input, m)
    ensures forall n, h, status :: !(Enough(input) && AllExecuted(input, n, h, status))
    ensures forall tx, n, h :: !(Enough(input) && AllReplaced(input, tx, n, h))
  {
    forall n, h, status ensures !(Enough(input) && AllExecuted(input, n, h, status)) {
      ExecutedIsAnchored(input, n, h, status);
    }
    forall tx, n, h ensures !(Enough(input) && AllReplaced(input, tx, n, h)) { ReplacedIsAnchored(input, tx, n, h); }
  }

  lemma UnanchoredSays(input: Input)
    requires forall m :: !AnchoredAt(input, m)
    ensures !SaysReverted(input) && !SaysReplaced(input) && !SaysConfirmed(input) && !SaysSafe(input) && !SaysFinalized(input)
    ensures var s := Classify(input).state;
            && (s == Failed <==> SaysFailed(input)) && (s == Submitted <==> SaysSubmitted(input))
            && (s == Unknown <==> SaysUnknown(input)) && s in {Failed, Submitted, Unknown}
  {
    NothingAgreed(input);
    TrustedExactly(input);
    DepthIffAnchored(input);
    PlainState(input);
  }

  /** Each answer, exactly: the eight conditions exclude each other and leave nothing out. */
  lemma AnswersExactly(input: Input)
    ensures var s := Classify(input).state;
            && (s == Failed <==> SaysFailed(input)) && (s == Submitted <==> SaysSubmitted(input))
            && (s == Unknown <==> SaysUnknown(input)) && (s == Reverted <==> SaysReverted(input))
            && (s == Replaced <==> SaysReplaced(input)) && (s == Confirmed <==> SaysConfirmed(input))
            && (s == Safe <==> SaysSafe(input)) && (s == Finalized <==> SaysFinalized(input))
  {
    if m :| AnchoredAt(input, m) {
      AnchoredSays(input, m);
    } else {
      UnanchoredSays(input);
    }
  }

  ghost predicate Agreed(input: Input) {
    && Enough(input)
    && ((exists n, h, status :: AllExecuted(input, n, h, status)) || exists tx, n, h :: AllReplaced(input, tx, n, h))
  }

  /** A block and a depth go with an answer exactly where the providers agree on one; when it is final. */
  lemma AnswerReports(input: Input)
    ensures var a := Classify(input);
            && (a.final <==> SaysFailed(input) || a.depth == FinalizedDepth)
            && (a.depth != NoDepth <==> Agreed(input)) && (a.blockNumber.Some? <==> Agreed(input))
            && (a.blockHash.Some? <==> Agreed(input))
            && a.providerIds == ProviderIds(input.observations)
  {
    if m :| AnchoredAt(input, m) {
      AnchoredReports(input, m);
    } else {
      NothingAgreed(input);
      DepthIffAnchored(input);
      PlainState(input);
      UnanchoredSays(input);
    }
  }

  lemma AnchoredReports(input: Input, m: Meaning)
    requires AnchoredAt(input, m)
    ensures var a := Classify(input);
            && Agreed(input) && !SaysFailed(input) && a.depth != NoDepth && a.blockNumber.Some? && a.blockHash.Some?
            && (a.final <==> a.depth == FinalizedDepth) && a.providerIds == ProviderIds(input.observations)
  {
    AnchorStates(input, m);
    AnchoredAnswer(input, m);
    TrustedExactly(input);
  }

  // ---------------------------------------------------------------- reasons

  /** Every provider has the receipt, with this outcome and in this block, canonical or not. */
  ghost predicate AllSaw(input: Input, number: int, hash: string, status: int) {
    forall o | o in input.observations ::
      && o.receipt.Some? && o.receipt.value.blockNumber == number && Lower(o.receipt.value.blockHash) == hash
      && o.receipt.value.status == status
  }

  ghost predicate AllSawReplaced(input: Input, tx: string, number: int, hash: string) {
    forall o | o in input.observations ::
      && o.receipt.None? && o.replacement.Some? && Lower(o.replacement.value.transactionHash) == tx
      && o.replacement.value.blockNumber == number && Lower(o.replacement.value.blockHash) == hash
  }

  /** The reason of any other: disagreement, silence, a block that is not canonical, or the depth that was reached. */
  lemma LateReasons(input: Input)
    requires Enough(input)
    ensures var a := Classify(input);
            && (a.reason == AwaitingReceipt <==> Silent(input) && input.submission == Broadcast)
            && (a.reason == AmbiguousBroadcast <==> Silent(input) && input.submission == Ambiguous)
            && (a.reason == ReceiptNotCanonical <==> && (exists n, h, s :: AllSaw(input, n, h, s)) && !Agreed(input))
            && (a.reason == ReplacementNotCanonical <==> && (exists tx, n, h :: AllSawReplaced(input, tx, n, h))
                                                         && !Agreed(input))
            && (a.reason == FinalizedTagReached <==> a.depth == FinalizedDepth)
            && (a.reason == SafeTagReached <==> a.depth == SafeDepth)
            && (a.reason == FinalityTagUnsupported <==>
                  a.depth == Included && exists o | o in input.observations :: o.finalized == Unsupported)
            && (a.reason == IncludedReason <==>
                  a.depth == Included && forall o | o in input.observations :: o.finalized != Unsupported)
  {
    if m :| AnchoredAt(input, m) {
      AnchoredReasons(input, m);
    } else {
      NothingAgreed(input);
      DepthIffAnchored(input);
      PlainReason(input);
    }
  }

  lemma AnchoredReasons(input: Input, m: Meaning)
    requires AnchoredAt(input, m)
    ensures var a := Classify(input);
            && a.depth != NoDepth && a.reason == DepthReason(input.observations, a.depth)
            && !Silent(input) && Agreed(input)
  {
    AnchoredReports(input, m);
    AnchoredAnswer(input, m);
    AnchorStates(input, m);
  }

  lemma AgreementExactly(input: Input)
    requires Enough(input)
    ensures input.observations != [] && input.observations[0] in input.observations
    ensures (exists n, h, s :: AllSaw(input, n, h, s)) <==>
              |Keys(input.observations)| == 1 && input.observations[0].receipt.Some?
    ensures (exists tx, n, h :: AllSawReplaced(input, tx, n, h)) <==>
              |Keys(input.observations)| == 1 && input.observations[0].receipt.None? && input.observations[0].replacement.Some?
    ensures Silent(input) <==> && |Keys(input.observations)| == 1 && input.observations[0].receipt.None?
                               && input.observations[0].replacement.None?
  {
    TrustedExactly(input);
    var obs := input.observations;
    assert obs[0] in obs;
    SingletonKeys(obs);
    if |Keys(obs)| == 1 && obs[0].receipt.Some? {
      var r := obs[0].receipt.value;
      assert AllSaw(input, r.blockNumber, Lower(r.blockHash), r.status);
    }
    if |Keys(obs)| == 1 && obs[0].receipt.None? && obs[0].replacement.Some? {
      var r := obs[0].replacement.value;
      assert AllSawReplaced(input, Lower(r.transactionHash), r.blockNumber, Lower(r.blockHash));
    }
    if n, h, s :| AllSaw(input, n, h, s) {
      forall o | o in obs ensures MeaningOf(o) == Executed(n, h, s) {}
    }
    if tx, n, h :| AllSawReplaced(input, tx, n, h) {
      forall o | o in obs ensures MeaningOf(o) == Superseded(tx, n, h) {}
    }
  }

  lemma PlainReason(input: Input)
    requires Enough(input) && Classify(input).depth == NoDepth
    ensures var r, obs := Classify(input).reason, input.observations;
            && obs != []
            && r == if |Keys(obs)| != 1 then ProviderDisagreement
                    else if obs[0].receipt.Some? then ReceiptNotCanonical
                    else if obs[0].replacement.Some? then ReplacementNotCanonical
                    else if input.submission == Broadcast then AwaitingReceipt else AmbiguousBroadcast
    ensures (exists n, h, s :: AllSaw(input, n, h, s)) <==>
              |Keys(input.observations)| == 1 && input.observations[0].receipt.Some?
    ensures (exists tx, n, h :: AllSawReplaced(input, tx, n, h)) <==>
              |Keys(input.observations)| == 1 && input.observations[0].receipt.None? && input.observations[0].replacement.Some?
    ensures Silent(input) <==> && |Keys(input.observations)| == 1 && input.observations[0].receipt.None?
                               && input.observations[0].replacement.None?
  {
    TrustedExactly(input);
    AgreementExactly(input);
    var obs := input.observations;
    if |Keys(obs)| == 1 && obs[0].receipt.Some? {
      LocateReason(input, obs[0], obs[0].receipt.value.blockNumber, Lower(obs[0].receipt.value.blockHash));
    } else if |Keys(obs)| == 1 && obs[0].replacement.Some? {
      LocateReason(input, obs[0], obs[0].replacement.value.blockNumber, Lower(obs[0].replacement.value.blockHash));
    }
  }

  lemma LocateReason(input: Input, first: Observation, number: int, hash: string)
    requires input.observations != [] && (first.replacement.None? ==> first.receipt.Some?)
    requires Locate(input, first, number, hash).depth == NoDepth
    ensures Locate(input, first, number, hash).reason
         == if first.receipt.Some? then ReceiptNotCanonical else ReplacementNotCanonical
  {
    WeakestIsMinimum(input.observations, number);
  }

  /** The reason of an answer that was given before the providers were compared. */
  lemma EarlyReasons(input: Input)
    ensures var r := Classify(input).reason;
            && (r == InvalidObservation <==> exists o | o in input.observations :: !Sound(o))
            && (r == WrongChain <==> && (forall o | o in input.observations :: Sound(o))
                                     && exists o | o in input.observations :: o.chainId != input.expectedChainId)
            && (r == ContradictsRejection <==> Trusted(input) && input.submission == Rejected && !Silent(input))
            && (r == RejectedBeforeBroadcast <==> SaysFailed(input))
            && (r == InsufficientProviders <==> Trusted(input) && input.submission != Rejected && TooFew(input))
  {
    forall o | o in input.observations ensures Sound(o) <==> ValidObservation(o) { SoundIsValid(o); }
    if Enough(input) {
      LateEnough(input);
    } else {
      TrustedExactly(input);
    }
  }

  lemma LateEnough(input: Input)
    requires Enough(input)
    ensures Classify(input).reason !in
              {InvalidObservation, WrongChain, ContradictsRejection, RejectedBeforeBroadcast, InsufficientProviders}
  {
    if m :| AnchoredAt(input, m) {
      AnchoredAnswer(input, m);
    } else {
      DepthIffAnchored(input);
      PlainReason(input);
    }
  }

  // ---------------------------------------------------------------- the block

  /** The reported block is the agreed one, and its depth is what every provider's tags allow. */
  lemma BlockReported(input: Input, number: int, hash: string)
    requires Enough(input)
    requires (exists status :: AllExecuted(input, number, hash, status)) || exists tx :: AllReplaced(input, tx, number, hash)
    ensures var a := Classify(input);
            && a.blockNumber == Some(number) && a.blockHash == Some(hash)
            && (a.depth == FinalizedDepth <==> AllFinal(input, number))
            && (a.depth == SafeDepth <==> AllSafe(input, number) && !AllFinal(input, number))
            && (a.depth == Included <==> !AllSafe(input, number))
  {
    if status :| AllExecuted(input, number, hash, status) {
      ExecutedIsAnchored(input, number, hash, status);
      AnchoredAnswer(input, Executed(number, hash, status));
      DepthByTags(input, Executed(number, hash, status));
    } else {
      var tx :| AllReplaced(input, tx, number, hash);
      ReplacedIsAnchored(input, tx, number, hash);
      AnchoredAnswer(input, Superseded(tx, number, hash));
      DepthByTags(input, Superseded(tx, number, hash));
    }
  }
}
