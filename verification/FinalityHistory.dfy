/** Finality across time: stored positions, honest progress, and agreement between observers. */
module FinalityHistory {
  import opened Common
  import opened Text
  import opened Finality
  import opened FinalityTheorems

  datatype Position = Position(state: State, final: bool)

  function SuccessRank(s: State): Option<nat> {
    match s case Confirmed => Some(1) case Safe => Some(2) case Finalized => Some(3) case _ => None
  }

  /** `canTransitionTransactionFinality`. */
  predicate CanTransition(from: Option<Position>, to: Position) {
    if to.state == Finalized && !to.final then false
    else if to.state == Failed && !to.final then false
    else if from.None? then true
    else if from.value.state == to.state && from.value.final == to.final then true
    else if from.value.final then false
    else if to.state == Failed then false
    else if SuccessRank(from.value.state).Some? && SuccessRank(to.state).Some? then
      SuccessRank(to.state).value > SuccessRank(from.value.state).value
    else true
  }

  /** A success that lies deeper. */
  predicate Deeper(a: State, b: State) {
    (a == Confirmed && b == Safe) || (a == Confirmed && b == Finalized) || (a == Safe && b == Finalized)
  }

  predicate Succeeds(s: State) { s == Confirmed || s == Safe || s == Finalized }

  /**
   Which moves are accepted: `finalized` and `failed` only as final; anything first; a final position stays;
   any other stays, or moves to anything but `failed`, from one success to another only deeper.
   */
  lemma MovesExactly(from: Option<Position>, to: Position)
    ensures CanTransition(from, to)
       <==> && (to.state == Finalized || to.state == Failed ==> to.final)
            && (from.Some? ==>
                  || to == from.value
                  || (&& !from.value.final && to.state != Failed
                      && (Succeeds(from.value.state) && Succeeds(to.state) ==> Deeper(from.value.state, to.state))))
  {
  }

  function PositionOf(a: Assessment): Position { Position(a.state, a.final) }

  /** `failed` exactly when the submission was rejected and no valid provider on the chain contradicts it. */
  lemma FailedExactly(input: Input)
    ensures Classify(input).state == Failed
            <==> (&& !AnyInvalid(input.observations) && !AnyOffChain(input.observations, input.expectedChainId)
                  && input.submission == Rejected && !AnySeen(input.observations))
  {
    if Classify(input).depth != NoDepth {
      var m := AnchorOf(input);
      AnchoredAnswer(input, m);
    }
  }

  lemma PlainAnswers(input: Input)
    requires Classify(input).depth == NoDepth
    ensures Classify(input).state in {Submitted, Unknown, Failed}
    ensures Classify(input).final <==> Classify(input).state == Failed
  {
    if Admissible(input) {
      assert input.observations[0] in input.observations;
      if Classify(input).state !in {Submitted, Unknown, Failed} {
        WeakestIsMinimum(input.observations, Classify(input).blockNumber.value);
        assert false;
      }
    }
  }

  /** Every classifier answer may be stored first, and is final exactly at finalized depth or as `failed`. */
  lemma AnswersAreStorable(input: Input)
    ensures CanTransition(None, PositionOf(Classify(input)))
    ensures Classify(input).final <==> Classify(input).state == Failed || Classify(input).depth == FinalizedDepth
    ensures Classify(input).state in {Confirmed, Safe, Finalized, Reverted, Replaced} <==> Classify(input).depth != NoDepth
  {
    if Classify(input).depth != NoDepth {
      var m := AnchorOf(input);
      AnchoredAnswer(input, m);
    } else {
      PlainAnswers(input);
    }
  }

  // ---------------------------------------------------------------- accepted runs of positions

  ghost predicate AcceptedRun(ps: seq<Position>) {
    && (ps != [] ==> CanTransition(None, ps[0]))
    && forall i | 0 < i < |ps| :: CanTransition(Some(ps[i - 1]), ps[i])
  }

  /** Nothing moves after the first final position. */
  lemma {:induction false} FinalFreezes(ps: seq<Position>, i: nat, j: nat)
    requires AcceptedRun(ps) && i <= j < |ps| && ps[i].final
    ensures ps[j] == ps[i]
    decreases j
  {
    if i < j { FinalFreezes(ps, i, j - 1); }
  }

  /** `failed` is only ever an initial position, and then the only one. */
  lemma {:induction false} FailedOnlyFirst(ps: seq<Position>, j: nat)
    requires AcceptedRun(ps) && j < |ps| && ps[j].state == Failed
    ensures forall k | 0 <= k < |ps| :: ps[k] == ps[0]
    ensures ps[0].state == Failed
    decreases j
  {
    if j > 0 {
      FailedOnlyFirst(ps, j - 1);
    } else {
      forall k | 0 <= k < |ps| ensures ps[k] == ps[0] { FinalFreezes(ps, 0, k); }
    }
  }

  /** The positions through which a successful depth may fall; `unknown` is one of four. */
  predicate LetsFall(p: Position) { !p.final && p.state in {Submitted, Unknown, Reverted, Replaced} }

  /** Between two successes of falling depth lies one of these. */
  lemma {:induction false} DepthFallsOnlyThroughDoubt(ps: seq<Position>, i: nat, j: nat)
    requires AcceptedRun(ps) && i < j < |ps|
    requires SuccessRank(ps[i].state).Some? && SuccessRank(ps[j].state).Some?
    requires SuccessRank(ps[j].state).value < SuccessRank(ps[i].state).value
    ensures !ps[i].final && exists k | i < k < j :: LetsFall(ps[k])
    decreases j
  {
    assert CanTransition(Some(ps[j - 1]), ps[j]);
    if SuccessRank(ps[j - 1].state).Some? {
      assert i < j - 1;
      DepthFallsOnlyThroughDoubt(ps, i, j - 1);
    } else {
      assert CanTransition(if j == 1 then None else Some(ps[j - 2]), ps[j - 1]);
      if ps[i].final { FinalFreezes(ps, i, j); }
      assert LetsFall(ps[j - 1]);
    }
  }

  /** And each of them does: a depth falls through a position if and only if it was not final and the position is one. */
  lemma FallsThroughExactly(high: Position, via: Position, low: Position)
    requires CanTransition(None, high) && CanTransition(None, low)
    requires SuccessRank(high.state).Some? && SuccessRank(low.state).Some?
    requires SuccessRank(low.state).value < SuccessRank(high.state).value
    ensures AcceptedRun([high, via, low]) <==> !high.final && LetsFall(via)
  {
    var ps := [high, via, low];
    if AcceptedRun(ps) {
      DepthFallsOnlyThroughDoubt(ps, 0, 2);
    }
  }

  /**
   The classifier takes such a way without `unknown`: a broadcast transaction that no provider answers
   for is `submitted`, whatever was seen of it before and is seen of it later.
   */
  lemma DepthFallsWithoutUnknown(before: Input, after: Input)
    requires before.submission == Broadcast
    requires Classify(before).state == Safe && !Classify(before).final && Classify(after).state == Confirmed
    ensures var silent := before.(observations := []);
            && Classify(silent).state == Submitted
            && AcceptedRun([PositionOf(Classify(before)), PositionOf(Classify(silent)), PositionOf(Classify(after))])
  {
    AnswersAreStorable(before);
    AnswersAreStorable(after);
    var silent := before.(observations := []);
    assert Classify(silent).state == Submitted && !Classify(silent).final;
    FallsThroughExactly(PositionOf(Classify(before)), PositionOf(Classify(silent)), PositionOf(Classify(after)));
  }

  // ---------------------------------------------------------------- honest progress

  predicate TagAdvances(a: Tag, b: Tag) { a.Number? ==> b.Number? && a.n <= b.n }

  /** The same provider later: same receipt or replacement, still canonical, tags that never retreat. */
  predicate Advances(a: Observation, b: Observation) {
    && a.providerId == b.providerId && a.chainId == b.chainId
    && a.receipt == b.receipt && a.replacement == b.replacement && a.canonicalBlockHash == b.canonicalBlockHash
    && TagAdvances(a.safe, b.safe) && TagAdvances(a.finalized, b.finalized)
  }

  ghost predicate HonestNext(a: Input, b: Input) {
    && SameQuestion(a, b)
    && |a.observations| == |b.observations|
    && (forall i | 0 <= i < |a.observations| :: Advances(a.observations[i], b.observations[i]))
    && !AnyInvalid(a.observations) && !AnyInvalid(b.observations)
  }

  lemma HonestTransitive(a: Input, b: Input, d: Input)
    requires HonestNext(a, b) && HonestNext(b, d)
    ensures HonestNext(a, d)
  {
    forall i | 0 <= i < |a.observations| ensures Advances(a.observations[i], d.observations[i]) {
      assert Advances(a.observations[i], b.observations[i]) && Advances(b.observations[i], d.observations[i]);
    }
  }

  lemma DepthAdvances(a: Observation, b: Observation, n: int)
    requires Advances(a, b)
    ensures DepthRank(DepthAt(a, n)) <= DepthRank(DepthAt(b, n))
  {
  }

  lemma WeakestAdvances(p: seq<Observation>, q: seq<Observation>, n: int)
    requires |p| == |q| > 0 && forall i | 0 <= i < |p| :: Advances(p[i], q[i])
    ensures DepthRank(Weakest(p, n)) <= DepthRank(Weakest(q, n))
  {
    WeakestIsMinimum(p, n);
    WeakestIsMinimum(q, n);
    var o :| o in q && DepthAt(o, n) == Weakest(q, n);
    var i :| 0 <= i < |q| && q[i] == o;
    DepthAdvances(p[i], q[i], n);
    assert p[i] in p;
  }

  lemma SameAnchorLater(a: Input, b: Input, m: Meaning)
    requires HonestNext(a, b) && AnchoredAt(a, m)
    ensures AnchoredAt(b, m)
  {
    var p, q := a.observations, b.observations;
    assert Providers(p) == Providers(q) by {
      forall i | 0 <= i < |p| ensures p[i].providerId in Providers(q) && q[i].providerId in Providers(p) {
        assert p[i] in p && q[i] in q && Advances(p[i], q[i]);
      }
    }
    forall o | o in q
      ensures ValidObservation(o) && o.chainId == b.expectedChainId && MeaningOf(o) == m
      ensures o.canonicalBlockHash.Some? && Lower(o.canonicalBlockHash.value) == m.blockHash
    {
      var i :| 0 <= i < |q| && q[i] == o;
      assert p[i] in p && Advances(p[i], q[i]);
    }
  }

  /** Honest observers are never refused: the later answer may always replace the earlier one. */
  lemma HonestProgressIsAccepted(a: Input, b: Input)
    requires HonestNext(a, b)
    ensures CanTransition(Some(PositionOf(Classify(a))), PositionOf(Classify(b)))
  {
    AnswersAreStorable(a);
    AnswersAreStorable(b);
    if Classify(a).depth != NoDepth {
      var m := AnchorOf(a);
      SameAnchorLater(a, b, m);
      AnchoredAnswer(a, m);
      AnchoredAnswer(b, m);
      WeakestAdvances(a.observations, b.observations, m.blockNumber);
    } else {
      PlainProgress(a, b);
    }
  }

  lemma SameScreensLater(a: Input, b: Input)
    requires HonestNext(a, b)
    ensures AnyOffChain(a.observations, a.expectedChainId) == AnyOffChain(b.observations, b.expectedChainId)
    ensures AnySeen(a.observations) == AnySeen(b.observations)
  {
    var p, q := a.observations, b.observations;
    forall i | 0 <= i < |p| ensures p[i] in p && q[i] in q && Advances(p[i], q[i]) {}
  }

  /** Without an anchor the earlier answer is provisional, or a rejection that the later one repeats. */
  lemma PlainProgress(a: Input, b: Input)
    requires HonestNext(a, b) && Classify(a).depth == NoDepth
    ensures CanTransition(Some(PositionOf(Classify(a))), PositionOf(Classify(b)))
  {
    AnswersAreStorable(b);
    PlainAnswers(a);
    SameScreensLater(a, b);
    FailedExactly(a);
    FailedExactly(b);
  }

  ghost predicate HonestHistory(history: seq<Input>) {
    forall k | 0 < k < |history| :: HonestNext(history[k - 1], history[k])
  }

  lemma {:induction false} HonestSpan(history: seq<Input>, i: nat, j: nat)
    requires HonestHistory(history) && i < j < |history|
    ensures HonestNext(history[i], history[j])
    decreases j
  {
    if i + 1 < j {
      HonestSpan(history, i, j - 1);
      HonestTransitive(history[i], history[j - 1], history[j]);
    }
  }

  /** A history of honest snapshots: every later answer may follow every earlier one. */
  lemma HonestHistoryIsAccepted(history: seq<Input>, i: nat, j: nat)
    requires HonestHistory(history) && i < j < |history|
    ensures CanTransition(Some(PositionOf(Classify(history[i]))), PositionOf(Classify(history[j])))
  {
    HonestSpan(history, i, j);
    HonestProgressIsAccepted(history[i], history[j]);
  }

  // ---------------------------------------------------------------- agreement between observers

  /** What a block does to the sender's nonce: nothing, execute the transaction, or spend it on another. */
  datatype Effect = NoEffect | Executes(status: int) | Supersedes(transactionHash: string)

  /** A finalized chain, by height. Hashes are lower case. */
  datatype Block = Block(hash: string, effect: Effect)

  /** A nonce is consumed in at most one block. */
  ghost predicate NonceSpentOnce(chain: seq<Block>) {
    forall i, j | 0 <= i < |chain| && 0 <= j < |chain| && chain[i].effect != NoEffect && chain[j].effect != NoEffect ::
      i == j
  }

  function EffectOf(m: Meaning): Effect {
    match m
    case Nothing => NoEffect
    case Executed(_, _, status) => Executes(status)
    case Superseded(transactionHash, _, _) => Supersedes(transactionHash)
  }

  /**
   The provider reads its finalized chain truthfully: at or below its finalized tag, the canonical
   hash it reports is the chain's, and a canonical receipt or replacement is what that block did.
   Nothing is assumed about heights above the tag.
   */
  ghost predicate ReadsChain(o: Observation, chain: seq<Block>) {
    var m := MeaningOf(o);
    o.finalized.Number? && m != Nothing && 0 <= m.blockNumber <= o.finalized.n && o.canonicalBlockHash.Some? ==>
      && m.blockNumber < |chain|
      && chain[m.blockNumber].hash == Lower(o.canonicalBlockHash.value)
      && (Lower(o.canonicalBlockHash.value) == m.blockHash ==> chain[m.blockNumber].effect == EffectOf(m))
  }

  /** A final, non-failed answer names a block of every honest provider's finalized chain, and what it did there. */
  lemma FinalAnswerIsOnChain(input: Input, o: Observation, chain: seq<Block>) returns (m: Meaning)
    requires Classify(input).final && Classify(input).state != Failed
    requires o in input.observations && ReadsChain(o, chain)
    ensures AnchoredAt(input, m) && 0 <= m.blockNumber < |chain|
    ensures chain[m.blockNumber] == Block(m.blockHash, EffectOf(m))
    ensures Classify(input).blockNumber == Some(m.blockNumber) && Classify(input).blockHash == Some(m.blockHash)
    ensures Classify(input).state == StateFor(m, FinalizedDepth)
  {
    AnswersAreStorable(input);
    m := AnchorOf(input);
    AnchoredAnswer(input, m);
    WeakestIsMinimum(input.observations, m.blockNumber);
    assert DepthRank(DepthAt(o, m.blockNumber)) == 3;
  }

  /**
   Two observers that share one provider with an immutable finalized chain never contradict each
   other: final, non-failed answers agree on state, block number and block hash, whatever the other
   providers say. The chain may have grown between the two answers.
   */
  lemma FinalAnswersAgree(a: Input, b: Input, o: Observation, p: Observation, early: seq<Block>, late: seq<Block>)
    requires Classify(a).final && Classify(a).state != Failed
    requires Classify(b).final && Classify(b).state != Failed
    requires o in a.observations && p in b.observations && o.providerId == p.providerId
    requires early <= late && NonceSpentOnce(late)
    requires ReadsChain(o, early) && ReadsChain(p, late)
    ensures Classify(a).state == Classify(b).state
    ensures Classify(a).blockNumber == Classify(b).blockNumber && Classify(a).blockHash == Classify(b).blockHash
  {
    var m := FinalAnswerIsOnChain(a, o, early);
    var n := FinalAnswerIsOnChain(b, p, late);
    assert late[m.blockNumber] == early[m.blockNumber];
    assert EffectOf(m) != NoEffect && EffectOf(n) != NoEffect;
    assert m.blockNumber == n.blockNumber;
  }
}
