/** What the classifier's answers mean, and how they relate across provider sets and across time. */
module FinalityTheorems {
  import opened Common
  import opened Text
  import opened Finality

  // ---------------------------------------------------------------- the reductions, as sets

  lemma SingletonKeys(obs: seq<Observation>)
    requires obs != [] && forall o | o in obs :: ValidObservation(o)
    ensures |Keys(obs)| == 1 <==> forall o | o in obs :: MeaningOf(o) == MeaningOf(obs[0])
  {
    var k := AgreementKey(obs[0]);
    assert obs[0] in obs;
    assert k in Keys(obs);
    if forall o | o in obs :: MeaningOf(o) == MeaningOf(obs[0]) {
      forall o | o in obs ensures AgreementKey(o) == k { KeysAgreeIffMeaningsAgree(o, obs[0]); }
      assert Keys(obs) == {k};
    } else {
      var o :| o in obs && MeaningOf(o) != MeaningOf(obs[0]);
      KeysAgreeIffMeaningsAgree(o, obs[0]);
      assert {k, AgreementKey(o)} <= Keys(obs);
      CardAtLeastTwo(Keys(obs), k, AgreementKey(o));
    }
  }

  lemma CardAtLeastTwo<T>(s: set<T>, a: T, b: T)
    requires a in s && b in s && a != b
    ensures |s| >= 2
  {
    assert s == {a, b} + (s - {a, b});
  }

  lemma {:induction false} WeakestIsMinimum(obs: seq<Observation>, n: int)
    requires obs != []
    ensures exists o | o in obs :: DepthAt(o, n) == Weakest(obs, n)
    ensures forall o | o in obs :: DepthRank(Weakest(obs, n)) <= DepthRank(DepthAt(o, n))
    decreases obs
  {
    var last := obs[|obs| - 1];
    assert last in obs;
    if |obs| > 1 {
      var init := obs[..|obs| - 1];
      WeakestIsMinimum(init, n);
      assert forall o | o in obs :: o in init || o == last;
      assert forall o | o in init :: o in obs;
    }
  }

  // ---------------------------------------------------------------- exact classification

  /** Providers enough, valid and on the right chain, for a transaction that was sent. */
  ghost predicate Admissible(input: Input) {
    && input.submission != Rejected
    && (forall o | o in input.observations :: ValidObservation(o) && o.chainId == input.expectedChainId)
    && |Providers(input.observations)| >= Required(input)
    && |input.observations| >= Required(input)
  }

  /** Every provider reports `m`, in a block that is canonical for it. */
  ghost predicate AnchoredAt(input: Input, m: Meaning) {
    && m != Nothing
    && Admissible(input)
    && forall o | o in input.observations ::
         && MeaningOf(o) == m
         && o.canonicalBlockHash.Some? && Lower(o.canonicalBlockHash.value) == m.blockHash
  }

  function StateFor(m: Meaning, depth: Depth): State
    requires m != Nothing
  {
    if m.Superseded? then Replaced else if m.status == 0 then Reverted else SuccessState(depth)
  }

  /** An anchored assessment reports the agreed block at the weakest depth. */
  lemma AnchoredAnswer(input: Input, m: Meaning)
    requires AnchoredAt(input, m)
    ensures var a := Classify(input);
            && input.observations != []
            && a.depth == Weakest(input.observations, m.blockNumber)
            && a.depth != NoDepth
            && a.final == (a.depth == FinalizedDepth)
            && a.state == StateFor(m, a.depth)
            && a.blockNumber == Some(m.blockNumber) && a.blockHash == Some(m.blockHash)
            && a.reason == DepthReason(input.observations, a.depth)
  {
    var obs := input.observations;
    assert obs[0] in obs;
    SingletonKeys(obs);
    WeakestIsMinimum(obs, m.blockNumber);
  }

  /** The classifier reports a depth exactly for anchored inputs. */
  lemma DepthIffAnchored(input: Input)
    ensures Classify(input).depth != NoDepth <==> exists m :: AnchoredAt(input, m)
  {
    var obs := input.observations;
    if m :| AnchoredAt(input, m) {
      AnchoredAnswer(input, m);
    } else if Classify(input).depth != NoDepth {
      assert obs[0] in obs;
      SingletonKeys(obs);
      assert AnchoredAt(input, MeaningOf(obs[0]));
    }
  }

  /** The anchor of a classified input, when there is one. */
  lemma AnchorOf(input: Input) returns (m: Meaning)
    requires Classify(input).depth != NoDepth
    ensures AnchoredAt(input, m)
  {
    DepthIffAnchored(input);
    m :| AnchoredAt(input, m);
  }

  /** This provider sees the receipt succeed at or below its own finalized tag, in its canonical chain. */
  ghost predicate SeesFinalizedSuccess(o: Observation, blockNumber: int, blockHash: string) {
    && o.receipt.Some? && o.receipt.value.status == 1
    && o.receipt.value.blockNumber == blockNumber && Lower(o.receipt.value.blockHash) == blockHash
    && o.canonicalBlockHash.Some? && Lower(o.canonicalBlockHash.value) == blockHash
    && o.finalized.Number? && blockNumber <= o.finalized.n
  }

  ghost predicate AllSeeFinalizedSuccess(obs: seq<Observation>, blockNumber: int, blockHash: string) {
    forall o | o in obs :: SeesFinalizedSuccess(o, blockNumber, blockHash)
  }

  lemma FinalizedMeans(input: Input) returns (n: int, h: string)
    requires Classify(input).state == Finalized
    ensures Admissible(input) && AllSeeFinalizedSuccess(input.observations, n, h)
  {
    var m := AnchorOf(input);
    AnchoredAnswer(input, m);
    WeakestIsMinimum(input.observations, m.blockNumber);
    n, h := m.blockNumber, m.blockHash;
    forall o | o in input.observations ensures SeesFinalizedSuccess(o, n, h) {
      assert DepthRank(DepthAt(o, n)) == 3;
    }
  }

  lemma FinalizedFollows(input: Input, n: int, h: string)
    requires Admissible(input) && AllSeeFinalizedSuccess(input.observations, n, h)
    ensures Classify(input).state == Finalized
  {
    var obs := input.observations;
    assert obs[0] in obs;
    assert AnchoredAt(input, Executed(n, h, 1));
    AnchoredAnswer(input, Executed(n, h, 1));
    WeakestIsMinimum(obs, n);
  }

  /** `finalized` exactly when enough valid providers on the right chain all see one finalized success. */
  lemma FinalizedExactly(input: Input)
    ensures Classify(input).state == Finalized
            <==> Admissible(input) && exists n, h :: AllSeeFinalizedSuccess(input.observations, n, h)
  {
    if Classify(input).state == Finalized {
      var n, h := FinalizedMeans(input);
    } else if Admissible(input) {
      forall n, h ensures !AllSeeFinalizedSuccess(input.observations, n, h) {
        if AllSeeFinalizedSuccess(input.observations, n, h) { FinalizedFollows(input, n, h); }
      }
    }
  }

  // ---------------------------------------------------------------- order and number of observations

  function WithoutIds(a: Assessment): Assessment { a.(providerIds := []) }

  predicate SameQuestion(a: Input, b: Input) {
    a.expectedChainId == b.expectedChainId && a.submission == b.submission && a.minimumProviders == b.minimumProviders
  }

  lemma SameMembers(a: seq<Observation>, b: seq<Observation>)
    requires multiset(a) == multiset(b)
    ensures |a| == |b| && Providers(a) == Providers(b)
    ensures forall o :: o in a <==> o in b
  {
    assert |multiset(a)| == |a| && |multiset(b)| == |b|;
    forall o ensures o in a <==> o in b { assert o in multiset(a) <==> o in multiset(b); }
  }

  lemma WeakestDependsOnMembers(a: seq<Observation>, b: seq<Observation>, n: int)
    requires a != [] && b != [] && forall o :: o in a <==> o in b
    ensures Weakest(a, n) == Weakest(b, n)
  {
    WeakestIsMinimum(a, n);
    WeakestIsMinimum(b, n);
  }

  lemma SameScreens(a: seq<Observation>, b: seq<Observation>, chainId: int, hash: string)
    requires forall o :: o in a <==> o in b
    ensures AnyInvalid(a) == AnyInvalid(b) && AnyOffChain(a, chainId) == AnyOffChain(b, chainId)
    ensures AnySeen(a) == AnySeen(b) && AnyNonCanonical(a, hash) == AnyNonCanonical(b, hash)
    ensures AnyUnsupported(a) == AnyUnsupported(b)
    ensures !AnyInvalid(a) ==> Keys(a) == Keys(b)
  {
  }

  /** Once every check has passed, only the agreed meaning and the set of observations matter. */
  lemma LocateDependsOnMembers(a: Input, b: Input, f: Observation, g: Observation, number: int, hash: string)
    requires a.observations != [] && b.observations != [] && forall o :: o in a.observations <==> o in b.observations
    requires ValidObservation(f) && ValidObservation(g) && MeaningOf(f) == MeaningOf(g) != Nothing
    ensures WithoutIds(Locate(a, f, number, hash)) == WithoutIds(Locate(b, g, number, hash))
  {
    SameScreens(a.observations, b.observations, 0, hash);
    WeakestDependsOnMembers(a.observations, b.observations, number);
  }

  /** Reordering the observations changes nothing but the list of provider ids. */
  lemma OrderDoesNotMatter(a: Input, b: Input)
    requires SameQuestion(a, b) && multiset(a.observations) == multiset(b.observations)
    ensures WithoutIds(Classify(a)) == WithoutIds(Classify(b))
  {
    var p, q := a.observations, b.observations;
    SameMembers(p, q);
    SameScreens(p, q, a.expectedChainId, "");
    if Admissible(a) && |Keys(p)| == 1 {
      var f, g := p[0], q[0];
      assert f in p && g in q;
      SingletonKeys(p);
      assert MeaningOf(g) == MeaningOf(f);
      var m := MeaningOf(f);
      if m != Nothing {
        LocateDependsOnMembers(a, b, f, g, m.blockNumber, m.blockHash);
      }
    }
  }

  lemma ProvidersGrow(a: seq<Observation>, b: seq<Observation>)
    requires forall o | o in a :: o in b
    ensures |Providers(a)| <= |Providers(b)|
    ensures |Providers(b)| <= |b|
  {
    assert Providers(a) <= Providers(b);
    SubsetSize(Providers(a), Providers(b));
    ProvidersFit(b);
  }

  lemma {:induction false} ProvidersFit(b: seq<Observation>)
    ensures |Providers(b)| <= |b|
    decreases b
  {
    if b != [] {
      var rest := b[..|b| - 1];
      ProvidersFit(rest);
      assert Providers(b) == Providers(rest) + {b[|b| - 1].providerId};
    }
  }

  /**
   More evidence never deepens. When the observations of `a` are among those of `b`, an anchored
   assessment of `a` becomes either unknown or the same block, outcome kind and no greater a depth.
   */
  lemma MoreEvidenceNeverDeepens(a: Input, b: Input)
    requires SameQuestion(a, b) && Classify(a).depth != NoDepth
    requires forall o | o in a.observations :: o in b.observations
    ensures var x, y := Classify(a), Classify(b);
            || y.state == Unknown
            || (&& y.depth != NoDepth && DepthRank(y.depth) <= DepthRank(x.depth)
                && y.blockNumber == x.blockNumber && y.blockHash == x.blockHash
                && (y.state == Replaced <==> x.state == Replaced) && (y.state == Reverted <==> x.state == Reverted))
  {
    var m := AnchorOf(a);
    AnchoredAnswer(a, m);
    if Classify(b).state != Unknown {
      StillAnchored(a, b, m);
      AnchoredAnswer(b, m);
      WeakestIsMinimum(a.observations, m.blockNumber);
      WeakestIsMinimum(b.observations, m.blockNumber);
    }
  }

  lemma StillAnchored(a: Input, b: Input, m: Meaning)
    requires SameQuestion(a, b) && AnchoredAt(a, m) && Classify(b).state != Unknown
    requires forall o | o in a.observations :: o in b.observations
    ensures AnchoredAt(b, m)
  {
    var p, q := a.observations, b.observations;
    ProvidersGrow(p, q);
    assert p[0] in p && q[0] in q;
    assert !AnyInvalid(q) && !AnyOffChain(q, b.expectedChainId);
    SingletonKeys(q);
    assert |Keys(q)| == 1;
    assert MeaningOf(p[0]) == m == MeaningOf(q[0]);
    assert !AnyNonCanonical(q, m.blockHash);
  }
}
