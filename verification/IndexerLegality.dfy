/**
 Which event histories the overview counters survive, said of the decoded logs alone: no trade is
 locked twice, and none is moved again after it was cancelled.
 */
module IndexerLegality {
  import opened Common
  import opened IndexerCounters
  import opened IndexerProjection
  import opened IndexerConsistency

  /** The decoded escrow event at a place of the chain. */
  function EventAt(build: Build, chain: seq<Block>, i: int, j: int): Option<EscrowEvent> {
    if At(chain, i, j) && OfEscrow(build, chain[i].logs[j]) && build.decode(chain[i].logs[j]).Known? then
      Some(build.decode(chain[i].logs[j]).event)
    else None
  }

  predicate Locks(e: Option<EscrowEvent>, id: TradeId) { e.Some? && e.value.TradeLocked? && e.value.trade == id }

  predicate Moves(e: Option<EscrowEvent>, id: TradeId) { e.Some? && NextStatus(e.value).Some? && e.value.trade == id }

  predicate CancelsTrade(e: Option<EscrowEvent>, id: TradeId) { Moves(e, id) && Cancels(e.value) }

  ghost predicate Legal(build: Build, chain: seq<Block>) {
    forall i, j, i', j', id | At(chain, i, j) && At(chain, i', j') && Earlier(i, j, i', j') ::
      && !(Locks(EventAt(build, chain, i, j), id) && Locks(EventAt(build, chain, i', j'), id))
      && !(CancelsTrade(EventAt(build, chain, i, j), id) && Moves(EventAt(build, chain, i', j'), id))
  }

  // ---------------------------------------------------------------- what a store remembers of its history

  ghost predicate LockedBefore(build: Build, chain: seq<Block>, i: int, j: int, id: TradeId) {
    exists x, y :: At(chain, x, y) && Earlier(x, y, i, j) && Locks(EventAt(build, chain, x, y), id)
  }

  ghost predicate CancelledBefore(build: Build, chain: seq<Block>, i: int, j: int, id: TradeId) {
    exists x, y :: At(chain, x, y) && Earlier(x, y, i, j) && CancelsTrade(EventAt(build, chain, x, y), id)
  }

  /** Stored trades were locked, and stored cancellations happened, before `(i, j)`. */
  ghost predicate Remembers(build: Build, chain: seq<Block>, st: Store, i: int, j: int) {
    && (forall id | id in st.trades :: LockedBefore(build, chain, i, j, id))
    && (forall k | k in st.records && Cancels(st.records[k].event) ::
          CancelledBefore(build, chain, i, j, st.records[k].event.trade))
  }

  lemma RemembersLater(build: Build, chain: seq<Block>, st: Store, i: int, j: int, x: int, y: int)
    requires Remembers(build, chain, st, i, j) && (Earlier(i, j, x, y) || (i == x && j == y))
    ensures Remembers(build, chain, st, x, y)
  {
    forall id | LockedBefore(build, chain, i, j, id) ensures LockedBefore(build, chain, x, y, id) {
      var a, b :| At(chain, a, b) && Earlier(a, b, i, j) && Locks(EventAt(build, chain, a, b), id);
      assert Earlier(a, b, x, y);
    }
    forall id | CancelledBefore(build, chain, i, j, id) ensures CancelledBefore(build, chain, x, y, id) {
      var a, b :| At(chain, a, b) && Earlier(a, b, i, j) && CancelsTrade(EventAt(build, chain, a, b), id);
      assert Earlier(a, b, x, y);
    }
  }

  lemma EventWrites(st: Store, b: Block, log: RawLog, e: EscrowEvent, st': Store)
    requires ApplyEvent(st, b, log, e) == Done(st')
    ensures st'.records == st.records[KeyFor(log, e) := RecordFor(b, log, e)]
    ensures forall id | id in st'.trades && id !in st.trades :: e.TradeLocked? && id == e.trade
  {
  }

  lemma RemembersStep(build: Build, chain: seq<Block>, st: Store, i: nat, j: nat, st': Store)
    requires At(chain, i, j) && Remembers(build, chain, st, i, j)
    requires ApplyLog(build, st, chain[i], chain[i].logs[j]) == Done(st')
    ensures Remembers(build, chain, st', i, j + 1)
  {
    RemembersLater(build, chain, st, i, j, i, j + 1);
    if OfEscrow(build, chain[i].logs[j]) {
      var e := build.decode(chain[i].logs[j]).event;
      assert EventAt(build, chain, i, j) == Some(e) && Earlier(i, j, i, j + 1);
      EventWrites(st, chain[i], chain[i].logs[j], e, st');
    }
  }

  lemma {:induction false} PrefixRemembers(build: Build, chain: seq<Block>, i: nat, j: nat)
    requires i < |chain| && j <= |chain[i].logs|
    ensures var r := Prefix(build, chain, i, j); r.Done? ==> Remembers(build, chain, r.store, i, j)
    decreases i, j
  {
    var r := Prefix(build, chain, i, j);
    if r.Done? {
      if j > 0 {
        PrefixRemembers(build, chain, i, j - 1);
        RemembersStep(build, chain, Prefix(build, chain, i, j - 1).store, i, j - 1, r.store);
      } else if i > 0 {
        PrefixNextBlock(build, chain, i);
        PrefixRemembers(build, chain, i - 1, |chain[i - 1].logs|);
        RemembersLater(build, chain, Prefix(build, chain, i - 1, |chain[i - 1].logs|).store, i - 1, |chain[i - 1].logs|, i, 0);
      } else {
        assert chain[..0] == [];
      }
    }
  }

  // ---------------------------------------------------------------- legal histories

  lemma LegalIsBenignAt(build: Build, chain: seq<Block>, i: nat, j: nat)
    requires Legal(build, chain) && At(chain, i, j)
    ensures BenignAt(build, chain, i, j)
  {
    var log, before := chain[i].logs[j], Prefix(build, chain, i, j);
    if before.Done? && OfEscrow(build, log) && build.decode(log).Known? {
      var e, st := build.decode(log).event, before.store;
      assert EventAt(build, chain, i, j) == Some(e);
      PrefixRemembers(build, chain, i, j);
      if e.TradeLocked? {
        FirstLock(build, chain, i, j, e.trade);
      }
      if NextStatus(e).Some? && e.trade in st.trades {
        NotCancelledYet(build, chain, i, j, e.trade);
        if BucketOf(st, e.trade) == BCancelled { CancelledRemembered(build, chain, st, i, j, e.trade); }
      }
    }
  }

  lemma FirstLock(build: Build, chain: seq<Block>, i: nat, j: nat, id: TradeId)
    requires Legal(build, chain) && At(chain, i, j) && Locks(EventAt(build, chain, i, j), id)
    ensures !LockedBefore(build, chain, i, j, id)
  {
  }

  lemma NotCancelledYet(build: Build, chain: seq<Block>, i: nat, j: nat, id: TradeId)
    requires Legal(build, chain) && At(chain, i, j) && Moves(EventAt(build, chain, i, j), id)
    ensures !CancelledBefore(build, chain, i, j, id)
  {
  }

  lemma CancelledRemembered(build: Build, chain: seq<Block>, st: Store, i: nat, j: nat, id: TradeId)
    requires Remembers(build, chain, st, i, j) && id in st.trades && BucketOf(st, id) == BCancelled
    ensures CancelledBefore(build, chain, i, j, id)
  {
    var k :| LatestTerminal(st.records, id, k) && Cancels(st.records[k].event);
  }

  /** A parent row or the transaction the handler needs is not there. */
  ghost predicate Orphaned(st: Store, log: RawLog, e: EscrowEvent) {
    || log.txHash.None?
    || (TradeOf(e).Some? && !e.TradeLocked? && TradeOf(e).value !in st.trades)
    || ((e.ProposalApproved? || e.ProposalExecuted? || e.ProposalCancelled?) && ProposalOf(e).value !in st.proposals)
  }

  /**
   Over every legal history, after every log: the counters equal a rebuild and add up to the number of
   trades; and when the next log halts the batch it is not for a counter, but because the log cannot
   be decoded or misses its transaction or a parent row.
   */
  lemma LegalHistoryCounts(build: Build, chain: seq<Block>, i: nat, j: nat)
    requires ChainOk(chain) && Legal(build, chain) && i < |chain| && j <= |chain[i].logs|
    requires Prefix(build, chain, i, j).Done?
    ensures var st := Prefix(build, chain, i, j).store;
            && Consistent(st)
            && ShareSum(SnapshotOf(st).counters) == SnapshotOf(st).counters.total == |st.trades|
    ensures At(chain, i, j) && Prefix(build, chain, i, j + 1).Halted? ==>
              var st, log := Prefix(build, chain, i, j).store, chain[i].logs[j];
              OfEscrow(build, log) && (build.decode(log).Known? ==> Orphaned(st, log, build.decode(log).event))
  {
    forall x, y | At(chain, x, y) ensures BenignAt(build, chain, x, y) {
      LegalIsBenignAt(build, chain, x, y);
    }
    BenignChainStaysConsistent(build, chain, i, j);
    var st := Prefix(build, chain, i, j).store;
    ConsistentAddsUp(st);
    if At(chain, i, j) && EventAt(build, chain, i, j).Some? {
      NeverHaltsForCounters(build, chain, i, j);
    }
  }

  lemma NeverHaltsForCounters(build: Build, chain: seq<Block>, i: nat, j: nat)
    requires ChainOk(chain) && At(chain, i, j) && BenignAt(build, chain, i, j) && EventAt(build, chain, i, j).Some?
    requires Prefix(build, chain, i, j).Done? && Consistent(Prefix(build, chain, i, j).store)
    ensures Prefix(build, chain, i, j + 1).Halted? ==>
              Orphaned(Prefix(build, chain, i, j).store, chain[i].logs[j], EventAt(build, chain, i, j).value)
  {
    var st, log, e := Prefix(build, chain, i, j).store, chain[i].logs[j], EventAt(build, chain, i, j).value;
    PrefixUpto(build, chain, i, j);
    FreshOnChain(chain, st, i, j, e);
    if !Orphaned(st, log, e) {
      BenignNeverUnderflows(st, chain[i], log, e);
    }
  }

  // ---------------------------------------------------------------- and no others

  /** Every log of the chain is projected. */
  ghost predicate Completes(build: Build, chain: seq<Block>) {
    forall i: nat, j: nat | i < |chain| && j <= |chain[i].logs| :: Prefix(build, chain, i, j).Done?
  }

  ghost predicate AlwaysConsistent(build: Build, chain: seq<Block>) {
    forall i: nat, j: nat | i < |chain| && j <= |chain[i].logs| ::
      Prefix(build, chain, i, j).Done? ==> Consistent(Prefix(build, chain, i, j).store)
  }

  lemma ConsistentIsBenign(build: Build, chain: seq<Block>, i: nat, j: nat)
    requires ChainOk(chain) && Completes(build, chain) && AlwaysConsistent(build, chain) && At(chain, i, j)
    ensures BenignAt(build, chain, i, j)
  {
    assert Prefix(build, chain, i, j).Done? && Prefix(build, chain, i, j + 1).Done?;
    FirstBadLogBreaksTheCounters(build, chain, i, j);
  }

  /** What a trade's bucket is remembered as: present, or cancelled. */
  ghost predicate Keeps(st: Store, id: TradeId, cancelled: bool) {
    id in st.trades && (cancelled ==> BucketOf(st, id) == BCancelled)
  }

  lemma KeepsStep(build: Build, chain: seq<Block>, i: nat, j: nat, id: TradeId, cancelled: bool)
    requires ChainOk(chain) && At(chain, i, j) && BenignAt(build, chain, i, j)
    requires KeptAt(build, chain, i, j, id, cancelled) && Prefix(build, chain, i, j + 1).Done?
    ensures KeptAt(build, chain, i, j + 1, id, cancelled)
  {
    var st, st', log := Prefix(build, chain, i, j).store, Prefix(build, chain, i, j + 1).store, chain[i].logs[j];
    if OfEscrow(build, log) {
      var e := build.decode(log).event;
      PrefixUpto(build, chain, i, j);
      FreshOnChain(chain, st, i, j, e);
      EventKeeps(st, chain[i], log, e, st', id, cancelled);
    }
  }

  lemma EventKeeps(st: Store, b: Block, log: RawLog, e: EscrowEvent, st': Store, id: TradeId, cancelled: bool)
    requires Fresh(st, b, log, e) && ApplyEvent(st, b, log, e) == Done(st') && Benign(st, e)
    requires Keeps(st, id, cancelled)
    ensures Keeps(st', id, cancelled)
  {
    if e.TradeLocked? || NextStatus(e).Some? {
      BucketsAfter(st, b, log, e, st');
      if e.trade != id {
        assert Buckets(st')[id] == Buckets(st)[id];
      }
    } else {
      BucketsUntouched(st, b, log, e, st');
      assert Buckets(st)[id] == Buckets(st')[id];
    }
  }

  /** A lock puts its trade in the store, and a cancellation in the cancelled bucket. */
  lemma EventStarts(build: Build, chain: seq<Block>, i: nat, j: nat, id: TradeId, cancelled: bool)
    requires ChainOk(chain) && At(chain, i, j)
    requires Prefix(build, chain, i, j).Done? && Prefix(build, chain, i, j + 1).Done?
    requires Starts(EventAt(build, chain, i, j), id, cancelled)
    ensures KeptAt(build, chain, i, j + 1, id, cancelled)
  {
    var st, st', log := Prefix(build, chain, i, j).store, Prefix(build, chain, i, j + 1).store, chain[i].logs[j];
    var e := EventAt(build, chain, i, j).value;
    PrefixUpto(build, chain, i, j);
    FreshOnChain(chain, st, i, j, e);
    BucketsAfter(st, chain[i], log, e, st');
    assert id in Buckets(st');
    assert cancelled ==> Buckets(st')[id] == BCancelled;
  }

  predicate Starts(e: Option<EscrowEvent>, id: TradeId, cancelled: bool) {
    if cancelled then CancelsTrade(e, id) else Locks(e, id)
  }

  ghost predicate KeptAt(build: Build, chain: seq<Block>, x: nat, y: nat, id: TradeId, cancelled: bool)
    requires x < |chain| && y <= |chain[x].logs|
  {
    Prefix(build, chain, x, y).Done? && Keeps(Prefix(build, chain, x, y).store, id, cancelled)
  }

  /** From then on, in a history that stays benign, that does not change. */
  lemma {:induction false} KeptEverAfter(build: Build, chain: seq<Block>, i: nat, j: nat, x: nat, y: nat, id: TradeId,
                                         cancelled: bool)
    requires ChainOk(chain) && Completes(build, chain) && BenignChain(build, chain)
    requires At(chain, i, j) && x < |chain| && y <= |chain[x].logs| && Earlier(i, j, x, y)
    requires Starts(EventAt(build, chain, i, j), id, cancelled)
    ensures KeptAt(build, chain, x, y, id, cancelled)
    decreases x, y
  {
    assert Prefix(build, chain, x, y).Done?;
    if y > 0 {
      assert Prefix(build, chain, x, y - 1).Done?;
      if x == i && y - 1 == j {
        EventStarts(build, chain, i, j, id, cancelled);
      } else {
        KeptEverAfter(build, chain, i, j, x, y - 1, id, cancelled);
        assert BenignAt(build, chain, x, y - 1);
        KeepsStep(build, chain, x, y - 1, id, cancelled);
      }
    } else {
      KeptEverAfter(build, chain, i, j, x - 1, |chain[x - 1].logs|, id, cancelled);
      KeepsNextBlock(build, chain, x, id, cancelled);
    }
  }

  lemma KeepsNextBlock(build: Build, chain: seq<Block>, x: nat, id: TradeId, cancelled: bool)
    requires 0 < x < |chain| && KeptAt(build, chain, x - 1, |chain[x - 1].logs|, id, cancelled)
    ensures KeptAt(build, chain, x, 0, id, cancelled)
  {
    PrefixNextBlock(build, chain, x);
    var was := Prefix(build, chain, x - 1, |chain[x - 1].logs|).store;
    assert BucketOf(ApplyHeader(was, chain[x]), id) == BucketOf(was, id);
  }

  lemma ConsistentIsLegal(build: Build, chain: seq<Block>)
    requires ChainOk(chain) && Completes(build, chain) && AlwaysConsistent(build, chain)
    ensures Legal(build, chain)
  {
    forall i, j | At(chain, i, j) ensures BenignAt(build, chain, i, j) {
      ConsistentIsBenign(build, chain, i, j);
    }
    BenignIsLegal(build, chain);
  }

  lemma BenignIsLegal(build: Build, chain: seq<Block>)
    requires ChainOk(chain) && Completes(build, chain) && BenignChain(build, chain)
    ensures Legal(build, chain)
  {
    forall i, j, i', j', id | At(chain, i, j) && At(chain, i', j') && Earlier(i, j, i', j')
      ensures !(Locks(EventAt(build, chain, i, j), id) && Locks(EventAt(build, chain, i', j'), id))
      ensures !(CancelsTrade(EventAt(build, chain, i, j), id) && Moves(EventAt(build, chain, i', j'), id))
    {
      assert BenignAt(build, chain, i', j');
      if Locks(EventAt(build, chain, i, j), id) { KeptEverAfter(build, chain, i, j, i', j', id, false); }
      if CancelsTrade(EventAt(build, chain, i, j), id) { KeptEverAfter(build, chain, i, j, i', j', id, true); }
    }
  }

  /**
   For every chain that is projected to its end: the counters match a rebuild after every log if and
   only if no trade is locked twice and none is moved after a cancellation.
   */
  lemma CountersMatchExactly(build: Build, chain: seq<Block>)
    requires ChainOk(chain) && Completes(build, chain)
    ensures AlwaysConsistent(build, chain) <==> Legal(build, chain)
  {
    if AlwaysConsistent(build, chain) {
      ConsistentIsLegal(build, chain);
    }
    if Legal(build, chain) {
      forall i: nat, j: nat | i < |chain| && j <= |chain[i].logs| ensures Consistent(Prefix(build, chain, i, j).store) {
        assert Prefix(build, chain, i, j).Done?;
        LegalHistoryCounts(build, chain, i, j);
      }
    }
  }

  // ---------------------------------------------------------------- an illegal history

  /** The statuses and counters a store shows, with no cancellation of trade `kept` on record. */
  ghost predicate Shows(st: Store, ts: map<TradeId, TradeStatus>, c: Counters, kept: TradeId) {
    && st.snapshot.Some? && st.snapshot.value.counters == c
    && st.trades.Keys == ts.Keys && (forall id | id in ts :: st.trades[id].status == ts[id])
    && forall k | k in st.records :: !CancelsTrade(Some(st.records[k].event), kept)
  }

  /** What the store shows after one more event, if the handler goes through. */
  function ShownAfter(e: EscrowEvent, ts: map<TradeId, TradeStatus>, c: Counters)
    : Option<(map<TradeId, TradeStatus>, Counters)>
  {
    if e.TradeLocked? then Some((ts[e.trade := Locked], ApplyTradeCreated(Locked, c)))
    else if NextStatus(e).None? || e.trade !in ts then None
    else
      match CountersAfter(e, ts[e.trade], NextStatus(e).value, c)
      case Failure(_) => None
      case Success(d) => Some((ts[e.trade := NextStatus(e).value], d))
  }

  lemma ShowsNext(st: Store, b: Block, log: RawLog, e: EscrowEvent, ts: map<TradeId, TradeStatus>, c: Counters,
                  kept: TradeId)
    requires Shows(st, ts, c, kept) && log.txHash.Some? && !CancelsTrade(Some(e), kept)
    requires e.TradeLocked? || (NextStatus(e).Some? && e.trade in ts)
    ensures var r, shown := ApplyEvent(st, b, log, e), ShownAfter(e, ts, c);
            && (r.Done? <==> shown.Some?)
            && (r.Done? ==> Shows(r.store, shown.value.0, shown.value.1, kept))
            && (r.Halted? ==> r.reason == HandlerFailure)
  {
    if NextStatus(e).Some? {
      LifecycleCounts(st, b, log, e);
    }
    var r := ApplyEvent(st, b, log, e);
    if r.Done? {
      Written(st, b, log, e, r.store);
    }
  }

  /** A block whose logs decode to the given events. */
  ghost predicate Scripted(build: Build, b: Block, events: seq<EscrowEvent>) {
    && |b.logs| == |events|
    && forall j | 0 <= j < |events| ::
         b.logs[j].txHash.Some? && OfEscrow(build, b.logs[j]) && build.decode(b.logs[j]) == Known(events[j])
  }

  function ShownAll(events: seq<EscrowEvent>): Option<(map<TradeId, TradeStatus>, Counters)> {
    if events == [] then Some((map[], EMPTY))
    else
      match ShownAll(events[..|events| - 1])
      case None => None
      case Some((ts, c)) => ShownAfter(events[|events| - 1], ts, c)
  }

  lemma {:induction false} ShowsScript(build: Build, b: Block, events: seq<EscrowEvent>, n: nat, kept: TradeId)
    requires Scripted(build, b, events) && n <= |events| && ShownAll(events[..n]).Some?
    requires forall j | 0 <= j < |events| :: !CancelsTrade(Some(events[j]), kept)
    ensures var r := Prefix(build, [b], 0, n);
            r.Done? && Shows(r.store, ShownAll(events[..n]).value.0, ShownAll(events[..n]).value.1, kept)
  {
    assert [b][..0] == [];
    if n == 0 {
      CountersOfNone();
      assert Buckets(EMPTY_STORE) == map[];
    } else {
      assert events[..n][..n - 1] == events[..n - 1];
      ShowsScript(build, b, events, n - 1, kept);
      var st, shown := Prefix(build, [b], 0, n - 1).store, ShownAll(events[..n - 1]).value;
      ShowsNext(st, b, b.logs[n - 1], events[n - 1], shown.0, shown.1, kept);
    }
  }

  /** Two trades locked, one completed, the other cancelled and then disputed. */
  function CancelledThenDisputed(terms: Terms): seq<EscrowEvent> {
    [TradeLocked(7, terms), TradeLocked(8, terms), FinalTrancheReleased(8), TradeCancelledAfterLockTimeout(7)]
    + [DisputeOpenedByBuyer(7)]
  }

  lemma ShownPush(events: seq<EscrowEvent>, e: EscrowEvent)
    ensures ShownAll(events + [e])
         == match ShownAll(events) case None => None case Some((ts, c)) => ShownAfter(e, ts, c)
  {
    assert (events + [e])[..|events|] == events;
  }

  /** Completed by its final tranche while another trade is still locked. */
  lemma ThreeShow(terms: Terms)
    ensures ShownAll([TradeLocked(7, terms), TradeLocked(8, terms), FinalTrancheReleased(8)])
         == Some((map[][7 := Locked][8 := Locked][8 := Closed], Counters(2, 1, 0, 0, 1, 0, 0)))
  {
    var e0, e1, e2 := TradeLocked(7, terms), TradeLocked(8, terms), FinalTrancheReleased(8);
    ShownPush([], e0);
    assert [] + [e0] == [e0];
    assert ShownAll([e0]) == Some((map[][7 := Locked], Counters(1, 1, 0, 0, 0, 0, 0)));
    ShownPush([e0], e1);
    assert [e0] + [e1] == [e0, e1];
    assert ShownAll([e0, e1]) == Some((map[][7 := Locked][8 := Locked], Counters(2, 2, 0, 0, 0, 0, 0)));
    ShownPush([e0, e1], e2);
    assert [e0, e1] + [e2] == [e0, e1, e2];
  }

  /** Cancelling trade 7 and disputing it takes one off the completed trades, where trade 8 is. */
  lemma TakenFromTheOther(m: map<TradeId, TradeStatus>)
    requires 7 in m && m[7] == Locked
    ensures ShownAfter(TradeCancelledAfterLockTimeout(7), m, Counters(2, 1, 0, 0, 1, 0, 0))
         == Some((m[7 := Closed], Counters(2, 0, 0, 0, 1, 0, 1)))
    ensures ShownAfter(DisputeOpenedByBuyer(7), m[7 := Closed], Counters(2, 0, 0, 0, 1, 0, 1))
         == Some((m[7 := Closed][7 := Frozen], Counters(2, 0, 0, 0, 0, 1, 1)))
  {
  }

  lemma CancelledThenDisputedShows(terms: Terms)
    ensures ShownAll(CancelledThenDisputed(terms))
         == Some((map[][7 := Locked][8 := Locked][8 := Closed][7 := Closed][7 := Frozen], Counters(2, 0, 0, 0, 0, 1, 1)))
  {
    var three := [TradeLocked(7, terms), TradeLocked(8, terms), FinalTrancheReleased(8)];
    var m: map<TradeId, TradeStatus> := map[][7 := Locked][8 := Locked][8 := Closed];
    var e3 := TradeCancelledAfterLockTimeout(7);
    ThreeShow(terms);
    TakenFromTheOther(m);
    ShownPush(three, e3);
    ShownPush(three + [e3], DisputeOpenedByBuyer(7));
    assert CancelledThenDisputed(terms) == three + [e3] + [DisputeOpenedByBuyer(7)];
  }

  lemma IllegalPair(build: Build, chain: seq<Block>, i: nat, j: nat, j': nat, id: TradeId)
    requires At(chain, i, j) && At(chain, i, j') && j < j'
    requires CancelsTrade(EventAt(build, chain, i, j), id) && Moves(EventAt(build, chain, i, j'), id)
    ensures !Legal(build, chain)
  {
    assert Earlier(i, j, i, j');
  }

  /** The batch goes through, and the counters take the other trade off the completed ones. */
  lemma DisputedAfterCancellation(build: Build, b: Block, terms: Terms)
    requires Scripted(build, b, CancelledThenDisputed(terms))
    ensures !Legal(build, [b]) && Prefix(build, [b], 0, 5).Done? && !Consistent(Prefix(build, [b], 0, 5).store)
  {
    var events := CancelledThenDisputed(terms);
    assert events[..5] == events;
    CancelledThenDisputedShows(terms);
    ShowsScript(build, b, events, 5, 8);
    CompletedIsCounted(Prefix(build, [b], 0, 5).store, 8);
    assert EventAt(build, [b], 0, 3) == Some(events[3]) && EventAt(build, [b], 0, 4) == Some(events[4]);
    IllegalPair(build, [b], 0, 3, 4, 7);
  }

  /** A closed trade with no cancellation on record is one of the completed. */
  lemma CompletedIsCounted(st: Store, id: TradeId)
    requires id in st.trades && st.trades[id].status == Closed
    requires forall k | k in st.records :: !CancelsTrade(Some(st.records[k].event), id)
    ensures CountersFor(Buckets(st)).completed >= 1
  {
    assert Buckets(st)[id] == BCompleted;
    assert id in Members(Buckets(st), BCompleted);
  }

  lemma LockedThenCancelledShows(terms: Terms)
    ensures ShownAll([TradeLocked(7, terms), TradeCancelledAfterLockTimeout(7)])
         == Some((map[][7 := Locked][7 := Closed], Counters(1, 0, 0, 0, 0, 0, 1)))
  {
    var e0, e1 := TradeLocked(7, terms), TradeCancelledAfterLockTimeout(7);
    ShownPush([], e0);
    assert [] + [e0] == [e0];
    assert ShownAll([e0]) == Some((map[][7 := Locked], Counters(1, 1, 0, 0, 0, 0, 0)));
    ShownPush([e0], e1);
    assert [e0] + [e1] == [e0, e1];
  }

  /** With no completed trade to take, the same dispute halts the batch at its log. */
  lemma DisputeUnderflows(build: Build, b: Block, terms: Terms)
    requires Scripted(build, b, [TradeLocked(7, terms), TradeCancelledAfterLockTimeout(7), DisputeOpenedByBuyer(7)])
    ensures Prefix(build, [b], 0, 3) == Halted(b.height, b.logs[2], HandlerFailure)
  {
    var events := [TradeLocked(7, terms), TradeCancelledAfterLockTimeout(7), DisputeOpenedByBuyer(7)];
    assert events[..2] == [TradeLocked(7, terms), TradeCancelledAfterLockTimeout(7)];
    LockedThenCancelledShows(terms);
    ShowsScript(build, b, events, 2, 8);
    var st := Prefix(build, [b], 0, 2).store;
    ShowsNext(st, b, b.logs[2], events[2], map[][7 := Locked][7 := Closed], Counters(1, 0, 0, 0, 0, 0, 1), 8);
  }
}
