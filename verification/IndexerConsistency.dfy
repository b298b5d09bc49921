/**
 The overview counters against the trades they count: the exact condition under which one projected
 log keeps them equal to a rebuild from the stored trades and events, and whole chains.
 */
module IndexerConsistency {
  import opened Common
  import opened IndexerCounters
  import opened IndexerProjection
  import opened Text

  /** The snapshot's counters are what a rebuild would compute. */
  ghost predicate Consistent(st: Store) { SnapshotOf(st).counters == CountersFor(Buckets(st)) }

  /** The log has no record yet and comes after every stored terminal event. */
  ghost predicate Fresh(st: Store, b: Block, log: RawLog, e: EscrowEvent) {
    && (log.txHash.Some? ==> KeyFor(log, e) !in st.records)
    && forall k | k in st.records && Terminal(st.records[k].event) :: After(RecordFor(b, log, e).at, st.records[k].at)
  }

  /** A lock of an unknown trade, or a lifecycle event of a trade that was not cancelled; the rest touch no counter. */
  ghost predicate Benign(st: Store, e: EscrowEvent) {
    && (e.TradeLocked? ==> e.trade !in st.trades)
    && (NextStatus(e).Some? && e.trade in st.trades ==> BucketOf(st, e.trade) != BCancelled)
  }

  // ---------------------------------------------------------------- how one record moves the buckets

  lemma OtherTradesKeepTheirEnd(records: map<RecordKey, Record>, k: RecordKey, r: Record, id: TradeId)
    requires k !in records && !TerminalOf(r, id)
    ensures EndedByCancellation(records[k := r], id) <==> EndedByCancellation(records, id)
  {
    var now := records[k := r];
    forall j ensures LatestTerminal(now, id, j) <==> LatestTerminal(records, id, j) {
      if LatestTerminal(now, id, j) {
        forall i | i in records && TerminalRow(i, records[i], id)
          ensures !Follows(records[i].at, i.id, records[j].at, j.id)
        {
          assert now[i] == records[i];
        }
      }
    }
  }

  lemma NewestTerminalDecides(records: map<RecordKey, Record>, k: RecordKey, r: Record, id: TradeId)
    requires k !in records && TerminalRow(k, r, id)
    requires forall j | j in records && Terminal(records[j].event) :: After(r.at, records[j].at)
    ensures EndedByCancellation(records[k := r], id) <==> Cancels(r.event)
  {
    var now := records[k := r];
    forall j | j in now && TerminalRow(j, now[j], id) ensures !Follows(now[j].at, j.id, r.at, k.id) {
      LessIsTotal(k.id.text, j.id.text);
    }
    assert LatestTerminal(now, id, k);
    forall j | LatestTerminal(now, id, j) ensures j == k {
      assert !Follows(now[k].at, k.id, now[j].at, j.id);
    }
  }

  /** One trade written and one record of that trade added move at most that trade. */
  lemma BucketsWith(st: Store, st': Store, id: TradeId, t: Trade, k: RecordKey, r: Record)
    requires k !in st.records && st'.trades == st.trades[id := t] && st'.records == st.records[k := r]
    requires Terminal(r.event) ==> r.event.trade == id
    ensures Buckets(st') == Buckets(st)[id := BucketOf(st', id)]
  {
    forall other | other in st'.trades && other != id
      ensures other in st.trades && BucketOf(st', other) == BucketOf(st, other)
    {
      OtherTradesKeepTheirEnd(st.records, k, r, other);
    }
  }

  /** What a projected lifecycle event, or a lock, writes. */
  lemma Written(st: Store, b: Block, log: RawLog, e: EscrowEvent, st': Store)
    requires ApplyEvent(st, b, log, e) == Done(st')
    requires e.TradeLocked? || NextStatus(e).Some?
    ensures e.trade in st'.trades && st'.trades == st.trades[e.trade := st'.trades[e.trade]]
    ensures st'.trades[e.trade].status == if e.TradeLocked? then Locked else NextStatus(e).value
    ensures st'.records == st.records[KeyFor(log, e) := RecordFor(b, log, e)]
  {
  }

  /** A projected lifecycle event, or a lock, puts its trade in one bucket and leaves the others. */
  lemma BucketsAfter(st: Store, b: Block, log: RawLog, e: EscrowEvent, st': Store)
    requires Fresh(st, b, log, e) && ApplyEvent(st, b, log, e) == Done(st')
    requires e.TradeLocked? || NextStatus(e).Some?
    ensures Buckets(st')
         == Buckets(st)[e.trade := if e.TradeLocked? then BLocked else BucketFor(NextStatus(e).value, Cancels(e))]
  {
    var k, r := KeyFor(log, e), RecordFor(b, log, e);
    Written(st, b, log, e, st');
    BucketsWith(st, st', e.trade, st'.trades[e.trade], k, r);
    if Terminal(e) {
      NewestTerminalDecides(st.records, k, r, e.trade);
    }
  }

  lemma BucketsUntouched(st: Store, b: Block, log: RawLog, e: EscrowEvent, st': Store)
    requires Fresh(st, b, log, e) && ApplyEvent(st, b, log, e) == Done(st')
    requires !e.TradeLocked? && NextStatus(e).None?
    ensures Buckets(st') == Buckets(st)
    ensures SnapshotOf(st').counters == SnapshotOf(st).counters
  {
    var k, r := KeyFor(log, e), RecordFor(b, log, e);
    assert st'.records == st.records[k := r];
    forall id | id in st'.trades ensures id in st.trades && BucketOf(st', id) == BucketOf(st, id) {
      OtherTradesKeepTheirEnd(st.records, k, r, id);
    }
  }

  // ---------------------------------------------------------------- one log

  lemma LifecycleCounts(st: Store, b: Block, log: RawLog, e: EscrowEvent)
    requires NextStatus(e).Some? && log.txHash.Some? && e.trade in st.trades
    ensures var counted := CountersAfter(e, st.trades[e.trade].status, NextStatus(e).value, SnapshotOf(st).counters);
            var r := ApplyEvent(st, b, log, e);
            && (r.Done? <==> counted.Success?)
            && (r.Done? ==> SnapshotOf(r.store).counters == counted.value)
  {
  }

  lemma CountsExactly(m: map<TradeId, Bucket>, id: TradeId, prev: TradeStatus, e: EscrowEvent, cancelled: bool)
    requires NextStatus(e).Some? && id in m && m[id] == BucketFor(prev, cancelled)
    ensures CountersAfter(e, prev, NextStatus(e).value, CountersFor(m))
         == Success(CountersFor(m[id := BucketFor(NextStatus(e).value, Cancels(e))]))
       <==> m[id] != BCancelled
  {
    if m[id] == BCancelled {
      LeavingCancelledGoesWrong(m, id, NextStatus(e).value);
    } else if Cancels(e) {
      CancellationMoves(m, id, prev);
    } else {
      TransitionMoves(m, id, prev, NextStatus(e).value);
    }
  }

  lemma LifecycleExact(st: Store, b: Block, log: RawLog, e: EscrowEvent)
    requires Consistent(st) && Fresh(st, b, log, e)
    requires NextStatus(e).Some? && log.txHash.Some? && e.trade in st.trades
    ensures var r := ApplyEvent(st, b, log, e); Benign(st, e) <==> r.Done? && Consistent(r.store)
  {
    LifecycleCounts(st, b, log, e);
    CountsExactly(Buckets(st), e.trade, st.trades[e.trade].status, e, EndedByCancellation(st.records, e.trade));
    var r := ApplyEvent(st, b, log, e);
    if r.Done? {
      BucketsAfter(st, b, log, e, r.store);
    }
  }

  /**
   Exactly when a projected log keeps the counters equal to a rebuild: a lock of a new trade, a
   lifecycle event of a trade not in the cancelled bucket, or any event that only leaves a record.
   */
  lemma CountersKeptExactly(st: Store, b: Block, log: RawLog, e: EscrowEvent)
    requires Consistent(st) && Fresh(st, b, log, e) && ApplyEvent(st, b, log, e).Done?
    ensures Consistent(ApplyEvent(st, b, log, e).store) <==> Benign(st, e)
  {
    var st' := ApplyEvent(st, b, log, e).store;
    if NextStatus(e).Some? {
      LifecycleExact(st, b, log, e);
    } else if e.TradeLocked? {
      BucketsAfter(st, b, log, e, st');
      CreationInserts(Buckets(st), e.trade);
    } else {
      BucketsUntouched(st, b, log, e, st');
    }
  }

  /** With matching counters and a benign event the only thing a handler can miss is a parent row: never a counter. */
  lemma BenignNeverUnderflows(st: Store, b: Block, log: RawLog, e: EscrowEvent)
    requires Consistent(st) && Fresh(st, b, log, e) && Benign(st, e) && log.txHash.Some?
    requires TradeOf(e).Some? && !e.TradeLocked? ==> TradeOf(e).value in st.trades
    requires e.ProposalApproved? || e.ProposalExecuted? || e.ProposalCancelled? ==> ProposalOf(e).value in st.proposals
    ensures ApplyEvent(st, b, log, e).Done?
  {
    if NextStatus(e).Some? {
      LifecycleExact(st, b, log, e);
    }
  }

  // ---------------------------------------------------------------- whole chains

  predicate At(chain: seq<Block>, i: int, j: int) { 0 <= i < |chain| && 0 <= j < |chain[i].logs| }

  function Place(chain: seq<Block>, i: int, j: int): Position
    requires At(chain, i, j)
  {
    var log := chain[i].logs[j];
    Position(chain[i].height, log.transactionIndex, log.logIndex)
  }

  predicate Earlier(i: int, j: int, i': int, j': int) { i < i' || (i == i' && j < j') }

  /** Logs come in chain order, and no two share transaction and log index. */
  ghost predicate ChainOk(chain: seq<Block>) {
    forall i, j, i', j' | At(chain, i, j) && At(chain, i', j') && Earlier(i, j, i', j') ::
      && After(Place(chain, i', j'), Place(chain, i, j))
      && !SameIdentity(chain[i].logs[j], chain[i'].logs[j'])
  }

  predicate SameIdentity(a: RawLog, b: RawLog) {
    a.txHash.Some? && b.txHash.Some? && a.txHash == b.txHash && a.logIndex == b.logIndex
  }

  const EMPTY_STORE := Store(map[], map[], map[], None)

  /** A stored record came from the log at `(i, j)`. */
  predicate From(chain: seq<Block>, i: int, j: int, k: RecordKey, r: Record)
    requires At(chain, i, j)
  {
    var log := chain[i].logs[j];
    log.txHash.Some? && k == KeyFor(log, r.event) && r.at == Place(chain, i, j)
  }

  /** Every record of the store came from a log before `(i, j)`. */
  ghost predicate Upto(chain: seq<Block>, st: Store, i: int, j: int) {
    forall k | k in st.records ::
      exists x, y :: At(chain, x, y) && Earlier(x, y, i, j) && From(chain, x, y, k, st.records[k])
  }

  lemma FreshOnChain(chain: seq<Block>, st: Store, i: int, j: int, e: EscrowEvent)
    requires ChainOk(chain) && At(chain, i, j) && Upto(chain, st, i, j)
    ensures Fresh(st, chain[i], chain[i].logs[j], e)
  {
    var log := chain[i].logs[j];
    forall k | k in st.records
      ensures After(RecordFor(chain[i], log, e).at, st.records[k].at)
      ensures log.txHash.Some? ==> KeyFor(log, e) != k
    {
      var x, y :| At(chain, x, y) && Earlier(x, y, i, j) && From(chain, x, y, k, st.records[k]);
      var was := chain[x].logs[y];
      if log.txHash.Some? {
        EventIdInjective(log.txHash.value, log.logIndex, was.txHash.value, was.logIndex);
      }
    }
  }

  /** The projection of the first `i` blocks and of the first `j` logs of the next. */
  ghost function Prefix(build: Build, chain: seq<Block>, i: nat, j: nat): Outcome
    requires i < |chain| && j <= |chain[i].logs|
  {
    var before := RunBlocks(build, EMPTY_STORE, chain[..i]);
    if before.Halted? then before else RunLogs(build, before.store, chain[i], j)
  }

  /** Every decoded escrow log meets a store in which it is benign. */
  ghost predicate BenignChain(build: Build, chain: seq<Block>) {
    forall i, j | At(chain, i, j) :: BenignAt(build, chain, i, j)
  }

  ghost predicate BenignAt(build: Build, chain: seq<Block>, i: nat, j: nat)
    requires At(chain, i, j)
  {
    var log, before := chain[i].logs[j], Prefix(build, chain, i, j);
    before.Done? && OfEscrow(build, log) && build.decode(log).Known? ==> Benign(before.store, build.decode(log).event)
  }

  lemma {:induction false} PrefixUpto(build: Build, chain: seq<Block>, i: nat, j: nat)
    requires ChainOk(chain) && i < |chain| && j <= |chain[i].logs|
    ensures var r := Prefix(build, chain, i, j); r.Done? ==> Upto(chain, r.store, i, j)
    decreases i, j
  {
    var r := Prefix(build, chain, i, j);
    if r.Done? {
      if j > 0 {
        PrefixUpto(build, chain, i, j - 1);
        UptoStep(build, chain, Prefix(build, chain, i, j - 1).store, i, j - 1, r.store);
      } else if i > 0 {
        PrefixNextBlock(build, chain, i);
        PrefixUpto(build, chain, i - 1, |chain[i - 1].logs|);
        var was := Prefix(build, chain, i - 1, |chain[i - 1].logs|).store;
        forall k | k in r.store.records
          ensures exists x, y :: At(chain, x, y) && Earlier(x, y, i, 0) && From(chain, x, y, k, r.store.records[k])
        {
          var x, y :| At(chain, x, y) && Earlier(x, y, i - 1, |chain[i - 1].logs|) && From(chain, x, y, k, was.records[k]);
          assert Earlier(x, y, i, 0);
        }
      }
    }
  }

  lemma PrefixNextBlock(build: Build, chain: seq<Block>, i: nat)
    requires 0 < i < |chain|
    ensures var was := Prefix(build, chain, i - 1, |chain[i - 1].logs|);
            Prefix(build, chain, i, 0) == if was.Halted? then was else Done(ApplyHeader(was.store, chain[i]))
  {
    assert chain[..i][..i - 1] == chain[..i - 1];
  }

  lemma UptoStep(build: Build, chain: seq<Block>, st: Store, i: nat, j: nat, st': Store)
    requires At(chain, i, j) && Upto(chain, st, i, j)
    requires ApplyLog(build, st, chain[i], chain[i].logs[j]) == Done(st')
    ensures Upto(chain, st', i, j + 1)
  {
    var log := chain[i].logs[j];
    forall k | k in st'.records
      ensures exists x, y :: At(chain, x, y) && Earlier(x, y, i, j + 1) && From(chain, x, y, k, st'.records[k])
    {
      if OfEscrow(build, log) && k == KeyFor(log, build.decode(log).event) {
        assert From(chain, i, j, k, st'.records[k]) && Earlier(i, j, i, j + 1);
      } else {
        var x, y :| At(chain, x, y) && Earlier(x, y, i, j) && From(chain, x, y, k, st.records[k]);
        assert Earlier(x, y, i, j + 1);
      }
    }
  }

  lemma HeaderKeeps(st: Store, b: Block)
    requires Consistent(st)
    ensures Consistent(ApplyHeader(st, b))
  {
    assert Buckets(ApplyHeader(st, b)) == Buckets(st);
  }

  /** On a benign chain the counters match a rebuild after every log. */
  lemma {:induction false} BenignChainStaysConsistent(build: Build, chain: seq<Block>, i: nat, j: nat)
    requires ChainOk(chain) && i < |chain| && j <= |chain[i].logs|
    requires BenignChain(build, chain)
    ensures var r := Prefix(build, chain, i, j); r.Done? ==> Consistent(r.store)
    decreases i, j
  {
    var r := Prefix(build, chain, i, j);
    if r.Done? {
      if j > 0 {
        BenignChainStaysConsistent(build, chain, i, j - 1);
        assert BenignAt(build, chain, i, j - 1);
        FirstBadLogBreaksTheCounters(build, chain, i, j - 1);
      } else if i > 0 {
        PrefixNextBlock(build, chain, i);
        BenignChainStaysConsistent(build, chain, i - 1, |chain[i - 1].logs|);
        HeaderKeeps(Prefix(build, chain, i - 1, |chain[i - 1].logs|).store, chain[i]);
      } else {
        assert chain[..0] == [];
        HeaderKeeps(EMPTY_STORE, chain[0]);
      }
    }
  }

  /** Conversely, the first log that is not benign is where the counters stop matching. */
  lemma FirstBadLogBreaksTheCounters(build: Build, chain: seq<Block>, i: nat, j: nat)
    requires ChainOk(chain) && At(chain, i, j)
    requires var r := Prefix(build, chain, i, j); r.Done? && Consistent(r.store)
    requires Prefix(build, chain, i, j + 1).Done?
    ensures Consistent(Prefix(build, chain, i, j + 1).store) <==> BenignAt(build, chain, i, j)
  {
    var was, log := Prefix(build, chain, i, j).store, chain[i].logs[j];
    if OfEscrow(build, log) {
      PrefixUpto(build, chain, i, j);
      FreshOnChain(chain, was, i, j, build.decode(log).event);
      CountersKeptExactly(was, chain[i], log, build.decode(log).event);
    }
  }

  /** Projecting a lock a second time, as a rewind over committed blocks does, always miscounts. */
  lemma ReplayedLockMiscounts(st: Store, b: Block, log: RawLog, e: EscrowEvent)
    requires Consistent(st) && e.TradeLocked? && e.trade in st.trades && log.txHash.Some?
    ensures var r := ApplyEvent(st, b, log, e); r.Done? && !Consistent(r.store)
  {
    var st' := ApplyEvent(st, b, log, e).store;
    assert Buckets(st).Keys == st.trades.Keys;
    assert Buckets(st').Keys == st'.trades.Keys == st.trades.Keys;
    assert SnapshotOf(st').counters.total == |st.trades| + 1;
  }

  /** Every consistent store's counters add up: each trade is in exactly one of the six. */
  lemma ConsistentAddsUp(st: Store)
    requires Consistent(st)
    ensures ShareSum(SnapshotOf(st).counters) == SnapshotOf(st).counters.total == |st.trades|
  {
    SharesSumToTotal(Buckets(st));
    assert Buckets(st).Keys == st.trades.Keys;
  }
}
