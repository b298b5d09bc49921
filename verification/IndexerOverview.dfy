/**
 What the overview counters mean for the stored trades, by their statuses and the events that ended
 them, and exactly why a handler stops the batch.
 */
module IndexerOverview {
  import opened Common
  import opened IndexerCounters
  import opened IndexerProjection
  import opened IndexerConsistency
  import opened Text

  /** A terminal event of the trade that no other one follows in the chain. */
  ghost predicate EndedBy(st: Store, id: TradeId, k: RecordKey) {
    && k in st.records && Ends(k, st.records[k], id)
    && forall j | j in st.records && Ends(j, st.records[j], id) && j != k ::
         Later(st.records[k].at, k.id.text, st.records[j].at, j.id.text)
  }

  predicate Ends(k: RecordKey, r: Record, id: TradeId) {
    && k.table == TradeEvents
    && (r.event.FinalTrancheReleased? || r.event.TradeCancelledAfterLockTimeout? || r.event.InTransitTimeoutRefunded?
        || r.event.DisputePayout?)
    && r.event.trade == id
  }

  /** By block, transaction, log and id. */
  predicate Later(p: Position, a: string, q: Position, b: string) {
    || p.block > q.block
    || (p.block == q.block && p.transaction > q.transaction)
    || (p.block == q.block && p.transaction == q.transaction && p.log > q.log)
    || (p == q && Less(b, a))
  }

  /** A timeout before or in transit, or a dispute paid back. */
  predicate GivenBack(e: EscrowEvent) {
    e.TradeCancelledAfterLockTimeout? || e.InTransitTimeoutRefunded? || (e.DisputePayout? && e.refund)
  }

  ghost predicate Refunded(st: Store, id: TradeId) {
    exists k :: EndedBy(st, id, k) && GivenBack(st.records[k].event)
  }

  lemma LaterOrder(p: Position, a: string, q: Position, b: string)
    ensures Later(p, a, q, b) <==> Follows(p, EventId(a), q, EventId(b))
    ensures p != q || a != b ==> (Later(p, a, q, b) <==> !Later(q, b, p, a))
  {
    LessIsTotal(a, b);
  }

  lemma EndIsLatest(st: Store, id: TradeId, k: RecordKey)
    ensures EndedBy(st, id, k) <==> LatestTerminal(st.records, id, k)
  {
    if k in st.records && Ends(k, st.records[k], id) {
      LessIsTotal(k.id.text, k.id.text);
      forall j | j in st.records && Ends(j, st.records[j], id) && j != k
        ensures Later(st.records[k].at, k.id.text, st.records[j].at, j.id.text)
           <==> !Follows(st.records[j].at, j.id, st.records[k].at, k.id)
      {
        assert j.id.text != k.id.text;
        LaterOrder(st.records[j].at, j.id.text, st.records[k].at, k.id.text);
      }
    }
  }

  lemma RefundedIsCancellation(st: Store, id: TradeId)
    ensures Refunded(st, id) <==> EndedByCancellation(st.records, id)
  {
    forall k ensures EndedBy(st, id, k) <==> LatestTerminal(st.records, id, k) { EndIsLatest(st, id, k); }
    if EndedByCancellation(st.records, id) {
      var k :| LatestTerminal(st.records, id, k) && Cancels(st.records[k].event);
      assert EndedBy(st, id, k) && GivenBack(st.records[k].event);
    }
  }

  ghost function With(st: Store, s: TradeStatus): set<TradeId> { set id | id in st.trades && st.trades[id].status == s }

  lemma OpenBuckets(st: Store)
    ensures Members(Buckets(st), BLocked) == With(st, Locked) && Members(Buckets(st), BStage1) == With(st, InTransit)
    ensures Members(Buckets(st), BStage2) == With(st, ArrivalConfirmed) && Members(Buckets(st), BDisputed) == With(st, Frozen)
  {
  }

  lemma ClosedBuckets(st: Store)
    ensures Members(Buckets(st), BCancelled) == set id | id in With(st, Closed) && Refunded(st, id)
    ensures Members(Buckets(st), BCompleted) == set id | id in With(st, Closed) && !Refunded(st, id)
  {
    forall id | id in st.trades ensures Refunded(st, id) <==> EndedByCancellation(st.records, id) {
      RefundedIsCancellation(st, id);
    }
  }

  /**
   Counters that match a rebuild count the stored trades: all of them, those in each open status, and
   the closed ones apart by whether the event that ended them gave the money back.
   */
  lemma OverviewMeans(st: Store)
    requires Consistent(st)
    ensures var c := SnapshotOf(st).counters;
            && c.total == |st.trades| && c.locked == |With(st, Locked)| && c.stage1 == |With(st, InTransit)|
            && c.stage2 == |With(st, ArrivalConfirmed)| && c.disputed == |With(st, Frozen)|
            && c.cancelled == |set id | id in With(st, Closed) && Refunded(st, id)|
            && c.completed == |set id | id in With(st, Closed) && !Refunded(st, id)|
  {
    assert Buckets(st).Keys == st.trades.Keys;
    OpenBuckets(st);
    ClosedBuckets(st);
  }

  // ---------------------------------------------------------------- why a handler stops

  /** The event is about a trade or a proposal that is not stored. */
  predicate Parentless(st: Store, e: EscrowEvent) {
    match e
    case TradeLocked(_, _) => false
    case ProposalOpened(_, _, _) => false
    case PlainRecord(_, _) => false
    case ProposalApproved(f, p, _) => ProposalKey(f, p) !in st.proposals
    case ProposalExecuted(f, p) => ProposalKey(f, p) !in st.proposals
    case ProposalCancelled(f, p) => ProposalKey(f, p) !in st.proposals
    case _ => e.trade !in st.trades
  }

  /** How many the counters have in the status. */
  predicate NoneLeft(c: Counters, s: TradeStatus) {
    && (s == Locked ==> c.locked == 0) && (s == InTransit ==> c.stage1 == 0) && (s == ArrivalConfirmed ==> c.stage2 == 0)
    && (s == Frozen ==> c.disputed == 0) && (s == Closed ==> c.completed == 0)
  }

  /** The event takes its trade out of its status: a refund always, any other only into another status. */
  predicate Leaves(e: EscrowEvent, s: TradeStatus) {
    || GivenBack(e)
    || (e.FundsReleasedStage1? && s != InTransit)
    || (e.InspectionAvailable? && s != ArrivalConfirmed)
    || (e.DisputeOpenedByBuyer? && s != Frozen)
    || ((e.FinalTrancheReleased? || e.DisputePayout?) && s != Closed)
  }

  /**
   A decoded log stops the batch exactly if its transaction is missing, its parent row is missing, or it
   takes a trade out of a status of which the counters have none.
   */
  lemma StopsExactly(st: Store, b: Block, log: RawLog, e: EscrowEvent)
    ensures ApplyEvent(st, b, log, e).Halted?
       <==> || log.txHash.None? || Parentless(st, e)
            || (TradeOf(e).Some? && !e.TradeLocked? && Leaves(e, st.trades[e.trade].status)
                && NoneLeft(SnapshotOf(st).counters, st.trades[e.trade].status))
  {
  }

  /** What stops a batch: a log of the escrow that cannot be decoded, is of an unknown kind, or whose handler stops. */
  lemma LogStopsExactly(build: Build, st: Store, b: Block, log: RawLog)
    ensures var r := ApplyLog(build, st, b, log);
            && (r.Halted? ==> r.height == b.height && r.log == log && Lower(log.address) == build.escrow)
            && (r.Halted? && r.reason == UndecodableLog <==> Lower(log.address) == build.escrow && build.decode(log).Undecodable?)
            && (r.Halted? && r.reason == UnknownEvent <==>
                  Lower(log.address) == build.escrow && build.decode(log).Unknown? && log.txHash.Some?)
            && (Lower(log.address) != build.escrow ==> r == Done(st))
            && (Lower(log.address) == build.escrow && build.decode(log).Known? ==>
                  r == ApplyEvent(st, b, log, build.decode(log).event))
  {
  }
}
