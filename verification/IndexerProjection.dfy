/**
 The indexer's projection of escrow logs into trades, governance proposals, event records and the
 overview snapshot. `RunBlocks` is the reference: one log at a time, straight against the store.
 `ProcessBatch` is what the indexer does: read-through caches filled while the logs go by, and one
 write at the end.
 */
module IndexerProjection {
  import opened Common
  import opened IndexerCounters
  import opened Text

  // ---------------------------------------------------------------- entities

  datatype Terms = Terms(
    buyer: string, supplier: string, total: nat, logistics: nat, platformFees: nat, firstTranche: nat,
    secondTranche: nat, ricardianHash: string)

  datatype Trade = Trade(
    terms: Terms, feeNet: nat, supportFee: nat, status: TradeStatus, createdAt: int, arrivedAt: Option<int>,
    paused: bool)

  datatype Family = Dispute | Oracle | Admin

  datatype ProposalKey = ProposalKey(family: Family, id: nat)

  datatype Proposal = Proposal(
    trade: Option<TradeId>, details: string, approvalCount: nat, executed: bool, cancelled: bool, createdAt: int,
    expiresAt: int)

  datatype Table = TradeEvents | DisputeEvents | OracleEvents | AdminEvents | SystemEvents

  datatype EventId = EventId(text: string)

  datatype RecordKey = RecordKey(table: Table, id: EventId)

  datatype Position = Position(block: nat, transaction: nat, log: nat)

  datatype Record = Record(event: EscrowEvent, at: Position, timestamp: int)

  datatype Snapshot = Snapshot(
    counters: Counters, lastProcessedBlock: nat, lastIndexedAt: int, lastTradeEventAt: Option<int>)

  datatype Store = Store(
    trades: map<TradeId, Trade>, proposals: map<ProposalKey, Proposal>, records: map<RecordKey, Record>,
    snapshot: Option<Snapshot>)

  /** A decoded escrow log; the events that only leave a record are grouped by what they need. */
  datatype EscrowEvent =
    | TradeLocked(trade: TradeId, terms: Terms)
    | FundsReleasedStage1(trade: TradeId)
    | InspectionAvailable(trade: TradeId, availableAt: int)
    | FinalTrancheReleased(trade: TradeId)
    | DisputeOpenedByBuyer(trade: TradeId)
    | TradeCancelledAfterLockTimeout(trade: TradeId)
    | InTransitTimeoutRefunded(trade: TradeId)
    | DisputePayout(trade: TradeId, refund: bool)
    | TradePaused(trade: TradeId)
    | TradeUnpaused(trade: TradeId)
    | TradeRecord(trade: TradeId, name: string)
    | DisputeSolutionProposed(proposal: nat, trade: TradeId, details: string)
    | ProposalOpened(family: Family, proposal: nat, details: string)
    | ProposalApproved(family: Family, proposal: nat, count: nat)
    | ProposalExecuted(family: Family, proposal: nat)
    | ProposalCancelled(family: Family, proposal: nat)
    | PlainRecord(table: Table, name: string)

  datatype RawLog = RawLog(
    address: string, txHash: Option<string>, transactionIndex: nat, logIndex: nat, data: string)

  datatype Block = Block(height: nat, timestamp: int, logs: seq<RawLog>)

  datatype Decoded = Undecodable | Unknown(name: string) | Known(event: EscrowEvent)

  datatype Reason = UndecodableLog | UnknownEvent | HandlerFailure

  datatype Outcome = Done(store: Store) | Halted(height: nat, log: RawLog, reason: Reason)

  /** What a running indexer is built with: the escrow address and the decoder of its ABI. */
  datatype Build = Build(escrow: string, decode: RawLog -> Decoded)

  // ---------------------------------------------------------------- event identity

  function BuildEvmEventId(txHash: string, logIndex: nat): EventId { EventId(txHash + "-" + Decimal(logIndex)) }

  /** No two logs share an event id unless they share transaction and log index. */
  lemma EventIdInjective(tx: string, i: nat, tx': string, i': nat)
    ensures BuildEvmEventId(tx, i) == BuildEvmEventId(tx', i') <==> tx == tx' && i == i'
  {
    if BuildEvmEventId(tx, i) == BuildEvmEventId(tx', i') {
      DecimalDigits(i);
      DecimalDigits(i');
      assert tx + "-" + Decimal(i) == tx' + "-" + Decimal(i');
      SeparatorThenDigits(tx, tx', '-', Decimal(i), Decimal(i'));
      DecimalInjective(i, i');
    }
  }

  // ---------------------------------------------------------------- one event

  const SETTLEMENT_SUPPORT_FEE := 4_000_000
  const PROPOSAL_TTL_MS := 604_800_000

  /** The fee is split without loss, and the net part is empty until the support fee is full. */
  function NewTrade(terms: Terms, now: int): (t: Trade)
    ensures t.feeNet + t.supportFee == terms.platformFees && t.supportFee <= SETTLEMENT_SUPPORT_FEE
    ensures t.feeNet > 0 ==> t.supportFee == SETTLEMENT_SUPPORT_FEE
  {
    var support := Min(terms.platformFees, SETTLEMENT_SUPPORT_FEE);
    Trade(terms.(buyer := Lower(terms.buyer), supplier := Lower(terms.supplier)), terms.platformFees - support, support,
          Locked, now, None, false)
  }

  function NewProposal(trade: Option<TradeId>, details: string, now: int): Proposal {
    Proposal(trade, details, 1, false, false, now, now + PROPOSAL_TTL_MS)
  }

  function TradeOf(e: EscrowEvent): Option<TradeId> {
    if e.ProposalOpened? || e.ProposalApproved? || e.ProposalExecuted? || e.ProposalCancelled? || e.PlainRecord? then None
    else Some(e.trade)
  }

  function ProposalOf(e: EscrowEvent): Option<ProposalKey> {
    match e
    case DisputeSolutionProposed(p, _, _) => Some(ProposalKey(Dispute, p))
    case ProposalOpened(f, p, _) => Some(ProposalKey(f, p))
    case ProposalApproved(f, p, _) => Some(ProposalKey(f, p))
    case ProposalExecuted(f, p) => Some(ProposalKey(f, p))
    case ProposalCancelled(f, p) => Some(ProposalKey(f, p))
    case _ => None
  }

  function TableOf(e: EscrowEvent): Table {
    match e
    case DisputeSolutionProposed(_, _, _) => DisputeEvents
    case ProposalOpened(f, _, _) => FamilyTable(f)
    case ProposalApproved(f, _, _) => FamilyTable(f)
    case ProposalExecuted(f, _) => FamilyTable(f)
    case ProposalCancelled(f, _) => FamilyTable(f)
    case PlainRecord(t, _) => t
    case _ => TradeEvents
  }

  function FamilyTable(f: Family): Table {
    match f
    case Dispute => DisputeEvents
    case Oracle => OracleEvents
    case Admin => AdminEvents
  }

  /** The status a lifecycle event moves its trade to. */
  function NextStatus(e: EscrowEvent): Option<TradeStatus> {
    match e
    case FundsReleasedStage1(_) => Some(InTransit)
    case InspectionAvailable(_, _) => Some(ArrivalConfirmed)
    case DisputeOpenedByBuyer(_) => Some(Frozen)
    case FinalTrancheReleased(_) => Some(Closed)
    case TradeCancelledAfterLockTimeout(_) => Some(Closed)
    case InTransitTimeoutRefunded(_) => Some(Closed)
    case DisputePayout(_, _) => Some(Closed)
    case _ => None
  }

  predicate Terminal(e: EscrowEvent) {
    e.FinalTrancheReleased? || e.TradeCancelledAfterLockTimeout? || e.InTransitTimeoutRefunded? || e.DisputePayout?
  }

  predicate Cancels(e: EscrowEvent) {
    e.TradeCancelledAfterLockTimeout? || e.InTransitTimeoutRefunded? || (e.DisputePayout? && e.refund)
  }

  function CountersAfter(e: EscrowEvent, prev: TradeStatus, next: TradeStatus, c: Counters): Result<Counters> {
    if Cancels(e) then ApplyTradeCancelled(prev, c) else ApplyTradeTransition(prev, next, c)
  }

  datatype Delta = Delta(trade: Option<Trade>, proposal: Option<Proposal>, snapshot: Snapshot)

  /** One handler: what it writes, given the parents it looked up. A missing parent or a counter underflow throws. */
  function Handle(e: EscrowEvent, trade: Option<Trade>, proposal: Option<Proposal>, s: Snapshot, now: int)
    : Option<Delta>
  {
    var touched := s.(lastTradeEventAt := Some(now));
    if e.TradeLocked? then
      Some(Delta(Some(NewTrade(e.terms, now)), None, touched.(counters := ApplyTradeCreated(Locked, s.counters))))
    else if e.PlainRecord? then
      Some(Delta(None, None, s))
    else if e.ProposalOpened? then
      Some(Delta(None, Some(NewProposal(None, e.details, now)), s))
    else if TradeOf(e).Some? then
      if trade.None? then None
      else if e.DisputeSolutionProposed? then
        Some(Delta(None, Some(NewProposal(Some(e.trade), e.details, now)), s))
      else if e.TradePaused? || e.TradeUnpaused? then
        Some(Delta(Some(trade.value.(paused := e.TradePaused?)), None, touched))
      else if e.TradeRecord? then
        Some(Delta(None, None, touched))
      else
        HandleLifecycle(e, trade.value, touched)
    else if proposal.None? then None
    else Some(Delta(None, Some(HandleProposal(e, proposal.value)), s))
  }

  function HandleLifecycle(e: EscrowEvent, trade: Trade, s: Snapshot): Option<Delta>
    requires NextStatus(e).Some?
  {
    match CountersAfter(e, trade.status, NextStatus(e).value, s.counters)
    case Failure(_) => None
    case Success(c) =>
      var arrivedAt := if e.InspectionAvailable? then Some(1000 * e.availableAt) else trade.arrivedAt;
      Some(Delta(Some(trade.(status := NextStatus(e).value, arrivedAt := arrivedAt)), None, s.(counters := c)))
  }

  function HandleProposal(e: EscrowEvent, p: Proposal): Proposal
    requires e.ProposalApproved? || e.ProposalExecuted? || e.ProposalCancelled?
  {
    if e.ProposalApproved? then p.(approvalCount := e.count)
    else if e.ProposalExecuted? then p.(executed := true)
    else p.(cancelled := true)
  }

  // ---------------------------------------------------------------- the reference: straight against the store

  function Find<K, V>(m: map<K, V>, k: Option<K>): Option<V> {
    if k.Some? && k.value in m then Some(m[k.value]) else None
  }

  function Put<K, V>(m: map<K, V>, k: Option<K>, v: Option<V>): map<K, V> {
    if k.Some? && v.Some? then m[k.value := v.value] else m
  }

  /** The stored snapshot, or one rebuilt from the stored trades and events. */
  ghost function SnapshotOf(st: Store): Snapshot {
    if st.snapshot.Some? then st.snapshot.value else Snapshot(CountersFor(Buckets(st)), 0, 0, None)
  }

  ghost function ApplyHeader(st: Store, b: Block): Store {
    st.(snapshot := Some(SnapshotOf(st).(lastProcessedBlock := b.height, lastIndexedAt := b.timestamp)))
  }

  function RecordFor(b: Block, log: RawLog, e: EscrowEvent): Record {
    Record(e, Position(b.height, log.transactionIndex, log.logIndex), b.timestamp)
  }

  function KeyFor(log: RawLog, e: EscrowEvent): RecordKey
    requires log.txHash.Some?
  {
    RecordKey(TableOf(e), BuildEvmEventId(log.txHash.value, log.logIndex))
  }

  predicate OfEscrow(build: Build, log: RawLog) { Lower(log.address) == build.escrow }

  ghost function ApplyEvent(st: Store, b: Block, log: RawLog, e: EscrowEvent): Outcome {
    if log.txHash.None? then Halted(b.height, log, HandlerFailure)
    else
      match Handle(e, Find(st.trades, TradeOf(e)), Find(st.proposals, ProposalOf(e)), SnapshotOf(st), b.timestamp)
      case None => Halted(b.height, log, HandlerFailure)
      case Some(d) =>
        Done(Store(Put(st.trades, TradeOf(e), d.trade), Put(st.proposals, ProposalOf(e), d.proposal),
                   st.records[KeyFor(log, e) := RecordFor(b, log, e)], Some(d.snapshot)))
  }

  ghost function ApplyLog(build: Build, st: Store, b: Block, log: RawLog): Outcome {
    if !OfEscrow(build, log) then Done(st)
    else
      match build.decode(log)
      case Undecodable => Halted(b.height, log, UndecodableLog)
      case Unknown(_) => Halted(b.height, log, if log.txHash.None? then HandlerFailure else UnknownEvent)
      case Known(e) => ApplyEvent(st, b, log, e)
  }

  /** The header of a block and its first `n` logs. */
  ghost function RunLogs(build: Build, st: Store, b: Block, n: nat): Outcome
    requires n <= |b.logs|
  {
    if n == 0 then Done(ApplyHeader(st, b))
    else
      var before := RunLogs(build, st, b, n - 1);
      if before.Halted? then before else ApplyLog(build, before.store, b, b.logs[n - 1])
  }

  ghost function RunBlocks(build: Build, st: Store, blocks: seq<Block>): Outcome {
    if blocks == [] then Done(st)
    else
      var before := RunBlocks(build, st, blocks[..|blocks| - 1]);
      var last := blocks[|blocks| - 1];
      if before.Halted? then before else RunLogs(build, before.store, last, |last.logs|)
  }

  // ---------------------------------------------------------------- what the counters are rebuilt from

  predicate After(p: Position, q: Position) {
    || p.block > q.block
    || (p.block == q.block && p.transaction > q.transaction)
    || (p.block == q.block && p.transaction == q.transaction && p.log > q.log)
  }

  /** Later in the chain, or at the same place with the greater id. */
  predicate Follows(p: Position, a: EventId, q: Position, b: EventId) {
    After(p, q) || (p == q && Less(b.text, a.text))
  }

  predicate TerminalOf(r: Record, id: TradeId) { Terminal(r.event) && r.event.trade == id }

  predicate TerminalRow(k: RecordKey, r: Record, id: TradeId) { k.table == TradeEvents && TerminalOf(r, id) }

  /** The stored terminal event of a trade that no other one follows. */
  ghost predicate LatestTerminal(records: map<RecordKey, Record>, id: TradeId, k: RecordKey) {
    && k in records && TerminalRow(k, records[k], id)
    && forall j | j in records && TerminalRow(j, records[j], id) :: !Follows(records[j].at, j.id, records[k].at, k.id)
  }

  ghost predicate EndedByCancellation(records: map<RecordKey, Record>, id: TradeId) {
    exists k :: LatestTerminal(records, id, k) && Cancels(records[k].event)
  }

  ghost function BucketOf(st: Store, id: TradeId): Bucket
    requires id in st.trades
  {
    BucketFor(st.trades[id].status, EndedByCancellation(st.records, id))
  }

  ghost function Buckets(st: Store): map<TradeId, Bucket> { map id | id in st.trades :: BucketOf(st, id) }
}
