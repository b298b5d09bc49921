/**
 What the projection leaves in the store, told by the events alone: every column of a trade, a
 proposal, an event record and the snapshot is what the last event that sets it says.
 */
module IndexerHistory {
  import opened Common
  import opened IndexerCounters
  import opened IndexerProjection
  import opened Text

  /** A decoded escrow log and the block it came in. */
  datatype Entry = Entry(event: EscrowEvent, block: nat, at: int, log: RawLog)

  ghost function EntryOf(build: Build, b: Block, log: RawLog): seq<Entry> {
    if Lower(log.address) == build.escrow && build.decode(log).Known? then
      [Entry(build.decode(log).event, b.height, b.timestamp, log)]
    else []
  }

  ghost function BlockHistory(build: Build, b: Block, n: nat): seq<Entry>
    requires n <= |b.logs|
  {
    if n == 0 then [] else BlockHistory(build, b, n - 1) + EntryOf(build, b, b.logs[n - 1])
  }

  /** The decoded escrow logs in chain order. */
  ghost function History(build: Build, blocks: seq<Block>): seq<Entry> {
    if blocks == [] then []
    else
      var last := blocks[|blocks| - 1];
      History(build, blocks[..|blocks| - 1]) + BlockHistory(build, last, |last.logs|)
  }

  // ---------------------------------------------------------------- columns

  datatype Field =
    | Status(id: TradeId)
    | Paused(id: TradeId)
    | Arrival(id: TradeId)
    | Deal(id: TradeId)
    | Opening(key: ProposalKey)
    | Approvals(key: ProposalKey)
    | ExecutedFlag(key: ProposalKey)
    | CancelledFlag(key: ProposalKey)
    | EventRecord(record: RecordKey)
    | LastTradeEvent

  datatype Value =
    | VStatus(status: TradeStatus)
    | VFlag(flag: bool)
    | VTime(time: Option<int>)
    | VDeal(terms: Terms, net: nat, support: nat, createdAt: int)
    | VOpening(trade: Option<TradeId>, details: string, openedAt: int, expiresAt: int)
    | VCount(count: nat)
    | VRecord(row: Record)

  ghost function Read(f: Field, st: Store): Option<Value> {
    match f
    case Status(id) => if id in st.trades then Some(VStatus(st.trades[id].status)) else None
    case Paused(id) => if id in st.trades then Some(VFlag(st.trades[id].paused)) else None
    case Arrival(id) => if id in st.trades then Some(VTime(st.trades[id].arrivedAt)) else None
    case Deal(id) =>
      if id in st.trades then
        var t := st.trades[id]; Some(VDeal(t.terms, t.feeNet, t.supportFee, t.createdAt))
      else None
    case Opening(k) =>
      if k in st.proposals then
        var p := st.proposals[k]; Some(VOpening(p.trade, p.details, p.createdAt, p.expiresAt))
      else None
    case Approvals(k) => if k in st.proposals then Some(VCount(st.proposals[k].approvalCount)) else None
    case ExecutedFlag(k) => if k in st.proposals then Some(VFlag(st.proposals[k].executed)) else None
    case CancelledFlag(k) => if k in st.proposals then Some(VFlag(st.proposals[k].cancelled)) else None
    case EventRecord(k) => if k in st.records then Some(VRecord(st.records[k])) else None
    case LastTradeEvent => Some(VTime(SnapshotOf(st).lastTradeEventAt))
  }

  // ---------------------------------------------------------------- what an event says

  /** The event opens the proposal. */
  predicate Opens(e: EscrowEvent, k: ProposalKey) {
    || (e.DisputeSolutionProposed? && k == ProposalKey(Dispute, e.proposal))
    || (e.ProposalOpened? && k == ProposalKey(e.family, e.proposal))
  }

  /** The event moves the trade along its lifecycle. */
  predicate Moves(e: EscrowEvent, id: TradeId) {
    && (e.TradeLocked? || e.FundsReleasedStage1? || e.InspectionAvailable? || e.DisputeOpenedByBuyer?
        || e.FinalTrancheReleased? || e.TradeCancelledAfterLockTimeout? || e.InTransitTimeoutRefunded? || e.DisputePayout?)
    && e.trade == id
  }

  /** The table an event is recorded in. */
  predicate GoesTo(e: EscrowEvent, t: Table) {
    if e.PlainRecord? then t == e.table
    else if e.DisputeSolutionProposed? then t == DisputeEvents
    else if e.ProposalOpened? || e.ProposalApproved? || e.ProposalExecuted? || e.ProposalCancelled? then
      && (e.family == Dispute <==> t == DisputeEvents) && (e.family == Oracle <==> t == OracleEvents)
      && (e.family == Admin <==> t == AdminEvents)
    else t == TradeEvents
  }

  predicate Sets(f: Field, x: Entry) {
    var e := x.event;
    match f
    case Status(id) => Moves(e, id)
    case Paused(id) => (e.TradeLocked? || e.TradePaused? || e.TradeUnpaused?) && e.trade == id
    case Arrival(id) => (e.TradeLocked? || e.InspectionAvailable?) && e.trade == id
    case Deal(id) => e.TradeLocked? && e.trade == id
    case Opening(k) => Opens(e, k)
    case Approvals(k) => Opens(e, k) || (e.ProposalApproved? && k == ProposalKey(e.family, e.proposal))
    case ExecutedFlag(k) => Opens(e, k) || (e.ProposalExecuted? && k == ProposalKey(e.family, e.proposal))
    case CancelledFlag(k) => Opens(e, k) || (e.ProposalCancelled? && k == ProposalKey(e.family, e.proposal))
    case EventRecord(k) =>
      x.log.txHash.Some? && k.id.text == x.log.txHash.value + "-" + Decimal(x.log.logIndex) && GoesTo(e, k.table)
    case LastTradeEvent =>
      !(e.DisputeSolutionProposed? || e.ProposalOpened? || e.ProposalApproved? || e.ProposalExecuted?
        || e.ProposalCancelled? || e.PlainRecord?)
  }

  /** Locked, in transit, arrived, frozen, closed: by the event alone. */
  predicate StatusSaid(e: EscrowEvent, s: TradeStatus) {
    && (e.TradeLocked? ==> s == Locked)
    && (e.FundsReleasedStage1? ==> s == InTransit)
    && (e.InspectionAvailable? ==> s == ArrivalConfirmed)
    && (e.DisputeOpenedByBuyer? ==> s == Frozen)
    && (e.FinalTrancheReleased? || e.TradeCancelledAfterLockTimeout? || e.InTransitTimeoutRefunded? || e.DisputePayout?
        ==> s == Closed)
  }

  /** The terms as locked, with both parties in lower case and four units of the fee, at most, for support. */
  predicate DealSaid(x: Entry, v: Value)
    requires x.event.TradeLocked?
  {
    var t := x.event.terms;
    && v.VDeal? && v.createdAt == x.at
    && v.terms == t.(buyer := Lower(t.buyer), supplier := Lower(t.supplier))
    && v.support == (if t.platformFees < 4_000_000 then t.platformFees else 4_000_000)
    && v.net + v.support == t.platformFees
  }

  predicate Says(f: Field, x: Entry, v: Value)
    requires Sets(f, x)
  {
    var e := x.event;
    match f
    case Status(id) => v.VStatus? && StatusSaid(e, v.status)
    case Paused(id) => v == VFlag(e.TradePaused?)
    case Arrival(id) => v == VTime(if e.InspectionAvailable? then Some(1000 * e.availableAt) else None)
    case Deal(id) => DealSaid(x, v)
    case Opening(k) =>
      v == VOpening(if e.DisputeSolutionProposed? then Some(e.trade) else None, e.details, x.at, x.at + 7 * 24 * 3_600_000)
    case Approvals(k) => v == VCount(if e.ProposalApproved? then e.count else 1)
    case ExecutedFlag(k) => v == VFlag(e.ProposalExecuted?)
    case CancelledFlag(k) => v == VFlag(e.ProposalCancelled?)
    case EventRecord(k) => v == VRecord(Record(e, Position(x.block, x.log.transactionIndex, x.log.logIndex), x.at))
    case LastTradeEvent => v == VTime(Some(x.at))
  }

  // ---------------------------------------------------------------- the last event decides

  ghost predicate LastSetting(h: seq<Entry>, f: Field, i: nat) {
    i < |h| && Sets(f, h[i]) && forall j | i < j < |h| :: !Sets(f, h[j])
  }

  /** The last event that sets the column decides it; if none does, it is what it was. */
  ghost predicate Decides(h: seq<Entry>, f: Field, was: Option<Value>, now': Option<Value>) {
    && (forall i: nat | LastSetting(h, f, i) :: now'.Some? && Says(f, h[i], now'.value))
    && ((forall i | 0 <= i < |h| :: !Sets(f, h[i])) ==> now' == was)
  }

  lemma DecidesPush(h: seq<Entry>, x: Entry, f: Field, was: Option<Value>, mid: Option<Value>, now': Option<Value>)
    requires Decides(h, f, was, mid)
    requires if Sets(f, x) then now'.Some? && Says(f, x, now'.value) else now' == mid
    ensures Decides(h + [x], f, was, now')
  {
    var longer := h + [x];
    assert longer[|h|] == x;
    forall i: nat | LastSetting(longer, f, i) ensures now'.Some? && Says(f, longer[i], now'.value) {
      if i < |h| {
        assert forall j | i < j < |h| :: longer[j] == h[j];
        assert LastSetting(h, f, i);
      }
    }
    if forall i | 0 <= i < |longer| :: !Sets(f, longer[i]) {
      forall i | 0 <= i < |h| ensures !Sets(f, h[i]) { assert longer[i] == h[i]; }
    }
  }

  /** One event sets exactly the columns it names, to what it says. */
  ghost predicate Effect(st: Store, x: Entry, st': Store, f: Field) {
    if Sets(f, x) then Read(f, st').Some? && Says(f, x, Read(f, st').value) else Read(f, st') == Read(f, st)
  }

  lemma EventOnTrade(st: Store, b: Block, log: RawLog, e: EscrowEvent, st': Store, f: Field)
    requires ApplyEvent(st, b, log, e) == Done(st') && (f.Status? || f.Paused? || f.Arrival? || f.Deal?)
    ensures Effect(st, Entry(e, b.height, b.timestamp, log), st', f)
  {
  }

  lemma EventOnProposal(st: Store, b: Block, log: RawLog, e: EscrowEvent, st': Store, f: Field)
    requires ApplyEvent(st, b, log, e) == Done(st')
    requires f.Opening? || f.Approvals? || f.ExecutedFlag? || f.CancelledFlag?
    ensures Effect(st, Entry(e, b.height, b.timestamp, log), st', f)
  {
  }

  lemma EventOnRecord(st: Store, b: Block, log: RawLog, e: EscrowEvent, st': Store, f: Field)
    requires ApplyEvent(st, b, log, e) == Done(st') && (f.EventRecord? || f.LastTradeEvent?)
    ensures Effect(st, Entry(e, b.height, b.timestamp, log), st', f)
  {
  }

  lemma EventEffect(st: Store, b: Block, log: RawLog, e: EscrowEvent, st': Store, f: Field)
    requires ApplyEvent(st, b, log, e) == Done(st')
    ensures Effect(st, Entry(e, b.height, b.timestamp, log), st', f)
  {
    match f
    case EventRecord(_) => EventOnRecord(st, b, log, e, st', f);
    case LastTradeEvent => EventOnRecord(st, b, log, e, st', f);
    case Opening(_) => EventOnProposal(st, b, log, e, st', f);
    case Approvals(_) => EventOnProposal(st, b, log, e, st', f);
    case ExecutedFlag(_) => EventOnProposal(st, b, log, e, st', f);
    case CancelledFlag(_) => EventOnProposal(st, b, log, e, st', f);
    case _ => EventOnTrade(st, b, log, e, st', f);
  }

  lemma HeaderKeeps(st: Store, b: Block, f: Field)
    ensures Read(f, ApplyHeader(st, b)) == Read(f, st)
  {
  }

  lemma LogDecides(build: Build, h: seq<Entry>, before: Store, b: Block, log: RawLog, f: Field,
                   was: Option<Value>)
    requires OfEscrow(build, log) && ApplyLog(build, before, b, log).Done? && Decides(h, f, was, Read(f, before))
    ensures build.decode(log).Known?
    ensures Decides(h + [Entry(build.decode(log).event, b.height, b.timestamp, log)], f, was,
                    Read(f, ApplyLog(build, before, b, log).store))
  {
    var e, after := build.decode(log).event, ApplyLog(build, before, b, log).store;
    EventEffect(before, b, log, e, after, f);
    DecidesPush(h, Entry(e, b.height, b.timestamp, log), f, was, Read(f, before), Read(f, after));
  }

  lemma HistoryGrows(build: Build, h: seq<Entry>, b: Block, n: nat)
    requires 0 < n <= |b.logs| && (OfEscrow(build, b.logs[n - 1]) ==> build.decode(b.logs[n - 1]).Known?)
    ensures var log, prior, now' := b.logs[n - 1], h + BlockHistory(build, b, n - 1), h + BlockHistory(build, b, n);
            if OfEscrow(build, log)
            then now' == prior + [Entry(build.decode(log).event, b.height, b.timestamp, log)]
            else now' == prior
  {
  }

  lemma {:induction false} LogsDecide(build: Build, h: seq<Entry>, st: Store, b: Block, n: nat, f: Field, was: Option<Value>)
    requires n <= |b.logs| && RunLogs(build, st, b, n).Done? && Decides(h, f, was, Read(f, st))
    ensures Decides(h + BlockHistory(build, b, n), f, was, Read(f, RunLogs(build, st, b, n).store))
  {
    if n == 0 {
      HeaderKeeps(st, b, f);
      assert h + BlockHistory(build, b, 0) == h;
    } else {
      var log, before := b.logs[n - 1], RunLogs(build, st, b, n - 1).store;
      LogsDecide(build, h, st, b, n - 1, f, was);
      if OfEscrow(build, log) {
        LogDecides(build, h + BlockHistory(build, b, n - 1), before, b, log, f, was);
      }
      HistoryGrows(build, h, b, n);
    }
  }

  /**
   Over every stretch of blocks that is projected to its end, and so over every finished batch: each
   column is what the last event that sets it says, and what it was before where none does.
   */
  lemma {:induction false} HistoryDecides(build: Build, st: Store, blocks: seq<Block>, f: Field)
    requires RunBlocks(build, st, blocks).Done?
    ensures Decides(History(build, blocks), f, Read(f, st), Read(f, RunBlocks(build, st, blocks).store))
    decreases blocks
  {
    if blocks != [] {
      var init, last := blocks[..|blocks| - 1], blocks[|blocks| - 1];
      HistoryDecides(build, st, init, f);
      LogsDecide(build, History(build, init), RunBlocks(build, st, init).store, last, |last.logs|, f, Read(f, st));
    }
  }

  /** A trade's status is decided by its last lifecycle event: locked, in transit, arrived, frozen or closed. */
  lemma StatusIsTheLast(build: Build, st: Store, blocks: seq<Block>, id: TradeId, i: nat)
    requires RunBlocks(build, st, blocks).Done?
    requires var h := History(build, blocks);
             i < |h| && Moves(h[i].event, id) && forall j | i < j < |h| :: !Moves(h[j].event, id)
    ensures var st', e := RunBlocks(build, st, blocks).store, History(build, blocks)[i].event;
            && id in st'.trades
            && (e.TradeLocked? ==> st'.trades[id].status == Locked)
            && (e.FundsReleasedStage1? ==> st'.trades[id].status == InTransit)
            && (e.InspectionAvailable? ==> st'.trades[id].status == ArrivalConfirmed)
            && (e.DisputeOpenedByBuyer? ==> st'.trades[id].status == Frozen)
            && (e.FinalTrancheReleased? ==> st'.trades[id].status == Closed)
            && (e.TradeCancelledAfterLockTimeout? ==> st'.trades[id].status == Closed)
            && (e.InTransitTimeoutRefunded? ==> st'.trades[id].status == Closed)
            && (e.DisputePayout? ==> st'.trades[id].status == Closed)
  {
    var f, h := Status(id), History(build, blocks);
    HistoryDecides(build, st, blocks, f);
    forall j | i < j < |h| ensures !Sets(f, h[j]) {}
    assert LastSetting(h, f, i);
  }

  /** Trades and proposals are those that were there and those that were opened; none disappears. */
  lemma {:induction false} NothingElseAppears(build: Build, st: Store, blocks: seq<Block>, id: TradeId, k: ProposalKey)
    requires RunBlocks(build, st, blocks).Done?
    ensures var h, st' := History(build, blocks), RunBlocks(build, st, blocks).store;
            && (id in st'.trades <==> id in st.trades || Locks(h, id))
            && (k in st'.proposals <==> k in st.proposals || OpensIn(h, k))
    decreases blocks
  {
    if blocks != [] {
      var init, last := blocks[..|blocks| - 1], blocks[|blocks| - 1];
      NothingElseAppears(build, st, init, id, k);
      LogsAppear(build, RunBlocks(build, st, init).store, last, |last.logs|, id, k);
      Joined(History(build, init), BlockHistory(build, last, |last.logs|), id, k);
    }
  }

  ghost predicate Locks(h: seq<Entry>, id: TradeId) {
    exists i | 0 <= i < |h| :: h[i].event.TradeLocked? && h[i].event.trade == id
  }

  ghost predicate OpensIn(h: seq<Entry>, k: ProposalKey) { exists i | 0 <= i < |h| :: Opens(h[i].event, k) }

  lemma Joined(a: seq<Entry>, b: seq<Entry>, id: TradeId, k: ProposalKey)
    ensures Locks(a + b, id) <==> Locks(a, id) || Locks(b, id)
    ensures OpensIn(a + b, k) <==> OpensIn(a, k) || OpensIn(b, k)
  {
    var all := a + b;
    forall i | 0 <= i < |a| ensures all[i] == a[i] {}
    forall i | 0 <= i < |b| ensures all[|a| + i] == b[i] {}
    if Locks(all, id) {
      var i :| 0 <= i < |all| && all[i].event.TradeLocked? && all[i].event.trade == id;
      assert if i < |a| then all[i] == a[i] else all[i] == b[i - |a|];
    }
    if OpensIn(all, k) {
      var i :| 0 <= i < |all| && Opens(all[i].event, k);
      assert if i < |a| then all[i] == a[i] else all[i] == b[i - |a|];
    }
  }

  lemma {:induction false} LogsAppear(build: Build, st: Store, b: Block, n: nat, id: TradeId, k: ProposalKey)
    requires n <= |b.logs| && RunLogs(build, st, b, n).Done?
    ensures var h, st' := BlockHistory(build, b, n), RunLogs(build, st, b, n).store;
            && (id in st'.trades <==> id in st.trades || Locks(h, id))
            && (k in st'.proposals <==> k in st.proposals || OpensIn(h, k))
  {
    if n > 0 {
      LogsAppear(build, st, b, n - 1, id, k);
      Joined(BlockHistory(build, b, n - 1), EntryOf(build, b, b.logs[n - 1]), id, k);
      var log, before := b.logs[n - 1], RunLogs(build, st, b, n - 1).store;
      if OfEscrow(build, log) {
        var e := build.decode(log).event;
        var x := Entry(e, b.height, b.timestamp, log);
        assert EntryOf(build, b, log) == [x];
        assert [x][0] == x;
      }
    }
  }

  /** The snapshot names the last block of the stretch. */
  lemma LastBlockIsNamed(build: Build, st: Store, blocks: seq<Block>)
    requires RunBlocks(build, st, blocks).Done? && blocks != []
    ensures var s, last := RunBlocks(build, st, blocks).store.snapshot, blocks[|blocks| - 1];
            s.Some? && s.value.lastProcessedBlock == last.height && s.value.lastIndexedAt == last.timestamp
  {
    var last := blocks[|blocks| - 1];
    LogsNameBlock(build, RunBlocks(build, st, blocks[..|blocks| - 1]).store, last, |last.logs|);
  }

  lemma {:induction false} LogsNameBlock(build: Build, st: Store, b: Block, n: nat)
    requires n <= |b.logs| && RunLogs(build, st, b, n).Done?
    ensures var s := RunLogs(build, st, b, n).store.snapshot;
            s.Some? && s.value.lastProcessedBlock == b.height && s.value.lastIndexedAt == b.timestamp
  {
    if n > 0 {
      LogsNameBlock(build, st, b, n - 1);
    }
  }
}
