/**
 `processBatch`: the caches of one batch, and the equivalence with the reference projection, however
 the chain is cut into batches.
 */
module IndexerBatch {
  import opened Common
  import opened IndexerCounters
  import opened IndexerProjection
  import opened Text

  // ---------------------------------------------------------------- rebuilding the snapshot

  /** Every row of a table, once, in some order. */
  method FindAll<K, V>(m: map<K, V>) returns (rows: seq<(K, V)>)
    ensures Lists(rows, m)
  {
    rows := [];
    var left := m.Keys;
    while left != {}
      invariant left <= m.Keys
      invariant forall i | 0 <= i < |rows| :: rows[i].0 in m && rows[i].0 !in left && m[rows[i].0] == rows[i].1
      invariant forall k | k in m && k !in left :: Holds(rows, k)
      invariant forall i, j | 0 <= i < j < |rows| :: rows[i].0 != rows[j].0
      decreases |left|
    {
      var k :| k in left;
      var before := rows;
      rows := rows + [(k, m[k])];
      left := left - {k};
      forall j | j in m && j !in left ensures Holds(rows, j) {
        if j == k {
          assert rows[|rows| - 1].0 == k;
        } else {
          var i :| 0 <= i < |before| && before[i].0 == j;
          assert rows[i].0 == j;
        }
      }
    }
  }

  ghost predicate Holds<K, V>(rows: seq<(K, V)>, k: K) { exists i :: 0 <= i < |rows| && rows[i].0 == k }

  ghost predicate Lists<K, V>(rows: seq<(K, V)>, m: map<K, V>) {
    && (forall i | 0 <= i < |rows| :: rows[i].0 in m && m[rows[i].0] == rows[i].1)
    && (forall k | k in m :: Holds(rows, k))
    && (forall i, j | 0 <= i < j < |rows| :: rows[i].0 != rows[j].0)
  }

  predicate RowFollows(a: (RecordKey, Record), b: (RecordKey, Record)) { Follows(a.1.at, a.0.id, b.1.at, b.0.id) }

  lemma RowFollowsOrder(a: (RecordKey, Record), b: (RecordKey, Record), c: (RecordKey, Record))
    ensures !RowFollows(a, a)
    ensures RowFollows(a, b) && RowFollows(b, c) ==> RowFollows(a, c)
  {
    LessIsTotal(a.0.id.text, a.0.id.text);
    if Less(b.0.id.text, a.0.id.text) && Less(c.0.id.text, b.0.id.text) {
      LessIsTransitive(c.0.id.text, b.0.id.text, a.0.id.text);
    }
  }

  /** The last terminal event of each trade that has one. */
  method LatestTerminalEventsByTradeId(events: seq<(RecordKey, Record)>)
    returns (latest: map<TradeId, (RecordKey, Record)>)
    ensures forall id :: id in latest <==> exists i :: 0 <= i < |events| && TerminalOf(events[i].1, id)
    ensures forall id | id in latest :: LatestAmong(events, id, latest[id])
  {
    latest := map[];
    for n := 0 to |events|
      invariant forall i | 0 <= i < n :: Terminal(events[i].1.event) ==> events[i].1.event.trade in latest
      invariant forall id | id in latest :: LatestAmong(events[..n], id, latest[id])
    {
      var e := events[n];
      var before := latest;
      if Terminal(e.1.event) && (e.1.event.trade !in latest || RowFollows(e, latest[e.1.event.trade])) {
        latest := latest[e.1.event.trade := e];
      }
      forall id | id in latest ensures LatestAmong(events[..n + 1], id, latest[id]) {
        LatestGrows(events, n, id, latest[id], id in before, if id in before then before[id] else latest[id]);
      }
    }
    assert events[..|events|] == events;
    forall id | id in latest ensures exists i :: 0 <= i < |events| && TerminalOf(events[i].1, id) {
      assert LatestAmong(events, id, latest[id]);
    }
  }

  ghost predicate LatestAmong(events: seq<(RecordKey, Record)>, id: TradeId, e: (RecordKey, Record)) {
    && (exists i :: 0 <= i < |events| && events[i] == e)
    && TerminalOf(e.1, id)
    && forall i | 0 <= i < |events| :: TerminalOf(events[i].1, id) ==> !RowFollows(events[i], e)
  }

  lemma LatestGrows(events: seq<(RecordKey, Record)>, n: nat, id: TradeId, e: (RecordKey, Record), had: bool,
                    was: (RecordKey, Record))
    requires n < |events|
    requires had ==> LatestAmong(events[..n], id, was)
    requires !had ==> forall i | 0 <= i < n :: !TerminalOf(events[i].1, id)
    requires if TerminalOf(events[n].1, id) && (!had || RowFollows(events[n], was)) then e == events[n] else had && e == was
    ensures LatestAmong(events[..n + 1], id, e)
  {
    var now := events[..n + 1];
    assert now[n] == events[n];
    forall i | 0 <= i < n ensures now[i] == events[..n][i] {}
    if had {
      var i :| 0 <= i < n && events[..n][i] == was;
      assert now[i] == was;
    }
    forall i | 0 <= i <= n && TerminalOf(now[i].1, id) ensures !RowFollows(now[i], e) {
      RowFollowsOrder(now[i], e, was);
    }
  }

  /** The rows of the trade event table. */
  function TradeRows(records: map<RecordKey, Record>): map<RecordKey, Record> {
    map k | k in records && k.table == TradeEvents :: records[k]
  }

  lemma CancellationFound(records: map<RecordKey, Record>, events: seq<(RecordKey, Record)>,
                          latest: map<TradeId, (RecordKey, Record)>, id: TradeId)
    requires Lists(events, TradeRows(records))
    requires id in latest <==> exists i :: 0 <= i < |events| && TerminalOf(events[i].1, id)
    requires id in latest ==> LatestAmong(events, id, latest[id])
    ensures EndedByCancellation(records, id) <==> id in latest && Cancels(latest[id].1.event)
  {
    if EndedByCancellation(records, id) {
      var k :| LatestTerminal(records, id, k) && Cancels(records[k].event);
      assert Holds(events, k);
      var i :| 0 <= i < |events| && events[i].0 == k;
      assert TerminalOf(events[i].1, id);
      var h := latest[id].0;
      assert TerminalRow(h, records[h], id) && records[h] == latest[id].1;
      assert !Follows(records[h].at, h.id, records[k].at, k.id) && !RowFollows(events[i], latest[id]);
      LessIsTotal(h.id.text, k.id.text);
      assert h == k;
    }
    if id in latest && Cancels(latest[id].1.event) {
      var k := latest[id].0;
      forall h | h in records && TerminalRow(h, records[h], id)
        ensures !Follows(records[h].at, h.id, records[k].at, k.id)
      {
        assert h in TradeRows(records) && Holds(events, h);
        var i :| 0 <= i < |events| && events[i].0 == h;
        assert !RowFollows(events[i], latest[id]);
      }
      assert LatestTerminal(records, id, k);
    }
  }

  lemma CancellationsFound(records: map<RecordKey, Record>, events: seq<(RecordKey, Record)>,
                           latest: map<TradeId, (RecordKey, Record)>)
    requires Lists(events, TradeRows(records))
    requires forall id :: id in latest <==> exists i :: 0 <= i < |events| && TerminalOf(events[i].1, id)
    requires forall id | id in latest :: LatestAmong(events, id, latest[id])
    ensures forall id :: EndedByCancellation(records, id) <==> id in latest && Cancels(latest[id].1.event)
  {
    forall id ensures EndedByCancellation(records, id) <==> id in latest && Cancels(latest[id].1.event) {
      CancellationFound(records, events, latest, id);
    }
  }

  /** The trades whose last terminal event is a cancellation. */
  method CancelledTrades(records: map<RecordKey, Record>) returns (ids: set<TradeId>)
    ensures forall id :: id in ids <==> EndedByCancellation(records, id)
  {
    var events := FindAll(TradeRows(records));
    var latest := LatestTerminalEventsByTradeId(events);
    CancellationsFound(records, events, latest);
    ids := set id | id in latest && Cancels(latest[id].1.event);
  }

  method RebuildCounters(st: Store) returns (c: Counters)
    ensures c == CountersFor(Buckets(st))
  {
    var cancelledIds := CancelledTrades(st.records);
    var trades := FindAll(st.trades);
    var statuses := seq(|trades|, i requires 0 <= i < |trades| => (trades[i].0, trades[i].1.status));
    c := BuildCountersFromExistingState(statuses, cancelledIds);
    RebuiltBuckets(st, trades, statuses, cancelledIds);
  }

  method GetOrLoadOverviewSnapshot(st: Store) returns (s: Snapshot)
    ensures s == SnapshotOf(st)
  {
    if st.snapshot.Some? { return st.snapshot.value; }
    var c := RebuildCounters(st);
    s := Snapshot(c, 0, 0, None);
  }

  lemma RebuiltBuckets(st: Store, trades: seq<(TradeId, Trade)>, statuses: seq<(TradeId, TradeStatus)>,
                       cancelledIds: set<TradeId>)
    requires Lists(trades, st.trades)
    requires |statuses| == |trades|
    requires forall i | 0 <= i < |trades| :: statuses[i] == (trades[i].0, trades[i].1.status)
    requires forall id :: EndedByCancellation(st.records, id) <==> id in cancelledIds
    ensures BucketMap(statuses, cancelledIds) == Buckets(st)
  {
    var m := BucketMap(statuses, cancelledIds);
    BucketMapKeys(statuses, cancelledIds);
    forall id ensures id in m <==> id in st.trades {
      if id in m {
        var i :| 0 <= i < |statuses| && statuses[i].0 == id;
        assert trades[i].0 in st.trades;
      }
      if id in st.trades {
        assert Holds(trades, id);
        var i :| 0 <= i < |trades| && trades[i].0 == id;
        assert statuses[i].0 in m;
      }
    }
    forall id | id in m ensures m[id] == BucketOf(st, id) {
      var i :| 0 <= i < |statuses| && statuses[i].0 == id;
      BucketMapAt(statuses, cancelledIds, i);
    }
  }

  lemma {:induction false} BucketMapAt(rows: seq<(TradeId, TradeStatus)>, cancelledIds: set<TradeId>, i: nat)
    requires i < |rows|
    requires forall i, j | 0 <= i < j < |rows| :: rows[i].0 != rows[j].0
    ensures rows[i].0 in BucketMap(rows, cancelledIds)
    ensures BucketMap(rows, cancelledIds)[rows[i].0] == BucketFor(rows[i].1, rows[i].0 in cancelledIds)
    decreases rows
  {
    if i < |rows| - 1 {
      BucketMapAt(rows[..|rows| - 1], cancelledIds, i);
    }
  }

  // ---------------------------------------------------------------- the caches of one batch

  function Upserted(m: map<RecordKey, Record>, rows: seq<(RecordKey, Record)>): map<RecordKey, Record> {
    if rows == [] then m
    else Upserted(m, rows[..|rows| - 1])[rows[|rows| - 1].0 := rows[|rows| - 1].1]
  }

  lemma UpsertedPush(m: map<RecordKey, Record>, rows: seq<(RecordKey, Record)>, row: (RecordKey, Record))
    ensures Upserted(m, rows + [row]) == Upserted(m, rows)[row.0 := row.1]
  {
    assert (rows + [row])[..|rows|] == rows;
  }

  class Batch {
    const store: Store
    var trades: map<TradeId, Trade>
    var proposals: map<ProposalKey, Proposal>
    var records: seq<(RecordKey, Record)>
    var snapshot: Snapshot

    constructor (store: Store, snapshot: Snapshot)
      ensures this.store == store
      ensures View() == store.(snapshot := Some(snapshot))
    {
      this.store := store;
      this.snapshot := snapshot;
      trades, proposals, records := map[], map[], [];
    }

    /** What the store will hold once the batch is written. */
    ghost function View(): Store
      reads this
    {
      Store(store.trades + trades, store.proposals + proposals, Upserted(store.records, records), Some(snapshot))
    }

    method GetOrLoadTrade(id: TradeId) returns (t: Option<Trade>)
      modifies `trades
      ensures View() == old(View())
      ensures t == Find(View().trades, Some(id))
    {
      if id in trades { return Some(trades[id]); }
      if id in store.trades {
        trades := trades[id := store.trades[id]];
        assert store.trades + trades == old(store.trades + trades);
        return Some(store.trades[id]);
      }
      return None;
    }

    method GetOrLoadProposal(key: ProposalKey) returns (p: Option<Proposal>)
      modifies `proposals
      ensures View() == old(View())
      ensures p == Find(View().proposals, Some(key))
    {
      if key in proposals { return Some(proposals[key]); }
      if key in store.proposals {
        proposals := proposals[key := store.proposals[key]];
        assert store.proposals + proposals == old(store.proposals + proposals);
        return Some(store.proposals[key]);
      }
      return None;
    }

    method Write(b: Block, log: RawLog, e: EscrowEvent, d: Delta)
      requires log.txHash.Some?
      modifies this
      ensures var was := old(View());
              View() == Store(Put(was.trades, TradeOf(e), d.trade), Put(was.proposals, ProposalOf(e), d.proposal),
                              was.records[KeyFor(log, e) := RecordFor(b, log, e)], Some(d.snapshot))
    {
      UpsertedPush(store.records, records, (KeyFor(log, e), RecordFor(b, log, e)));
      trades := Put(trades, TradeOf(e), d.trade);
      proposals := Put(proposals, ProposalOf(e), d.proposal);
      records := records + [(KeyFor(log, e), RecordFor(b, log, e))];
      snapshot := d.snapshot;
      assert store.trades + trades == Put(old(store.trades + trades), TradeOf(e), d.trade);
      assert store.proposals + proposals == Put(old(store.proposals + proposals), ProposalOf(e), d.proposal);
    }

    /** Runs the handler of a decoded log; false when it throws. */
    method HandleEvent(b: Block, log: RawLog, e: EscrowEvent) returns (ok: bool)
      modifies this
      ensures ok == ApplyEvent(old(View()), b, log, e).Done?
      ensures ok ==> View() == ApplyEvent(old(View()), b, log, e).store
    {
      if log.txHash.None? { return false; }
      var trade: Option<Trade> := None;
      if TradeOf(e).Some? && !e.TradeLocked? { trade := GetOrLoadTrade(TradeOf(e).value); }
      var proposal: Option<Proposal> := None;
      if e.ProposalApproved? || e.ProposalExecuted? || e.ProposalCancelled? {
        proposal := GetOrLoadProposal(ProposalOf(e).value);
      }
      var delta := Handle(e, trade, proposal, snapshot, b.timestamp);
      if delta.None? { return false; }
      Write(b, log, e, delta.value);
      return true;
    }

    /** `persistIndexerBatch`: every cached row is upserted, the records in the order they were made. */
    method Persist() returns (written: Store)
      ensures written == View()
    {
      var table := store.records;
      for n := 0 to |records|
        invariant table == Upserted(store.records, records[..n])
      {
        UpsertedPush(store.records, records[..n], records[n]);
        assert records[..n + 1] == records[..n] + [records[n]];
        table := table[records[n].0 := records[n].1];
      }
      assert records[..|records|] == records;
      written := Store(store.trades + trades, store.proposals + proposals, table, Some(snapshot));
    }

    /** One block; the reason and log that stopped it, if any did. */
    method ProcessBlock(build: Build, b: Block) returns (halt: Option<Outcome>)
      modifies this
      ensures var r := RunLogs(build, old(View()), b, |b.logs|);
              if halt.Some? then halt.value == r && r.Halted? else r == Done(View())
    {
      snapshot := snapshot.(lastProcessedBlock := b.height, lastIndexedAt := b.timestamp);
      ghost var start := old(View());
      for n := 0 to |b.logs|
        invariant RunLogs(build, start, b, n) == Done(View())
      {
        var log := b.logs[n];
        if OfEscrow(build, log) {
          match build.decode(log)
          case Undecodable =>
            HaltSticks(build, start, b, n + 1);
            return Some(Halted(b.height, log, UndecodableLog));
          case Unknown(_) =>
            HaltSticks(build, start, b, n + 1);
            return Some(Halted(b.height, log, if log.txHash.None? then HandlerFailure else UnknownEvent));
          case Known(e) =>
            var ok := HandleEvent(b, log, e);
            if !ok {
              HaltSticks(build, start, b, n + 1);
              return Some(Halted(b.height, log, HandlerFailure));
            }
        }
      }
      return None;
    }
  }

  lemma {:induction false} HaltSticks(build: Build, st: Store, b: Block, n: nat)
    requires n <= |b.logs| && RunLogs(build, st, b, n).Halted?
    ensures RunLogs(build, st, b, |b.logs|) == RunLogs(build, st, b, n)
    decreases |b.logs| - n
  {
    if n < |b.logs| {
      HaltSticks(build, st, b, n + 1);
    }
  }

  // ---------------------------------------------------------------- any cut into batches

  /** Running one stretch of blocks after another is running both. */
  lemma {:induction false} RunBlocksConcat(build: Build, st: Store, a: seq<Block>, b: seq<Block>)
    ensures RunBlocks(build, st, a + b)
         == if RunBlocks(build, st, a).Halted? then RunBlocks(build, st, a)
            else RunBlocks(build, RunBlocks(build, st, a).store, b)
    decreases b
  {
    if b == [] {
      assert a + b == a;
    } else {
      assert (a + b)[..|a + b| - 1] == a + b[..|b| - 1];
      RunBlocksConcat(build, st, a, b[..|b| - 1]);
    }
  }

  ghost function Warm(st: Store): Store { st.(snapshot := Some(SnapshotOf(st))) }

  /** Loading the snapshot first is the same as loading it at the first block. */
  lemma {:induction false} WarmIsFree(build: Build, st: Store, blocks: seq<Block>)
    requires blocks != []
    ensures RunBlocks(build, Warm(st), blocks) == RunBlocks(build, st, blocks)
    decreases blocks
  {
    if |blocks| == 1 {
      var b := blocks[0];
      assert blocks[..0] == [];
      assert ApplyHeader(Warm(st), b) == ApplyHeader(st, b);
      WarmLogs(build, st, b, |b.logs|);
    } else {
      WarmIsFree(build, st, blocks[..|blocks| - 1]);
    }
  }

  lemma {:induction false} WarmLogs(build: Build, st: Store, b: Block, n: nat)
    requires n <= |b.logs|
    ensures RunLogs(build, Warm(st), b, n) == RunLogs(build, st, b, n)
  {
    if n > 0 {
      WarmLogs(build, st, b, n - 1);
    }
  }

  /** The batch handler computes exactly what the reference does, or stops at the same log for the same reason. */
  method ProcessBatch(build: Build, st: Store, blocks: seq<Block>) returns (r: Outcome)
    requires blocks != []
    ensures r == RunBlocks(build, st, blocks)
  {
    WarmIsFree(build, st, blocks);
    var snapshot := GetOrLoadOverviewSnapshot(st);
    var batch := new Batch(st, snapshot);
    for i := 0 to |blocks|
      invariant RunBlocks(build, Warm(st), blocks[..i]) == Done(batch.View())
    {
      var halt := batch.ProcessBlock(build, blocks[i]);
      assert blocks[..i + 1][..i] == blocks[..i];
      if halt.Some? {
        assert blocks == blocks[..i + 1] + blocks[i + 1..];
        RunBlocksConcat(build, Warm(st), blocks[..i + 1], blocks[i + 1..]);
        return halt.value;
      }
    }
    assert blocks[..|blocks|] == blocks;
    var written := batch.Persist();
    r := Done(written);
  }

  function Flatten(batches: seq<seq<Block>>): seq<Block> {
    if batches == [] then [] else Flatten(batches[..|batches| - 1]) + batches[|batches| - 1]
  }

  /**
   Batches processed one after another, each in its own transaction: `done` of them were committed.
   The store is the reference's over the committed blocks, and a halt is the one the reference reaches
   over the whole stretch, so neither depends on where the stretch was cut.
   */
  method RunBatches(build: Build, start: Store, batches: seq<seq<Block>>) returns (st: Store, done: nat, last: Outcome)
    requires forall i | 0 <= i < |batches| :: batches[i] != []
    ensures done <= |batches|
    ensures RunBlocks(build, start, Flatten(batches[..done])) == Done(st)
    ensures last == RunBlocks(build, start, Flatten(batches))
    ensures done == |batches| <==> last.Done?
  {
    st := start;
    for i := 0 to |batches|
      invariant RunBlocks(build, start, Flatten(batches[..i])) == Done(st)
    {
      var r := ProcessBatch(build, st, batches[i]);
      FlattenNext(batches, i);
      RunBlocksConcat(build, start, Flatten(batches[..i]), batches[i]);
      if r.Halted? {
        FlattenPrefix(batches, i + 1);
        RunBlocksConcat(build, start, Flatten(batches[..i + 1]), Flatten(batches)[|Flatten(batches[..i + 1])|..]);
        return st, i, r;
      }
      st := r.store;
    }
    assert batches[..|batches|] == batches;
    return st, |batches|, Done(st);
  }

  lemma FlattenNext(batches: seq<seq<Block>>, i: nat)
    requires i < |batches|
    ensures Flatten(batches[..i + 1]) == Flatten(batches[..i]) + batches[i]
  {
    assert batches[..i + 1][..i] == batches[..i];
  }

  lemma {:induction false} FlattenPrefix(batches: seq<seq<Block>>, n: nat)
    requires n <= |batches|
    ensures Flatten(batches[..n]) <= Flatten(batches)
    ensures Flatten(batches) == Flatten(batches[..n]) + Flatten(batches)[|Flatten(batches[..n])|..]
    decreases |batches| - n
  {
    if n == |batches| {
      assert batches[..n] == batches;
    } else {
      FlattenNext(batches, n);
      FlattenPrefix(batches, n + 1);
    }
  }
}
