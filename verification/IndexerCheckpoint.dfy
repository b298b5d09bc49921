/**
 The indexer as a process over a finalized chain: batches that commit rows and checkpoint together,
 logs that cannot be projected, the quarantine that holds the checkpoint, restarts with corrected
 decoders, and operator resolve and rewind.
 */
module IndexerCheckpoint {
  import opened Common
  import opened IndexerProjection
  import opened IndexerConsistency
  import Text

  datatype QuarantineKey = QuarantineKey(block: nat, txHash: string, logIndex: nat)

  datatype QuarantineStatus = Unresolved | Resolved

  datatype QuarantineRow = QuarantineRow(reason: Reason, status: QuarantineStatus, occurrences: nat)

  /**
   `checkpoint` is where the next batch starts, as a number of blocks of the chain; `front` is the
   highest number of blocks that batches were ever committed up to, which is not stored anywhere.
   */
  datatype World = World(
    store: Store, checkpoint: nat, front: nat, running: Option<Build>, rows: map<QuarantineKey, QuarantineRow>)

  datatype Chain = Chain(escrow: string, blocks: seq<Block>)

  datatype Step =
    | Start(build: Build)
    | Commit(upto: nat)
    | PoisonHalt(upto: nat, written: bool)
    | PersistFail(upto: nat, kept: set<QuarantineKey>)
    | Crash
    | Resolve(key: QuarantineKey)
    | Rewind(target: nat)

  function KeyOf(height: nat, log: RawLog): QuarantineKey {
    QuarantineKey(height, log.txHash.GetOr(""), log.logIndex)
  }

  /** Idempotent per log: seeing it again reopens the row and counts. */
  function RecordPoisonLog(rows: map<QuarantineKey, QuarantineRow>, k: QuarantineKey, reason: Reason)
    : map<QuarantineKey, QuarantineRow>
  {
    rows[k := Reopened(rows, k, reason)]
  }

  function Reopened(rows: map<QuarantineKey, QuarantineRow>, k: QuarantineKey, reason: Reason): QuarantineRow {
    QuarantineRow(reason, Unresolved, if k in rows then rows[k].occurrences + 1 else 1)
  }

  function RecordAll(rows: map<QuarantineKey, QuarantineRow>, ks: set<QuarantineKey>): map<QuarantineKey, QuarantineRow> {
    map k | k in rows.Keys + ks ::
      if k in ks then Reopened(rows, k, HandlerFailure) else rows[k]
  }

  function OpenRows(w: World): set<QuarantineKey> { set k | k in w.rows && w.rows[k].status == Unresolved }

  /** What projecting the next blocks on top of the store would give. */
  ghost function Attempt(c: Chain, w: World, upto: nat): Outcome
    requires w.running.Some? && w.checkpoint <= upto <= |c.blocks|
  {
    RunBlocks(w.running.value, w.store, c.blocks[w.checkpoint..upto])
  }

  function EscrowKeys(c: Chain, build: Build, from: nat, upto: nat): set<QuarantineKey>
    requires from <= upto <= |c.blocks|
  {
    set i, j | from <= i < upto && 0 <= j < |c.blocks[i].logs| && OfEscrow(build, c.blocks[i].logs[j]) ::
      KeyOf(c.blocks[i].height, c.blocks[i].logs[j])
  }

  predicate InRange(c: Chain, w: World, upto: nat) { w.running.Some? && w.checkpoint < upto <= |c.blocks| }

  ghost predicate Enabled(c: Chain, w: World, s: Step) {
    match s
    case Start(build) => w.running.None? && OpenRows(w) == {} && build.escrow == c.escrow
    case Commit(upto) => InRange(c, w, upto) && Attempt(c, w, upto).Done?
    case PoisonHalt(upto, _) => InRange(c, w, upto) && Attempt(c, w, upto).Halted?
    case PersistFail(upto, kept) =>
      && InRange(c, w, upto) && Attempt(c, w, upto).Done?
      && kept <= EscrowKeys(c, w.running.value, w.checkpoint, upto)
    case Crash => w.running.Some?
    case Resolve(key) => key in w.rows && w.rows[key].status == Unresolved
    case Rewind(target) => target <= |c.blocks|
  }

  ghost function Next(c: Chain, w: World, s: Step): World {
    if !Enabled(c, w, s) then w
    else
      match s
      case Start(build) => w.(running := Some(build))
      case Commit(upto) => w.(store := Attempt(c, w, upto).store, checkpoint := upto, front := Max(w.front, upto))
      case PoisonHalt(upto, written) =>
        var halt := Attempt(c, w, upto);
        w.(running := None,
           rows := if written then RecordPoisonLog(w.rows, KeyOf(halt.height, halt.log), halt.reason) else w.rows)
      case PersistFail(_, kept) => w.(running := None, rows := RecordAll(w.rows, kept))
      case Crash => w.(running := None)
      case Resolve(key) => w.(rows := w.rows[key := w.rows[key].(status := Resolved)])
      case Rewind(target) => w.(running := None, checkpoint := target)
  }

  ghost function Run(c: Chain, w: World, steps: seq<Step>): World
    decreases steps
  {
    if steps == [] then w else Run(c, Next(c, w, steps[0]), steps[1..])
  }

  const INIT := World(EMPTY_STORE, 0, 0, None, map[])

  // ---------------------------------------------------------------- what a batch records

  function IdOf(log: RawLog): EventId
    requires log.txHash.Some?
  {
    BuildEvmEventId(log.txHash.value, log.logIndex)
  }

  ghost predicate Recorded(st: Store, log: RawLog) {
    log.txHash.Some? && exists t :: RecordKey(t, IdOf(log)) in st.records
  }

  predicate EscrowAt(c: Chain, i: int, j: int) {
    At(c.blocks, i, j) && Text.Lower(c.blocks[i].logs[j].address) == c.escrow
  }

  /** Every escrow log of the first `n` blocks has a record. */
  ghost predicate Covered(c: Chain, st: Store, n: int) {
    forall i, j | EscrowAt(c, i, j) && i < n :: Recorded(st, c.blocks[i].logs[j])
  }

  /** Every record was made from an escrow log of the first `n` blocks. */
  ghost predicate Sourced(c: Chain, st: Store, n: int) {
    forall k | k in st.records :: MadeBelow(c, k, n)
  }

  ghost predicate MadeBelow(c: Chain, k: RecordKey, n: int) {
    exists i, j :: EscrowAt(c, i, j) && i < n && Makes(c.blocks[i].logs[j], k)
  }

  predicate Makes(log: RawLog, k: RecordKey) { log.txHash.Some? && k.id == IdOf(log) }

  /** No record is ever taken away. */
  ghost predicate Grows(st: Store, st': Store) { st.records.Keys <= st'.records.Keys }

  lemma LogRecords(build: Build, st: Store, b: Block, log: RawLog)
    requires ApplyLog(build, st, b, log).Done?
    ensures var st' := ApplyLog(build, st, b, log).store;
            && Grows(st, st')
            && (OfEscrow(build, log) ==> build.decode(log).Known? && Recorded(st', log))
            && forall k | k in st'.records && k !in st.records :: OfEscrow(build, log) && Makes(log, k)
  {
    if OfEscrow(build, log) {
      var st' := ApplyLog(build, st, b, log).store;
      assert RecordKey(TableOf(build.decode(log).event), IdOf(log)) in st'.records;
    }
  }

  lemma RecordedGrows(st: Store, st': Store, log: RawLog)
    requires Recorded(st, log) && Grows(st, st')
    ensures Recorded(st', log)
  {
    var t :| RecordKey(t, IdOf(log)) in st.records;
    assert RecordKey(t, IdOf(log)) in st'.records;
  }

  ghost predicate LogsRecorded(build: Build, st: Store, b: Block, n: nat)
    requires n <= |b.logs|
  {
    forall j | 0 <= j < n && OfEscrow(build, b.logs[j]) :: build.decode(b.logs[j]).Known? && Recorded(st, b.logs[j])
  }

  ghost predicate MadeBy(build: Build, b: Block, n: nat, k: RecordKey)
    requires n <= |b.logs|
  {
    exists j :: 0 <= j < n && OfEscrow(build, b.logs[j]) && Makes(b.logs[j], k)
  }

  lemma {:induction false} LogsRecord(build: Build, st: Store, b: Block, n: nat)
    requires n <= |b.logs| && RunLogs(build, st, b, n).Done?
    ensures var st' := RunLogs(build, st, b, n).store;
            && Grows(st, st') && LogsRecorded(build, st', b, n)
            && forall k | k in st'.records && k !in st.records :: MadeBy(build, b, n, k)
  {
    if n > 0 {
      var mid, st', log := RunLogs(build, st, b, n - 1).store, RunLogs(build, st, b, n).store, b.logs[n - 1];
      LogsRecord(build, st, b, n - 1);
      LogRecords(build, mid, b, log);
      forall j | 0 <= j < n && OfEscrow(build, b.logs[j])
        ensures build.decode(b.logs[j]).Known? && Recorded(st', b.logs[j])
      {
        if j < n - 1 { RecordedGrows(mid, st', b.logs[j]); }
      }
      forall k | k in st'.records && k !in st.records ensures MadeBy(build, b, n, k) {
        if k in mid.records {
          assert MadeBy(build, b, n - 1, k);
        }
      }
    }
  }

  ghost predicate MadeIn(build: Build, blocks: seq<Block>, k: RecordKey) {
    exists i, j :: At(blocks, i, j) && OfEscrow(build, blocks[i].logs[j]) && Makes(blocks[i].logs[j], k)
  }

  lemma MadeInPrefix(build: Build, blocks: seq<Block>, n: nat, k: RecordKey)
    requires n <= |blocks| && MadeIn(build, blocks[..n], k)
    ensures MadeIn(build, blocks, k)
  {
    var i, j :| At(blocks[..n], i, j) && OfEscrow(build, blocks[..n][i].logs[j]) && Makes(blocks[..n][i].logs[j], k);
    assert At(blocks, i, j);
  }

  ghost predicate AllRecorded(build: Build, st: Store, blocks: seq<Block>) {
    forall i, j | At(blocks, i, j) && OfEscrow(build, blocks[i].logs[j]) ::
      build.decode(blocks[i].logs[j]).Known? && Recorded(st, blocks[i].logs[j])
  }

  /** A completed batch decoded and recorded each of its escrow logs, and recorded nothing else. */
  lemma {:induction false} BatchRecords(build: Build, st: Store, blocks: seq<Block>)
    requires RunBlocks(build, st, blocks).Done?
    ensures var st' := RunBlocks(build, st, blocks).store;
            && Grows(st, st')
            && AllRecorded(build, st', blocks)
            && forall k | k in st'.records && k !in st.records :: MadeIn(build, blocks, k)
    decreases blocks
  {
    if blocks != [] {
      var n := |blocks| - 1;
      var last := blocks[n];
      var mid := RunBlocks(build, st, blocks[..n]).store;
      var st' := RunBlocks(build, st, blocks).store;
      BatchRecords(build, st, blocks[..n]);
      LogsRecord(build, mid, last, |last.logs|);
      forall i, j | At(blocks, i, j) && OfEscrow(build, blocks[i].logs[j])
        ensures build.decode(blocks[i].logs[j]).Known? && Recorded(st', blocks[i].logs[j])
      {
        if i < n {
          assert At(blocks[..n], i, j);
          RecordedGrows(mid, st', blocks[i].logs[j]);
        }
      }
      forall k | k in st'.records && k !in st.records ensures MadeIn(build, blocks, k) {
        if k in mid.records {
          MadeInPrefix(build, blocks, n, k);
        } else {
          assert MadeBy(build, last, |last.logs|, k);
          var j :| 0 <= j < |last.logs| && OfEscrow(build, last.logs[j]) && Makes(last.logs[j], k);
          assert At(blocks, n, j);
        }
      }
    }
  }

  // ---------------------------------------------------------------- the invariant

  /** No escrow log lies in the blocks from one number up to another. */
  ghost predicate NoEscrow(c: Chain, from: int, upto: int) {
    forall i, j | EscrowAt(c, i, j) :: !(from <= i < upto)
  }

  ghost predicate Inv(c: Chain, w: World) {
    && w.checkpoint <= |c.blocks| && w.front <= |c.blocks|
    && Covered(c, w.store, w.front) && NoEscrow(c, w.front, w.checkpoint)
    && Sourced(c, w.store, w.front)
    && (w.running.Some? ==> OpenRows(w) == {} && w.running.value.escrow == c.escrow)
  }

  /** What is promised: every escrow log below the checkpoint has a record. */
  ghost predicate Safe(c: Chain, w: World) { Covered(c, w.store, w.checkpoint) }

  lemma InvIsSafe(c: Chain, w: World)
    requires Inv(c, w)
    ensures Safe(c, w)
  {
    forall i, j | EscrowAt(c, i, j) && i < w.checkpoint ensures Recorded(w.store, c.blocks[i].logs[j]) {
      assert i < w.front;
    }
  }

  lemma BatchCovers(c: Chain, build: Build, st: Store, from: nat, upto: nat, front: nat)
    requires from <= upto <= |c.blocks| && build.escrow == c.escrow && Covered(c, st, from) && Covered(c, st, front)
    requires RunBlocks(build, st, c.blocks[from..upto]).Done?
    ensures Covered(c, RunBlocks(build, st, c.blocks[from..upto]).store, Max(front, upto))
  {
    var blocks := c.blocks[from..upto];
    var st' := RunBlocks(build, st, blocks).store;
    BatchRecords(build, st, blocks);
    forall i, j | EscrowAt(c, i, j) && i < Max(front, upto) ensures Recorded(st', c.blocks[i].logs[j]) {
      if i < from || i < front {
        RecordedGrows(st, st', c.blocks[i].logs[j]);
      } else {
        assert blocks[i - from] == c.blocks[i] && At(blocks, i - from, j);
      }
    }
  }

  lemma MadeOnChain(c: Chain, build: Build, from: nat, upto: nat, k: RecordKey)
    requires from <= upto <= |c.blocks| && build.escrow == c.escrow && MadeIn(build, c.blocks[from..upto], k)
    ensures MadeBelow(c, k, upto)
  {
    var blocks := c.blocks[from..upto];
    var i, j :| At(blocks, i, j) && OfEscrow(build, blocks[i].logs[j]) && Makes(blocks[i].logs[j], k);
    assert EscrowAt(c, i + from, j);
  }

  lemma BatchSources(c: Chain, build: Build, st: Store, from: nat, upto: nat, front: nat)
    requires from <= upto <= |c.blocks| && build.escrow == c.escrow && Sourced(c, st, front)
    requires RunBlocks(build, st, c.blocks[from..upto]).Done?
    ensures Sourced(c, RunBlocks(build, st, c.blocks[from..upto]).store, Max(front, upto))
  {
    var blocks := c.blocks[from..upto];
    var st' := RunBlocks(build, st, blocks).store;
    BatchRecords(build, st, blocks);
    forall k | k in st'.records ensures MadeBelow(c, k, Max(front, upto)) {
      if k in st.records {
        MadeBelowGrows(c, k, front, Max(front, upto));
      } else {
        MadeOnChain(c, build, from, upto, k);
        MadeBelowGrows(c, k, upto, Max(front, upto));
      }
    }
  }

  lemma MadeBelowGrows(c: Chain, k: RecordKey, m: int, n: int)
    requires MadeBelow(c, k, m) && m <= n
    ensures MadeBelow(c, k, n)
  {
    var i, j :| EscrowAt(c, i, j) && i < m && Makes(c.blocks[i].logs[j], k);
    assert i < n;
  }

  /** A rewind that skips no escrow log beyond the blocks committed so far; going back never does. */
  ghost predicate Skipless(c: Chain, w: World, s: Step) {
    s.Rewind? && s.target <= |c.blocks| ==> NoEscrow(c, w.front, s.target)
  }

  lemma NextKeepsInv(c: Chain, w: World, s: Step)
    requires Inv(c, w) && Skipless(c, w, s)
    ensures Inv(c, Next(c, w, s))
  {
    if Enabled(c, w, s) && s.Commit? {
      CommitKeepsInv(c, w, s.upto);
    }
  }

  lemma CommitKeepsInv(c: Chain, w: World, upto: nat)
    requires Inv(c, w) && Enabled(c, w, Commit(upto))
    ensures Inv(c, Next(c, w, Commit(upto)))
  {
    InvIsSafe(c, w);
    BatchCovers(c, w.running.value, w.store, w.checkpoint, upto, w.front);
    BatchSources(c, w.running.value, w.store, w.checkpoint, upto, w.front);
  }

  ghost predicate SkiplessRun(c: Chain, w: World, steps: seq<Step>)
    decreases steps
  {
    steps == [] || (Skipless(c, w, steps[0]) && SkiplessRun(c, Next(c, w, steps[0]), steps[1..]))
  }

  /** Over every run: each escrow log below the checkpoint is recorded, and records come from escrow logs alone. */
  lemma {:induction false} RunKeepsInv(c: Chain, w: World, steps: seq<Step>)
    requires Inv(c, w) && SkiplessRun(c, w, steps)
    ensures Inv(c, Run(c, w, steps)) && Safe(c, Run(c, w, steps))
    decreases steps
  {
    if steps == [] {
      InvIsSafe(c, w);
    } else {
      NextKeepsInv(c, w, steps[0]);
      RunKeepsInv(c, Next(c, w, steps[0]), steps[1..]);
    }
  }

  // ---------------------------------------------------------------- rewinds

  /** A log the chain has only beyond the committed blocks has no record. */
  lemma BeyondFrontUnrecorded(c: Chain, w: World, i: nat, j: nat)
    requires ChainOk(c.blocks) && Inv(c, w) && EscrowAt(c, i, j) && w.front <= i
    ensures !Recorded(w.store, c.blocks[i].logs[j])
  {
    var log := c.blocks[i].logs[j];
    if Recorded(w.store, log) {
      var t :| RecordKey(t, IdOf(log)) in w.store.records;
      assert MadeBelow(c, RecordKey(t, IdOf(log)), w.front);
      MadeBelowIsBelow(c, RecordKey(t, IdOf(log)), w.front, i, j);
    }
  }

  lemma MadeBelowIsBelow(c: Chain, k: RecordKey, n: int, i: nat, j: nat)
    requires ChainOk(c.blocks) && MadeBelow(c, k, n) && EscrowAt(c, i, j) && Makes(c.blocks[i].logs[j], k)
    ensures i < n
  {
    var x, y :| EscrowAt(c, x, y) && x < n && Makes(c.blocks[x].logs[y], k);
    SameLog(c, x, y, i, j);
  }

  /**
   A rewind keeps every log below the checkpoint recorded if and only if no escrow log of the chain
   lies between the highest block ever committed and its target; the command refuses no target.
   */
  lemma RewindSafeExactly(c: Chain, w: World, target: nat)
    requires ChainOk(c.blocks) && Inv(c, w) && target <= |c.blocks|
    ensures Safe(c, Next(c, w, Rewind(target))) <==> NoEscrow(c, w.front, target)
  {
    var w' := Next(c, w, Rewind(target));
    if NoEscrow(c, w.front, target) {
      NextKeepsInv(c, w, Rewind(target));
      InvIsSafe(c, w');
    } else {
      var i, j :| EscrowAt(c, i, j) && w.front <= i < target;
      BeyondFrontUnrecorded(c, w, i, j);
    }
  }

  ghost predicate SafeThroughout(c: Chain, w: World, steps: seq<Step>)
    decreases steps
  {
    Safe(c, w) && (steps == [] || SafeThroughout(c, Next(c, w, steps[0]), steps[1..]))
  }

  /** Over every run with any rewinds: safe in every state if and only if each rewind skips no escrow log. */
  lemma {:induction false} SafeThroughoutExactly(c: Chain, w: World, steps: seq<Step>)
    requires ChainOk(c.blocks) && Inv(c, w)
    ensures SafeThroughout(c, w, steps) <==> SkiplessRun(c, w, steps)
    decreases steps
  {
    InvIsSafe(c, w);
    if steps != [] {
      if Skipless(c, w, steps[0]) {
        NextKeepsInv(c, w, steps[0]);
        SafeThroughoutExactly(c, Next(c, w, steps[0]), steps[1..]);
      } else {
        RewindSafeExactly(c, w, steps[0].target);
        var w1 := Next(c, w, steps[0]);
        assert !Safe(c, w1);
        assert !SafeThroughout(c, w1, steps[1..]);
      }
    }
  }

  lemma ForwardRewindSkips(c: Chain, log: RawLog)
    requires c.blocks == [Block(1, 0, [log])] && Text.Lower(log.address) == c.escrow
    ensures Inv(c, INIT) && !Safe(c, Next(c, INIT, Rewind(1)))
  {
    assert EscrowAt(c, 0, 0);
  }

  // ---------------------------------------------------------------- the checkpoint is held

  /** Blocks are newly committed only by a batch, with nothing in quarantine unresolved. */
  lemma AdvancesOnlyClean(c: Chain, w: World, s: Step)
    requires Inv(c, w)
    requires Next(c, w, s).front > w.front
    ensures s.Commit? && OpenRows(w) == {}
    ensures AllRecorded(w.running.value, Next(c, w, s).store, c.blocks[w.checkpoint..Next(c, w, s).checkpoint])
  {
    BatchRecords(w.running.value, w.store, c.blocks[w.checkpoint..s.upto]);
  }

  /** A failed batch changes neither the store nor the checkpoint. */
  lemma FailuresChangeNothing(c: Chain, w: World, s: Step)
    requires s.PoisonHalt? || s.PersistFail? || s.Crash?
    ensures Next(c, w, s).store == w.store && Next(c, w, s).checkpoint == w.checkpoint && Next(c, w, s).front == w.front
    ensures Enabled(c, w, s) ==> Next(c, w, s).running.None?
  {
  }

  /** A run in which every process started fails to decode the log at `(i, j)`. */
  ghost predicate NeverDecoded(c: Chain, i: nat, j: nat, steps: seq<Step>)
    requires At(c.blocks, i, j)
  {
    forall n | 0 <= n < |steps| :: steps[n].Start? ==> !steps[n].build.decode(c.blocks[i].logs[j]).Known?
  }

  lemma CommittedIsDecoded(c: Chain, build: Build, st: Store, from: nat, upto: nat, i: nat, j: nat)
    requires from <= i < upto <= |c.blocks| && EscrowAt(c, i, j) && build.escrow == c.escrow
    requires RunBlocks(build, st, c.blocks[from..upto]).Done?
    ensures build.decode(c.blocks[i].logs[j]).Known?
  {
    var blocks := c.blocks[from..upto];
    BatchRecords(build, st, blocks);
    assert blocks[i - from] == c.blocks[i];
    assert At(blocks, i - from, j) && OfEscrow(build, blocks[i - from].logs[j]);
  }

  lemma PoisonHoldsStep(c: Chain, w: World, s: Step, i: nat, j: nat)
    requires Inv(c, w) && Skipless(c, w, s) && EscrowAt(c, i, j) && w.checkpoint <= i && w.front <= i
    requires w.running.Some? ==> !w.running.value.decode(c.blocks[i].logs[j]).Known?
    ensures Next(c, w, s).checkpoint <= i && Next(c, w, s).front <= i
  {
    if s.Commit? && Enabled(c, w, s) && i < s.upto {
      CommittedIsDecoded(c, w.running.value, w.store, w.checkpoint, s.upto, i, j);
    }
  }

  /** The checkpoint never passes a log no started process can decode, whatever is resolved or rewound meanwhile. */
  lemma {:induction false} PoisonHolds(c: Chain, w: World, steps: seq<Step>, i: nat, j: nat)
    requires Inv(c, w) && SkiplessRun(c, w, steps) && EscrowAt(c, i, j) && w.front <= i
    requires w.running.Some? ==> !w.running.value.decode(c.blocks[i].logs[j]).Known?
    requires NeverDecoded(c, i, j, steps)
    ensures Run(c, w, steps).checkpoint <= i && Run(c, w, steps).front <= i
    decreases steps
  {
    assert w.checkpoint <= i;
    if steps != [] {
      var w' := Next(c, w, steps[0]);
      NextKeepsInv(c, w, steps[0]);
      PoisonHoldsStep(c, w, steps[0], i, j);
      assert NeverDecoded(c, i, j, steps[1..]) by {
        forall n | 0 <= n < |steps[1..]| && steps[1..][n].Start?
          ensures !steps[1..][n].build.decode(c.blocks[i].logs[j]).Known?
        {
          assert steps[1..][n] == steps[n + 1];
        }
      }
      PoisonHolds(c, w', steps[1..], i, j);
    }
  }

  /** Nothing starts, and so nothing commits, until each open row has been resolved by name. */
  lemma {:induction false} OpenRowHolds(c: Chain, w: World, steps: seq<Step>, k: QuarantineKey)
    requires k in OpenRows(w) && w.running.None?
    requires Resolve(k) !in steps
    ensures var w' := Run(c, w, steps);
            k in OpenRows(w') && w'.running.None? && w'.store == w.store && w'.front == w.front
    decreases steps
  {
    if steps != [] {
      assert steps[0] in steps && steps[0] != Resolve(k);
      OpenRowHolds(c, Next(c, w, steps[0]), steps[1..], k);
    }
  }

  /** The log a step quarantines. */
  ghost predicate Quarantines(c: Chain, w: World, s: Step, k: QuarantineKey) {
    && Enabled(c, w, s)
    && match s
       case PoisonHalt(upto, written) => written && k == KeyOf(Attempt(c, w, upto).height, Attempt(c, w, upto).log)
       case PersistFail(_, kept) => k in kept
       case _ => false
  }

  /**
   Evidence that was written holds the indexer, also for a log resolved before: its row is open again,
   and until it is resolved by name no run starts a process, changes the store or commits a block.
   */
  lemma EvidenceHolds(c: Chain, w: World, s: Step, k: QuarantineKey, steps: seq<Step>)
    requires Quarantines(c, w, s, k)
    requires Resolve(k) !in steps
    ensures var w1 := Next(c, w, s);
            && k in OpenRows(w1) && w1.rows[k].occurrences == (if k in w.rows then w.rows[k].occurrences else 0) + 1
            && (forall j | j in w.rows && w.rows[j].status == Unresolved :: j in OpenRows(w1))
    ensures var w' := Run(c, Next(c, w, s), steps);
            k in OpenRows(w') && w'.running.None? && w'.store == w.store && w'.front == w.front
  {
    OpenRowHolds(c, Next(c, w, s), steps, k);
  }

  /** The key of an escrow log in these blocks. */
  ghost predicate Names(c: Chain, from: int, upto: int, k: QuarantineKey) {
    exists i, j | EscrowAt(c, i, j) && from <= i < upto :: k == KeyOf(c.blocks[i].height, c.blocks[i].logs[j])
  }

  lemma {:induction false} LogsHaltAt(build: Build, st: Store, b: Block, n: nat) returns (j: nat)
    requires n <= |b.logs| && RunLogs(build, st, b, n).Halted?
    ensures var halt := RunLogs(build, st, b, n);
            j < n && OfEscrow(build, b.logs[j]) && halt.height == b.height && halt.log == b.logs[j]
  {
    if RunLogs(build, st, b, n - 1).Halted? {
      j := LogsHaltAt(build, st, b, n - 1);
    } else {
      j := n - 1;
    }
  }

  lemma {:induction false} BlocksHaltAt(build: Build, st: Store, blocks: seq<Block>) returns (i: nat, j: nat)
    requires RunBlocks(build, st, blocks).Halted?
    ensures var halt := RunBlocks(build, st, blocks);
            && At(blocks, i, j) && OfEscrow(build, blocks[i].logs[j])
            && halt.height == blocks[i].height && halt.log == blocks[i].logs[j]
    decreases blocks
  {
    var before := RunBlocks(build, st, blocks[..|blocks| - 1]);
    if before.Halted? {
      i, j := BlocksHaltAt(build, st, blocks[..|blocks| - 1]);
    } else {
      i := |blocks| - 1;
      j := LogsHaltAt(build, before.store, blocks[i], |blocks[i].logs|);
    }
  }

  /** A batch may fail in its write whatever escrow logs of it are kept as evidence, and keeps no others. */
  lemma FailedWriteKeepsExactly(c: Chain, w: World, upto: nat, kept: set<QuarantineKey>)
    requires w.running.Some? && w.running.value.escrow == c.escrow
    requires w.checkpoint <= upto <= |c.blocks|
    ensures Enabled(c, w, PersistFail(upto, kept))
       <==> && w.checkpoint < upto && RunBlocks(w.running.value, w.store, c.blocks[w.checkpoint..upto]).Done?
            && forall k | k in kept :: Names(c, w.checkpoint, upto, k)
  {
    forall k ensures k in EscrowKeys(c, w.running.value, w.checkpoint, upto) <==> Names(c, w.checkpoint, upto, k) {
      if i, j :| EscrowAt(c, i, j) && w.checkpoint <= i < upto && k == KeyOf(c.blocks[i].height, c.blocks[i].logs[j]) {
        assert OfEscrow(w.running.value, c.blocks[i].logs[j]);
      }
    }
  }

  /** What a step quarantines is a log of the escrow in the batch that failed. */
  lemma QuarantinesItsBatch(c: Chain, w: World, s: Step, k: QuarantineKey)
    requires w.running.Some? ==> w.running.value.escrow == c.escrow
    requires Quarantines(c, w, s, k)
    ensures Names(c, w.checkpoint, s.upto, k) && w.checkpoint < s.upto
  {
    if s.PersistFail? {
      FailedWriteKeepsExactly(c, w, s.upto, s.kept);
    } else {
      var batch := c.blocks[w.checkpoint..s.upto];
      var i, j := BlocksHaltAt(w.running.value, w.store, batch);
      assert EscrowAt(c, w.checkpoint + i, j);
    }
  }

  /** Rows of the quarantine: escrow logs of the chain, each seen at least once. */
  ghost predicate Evidenced(c: Chain, w: World) {
    && (w.running.Some? ==> w.running.value.escrow == c.escrow)
    && forall k | k in w.rows :: Names(c, 0, |c.blocks|, k) && w.rows[k].occurrences >= 1
  }

  lemma NextKeepsEvidence(c: Chain, w: World, s: Step)
    requires Evidenced(c, w)
    ensures Evidenced(c, Next(c, w, s))
  {
    var w' := Next(c, w, s);
    forall k | k in w'.rows ensures Names(c, 0, |c.blocks|, k) && w'.rows[k].occurrences >= 1 {
      if Quarantines(c, w, s, k) {
        QuarantinesItsBatch(c, w, s, k);
      } else {
        assert k in w.rows;
      }
    }
  }

  /** Over every run the quarantine holds escrow logs of the chain and nothing else. */
  lemma {:induction false} QuarantineNamesEscrowLogs(c: Chain, w: World, steps: seq<Step>)
    requires Evidenced(c, w)
    ensures Evidenced(c, Run(c, w, steps))
    decreases steps
  {
    if steps != [] {
      NextKeepsEvidence(c, w, steps[0]);
      QuarantineNamesEscrowLogs(c, Next(c, w, steps[0]), steps[1..]);
    }
  }

  // ---------------------------------------------------------------- exactly once

  function RecordsOf(st: Store, log: RawLog): set<RecordKey>
    requires log.txHash.Some?
  {
    set k | k in st.records && k.id == IdOf(log)
  }

  /** The table a log's event belongs to, where a corrected decoder may decode more logs but none differently. */
  ghost predicate Agrees(build: Build, table: RawLog -> Table) {
    forall log: RawLog :: build.decode(log).Known? ==> TableOf(build.decode(log).event) == table(log)
  }

  ghost predicate InTable(c: Chain, st: Store, table: RawLog -> Table) {
    forall k | k in st.records ::
      exists i, j :: EscrowAt(c, i, j) && Makes(c.blocks[i].logs[j], k) && k.table == table(c.blocks[i].logs[j])
  }

  lemma LogInTable(build: Build, st: Store, b: Block, log: RawLog, table: RawLog -> Table, k: RecordKey)
    requires Agrees(build, table) && ApplyLog(build, st, b, log).Done?
    requires k in ApplyLog(build, st, b, log).store.records && k !in st.records
    ensures OfEscrow(build, log) && Makes(log, k) && k.table == table(log)
  {
  }

  ghost predicate TabledIn(build: Build, blocks: seq<Block>, table: RawLog -> Table, k: RecordKey) {
    exists i, j :: At(blocks, i, j) && OfEscrow(build, blocks[i].logs[j]) && Makes(blocks[i].logs[j], k)
                   && k.table == table(blocks[i].logs[j])
  }

  lemma {:induction false} LogsInTable(build: Build, st: Store, b: Block, n: nat, table: RawLog -> Table, k: RecordKey)
    requires Agrees(build, table) && n <= |b.logs| && RunLogs(build, st, b, n).Done?
    requires k in RunLogs(build, st, b, n).store.records && k !in st.records
    ensures TabledIn(build, [b], table, k)
  {
    if n > 0 {
      var mid := RunLogs(build, st, b, n - 1).store;
      if k in mid.records {
        LogsInTable(build, st, b, n - 1, table, k);
      } else {
        LogInTable(build, mid, b, b.logs[n - 1], table, k);
        assert At([b], 0, n - 1);
      }
    }
  }

  lemma {:induction false} BatchInTable(build: Build, st: Store, blocks: seq<Block>, table: RawLog -> Table, k: RecordKey)
    requires Agrees(build, table) && RunBlocks(build, st, blocks).Done?
    requires k in RunBlocks(build, st, blocks).store.records && k !in st.records
    ensures TabledIn(build, blocks, table, k)
    decreases blocks
  {
    if blocks != [] {
      var n := |blocks| - 1;
      var mid := RunBlocks(build, st, blocks[..n]).store;
      if k in mid.records {
        BatchInTable(build, st, blocks[..n], table, k);
        var i, j :| At(blocks[..n], i, j) && OfEscrow(build, blocks[..n][i].logs[j]) && Makes(blocks[..n][i].logs[j], k)
                    && k.table == table(blocks[..n][i].logs[j]);
        assert At(blocks, i, j);
      } else {
        LogsInTable(build, mid, blocks[n], |blocks[n].logs|, table, k);
        var i, j :| At([blocks[n]], i, j) && OfEscrow(build, [blocks[n]][i].logs[j]) && Makes([blocks[n]][i].logs[j], k)
                    && k.table == table([blocks[n]][i].logs[j]);
        assert At(blocks, n, j);
      }
    }
  }

  ghost predicate AgreedRun(w: World, steps: seq<Step>, table: RawLog -> Table) {
    && (w.running.Some? ==> Agrees(w.running.value, table))
    && forall n | 0 <= n < |steps| :: steps[n].Start? ==> Agrees(steps[n].build, table)
  }

  lemma NextInTable(c: Chain, w: World, s: Step, table: RawLog -> Table)
    requires Inv(c, w) && InTable(c, w.store, table)
    requires w.running.Some? ==> Agrees(w.running.value, table)
    ensures InTable(c, Next(c, w, s).store, table)
  {
    if s.Commit? && Enabled(c, w, s) {
      var build, blocks := w.running.value, c.blocks[w.checkpoint..s.upto];
      var st' := Next(c, w, s).store;
      forall k | k in st'.records
        ensures exists i, j :: EscrowAt(c, i, j) && Makes(c.blocks[i].logs[j], k) && k.table == table(c.blocks[i].logs[j])
      {
        if k !in w.store.records {
          BatchInTable(build, w.store, blocks, table, k);
          var i, j :| At(blocks, i, j) && OfEscrow(build, blocks[i].logs[j]) && Makes(blocks[i].logs[j], k)
                      && k.table == table(blocks[i].logs[j]);
          assert EscrowAt(c, i + w.checkpoint, j);
        }
      }
    }
  }

  lemma {:induction false} RunInTable(c: Chain, w: World, steps: seq<Step>, table: RawLog -> Table)
    requires Inv(c, w) && SkiplessRun(c, w, steps) && InTable(c, w.store, table) && AgreedRun(w, steps, table)
    ensures InTable(c, Run(c, w, steps).store, table)
    decreases steps
  {
    if steps != [] {
      NextKeepsInv(c, w, steps[0]);
      NextInTable(c, w, steps[0], table);
      assert AgreedRun(Next(c, w, steps[0]), steps[1..], table) by {
        forall n | 0 <= n < |steps[1..]| && steps[1..][n].Start? ensures Agrees(steps[1..][n].build, table) {
          assert steps[1..][n] == steps[n + 1];
        }
      }
      RunInTable(c, Next(c, w, steps[0]), steps[1..], table);
    }
  }

  /**
   Over every run of processes whose decoders agree on the kind of each log, through halts, crashes,
   restarts, rewinds and replays: an escrow log below the checkpoint has exactly one record.
   */
  lemma RecordedExactlyOnce(c: Chain, steps: seq<Step>, table: RawLog -> Table, i: nat, j: nat)
    requires ChainOk(c.blocks) && SkiplessRun(c, INIT, steps) && AgreedRun(INIT, steps, table)
    requires EscrowAt(c, i, j) && i < Run(c, INIT, steps).checkpoint
    ensures var log := c.blocks[i].logs[j];
            log.txHash.Some? && RecordsOf(Run(c, INIT, steps).store, log) == {RecordKey(table(log), IdOf(log))}
  {
    RunKeepsInv(c, INIT, steps);
    RunInTable(c, INIT, steps, table);
    assert Recorded(Run(c, INIT, steps).store, c.blocks[i].logs[j]);
    OneRecord(c, Run(c, INIT, steps).store, table, i, j);
  }

  lemma OneRecord(c: Chain, st: Store, table: RawLog -> Table, i: nat, j: nat)
    requires ChainOk(c.blocks) && EscrowAt(c, i, j) && InTable(c, st, table) && Recorded(st, c.blocks[i].logs[j])
    ensures var log := c.blocks[i].logs[j]; RecordsOf(st, log) == {RecordKey(table(log), IdOf(log))}
  {
    var log := c.blocks[i].logs[j];
    forall k | k in RecordsOf(st, log) ensures k == RecordKey(table(log), IdOf(log)) {
      var x, y :| EscrowAt(c, x, y) && Makes(c.blocks[x].logs[y], k) && k.table == table(c.blocks[x].logs[y]);
      SameLog(c, x, y, i, j);
    }
    var t :| RecordKey(t, IdOf(log)) in st.records;
    assert RecordKey(t, IdOf(log)) in RecordsOf(st, log);
  }

  lemma SameLog(c: Chain, x: nat, y: nat, i: nat, j: nat)
    requires ChainOk(c.blocks) && EscrowAt(c, x, y) && EscrowAt(c, i, j)
    requires c.blocks[x].logs[y].txHash.Some? && c.blocks[i].logs[j].txHash.Some?
    requires IdOf(c.blocks[x].logs[y]) == IdOf(c.blocks[i].logs[j])
    ensures x == i && y == j
  {
    var a, b := c.blocks[x].logs[y], c.blocks[i].logs[j];
    EventIdInjective(a.txHash.value, a.logIndex, b.txHash.value, b.logIndex);
    assert SameIdentity(a, b) && SameIdentity(b, a);
    assert !Earlier(x, y, i, j) && !Earlier(i, j, x, y);
  }

  // ---------------------------------------------------------------- recovery

  function Resolutions(ks: seq<QuarantineKey>): seq<Step> {
    if ks == [] then [] else [Resolve(ks[0])] + Resolutions(ks[1..])
  }

  lemma {:induction false} ResolutionsClear(c: Chain, w: World, ks: seq<QuarantineKey>)
    requires w.running.None? && forall k | k in OpenRows(w) :: k in ks
    ensures var w' := Run(c, w, Resolutions(ks));
            OpenRows(w') == {} && w'.running.None? && w'.store == w.store && w'.checkpoint == w.checkpoint
    decreases ks
  {
    if ks != [] {
      var w1 := Next(c, w, Resolve(ks[0]));
      var steps := Resolutions(ks);
      assert steps[0] == Resolve(ks[0]) && steps[1..] == Resolutions(ks[1..]);
      forall k | k in OpenRows(w1) ensures k in ks[1..] {
        assert k in OpenRows(w) && k != ks[0];
      }
      ResolutionsClear(c, w1, ks[1..]);
    }
  }

  lemma {:induction false} Listed(s: set<QuarantineKey>) returns (ks: seq<QuarantineKey>)
    ensures forall k | k in s :: k in ks
  {
    if s == {} {
      ks := [];
    } else {
      var x :| x in s;
      var rest := Listed(s - {x});
      ks := [x] + rest;
    }
  }

  lemma {:induction false} RunConcat(c: Chain, w: World, a: seq<Step>, b: seq<Step>)
    ensures Run(c, w, a + b) == Run(c, Run(c, w, a), b)
    decreases a
  {
    if a == [] {
      assert a + b == b;
    } else {
      assert (a + b)[0] == a[0] && (a + b)[1..] == a[1..] + b;
      RunConcat(c, Next(c, w, a[0]), a[1..], b);
    }
  }

  /** A stopped indexer can always go on: resolve the open rows, start a build that projects the range, commit. */
  lemma RecoveryReaches(c: Chain, w: World, fixed: Build, upto: nat) returns (steps: seq<Step>)
    requires w.running.None? && w.checkpoint < upto <= |c.blocks| && fixed.escrow == c.escrow
    requires RunBlocks(fixed, w.store, c.blocks[w.checkpoint..upto]).Done?
    ensures Run(c, w, steps).checkpoint == upto
    ensures Run(c, w, steps).store == RunBlocks(fixed, w.store, c.blocks[w.checkpoint..upto]).store
    ensures OpenRows(Run(c, w, steps)) == {}
  {
    var ks := Listed(OpenRows(w));
    ResolutionsClear(c, w, ks);
    var clear := Run(c, w, Resolutions(ks));
    var rest := [Start(fixed), Commit(upto)];
    steps := Resolutions(ks) + rest;
    RunConcat(c, w, Resolutions(ks), rest);
    var started := Next(c, clear, Start(fixed));
    assert rest[1..] == [Commit(upto)] && rest[1..][1..] == [];
    assert Run(c, started, rest[1..]) == Next(c, started, Commit(upto));
  }
}
