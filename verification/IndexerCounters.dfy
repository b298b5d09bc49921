/**
 The overview counters of the indexer: the incremental updates, and what they must add up to. Every
 trade is in one bucket; the counters are right when each equals the size of its bucket.
 */
module IndexerCounters {
  import opened Common

  // on chain a trade id is an unsigned integer; the store keeps its decimal form
  type TradeId = nat

  datatype TradeStatus = Locked | InTransit | ArrivalConfirmed | Frozen | Closed

  datatype Counters = Counters(
    total: nat, locked: nat, stage1: nat, stage2: nat, completed: nat, disputed: nat, cancelled: nat)

  const EMPTY := Counters(0, 0, 0, 0, 0, 0, 0)

  // ---------------------------------------------------------------- incremental updates

  function Increment(s: TradeStatus, c: Counters): Counters {
    match s
    case Locked => c.(locked := c.locked + 1)
    case InTransit => c.(stage1 := c.stage1 + 1)
    case ArrivalConfirmed => c.(stage2 := c.stage2 + 1)
    case Closed => c.(completed := c.completed + 1)
    case Frozen => c.(disputed := c.disputed + 1)
  }

  function Tally(s: TradeStatus, c: Counters): nat {
    match s
    case Locked => c.locked
    case InTransit => c.stage1
    case ArrivalConfirmed => c.stage2
    case Closed => c.completed
    case Frozen => c.disputed
  }

  /** Throws instead of going below zero. */
  function Decrement(s: TradeStatus, c: Counters): Result<Counters> {
    if Tally(s, c) == 0 then Failure("Overview counter underflow")
    else
      Success(match s
              case Locked => c.(locked := c.locked - 1)
              case InTransit => c.(stage1 := c.stage1 - 1)
              case ArrivalConfirmed => c.(stage2 := c.stage2 - 1)
              case Closed => c.(completed := c.completed - 1)
              case Frozen => c.(disputed := c.disputed - 1))
  }

  function ApplyTradeCreated(initial: TradeStatus, c: Counters): Counters {
    Increment(initial, c.(total := c.total + 1))
  }

  function ApplyTradeTransition(prev: TradeStatus, next: TradeStatus, c: Counters): Result<Counters> {
    if prev == next then Success(c)
    else
      match Decrement(prev, c)
      case Success(d) => Success(Increment(next, d))
      case Failure(e) => Failure(e)
  }

  function ApplyTradeCancelled(prev: TradeStatus, c: Counters): Result<Counters> {
    match Decrement(prev, c)
    case Success(d) => Success(d.(cancelled := d.cancelled + 1))
    case Failure(e) => Failure(e)
  }

  // ---------------------------------------------------------------- buckets

  datatype Bucket = BLocked | BStage1 | BStage2 | BCompleted | BDisputed | BCancelled

  /** A closed trade counts as cancelled or completed by the event that closed it. */
  function BucketFor(s: TradeStatus, cancelled: bool): Bucket {
    match s
    case Locked => BLocked
    case InTransit => BStage1
    case ArrivalConfirmed => BStage2
    case Frozen => BDisputed
    case Closed => if cancelled then BCancelled else BCompleted
  }

  function Members<K>(m: map<K, Bucket>, b: Bucket): set<K> { set id | id in m && m[id] == b }

  function Size<K>(m: map<K, Bucket>, b: Bucket): nat { |Members(m, b)| }

  function CountersFor(m: map<TradeId, Bucket>): Counters {
    Counters(|m|, Size(m, BLocked), Size(m, BStage1), Size(m, BStage2), Size(m, BCompleted), Size(m, BDisputed),
             Size(m, BCancelled))
  }

  lemma SizeAfterInsert<K>(m: map<K, Bucket>, id: K, to: Bucket, b: Bucket)
    requires id !in m
    ensures Size(m[id := to], b) == Size(m, b) + Is(to, b)
  {
    var was, now := Members(m, b), Members(m[id := to], b);
    if to == b {
      assert now == was + {id};
    } else {
      assert now == was;
    }
  }

  lemma TotalAfterInsert(m: map<TradeId, Bucket>, id: TradeId, to: Bucket)
    requires id !in m
    ensures |m[id := to]| == |m| + 1
  {
    assert m[id := to].Keys == m.Keys + {id};
  }

  function Is(a: Bucket, b: Bucket): nat { if a == b then 1 else 0 }

  function Share(b: Bucket, c: Counters): nat {
    match b
    case BLocked => c.locked
    case BStage1 => c.stage1
    case BStage2 => c.stage2
    case BCompleted => c.completed
    case BDisputed => c.disputed
    case BCancelled => c.cancelled
  }

  /** `d` is `c` after one trade went from one bucket to another. */
  ghost predicate Moved(c: Counters, d: Counters, from: Bucket, to: Bucket) {
    d.total == c.total && forall b :: Share(b, d) == Share(b, c) - Is(from, b) + Is(to, b)
  }

  /** `d` is `c` after one more trade arrived in a bucket. */
  ghost predicate Arrived(c: Counters, d: Counters, to: Bucket) {
    d.total == c.total + 1 && forall b :: Share(b, d) == Share(b, c) + Is(to, b)
  }

  lemma CountersAfterInsert(m: map<TradeId, Bucket>, id: TradeId, to: Bucket)
    requires id !in m
    ensures Arrived(CountersFor(m), CountersFor(m[id := to]), to)
  {
    TotalAfterInsert(m, id, to);
    SizeAfterInsert(m, id, to, BLocked);
    SizeAfterInsert(m, id, to, BStage1);
    SizeAfterInsert(m, id, to, BStage2);
    SizeAfterInsert(m, id, to, BCompleted);
    SizeAfterInsert(m, id, to, BDisputed);
    SizeAfterInsert(m, id, to, BCancelled);
  }

  lemma CountersAfterMove(m: map<TradeId, Bucket>, id: TradeId, to: Bucket)
    requires id in m
    ensures Moved(CountersFor(m), CountersFor(m[id := to]), m[id], to)
    ensures Share(m[id], CountersFor(m)) >= 1
  {
    var rest := m - {id};
    assert m == rest[id := m[id]] && m[id := to] == rest[id := to];
    CountersAfterInsert(rest, id, m[id]);
    CountersAfterInsert(rest, id, to);
  }

  lemma CountersOfNone()
    ensures CountersFor(map[]) == EMPTY
  {
    var none: map<TradeId, Bucket> := map[];
    forall b ensures Members(none, b) == {} {}
  }

  /** Counters are determined by the total and the six shares. */
  lemma SameShares(c: Counters, d: Counters)
    requires c.total == d.total && forall b :: Share(b, c) == Share(b, d)
    ensures c == d
  {
    assert Share(BLocked, c) == Share(BLocked, d) && Share(BStage1, c) == Share(BStage1, d);
    assert Share(BStage2, c) == Share(BStage2, d) && Share(BCompleted, c) == Share(BCompleted, d);
    assert Share(BDisputed, c) == Share(BDisputed, d) && Share(BCancelled, c) == Share(BCancelled, d);
  }

  lemma MovedIs(c: Counters, d: Counters, e: Counters, from: Bucket, to: Bucket)
    requires Moved(c, d, from, to) && Moved(c, e, from, to)
    ensures d == e
  {
    SameShares(d, e);
  }

  lemma ArrivedIs(c: Counters, d: Counters, e: Counters, to: Bucket)
    requires Arrived(c, d, to) && Arrived(c, e, to)
    ensures d == e
  {
    SameShares(d, e);
  }

  function ShareSum(c: Counters): nat {
    c.locked + c.stage1 + c.stage2 + c.completed + c.disputed + c.cancelled
  }

  lemma ArrivedAddsOne(c: Counters, d: Counters, to: Bucket)
    requires Arrived(c, d, to)
    ensures ShareSum(d) == ShareSum(c) + 1
  {
    assert Share(BLocked, d) == Share(BLocked, c) + Is(to, BLocked);
    assert Share(BStage1, d) == Share(BStage1, c) + Is(to, BStage1);
    assert Share(BStage2, d) == Share(BStage2, c) + Is(to, BStage2);
    assert Share(BCompleted, d) == Share(BCompleted, c) + Is(to, BCompleted);
    assert Share(BDisputed, d) == Share(BDisputed, c) + Is(to, BDisputed);
    assert Share(BCancelled, d) == Share(BCancelled, c) + Is(to, BCancelled);
  }

  /** The buckets partition the trades. */
  lemma {:induction false} SharesSumToTotal(m: map<TradeId, Bucket>)
    ensures ShareSum(CountersFor(m)) == CountersFor(m).total == |m|
    decreases |m|
  {
    if m == map[] {
      CountersOfNone();
    } else {
      var id :| id in m;
      var rest := m - {id};
      assert m == rest[id := m[id]];
      assert m.Keys == rest.Keys + {id};
      SharesSumToTotal(rest);
      CountersAfterInsert(rest, id, m[id]);
      ArrivedAddsOne(CountersFor(rest), CountersFor(m), m[id]);
    }
  }

  // ---------------------------------------------------------------- incremental updates move one trade

  lemma TransitionMovesShare(c: Counters, prev: TradeStatus, next: TradeStatus)
    requires Share(BucketFor(prev, false), c) >= 1
    ensures var t := ApplyTradeTransition(prev, next, c);
            t.Success? && Moved(c, t.value, BucketFor(prev, false), BucketFor(next, false))
  {
  }

  lemma CancellationMovesShare(c: Counters, prev: TradeStatus)
    requires Share(BucketFor(prev, false), c) >= 1
    ensures var t := ApplyTradeCancelled(prev, c);
            t.Success? && Moved(c, t.value, BucketFor(prev, false), BCancelled)
  {
  }

  /** A transition from the bucket the trade is in, unless it is the cancelled one, moves exactly that trade. */
  lemma TransitionMoves(m: map<TradeId, Bucket>, id: TradeId, prev: TradeStatus, next: TradeStatus)
    requires id in m && m[id] == BucketFor(prev, false)
    ensures ApplyTradeTransition(prev, next, CountersFor(m)) == Success(CountersFor(m[id := BucketFor(next, false)]))
  {
    var c, d := CountersFor(m), CountersFor(m[id := BucketFor(next, false)]);
    CountersAfterMove(m, id, BucketFor(next, false));
    TransitionMovesShare(c, prev, next);
    MovedIs(c, d, ApplyTradeTransition(prev, next, c).value, m[id], BucketFor(next, false));
  }

  lemma CancellationMoves(m: map<TradeId, Bucket>, id: TradeId, prev: TradeStatus)
    requires id in m && m[id] == BucketFor(prev, false)
    ensures ApplyTradeCancelled(prev, CountersFor(m)) == Success(CountersFor(m[id := BCancelled]))
  {
    var c, d := CountersFor(m), CountersFor(m[id := BCancelled]);
    CountersAfterMove(m, id, BCancelled);
    CancellationMovesShare(c, prev);
    MovedIs(c, d, ApplyTradeCancelled(prev, c).value, m[id], BCancelled);
  }

  /** From the cancelled bucket every update goes wrong: it throws, or the counters stop matching. */
  lemma LeavingCancelledGoesWrong(m: map<TradeId, Bucket>, id: TradeId, next: TradeStatus)
    requires id in m && m[id] == BCancelled
    ensures ApplyTradeTransition(Closed, next, CountersFor(m)) != Success(CountersFor(m[id := BucketFor(next, false)]))
    ensures ApplyTradeCancelled(Closed, CountersFor(m)) != Success(CountersFor(m[id := BCancelled]))
  {
    var c, d := CountersFor(m), CountersFor(m[id := BucketFor(next, false)]);
    CountersAfterMove(m, id, BucketFor(next, false));
    assert Share(BCancelled, d) == Share(BCancelled, c) - 1;
    assert m[id := BCancelled] == m;
  }

  lemma CreationInserts(m: map<TradeId, Bucket>, id: TradeId)
    ensures ApplyTradeCreated(Locked, CountersFor(m)) == CountersFor(m[id := BLocked]) <==> id !in m
  {
    var c, d := CountersFor(m), CountersFor(m[id := BLocked]);
    if id !in m {
      CountersAfterInsert(m, id, BLocked);
      ArrivedIs(c, d, ApplyTradeCreated(Locked, c), BLocked);
    } else {
      CountersAfterMove(m, id, BLocked);
    }
  }

  function CountOne(c: Counters, status: TradeStatus, cancelled: bool): Counters {
    var d := c.(total := c.total + 1);
    if status != Closed then Increment(status, d)
    else if cancelled then d.(cancelled := d.cancelled + 1)
    else d.(completed := d.completed + 1)
  }

  lemma CountOneArrives(c: Counters, status: TradeStatus, cancelled: bool)
    ensures Arrived(c, CountOne(c, status, cancelled), BucketFor(status, cancelled))
  {
  }

  lemma CountOneInserts(m: map<TradeId, Bucket>, id: TradeId, status: TradeStatus, cancelled: bool)
    requires id !in m
    ensures CountersFor(m[id := BucketFor(status, cancelled)]) == CountOne(CountersFor(m), status, cancelled)
  {
    var c, to := CountersFor(m), BucketFor(status, cancelled);
    CountersAfterInsert(m, id, to);
    CountOneArrives(c, status, cancelled);
    ArrivedIs(c, CountOne(c, status, cancelled), CountersFor(m[id := to]), to);
  }

  /** `buildCountersFromExistingState`: one pass over the stored trades. */
  method BuildCountersFromExistingState(trades: seq<(TradeId, TradeStatus)>, cancelledIds: set<TradeId>)
    returns (c: Counters)
    requires forall i, j | 0 <= i < j < |trades| :: trades[i].0 != trades[j].0
    ensures c == CountersFor(BucketMap(trades, cancelledIds))
  {
    c := EMPTY;
    var i := 0;
    CountersOfNone();
    while i < |trades|
      invariant 0 <= i <= |trades|
      invariant c == CountersFor(BucketMap(trades[..i], cancelledIds))
    {
      var (id, status) := trades[i];
      CountedOneMore(trades, i, cancelledIds);
      c := CountOne(c, status, id in cancelledIds);
      i := i + 1;
    }
    assert trades[..i] == trades;
  }

  lemma BucketMapNext(trades: seq<(TradeId, TradeStatus)>, i: nat, cancelledIds: set<TradeId>)
    requires i < |trades|
    requires forall i, j | 0 <= i < j < |trades| :: trades[i].0 != trades[j].0
    ensures var m, (id, status) := BucketMap(trades[..i], cancelledIds), trades[i];
            && id !in m
            && BucketMap(trades[..i + 1], cancelledIds) == m[id := BucketFor(status, id in cancelledIds)]
  {
    BucketMapKeys(trades[..i], cancelledIds);
    assert trades[..i + 1][..i] == trades[..i];
  }

  lemma CountedOneMore(trades: seq<(TradeId, TradeStatus)>, i: nat, cancelledIds: set<TradeId>)
    requires i < |trades|
    requires forall i, j | 0 <= i < j < |trades| :: trades[i].0 != trades[j].0
    ensures CountersFor(BucketMap(trades[..i + 1], cancelledIds))
         == CountOne(CountersFor(BucketMap(trades[..i], cancelledIds)), trades[i].1, trades[i].0 in cancelledIds)
  {
    BucketMapNext(trades, i, cancelledIds);
    CountOneInserts(BucketMap(trades[..i], cancelledIds), trades[i].0, trades[i].1, trades[i].0 in cancelledIds);
  }

  function BucketMap(trades: seq<(TradeId, TradeStatus)>, cancelledIds: set<TradeId>): map<TradeId, Bucket> {
    if trades == [] then map[]
    else
      var (id, status) := trades[|trades| - 1];
      BucketMap(trades[..|trades| - 1], cancelledIds)[id := BucketFor(status, id in cancelledIds)]
  }

  lemma {:induction false} BucketMapKeys(trades: seq<(TradeId, TradeStatus)>, cancelledIds: set<TradeId>)
    ensures forall id :: id in BucketMap(trades, cancelledIds) ==> exists i | 0 <= i < |trades| :: trades[i].0 == id
    ensures forall i | 0 <= i < |trades| :: trades[i].0 in BucketMap(trades, cancelledIds)
    decreases trades
  {
    if trades != [] {
      BucketMapKeys(trades[..|trades| - 1], cancelledIds);
    }
  }
}
