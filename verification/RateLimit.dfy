/**
 Request limiting by counting windows: the in-memory store opens a window at the first request and
 the shared store aligns windows to multiples of their length. Both admit a request while the count
 of its window, blocked requests included, is within the limit.
 */
module RateLimit {
  import opened Common

  // ---------------------------------------------------------------- one window counter

  datatype Bucket = Bucket(count: nat, expiresAt: int)

  datatype BucketKey = BucketKey(key: string, windowSeconds: nat)

  /** A request either opens a new window or joins the open one. */
  function Counted(b: Option<Bucket>, window: nat, now: int): Bucket {
    if b.None? || b.value.expiresAt <= now then Bucket(1, now + window) else b.value.(count := b.value.count + 1)
  }

  class InMemoryRateLimitStore {
    var buckets: map<BucketKey, Bucket>

    constructor ()
      ensures buckets == map[]
    {
      buckets := map[];
    }

    function Find(k: BucketKey): Option<Bucket>
      reads this
    {
      if k in buckets then Some(buckets[k]) else None
    }

    method IncrementAndGet(key: string, windowSeconds: nat, now: int) returns (count: nat, resetSeconds: nat)
      modifies this
      ensures var k := BucketKey(key, windowSeconds);
              var b := Counted(old(Find(k)), windowSeconds, now);
              buckets == old(buckets)[k := b] && count == b.count && resetSeconds == b.expiresAt - now
      ensures resetSeconds > 0 || windowSeconds == 0
    {
      var k := BucketKey(key, windowSeconds);
      if k !in buckets || buckets[k].expiresAt <= now {
        buckets := buckets[k := Bucket(1, now + windowSeconds)];
        return 1, windowSeconds;
      }
      var b := buckets[k];
      buckets := buckets[k := b.(count := b.count + 1)];
      return b.count + 1, Max(0, b.expiresAt - now);
    }
  }

  // ---------------------------------------------------------------- the limiter

  datatype Window = Window(limit: nat, windowSeconds: nat)

  datatype RoutePolicy = RoutePolicy(name: string, burst: Window, sustained: Window)

  function KeyIn(p: RoutePolicy, caller: string, which: string): string { p.name + ":" + caller + ":" + which }

  class RateLimiter {
    const store: InMemoryRateLimitStore

    constructor (store: InMemoryRateLimitStore)
      ensures this.store == store
    {
      this.store := store;
    }

    /** Both counters move whatever the outcome; the request passes exactly when both are within their limits. */
    method Admit(p: RoutePolicy, caller: string, now: int) returns (admitted: bool)
      modifies store
      ensures var kb := BucketKey(KeyIn(p, caller, "burst"), p.burst.windowSeconds);
              var ks := BucketKey(KeyIn(p, caller, "sustained"), p.sustained.windowSeconds);
              var b := Counted(old(store.Find(kb)), kb.windowSeconds, now);
              var s := Counted(old(store.Find(ks)), ks.windowSeconds, now);
              && (admitted <==> b.count <= p.burst.limit && s.count <= p.sustained.limit)
              && store.buckets == old(store.buckets)[kb := b][ks := s]
    {
      KeysDiffer(p, caller);
      var burst, _ := store.IncrementAndGet(KeyIn(p, caller, "burst"), p.burst.windowSeconds, now);
      var sustained, _ := store.IncrementAndGet(KeyIn(p, caller, "sustained"), p.sustained.windowSeconds, now);
      return burst <= p.burst.limit && sustained <= p.sustained.limit;
    }
  }

  lemma KeysDiffer(p: RoutePolicy, caller: string)
    ensures KeyIn(p, caller, "burst") != KeyIn(p, caller, "sustained")
  {
    var head := p.name + ":" + caller + ":";
    assert |head + "burst"| != |head + "sustained"|;
  }

  // ---------------------------------------------------------------- windows over a run

  /** A request of one caller: when it came, when its window opened, and the count it was given. */
  datatype Hit = Hit(at: int, opens: int, count: nat)

  /** Windows do not overlap, a hit falls in its window, and a window hands out each count once. */
  ghost predicate Windowed(hits: seq<Hit>, window: nat) {
    && (forall i | 0 <= i < |hits| :: hits[i].opens <= hits[i].at < hits[i].opens + window && hits[i].count >= 1)
    && (forall i, j | 0 <= i < j < |hits| ::
          if hits[i].opens == hits[j].opens then hits[i].count < hits[j].count
          else hits[i].opens + window <= hits[j].opens)
  }

  /** The window opens with its first request. */
  ghost predicate OpenedByFirst(hits: seq<Hit>) {
    forall i | 0 <= i < |hits| :: hits[i].count == 1 ==> hits[i].at == hits[i].opens
  }

  /** The requests of the stretch of one window length from `from` whose count was within the limit. */
  function Passed(hits: seq<Hit>, limit: nat, from: int, window: nat): set<int> {
    set i | 0 <= i < |hits| && from <= hits[i].at < from + window && hits[i].count <= limit
  }

  function PassedIn(hits: seq<Hit>, opens: int, low: nat, limit: nat): set<int> {
    set i | 0 <= i < |hits| && hits[i].opens == opens && low <= hits[i].count <= limit
  }

  /** One window passes each count once. */
  lemma {:induction false} WindowPasses(hits: seq<Hit>, window: nat, opens: int, low: nat, limit: nat)
    requires Windowed(hits, window) && low <= limit + 1
    ensures |PassedIn(hits, opens, low, limit)| <= limit + 1 - low
    decreases limit + 1 - low
  {
    var s := PassedIn(hits, opens, low, limit);
    if low == limit + 1 {
      assert s == {};
    } else {
      WindowPasses(hits, window, opens, low + 1, limit);
      var rest := PassedIn(hits, opens, low + 1, limit);
      if i :| i in s && hits[i].count == low {
        forall j | j in s && j != i ensures j in rest {
          CountsDiffer(hits, window, i, j);
        }
        assert s <= rest + {i};
        SubsetSize(s, rest + {i});
        assert |rest + {i}| <= |rest| + 1;
      } else {
        assert s == rest;
      }
    }
  }

  lemma CountsDiffer(hits: seq<Hit>, window: nat, i: nat, j: nat)
    requires Windowed(hits, window) && i < |hits| && j < |hits| && i != j && hits[i].opens == hits[j].opens
    ensures hits[i].count != hits[j].count
  {
    var x, y := Min(i, j), Max(i, j);
    assert hits[x].count < hits[y].count;
  }

  /** A stretch of one window length meets at most two windows, and the earlier of two opened before it. */
  lemma TwoWindowsMeet(hits: seq<Hit>, window: nat, limit: nat, from: int, i: int, j: int, k: int)
    requires Windowed(hits, window)
    requires {i, j, k} <= Passed(hits, limit, from, window)
    requires hits[i].opens < hits[j].opens
    ensures hits[i].opens < from <= hits[j].opens
    ensures hits[k].opens == hits[i].opens || hits[k].opens == hits[j].opens
  {
    assert i in {i, j, k} && j in {i, j, k} && k in {i, j, k};
    var a, b := Min(i, j), Max(i, j);
    assert a < b && hits[a].opens + window <= hits[b].opens;
    var x, y := Min(i, k), Max(i, k);
    assert x < y ==> hits[x].opens == hits[y].opens || hits[x].opens + window <= hits[y].opens;
    var u, v := Min(j, k), Max(j, k);
    assert u < v ==> hits[u].opens == hits[v].opens || hits[u].opens + window <= hits[v].opens;
  }

  /** Two windows in one stretch; counts in the earlier start at `low`. */
  lemma TwoWindowsPass(hits: seq<Hit>, window: nat, limit: nat, from: int, i: int, j: int, low: nat)
    requires Windowed(hits, window) && {i, j} <= Passed(hits, limit, from, window)
    requires hits[i].opens < hits[j].opens && 1 <= low <= limit + 1
    requires forall k | k in Passed(hits, limit, from, window) && hits[k].opens == hits[i].opens :: hits[k].count >= low
    ensures |Passed(hits, limit, from, window)| <= 2 * limit + 1 - low
  {
    var s := Passed(hits, limit, from, window);
    var first, second := PassedIn(hits, hits[i].opens, low, limit), PassedIn(hits, hits[j].opens, 1, limit);
    assert i in {i, j} && j in {i, j};
    forall k | k in s ensures k in first + second {
      TwoWindowsMeet(hits, window, limit, from, i, j, k);
    }
    SubsetSize(s, first + second);
    WindowPasses(hits, window, hits[i].opens, low, limit);
    WindowPasses(hits, window, hits[j].opens, 1, limit);
  }

  lemma OneWindowPasses(hits: seq<Hit>, window: nat, limit: nat, from: int)
    requires Windowed(hits, window)
    requires forall i, j | i in Passed(hits, limit, from, window) && j in Passed(hits, limit, from, window) ::
               hits[i].opens == hits[j].opens
    ensures |Passed(hits, limit, from, window)| <= limit
  {
    var s := Passed(hits, limit, from, window);
    if s != {} {
      var i :| i in s;
      SubsetSize(s, PassedIn(hits, hits[i].opens, 1, limit));
      WindowPasses(hits, window, hits[i].opens, 1, limit);
    }
  }

  /**
   However requests arrive, any stretch of one window length passes at most twice the limit, and one
   less when the window opens with its first request.
   */
  lemma SlidingBound(hits: seq<Hit>, window: nat, limit: nat, from: int)
    requires Windowed(hits, window)
    ensures |Passed(hits, limit, from, window)| <= 2 * limit
    ensures OpenedByFirst(hits) && limit > 0 ==> |Passed(hits, limit, from, window)| <= 2 * limit - 1
  {
    var s := Passed(hits, limit, from, window);
    if i, j :| i in s && j in s && hits[i].opens < hits[j].opens {
      TwoWindowsPass(hits, window, limit, from, i, j, 1);
      if OpenedByFirst(hits) && limit > 0 {
        TwoWindowsMeet(hits, window, limit, from, i, j, i);
        TwoWindowsPass(hits, window, limit, from, i, j, 2);
      }
    } else {
      OneWindowPasses(hits, window, limit, from);
    }
  }

  // ---------------------------------------------------------------- the in-memory store

  function BucketAfter(times: seq<int>, window: nat): Option<Bucket> {
    if times == [] then None
    else Some(Counted(BucketAfter(times[..|times| - 1], window), window, times[|times| - 1]))
  }

  function MemoryHits(times: seq<int>, window: nat): seq<Hit> {
    if times == [] then []
    else
      var b := BucketAfter(times, window).value;
      MemoryHits(times[..|times| - 1], window) + [Hit(times[|times| - 1], b.expiresAt - window, b.count)]
  }

  ghost predicate Monotone(times: seq<int>) { forall i, j | 0 <= i < j < |times| :: times[i] <= times[j] }

  /** Counters of the in-memory store form windows that each open with their first request. */
  lemma {:induction false} MemoryWindows(times: seq<int>, window: nat)
    requires Monotone(times) && window > 0
    ensures var hits := MemoryHits(times, window);
            && |hits| == |times| && Windowed(hits, window) && OpenedByFirst(hits)
            && (times != [] ==> var b := BucketAfter(times, window).value;
                                hits[|hits| - 1] == Hit(times[|times| - 1], b.expiresAt - window, b.count))
    decreases times
  {
    if times != [] {
      var n := |times| - 1;
      var before, now := times[..n], times[n];
      MemoryWindows(before, window);
      var hits, b := MemoryHits(before, window), BucketAfter(times, window).value;
      var hit := Hit(now, b.expiresAt - window, b.count);
      if n > 0 {
        var last := hits[n - 1];
        assert last.at <= now;
        forall i | 0 <= i < n
          ensures if hits[i].opens == hit.opens then hits[i].count < hit.count else hits[i].opens + window <= hit.opens
        {
          if i < n - 1 {
            assert if hits[i].opens == last.opens then hits[i].count < last.count
                   else hits[i].opens + window <= last.opens;
          }
        }
      }
    }
  }

  /** Over every run with a clock that does not go back. */
  lemma MemoryBound(times: seq<int>, window: nat, limit: nat, from: int)
    requires Monotone(times) && window > 0 && limit > 0
    ensures |Passed(MemoryHits(times, window), limit, from, window)| <= 2 * limit - 1
  {
    MemoryWindows(times, window);
    SlidingBound(MemoryHits(times, window), window, limit, from);
  }

  // ---------------------------------------------------------------- the aligned store

  /** `open` tells when the window of an instant opens, and windows cover time without overlapping. */
  ghost predicate Tiles(open: int -> int, window: nat) {
    && (forall t :: open(t) <= t < open(t) + window)
    && (forall t, u :: t <= u ==> open(t) == open(u) || open(t) + window <= open(u))
  }

  /** Requests so far in the window of `now`. */
  function CountIn(times: seq<int>, open: int -> int, now: int): nat {
    if times == [] then 0
    else CountIn(times[..|times| - 1], open, now) + if open(times[|times| - 1]) == open(now) then 1 else 0
  }

  function TiledHits(times: seq<int>, open: int -> int): seq<Hit> {
    if times == [] then []
    else
      var now := times[|times| - 1];
      TiledHits(times[..|times| - 1], open) + [Hit(now, open(now), CountIn(times, open, now))]
  }

  lemma {:induction false} TiledHitsAt(times: seq<int>, open: int -> int)
    ensures var hits := TiledHits(times, open);
            |hits| == |times| && forall i | 0 <= i < |hits| ::
              hits[i] == Hit(times[i], open(times[i]), CountIn(times[..i + 1], open, times[i]))
    decreases times
  {
    if times != [] {
      var n := |times| - 1;
      TiledHitsAt(times[..n], open);
      assert times[..n + 1] == times;
      forall i | 0 <= i < n
        ensures CountIn(times[..n][..i + 1], open, times[i]) == CountIn(times[..i + 1], open, times[i])
      {
        assert times[..n][..i + 1] == times[..i + 1];
      }
    }
  }

  lemma {:induction false} SameWindowCount(times: seq<int>, open: int -> int, a: int, b: int)
    requires open(a) == open(b)
    ensures CountIn(times, open, a) == CountIn(times, open, b)
    decreases times
  {
    if times != [] {
      SameWindowCount(times[..|times| - 1], open, a, b);
    }
  }

  lemma {:induction false} CountGrows(times: seq<int>, i: nat, open: int -> int, now: int)
    requires i <= |times|
    ensures CountIn(times[..i], open, now) <= CountIn(times, open, now)
    decreases times
  {
    if i == |times| {
      assert times[..i] == times;
    } else {
      assert times[..|times| - 1][..i] == times[..i];
      CountGrows(times[..|times| - 1], i, open, now);
    }
  }

  lemma LaterCount(times: seq<int>, open: int -> int, i: nat, j: nat)
    requires i < j < |times| && open(times[i]) == open(times[j])
    ensures CountIn(times[..i + 1], open, times[i]) < CountIn(times[..j + 1], open, times[j])
  {
    assert times[..j + 1][..j] == times[..j];
    SameWindowCount(times[..i + 1], open, times[i], times[j]);
    assert times[..j][..i + 1] == times[..i + 1];
    CountGrows(times[..j], i + 1, open, times[j]);
  }

  lemma CountStartsAtOne(times: seq<int>, open: int -> int, i: nat)
    requires i < |times|
    ensures CountIn(times[..i + 1], open, times[i]) >= 1
  {
    assert times[..i + 1][..i] == times[..i];
  }

  lemma TilesApart(open: int -> int, window: nat, t: int, u: int)
    requires Tiles(open, window) && t <= u
    ensures open(t) <= t < open(t) + window
    ensures open(t) == open(u) || open(t) + window <= open(u)
  {
  }

  lemma TiledWindows(times: seq<int>, open: int -> int, window: nat)
    requires Monotone(times) && Tiles(open, window)
    ensures Windowed(TiledHits(times, open), window)
  {
    var hits := TiledHits(times, open);
    TiledHitsAt(times, open);
    forall i | 0 <= i < |hits| ensures hits[i].opens <= hits[i].at < hits[i].opens + window && hits[i].count >= 1 {
      CountStartsAtOne(times, open, i);
      TilesApart(open, window, times[i], times[i]);
    }
    forall i, j | 0 <= i < j < |hits|
      ensures if hits[i].opens == hits[j].opens then hits[i].count < hits[j].count
              else hits[i].opens + window <= hits[j].opens
    {
      TilesApart(open, window, times[i], times[j]);
      if hits[i].opens == hits[j].opens { LaterCount(times, open, i, j); }
    }
  }

  /** When the window of an instant opens, where windows are numbered by `floor(now / window)`. */
  function Aligned(now: int, window: nat): int
    requires window > 0
  {
    window * (now / window)
  }

  lemma AlignedSpan(now: int, window: nat)
    requires window > 0
    ensures Aligned(now, window) <= now < Aligned(now, window) + window
  {
  }

  lemma AlignedApart(now: int, later: int, window: nat)
    requires window > 0 && now <= later
    ensures Aligned(now, window) == Aligned(later, window) || Aligned(now, window) + window <= Aligned(later, window)
  {
    AlignedSpan(now, window);
    AlignedSpan(later, window);
    var a, b := now / window, later / window;
    if a < b {
      MulStep(window, a, b);
    } else if b < a {
      MulStep(window, b, a);
      assert false;
    }
  }

  lemma MulStep(w: nat, a: int, b: int)
    requires a + 1 <= b
    ensures w * a + w <= w * b
  {
    assert w * (b - (a + 1)) >= 0;
    assert w * b == w * (b - (a + 1)) + w * a + w;
  }

  function Opening(window: nat): int -> int
    requires window > 0
  {
    now => Aligned(now, window)
  }

  lemma AlignedTiles(window: nat)
    requires window > 0
    ensures Tiles(Opening(window), window)
  {
    var open := Opening(window);
    forall t ensures open(t) <= t < open(t) + window { AlignedSpan(t, window); }
    forall t, u | t <= u ensures open(t) == open(u) || open(t) + window <= open(u) { AlignedApart(t, u, window); }
  }

  /** Over every run with a clock that does not go back. */
  lemma AlignedBound(times: seq<int>, window: nat, limit: nat, from: int)
    requires Monotone(times) && window > 0
    ensures |Passed(TiledHits(times, Opening(window)), limit, from, window)| <= 2 * limit
  {
    AlignedTiles(window);
    TiledWindows(times, Opening(window), window);
    SlidingBound(TiledHits(times, Opening(window)), window, limit, from);
  }

  // ---------------------------------------------------------------- the bounds are reached

  function MemoryHit(times: seq<int>, window: nat, i: nat): Hit
    requires i < |times|
  {
    var b := BucketAfter(times[..i + 1], window).value;
    Hit(times[i], b.expiresAt - window, b.count)
  }

  lemma {:induction false} MemoryHitsAt(times: seq<int>, window: nat)
    ensures var hits := MemoryHits(times, window);
            |hits| == |times| && forall i | 0 <= i < |hits| :: hits[i] == MemoryHit(times, window, i)
    decreases times
  {
    if times != [] {
      var n := |times| - 1;
      MemoryHitsAt(times[..n], window);
      assert times[..n + 1] == times;
      forall i | 0 <= i < n ensures MemoryHit(times[..n], window, i) == MemoryHit(times, window, i) {
        assert times[..n][..i + 1] == times[..i + 1];
      }
    }
  }

  lemma {:induction false} RangeSize(low: int, high: int, s: set<int>)
    requires low <= high && forall i | low <= i < high :: i in s
    ensures |s| >= high - low
    decreases high - low
  {
    if low < high {
      RangeSize(low + 1, high, s - {low});
    }
  }

  /** One request, then the rest of the limit just before the window ends, then the limit again as it has ended. */
  function Straddling(limit: nat, window: nat): seq<int>
    requires limit > 0
  {
    seq(2 * limit, i => if i == 0 then 0 else if i < limit then window - 1 else window as int)
  }

  lemma {:induction false} StraddlingBuckets(limit: nat, window: nat, n: nat)
    requires limit > 0 && window > 1 && n < 2 * limit
    ensures BucketAfter(Straddling(limit, window)[..n + 1], window)
         == Some(if n < limit then Bucket(n + 1, window) else Bucket(n - limit + 1, 2 * window))
  {
    var times := Straddling(limit, window);
    assert times[..n + 1][..n] == times[..n];
    if n > 0 {
      StraddlingBuckets(limit, window, n - 1);
    }
  }

  lemma StraddlingPasses(limit: nat, window: nat, i: nat)
    requires limit > 0 && window > 1 && 1 <= i < 2 * limit
    ensures i in Passed(MemoryHits(Straddling(limit, window), window), limit, window - 1, window)
  {
    MemoryHitsAt(Straddling(limit, window), window);
    StraddlingBuckets(limit, window, i);
  }

  /** For every limit and every window longer than a second some run passes 2*limit-1 within one window length. */
  lemma MemoryBoundIsReached(limit: nat, window: nat)
    requires limit > 0 && window > 1
    ensures Monotone(Straddling(limit, window))
    ensures |Passed(MemoryHits(Straddling(limit, window), window), limit, window - 1, window)| == 2 * limit - 1
  {
    var times := Straddling(limit, window);
    var passed := Passed(MemoryHits(times, window), limit, window - 1, window);
    forall i | 1 <= i < 2 * limit ensures i in passed {
      StraddlingPasses(limit, window, i);
    }
    RangeSize(1, 2 * limit, passed);
    MemoryBound(times, window, limit, window - 1);
  }

  /** The limit in the last second of a window, and again in the first of the next. */
  function AcrossTheEdge(limit: nat, window: nat): seq<int> {
    seq(2 * limit, i => if i < limit then window - 1 else window as int)
  }

  lemma {:induction false} EdgeCounts(limit: nat, window: nat, n: nat)
    requires window > 0 && n <= 2 * limit
    ensures CountIn(AcrossTheEdge(limit, window)[..n], Opening(window), window - 1) == Min(n, limit)
    ensures CountIn(AcrossTheEdge(limit, window)[..n], Opening(window), window) == Max(0, n - limit)
  {
    var times := AcrossTheEdge(limit, window);
    EdgeWindows(window);
    if n > 0 {
      assert times[..n][..n - 1] == times[..n - 1];
      EdgeCounts(limit, window, n - 1);
    }
  }

  lemma EdgeWindows(window: nat)
    requires window > 0
    ensures Opening(window)(window - 1) == 0 && Opening(window)(window) == window
  {
    assert (window - 1) / window == 0;
    assert window / window == 1;
  }

  lemma EdgePasses(limit: nat, window: nat, i: nat)
    requires window > 1 && i < 2 * limit
    ensures i in Passed(TiledHits(AcrossTheEdge(limit, window), Opening(window)), limit, window - 1, window)
  {
    var times := AcrossTheEdge(limit, window);
    TiledHitsAt(times, Opening(window));
    EdgeCounts(limit, window, i + 1);
    assert times[i] == if i < limit then window - 1 else window as int;
  }

  /** The same for aligned windows: some run passes 2*limit. */
  lemma AlignedBoundIsReached(limit: nat, window: nat)
    requires window > 1
    ensures Monotone(AcrossTheEdge(limit, window))
    ensures |Passed(TiledHits(AcrossTheEdge(limit, window), Opening(window)), limit, window - 1, window)| == 2 * limit
  {
    var times := AcrossTheEdge(limit, window);
    var passed := Passed(TiledHits(times, Opening(window)), limit, window - 1, window);
    forall i | 0 <= i < 2 * limit ensures i in passed {
      EdgePasses(limit, window, i);
    }
    RangeSize(0, 2 * limit, passed);
    AlignedBound(times, window, limit, window - 1);
  }
}
