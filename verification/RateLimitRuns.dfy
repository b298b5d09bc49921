/**
 Runs of the rate-limiting middleware: any callers and route policies, each request counted in a burst
 and in a sustained window, and how often one caller gets through.
 */
module RateLimitRuns {
  import opened Common
  import opened RateLimit

  datatype Arrival = Arrival(policy: RoutePolicy, caller: string, now: int)

  function BurstKey(a: Arrival): BucketKey {
    BucketKey(KeyIn(a.policy, a.caller, "burst"), a.policy.burst.windowSeconds)
  }

  function SustainedKey(a: Arrival): BucketKey {
    BucketKey(KeyIn(a.policy, a.caller, "sustained"), a.policy.sustained.windowSeconds)
  }

  predicate Touches(a: Arrival, k: BucketKey) { k == BurstKey(a) || k == SustainedKey(a) }

  /** When the counter of a key was moved. */
  function TimesOf(arrivals: seq<Arrival>, k: BucketKey): seq<int> {
    if arrivals == [] then []
    else
      var last := arrivals[|arrivals| - 1];
      TimesOf(arrivals[..|arrivals| - 1], k) + if Touches(last, k) then [last.now] else []
  }

  /** The clock does not go back. */
  ghost predicate Steady(arrivals: seq<Arrival>) {
    forall i, j | 0 <= i < j < |arrivals| :: arrivals[i].now <= arrivals[j].now
  }

  // ---------------------------------------------------------------- one caller's hits among the others'

  function Index(arrivals: seq<Arrival>, k: BucketKey, i: nat): nat
    requires i <= |arrivals|
  {
    |TimesOf(arrivals[..i], k)|
  }

  lemma TimesNext(arrivals: seq<Arrival>, k: BucketKey, i: nat)
    requires i < |arrivals|
    ensures TimesOf(arrivals[..i + 1], k)
         == TimesOf(arrivals[..i], k) + if Touches(arrivals[i], k) then [arrivals[i].now] else []
  {
    assert arrivals[..i + 1][..i] == arrivals[..i];
  }

  lemma {:induction false} TimesPrefix(arrivals: seq<Arrival>, k: BucketKey, i: nat, j: nat)
    requires i <= j <= |arrivals|
    ensures TimesOf(arrivals[..i], k) <= TimesOf(arrivals[..j], k)
    decreases j
  {
    if i < j {
      TimesPrefix(arrivals, k, i, j - 1);
      TimesNext(arrivals, k, j - 1);
    }
  }

  /** A request that moves the key is found at its place in the key's own list of times. */
  lemma FoundAtIndex(arrivals: seq<Arrival>, k: BucketKey, i: nat)
    requires i < |arrivals| && Touches(arrivals[i], k)
    ensures var n, times := Index(arrivals, k, i), TimesOf(arrivals, k);
            n < |times| && times[n] == arrivals[i].now && times[..n] == TimesOf(arrivals[..i], k)
            && times[..n + 1] == TimesOf(arrivals[..i + 1], k)
  {
    TimesNext(arrivals, k, i);
    TimesPrefix(arrivals, k, i + 1, |arrivals|);
    assert arrivals[..|arrivals|] == arrivals;
  }

  lemma IndexGrows(arrivals: seq<Arrival>, k: BucketKey, i: nat, j: nat)
    requires i < j < |arrivals| && Touches(arrivals[i], k)
    ensures Index(arrivals, k, i) < Index(arrivals, k, j)
  {
    TimesNext(arrivals, k, i);
    TimesPrefix(arrivals, k, i + 1, j);
  }

  lemma {:induction false} TimesSteady(arrivals: seq<Arrival>, k: BucketKey)
    requires Steady(arrivals)
    ensures Monotone(TimesOf(arrivals, k))
    ensures forall m | 0 <= m < |TimesOf(arrivals, k)| :: TimesOf(arrivals, k)[m] <= arrivals[|arrivals| - 1].now
    decreases arrivals
  {
    if arrivals != [] {
      var n := |arrivals| - 1;
      var before := TimesOf(arrivals[..n], k);
      TimesSteady(arrivals[..n], k);
      forall m | 0 <= m < |before| ensures before[m] <= arrivals[n].now {
        assert arrivals[n - 1].now <= arrivals[n].now;
      }
    }
  }

  /** Different members of `s` go to different members of `t`. */
  ghost predicate Injects<T, U>(s: set<T>, f: T -> U, t: set<U>) {
    && (forall i | i in s :: f(i) in t)
    && forall i, j | i in s && j in s && i != j :: f(i) != f(j)
  }

  lemma {:induction false} InjectedSize<T, U>(s: set<T>, f: T -> U, t: set<U>)
    requires Injects(s, f, t)
    ensures |s| <= |t|
    decreases |s|
  {
    if s != {} {
      var x :| x in s;
      InjectedSize(s - {x}, f, t - {f(x)});
    }
  }

  function IndexOrZero(arrivals: seq<Arrival>, k: BucketKey): int -> int {
    i => if 0 <= i < |arrivals| then Index(arrivals, k, i) else 0
  }

  /** Requests of a stretch whose hit on one key was within the limit are no more than the key's passes there. */
  lemma NoMoreThanPasses(arrivals: seq<Arrival>, k: BucketKey, hits: seq<Hit>, limit: nat, from: int, s: set<int>)
    requires |hits| == |TimesOf(arrivals, k)| && forall n | 0 <= n < |hits| :: hits[n].at == TimesOf(arrivals, k)[n]
    requires forall i | i in s :: 0 <= i < |arrivals| && Touches(arrivals[i], k)
    requires forall i | i in s :: from <= arrivals[i].now < from + k.windowSeconds
    requires forall i | i in s :: Index(arrivals, k, i) < |hits| && hits[Index(arrivals, k, i)].count <= limit
    ensures |s| <= |Passed(hits, limit, from, k.windowSeconds)|
  {
    var f := IndexOrZero(arrivals, k);
    forall i | i in s ensures f(i) in Passed(hits, limit, from, k.windowSeconds) {
      FoundAtIndex(arrivals, k, i);
    }
    forall i, j | i in s && j in s && i != j ensures f(i) != f(j) {
      IndexGrows(arrivals, k, Min(i, j), Max(i, j));
    }
    InjectedSize(s, f, Passed(hits, limit, from, k.windowSeconds));
  }

  // ---------------------------------------------------------------- the in-memory store

  function FindIn(m: map<BucketKey, Bucket>, k: BucketKey): Option<Bucket> { if k in m then Some(m[k]) else None }

  function CountedIn(m: map<BucketKey, Bucket>, k: BucketKey, now: int): Bucket {
    Counted(FindIn(m, k), k.windowSeconds, now)
  }

  /** The counters after a run of requests. */
  function CountersAfter(arrivals: seq<Arrival>): map<BucketKey, Bucket> {
    if arrivals == [] then map[]
    else
      var m, a := CountersAfter(arrivals[..|arrivals| - 1]), arrivals[|arrivals| - 1];
      m[BurstKey(a) := CountedIn(m, BurstKey(a), a.now)][SustainedKey(a) := CountedIn(m, SustainedKey(a), a.now)]
  }

  predicate AdmittedAt(arrivals: seq<Arrival>, i: nat)
    requires i < |arrivals|
  {
    var m, a := CountersAfter(arrivals[..i]), arrivals[i];
    && CountedIn(m, BurstKey(a), a.now).count <= a.policy.burst.limit
    && CountedIn(m, SustainedKey(a), a.now).count <= a.policy.sustained.limit
  }

  /** The middleware over a list of requests. */
  method AdmitAll(arrivals: seq<Arrival>) returns (admitted: seq<bool>)
    ensures |admitted| == |arrivals| && forall i | 0 <= i < |arrivals| :: admitted[i] == AdmittedAt(arrivals, i)
  {
    var store := new InMemoryRateLimitStore();
    var limiter := new RateLimiter(store);
    admitted := [];
    for i := 0 to |arrivals|
      invariant limiter.store == store && |admitted| == i && store.buckets == CountersAfter(arrivals[..i])
      invariant forall j | 0 <= j < i :: admitted[j] == AdmittedAt(arrivals, j)
    {
      var a := arrivals[i];
      assert arrivals[..i + 1][..i] == arrivals[..i];
      var ok := limiter.Admit(a.policy, a.caller, a.now);
      admitted := admitted + [ok];
    }
    assert arrivals[..|arrivals|] == arrivals;
  }

  /** The counter of a key is that of its own times alone, whoever else is counted meanwhile. */
  lemma {:induction false} CountersAreSeparate(arrivals: seq<Arrival>, k: BucketKey)
    ensures FindIn(CountersAfter(arrivals), k) == BucketAfter(TimesOf(arrivals, k), k.windowSeconds)
    decreases arrivals
  {
    if arrivals != [] {
      var n := |arrivals| - 1;
      var a, times := arrivals[n], TimesOf(arrivals[..n], k);
      CountersAreSeparate(arrivals[..n], k);
      KeysDiffer(a.policy, a.caller);
      if Touches(a, k) {
        assert (times + [a.now])[..|times|] == times;
      } else {
        assert times + [] == times;
      }
    }
  }

  /** The requests of one caller under one policy that were admitted in a stretch of time. */
  function AdmittedOf(arrivals: seq<Arrival>, p: RoutePolicy, caller: string, from: int, window: nat): set<int> {
    set i | 0 <= i < |arrivals| && arrivals[i].policy == p && arrivals[i].caller == caller
            && from <= arrivals[i].now < from + window && AdmittedAt(arrivals, i)
  }

  lemma CountAtIndex(arrivals: seq<Arrival>, k: BucketKey, i: nat)
    requires i < |arrivals| && Touches(arrivals[i], k)
    ensures var hits := MemoryHits(TimesOf(arrivals, k), k.windowSeconds);
            && Index(arrivals, k, i) < |hits|
            && hits[Index(arrivals, k, i)].count == CountedIn(CountersAfter(arrivals[..i]), k, arrivals[i].now).count
  {
    FoundAtIndex(arrivals, k, i);
    MemoryHitsAt(TimesOf(arrivals, k), k.windowSeconds);
    CountersAreSeparate(arrivals[..i], k);
    assert MemoryHit(TimesOf(arrivals, k), k.windowSeconds, Index(arrivals, k, i)).at == arrivals[i].now;
    var before := TimesOf(arrivals[..i], k);
    TimesNext(arrivals, k, i);
    assert (before + [arrivals[i].now])[..|before|] == before;
  }

  lemma KeyBound(arrivals: seq<Arrival>, p: RoutePolicy, caller: string, k: BucketKey, limit: nat, from: int)
    requires Steady(arrivals) && limit > 0 && k.windowSeconds > 0
    requires forall now :: Touches(Arrival(p, caller, now), k)
    requires forall i | 0 <= i < |arrivals| && arrivals[i].policy == p && arrivals[i].caller == caller ::
               AdmittedAt(arrivals, i) ==> CountedIn(CountersAfter(arrivals[..i]), k, arrivals[i].now).count <= limit
    ensures |AdmittedOf(arrivals, p, caller, from, k.windowSeconds)| <= 2 * limit - 1
  {
    var times, s := TimesOf(arrivals, k), AdmittedOf(arrivals, p, caller, from, k.windowSeconds);
    var hits := MemoryHits(times, k.windowSeconds);
    MemoryHitsAt(times, k.windowSeconds);
    forall i | i in s
      ensures Touches(arrivals[i], k) && Index(arrivals, k, i) < |hits| && hits[Index(arrivals, k, i)].count <= limit
    {
      assert arrivals[i] == Arrival(p, caller, arrivals[i].now);
      CountAtIndex(arrivals, k, i);
    }
    NoMoreThanPasses(arrivals, k, hits, limit, from, s);
    TimesSteady(arrivals, k);
    MemoryBound(times, k.windowSeconds, limit, from);
  }

  /**
   Over every run of any callers and policies: one caller under one policy is admitted at most
   2*limit-1 times in any stretch as long as the burst window, by the burst limit, and as long as the
   sustained window, by the sustained limit.
   */
  lemma CallerBound(arrivals: seq<Arrival>, p: RoutePolicy, caller: string, from: int)
    requires Steady(arrivals) && p.burst.limit > 0 && p.sustained.limit > 0
    requires p.burst.windowSeconds > 0 && p.sustained.windowSeconds > 0
    ensures |AdmittedOf(arrivals, p, caller, from, p.burst.windowSeconds)| <= 2 * p.burst.limit - 1
    ensures |AdmittedOf(arrivals, p, caller, from, p.sustained.windowSeconds)| <= 2 * p.sustained.limit - 1
  {
    var a := Arrival(p, caller, 0);
    KeyBound(arrivals, p, caller, BurstKey(a), p.burst.limit, from);
    KeyBound(arrivals, p, caller, SustainedKey(a), p.sustained.limit, from);
  }

  // ---------------------------------------------------------------- the shared store

  /** A counter of the shared store is named by its window's number too. */
  datatype SharedKey = SharedKey(key: BucketKey, number: int)

  function SharedAt(k: BucketKey, now: int): SharedKey
    requires k.windowSeconds > 0
  {
    SharedKey(k, now / k.windowSeconds)
  }

  function Incremented(m: map<SharedKey, nat>, k: SharedKey): nat { (if k in m then m[k] else 0) + 1 }

  predicate Timed(a: Arrival) { a.policy.burst.windowSeconds > 0 && a.policy.sustained.windowSeconds > 0 }

  ghost predicate AllTimed(arrivals: seq<Arrival>) { forall i | 0 <= i < |arrivals| :: Timed(arrivals[i]) }

  function SharedAfter(arrivals: seq<Arrival>): map<SharedKey, nat>
    requires AllTimed(arrivals)
  {
    if arrivals == [] then map[]
    else
      var n := |arrivals| - 1;
      assert AllTimed(arrivals[..n]) by {
        forall i | 0 <= i < n ensures Timed(arrivals[..n][i]) { assert arrivals[..n][i] == arrivals[i]; }
      }
      var m, a := SharedAfter(arrivals[..n]), arrivals[n];
      var b, s := SharedAt(BurstKey(a), a.now), SharedAt(SustainedKey(a), a.now);
      m[b := Incremented(m, b)][s := Incremented(m, s)]
  }

  lemma TimedPrefix(arrivals: seq<Arrival>, n: nat)
    requires AllTimed(arrivals) && n <= |arrivals|
    ensures AllTimed(arrivals[..n])
  {
    forall i | 0 <= i < n ensures Timed(arrivals[..n][i]) { assert arrivals[..n][i] == arrivals[i]; }
  }

  predicate SharedAdmittedAt(arrivals: seq<Arrival>, i: nat)
    requires AllTimed(arrivals) && i < |arrivals|
  {
    TimedPrefix(arrivals, i);
    var m, a := SharedAfter(arrivals[..i]), arrivals[i];
    && Incremented(m, SharedAt(BurstKey(a), a.now)) <= a.policy.burst.limit
    && Incremented(m, SharedAt(SustainedKey(a), a.now)) <= a.policy.sustained.limit
  }

  lemma SameNumber(a: int, b: int, window: nat)
    requires window > 0
    ensures a / window == b / window <==> Opening(window)(a) == Opening(window)(b)
  {
    var m, n := a / window, b / window;
    if m < n {
      MulStep(window, m, n);
    } else if n < m {
      MulStep(window, n, m);
    }
  }

  /** A shared counter is the number of the key's own times in that window. */
  lemma {:induction false} SharedAreSeparate(arrivals: seq<Arrival>, k: BucketKey, now: int)
    requires AllTimed(arrivals) && k.windowSeconds > 0
    ensures Incremented(SharedAfter(arrivals), SharedAt(k, now))
         == CountIn(TimesOf(arrivals, k), Opening(k.windowSeconds), now) + 1
    decreases arrivals
  {
    if arrivals != [] {
      var n := |arrivals| - 1;
      TimedPrefix(arrivals, n);
      var a, times := arrivals[n], TimesOf(arrivals[..n], k);
      SharedAreSeparate(arrivals[..n], k, now);
      KeysDiffer(a.policy, a.caller);
      SameNumber(a.now, now, k.windowSeconds);
      if Touches(a, k) {
        assert (times + [a.now])[..|times|] == times;
      } else {
        assert times + [] == times;
      }
    }
  }

  /** The number of the window an instant falls in. */
  function Window(k: BucketKey, now: int): int
    requires k.windowSeconds > 0
  {
    now / k.windowSeconds
  }

  /** The earlier arrivals that counted on the key in the given window. */
  function InWindow(arrivals: seq<Arrival>, n: nat, k: BucketKey, window: int): set<int>
    requires k.windowSeconds > 0 && n <= |arrivals|
  {
    Marked(CountsIn(arrivals, k, window), n)
  }

  /** Which arrivals move the key's counter in the window. */
  function CountsIn(arrivals: seq<Arrival>, k: BucketKey, window: int): (r: seq<bool>)
    requires k.windowSeconds > 0
    ensures |r| == |arrivals|
  {
    seq(|arrivals|, j requires 0 <= j < |arrivals| => Touches(arrivals[j], k) && Window(k, arrivals[j].now) == window)
  }

  function Marked(flags: seq<bool>, n: nat): set<int>
    requires n <= |flags|
  {
    set j | 0 <= j < n && flags[j]
  }

  lemma SharedStep(arrivals: seq<Arrival>, n: nat, k: BucketKey, now: int)
    requires 0 < n <= |arrivals| && AllTimed(arrivals[..n]) && AllTimed(arrivals[..n - 1]) && k.windowSeconds > 0
    ensures var a, b := Touches(arrivals[n - 1], k), Window(k, arrivals[n - 1].now) == Window(k, now);
            Incremented(SharedAfter(arrivals[..n]), SharedAt(k, now))
            == Incremented(SharedAfter(arrivals[..n - 1]), SharedAt(k, now)) + if a && b then 1 else 0
  {
    assert arrivals[..n][..n - 1] == arrivals[..n - 1];
    KeysDiffer(arrivals[n - 1].policy, arrivals[n - 1].caller);
  }

  lemma MarkedStep(flags: seq<bool>, n: nat)
    requires 0 < n <= |flags|
    ensures |Marked(flags, n)| == |Marked(flags, n - 1)| + if flags[n - 1] then 1 else 0
  {
    if flags[n - 1] {
      assert Marked(flags, n) == Marked(flags, n - 1) + {n - 1};
    } else {
      assert Marked(flags, n) == Marked(flags, n - 1);
    }
  }

  lemma {:induction false} SharedCounts(arrivals: seq<Arrival>, n: nat, k: BucketKey, now: int)
    requires n <= |arrivals| && AllTimed(arrivals[..n]) && k.windowSeconds > 0
    ensures Incremented(SharedAfter(arrivals[..n]), SharedAt(k, now)) == |InWindow(arrivals, n, k, Window(k, now))| + 1
    decreases n
  {
    if n > 0 {
      assert arrivals[..n][..n - 1] == arrivals[..n - 1];
      TimedPrefix(arrivals[..n], n - 1);
      SharedCounts(arrivals, n - 1, k, now);
      SharedStep(arrivals, n, k, now);
      MarkedStep(CountsIn(arrivals, k, Window(k, now)), n);
    }
  }

  /** Over the shared store a request passes exactly if fewer than the limit came before it, in its window of either kind. */
  lemma SharedAdmitsExactly(arrivals: seq<Arrival>, i: nat)
    requires AllTimed(arrivals) && i < |arrivals|
    ensures var a := arrivals[i];
            && BurstKey(a).windowSeconds > 0 && SustainedKey(a).windowSeconds > 0
            && (SharedAdmittedAt(arrivals, i) <==>
                  && |InWindow(arrivals, i, BurstKey(a), Window(BurstKey(a), a.now))| < a.policy.burst.limit
                  && |InWindow(arrivals, i, SustainedKey(a), Window(SustainedKey(a), a.now))| < a.policy.sustained.limit)
  {
    assert Timed(arrivals[i]);
    TimedPrefix(arrivals, i);
    SharedCounts(arrivals, i, BurstKey(arrivals[i]), arrivals[i].now);
    SharedCounts(arrivals, i, SustainedKey(arrivals[i]), arrivals[i].now);
  }

  function SharedAdmittedOf(arrivals: seq<Arrival>, p: RoutePolicy, caller: string, from: int, window: nat): set<int>
    requires AllTimed(arrivals)
  {
    set i | 0 <= i < |arrivals| && arrivals[i].policy == p && arrivals[i].caller == caller
            && from <= arrivals[i].now < from + window && SharedAdmittedAt(arrivals, i)
  }

  lemma SharedCountAtIndex(arrivals: seq<Arrival>, k: BucketKey, i: nat)
    requires AllTimed(arrivals) && k.windowSeconds > 0 && i < |arrivals| && Touches(arrivals[i], k) && AllTimed(arrivals[..i])
    ensures var hits := TiledHits(TimesOf(arrivals, k), Opening(k.windowSeconds));
            && Index(arrivals, k, i) < |hits|
            && hits[Index(arrivals, k, i)].count == Incremented(SharedAfter(arrivals[..i]), SharedAt(k, arrivals[i].now))
  {
    FoundAtIndex(arrivals, k, i);
    TiledHitsAt(TimesOf(arrivals, k), Opening(k.windowSeconds));
    SharedAreSeparate(arrivals[..i], k, arrivals[i].now);
    var before := TimesOf(arrivals[..i], k);
    TimesNext(arrivals, k, i);
    assert (before + [arrivals[i].now])[..|before|] == before;
  }

  lemma SharedKeyBound(arrivals: seq<Arrival>, p: RoutePolicy, caller: string, k: BucketKey, limit: nat, from: int)
    requires Steady(arrivals) && AllTimed(arrivals) && k.windowSeconds > 0
    requires forall now :: Touches(Arrival(p, caller, now), k)
    requires limit == if k == BurstKey(Arrival(p, caller, 0)) then p.burst.limit else p.sustained.limit
    ensures |SharedAdmittedOf(arrivals, p, caller, from, k.windowSeconds)| <= 2 * limit
  {
    var times, s := TimesOf(arrivals, k), SharedAdmittedOf(arrivals, p, caller, from, k.windowSeconds);
    var hits := TiledHits(times, Opening(k.windowSeconds));
    TiledHitsAt(times, Opening(k.windowSeconds));
    forall i | i in s
      ensures Touches(arrivals[i], k) && Index(arrivals, k, i) < |hits| && hits[Index(arrivals, k, i)].count <= limit
    {
      var a := Arrival(p, caller, arrivals[i].now);
      assert arrivals[i] == a && Touches(a, k);
      TimedPrefix(arrivals, i);
      SharedCountAtIndex(arrivals, k, i);
    }
    NoMoreThanPasses(arrivals, k, hits, limit, from, s);
    TimesSteady(arrivals, k);
    AlignedBound(times, k.windowSeconds, limit, from);
  }

  /** The same for the shared store, whose windows are numbered: at most 2*limit in any stretch. */
  lemma SharedCallerBound(arrivals: seq<Arrival>, p: RoutePolicy, caller: string, from: int)
    requires Steady(arrivals) && AllTimed(arrivals) && p.burst.windowSeconds > 0 && p.sustained.windowSeconds > 0
    ensures |SharedAdmittedOf(arrivals, p, caller, from, p.burst.windowSeconds)| <= 2 * p.burst.limit
    ensures |SharedAdmittedOf(arrivals, p, caller, from, p.sustained.windowSeconds)| <= 2 * p.sustained.limit
  {
    var a := Arrival(p, caller, 0);
    KeysDiffer(p, caller);
    SharedKeyBound(arrivals, p, caller, BurstKey(a), p.burst.limit, from);
    SharedKeyBound(arrivals, p, caller, SustainedKey(a), p.sustained.limit, from);
  }
}
