/**
 The in-memory nonce store: an insertion-ordered map that is pruned and capped, against the plain
 question whether the nonce was accepted before and is still remembered.
 */
module NonceStore {
  datatype Key = Key(text: string)

  datatype Entry = Entry(key: Key, expiresAt: int)

  function KeyFor(apiKey: string, nonce: string): Key { Key(apiKey + ":" + nonce) }

  // ---------------------------------------------------------------- what the store's operations compute

  function Live(es: seq<Entry>, now: int): seq<Entry> {
    if es == [] then []
    else Live(es[..|es| - 1], now) + if es[|es| - 1].expiresAt > now then [es[|es| - 1]] else []
  }

  predicate Has(es: seq<Entry>, k: Key) { exists i :: 0 <= i < |es| && es[i].key == k }

  /** The oldest entries go first. */
  function Capped(es: seq<Entry>, max: nat): seq<Entry> { if |es| > max then es[|es| - max..] else es }

  function Consumed(es: seq<Entry>, max: nat, k: Key, ttl: nat, now: int): (seq<Entry>, bool) {
    var live := Live(es, now);
    if Has(live, k) then (live, false) else (Capped(live + [Entry(k, now + 1000 * ttl)], max), true)
  }

  /** An entry for the key that will still refuse it at instant `t`. */
  ghost predicate Remembers(es: seq<Entry>, k: Key, t: int) {
    exists i :: 0 <= i < |es| && es[i].key == k && es[i].expiresAt > t
  }

  lemma PushRemembers(es: seq<Entry>, e: Entry, k: Key, t: int)
    ensures Remembers(es + [e], k, t) <==> Remembers(es, k, t) || (e.key == k && e.expiresAt > t)
  {
    var all := es + [e];
    assert all[|es|] == e;
    if Remembers(es, k, t) {
      var i :| 0 <= i < |es| && es[i].key == k && es[i].expiresAt > t;
      assert all[i] == es[i];
    }
  }

  lemma {:induction false} LiveRemembers(es: seq<Entry>, now: int, k: Key, t: int)
    requires now <= t
    ensures Remembers(Live(es, now), k, t) <==> Remembers(es, k, t)
    decreases es
  {
    if es != [] {
      var n := |es| - 1;
      var init, last := es[..n], es[n];
      LiveRemembers(init, now, k, t);
      assert es == init + [last];
      PushRemembers(init, last, k, t);
      if last.expiresAt > now {
        PushRemembers(Live(init, now), last, k, t);
      } else {
        assert Live(init, now) + [] == Live(init, now);
      }
    }
  }

  lemma {:induction false} LiveOnly(es: seq<Entry>, now: int)
    ensures forall i | 0 <= i < |Live(es, now)| :: Live(es, now)[i].expiresAt > now
    ensures |Live(es, now)| <= |es|
    decreases es
  {
    if es != [] {
      LiveOnly(es[..|es| - 1], now);
    }
  }

  /** The answer in terms of the entries alone: refused exactly while an unexpired entry for the key is stored. */
  lemma RefusedExactly(es: seq<Entry>, max: nat, k: Key, ttl: nat, now: int)
    ensures !Consumed(es, max, k, ttl, now).1 <==> Remembers(es, k, now)
  {
    var live := Live(es, now);
    LiveOnly(es, now);
    LiveRemembers(es, now, k, now);
    if Has(live, k) {
      var i :| 0 <= i < |live| && live[i].key == k;
      assert live[i].expiresAt > now;
    }
  }

  // ---------------------------------------------------------------- the store

  class InMemoryNonceStore {
    const maxEntries: nat
    var entries: seq<Entry>

    constructor (maxEntries: nat)
      ensures this.maxEntries == maxEntries && entries == []
    {
      this.maxEntries := maxEntries;
      entries := [];
    }

    method PruneExpired(now: int)
      modifies `entries
      ensures entries == Live(old(entries), now)
    {
      var kept: seq<Entry> := [];
      for i := 0 to |entries|
        invariant entries == old(entries) && kept == Live(entries[..i], now)
      {
        assert entries[..i + 1][..i] == entries[..i];
        if entries[i].expiresAt > now { kept := kept + [entries[i]]; }
      }
      assert entries[..|entries|] == entries;
      entries := kept;
    }

    method CapStoreSize()
      modifies `entries
      ensures entries == Capped(old(entries), maxEntries)
    {
      while |entries| > maxEntries
        invariant |entries| <= |old(entries)|
        invariant entries == old(entries)[|old(entries)| - |entries|..]
        invariant |entries| >= maxEntries || entries == old(entries)
      {
        entries := entries[1..];
      }
    }

    method Consume(apiKey: string, nonce: string, ttlSeconds: nat, now: int) returns (accepted: bool)
      modifies `entries
      ensures (entries, accepted) == Consumed(old(entries), maxEntries, KeyFor(apiKey, nonce), ttlSeconds, now)
      ensures !accepted <==> Remembers(old(entries), KeyFor(apiKey, nonce), now)
    {
      RefusedExactly(entries, maxEntries, KeyFor(apiKey, nonce), ttlSeconds, now);
      PruneExpired(now);
      var key := KeyFor(apiKey, nonce);
      for i := 0 to |entries|
        invariant entries == Live(old(entries), now)
        invariant forall j | 0 <= j < i :: entries[j].key != key
      {
        if entries[i].key == key { return false; }
      }
      entries := entries + [Entry(key, now + 1000 * ttlSeconds)];
      CapStoreSize();
      return true;
    }
  }

  // ---------------------------------------------------------------- whole runs

  datatype Request = Request(key: Key, ttl: nat, at: int)

  /** The clock does not go back. */
  ghost predicate Monotone(rs: seq<Request>) { forall i, j | 0 <= i < j < |rs| :: rs[i].at <= rs[j].at }

  function StoreAfter(max: nat, rs: seq<Request>): seq<Entry> {
    if rs == [] then []
    else
      var r := rs[|rs| - 1];
      Consumed(StoreAfter(max, rs[..|rs| - 1]), max, r.key, r.ttl, r.at).0
  }

  /** Whether the store accepts the request at position `i`. */
  predicate Accepts(max: nat, rs: seq<Request>, i: nat)
    requires i < |rs|
  {
    Consumed(StoreAfter(max, rs[..i]), max, rs[i].key, rs[i].ttl, rs[i].at).1
  }

  /** Whatever the store accepts it has room for beside its unexpired entries. */
  ghost predicate Roomy(max: nat, rs: seq<Request>) {
    forall i | 0 <= i < |rs| && Accepts(max, rs, i) :: Fits(max, rs, i)
  }

  predicate Fits(max: nat, rs: seq<Request>, i: nat)
    requires i < |rs|
  {
    |Live(StoreAfter(max, rs[..i]), rs[i].at)| < max
  }

  /** Some accepted request before position `n` used the key and has not expired at `t`. */
  ghost predicate AcceptedBefore(max: nat, rs: seq<Request>, n: nat, k: Key, t: int)
    requires n <= |rs|
  {
    exists j :: 0 <= j < n && rs[j].key == k && Accepts(max, rs, j) && rs[j].at + 1000 * rs[j].ttl > t
  }

  /** Without eviction the stored entries are, from now on, exactly the acceptances that have not expired. */
  lemma {:induction false} StoreIsHistory(max: nat, rs: seq<Request>, n: nat, k: Key, t: int)
    requires Monotone(rs) && Roomy(max, rs) && n <= |rs| && (n > 0 ==> rs[n - 1].at <= t)
    ensures Remembers(StoreAfter(max, rs[..n]), k, t) <==> AcceptedBefore(max, rs, n, k, t)
    decreases n
  {
    if n > 0 {
      var r, es := rs[n - 1], StoreAfter(max, rs[..n - 1]);
      assert rs[..n][..n - 1] == rs[..n - 1];
      StoreIsHistory(max, rs, n - 1, k, t);
      assert Accepts(max, rs, n - 1) ==> Fits(max, rs, n - 1);
      var live := Live(es, r.at);
      LiveRemembers(es, r.at, k, t);
      PushRemembers(live, Entry(r.key, r.at + 1000 * r.ttl), k, t);
    }
  }

  /**
   Over every run with a clock that does not go back and a store that is never full: a request is
   accepted exactly when no earlier accepted request with the same key is still within its lifetime.
   */
  lemma AcceptedIffNotRemembered(max: nat, rs: seq<Request>, i: nat)
    requires Monotone(rs) && Roomy(max, rs) && i < |rs|
    ensures Accepts(max, rs, i) <==> !AcceptedBefore(max, rs, i, rs[i].key, rs[i].at)
  {
    RefusedExactly(StoreAfter(max, rs[..i]), max, rs[i].key, rs[i].ttl, rs[i].at);
    StoreIsHistory(max, rs, i, rs[i].key, rs[i].at);
  }

  ghost predicate DistinctKeys(es: seq<Entry>) { forall i, j | 0 <= i < j < |es| :: es[i].key != es[j].key }

  lemma {:induction false} LiveKeepsKeys(es: seq<Entry>, now: int)
    ensures forall e | e in Live(es, now) :: e in es
    ensures DistinctKeys(es) ==> DistinctKeys(Live(es, now))
    decreases es
  {
    if es != [] {
      var n := |es| - 1;
      LiveKeepsKeys(es[..n], now);
      forall e | e in Live(es, now) ensures e in es {
        if e in Live(es[..n], now) { assert e in es[..n]; }
      }
      if DistinctKeys(es) {
        forall i | 0 <= i < |Live(es[..n], now)| ensures Live(es[..n], now)[i].key != es[n].key {
          assert Live(es[..n], now)[i] in es[..n];
        }
      }
    }
  }

  /** Accepting a nonce forgets an unexpired one exactly when the store was full of them. */
  lemma ForgetsExactlyWhenFull(es: seq<Entry>, max: nat, k: Key, ttl: nat, now: int)
    requires DistinctKeys(es) && max > 0 && Consumed(es, max, k, ttl, now).1
    ensures (forall k2 | Remembers(es, k2, now) :: Remembers(Consumed(es, max, k, ttl, now).0, k2, now))
       <==> |Live(es, now)| < max
  {
    var live, after, e := Live(es, now), Consumed(es, max, k, ttl, now).0, Entry(k, now + 1000 * ttl);
    forall k2 ensures Remembers(es, k2, now) <==> Remembers(live, k2, now) {
      LiveRemembers(es, now, k2, now);
    }
    if |live| < max {
      forall k2 | Remembers(live, k2, now) ensures Remembers(after, k2, now) {
        PushRemembers(live, e, k2, now);
      }
    } else {
      LiveKeepsKeys(es, now);
      LiveOnly(es, now);
      var gone := live[0].key;
      assert Remembers(live, gone, now);
      assert after == (live + [e])[|live| + 1 - max..];
      forall i | 0 <= i < |after| ensures after[i].key != gone {
        assert after[i] == (live + [e])[i + |live| + 1 - max];
      }
      assert !Remembers(after, gone, now);
    }
  }

  /** One more request forgets no key that is still to be refused at `t`, if there is room for it when accepted. */
  lemma ConsumedRemembers(es: seq<Entry>, max: nat, k: Key, ttl: nat, now: int, k2: Key, t: int)
    requires now <= t && Remembers(es, k2, t)
    requires Consumed(es, max, k, ttl, now).1 ==> |Live(es, now)| < max
    ensures Remembers(Consumed(es, max, k, ttl, now).0, k2, t)
  {
    LiveRemembers(es, now, k2, t);
    PushRemembers(Live(es, now), Entry(k, now + 1000 * ttl), k2, t);
  }

  /** An accepted key is refused for its lifetime. */
  lemma AcceptedIsRemembered(es: seq<Entry>, max: nat, k: Key, ttl: nat, now: int, t: int)
    requires Consumed(es, max, k, ttl, now).1 && |Live(es, now)| < max && t < now + 1000 * ttl
    ensures Remembers(Consumed(es, max, k, ttl, now).0, k, t)
  {
    PushRemembers(Live(es, now), Entry(k, now + 1000 * ttl), k, t);
  }

  /** A full store forgets: room for one entry, two keys, and the first is accepted again at once. */
  lemma FullStoreForgets(a: Key, b: Key, ttl: nat)
    requires a != b && ttl > 0
    ensures var rs := [Request(a, ttl, 0), Request(b, ttl, 0), Request(a, ttl, 0)];
            Monotone(rs) && !Roomy(1, rs) && Accepts(1, rs, 0) && Accepts(1, rs, 2)
  {
    var rs := [Request(a, ttl, 0), Request(b, ttl, 0), Request(a, ttl, 0)];
    assert rs[..0] == [];
    StoreNext(1, rs, 0);
    StoreNext(1, rs, 1);
    EmptyAccepts(a, ttl);
    Evicts(a, b, ttl);
    Evicts(b, a, ttl);
    assert !Fits(1, rs, 1);
  }

  lemma StoreNext(max: nat, rs: seq<Request>, n: nat)
    requires n < |rs|
    ensures StoreAfter(max, rs[..n + 1]) == Consumed(StoreAfter(max, rs[..n]), max, rs[n].key, rs[n].ttl, rs[n].at).0
  {
    assert rs[..n + 1][..n] == rs[..n];
  }

  lemma EmptyAccepts(a: Key, ttl: nat)
    ensures Consumed([], 1, a, ttl, 0) == ([Entry(a, 1000 * ttl)], true)
  {
    assert [] + [Entry(a, 1000 * ttl)] == [Entry(a, 1000 * ttl)];
  }

  lemma Evicts(a: Key, b: Key, ttl: nat)
    requires a != b && ttl > 0
    ensures Live([Entry(a, 1000 * ttl)], 0) == [Entry(a, 1000 * ttl)]
    ensures Consumed([Entry(a, 1000 * ttl)], 1, b, ttl, 0) == ([Entry(b, 1000 * ttl)], true)
  {
    var one, two := [Entry(a, 1000 * ttl)], [Entry(b, 1000 * ttl)];
    assert one[..0] == [] && Live(one, 0) == [] + one == one;
    assert (one + two)[1..] == two;
  }

  // ---------------------------------------------------------------- keys

  /** Two callers share a key exactly when the texts coincide; they cannot when no api key contains a colon. */
  lemma KeysApart(a: string, n: string, a': string, n': string)
    requires ':' !in a && ':' !in a'
    ensures KeyFor(a, n) == KeyFor(a', n') <==> a == a' && n == n'
  {
    if KeyFor(a, n) == KeyFor(a', n') {
      var s, s' := a + ":" + n, a' + ":" + n';
      assert s == s';
      assert s[|a|] == ':' && forall i | 0 <= i < |a| :: s[i] == a[i] && s[i] != ':';
      assert s'[|a'|] == ':' && forall i | 0 <= i < |a'| :: s'[i] == a'[i] && s'[i] != ':';
      assert |a| == |a'|;
      assert a == s[..|a|] && a' == s'[..|a'|];
      assert n == s[|a| + 1..] && n' == s'[|a'| + 1..];
    }
  }

  lemma ColonKeysCollide()
    ensures KeyFor("a:b", "c") == KeyFor("a", "b:c")
  {
    assert "a:b" + ":" + "c" == "a" + ":" + "b:c";
  }
}
