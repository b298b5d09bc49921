/**
 Telling a durable persistence failure from a passing one: the walk over a database error and the
 errors it wraps, which may form a cycle.
 */
module IndexerErrors {
  import opened Common

  /** An error object: its SQLSTATE, if it has a code at all, and the objects it wraps. */
  datatype ErrorObject = ErrorObject(code: Option<string>, driverError: Option<nat>, cause: Option<nat>)

  /** Objects by reference; a reference outside the heap stands for a value that is no object. */
  type Heap = map<nat, ErrorObject>

  predicate IsSqlState(s: string) { |s| == 5 && forall i | 0 <= i < 5 :: '0' <= s[i] <= '9' || 'A' <= s[i] <= 'Z' }

  predicate Coded(o: ErrorObject) { o.code.Some? && IsSqlState(o.code.value) }

  /** Data exceptions and constraint violations. */
  predicate Durable(o: ErrorObject) {
    Coded(o) && o.code.value[0] == '2' && (o.code.value[1] == '2' || o.code.value[1] == '3')
  }

  const CODE_DIGITS := "0123456789"

  const CODE_LETTERS := "ABCDEFGHIJKLMNOPQRSTUVWXYZ"

  /** A durable error has a five-character code of the classes 22 and 23. */
  lemma DurableExactly(o: ErrorObject)
    ensures Coded(o) <==> && o.code.Some? && |o.code.value| == 5
                          && forall i | 0 <= i < 5 :: o.code.value[i] in CODE_DIGITS || o.code.value[i] in CODE_LETTERS
    ensures Durable(o) <==> Coded(o) && (o.code.value[..2] == "22" || o.code.value[..2] == "23")
  {
    forall c: char ensures c in CODE_DIGITS <==> '0' <= c <= '9' { CodeDigit(c); }
    forall c: char ensures c in CODE_LETTERS <==> 'A' <= c <= 'Z' { CodeLetter(c); }
    if Coded(o) { assert o.code.value[..2] == [o.code.value[0], o.code.value[1]]; }
  }

  lemma CodeDigit(c: char)
    ensures c in CODE_DIGITS <==> '0' <= c <= '9'
  {
  }

  lemma CodeLetter(c: char)
    ensures c in CODE_LETTERS <==> 'A' <= c <= 'Z'
  {
  }

  predicate Wraps(h: Heap, n: nat, m: nat) {
    n in h && m in h && (h[n].driverError == Some(m) || h[n].cause == Some(m))
  }

  ghost predicate Closed(h: Heap, s: set<nat>) { forall n, m | n in s && Wraps(h, n, m) :: m in s }

  /** Found by following the wrapped errors from the root. */
  ghost predicate Within(h: Heap, root: nat, n: nat) {
    n in h && forall s: set<nat> | Closed(h, s) && root in s :: n in s
  }

  // ---------------------------------------------------------------- the order of the walk

  /** The objects in breadth-first order: the two that place `k` wraps stand at places `2k` and `2k + 1`. */
  function At(h: Heap, root: nat, k: nat): Option<nat> {
    if k == 0 then None
    else if k == 1 then Some(root)
    else
      match At(h, root, k / 2)
      case None => None
      case Some(n) => if n !in h then None else if k % 2 == 0 then h[n].driverError else h[n].cause
  }

  predicate IsObject(h: Heap, root: nat, k: nat) { At(h, root, k).Some? && At(h, root, k).value in h }

  predicate CodedAt(h: Heap, root: nat, k: nat) { IsObject(h, root, k) && Coded(h[At(h, root, k).value]) }

  ghost predicate NoneCodedBefore(h: Heap, root: nat, k: nat) { forall q: nat | q < k :: !CodedAt(h, root, q) }

  ghost function Before(h: Heap, root: nat, k: nat): set<nat> {
    set n | n in h && exists q: nat :: q < k && At(h, root, q) == Some(n)
  }

  const MAX_SEEN := 16

  /** The first coded error in breadth-first order is at `k`, after fewer than sixteen distinct objects. */
  ghost predicate DecidedAt(h: Heap, root: nat, k: nat) {
    CodedAt(h, root, k) && NoneCodedBefore(h, root, k) && |Before(h, root, k)| < MAX_SEEN
  }

  lemma {:induction false} AtIsWithin(h: Heap, root: nat, k: nat)
    requires IsObject(h, root, k)
    ensures Within(h, root, At(h, root, k).value)
  {
    if k > 1 {
      AtIsWithin(h, root, k / 2);
      assert Wraps(h, At(h, root, k / 2).value, At(h, root, k).value);
    }
  }

  /** The places of the walk are exactly the errors in reach of an object. */
  lemma WithinIsAt(h: Heap, root: nat, n: nat)
    requires root in h
    ensures Within(h, root, n) <==> exists k :: IsObject(h, root, k) && At(h, root, k).value == n
  {
    if Within(h, root, n) {
      var met := set m | m in h && exists k: nat :: At(h, root, k) == Some(m);
      assert At(h, root, 1) == Some(root);
      forall a, b | a in met && Wraps(h, a, b) ensures b in met {
        var k: nat :| At(h, root, k) == Some(a);
        assert At(h, root, 2 * k) == h[a].driverError && At(h, root, 2 * k + 1) == h[a].cause;
      }
      assert Closed(h, met);
      var k: nat :| At(h, root, k) == Some(n);
      assert IsObject(h, root, k);
    }
    if k :| IsObject(h, root, k) && At(h, root, k).value == n {
      AtIsWithin(h, root, k);
    }
  }

  // ---------------------------------------------------------------- the walk

  ghost predicate Settled(h: Heap, root: nat, seen: set<nat>, k: nat) {
    IsObject(h, root, k) ==> At(h, root, k).value in seen
  }

  ghost predicate Earliest(h: Heap, root: nat, n: nat, k: nat) {
    k >= 1 && At(h, root, k) == Some(n) && forall q: nat | q < k :: At(h, root, q) != Some(n)
  }

  /** The waiting references stand at increasing places, less than a generation apart. */
  ghost predicate Queued(h: Heap, root: nat, pending: seq<Option<nat>>, places: seq<nat>) {
    && |places| == |pending|
    && (forall i | 0 <= i < |places| :: places[i] >= 1 && At(h, root, places[i]) == pending[i])
    && (forall i, j | 0 <= i < j < |places| :: places[i] < places[j])
    && (places != [] ==> places[|places| - 1] < 2 * places[0])
  }

  ghost predicate Waits(places: seq<nat>, h: Heap, root: nat, seen: set<nat>, k: nat) {
    k in places || Settled(h, root, seen, k)
  }

  /** Every seen object was met at its first place, is not coded, and what it wraps is settled or waiting. */
  ghost predicate Visited(h: Heap, root: nat, places: seq<nat>, seen: set<nat>, first: map<nat, nat>) {
    && first.Keys == seen
    && (forall n | n in seen :: Met(h, root, places, seen, n, first[n]))
    && Waits(places, h, root, seen, 1)
  }

  ghost predicate Met(h: Heap, root: nat, places: seq<nat>, seen: set<nat>, n: nat, k: nat) {
    && n in h && !Coded(h[n]) && Earliest(h, root, n, k) && (places != [] ==> k < places[0])
    && Waits(places, h, root, seen, 2 * k) && Waits(places, h, root, seen, 2 * k + 1)
  }

  /** The same object wraps the same things wherever it is met. */
  lemma Twin(h: Heap, root: nat, j: nat, k: nat)
    requires j >= 1 && k >= 2 && At(h, root, j) == At(h, root, k / 2)
    ensures At(h, root, 2 * j + k % 2) == At(h, root, k)
  {
    assert (2 * j + k % 2) / 2 == j && (2 * j + k % 2) % 2 == k % 2;
  }

  lemma SettledAlike(h: Heap, root: nat, pending: seq<Option<nat>>, places: seq<nat>, seen: set<nat>, twin: nat, k: nat)
    requires Queued(h, root, pending, places) && (places != [] ==> k < places[0])
    requires twin <= k && At(h, root, twin) == At(h, root, k) && Waits(places, h, root, seen, twin)
    ensures Settled(h, root, seen, k)
  {
  }

  /** Everything before the first waiting place has been seen. */
  lemma {:induction false} SettledBefore(h: Heap, root: nat, pending: seq<Option<nat>>, places: seq<nat>,
                                         seen: set<nat>, first: map<nat, nat>, k: nat)
    requires Queued(h, root, pending, places) && Visited(h, root, places, seen, first)
    requires places != [] ==> k < places[0]
    ensures Settled(h, root, seen, k)
  {
    if k > 1 && IsObject(h, root, k) {
      SettledBefore(h, root, pending, places, seen, first, k / 2);
      var n := At(h, root, k / 2).value;
      assert Met(h, root, places, seen, n, first[n]);
      assert first[n] <= k / 2;
      Twin(h, root, first[n], k);
      SettledAlike(h, root, pending, places, seen, 2 * first[n] + k % 2, k);
    }
  }

  /**
   Ends on every error graph, cyclic ones too; true exactly if the first coded error in breadth-first
   order, the driver error before the cause, is durable and met before sixteen objects have been seen.
   */
  method IsNonRetryablePersistenceError(h: Heap, root: nat) returns (durable: bool)
    ensures durable <==> exists k :: DecidedAt(h, root, k) && Durable(h[At(h, root, k).value])
  {
    var pending: seq<Option<nat>>, seen: set<nat> := [Some(root)], {};
    ghost var places: seq<nat>, first: map<nat, nat> := [1], map[];
    while |pending| > 0 && |seen| < MAX_SEEN
      invariant |seen| <= MAX_SEEN
      invariant Queued(h, root, pending, places) && Visited(h, root, places, seen, first)
      decreases 3 * (MAX_SEEN - |seen|) + |pending|
    {
      var current := pending[0];
      if current.Some? && current.value in h && current.value !in seen {
        var n := current.value;
        if Coded(h[n]) {
          Decided(h, root, pending, places, seen, first);
          return Durable(h[n]);
        }
        PushedQueue(h, root, pending, places);
        Pushed(h, root, pending, places, seen, first);
        first := first[n := places[0]];
        seen := seen + {n};
        places := Onward(places);
        pending := pending[1..] + [h[n].driverError, h[n].cause];
      } else {
        Dropped(h, root, pending, places, seen, first);
        pending, places := pending[1..], places[1..];
      }
    }
    Undecided(h, root, pending, places, seen, first);
    return false;
  }

  lemma Dropped(h: Heap, root: nat, pending: seq<Option<nat>>, places: seq<nat>, seen: set<nat>, first: map<nat, nat>)
    requires Queued(h, root, pending, places) && Visited(h, root, places, seen, first) && pending != []
    requires Settled(h, root, seen, places[0])
    ensures Queued(h, root, pending[1..], places[1..]) && Visited(h, root, places[1..], seen, first)
  {
    forall k | Waits(places, h, root, seen, k) ensures Waits(places[1..], h, root, seen, k) {
      assert places == [places[0]] + places[1..];
    }
  }

  lemma PushedQueue(h: Heap, root: nat, pending: seq<Option<nat>>, places: seq<nat>)
    requires Queued(h, root, pending, places) && pending != [] && IsObject(h, root, places[0])
    ensures var n := pending[0].value;
            Queued(h, root, pending[1..] + [h[n].driverError, h[n].cause], Onward(places))
  {
  }

  /** The places that wait once the first one has been visited. */
  function Onward(places: seq<nat>): seq<nat>
    requires places != []
  {
    places[1..] + [2 * places[0], 2 * places[0] + 1]
  }

  lemma OnwardHolds(places: seq<nat>)
    requires places != [] && places[0] >= 1 && forall i, j | 0 <= i < j < |places| :: places[i] < places[j]
    ensures places[0] < Onward(places)[0]
    ensures 2 * places[0] in Onward(places) && 2 * places[0] + 1 in Onward(places)
    ensures forall k | k in places && k != places[0] :: k in Onward(places)
  {
    var all, n := Onward(places), |places|;
    assert all[n - 1] == 2 * places[0] && all[n] == 2 * places[0] + 1;
    assert n > 1 ==> all[0] == places[1];
    forall k | k in places && k != places[0] ensures k in all {
      var i :| 0 <= i < n && places[i] == k;
      assert all[i - 1] == k;
    }
  }

  lemma StillMet(h: Heap, root: nat, places: seq<nat>, onward: seq<nat>, seen: set<nat>, n: nat, m: nat, k: nat)
    requires Met(h, root, places, seen, m, k) && places != [] && onward != [] && places[0] < onward[0]
    requires forall x | x in places && x != places[0] :: x in onward
    requires At(h, root, places[0]) == Some(n)
    ensures Met(h, root, onward, seen + {n}, m, k)
  {
  }

  lemma Pushed(h: Heap, root: nat, pending: seq<Option<nat>>, places: seq<nat>, seen: set<nat>, first: map<nat, nat>)
    requires Queued(h, root, pending, places) && Visited(h, root, places, seen, first) && pending != []
    requires IsObject(h, root, places[0]) && pending[0].value !in seen && !Coded(h[pending[0].value])
    ensures var n := pending[0].value;
            Visited(h, root, Onward(places), seen + {n}, first[n := places[0]])
  {
    var n, onward := pending[0].value, Onward(places);
    OnwardHolds(places);
    HeadIsEarliest(h, root, pending, places, seen, first);
    forall m | m in seen ensures Met(h, root, onward, seen + {n}, m, first[m]) {
      StillMet(h, root, places, onward, seen, n, m, first[m]);
    }
    assert Waits(places, h, root, seen, 1);
  }

  lemma HeadIsEarliest(h: Heap, root: nat, pending: seq<Option<nat>>, places: seq<nat>, seen: set<nat>,
                       first: map<nat, nat>)
    requires Queued(h, root, pending, places) && Visited(h, root, places, seen, first) && pending != []
    requires IsObject(h, root, places[0]) && pending[0].value !in seen
    ensures Earliest(h, root, pending[0].value, places[0])
  {
    forall q: nat | q < places[0] ensures At(h, root, q) != pending[0] {
      SettledBefore(h, root, pending, places, seen, first, q);
    }
  }

  lemma Decided(h: Heap, root: nat, pending: seq<Option<nat>>, places: seq<nat>, seen: set<nat>, first: map<nat, nat>)
    requires Queued(h, root, pending, places) && Visited(h, root, places, seen, first) && pending != []
    requires CodedAt(h, root, places[0]) && |seen| < MAX_SEEN
    ensures DecidedAt(h, root, places[0])
    ensures forall k | DecidedAt(h, root, k) :: k == places[0]
  {
    var p := places[0];
    forall q: nat | q < p ensures Settled(h, root, seen, q) {
      SettledBefore(h, root, pending, places, seen, first, q);
    }
    forall n | n in seen ensures n in Before(h, root, p) {
      assert Met(h, root, places, seen, n, first[n]);
    }
    forall n | n in Before(h, root, p) ensures n in seen {
      var q: nat :| q < p && At(h, root, q) == Some(n);
      assert Settled(h, root, seen, q);
    }
    assert Before(h, root, p) == seen;
    forall q: nat | q < p ensures !CodedAt(h, root, q) {
      if IsObject(h, root, q) {
        assert Met(h, root, places, seen, At(h, root, q).value, first[At(h, root, q).value]);
      }
    }
  }

  lemma Undecided(h: Heap, root: nat, pending: seq<Option<nat>>, places: seq<nat>, seen: set<nat>, first: map<nat, nat>)
    requires Queued(h, root, pending, places) && Visited(h, root, places, seen, first)
    requires pending == [] || |seen| >= MAX_SEEN
    ensures forall k :: !DecidedAt(h, root, k)
  {
    forall k | DecidedAt(h, root, k) ensures false {
      if places == [] || k < places[0] {
        SettledBefore(h, root, pending, places, seen, first, k);
      }
      forall n | n in seen ensures n in Before(h, root, k) {
        assert Met(h, root, places, seen, n, first[n]);
      }
      SubsetSize(seen, Before(h, root, k));
    }
  }
}
