/**
 One migration session from lock to result as a function of the database it finds, and what becomes of
 it when it is cut off and run again.
 */
module MigrationResumption {
  import opened Common
  import opened Migrations
  import opened MigrationSafety
  import opened MigrationRunner

  // ---------------------------------------------------------------- what a session does

  /** The database a session leaves, and whether it succeeded. */
  datatype Outcome = Outcome(db: Db, ok: bool)

  /** The migrations from `i` on, one after another, and the final check. */
  function Tail(env: Env, db: Db, ms: seq<Migration>, i: nat): Outcome
    requires ms != []
    decreases |ms| - i
  {
    if i >= |ms| then Outcome(db, Current(env, db, ms))
    else
      match Applied(env, db, ms[i])
      case None => Outcome(db, false)
      case Some(d) => Tail(env, d, ms, i + 1)
  }

  function FromValidated(env: Env, db: Db, ms: seq<Migration>, adopt: Option<nat>): Outcome
    requires ms != []
  {
    if adopt.None? then Tail(env, db, ms, |db.ledger.GetOr([])|)
    else if db.ledger != Some([]) || adopt.value >= |ms| then Outcome(db, false)
    else Tail(env, db.(ledger := Some(AdoptedRows(ms[..adopt.value + 1]))), ms, adopt.value + 1)
  }

  function FromReady(env: Env, db: Db, ms: seq<Migration>, adopt: Option<nat>): Outcome
    requires ms != []
  {
    if IsPrefix(db.ledger.GetOr([]), ms) then FromValidated(env, db, ms, adopt) else Outcome(db, false)
  }

  function Session(env: Env, db: Db, ms: seq<Migration>): Outcome
    requires ms != []
  {
    match Probing(env, db, ms)
    case None => Outcome(db, false)
    case Some(adopt) => FromReady(env, Created(db), ms, adopt)
  }

  // ---------------------------------------------------------------- and it is what the protocol does

  /** What is still to come of the session in a state of the protocol. */
  function Rest(env: Env, w: World, p: nat): Outcome {
    match PcOf(w, p)
    case Holding(ms) => if ms == [] then Outcome(w.db, false) else Session(env, w.db, ms)
    case Probed(ms, adopt) => if ms == [] then Outcome(w.db, false) else FromReady(env, Created(w.db), ms, adopt)
    case Ready(ms, adopt) => if ms == [] then Outcome(w.db, false) else FromReady(env, w.db, ms, adopt)
    case Validated(ms, adopt, _) => if ms == [] then Outcome(w.db, false) else FromValidated(env, w.db, ms, adopt)
    case Applying(ms, _, i) => if ms == [] then Outcome(w.db, false) else Tail(env, w.db, ms, Max(i, |Rows(w)|))
    case Done(_) => Outcome(w.db, true)
    case _ => Outcome(w.db, false)
  }

  lemma ApplyOneIs(env: Env, w: World, p: nat, ms: seq<Migration>, applied: set<Version>, i: nat)
    requires i < |ms| && ms[i].version !in applied
    ensures var w' := ApplyOne(env, w, p, ms, applied, i);
            match Applied(env, w.db, ms[i])
            case None => PcOf(w', p) == Refused && w'.db == w.db
            case Some(d) => PcOf(w', p) == Applying(ms, applied, i + 1) && w'.db == d
  {
  }

  lemma ApplyingRest(env: Env, w: World, p: nat, ms: seq<Migration>, applied: set<Version>, i: nat)
    requires PcOf(w, p) == Applying(ms, applied, i) && Knows(w, PcOf(w, p))
    ensures var w' := Move(env, w, p); Rest(env, w', p) == Rest(env, w, p) && Knows(w', PcOf(w', p))
  {
    var w', rows := Move(env, w, p), Rows(w);
    var k: nat :| k <= |ms| && applied == VersionsOf(ms, k) && |rows| == Max(i, k);
    if i < |ms| {
      AppliedExactly(ms, k, i);
      if i < k {
        assert |rows| == Max(i + 1, k);
      } else {
        ApplyOneIs(env, w, p, ms, applied, i);
        InsertNext(rows, ms, Executed);
        if Applied(env, w.db, ms[i]).Some? {
          assert |Rows(w')| == Max(i + 1, k);
        }
      }
    }
  }

  lemma EarlyRest(env: Env, w: World, p: nat)
    requires Holds(PcOf(w, p)) && !PcOf(w, p).Applying? && Knows(w, PcOf(w, p))
    ensures var w' := Move(env, w, p); Rest(env, w', p) == Rest(env, w, p) && Knows(w', PcOf(w', p))
  {
    match PcOf(w, p)
    case Holding(ms) => FoundInRange(ms, env.fingerprint(w.db.schema));
    case Probed(ms, adopt) =>
    case Ready(ms, adopt) =>
      if IsPrefix(Rows(w), ms) {
        assert VersionsIn(Rows(w)) == VersionsOf(ms, |Rows(w)|);
      }
    case Validated(ms, adopt, applied) => ValidatedRest(env, w, p, ms, adopt, applied);
    case _ =>
  }

  lemma ValidatedRest(env: Env, w: World, p: nat, ms: seq<Migration>, adopt: Option<nat>, applied: set<Version>)
    requires PcOf(w, p) == Validated(ms, adopt, applied) && Knows(w, PcOf(w, p))
    ensures var w' := Move(env, w, p); Rest(env, w', p) == Rest(env, w, p) && Knows(w', PcOf(w', p))
  {
    if adopt.None? {
      assert |Rows(w)| == Max(0, |Rows(w)|);
      assert InStep(ms, applied, 0, |Rows(w)|);
    } else {
      AdoptedInStep(ms, adopt.value + 1);
      AdoptedFacts(ms, adopt.value + 1);
    }
  }

  /** A step of the session does not change what becomes of it. */
  lemma RestStep(env: Env, w: World, p: nat)
    requires Holds(PcOf(w, p)) && Knows(w, PcOf(w, p))
    ensures var w' := Move(env, w, p); Rest(env, w', p) == Rest(env, w, p) && Knows(w', PcOf(w', p))
  {
    if PcOf(w, p).Applying? {
      ApplyingRest(env, w, p, PcOf(w, p).ms, PcOf(w, p).applied, PcOf(w, p).next);
    } else {
      EarlyRest(env, w, p);
    }
  }

  /** The state after taking the lock and `n` further statements. */
  ghost function After(env: Env, db: Db, ms: seq<Migration>, n: nat): World {
    Run(env, Init(db), [Acquire(0, ms)] + Advances(0, n))
  }

  lemma AfterStart(env: Env, db: Db, ms: seq<Migration>)
    requires ManifestOk(ms)
    ensures After(env, db, ms, 0) == Begun(db, ms)
  {
    TraceStart(env, db, ms);
  }

  lemma AfterNext(env: Env, db: Db, ms: seq<Migration>, n: nat)
    ensures var w := After(env, db, ms, n);
            After(env, db, ms, n + 1) == if Holds(PcOf(w, 0)) then Move(env, w, 0) else w
  {
    AdvancesLast(0, n);
    assert [Acquire(0, ms)] + Advances(0, n + 1) == [Acquire(0, ms)] + Advances(0, n) + [Advance(0)];
    RunLast(env, Init(db), [Acquire(0, ms)] + Advances(0, n), Advance(0));
  }

  lemma SameManifest(env: Env, w: World, p: nat, ms: seq<Migration>)
    requires Holds(PcOf(w, p)) && PcOf(w, p).ms == ms
    ensures var pc := PcOf(Move(env, w, p), p); !pc.Idle? && (Holds(pc) || pc.Done? ==> pc.ms == ms)
  {
  }

  lemma {:induction false} AfterRest(env: Env, db: Db, ms: seq<Migration>, n: nat)
    requires ManifestOk(ms)
    ensures var w := After(env, db, ms, n);
            && Rest(env, w, 0) == Session(env, db, ms) && Knows(w, PcOf(w, 0))
            && (Holds(PcOf(w, 0)) || PcOf(w, 0).Done? ==> PcOf(w, 0).ms == ms)
            && !PcOf(w, 0).Idle?
    decreases n
  {
    if n == 0 {
      AfterStart(env, db, ms);
    } else {
      var w := After(env, db, ms, n - 1);
      AfterRest(env, db, ms, n - 1);
      AfterNext(env, db, ms, n - 1);
      if Holds(PcOf(w, 0)) {
        RestStep(env, w, 0);
        SameManifest(env, w, 0, ms);
      }
    }
  }

  function Distance(pc: Pc): nat {
    match pc
    case Holding(ms) => |ms| + 6
    case Probed(ms, _) => |ms| + 5
    case Ready(ms, _) => |ms| + 4
    case Validated(ms, _, _) => |ms| + 3
    case Applying(ms, _, i) => if i <= |ms| then |ms| - i + 1 else 1
    case _ => 0
  }

  lemma DistanceFalls(env: Env, w: World, p: nat)
    requires Holds(PcOf(w, p)) && Knows(w, PcOf(w, p))
    ensures Distance(PcOf(Move(env, w, p), p)) < Distance(PcOf(w, p))
  {
  }

  lemma {:induction false} EndsFrom(env: Env, db: Db, ms: seq<Migration>, n: nat) returns (m: nat)
    requires ManifestOk(ms)
    ensures m >= n && !Holds(PcOf(After(env, db, ms, m), 0))
    decreases Distance(PcOf(After(env, db, ms, n), 0))
  {
    var w := After(env, db, ms, n);
    AfterRest(env, db, ms, n);
    if !Holds(PcOf(w, 0)) {
      m := n;
    } else {
      AfterNext(env, db, ms, n);
      DistanceFalls(env, w, 0);
      m := EndsFrom(env, db, ms, n + 1);
    }
  }

  /** Every undisturbed session of the protocol ends, and ends as the function says. */
  lemma SessionEnds(env: Env, db: Db, ms: seq<Migration>) returns (n: nat)
    requires ManifestOk(ms)
    ensures var w := After(env, db, ms, n);
            w.db == Session(env, db, ms).db && PcOf(w, 0) == if Session(env, db, ms).ok then Done(ms) else Refused
  {
    n := EndsFrom(env, db, ms, 0);
    AfterRest(env, db, ms, n);
  }

  /** So a session run statement by statement does to the database what the function says. */
  lemma TracedIsSession(env: Env, db: Db, ms: seq<Migration>, n: nat, w: World)
    requires ManifestOk(ms) && Traced(env, db, ms, n, w) && !Holds(PcOf(w, 0))
    ensures w.db == Session(env, db, ms).db && PcOf(w, 0) == if Session(env, db, ms).ok then Done(ms) else Refused
  {
    AfterRest(env, db, ms, n);
  }

  // ---------------------------------------------------------------- cut off and run again

  /** Between creating the ledger and committing the rows of an adopted schema. */
  predicate MidAdoption(pc: Pc) { (pc.Ready? || pc.Validated?) && pc.adopt.Some? }

  /**
   A session that would succeed, cut off after any number of statements: run again it succeeds with the
   same database if and only if the cut was not between creating the ledger and committing the rows of
   an adopted schema.
   */
  lemma ResumesExactly(env: Env, db: Db, ms: seq<Migration>, n: nat)
    requires ManifestOk(ms) && Session(env, db, ms).ok
    ensures var cut := After(env, db, ms, n);
            Session(env, cut.db, ms) == Session(env, db, ms) <==> !MidAdoption(PcOf(cut, 0))
    ensures MidAdoption(PcOf(After(env, db, ms, n), 0)) ==> !Session(env, After(env, db, ms, n).db, ms).ok
  {
    var w := After(env, db, ms, n);
    AfterRest(env, db, ms, n);
    AfterDb(env, db, ms, n);
    if PcOf(w, 0).Done? {
      SessionFills(env, db, ms);
      FullStays(env, w.db, ms);
    } else if PcOf(w, 0).Applying? {
      RestartsWhereItStood(env, w.db, ms);
    } else if PcOf(w, 0).Ready? || PcOf(w, 0).Validated? {
      if PcOf(w, 0).adopt.None? {
        assert Probing(env, w.db, ms) == Some(None) && Created(w.db) == w.db;
      } else {
        StrandedRefuses(env, w.db, ms);
      }
    }
  }

  /** The database after sessions of one manifest that were each cut off. */
  ghost function CutDb(env: Env, db: Db, ms: seq<Migration>, cuts: seq<nat>): Db
    decreases cuts
  {
    if cuts == [] then db else CutDb(env, After(env, db, ms, cuts[0]).db, ms, cuts[1..])
  }

  ghost predicate NoneMidAdoption(env: Env, db: Db, ms: seq<Migration>, cuts: seq<nat>)
    decreases cuts
  {
    cuts == [] || (!MidAdoption(PcOf(After(env, db, ms, cuts[0]), 0))
                   && NoneMidAdoption(env, After(env, db, ms, cuts[0]).db, ms, cuts[1..]))
  }

  /** Over any sequence of cut-off sessions: the next one finishes with the same database if and only if none stranded it. */
  lemma {:induction false} ResumesAfterAnyCuts(env: Env, db: Db, ms: seq<Migration>, cuts: seq<nat>)
    requires ManifestOk(ms) && Session(env, db, ms).ok
    ensures Session(env, CutDb(env, db, ms, cuts), ms) == Session(env, db, ms) <==> NoneMidAdoption(env, db, ms, cuts)
    decreases cuts
  {
    if cuts != [] {
      var cut := After(env, db, ms, cuts[0]);
      ResumesExactly(env, db, ms, cuts[0]);
      if MidAdoption(PcOf(cut, 0)) {
        AfterRest(env, db, ms, cuts[0]);
        AfterDb(env, db, ms, cuts[0]);
        StrandedStays(env, cut.db, ms, cuts[1..]);
      } else {
        ResumesAfterAnyCuts(env, cut.db, ms, cuts[1..]);
      }
    }
  }

  /** A stranded database stays as it is, whatever sessions are started over it. */
  lemma {:induction false} StrandedStays(env: Env, db: Db, ms: seq<Migration>, cuts: seq<nat>)
    requires ManifestOk(ms) && db.ledger == Some([]) && ms[0].baseline && db.schema.objects != {}
    ensures CutDb(env, db, ms, cuts) == db && !Session(env, db, ms).ok
    decreases cuts
  {
    StrandedRefuses(env, db, ms);
    if cuts != [] {
      StrandedAfter(env, db, ms, cuts[0]);
      StrandedStays(env, db, ms, cuts[1..]);
    }
  }

  lemma {:induction false} StrandedAfter(env: Env, db: Db, ms: seq<Migration>, n: nat)
    requires ManifestOk(ms) && Stranded(db) && ms[0].baseline
    ensures var w := After(env, db, ms, n); w.db == db && StrandedWorld(w)
    decreases n
  {
    if n == 0 {
      AfterStart(env, db, ms);
      var w := Begun(db, ms);
      forall q: nat ensures Holds(PcOf(w, q)) <==> w.lock == Some(q) {}
    } else {
      var w := After(env, db, ms, n - 1);
      StrandedAfter(env, db, ms, n - 1);
      AfterNext(env, db, ms, n - 1);
      StrandedStep(env, w, Advance(0));
    }
  }

  /** What the early statements have done to the database. */
  lemma {:induction false} AfterDb(env: Env, db: Db, ms: seq<Migration>, n: nat)
    requires ManifestOk(ms)
    ensures EarlyOk(env, After(env, db, ms, n), db, ms)
    decreases n
  {
    if n == 0 {
      AfterStart(env, db, ms);
    } else {
      var w := After(env, db, ms, n - 1);
      AfterDb(env, db, ms, n - 1);
      AfterRest(env, db, ms, n - 1);
      AfterNext(env, db, ms, n - 1);
      if Holds(PcOf(w, 0)) { EarlyDb(env, w, db, ms); }
    }
  }

  ghost predicate EarlyOk(env: Env, w: World, db: Db, ms: seq<Migration>)
    requires ms != []
  {
    var pc := PcOf(w, 0);
    && (pc.Holding? || pc.Probed? ==> w.db == db)
    && (pc.Ready? || pc.Validated? ==> w.db == Created(db))
    && (pc.Probed? || pc.Ready? || pc.Validated? ==> Probing(env, db, ms) == Some(pc.adopt))
  }

  lemma EarlyDb(env: Env, w: World, db: Db, ms: seq<Migration>)
    requires ms != [] && Holds(PcOf(w, 0)) && PcOf(w, 0).ms == ms && EarlyOk(env, w, db, ms)
    ensures EarlyOk(env, Move(env, w, 0), db, ms)
  {
  }

  /** Over a ledger that is a prefix, a session goes on after its last row. */
  lemma RestartsWhereItStood(env: Env, db: Db, ms: seq<Migration>)
    requires ms != [] && db.ledger.Some? && IsPrefix(db.ledger.value, ms)
    ensures Session(env, db, ms) == Tail(env, db, ms, |db.ledger.value|)
  {
    assert Created(db) == db;
  }

  lemma StrandedRefuses(env: Env, db: Db, ms: seq<Migration>)
    requires ManifestOk(ms) && db.ledger == Some([]) && ms[0].baseline && db.schema.objects != {}
    ensures Session(env, db, ms) == Outcome(db, false)
  {
    assert Created(db) == db;
  }

  /** The whole manifest is in the ledger, and the schema is the declared one. */
  predicate Full(env: Env, db: Db, ms: seq<Migration>)
    requires ms != []
  {
    db.ledger.Some? && IsPrefix(db.ledger.value, ms) && |db.ledger.value| == |ms| && Current(env, db, ms)
  }

  lemma {:induction false} TailFills(env: Env, db: Db, ms: seq<Migration>, i: nat)
    requires ManifestOk(ms) && db.ledger.Some? && IsPrefix(db.ledger.value, ms) && i == |db.ledger.value|
    requires Tail(env, db, ms, i).ok
    ensures Full(env, Tail(env, db, ms, i).db, ms)
    decreases |ms| - i
  {
    if i < |ms| {
      InsertNext(db.ledger.value, ms, Executed);
      TailFills(env, Applied(env, db, ms[i]).value, ms, i + 1);
    }
  }

  /** A session that succeeds leaves everything applied. */
  lemma SessionFills(env: Env, db: Db, ms: seq<Migration>)
    requires ManifestOk(ms) && Session(env, db, ms).ok
    ensures Full(env, Session(env, db, ms).db, ms)
  {
    var made, adopt := Created(db), Probing(env, db, ms).value;
    if adopt.None? {
      TailFills(env, made, ms, |made.ledger.value|);
    } else {
      AdoptedFacts(ms, adopt.value + 1);
      TailFills(env, made.(ledger := Some(AdoptedRows(ms[..adopt.value + 1]))), ms, adopt.value + 1);
    }
  }

  /** Running it again then changes nothing. */
  lemma FullStays(env: Env, db: Db, ms: seq<Migration>)
    requires ManifestOk(ms) && Full(env, db, ms)
    ensures Session(env, db, ms) == Outcome(db, true)
  {
    RestartsWhereItStood(env, db, ms);
  }

  // ---------------------------------------------------------------- sessions that refuse

  function LedgerRows(db: Db): seq<Row> { db.ledger.GetOr([]) }

  /** The session commits something: an adoption, or its first pending migration. */
  predicate Commits(env: Env, db: Db, ms: seq<Migration>)
    requires ms != []
  {
    match Probing(env, db, ms)
    case None => false
    case Some(Some(n)) => true
    case Some(None) =>
      && IsPrefix(LedgerRows(db), ms) && |LedgerRows(db)| < |ms|
      && Applied(env, Created(db), ms[|LedgerRows(db)|]).Some?
  }

  lemma {:induction false} TailExtends(env: Env, db: Db, ms: seq<Migration>, i: nat)
    requires ManifestOk(ms) && IsPrefix(LedgerRows(db), ms) && i == |LedgerRows(db)|
    ensures LedgerRows(db) <= LedgerRows(Tail(env, db, ms, i).db)
    ensures i < |ms| && Applied(env, db, ms[i]).Some? ==> |LedgerRows(Tail(env, db, ms, i).db)| > i
    ensures !(i < |ms| && Applied(env, db, ms[i]).Some?) ==> Tail(env, db, ms, i).db == db
    decreases |ms| - i
  {
    if i < |ms| && Applied(env, db, ms[i]).Some? {
      var d := Applied(env, db, ms[i]).value;
      InsertNext(LedgerRows(db), ms, Executed);
      TailExtends(env, d, ms, i + 1);
    }
  }

  /**
   A session that refuses leaves the rows of the ledger as it found them if and only if it neither
   adopts a schema nor gets its first pending migration through.
   */
  lemma RefusalLeavesLedgerExactly(env: Env, db: Db, ms: seq<Migration>)
    requires ManifestOk(ms) && !Session(env, db, ms).ok
    ensures LedgerRows(Session(env, db, ms).db) == LedgerRows(db) <==> !Commits(env, db, ms)
    ensures LedgerRows(db) <= LedgerRows(Session(env, db, ms).db)
  {
    match Probing(env, db, ms)
    case None =>
    case Some(None) => RefusedInOrder(env, db, ms);
    case Some(Some(n)) => RefusedAdopting(env, db, ms, n);
  }

  lemma RefusedInOrder(env: Env, db: Db, ms: seq<Migration>)
    requires ManifestOk(ms) && !Session(env, db, ms).ok && Probing(env, db, ms) == Some(None)
    ensures LedgerRows(Session(env, db, ms).db) == LedgerRows(db) <==> !Commits(env, db, ms)
    ensures LedgerRows(db) <= LedgerRows(Session(env, db, ms).db)
  {
    if IsPrefix(LedgerRows(db), ms) { TailExtends(env, Created(db), ms, |LedgerRows(db)|); }
  }

  lemma RefusedAdopting(env: Env, db: Db, ms: seq<Migration>, n: nat)
    requires ManifestOk(ms) && !Session(env, db, ms).ok && Probing(env, db, ms) == Some(Some(n))
    ensures LedgerRows(db) == [] && LedgerRows(Session(env, db, ms).db) != []
  {
    FoundInRange(ms, env.fingerprint(db.schema));
    AdoptedFacts(ms, n + 1);
    TailExtends(env, Created(db).(ledger := Some(AdoptedRows(ms[..n + 1]))), ms, n + 1);
  }

  /** Two migrations, the second of which fails: the session refuses with the first in the ledger. */
  lemma RefusingSessionAdvances(env: Env, start: Schema, middle: Schema, a: Migration, b: Migration)
    requires ManifestOk([a, b]) && a.schemaChecksum.None? && start.objects == {}
    requires env.exec(start, a.sql) == Some(middle) && env.exec(middle, b.sql) == None
    ensures Session(env, Db(None, start), [a, b]) == Outcome(Db(Some([RowOf(a, Executed)]), middle), false)
  {
    var made := Db(Some([]), start);
    assert Applied(env, made, a) == Some(Db(Some([RowOf(a, Executed)]), middle)) by {
      assert [] + [RowOf(a, Executed)] == [RowOf(a, Executed)];
    }
    assert Applied(env, Db(Some([RowOf(a, Executed)]), middle), b) == None;
    assert Tail(env, made, [a, b], 0) == Tail(env, Db(Some([RowOf(a, Executed)]), middle), [a, b], 1);
  }
}
