/**
 `runVersionedMigrations` as a session runs it from lock to result, shown to take exactly the steps of
 the migration protocol.
 */
module MigrationRunner {
  import opened Common
  import opened Migrations
  import opened MigrationSafety

  lemma {:induction false} RunLast(env: Env, w: World, steps: seq<Step>, s: Step)
    ensures Run(env, w, steps + [s]) == Next(env, Run(env, w, steps), s)
    decreases steps
  {
    if steps == [] {
      assert steps + [s] == [s];
      assert Run(env, w, [s]) == Run(env, Next(env, w, s), [s][1..]);
    } else {
      assert (steps + [s])[0] == steps[0] && (steps + [s])[1..] == steps[1..] + [s];
      RunLast(env, Next(env, w, steps[0]), steps[1..], s);
    }
  }

  lemma {:induction false} AdvancesLast(p: nat, n: nat)
    ensures Advances(p, n + 1) == Advances(p, n) + [Advance(p)]
  {
    if n > 0 {
      AdvancesLast(p, n - 1);
    }
  }

  /** `w` is where an undisturbed session is after taking the lock and `n` further steps. */
  ghost predicate Traced(env: Env, db: Db, ms: seq<Migration>, n: nat, w: World) {
    w == Run(env, Init(db), [Acquire(0, ms)] + Advances(0, n))
  }

  lemma TraceNext(env: Env, db: Db, ms: seq<Migration>, n: nat, w: World)
    requires Traced(env, db, ms, n, w) && Holds(PcOf(w, 0))
    ensures Traced(env, db, ms, n + 1, Move(env, w, 0))
  {
    AdvancesLast(0, n);
    assert [Acquire(0, ms)] + Advances(0, n + 1) == [Acquire(0, ms)] + Advances(0, n) + [Advance(0)];
    RunLast(env, Init(db), [Acquire(0, ms)] + Advances(0, n), Advance(0));
  }

  lemma TraceStart(env: Env, db: Db, ms: seq<Migration>)
    requires ManifestOk(ms)
    ensures Traced(env, db, ms, 0, Begun(db, ms))
  {
    assert [Acquire(0, ms)] + Advances(0, 0) == [Acquire(0, ms)];
    assert Run(env, Init(db), [Acquire(0, ms)]) == Run(env, Next(env, Init(db), Acquire(0, ms)), []);
    assert Begun(db, ms) == Next(env, Init(db), Acquire(0, ms));
  }

  function Begun(db: Db, ms: seq<Migration>): World { World(db, Some(0), map[0 := Holding(ms)], []) }

  method FindLastIndex(ms: seq<Migration>, f: string) returns (k: Option<nat>)
    ensures k == LastWithFingerprint(ms, f)
  {
    var n := |ms|;
    assert ms[..n] == ms;
    while n > 0
      invariant 0 <= n <= |ms|
      invariant LastWithFingerprint(ms, f) == LastWithFingerprint(ms[..n], f)
    {
      if ms[n - 1].schemaChecksum == Some(f) { return Some(n - 1); }
      assert ms[..n][..n - 1] == ms[..n - 1];
      n := n - 1;
    }
    return None;
  }

  class Database {
    var db: Db

    constructor (db: Db)
      ensures this.db == db
    {
      this.db := db;
    }

    /** The checks before anything is written: which migrations an existing schema already is, if it may be adopted. */
    method ProbeAdoption(env: Env, ms: seq<Migration>) returns (ok: bool, adopt: Option<nat>)
      requires ManifestOk(ms)
      ensures PcOf(Move(env, Begun(db, ms), 0), 0) == if ok then Probed(ms, adopt) else Refused
      ensures Move(env, Begun(db, ms), 0).db == db
    {
      if db.ledger.Some? || !ms[0].baseline || db.schema.objects == {} { return true, None; }
      if !ms[0].adopt { return false, None; }
      adopt := FindLastIndex(ms, env.fingerprint(db.schema));
      return adopt.Some?, adopt;
    }

    /** One migration in one transaction. */
    method ApplyMigration(env: Env, m: Migration) returns (ok: bool)
      modifies this
      ensures !ok ==> db == old(db)
      ensures forall w: World, p: nat, ms: seq<Migration>, applied: set<Version>, i: nat |
                w.db == old(db) && i < |ms| && ms[i] == m && m.version !in applied ::
                var w' := ApplyOne(env, w, p, ms, applied, i);
                w'.db == db && PcOf(w', p) == if ok then Applying(ms, applied, i + 1) else Refused
    {
      if m.baseline && db.schema.objects != {} { return false; }
      var s := env.exec(db.schema, m.sql);
      if s.None? { return false; }
      if m.schemaChecksum.Some? && env.fingerprint(s.value) != m.schemaChecksum.value { return false; }
      var rows := db.ledger.GetOr([]);
      if InLedger(rows, m.version) { return false; }
      db := Db(Some(Insert(rows, RowOf(m, Executed))), s.value);
      return true;
    }

    /** The loop over the manifest and the final check, from where adoption left off. */
    method ApplyPending(env: Env, ms: seq<Migration>, applied: set<Version>, ghost start: Db, ghost n0: nat, ghost w0: World)
      returns (ok: bool, ghost n: nat, ghost w: World)
      requires ms != [] && Traced(env, start, ms, n0, w0)
      requires w0.db == db && PcOf(w0, 0) == Applying(ms, applied, 0)
      modifies this
      ensures Traced(env, start, ms, n, w) && w.db == db
      ensures PcOf(w, 0) == if ok then Done(ms) else Refused
    {
      n, w := n0, w0;
      for i := 0 to |ms|
        invariant Traced(env, start, ms, n, w) && w.db == db
        invariant PcOf(w, 0) == Applying(ms, applied, i)
      {
        TraceNext(env, start, ms, n, w);
        ghost var before := w;
        n, w := n + 1, Move(env, w, 0);
        if ms[i].version !in applied {
          var applied' := ApplyMigration(env, ms[i]);
          assert w == ApplyOne(env, before, 0, ms, applied, i);
          if !applied' { return false, n, w; }
        }
      }
      TraceNext(env, start, ms, n, w);
      n, w := n + 1, Move(env, w, 0);
      var last := ms[|ms| - 1].schemaChecksum;
      ok := last.None? || env.fingerprint(db.schema) == last.value;
    }

    /** From the lock to a ledger that was checked against the manifest. */
    method PrepareLedger(env: Env, ms: seq<Migration>)
      returns (ok: bool, adopt: Option<nat>, ghost n: nat, ghost w: World)
      requires ManifestOk(ms)
      modifies this
      ensures Traced(env, old(db), ms, n, w) && w.db == db
      ensures ok ==> db.ledger.Some? && PcOf(w, 0) == Validated(ms, adopt, VersionsIn(db.ledger.value))
      ensures !ok ==> PcOf(w, 0) == Refused
    {
      ghost var start := db;
      n, w := 0, Begun(db, ms);
      TraceStart(env, start, ms);
      var probed;
      probed, adopt := ProbeAdoption(env, ms);
      TraceNext(env, start, ms, n, w);
      n, w := n + 1, Move(env, w, 0);
      if !probed { return false, adopt, n, w; }
      db := db.(ledger := Some(db.ledger.GetOr([])));
      TraceNext(env, start, ms, n, w);
      n, w := n + 1, Move(env, w, 0);
      ok := ValidateAppliedMigrations(ms, db.ledger.value, false);
      TraceNext(env, start, ms, n, w);
      n, w := n + 1, Move(env, w, 0);
    }

    /**
     A session that is neither disturbed nor cut off goes from the lock to a result, and does to the
     database what the protocol's steps do.
     */
    method RunVersionedMigrations(env: Env, ms: seq<Migration>) returns (ok: bool, ghost n: nat, ghost w: World)
      requires ManifestOk(ms)
      modifies this
      ensures Traced(env, old(db), ms, n, w) && w.db == db
      ensures PcOf(w, 0) == if ok then Done(ms) else Refused
    {
      ghost var start := db;
      var adopt;
      ok, adopt, n, w := PrepareLedger(env, ms);
      if !ok { return; }
      var rows := db.ledger.value;
      var applied := VersionsIn(rows);
      TraceNext(env, start, ms, n, w);
      n, w := n + 1, Move(env, w, 0);
      if adopt.Some? {
        if rows != [] || adopt.value >= |ms| { return false, n, w; }
        applied := applied + VersionsOf(ms, adopt.value + 1);
        db := db.(ledger := Some(AdoptedRows(ms[..adopt.value + 1])));
      }
      ok, n, w := ApplyPending(env, ms, applied, start, n, w);
    }
  }
}
