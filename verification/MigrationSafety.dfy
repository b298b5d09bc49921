/**
 What every interleaving of migration runners keeps: scripts run at most once and in order, the ledger
 is what was run or adopted, and a finished runner leaves its whole manifest applied.
 */
module MigrationSafety {
  import opened Common
  import opened Migrations

  // ---------------------------------------------------------------- invariant

  /** Only the session holding the advisory lock is between its first and its last statement. */
  ghost predicate LockOk(w: World) {
    forall p: nat :: Holds(PcOf(w, p)) <==> w.lock == Some(p)
  }

  function Rows(w: World): seq<Row> { w.db.ledger.GetOr([]) }

  /** What a runner knows of the database while it holds the lock. */
  ghost predicate Knows(w: World, pc: Pc) {
    match pc
    case Holding(ms) => ManifestOk(ms)
    case Probed(ms, adopt) => ManifestOk(ms) && (adopt.Some? ==> adopt.value < |ms| && w.db.ledger.None?)
    case Ready(ms, adopt) =>
      ManifestOk(ms) && w.db.ledger.Some? && (adopt.Some? ==> adopt.value < |ms| && w.db.ledger == Some([]))
    case Validated(ms, adopt, applied) =>
      && ManifestOk(ms) && w.db.ledger.Some? && IsPrefix(Rows(w), ms) && applied == VersionsOf(ms, |Rows(w)|)
      && (adopt.Some? ==> adopt.value < |ms| && w.db.ledger == Some([]))
    case Applying(ms, applied, i) =>
      && ManifestOk(ms) && w.db.ledger.Some? && IsPrefix(Rows(w), ms)
      && InStep(ms, applied, i, |Rows(w)|)
    case _ => true
  }

  /** The first `k` migrations were applied before, and the loop has put in those between `k` and `i`. */
  ghost predicate InStep(ms: seq<Migration>, applied: set<Version>, i: nat, rows: nat) {
    exists k: nat :: k <= |ms| && applied == VersionsOf(ms, k) && rows == Max(i, k)
  }

  ghost predicate HolderKnows(w: World) { w.lock.Some? ==> Knows(w, PcOf(w, w.lock.value)) }

  /** The versions of the executed rows, in ledger order. */
  function ExecutedIn(rows: seq<Row>): seq<Version> {
    if rows == [] then []
    else
      var last := rows[|rows| - 1];
      ExecutedIn(rows[..|rows| - 1]) + if last.mode == Executed then [last.version] else []
  }

  function Versions(ms: seq<Migration>): seq<Version> {
    if ms == [] then [] else Versions(ms[..|ms| - 1]) + [ms[|ms| - 1].version]
  }

  /** The ledger is in strict version order, and its executed rows are the history of committed scripts. */
  ghost predicate LedgerOk(w: World) {
    && (forall i, j | 0 <= i < j < |Rows(w)| :: Less(Rows(w)[i].version, Rows(w)[j].version))
    && ExecutedIn(Rows(w)) == Versions(w.executed)
  }

  function Replay(env: Env, start: Schema, ms: seq<Migration>): Option<Schema> {
    if ms == [] then Some(start)
    else
      match Replay(env, start, ms[..|ms| - 1])
      case None => None
      case Some(s) => env.exec(s, ms[|ms| - 1].sql)
  }

  ghost predicate Inv(env: Env, start: Schema, w: World) {
    LockOk(w) && HolderKnows(w) && LedgerOk(w) && Replay(env, start, w.executed) == Some(w.db.schema)
  }

  // ---------------------------------------------------------------- small facts

  lemma PrefixSorted(rows: seq<Row>, ms: seq<Migration>)
    requires ManifestOk(ms) && IsPrefix(rows, ms)
    ensures forall i, j | 0 <= i < j < |rows| :: Less(rows[i].version, rows[j].version)
  {
  }

  /** The next migration of the manifest goes to the end of the ledger. */
  lemma InsertNext(rows: seq<Row>, ms: seq<Migration>, mode: Mode)
    requires ManifestOk(ms) && IsPrefix(rows, ms) && |rows| < |ms|
    ensures var m := ms[|rows|];
            && Insert(rows, RowOf(m, mode)) == rows + [RowOf(m, mode)]
            && IsPrefix(rows + [RowOf(m, mode)], ms)
            && !InLedger(rows, m.version)
  {
    var m := ms[|rows|];
    forall i | 0 <= i < |rows| ensures rows[i].version != m.version {
      LessIsStrict(ms[i].version, m.version);
    }
  }

  lemma ExecutedPush(rows: seq<Row>, r: Row)
    ensures ExecutedIn(rows + [r]) == ExecutedIn(rows) + if r.mode == Executed then [r.version] else []
  {
    assert (rows + [r])[..|rows|] == rows;
  }

  lemma VersionsPush(ms: seq<Migration>, m: Migration)
    ensures Versions(ms + [m]) == Versions(ms) + [m.version]
  {
    assert (ms + [m])[..|ms|] == ms;
  }

  lemma ReplayPush(env: Env, start: Schema, ms: seq<Migration>, m: Migration)
    requires Replay(env, start, ms).Some?
    ensures Replay(env, start, ms + [m]) == env.exec(Replay(env, start, ms).value, m.sql)
  {
    assert (ms + [m])[..|ms|] == ms;
  }

  lemma {:induction false} AdoptedRowsMatch(ms: seq<Migration>)
    ensures |AdoptedRows(ms)| == |ms| && IsPrefix(AdoptedRows(ms), ms) && ExecutedIn(AdoptedRows(ms)) == []
    decreases ms
  {
    if ms != [] {
      var m := ms[|ms| - 1];
      AdoptedRowsMatch(ms[..|ms| - 1]);
      ExecutedPush(AdoptedRows(ms[..|ms| - 1]), RowOf(m, Adopted));
    }
  }

  lemma {:induction false} FoundInRange(ms: seq<Migration>, f: string)
    ensures var k := LastWithFingerprint(ms, f);
            k.Some? ==> k.value < |ms| && ms[k.value].schemaChecksum == Some(f)
                        && forall i | k.value < i < |ms| :: ms[i].schemaChecksum != Some(f)
    ensures LastWithFingerprint(ms, f).None? ==> forall i | 0 <= i < |ms| :: ms[i].schemaChecksum != Some(f)
    decreases ms
  {
    if ms != [] && ms[|ms| - 1].schemaChecksum != Some(f) {
      FoundInRange(ms[..|ms| - 1], f);
    }
  }

  lemma LockKept(w: World, p: nat, pc: Pc)
    requires LockOk(w) && Holds(PcOf(w, p))
    ensures LockOk(To(w, p, pc))
    ensures To(w, p, pc).lock == if Holds(pc) then Some(p) else None
  {
    var w' := To(w, p, pc);
    forall q: nat ensures Holds(PcOf(w', q)) <==> w'.lock == Some(q) {
      assert Holds(PcOf(w, q)) <==> w.lock == Some(q);
      assert w.lock == Some(p);
    }
  }

  // ---------------------------------------------------------------- each step

  lemma ProbeKeeps(env: Env, start: Schema, w: World, p: nat, ms: seq<Migration>)
    requires Inv(env, start, w) && PcOf(w, p) == Holding(ms)
    ensures Inv(env, start, Move(env, w, p))
  {
    var w' := Move(env, w, p);
    assert w.lock == Some(p) && ManifestOk(ms);
    FoundInRange(ms, env.fingerprint(w.db.schema));
    LockKept(w, p, w'.pcs[p]);
  }

  lemma CreateKeeps(env: Env, start: Schema, w: World, p: nat, ms: seq<Migration>, adopt: Option<nat>)
    requires Inv(env, start, w) && PcOf(w, p) == Probed(ms, adopt)
    ensures Inv(env, start, Move(env, w, p))
  {
    var w' := Move(env, w, p);
    assert w.lock == Some(p);
    LockKept(w, p, Ready(ms, adopt));
    assert w'.lock == Some(p) && PcOf(w', p) == Ready(ms, adopt);
    assert Rows(w') == Rows(w);
    forall q: nat ensures Holds(PcOf(w', q)) <==> w'.lock == Some(q) {
      assert PcOf(w', q) == PcOf(To(w, p, Ready(ms, adopt)), q);
    }
  }

  lemma ValidateKeeps(env: Env, start: Schema, w: World, p: nat, ms: seq<Migration>, adopt: Option<nat>)
    requires Inv(env, start, w) && PcOf(w, p) == Ready(ms, adopt)
    ensures Inv(env, start, Move(env, w, p))
  {
    var w' := Move(env, w, p);
    assert w.lock == Some(p);
    LockKept(w, p, w'.pcs[p]);
    if IsPrefix(Rows(w), ms) {
      assert VersionsIn(Rows(w)) == VersionsOf(ms, |Rows(w)|);
    }
  }

  lemma AdoptedFacts(ms: seq<Migration>, n: nat)
    requires ManifestOk(ms) && n <= |ms|
    ensures var rows := AdoptedRows(ms[..n]);
            && |rows| == n && IsPrefix(rows, ms) && ExecutedIn(rows) == []
            && forall i, j | 0 <= i < j < |rows| :: Less(rows[i].version, rows[j].version)
  {
    AdoptedRowsMatch(ms[..n]);
    PrefixSorted(AdoptedRows(ms[..n]), ms);
  }

  lemma SkipAdoptKeeps(env: Env, start: Schema, w: World, p: nat, ms: seq<Migration>, applied: set<Version>)
    requires Inv(env, start, w) && PcOf(w, p) == Validated(ms, None, applied)
    ensures Inv(env, start, Move(env, w, p))
  {
    assert w.lock == Some(p);
    LockKept(w, p, Applying(ms, applied, 0));
    assert applied == VersionsOf(ms, |Rows(w)|) && |Rows(w)| == Max(0, |Rows(w)|);
    assert InStep(ms, applied, 0, |Rows(w)|);
  }

  lemma AdoptedInStep(ms: seq<Migration>, n: nat)
    requires n <= |ms|
    ensures VersionsOf(ms, 0) + VersionsOf(ms, n) == VersionsOf(ms, n)
    ensures InStep(ms, VersionsOf(ms, n), 0, n)
  {
    assert n == Max(0, n);
  }

  /** A holder that writes rows and moves on, keeping the executed ones. */
  lemma LedgerWritten(env: Env, start: Schema, w: World, p: nat, pc: Pc, rows: seq<Row>, w': World)
    requires Inv(env, start, w) && Holds(PcOf(w, p)) && Holds(pc)
    requires w' == To(w, p, pc).(db := w.db.(ledger := Some(rows))) && Knows(w', pc)
    requires ExecutedIn(rows) == ExecutedIn(Rows(w))
    requires forall i, j | 0 <= i < j < |rows| :: Less(rows[i].version, rows[j].version)
    ensures Inv(env, start, w')
  {
    LockKept(w, p, pc);
    LockFollows(To(w, p, pc), w');
  }

  lemma AdoptKeeps(env: Env, start: Schema, w: World, p: nat, ms: seq<Migration>, n: nat, applied: set<Version>)
    requires Inv(env, start, w) && PcOf(w, p) == Validated(ms, Some(n), applied)
    ensures Inv(env, start, Move(env, w, p))
  {
    assert w.lock == Some(p);
    AdoptedInStep(ms, n + 1);
    AdoptedFacts(ms, n + 1);
    var pc, rows := Applying(ms, VersionsOf(ms, n + 1), 0), AdoptedRows(ms[..n + 1]);
    LedgerWritten(env, start, w, p, pc, rows, Move(env, w, p));
  }

  lemma LockFollows(w: World, w': World)
    requires LockOk(w) && w'.pcs == w.pcs && w'.lock == w.lock
    ensures LockOk(w')
  {
    forall q: nat ensures PcOf(w', q) == PcOf(w, q) {}
  }

  /** A committed script extends ledger and history together. */
  lemma CommitFacts(env: Env, start: Schema, w: World, ms: seq<Migration>, s: Schema)
    requires ManifestOk(ms) && IsPrefix(Rows(w), ms) && |Rows(w)| < |ms|
    requires LedgerOk(w) && Replay(env, start, w.executed) == Some(w.db.schema)
    requires env.exec(w.db.schema, ms[|Rows(w)|].sql) == Some(s)
    ensures var m := ms[|Rows(w)|];
            var w' := w.(db := Db(Some(Insert(Rows(w), RowOf(m, Executed))), s), executed := w.executed + [m]);
            && LedgerOk(w') && Replay(env, start, w'.executed) == Some(s)
            && IsPrefix(Rows(w'), ms) && |Rows(w')| == |Rows(w)| + 1
  {
    var m := ms[|Rows(w)|];
    InsertNext(Rows(w), ms, Executed);
    ExecutedPush(Rows(w), RowOf(m, Executed));
    VersionsPush(w.executed, m);
    ReplayPush(env, start, w.executed, m);
    PrefixSorted(Rows(w) + [RowOf(m, Executed)], ms);
  }

  lemma ApplyKeeps(env: Env, start: Schema, w: World, p: nat, ms: seq<Migration>, applied: set<Version>, i: nat)
    requires Inv(env, start, w) && PcOf(w, p) == Applying(ms, applied, i) && i < |ms|
    ensures Inv(env, start, Move(env, w, p))
  {
    var w' := Move(env, w, p);
    assert w.lock == Some(p);
    var k: nat :| k <= |ms| && applied == VersionsOf(ms, k) && |Rows(w)| == Max(i, k);
    AppliedExactly(ms, k, i);
    LockKept(w, p, w'.pcs[p]);
    LockFollows(To(w, p, w'.pcs[p]), w');
    if i < k {
      assert |Rows(w')| == Max(i + 1, k);
    } else if w'.executed != w.executed {
      CommitFacts(env, start, w, ms, w'.db.schema);
      assert |Rows(w')| == Max(i + 1, k);
    }
  }

  lemma AppliedExactly(ms: seq<Migration>, k: nat, i: nat)
    requires ManifestOk(ms) && k <= |ms| && i < |ms|
    ensures ms[i].version in VersionsOf(ms, k) <==> i < k
  {
    if j: nat :| j < k && ms[j].version == ms[i].version {
      DistinctVersions(ms, i, j);
    }
  }

  lemma NextKeepsInv(env: Env, start: Schema, w: World, s: Step)
    requires Inv(env, start, w)
    ensures Inv(env, start, Next(env, w, s))
  {
    if Enabled(w, s) {
      match s
      case Acquire(p, ms) => AcquireKeeps(env, start, w, p, ms);
      case Crash(p) => LockKept(w, p, Idle);
      case Advance(p) => AdvanceKeeps(env, start, w, p);
    }
  }

  lemma AcquireKeeps(env: Env, start: Schema, w: World, p: nat, ms: seq<Migration>)
    requires Inv(env, start, w) && Enabled(w, Acquire(p, ms))
    ensures Inv(env, start, Next(env, w, Acquire(p, ms)))
  {
    var w' := Next(env, w, Acquire(p, ms));
    forall q: nat ensures Holds(PcOf(w', q)) <==> w'.lock == Some(q) {
      assert Holds(PcOf(w, q)) <==> w.lock == Some(q);
    }
  }

  lemma AdvanceKeeps(env: Env, start: Schema, w: World, p: nat)
    requires Inv(env, start, w) && Holds(PcOf(w, p))
    ensures Inv(env, start, Move(env, w, p))
  {
    assert w.lock == Some(p);
    match PcOf(w, p)
    case Holding(ms) => ProbeKeeps(env, start, w, p, ms);
    case Probed(ms, adopt) => CreateKeeps(env, start, w, p, ms, adopt);
    case Ready(ms, adopt) => ValidateKeeps(env, start, w, p, ms, adopt);
    case Validated(ms, None, applied) => SkipAdoptKeeps(env, start, w, p, ms, applied);
    case Validated(ms, Some(n), applied) => AdoptKeeps(env, start, w, p, ms, n, applied);
    case Applying(ms, applied, i) =>
      if i < |ms| {
        ApplyKeeps(env, start, w, p, ms, applied, i);
      } else {
        LockKept(w, p, Move(env, w, p).pcs[p]);
      }
  }

  lemma {:induction false} RunKeepsInv(env: Env, start: Schema, w: World, steps: seq<Step>)
    requires Inv(env, start, w)
    ensures Inv(env, start, Run(env, w, steps))
    decreases steps
  {
    if steps != [] {
      NextKeepsInv(env, start, w, steps[0]);
      RunKeepsInv(env, start, Next(env, w, steps[0]), steps[1..]);
    }
  }

  function Init(db: Db): World { World(db, None, map[], []) }

  // ---------------------------------------------------------------- what it means

  predicate Ran(ms: seq<Migration>, v: Version) { exists i :: 0 <= i < |ms| && ms[i].version == v }

  predicate HasExecutedRow(rows: seq<Row>, v: Version) {
    exists i :: 0 <= i < |rows| && rows[i].mode == Executed && rows[i].version == v
  }

  lemma {:induction false} ExecutedInAt(rows: seq<Row>, v: Version)
    ensures v in ExecutedIn(rows) <==> HasExecutedRow(rows, v)
    decreases rows
  {
    if rows != [] {
      var n := |rows| - 1;
      ExecutedInAt(rows[..n], v);
      if i :| 0 <= i < |rows| && rows[i].mode == Executed && rows[i].version == v {
        if i < n { assert rows[..n][i] == rows[i]; }
      }
    }
  }

  lemma {:induction false} VersionsAt(ms: seq<Migration>)
    ensures |Versions(ms)| == |ms| && forall i | 0 <= i < |ms| :: Versions(ms)[i] == ms[i].version
    decreases ms
  {
    if ms != [] {
      VersionsAt(ms[..|ms| - 1]);
    }
  }

  lemma {:induction false} ExecutedInSorted(rows: seq<Row>)
    requires forall i, j | 0 <= i < j < |rows| :: Less(rows[i].version, rows[j].version)
    ensures forall i, j | 0 <= i < j < |ExecutedIn(rows)| :: Less(ExecutedIn(rows)[i], ExecutedIn(rows)[j])
    decreases rows
  {
    if rows != [] {
      var n := |rows| - 1;
      var before := ExecutedIn(rows[..n]);
      ExecutedInSorted(rows[..n]);
      forall i | 0 <= i < |before| ensures Less(before[i], rows[n].version) {
        ExecutedInAt(rows[..n], before[i]);
      }
    }
  }

  /**
   From an unmigrated database, whoever runs, crashes and runs again, with whatever manifests: scripts
   are committed in strictly increasing version order, so none twice; the ledger's executed rows are
   exactly those scripts; and the schema is the first one with those scripts run over it.
   */
  lemma ExecutedOnceInOrder(env: Env, db: Db, steps: seq<Step>)
    requires db.ledger.None?
    ensures var w := Run(env, Init(db), steps);
            && Increasing(w.executed)
            && Replay(env, db.schema, w.executed) == Some(w.db.schema)
            && forall v :: Ran(w.executed, v) <==> HasExecutedRow(Rows(w), v)
  {
    RunKeepsInv(env, db.schema, Init(db), steps);
    var w := Run(env, Init(db), steps);
    ExecutedInSorted(Rows(w));
    VersionsAt(w.executed);
    forall i, j | 0 <= i < j < |w.executed| ensures Less(w.executed[i].version, w.executed[j].version) {
      assert Less(ExecutedIn(Rows(w))[i], ExecutedIn(Rows(w))[j]);
    }
    forall v ensures Ran(w.executed, v) <==> HasExecutedRow(Rows(w), v) {
      ExecutedInAt(Rows(w), v);
      if i :| 0 <= i < |w.executed| && w.executed[i].version == v { assert Versions(w.executed)[i] == v; }
      if v in ExecutedIn(Rows(w)) {
        var i :| 0 <= i < |Versions(w.executed)| && Versions(w.executed)[i] == v;
        assert w.executed[i].version == v;
      }
    }
  }

  /** A runner that reports success leaves its whole manifest in the ledger and the declared fingerprint in the schema. */
  lemma DoneMeansApplied(env: Env, start: Schema, w: World, p: nat)
    requires Inv(env, start, w) && Holds(PcOf(w, p))
    requires PcOf(Move(env, w, p), p).Done?
    ensures var ms := PcOf(w, p).ms;
            && IsPrefix(Rows(w), ms) && |Rows(w)| == |ms|
            && (ms[|ms| - 1].schemaChecksum.Some? ==> env.fingerprint(w.db.schema) == ms[|ms| - 1].schemaChecksum.value)
            && Move(env, w, p).db == w.db
  {
    assert w.lock == Some(p);
  }

  /**
   Two histories of any runners, crashes and manifests that end with a runner finishing the same
   manifest have the same versions in their ledgers, cut off along the way or not.
   */
  lemma FinishedRunsAgree(env: Env, a: Db, b: Db, xs: seq<Step>, ys: seq<Step>, p: nat, q: nat)
    requires a.ledger.None? && b.ledger.None?
    requires var v, w := Run(env, Init(a), xs), Run(env, Init(b), ys);
             && Holds(PcOf(v, p)) && Holds(PcOf(w, q)) && PcOf(v, p).ms == PcOf(w, q).ms
             && PcOf(Move(env, v, p), p).Done? && PcOf(Move(env, w, q), q).Done?
    ensures var x, y := Rows(Run(env, Init(a), xs)), Rows(Run(env, Init(b), ys));
            |x| == |y| && forall i | 0 <= i < |x| ::
              x[i].version == y[i].version && x[i].name == y[i].name && x[i].checksum == y[i].checksum
  {
    var v, w := Run(env, Init(a), xs), Run(env, Init(b), ys);
    RunKeepsInv(env, a.schema, Init(a), xs);
    RunKeepsInv(env, b.schema, Init(b), ys);
    DoneMeansApplied(env, a.schema, v, p);
    DoneMeansApplied(env, b.schema, w, q);
    forall i | 0 <= i < |Rows(v)|
      ensures Rows(v)[i].version == Rows(w)[i].version && Rows(v)[i].name == Rows(w)[i].name
              && Rows(v)[i].checksum == Rows(w)[i].checksum
    {
      assert Matches(Rows(v)[i], PcOf(v, p).ms[i]) && Matches(Rows(w)[i], PcOf(v, p).ms[i]);
    }
  }

  /** A refusal changes neither the ledger's rows nor the schema. */
  lemma RefusalChangesNothing(env: Env, start: Schema, w: World, p: nat)
    requires Inv(env, start, w) && Holds(PcOf(w, p))
    requires PcOf(Move(env, w, p), p).Refused?
    ensures Move(env, w, p).db == w.db && Move(env, w, p).executed == w.executed && Move(env, w, p).lock.None?
  {
    assert w.lock == Some(p);
  }

  /** The actor of a step. */
  function Actor(s: Step): nat { s.p }

  /** Only the lock holder changes the database, and a ledger only ever grows at its end. */
  lemma StepsExtendTheLedger(env: Env, start: Schema, w: World, s: Step)
    requires Inv(env, start, w)
    ensures Next(env, w, s).db != w.db ==> w.lock == Some(Actor(s))
    ensures Rows(w) <= Rows(Next(env, w, s))
    ensures w.executed <= Next(env, w, s).executed
  {
    if Enabled(w, s) && s.Advance? {
      var p := s.p;
      assert w.lock == Some(p);
      match PcOf(w, p)
      case Applying(ms, applied, i) =>
        if i < |ms| {
          var k: nat :| k <= |ms| && applied == VersionsOf(ms, k) && |Rows(w)| == Max(i, k);
          AppliedExactly(ms, k, i);
          if i >= k { InsertNext(Rows(w), ms, Executed); }
        }
      case _ =>
    }
  }

  lemma {:induction false} RunsExtendTheLedger(env: Env, start: Schema, w: World, steps: seq<Step>)
    requires Inv(env, start, w)
    ensures Rows(w) <= Rows(Run(env, w, steps)) && w.executed <= Run(env, w, steps).executed
    decreases steps
  {
    if steps != [] {
      NextKeepsInv(env, start, w, steps[0]);
      StepsExtendTheLedger(env, start, w, steps[0]);
      RunsExtendTheLedger(env, start, Next(env, w, steps[0]), steps[1..]);
    }
  }

  // ---------------------------------------------------------------- the adoption that cannot be resumed

  /** An empty ledger over a schema that has objects: what is left when adoption stops after creating the ledger. */
  predicate Stranded(db: Db) { db.ledger == Some([]) && db.schema.objects != {} }

  ghost predicate BaselineSteps(steps: seq<Step>) {
    forall i | 0 <= i < |steps| :: steps[i].Acquire? && steps[i].ms != [] ==> steps[i].ms[0].baseline
  }

  /** A runner over a stranded database that did not begin before it was stranded. */
  predicate Helpless(pc: Pc) {
    match pc
    case Holding(ms) => ms != [] && ms[0].baseline
    case Probed(ms, adopt) => adopt.None? && ms != [] && ms[0].baseline
    case Ready(ms, adopt) => adopt.None? && ms != [] && ms[0].baseline
    case Validated(ms, adopt, applied) => adopt.None? && applied == {} && ms != [] && ms[0].baseline
    case Applying(ms, applied, i) => applied == {} && i == 0 && ms != [] && ms[0].baseline
    case _ => true
  }

  ghost predicate StrandedWorld(w: World) {
    && Stranded(w.db)
    && (w.lock.Some? ==> Helpless(PcOf(w, w.lock.value)))
    && LockOk(w)
  }

  lemma StrandedStep(env: Env, w: World, s: Step)
    requires StrandedWorld(w) && (s.Acquire? && s.ms != [] ==> s.ms[0].baseline)
    ensures StrandedWorld(Next(env, w, s)) && Next(env, w, s).db == w.db
    ensures forall p: nat :: PcOf(Next(env, w, s), p).Done? ==> PcOf(w, p).Done?
  {
    if Enabled(w, s) {
      var w' := Next(env, w, s);
      if s.Acquire? {
        forall q: nat ensures Holds(PcOf(w', q)) <==> w'.lock == Some(q) {
          assert Holds(PcOf(w, q)) <==> w.lock == Some(q);
        }
      } else {
        assert w.lock == Some(s.p);
        LockKept(w, s.p, w'.pcs[s.p]);
        LockFollows(To(w, s.p, w'.pcs[s.p]), w');
      }
    }
  }

  /**
   Once stranded, always stranded: no run of manifests that start with a baseline, in any number of
   attempts, changes the database or finishes.
   */
  lemma {:induction false} StrandedForever(env: Env, w: World, steps: seq<Step>)
    requires StrandedWorld(w) && BaselineSteps(steps)
    ensures Run(env, w, steps).db == w.db
    ensures forall p: nat :: PcOf(Run(env, w, steps), p).Done? ==> PcOf(w, p).Done?
    decreases steps
  {
    if steps != [] {
      StrandedStep(env, w, steps[0]);
      forall i | 0 <= i < |steps[1..]| && steps[1..][i].Acquire? && steps[1..][i].ms != []
        ensures steps[1..][i].ms[0].baseline
      {
        assert steps[1..][i] == steps[i + 1];
      }
      StrandedForever(env, Next(env, w, steps[0]), steps[1..]);
    }
  }

  /** `n` statements of one runner in a row. */
  function Advances(p: nat, n: nat): seq<Step> { if n == 0 then [] else [Advance(p)] + Advances(p, n - 1) }

  lemma RunFirst(env: Env, w: World, s: Step, rest: seq<Step>)
    ensures Run(env, w, [s] + rest) == Run(env, Next(env, w, s), rest)
  {
    assert ([s] + rest)[1..] == rest;
  }

  lemma RunAdvances(env: Env, w: World, p: nat, n: nat, rest: seq<Step>)
    requires n > 0
    ensures Run(env, w, Advances(p, n) + rest) == Run(env, Next(env, w, Advance(p)), Advances(p, n - 1) + rest)
  {
    assert Advances(p, n) + rest == [Advance(p)] + (Advances(p, n - 1) + rest);
    RunFirst(env, w, Advance(p), Advances(p, n - 1) + rest);
  }

  function Started(s: Schema, m: Migration): World {
    World(Db(None, s), Some(0), map[0 := Holding([m])], [])
  }

  /** A runner that found a schema to adopt and created the ledger. */
  function Midway(s: Schema, m: Migration): World {
    World(Db(Some([]), s), Some(0), map[0 := Ready([m], Some(0))], [])
  }

  lemma ReachesMidway(env: Env, s: Schema, m: Migration, rest: seq<Step>)
    requires m.baseline && m.adopt && m.schemaChecksum == Some(env.fingerprint(s)) && s.objects != {}
    ensures Run(env, Started(s, m), Advances(0, 2) + rest) == Run(env, Midway(s, m), rest)
  {
    var w := Started(s, m);
    assert LastWithFingerprint([m], env.fingerprint(s)) == Some(0);
    RunAdvances(env, w, 0, 2, rest);
    var w1 := Next(env, w, Advance(0));
    assert w1 == w.(pcs := map[0 := Probed([m], Some(0))]);
    RunAdvances(env, w1, 0, 1, rest);
    assert Next(env, w1, Advance(0)) == Midway(s, m);
    assert Advances(0, 0) + rest == rest;
  }

  /** The crash is all it takes: the same schema, adopted without one, is taken over and finished. */
  lemma AdoptionWithAndWithoutCrash(env: Env, s: Schema, m: Migration)
    requires m.baseline && m.adopt && m.schemaChecksum == Some(env.fingerprint(s)) && s.objects != {}
    ensures Next(env, Init(Db(None, s)), Acquire(0, [m])) == Started(s, m)
    ensures StrandedWorld(Run(env, Started(s, m), Advances(0, 2) + [Crash(0)]))
    ensures var w := Run(env, Started(s, m), Advances(0, 2) + Advances(0, 4));
            PcOf(w, 0) == Done([m]) && w.db == Db(Some([RowOf(m, Adopted)]), s)
  {
    assert Next(env, Init(Db(None, s)), Acquire(0, [m])) == Started(s, m);
    ReachesMidway(env, s, m, [Crash(0)]);
    ReachesMidway(env, s, m, Advances(0, 4));
    var w := Midway(s, m);
    RunFirst(env, w, Crash(0), []);
    assert [Crash(0)] == [Crash(0)] + [];
    MidwayFinishes(env, s, m);
  }

  /** The adopted rows are committed. */
  function TakenOver(s: Schema, m: Migration): World {
    World(Db(Some([RowOf(m, Adopted)]), s), Some(0), map[0 := Applying([m], {m.version}, 0)], [])
  }

  lemma MidwayFinishes(env: Env, s: Schema, m: Migration)
    requires m.baseline && m.adopt && m.schemaChecksum == Some(env.fingerprint(s)) && s.objects != {}
    ensures var w := Run(env, Midway(s, m), Advances(0, 4));
            PcOf(w, 0) == Done([m]) && w.db == Db(Some([RowOf(m, Adopted)]), s)
  {
    var w := Midway(s, m);
    assert Advances(0, 4) + [] == Advances(0, 4);
    RunAdvances(env, w, 0, 4, []);
    var w1 := Next(env, w, Advance(0));
    assert w1 == w.(pcs := map[0 := Validated([m], Some(0), VersionsIn([]))]);
    RunAdvances(env, w1, 0, 3, []);
    assert [m][..1] == [m] && AdoptedRows([m]) == [RowOf(m, Adopted)];
    assert VersionsIn([]) + VersionsOf([m], 1) == {m.version};
    assert Next(env, w1, Advance(0)) == TakenOver(s, m);
    TakenOverFinishes(env, s, m);
  }

  lemma TakenOverFinishes(env: Env, s: Schema, m: Migration)
    requires m.schemaChecksum == Some(env.fingerprint(s))
    ensures var w := Run(env, TakenOver(s, m), Advances(0, 2) + []);
            PcOf(w, 0) == Done([m]) && w.db == Db(Some([RowOf(m, Adopted)]), s)
  {
    var w := TakenOver(s, m);
    RunAdvances(env, w, 0, 2, []);
    var w1 := Next(env, w, Advance(0));
    assert w1 == w.(pcs := map[0 := Applying([m], {m.version}, 1)]);
    RunAdvances(env, w1, 0, 1, []);
    assert Advances(0, 0) + [] == [];
  }
}
