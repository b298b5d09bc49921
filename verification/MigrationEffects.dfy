/**
 What stands behind every row of the ledger: the script that ran and the schema it left, or the
 fingerprint by which it was adopted; and exactly when a runner's statements go through.
 */
module MigrationEffects {
  import opened Common
  import opened Migrations
  import opened MigrationSafety
  import opened Text

  // ---------------------------------------------------------------- the manifest and the ledger

  predicate OnlyOf(s: string, alphabet: string) { forall i | 0 <= i < |s| :: s[i] in alphabet }

  const DIGITS := "0123456789"
  const HEX := DIGITS + "abcdef"
  const NAME := "abcdefghijklmnopqrstuvwxyz" + DIGITS + "_-"

  /**
   An entry of a valid manifest: a version of 12 to 14 digits, a lower-case name that starts with a letter
   or digit, SHA-256 sums in lower case, a file with the declared sum, and baseline and adoption on the
   first entry alone, adoption only of a baseline with a fingerprint.
   */
  ghost predicate Declared(e: Entry, i: nat, files: map<string, string>, hash: string -> string) {
    && 12 <= |e.version.text| && |e.version.text| <= 14 && OnlyOf(e.version.text, DIGITS)
    && |e.name| > 0 && OnlyOf(e.name, NAME) && e.name[0] !in "_-"
    && |e.checksum| == 64 && OnlyOf(e.checksum, HEX)
    && (e.schemaChecksum.Some? ==> |e.schemaChecksum.value| == 64 && OnlyOf(e.schemaChecksum.value, HEX))
    && e.file in files && hash(files[e.file]) == e.checksum
    && (i > 0 ==> !e.baseline && !e.adopt)
    && (e.adopt ==> e.baseline && e.schemaChecksum.Some?)
  }

  lemma DigitsAre(s: string)
    ensures OnlyOf(s, DIGITS) <==> AllDigits(s)
  {
  }

  lemma HexAre(s: string)
    ensures |s| == 64 && OnlyOf(s, HEX) <==> IsChecksum(s)
  {
    forall c: char ensures c in HEX <==> '0' <= c <= '9' || 'a' <= c <= 'f' {
      assert c in HEX <==> c in DIGITS || c in "abcdef";
    }
  }

  lemma NamesAre(s: string)
    ensures |s| > 0 && OnlyOf(s, NAME) && s[0] !in "_-" <==> IsName(s)
  {
    forall c: char ensures c in NAME <==> NameChar(c) { NameCharIs(c); }
  }

  lemma NameCharIs(c: char)
    ensures c in NAME <==> NameChar(c)
  {
    var letters := "abcdefghijklmnopqrstuvwxyz";
    assert c in NAME <==> c in letters || c in DIGITS || c in "_-";
  }

  /** The loader accepts a manifest exactly if it has entries, each is such, and their versions increase. */
  lemma ManifestExactly(es: seq<Entry>, files: map<string, string>, hash: string -> string)
    ensures ValidManifest(es, files, hash)
       <==> && |es| > 0 && (forall i | 0 <= i < |es| :: Declared(es[i], i, files, hash))
            && forall i, j | 0 <= i < j < |es| :: Text.Less(es[i].version.text, es[j].version.text)
  {
    forall i | 0 <= i < |es| ensures Declared(es[i], i, files, hash) <==> Acceptable(es[i], i, files, hash) {
      EntryExactly(es[i], i, files, hash);
    }
  }

  lemma EntryExactly(e: Entry, i: nat, files: map<string, string>, hash: string -> string)
    ensures Declared(e, i, files, hash) <==> Acceptable(e, i, files, hash)
  {
    DigitsAre(e.version.text);
    NamesAre(e.name);
    HexAre(e.checksum);
    if e.schemaChecksum.Some? { HexAre(e.schemaChecksum.value); }
  }

  /** What is loaded of an entry is what it declares, and the script the file holds. */
  lemma LoadedColumns(e: Entry, i: nat, files: map<string, string>, hash: string -> string)
    requires Declared(e, i, files, hash)
    ensures LoadedFrom(e, files) == Migration(
              version := e.version, name := e.name, checksum := e.checksum, schemaChecksum := e.schemaChecksum,
              sql := files[e.file], baseline := e.baseline, adopt := e.adopt)
  {
  }

  /** The ledger is accepted exactly if it is the beginning of the manifest, row by row. */
  lemma ValidatesExactly(env: Env, w: World, p: nat, ms: seq<Migration>, adopt: Option<nat>)
    requires PcOf(w, p) == Ready(ms, adopt)
    ensures var w', rows := Move(env, w, p), Rows(w);
            && w'.db == w.db && w'.executed == w.executed
            && (PcOf(w', p) != Refused <==>
                  && |rows| <= |ms|
                  && forall i | 0 <= i < |rows| ::
                       && rows[i].version == ms[i].version && rows[i].name == ms[i].name && rows[i].checksum == ms[i].checksum
                       && (ms[i].schemaChecksum == None || rows[i].schemaChecksum == ms[i].schemaChecksum))
  {
  }

  // ---------------------------------------------------------------- one statement at a time

  /** Some row of the ledger has the version. */
  predicate Recorded(rows: seq<Row>, v: Version) { exists i | 0 <= i < |rows| :: rows[i].version == v }

  /** A baseline starts from nothing, the script succeeds, and it leaves the declared fingerprint, if any. */
  ghost predicate GoesThrough(env: Env, s: Schema, m: Migration) {
    && (m.baseline ==> s.objects == {})
    && env.exec(s, m.sql).Some?
    && (m.schemaChecksum.Some? ==> env.fingerprint(env.exec(s, m.sql).value) == m.schemaChecksum.value)
  }

  /**
   A pending migration is committed exactly if it goes through and its version is not recorded. Then the
   schema is what the script left and the ledger has one more row, at its end; otherwise the runner
   refuses and nothing changed.
   */
  lemma CommitsExactly(env: Env, start: Schema, w: World, p: nat, ms: seq<Migration>, applied: set<Version>, i: nat)
    requires Inv(env, start, w) && PcOf(w, p) == Applying(ms, applied, i) && i < |ms| && ms[i].version !in applied
    ensures var w', m := Next(env, w, Advance(p)), ms[i];
            && (w'.executed == w.executed + [m] <==> GoesThrough(env, w.db.schema, m) && !Recorded(Rows(w), m.version))
            && (w'.executed == w.executed + [m] ==>
                  && Some(w'.db.schema) == env.exec(w.db.schema, m.sql)
                  && Rows(w') == Rows(w) + [Row(version := m.version, name := m.name, checksum := m.checksum,
                                                schemaChecksum := m.schemaChecksum, mode := Executed)]
                  && PcOf(w', p) == Applying(ms, applied, i + 1))
            && (w'.executed != w.executed + [m] ==> w'.db == w.db && w'.executed == w.executed && PcOf(w', p) == Refused)
  {
    assert w.lock == Some(p);
    var k: nat :| k <= |ms| && applied == VersionsOf(ms, k) && |Rows(w)| == Max(i, k);
    AppliedExactly(ms, k, i);
    InsertNext(Rows(w), ms, Executed);
    assert Recorded(Rows(w), ms[i].version) <==> InLedger(Rows(w), ms[i].version);
    assert |w.executed + [ms[i]]| == |w.executed| + 1;
  }

  /** The migration is the last one that declares the fingerprint. */
  ghost predicate LastDeclaring(ms: seq<Migration>, f: string, n: nat) {
    && n < |ms| && ms[n].schemaChecksum == Some(f)
    && forall j | n < j < |ms| :: ms[j].schemaChecksum != Some(f)
  }

  lemma {:induction false} LastDeclaringFound(ms: seq<Migration>, f: string)
    ensures LastWithFingerprint(ms, f).Some? ==> LastDeclaring(ms, f, LastWithFingerprint(ms, f).value)
    ensures LastWithFingerprint(ms, f).None? ==> forall j | 0 <= j < |ms| :: ms[j].schemaChecksum != Some(f)
    decreases ms
  {
    if ms != [] {
      LastDeclaringFound(ms[..|ms| - 1], f);
    }
  }

  /** An unledgered schema that is not empty, under a manifest that starts with a baseline. */
  predicate Preexisting(db: Db, ms: seq<Migration>)
    requires ms != []
  {
    db.ledger.None? && ms[0].baseline && db.schema.objects != {}
  }

  /**
   A runner goes on past its first look exactly if there is nothing to adopt, or adoption is declared
   and some migration declares the fingerprint; it then adopts up to the last one that does.
   */
  lemma ProbesExactly(env: Env, db: Db, ms: seq<Migration>)
    requires ms != []
    ensures var r, f := Probing(env, db, ms), env.fingerprint(db.schema);
            && (r.None? <==> && Preexisting(db, ms)
                             && (!ms[0].adopt || forall j | 0 <= j < |ms| :: ms[j].schemaChecksum != Some(f)))
            && (r == Some(None) <==> !Preexisting(db, ms))
            && (forall n: nat :: r == Some(Some(n)) <==> Preexisting(db, ms) && ms[0].adopt && LastDeclaring(ms, f, n))
  {
    LastDeclaringFound(ms, env.fingerprint(db.schema));
  }

  /** A runner at the end of its manifest succeeds exactly if the schema has the last declared fingerprint. */
  lemma FinishesExactly(env: Env, w: World, p: nat, ms: seq<Migration>, applied: set<Version>)
    requires PcOf(w, p) == Applying(ms, applied, |ms|) && ms != []
    ensures var w' := Move(env, w, p);
            && w'.db == w.db && w'.executed == w.executed && w'.lock == None
            && (PcOf(w', p) == Done(ms) <==>
                  (ms[|ms| - 1].schemaChecksum.Some? ==> env.fingerprint(w.db.schema) == ms[|ms| - 1].schemaChecksum.value))
            && (PcOf(w', p) == Done(ms) || PcOf(w', p) == Refused)
  {
  }

  // ---------------------------------------------------------------- over every run

  /** The script ran on what the ones before it left, and left what was declared. */
  ghost predicate RanAsDeclared(env: Env, start: Schema, history: seq<Migration>, k: nat)
    requires k < |history|
  {
    var before, after := Replay(env, start, history[..k]), Replay(env, start, history[..k + 1]);
    && before.Some? && after.Some? && GoesThrough(env, before.value, history[k])
    && after == env.exec(before.value, history[k].sql)
  }

  ghost predicate AllAsDeclared(env: Env, start: Schema, history: seq<Migration>) {
    forall k | 0 <= k < |history| :: RanAsDeclared(env, start, history, k)
  }

  lemma DeclaredPush(env: Env, start: Schema, history: seq<Migration>, m: Migration, s: Schema)
    requires AllAsDeclared(env, start, history) && Replay(env, start, history) == Some(s) && GoesThrough(env, s, m)
    ensures AllAsDeclared(env, start, history + [m])
  {
    var longer := history + [m];
    forall k | 0 <= k < |longer| ensures RanAsDeclared(env, start, longer, k) {
      if k < |history| {
        assert RanAsDeclared(env, start, history, k);
        assert longer[..k] == history[..k] && longer[..k + 1] == history[..k + 1];
      } else {
        assert longer[..k] == history && longer[..k + 1] == longer;
        ReplayPush(env, start, history, m);
      }
    }
  }

  /** The row is the record of a script that ran. */
  predicate FromHistory(r: Row, m: Migration) {
    r.version == m.version && r.name == m.name && r.checksum == m.checksum && r.schemaChecksum == m.schemaChecksum
  }

  /** The first rows adopt a manifest up to the last migration that declares the fingerprint of the first schema. */
  ghost predicate AdoptedFrom(env: Env, start: Schema, rows: seq<Row>, ms: seq<Migration>, n: nat) {
    && ManifestOk(ms) && n < |ms| && n < |rows| && ms[0].baseline && ms[0].adopt && start.objects != {}
    && LastDeclaring(ms, env.fingerprint(start), n)
    && (forall i | 0 <= i <= n :: rows[i].mode == Adopted && FromHistory(rows[i], ms[i]))
    && (forall i | n < i < |rows| :: rows[i].mode == Executed)
  }

  ghost predicate AdoptionsTrue(env: Env, start: Schema, rows: seq<Row>) {
    (forall i | 0 <= i < |rows| :: rows[i].mode == Executed) || exists ms, n :: AdoptedFrom(env, start, rows, ms, n)
  }

  ghost predicate Remembered(history: seq<Migration>, r: Row) {
    exists k | 0 <= k < |history| :: FromHistory(r, history[k])
  }

  ghost predicate RowsTrue(env: Env, start: Schema, w: World) {
    && (forall i | 0 <= i < |Rows(w)| && Rows(w)[i].mode == Executed :: Remembered(w.executed, Rows(w)[i]))
    && AdoptionsTrue(env, start, Rows(w))
  }

  /** A runner that means to adopt does so by the fingerprint of the first schema, which it still is. */
  ghost predicate MeansTruly(env: Env, start: Schema, w: World, pc: Pc) {
    (pc.Probed? || pc.Ready? || pc.Validated?) && pc.adopt.Some? ==>
      && w.executed == [] && Rows(w) == [] && w.db.schema == start
      && pc.ms != [] && pc.ms[0].baseline && pc.ms[0].adopt && start.objects != {}
      && LastDeclaring(pc.ms, env.fingerprint(start), pc.adopt.value)
  }

  ghost predicate Truth(env: Env, start: Schema, w: World) {
    && AllAsDeclared(env, start, w.executed) && RowsTrue(env, start, w)
    && (w.lock.Some? ==> MeansTruly(env, start, w, PcOf(w, w.lock.value)))
  }

  lemma NothingRun(env: Env, start: Schema, w: World)
    requires Inv(env, start, w) && Rows(w) == []
    ensures w.executed == [] && w.db.schema == start
  {
    VersionsAt(w.executed);
  }

  lemma ExecutedRowAdded(env: Env, start: Schema, w: World, w': World, m: Migration)
    requires RowsTrue(env, start, w) && w'.executed == w.executed + [m] && Rows(w') == Rows(w) + [RowOf(m, Executed)]
    ensures RowsTrue(env, start, w')
  {
    forall i | 0 <= i < |Rows(w')| && Rows(w')[i].mode == Executed ensures Remembered(w'.executed, Rows(w')[i]) {
      if i < |Rows(w)| {
        var k :| 0 <= k < |w.executed| && FromHistory(Rows(w)[i], w.executed[k]);
        assert FromHistory(Rows(w')[i], w'.executed[k]);
      } else {
        assert FromHistory(Rows(w')[i], w'.executed[|w.executed|]);
      }
    }
    if ms, n :| AdoptedFrom(env, start, Rows(w), ms, n) {
      assert AdoptedFrom(env, start, Rows(w'), ms, n);
    }
  }

  lemma CommitKeepsTruth(env: Env, start: Schema, w: World, p: nat, ms: seq<Migration>, applied: set<Version>, i: nat)
    requires Inv(env, start, w) && Truth(env, start, w)
    requires PcOf(w, p) == Applying(ms, applied, i) && i < |ms| && ms[i].version !in applied
    ensures Truth(env, start, Next(env, w, Advance(p)))
  {
    var w', m := Next(env, w, Advance(p)), ms[i];
    CommitsExactly(env, start, w, p, ms, applied, i);
    if w'.executed == w.executed + [m] {
      DeclaredPush(env, start, w.executed, m, w.db.schema);
      ExecutedRowAdded(env, start, w, w', m);
    }
  }

  lemma AdoptKeepsTruth(env: Env, start: Schema, w: World, p: nat, ms: seq<Migration>, n: nat, applied: set<Version>)
    requires Inv(env, start, w) && Truth(env, start, w) && PcOf(w, p) == Validated(ms, Some(n), applied)
    ensures Truth(env, start, Next(env, w, Advance(p)))
  {
    assert w.lock == Some(p);
    var w' := Next(env, w, Advance(p));
    AdoptedRowsAt(ms[..n + 1]);
    assert AdoptedFrom(env, start, Rows(w'), ms, n);
  }

  lemma {:induction false} AdoptedRowsAt(ms: seq<Migration>)
    ensures |AdoptedRows(ms)| == |ms|
    ensures forall i | 0 <= i < |ms| :: AdoptedRows(ms)[i].mode == Adopted && FromHistory(AdoptedRows(ms)[i], ms[i])
    decreases ms
  {
    if ms != [] {
      AdoptedRowsAt(ms[..|ms| - 1]);
    }
  }

  lemma ProbeKeepsTruth(env: Env, start: Schema, w: World, p: nat, ms: seq<Migration>)
    requires Inv(env, start, w) && Truth(env, start, w) && PcOf(w, p) == Holding(ms)
    ensures Truth(env, start, Next(env, w, Advance(p)))
  {
    assert w.lock == Some(p);
    ProbesExactly(env, w.db, ms);
    if Rows(w) == [] { NothingRun(env, start, w); }
  }

  /** A step that commits nothing. */
  lemma QuietKeepsTruth(env: Env, start: Schema, w: World, w': World)
    requires Truth(env, start, w) && Rows(w') == Rows(w) && w'.executed == w.executed
    requires w'.lock.Some? ==> MeansTruly(env, start, w', PcOf(w', w'.lock.value))
    ensures Truth(env, start, w')
  {
  }

  lemma AdvanceKeepsTruth(env: Env, start: Schema, w: World, p: nat)
    requires Inv(env, start, w) && Truth(env, start, w) && Holds(PcOf(w, p))
    ensures Truth(env, start, Next(env, w, Advance(p)))
  {
    assert w.lock == Some(p);
    match PcOf(w, p)
    case Holding(ms) => ProbeKeepsTruth(env, start, w, p, ms);
    case Probed(ms, adopt) => QuietKeepsTruth(env, start, w, Next(env, w, Advance(p)));
    case Ready(ms, adopt) => QuietKeepsTruth(env, start, w, Next(env, w, Advance(p)));
    case Validated(ms, None, applied) => QuietKeepsTruth(env, start, w, Next(env, w, Advance(p)));
    case Validated(ms, Some(n), applied) => AdoptKeepsTruth(env, start, w, p, ms, n, applied);
    case Applying(ms, applied, i) =>
      if i < |ms| && ms[i].version !in applied {
        CommitKeepsTruth(env, start, w, p, ms, applied, i);
      } else {
        QuietKeepsTruth(env, start, w, Next(env, w, Advance(p)));
      }
  }

  lemma NextKeepsTruth(env: Env, start: Schema, w: World, s: Step)
    requires Inv(env, start, w) && Truth(env, start, w)
    ensures Truth(env, start, Next(env, w, s))
  {
    if Enabled(w, s) {
      match s
      case Advance(p) => AdvanceKeepsTruth(env, start, w, p);
      case _ => QuietKeepsTruth(env, start, w, Next(env, w, s));
    }
  }

  lemma {:induction false} RunKeepsTruth(env: Env, start: Schema, w: World, steps: seq<Step>)
    requires Inv(env, start, w) && Truth(env, start, w)
    ensures Inv(env, start, Run(env, w, steps)) && Truth(env, start, Run(env, w, steps))
    decreases steps
  {
    if steps != [] {
      NextKeepsInv(env, start, w, steps[0]);
      NextKeepsTruth(env, start, w, steps[0]);
      RunKeepsTruth(env, start, Next(env, w, steps[0]), steps[1..]);
    }
  }

  /**
   Over every interleaving and cut-off from an unmigrated database: every committed script ran on what
   the scripts before it left, a baseline on nothing, and left the fingerprint its migration declares;
   every executed row is the record of such a script; and adopted rows, if any, come first and are a
   manifest up to the last migration that declares the fingerprint of the schema found.
   */
  lemma HistoryIsAsDeclared(env: Env, db: Db, steps: seq<Step>)
    requires db.ledger.None?
    ensures var w := Run(env, Init(db), steps);
            AllAsDeclared(env, db.schema, w.executed) && RowsTrue(env, db.schema, w)
  {
    RunKeepsTruth(env, db.schema, Init(db), steps);
  }
}
