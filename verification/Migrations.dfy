/**
 Versioned schema migrations: the manifest loader, the check of a ledger against a manifest, and the
 steps a runner takes under the advisory lock, any of which may be its last.
 */
module Migrations {
  import opened Common
  import opened Text

  // ---------------------------------------------------------------- versions

  datatype Version = Version(text: string)

  /** The order of strings: the one of the loader and of the ledger's ORDER BY. */
  predicate Less(a: Version, b: Version) { Text.Less(a.text, b.text) }

  lemma LessTransitive(a: Version, b: Version, c: Version)
    requires Less(a, b) && Less(b, c)
    ensures Less(a, c)
  {
    LessIsTransitive(a.text, b.text, c.text);
  }

  lemma LessIsStrict(a: Version, b: Version)
    requires Less(a, b)
    ensures a != b && !Less(b, a)
  {
    LessIsTotal(a.text, b.text);
  }

  // ---------------------------------------------------------------- manifest

  datatype Entry = Entry(
    version: Version, name: string, file: string, checksum: string, schemaChecksum: Option<string>, baseline: bool,
    adopt: bool)

  datatype Migration = Migration(
    version: Version, name: string, checksum: string, schemaChecksum: Option<string>, sql: string, baseline: bool,
    adopt: bool)

  predicate NameChar(c: char) { 'a' <= c <= 'z' || '0' <= c <= '9' || c == '_' || c == '-' }

  predicate IsName(s: string) { s != [] && s[0] != '_' && s[0] != '-' && forall i | 0 <= i < |s| :: NameChar(s[i]) }

  predicate IsChecksum(s: string) {
    |s| == 64 && forall i | 0 <= i < 64 :: '0' <= s[i] <= '9' || 'a' <= s[i] <= 'f'
  }

  predicate IsVersion(s: string) { 12 <= |s| <= 14 && AllDigits(s) }

  predicate WellFormed(e: Entry) {
    && IsVersion(e.version.text) && IsName(e.name) && IsChecksum(e.checksum)
    && (e.schemaChecksum.Some? ==> IsChecksum(e.schemaChecksum.value))
  }

  /** The file named by an entry exists and has the declared checksum. */
  predicate Intact(e: Entry, files: map<string, string>, hash: string -> string) {
    e.file in files && hash(files[e.file]) == e.checksum
  }

  predicate FirstOnly(e: Entry, i: int) {
    && (e.baseline ==> i == 0)
    && (e.adopt ==> e.baseline && i == 0 && e.schemaChecksum.Some?)
  }

  ghost predicate ValidManifest(es: seq<Entry>, files: map<string, string>, hash: string -> string) {
    && es != []
    && (forall i | 0 <= i < |es| :: Acceptable(es[i], i, files, hash))
    && Ordered(es, |es|)
  }

  ghost predicate Ordered(es: seq<Entry>, n: nat)
    requires n <= |es|
  {
    forall i, j | 0 <= i < j < n :: Less(es[i].version, es[j].version)
  }

  function LoadedFrom(e: Entry, files: map<string, string>): Migration {
    var sql := if e.file in files then files[e.file] else "";
    Migration(e.version, e.name, e.checksum, e.schemaChecksum, sql, e.baseline, e.adopt)
  }

  /**
   Accepts exactly the valid manifests, comparing each version with the one before it only, and loads
   every entry in order.
   */
  method LoadMigrationManifest(es: seq<Entry>, files: map<string, string>, hash: string -> string)
    returns (r: Result<seq<Migration>>)
    ensures r.Success? <==> ValidManifest(es, files, hash)
    ensures r.Success? ==> |r.value| == |es| && forall i | 0 <= i < |es| :: r.value[i] == LoadedFrom(es[i], files)
    ensures r.Success? ==> ManifestOk(r.value)
  {
    if es == [] { return Failure("Migration manifest must contain at least one migration"); }
    var seen: seq<Version>, previous: Version, ms: seq<Migration> := [], Version(""), [];
    for i := 0 to |es|
      invariant previous == (if i == 0 then Version("") else es[i - 1].version)
      invariant |seen| == |ms| == i
      invariant forall j | 0 <= j < i :: seen[j] == es[j].version && ms[j] == LoadedFrom(es[j], files)
      invariant forall j | 0 <= j < i :: Acceptable(es[j], j, files, hash)
      invariant Ordered(es, i)
    {
      var e := es[i];
      if e.version in seen || !Less(previous, e.version) {
        VersionOutOfOrder(es, i, previous, seen);
        return Failure("Migration versions must be unique and strictly increasing");
      }
      if !Acceptable(e, i, files, hash) { return Failure("Migration entry is malformed or altered"); }
      OrderedNext(es, i);
      seen, previous, ms := seen + [e.version], e.version, ms + [LoadedFrom(e, files)];
    }
    LoadedManifestOk(es, files, hash, ms);
    r := Success(ms);
  }

  predicate Acceptable(e: Entry, i: int, files: map<string, string>, hash: string -> string) {
    WellFormed(e) && FirstOnly(e, i) && Intact(e, files, hash)
  }

  lemma VersionOutOfOrder(es: seq<Entry>, i: nat, previous: Version, seen: seq<Version>)
    requires i < |es| && previous == if i == 0 then Version("") else es[i - 1].version
    requires |seen| == i && forall j | 0 <= j < i :: seen[j] == es[j].version
    requires es[i].version in seen || !Less(previous, es[i].version)
    ensures !Ordered(es, |es|) || !WellFormed(es[i])
  {
    if es[i].version in seen {
      var j :| 0 <= j < i && seen[j] == es[i].version;
      if Less(es[j].version, es[i].version) { LessIsStrict(es[j].version, es[i].version); }
    }
  }

  lemma OrderedNext(es: seq<Entry>, i: nat)
    requires i < |es| && (i > 0 ==> Less(es[i - 1].version, es[i].version)) && Ordered(es, i)
    ensures Ordered(es, i + 1)
  {
    forall j | 0 <= j < i ensures Less(es[j].version, es[i].version) {
      if j < i - 1 { LessTransitive(es[j].version, es[i - 1].version, es[i].version); }
    }
  }

  ghost predicate Increasing(ms: seq<Migration>) {
    forall i, j | 0 <= i < j < |ms| :: Less(ms[i].version, ms[j].version)
  }

  /** What the loader guarantees of the migrations it returns. */
  ghost predicate ManifestOk(ms: seq<Migration>) {
    && ms != [] && Increasing(ms)
    && forall i | 0 <= i < |ms| ::
         (ms[i].baseline ==> i == 0) && (ms[i].adopt ==> ms[i].baseline && i == 0 && ms[i].schemaChecksum.Some?)
  }

  lemma LoadedManifestOk(es: seq<Entry>, files: map<string, string>, hash: string -> string, ms: seq<Migration>)
    requires ValidManifest(es, files, hash)
    requires |ms| == |es| && forall i | 0 <= i < |es| :: ms[i] == LoadedFrom(es[i], files)
    ensures ManifestOk(ms)
  {
    forall i | 0 <= i < |es| ensures FirstOnly(es[i], i) {
      assert Acceptable(es[i], i, files, hash);
    }
  }

  lemma DistinctVersions(ms: seq<Migration>, i: nat, j: nat)
    requires Increasing(ms) && i < |ms| && j < |ms| && ms[i].version == ms[j].version
    ensures i == j
  {
    if i < j {
      LessIsStrict(ms[i].version, ms[j].version);
    } else if j < i {
      LessIsStrict(ms[j].version, ms[i].version);
    }
  }

  // ---------------------------------------------------------------- ledger

  datatype Mode = Executed | Adopted

  datatype Row = Row(version: Version, name: string, checksum: string, schemaChecksum: Option<string>, mode: Mode)

  function RowOf(m: Migration, mode: Mode): Row { Row(m.version, m.name, m.checksum, m.schemaChecksum, mode) }

  predicate Matches(r: Row, m: Migration) {
    && r.version == m.version && r.name == m.name && r.checksum == m.checksum
    && (m.schemaChecksum.Some? ==> r.schemaChecksum == m.schemaChecksum)
  }

  /** The ledger, read in version order, is the beginning of the manifest. */
  predicate IsPrefix(rows: seq<Row>, ms: seq<Migration>) {
    |rows| <= |ms| && forall i | 0 <= i < |rows| :: Matches(rows[i], ms[i])
  }

  /** The migrations of a manifest by version. */
  method IndexByVersion(ms: seq<Migration>) returns (index: map<Version, Migration>)
    requires Increasing(ms)
    ensures forall v | v in index :: exists j :: 0 <= j < |ms| && ms[j].version == v
    ensures forall j | 0 <= j < |ms| :: ms[j].version in index && index[ms[j].version] == ms[j]
  {
    index := map[];
    for i := 0 to |ms|
      invariant forall v | v in index :: exists j :: 0 <= j < i && ms[j].version == v
      invariant forall j | 0 <= j < i :: ms[j].version in index && index[ms[j].version] == ms[j]
    {
      forall j | 0 <= j < i ensures ms[j].version != ms[i].version {
        LessIsStrict(ms[j].version, ms[i].version);
      }
      index := index[ms[i].version := ms[i]];
    }
  }

  /** Every applied row is declared with the same name and checksums. */
  method AllDeclared(ms: seq<Migration>, rows: seq<Row>) returns (ok: bool)
    requires Increasing(ms)
    ensures ok <==> forall i | 0 <= i < |rows| :: Declared(rows[i], ms)
  {
    var byVersion := IndexByVersion(ms);
    for i := 0 to |rows|
      invariant forall j | 0 <= j < i :: Declared(rows[j], ms)
    {
      if rows[i].version !in byVersion { return false; }
      var declared := byVersion[rows[i].version];
      if !Matches(rows[i], declared) { return false; }
      var k :| 0 <= k < |ms| && ms[k].version == rows[i].version;
      assert Matches(rows[i], ms[k]);
    }
    return true;
  }

  predicate Declared(r: Row, ms: seq<Migration>) { exists k :: 0 <= k < |ms| && Matches(r, ms[k]) }

  predicate InOrder(rows: seq<Row>, ms: seq<Migration>) {
    |rows| <= |ms| && forall i | 0 <= i < |rows| :: rows[i].version == ms[i].version
  }

  /** Declared rows in manifest order are a prefix, and a prefix is that. */
  lemma PrefixIsDeclaredInOrder(rows: seq<Row>, ms: seq<Migration>)
    requires Increasing(ms)
    ensures IsPrefix(rows, ms) <==> (forall i | 0 <= i < |rows| :: Declared(rows[i], ms)) && InOrder(rows, ms)
  {
    if (forall i | 0 <= i < |rows| :: Declared(rows[i], ms)) && InOrder(rows, ms) {
      forall i | 0 <= i < |rows| ensures Matches(rows[i], ms[i]) {
        assert Declared(rows[i], ms);
        var k :| 0 <= k < |ms| && Matches(rows[i], ms[k]);
        DistinctVersions(ms, i, k);
      }
    }
  }

  /** Accepts exactly the matching prefixes, and the whole manifest when all is required. */
  method ValidateAppliedMigrations(ms: seq<Migration>, rows: seq<Row>, requireAll: bool) returns (ok: bool)
    requires Increasing(ms)
    ensures ok <==> IsPrefix(rows, ms) && (requireAll ==> |rows| == |ms|)
  {
    PrefixIsDeclaredInOrder(rows, ms);
    var declared := AllDeclared(ms, rows);
    if !declared { return false; }
    for i := 0 to |rows|
      invariant i <= |ms|
      invariant forall j | 0 <= j < i :: rows[j].version == ms[j].version
    {
      if i >= |ms| || rows[i].version != ms[i].version { return false; }
    }
    return !requireAll || |rows| == |ms|;
  }

  /** A row goes to its place in version order. */
  function Insert(rows: seq<Row>, r: Row): seq<Row> {
    if rows == [] || Less(rows[|rows| - 1].version, r.version) then rows + [r]
    else Insert(rows[..|rows| - 1], r) + [rows[|rows| - 1]]
  }

  predicate InLedger(rows: seq<Row>, v: Version) { exists i :: 0 <= i < |rows| && rows[i].version == v }

  // ---------------------------------------------------------------- the runner

  datatype Schema = Schema(objects: set<string>)

  /** What running SQL does to a schema, when it succeeds, and the fingerprint of a schema. */
  datatype Env = Env(exec: (Schema, string) -> Option<Schema>, fingerprint: Schema -> string)

  datatype Db = Db(ledger: Option<seq<Row>>, schema: Schema)

  datatype Pc =
    | Idle
    | Holding(ms: seq<Migration>)
    | Probed(ms: seq<Migration>, adopt: Option<nat>)
    | Ready(ms: seq<Migration>, adopt: Option<nat>)
    | Validated(ms: seq<Migration>, adopt: Option<nat>, applied: set<Version>)
    | Applying(ms: seq<Migration>, applied: set<Version>, next: nat)
    | Done(ms: seq<Migration>)
    | Refused

  /** `executed` is the history of committed migration scripts; it is not stored anywhere. */
  datatype World = World(db: Db, lock: Option<nat>, pcs: map<nat, Pc>, executed: seq<Migration>)

  datatype Step =
    | Acquire(p: nat, ms: seq<Migration>)
    | Advance(p: nat)
    | Crash(p: nat)

  function PcOf(w: World, p: nat): Pc { if p in w.pcs then w.pcs[p] else Idle }

  predicate Holds(pc: Pc) { !pc.Idle? && !pc.Done? && !pc.Refused? }

  /** The last migration whose declared fingerprint is the observed one. */
  function LastWithFingerprint(ms: seq<Migration>, f: string): Option<nat> {
    if ms == [] then None
    else if ms[|ms| - 1].schemaChecksum == Some(f) then Some(|ms| - 1)
    else LastWithFingerprint(ms[..|ms| - 1], f)
  }

  function To(w: World, p: nat, pc: Pc): World {
    w.(pcs := w.pcs[p := pc], lock := if Holds(pc) then w.lock else None)
  }

  /** Which migrations an existing schema already is; none at all when the session refuses at once. */
  function Probing(env: Env, db: Db, ms: seq<Migration>): Option<Option<nat>>
    requires ms != []
  {
    if db.ledger.Some? || !ms[0].baseline || db.schema.objects == {} then Some(None)
    else if !ms[0].adopt then None
    else
      match LastWithFingerprint(ms, env.fingerprint(db.schema))
      case None => None
      case Some(n) => Some(Some(n))
  }

  function Probe(env: Env, w: World, p: nat, ms: seq<Migration>): World
    requires ms != []
  {
    match Probing(env, w.db, ms)
    case None => To(w, p, Refused)
    case Some(adopt) => To(w, p, Probed(ms, adopt))
  }

  function Created(db: Db): Db { db.(ledger := Some(db.ledger.GetOr([]))) }

  function CreateLedger(w: World, p: nat, ms: seq<Migration>, adopt: Option<nat>): World {
    To(w, p, Ready(ms, adopt)).(db := Created(w.db))
  }

  function VersionsIn(rows: seq<Row>): set<Version> { set i | 0 <= i < |rows| :: rows[i].version }

  function VersionsOf(ms: seq<Migration>, k: nat): set<Version>
    requires k <= |ms|
  {
    set i | 0 <= i < k :: ms[i].version
  }

  function Validate(w: World, p: nat, ms: seq<Migration>, adopt: Option<nat>): World {
    var rows := w.db.ledger.GetOr([]);
    if IsPrefix(rows, ms) then To(w, p, Validated(ms, adopt, VersionsIn(rows)))
    else To(w, p, Refused)
  }

  function AdoptedRows(ms: seq<Migration>): seq<Row> {
    if ms == [] then [] else AdoptedRows(ms[..|ms| - 1]) + [RowOf(ms[|ms| - 1], Adopted)]
  }

  /** One transaction: an adopted row for every migration up to the fingerprint that matched. */
  function Adopt(w: World, p: nat, ms: seq<Migration>, adopt: Option<nat>, applied: set<Version>): World {
    if adopt.None? then To(w, p, Applying(ms, applied, 0))
    else if w.db.ledger != Some([]) || adopt.value >= |ms| then To(w, p, Refused)
    else
      var taken := ms[..adopt.value + 1];
      To(w, p, Applying(ms, applied + VersionsOf(ms, adopt.value + 1), 0))
      .(db := w.db.(ledger := Some(AdoptedRows(taken))))
  }

  /** One transaction: the script, the fingerprint check and the ledger row commit together or not at all. */
  function Applied(env: Env, db: Db, m: Migration): Option<Db> {
    var rows := db.ledger.GetOr([]);
    if m.baseline && db.schema.objects != {} then None
    else
      match env.exec(db.schema, m.sql)
      case None => None
      case Some(s) =>
        if m.schemaChecksum.Some? && env.fingerprint(s) != m.schemaChecksum.value then None
        else if InLedger(rows, m.version) then None
        else Some(Db(Some(Insert(rows, RowOf(m, Executed))), s))
  }

  function ApplyOne(env: Env, w: World, p: nat, ms: seq<Migration>, applied: set<Version>, i: nat): World
    requires i < |ms|
  {
    if ms[i].version in applied then To(w, p, Applying(ms, applied, i + 1))
    else
      match Applied(env, w.db, ms[i])
      case None => To(w, p, Refused)
      case Some(d) => To(w, p, Applying(ms, applied, i + 1)).(db := d, executed := w.executed + [ms[i]])
  }

  predicate Current(env: Env, db: Db, ms: seq<Migration>)
    requires ms != []
  {
    var last := ms[|ms| - 1].schemaChecksum;
    last.Some? ==> env.fingerprint(db.schema) == last.value
  }

  function Finish(env: Env, w: World, p: nat, ms: seq<Migration>): World
    requires ms != []
  {
    if Current(env, w.db, ms) then To(w, p, Done(ms)) else To(w, p, Refused)
  }

  function Move(env: Env, w: World, p: nat): World {
    match PcOf(w, p)
    case Holding(ms) => if ms == [] then w else Probe(env, w, p, ms)
    case Probed(ms, adopt) => CreateLedger(w, p, ms, adopt)
    case Ready(ms, adopt) => Validate(w, p, ms, adopt)
    case Validated(ms, adopt, applied) => Adopt(w, p, ms, adopt, applied)
    case Applying(ms, applied, i) =>
      if i < |ms| then ApplyOne(env, w, p, ms, applied, i) else if ms == [] then w else Finish(env, w, p, ms)
    case _ => w
  }

  ghost predicate Enabled(w: World, s: Step) {
    match s
    case Acquire(p, ms) => w.lock.None? && !Holds(PcOf(w, p)) && ManifestOk(ms)
    case Advance(p) => Holds(PcOf(w, p))
    case Crash(p) => Holds(PcOf(w, p))
  }

  /** A crash ends the session: its lock is released and an open transaction is gone. */
  ghost function Next(env: Env, w: World, s: Step): World {
    if !Enabled(w, s) then w
    else
      match s
      case Acquire(p, ms) => w.(lock := Some(p), pcs := w.pcs[p := Holding(ms)])
      case Advance(p) => Move(env, w, p)
      case Crash(p) => To(w, p, Idle)
  }

  ghost function Run(env: Env, w: World, steps: seq<Step>): World
    decreases steps
  {
    if steps == [] then w else Run(env, Next(env, w, steps[0]), steps[1..])
  }
}
