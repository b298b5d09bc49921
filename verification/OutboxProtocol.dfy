/**
 Any number of dispatchers sharing one outbox. A world is the table, the database clock, what every
 dispatcher is doing, and a record of what the webhook saw. A step is one SQL statement, one webhook
 call, one crash or the passing of time; a step that is not enabled leaves the world as it is, so a
 run is any sequence of steps in any interleaving.
 */
module OutboxProtocol {
  import opened Common
  import opened OutboxTable

  datatype Config = Config(
    maxAttempts: nat,
    leaseMs: nat,
    escalateAfterMs: nat,
    cooldownMs: int,
    retryBaseMs: nat,
    retryMaxMs: nat)

  /**
   `Claimed`: the row is leased and its webhook call is not finished. `Tried`: the call returned
   (`ok`) or threw, and the outcome is not yet recorded. `until` is the lease granted by the claim.
   */
  datatype Proc =
    | Idle
    | Claimed(id: Id, attempt: nat, until: int)
    | Tried(id: Id, attempt: nat, until: int, ok: bool)
    | Escalating(id: Id, reason: EscalationReason)

  /** `sent` counts webhook calls per row, `accepted` the successful ones. */
  datatype World = World(db: Db, now: nat, procs: map<Owner, Proc>, sent: map<Id, nat>, accepted: map<Id, nat>)

  datatype Step =
    | EnqueueStep(e: Event)
    | SweepStep
    | ClaimStep(o: Owner, skip: set<Id>)
    | DeliverStep(o: Owner, ok: bool)
    | SettleStep(o: Owner)
    | ClaimEscalationStep(o: Owner, skip: set<Id>)
    | FinishEscalationStep(o: Owner, ok: bool)
    | CrashStep(o: Owner)
    | TickStep(dt: nat)

  function ProcOf(w: World, o: Owner): Proc { if o in w.procs then w.procs[o] else Idle }

  function Count(m: map<Id, nat>, id: Id): nat { if id in m then m[id] else 0 }

  function Bump(m: map<Id, nat>, id: Id): map<Id, nat> { m[id := Count(m, id) + 1] }

  /** `baseMs * 2 ** n`. */
  function Doubled(baseMs: nat, n: nat): nat { if n == 0 then baseMs else 2 * Doubled(baseMs, n - 1) }

  /** `outboxRetryDelayMs`. */
  function RetryDelay(attempt: nat, baseMs: nat, maxMs: nat): nat {
    Min(Doubled(baseMs, Min(30, Max(0, attempt - 1))), maxMs)
  }

  ghost function Raise(c: Config, w: World, e: Event): World {
    w.(db := Enqueue(w.db, e, c.cooldownMs, w.now).0)
  }

  function Sweep(c: Config, w: World): World {
    w.(db := DeadLetterExhausted(w.db, c.maxAttempts, w.now).0)
  }

  ghost function Claim(c: Config, w: World, o: Owner, skip: set<Id>): World {
    var r := ClaimOne(w.db, o, c.leaseMs, c.maxAttempts, skip, w.now);
    if !ProcOf(w, o).Idle? || r.1.None? then w
    else w.(db := r.0,
            procs := w.procs[o := Claimed(r.1.value, w.db.rows[r.1.value].attempts + 1, w.now + c.leaseMs)])
  }

  function Send(w: World, o: Owner, ok: bool): World {
    match ProcOf(w, o)
    case Claimed(id, attempt, until) =>
      w.(procs := w.procs[o := Tried(id, attempt, until, ok)],
         sent := Bump(w.sent, id),
         accepted := if ok then Bump(w.accepted, id) else w.accepted)
    case _ => w
  }

  function Settle(c: Config, w: World, o: Owner): World {
    match ProcOf(w, o)
    case Tried(id, attempt, until, ok) =>
      w.(procs := w.procs[o := Idle],
         db := if ok then MarkDelivered(w.db, id, o, w.now).0
               else MarkFailed(w.db, id, o, RetryDelay(attempt, c.retryBaseMs, c.retryMaxMs), c.maxAttempts, w.now).0)
    case _ => w
  }

  ghost function TakeEscalation(c: Config, w: World, o: Owner, skip: set<Id>): World {
    var r := ClaimEscalation(w.db, c.escalateAfterMs, c.leaseMs, skip, w.now);
    if !ProcOf(w, o).Idle? || r.1.None? then w
    else w.(db := r.0, procs := w.procs[o := Escalating(r.1.value.0, r.1.value.1)])
  }

  function FinishEscalation(c: Config, w: World, o: Owner, ok: bool): World {
    match ProcOf(w, o)
    case Escalating(id, reason) =>
      w.(procs := w.procs[o := Idle],
         db := if ok then MarkEscalated(w.db, id, reason, w.now)
               else MarkEscalationFailed(w.db, id, RetryDelay(1, c.retryBaseMs, c.retryMaxMs), w.now))
    case _ => w
  }

  ghost function Next(c: Config, w: World, s: Step): World {
    match s
    case EnqueueStep(e) => Raise(c, w, e)
    case SweepStep => Sweep(c, w)
    case ClaimStep(o, skip) => Claim(c, w, o, skip)
    case DeliverStep(o, ok) => Send(w, o, ok)
    case SettleStep(o) => Settle(c, w, o)
    case ClaimEscalationStep(o, skip) => TakeEscalation(c, w, o, skip)
    case FinishEscalationStep(o, ok) => FinishEscalation(c, w, o, ok)
    case CrashStep(o) => w.(procs := w.procs[o := Idle])
    case TickStep(dt) => w.(now := w.now + dt)
  }

  ghost function Run(c: Config, w: World, steps: seq<Step>): World
    decreases steps
  {
    if steps == [] then w else Run(c, Next(c, w, steps[0]), steps[1..])
  }

  predicate Init(w: World) {
    w.db.rows == map[] && w.procs == map[] && w.sent == map[] && w.accepted == map[]
  }

  lemma {:induction false} RunConcat(c: Config, w: World, a: seq<Step>, b: seq<Step>)
    ensures Run(c, w, a + b) == Run(c, Run(c, w, a), b)
    decreases a
  {
    if a == [] {
      assert a + b == b;
    } else {
      assert (a + b)[1..] == a[1..] + b;
      RunConcat(c, Next(c, w, a[0]), a[1..], b);
    }
  }

  // ---------------------------------------------------------------- the invariant

  /** Column shapes: what the CHECK constraints of the table demand, plus the lease pair and the attempt budget. */
  predicate RowOk(c: Config, r: Row, now: nat) {
    && (r.state.Delivered? <==> r.deliveredAt.Some?)
    && (r.state.DeadLetter? <==> r.deadLetteredAt.Some?)
    && (r.leaseOwner.Some? <==> r.leaseExpiresAt.Some?)
    && (!r.state.Pending? ==> r.leaseOwner.None?)
    && (r.escalatedAt.Some? <==> r.escalationReason.Some?)
    && r.attempts <= c.maxAttempts
    && (r.state.DeadLetter? ==> r.attempts == c.maxAttempts)
    && r.createdAt <= now
    && (r.deliveredAt.Some? ==> r.createdAt <= r.deliveredAt.value <= now)
    && r.dedupKey != ""
  }

  ghost predicate TableOk(c: Config, w: World) {
    forall id | id in w.db.rows :: id < w.db.nextId && RowOk(c, w.db.rows[id], w.now)
  }

  ghost predicate OnePendingPerKey(rows: map<Id, Row>) {
    forall i, j | i in rows && j in rows && rows[i].state.Pending? && rows[j].state.Pending?
                  && rows[i].dedupKey == rows[j].dedupKey :: i == j
  }

  /** Pages for one incident are at least a cooldown apart, and a later row starts only after the earlier settled. */
  ghost predicate CooldownApart(c: Config, rows: map<Id, Row>) {
    forall i, j | i in rows && j in rows && i < j && rows[i].dedupKey == rows[j].dedupKey ::
      && !rows[i].state.Pending?
      && (rows[i].deliveredAt.Some? ==> rows[i].deliveredAt.value + Max(0, c.cooldownMs) <= rows[j].createdAt)
  }

  /** Dispatchers holding a claim on `id` whose webhook call is still to be counted. */
  ghost function Holding(w: World, id: Id): set<Owner> {
    set o | o in w.procs && w.procs[o].Claimed? && w.procs[o].id == id
  }

  /** Every webhook call was paid for by an attempt taken at claim time. */
  ghost predicate Budgeted(w: World) {
    && w.sent.Keys <= w.db.rows.Keys
    && forall id | id in w.db.rows :: Count(w.sent, id) + |Holding(w, id)| <= w.db.rows[id].attempts
  }

  /** Dispatchers refer to existing rows, and a dispatcher still named in the lease holds the latest claim. */
  ghost predicate ProcsOk(w: World) {
    forall o | o in w.procs && (w.procs[o].Claimed? || w.procs[o].Tried?) ::
      && w.procs[o].id in w.db.rows
      && (HeldBy(w.db.rows, w.procs[o].id, o) ==>
            && w.db.rows[w.procs[o].id].leaseExpiresAt == Some(w.procs[o].until)
            && w.db.rows[w.procs[o].id].attempts == w.procs[o].attempt)
  }

  /** A confirmation is never invented: DELIVERED, or a dispatcher about to record it, means the webhook accepted. */
  ghost predicate Witnessed(w: World) {
    && (forall id | id in w.db.rows && w.db.rows[id].state.Delivered? :: Count(w.accepted, id) >= 1)
    && (forall o | o in w.procs && w.procs[o].Tried? && w.procs[o].ok :: Count(w.accepted, w.procs[o].id) >= 1)
    && (forall id :: Count(w.accepted, id) <= Count(w.sent, id))
  }

  ghost predicate Inv(c: Config, w: World) {
    && TableOk(c, w)
    && OnePendingPerKey(w.db.rows)
    && CooldownApart(c, w.db.rows)
    && Budgeted(w)
    && ProcsOk(w)
    && Witnessed(w)
    && OnlyCriticalEscalates(w)
  }

  // ---------------------------------------------------------------- how one row may change

  /** What no step may do to a row: lose or re-key it, reopen it, or rewrite settled or escalated evidence. */
  predicate Evolves(r: Row, r': Row) {
    && r'.dedupKey == r.dedupKey && r'.severity == r.severity && r'.createdAt == r.createdAt
    && r.attempts <= r'.attempts
    && (r'.state.Pending? ==> r.state.Pending?)
    && (!r.state.Pending? ==>
          && r'.state == r.state && r'.event == r.event && r'.attempts == r.attempts
          && r'.deliveredAt == r.deliveredAt && r'.deadLetteredAt == r.deadLetteredAt)
    && (r.escalatedAt.Some? ==> r'.escalatedAt == r.escalatedAt && r'.escalationReason == r.escalationReason)
  }

  /** Every row of `rows` is still there and has evolved. */
  ghost predicate Retained(rows: map<Id, Row>, rows': map<Id, Row>) {
    forall id | id in rows :: id in rows' && Evolves(rows[id], rows'[id])
  }

  ghost predicate RowsOk(c: Config, rows: map<Id, Row>, now: nat) {
    forall id | id in rows :: RowOk(c, rows[id], now)
  }

  /** No row gains a lease: what is leased after the step was leased before, to the same owner, for the same attempt. */
  ghost predicate LeasesKept(rows: map<Id, Row>, rows': map<Id, Row>) {
    forall id | id in rows' && rows'[id].leaseOwner.Some? :: id in rows && SameLease(rows[id], rows'[id])
  }

  predicate SameLease(r: Row, r': Row) {
    && r'.leaseOwner == r.leaseOwner && r'.leaseExpiresAt == r.leaseExpiresAt
    && r'.attempts == r.attempts && r'.state == r.state
  }

  /** No row becomes DELIVERED. */
  ghost predicate DeliveriesKept(rows: map<Id, Row>, rows': map<Id, Row>) {
    forall id | id in rows' && rows'[id].state.Delivered? :: id in rows && rows[id].state.Delivered?
  }

  /** A row change that grants no lease, as every statement but a claim makes. */
  predicate Quiet(c: Config, r: Row, r': Row, now: nat) {
    RowOk(c, r', now) && Evolves(r, r') && (r'.leaseOwner.None? || SameLease(r, r'))
  }

  ghost predicate QuietRows(c: Config, rows: map<Id, Row>, rows': map<Id, Row>, now: nat) {
    rows'.Keys == rows.Keys && forall id | id in rows :: Quiet(c, rows[id], rows'[id], now)
  }

  lemma QuietMeans(c: Config, rows: map<Id, Row>, rows': map<Id, Row>, now: nat)
    requires QuietRows(c, rows, rows', now)
    ensures RowsOk(c, rows', now) && Retained(rows, rows') && LeasesKept(rows, rows')
  {
  }

  lemma QuietReplace(c: Config, rows: map<Id, Row>, id: Id, r: Row, now: nat)
    requires RowsOk(c, rows, now) && id in rows && Quiet(c, rows[id], r, now)
    ensures QuietRows(c, rows, rows[id := r], now)
  {
  }

  lemma SweepQuiet(c: Config, w: World)
    requires RowsOk(c, w.db.rows, w.now)
    ensures QuietRows(c, w.db.rows, Sweep(c, w).db.rows, w.now)
  {
  }

  lemma SettleQuiet(c: Config, w: World, o: Owner)
    requires RowsOk(c, w.db.rows, w.now)
    ensures QuietRows(c, w.db.rows, Settle(c, w, o).db.rows, w.now)
  {
    match ProcOf(w, o)
    case Tried(id, attempt, until, ok) =>
      if HeldBy(w.db.rows, id, o) {
        var d := RetryDelay(attempt, c.retryBaseMs, c.retryMaxMs);
        var r := w.db.rows[id];
        QuietReplace(c, w.db.rows, id, if ok then Deliver(r, w.now) else Fail(r, d, c.maxAttempts, w.now), w.now);
      }
    case _ =>
  }

  lemma TakeEscalationQuiet(c: Config, w: World, o: Owner, skip: set<Id>)
    requires RowsOk(c, w.db.rows, w.now)
    ensures QuietRows(c, w.db.rows, TakeEscalation(c, w, o, skip).db.rows, w.now)
  {
    var s := ToEscalate(w.db.rows, c.escalateAfterMs, skip, w.now);
    if s != {} {
      var id := Least(s);
      QuietReplace(c, w.db.rows, id, HoldEscalation(w.db.rows[id], c.leaseMs, w.now), w.now);
    }
  }

  lemma FinishEscalationQuiet(c: Config, w: World, o: Owner, ok: bool)
    requires RowsOk(c, w.db.rows, w.now)
    ensures QuietRows(c, w.db.rows, FinishEscalation(c, w, o, ok).db.rows, w.now)
  {
    match ProcOf(w, o)
    case Escalating(id, reason) =>
      if id in w.db.rows && w.db.rows[id].escalatedAt.None? {
        var r := w.db.rows[id];
        var d := RetryDelay(1, c.retryBaseMs, c.retryMaxMs);
        QuietReplace(c, w.db.rows, id, if ok then Escalated(r, reason, w.now) else Postponed(r, d, w.now), w.now);
      }
    case _ =>
  }

  lemma AbsorbQuiet(c: Config, w: World, e: Event)
    requires RowsOk(c, w.db.rows, w.now)
    ensures var rows := Raise(c, w, e).db.rows;
            || QuietRows(c, w.db.rows, rows, w.now)
            || (rows == w.db.rows[w.db.nextId := NewRow(e, w.now)] && e.dedupKey != ""
                && Raise(c, w, e).db.nextId == w.db.nextId + 1
                && !HasPending(w.db.rows, e.dedupKey) && !InCooldown(w.db.rows, e.dedupKey, c.cooldownMs, w.now))
    ensures w.db.nextId <= Raise(c, w, e).db.nextId
  {
    var rows := w.db.rows;
    if e.dedupKey != "" && !InCooldown(rows, e.dedupKey, c.cooldownMs, w.now) {
      if HasPending(rows, e.dedupKey) {
        var id := PendingId(rows, e.dedupKey);
        QuietReplace(c, rows, id, Absorb(rows[id], e, w.now), w.now);
      }
    }
  }

  /** Every step but a claim and an insertion is quiet. */
  lemma QuietStep(c: Config, w: World, s: Step)
    requires RowsOk(c, w.db.rows, w.now) && !s.ClaimStep? && !s.EnqueueStep?
    ensures QuietRows(c, w.db.rows, Next(c, w, s).db.rows, w.now)
    ensures Next(c, w, s).db.nextId == w.db.nextId
  {
    match s
    case SweepStep => SweepQuiet(c, w);
    case SettleStep(o) => SettleQuiet(c, w, o);
    case ClaimEscalationStep(o, skip) => TakeEscalationQuiet(c, w, o, skip);
    case FinishEscalationStep(o, ok) => FinishEscalationQuiet(c, w, o, ok);
    case _ =>
  }

  lemma ClaimRows(c: Config, w: World, o: Owner, skip: set<Id>)
    requires RowsOk(c, w.db.rows, w.now)
    ensures var w' := Claim(c, w, o, skip);
            && RowsOk(c, w'.db.rows, w.now) && Retained(w.db.rows, w'.db.rows) && w'.db.rows.Keys == w.db.rows.Keys
            && w'.db.nextId == w.db.nextId
  {
    var r := ClaimOne(w.db, o, c.leaseMs, c.maxAttempts, skip, w.now);
    if r.1.Some? {
      LeasedRow(c, w.db.rows, r.1.value, o, w.now);
    }
  }

  lemma LeasedRow(c: Config, rows: map<Id, Row>, id: Id, o: Owner, now: nat)
    requires RowsOk(c, rows, now) && id in rows && Claimable(rows[id], c.maxAttempts, now)
    ensures var rows' := rows[id := Lease(rows[id], o, now + c.leaseMs)];
            RowsOk(c, rows', now) && Retained(rows, rows') && rows'.Keys == rows.Keys
  {
    var row := Lease(rows[id], o, now + c.leaseMs);
    assert RowOk(c, rows[id], now);
    assert RowOk(c, row, now) && Evolves(rows[id], row);
  }

  lemma NextRows(c: Config, w: World, s: Step)
    requires TableOk(c, w)
    ensures TableOk(c, Next(c, w, s)) && Retained(w.db.rows, Next(c, w, s).db.rows)
    ensures w.now <= Next(c, w, s).now
    ensures !s.EnqueueStep? ==> Next(c, w, s).db.rows.Keys == w.db.rows.Keys
    ensures !s.ClaimStep? ==> LeasesKept(w.db.rows, Next(c, w, s).db.rows)
  {
    var w' := Next(c, w, s);
    assert RowsOk(c, w.db.rows, w.now);
    if s.ClaimStep? {
      ClaimRows(c, w, s.o, s.skip);
    } else {
      if s.EnqueueStep? { AbsorbQuiet(c, w, s.e); } else { QuietStep(c, w, s); }
      if QuietRows(c, w.db.rows, w'.db.rows, w.now) {
        QuietMeans(c, w.db.rows, w'.db.rows, w.now);
      } else {
        assert RowOk(c, NewRow(s.e, w.now), w.now);
      }
    }
  }

  lemma RetainedKeys(c: Config, rows: map<Id, Row>, rows': map<Id, Row>)
    requires Retained(rows, rows') && rows'.Keys == rows.Keys
    requires OnePendingPerKey(rows) && CooldownApart(c, rows)
    ensures OnePendingPerKey(rows') && CooldownApart(c, rows')
  {
  }

  lemma RaiseKeys(c: Config, w: World, e: Event)
    requires TableOk(c, w) && OnePendingPerKey(w.db.rows) && CooldownApart(c, w.db.rows)
    ensures OnePendingPerKey(Raise(c, w, e).db.rows) && CooldownApart(c, Raise(c, w, e).db.rows)
  {
    var rows, rows' := w.db.rows, Raise(c, w, e).db.rows;
    assert RowsOk(c, rows, w.now);
    AbsorbQuiet(c, w, e);
    if QuietRows(c, rows, rows', w.now) {
      QuietMeans(c, rows, rows', w.now);
      RetainedKeys(c, rows, rows');
    } else {
      forall i | i in rows && rows[i].dedupKey == e.dedupKey
        ensures !rows[i].state.Pending? && !DeliveredWithin(rows[i], e.dedupKey, c.cooldownMs, w.now)
      {
        assert !PendingFor(rows[i], e.dedupKey);
      }
    }
  }

  lemma NextKeepsKeys(c: Config, w: World, s: Step)
    requires TableOk(c, w) && OnePendingPerKey(w.db.rows) && CooldownApart(c, w.db.rows)
    ensures OnePendingPerKey(Next(c, w, s).db.rows) && CooldownApart(c, Next(c, w, s).db.rows)
  {
    if s.EnqueueStep? {
      RaiseKeys(c, w, s.e);
    } else {
      NextRows(c, w, s);
      RetainedKeys(c, w.db.rows, Next(c, w, s).db.rows);
    }
  }

  // ---------------------------------------------------------------- attempts, fences, confirmations

  predicate InFlight(p: Proc) { p.Claimed? || p.Tried? }

  /** Nobody new is in flight and the webhook heard nothing new. */
  ghost predicate FlightsKept(w: World, w': World) {
    && w'.sent == w.sent && w'.accepted == w.accepted
    && forall o | o in w'.procs && InFlight(w'.procs[o]) :: o in w.procs && w.procs[o] == w'.procs[o]
  }

  lemma FlightsOnlyFromClaims(c: Config, w: World, s: Step)
    requires !s.ClaimStep? && !s.DeliverStep?
    ensures FlightsKept(w, Next(c, w, s))
  {
  }

  lemma BudgetFrame(w: World, w': World)
    requires Budgeted(w) && ProcsOk(w) && Retained(w.db.rows, w'.db.rows) && FlightsKept(w, w')
    ensures Budgeted(w')
  {
    forall id | id in w'.db.rows ensures Count(w'.sent, id) + |Holding(w', id)| <= w'.db.rows[id].attempts {
      SubsetSize(Holding(w', id), Holding(w, id));
      if id !in w.db.rows { assert Holding(w, id) == {}; }
    }
  }

  lemma TakenKeepsBudget(w: World, w': World, o: Owner, id: Id, attempt: nat, until: int)
    requires Budgeted(w) && ProcOf(w, o).Idle? && id in w.db.rows && id in w'.db.rows
    requires w'.sent == w.sent && w'.procs == w.procs[o := Claimed(id, attempt, until)]
    requires w'.db.rows == w.db.rows[id := w'.db.rows[id]] && w'.db.rows[id].attempts == w.db.rows[id].attempts + 1
    ensures Budgeted(w')
  {
    forall i | i in w'.db.rows ensures Count(w'.sent, i) + |Holding(w', i)| <= w'.db.rows[i].attempts {
      TakenHolding(w, w', o, id, attempt, until, i);
      assert Count(w.sent, i) + |Holding(w, i)| <= w.db.rows[i].attempts;
    }
  }

  lemma TakenHolding(w: World, w': World, o: Owner, id: Id, attempt: nat, until: int, i: Id)
    requires ProcOf(w, o).Idle? && w'.procs == w.procs[o := Claimed(id, attempt, until)]
    ensures |Holding(w', i)| <= |Holding(w, i)| + if i == id then 1 else 0
  {
    if i == id {
      assert Holding(w', i) == Holding(w, i) + {o};
    } else {
      assert Holding(w', i) == Holding(w, i);
    }
  }

  lemma ClaimKeepsBudget(c: Config, w: World, o: Owner, skip: set<Id>)
    requires Budgeted(w)
    ensures Budgeted(Claim(c, w, o, skip))
  {
    var w' := Claim(c, w, o, skip);
    if w' != w {
      var p := w'.procs[o];
      TakenKeepsBudget(w, w', o, p.id, p.attempt, p.until);
    }
  }

  lemma SendKeepsBudget(w: World, o: Owner, ok: bool)
    requires Budgeted(w) && ProcsOk(w)
    ensures Budgeted(Send(w, o, ok))
  {
    var w' := Send(w, o, ok);
    if ProcOf(w, o).Claimed? {
      forall id | id in w'.db.rows ensures Count(w'.sent, id) + |Holding(w', id)| <= w'.db.rows[id].attempts {
        assert Holding(w', id) == Holding(w, id) - {o};
        if w.procs[o].id == id { assert o in Holding(w, id); }
      }
    }
  }

  lemma NextKeepsBudget(c: Config, w: World, s: Step)
    requires TableOk(c, w) && Budgeted(w) && ProcsOk(w)
    ensures Budgeted(Next(c, w, s))
  {
    if s.ClaimStep? {
      ClaimKeepsBudget(c, w, s.o, s.skip);
    } else if s.DeliverStep? {
      SendKeepsBudget(w, s.o, s.ok);
    } else {
      NextRows(c, w, s);
      FlightsOnlyFromClaims(c, w, s);
      BudgetFrame(w, Next(c, w, s));
    }
  }

  lemma ProcsFrame(w: World, w': World)
    requires ProcsOk(w) && Retained(w.db.rows, w'.db.rows) && LeasesKept(w.db.rows, w'.db.rows) && FlightsKept(w, w')
    ensures ProcsOk(w')
  {
  }

  lemma ClaimKeepsProcs(c: Config, w: World, o: Owner, skip: set<Id>)
    requires ProcsOk(w)
    ensures ProcsOk(Claim(c, w, o, skip))
  {
  }

  lemma NextKeepsProcs(c: Config, w: World, s: Step)
    requires TableOk(c, w) && ProcsOk(w)
    ensures ProcsOk(Next(c, w, s))
  {
    if s.ClaimStep? {
      ClaimKeepsProcs(c, w, s.o, s.skip);
    } else if !s.DeliverStep? {
      NextRows(c, w, s);
      FlightsOnlyFromClaims(c, w, s);
      ProcsFrame(w, Next(c, w, s));
    }
  }

  lemma WitnessFrame(w: World, w': World)
    requires Witnessed(w) && DeliveriesKept(w.db.rows, w'.db.rows) && FlightsKept(w, w')
    ensures Witnessed(w')
  {
  }

  lemma SettleKeepsWitnesses(c: Config, w: World, o: Owner)
    requires Witnessed(w)
    ensures Witnessed(Settle(c, w, o))
  {
  }

  lemma SendKeepsWitnesses(w: World, o: Owner, ok: bool)
    requires Witnessed(w)
    ensures Witnessed(Send(w, o, ok))
  {
  }

  lemma ClaimKeepsWitnesses(c: Config, w: World, o: Owner, skip: set<Id>)
    requires Witnessed(w)
    ensures Witnessed(Claim(c, w, o, skip))
  {
  }

  lemma NextKeepsWitnesses(c: Config, w: World, s: Step)
    requires Witnessed(w)
    ensures Witnessed(Next(c, w, s))
  {
    match s
    case SettleStep(o) => SettleKeepsWitnesses(c, w, o);
    case DeliverStep(o, ok) => SendKeepsWitnesses(w, o, ok);
    case ClaimStep(o, skip) => ClaimKeepsWitnesses(c, w, o, skip);
    case _ =>
      DeliveriesOnlyFromSettling(c, w, s);
      FlightsOnlyFromClaims(c, w, s);
      WitnessFrame(w, Next(c, w, s));
  }

  lemma DeliveriesOnlyFromSettling(c: Config, w: World, s: Step)
    requires !s.SettleStep?
    ensures DeliveriesKept(w.db.rows, Next(c, w, s).db.rows)
  {
  }

  // ---------------------------------------------------------------- only critical rows page the duty owner

  ghost predicate OnlyCriticalEscalates(w: World) {
    && (forall id | id in w.db.rows && w.db.rows[id].escalatedAt.Some? :: w.db.rows[id].severity.Critical?)
    && (forall o | o in w.procs && w.procs[o].Escalating? ::
          w.procs[o].id in w.db.rows && w.db.rows[w.procs[o].id].severity.Critical?)
  }

  /** No row is newly escalated and nobody newly works on an escalation. */
  ghost predicate EscalationsKept(w: World, w': World) {
    && (forall id | id in w'.db.rows && w'.db.rows[id].escalatedAt.Some? ::
          id in w.db.rows && w.db.rows[id].escalatedAt.Some?)
    && (forall o | o in w'.procs && w'.procs[o].Escalating? :: o in w.procs && w.procs[o] == w'.procs[o])
  }

  lemma EscalationsOnlyFromEscalating(c: Config, w: World, s: Step)
    requires !s.ClaimEscalationStep? && !s.FinishEscalationStep?
    ensures EscalationsKept(w, Next(c, w, s))
  {
  }

  lemma EscalationFrame(w: World, w': World)
    requires OnlyCriticalEscalates(w) && Retained(w.db.rows, w'.db.rows) && EscalationsKept(w, w')
    ensures OnlyCriticalEscalates(w')
  {
  }

  lemma NextKeepsEscalations(c: Config, w: World, s: Step)
    requires TableOk(c, w) && OnlyCriticalEscalates(w)
    ensures OnlyCriticalEscalates(Next(c, w, s))
  {
    if !s.ClaimEscalationStep? && !s.FinishEscalationStep? {
      NextRows(c, w, s);
      EscalationsOnlyFromEscalating(c, w, s);
      EscalationFrame(w, Next(c, w, s));
    }
  }

  lemma NextKeepsInv(c: Config, w: World, s: Step)
    requires Inv(c, w)
    ensures Inv(c, Next(c, w, s))
  {
    NextRows(c, w, s);
    NextKeepsKeys(c, w, s);
    NextKeepsBudget(c, w, s);
    NextKeepsProcs(c, w, s);
    NextKeepsWitnesses(c, w, s);
    NextKeepsEscalations(c, w, s);
  }

  lemma {:induction false} RunKeepsInv(c: Config, w: World, steps: seq<Step>)
    requires Inv(c, w)
    ensures Inv(c, Run(c, w, steps))
    decreases steps
  {
    if steps != [] {
      NextKeepsInv(c, w, steps[0]);
      RunKeepsInv(c, Next(c, w, steps[0]), steps[1..]);
    }
  }

  lemma InitInv(c: Config, w: World)
    requires Init(w)
    ensures Inv(c, w)
  {
  }
}
