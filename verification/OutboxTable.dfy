/**
 The `notification_outbox` table and the SQL statements of `NotificationOutbox`. Every statement is
 one atomic function on the table; `now` is the database clock in milliseconds.
 */
module OutboxTable {
  import opened Common

  type Id = nat

  /** The dispatcher instance named in a lease. */
  datatype Owner = Owner(name: string)

  datatype Severity = Info | Warning | Critical
  datatype RowState = Pending | Delivered | DeadLetter
  datatype EscalationReason = DeadLettered | DeliveryOverdue
  datatype EnqueueResult = Queued | Merged | Suppressed | Refused

  datatype Event = Event(source: string, kind: string, severity: Severity, dedupKey: string, message: string)

  datatype Row = Row(
    severity: Severity,
    dedupKey: string,
    event: Event,
    state: RowState,
    occurrences: nat,
    attempts: nat,
    nextAttemptAt: int,
    leaseOwner: Option<Owner>,
    leaseExpiresAt: Option<int>,
    createdAt: int,
    lastSeenAt: int,
    deliveredAt: Option<int>,
    deadLetteredAt: Option<int>,
    escalationAttempts: nat,
    escalationNextAttemptAt: Option<int>,
    escalationReason: Option<EscalationReason>,
    escalatedAt: Option<int>)

  /** `nextId` is the BIGSERIAL sequence behind the primary key. */
  datatype Db = Db(rows: map<Id, Row>, nextId: Id)

  // ---------------------------------------------------------------- enqueue

  /** The column defaults of a freshly inserted row. */
  function NewRow(e: Event, now: int): Row {
    Row(e.severity, e.dedupKey, e, Pending, 1, 0, now, None, None, now, now, None, None, 0, None, None, None)
  }

  predicate DeliveredWithin(r: Row, key: string, cooldownMs: int, now: int) {
    r.dedupKey == key && r.state.Delivered? && r.deliveredAt.Some? && r.deliveredAt.value > now - Max(0, cooldownMs)
  }

  predicate PendingFor(r: Row, key: string) {
    r.dedupKey == key && r.state.Pending?
  }

  predicate InCooldown(rows: map<Id, Row>, key: string, cooldownMs: int, now: int) {
    exists id | id in rows :: DeliveredWithin(rows[id], key, cooldownMs, now)
  }

  predicate HasPending(rows: map<Id, Row>, key: string) {
    exists id | id in rows :: PendingFor(rows[id], key)
  }

  /** The conflict target of the partial unique index on `dedup_key`. */
  ghost function PendingId(rows: map<Id, Row>, key: string): (id: Id)
    requires HasPending(rows, key)
    ensures id in rows && PendingFor(rows[id], key)
  {
    var id :| id in rows && PendingFor(rows[id], key); id
  }

  /** A repeat is absorbed by the pending row: its payload is replaced, its severity column is not. */
  function Absorb(r: Row, e: Event, now: int): Row {
    r.(occurrences := r.occurrences + 1, lastSeenAt := now, event := e)
  }

  ghost function Enqueue(db: Db, e: Event, cooldownMs: int, now: int): (Db, EnqueueResult) {
    if e.dedupKey == "" then (db, Refused)
    else if InCooldown(db.rows, e.dedupKey, cooldownMs, now) then (db, Suppressed)
    else if HasPending(db.rows, e.dedupKey) then
      var id := PendingId(db.rows, e.dedupKey);
      (Db(db.rows[id := Absorb(db.rows[id], e, now)], db.nextId + 1), Merged)
    else (Db(db.rows[db.nextId := NewRow(e, now)], db.nextId + 1), Queued)
  }

  // ---------------------------------------------------------------- claimDue

  predicate LeaseLapsed(r: Row, now: int) {
    r.leaseExpiresAt.None? || r.leaseExpiresAt.value < now
  }

  predicate Claimable(r: Row, maxAttempts: nat, now: int) {
    r.state.Pending? && r.attempts < maxAttempts && r.nextAttemptAt <= now && LeaseLapsed(r, now)
  }

  /** Rows `claimDue` may take: due, not excluded by the caller, not locked by a concurrent statement. */
  function Due(rows: map<Id, Row>, maxAttempts: nat, skip: set<Id>, now: int): set<Id> {
    set id | id in rows && id !in skip && Claimable(rows[id], maxAttempts, now)
  }

  function Rank(s: Severity): nat {
    match s case Critical => 0 case Warning => 1 case Info => 2
  }

  /** ORDER BY severity rank, id. */
  predicate Before(rows: map<Id, Row>, a: Id, b: Id)
    requires a in rows && b in rows
  {
    Rank(rows[a].severity) < Rank(rows[b].severity) || (Rank(rows[a].severity) == Rank(rows[b].severity) && a < b)
  }

  predicate IsFirst(rows: map<Id, Row>, s: set<Id>, id: Id)
    requires s <= rows.Keys
  {
    id in s && forall j | j in s && j != id :: Before(rows, id, j)
  }

  lemma FirstExists(rows: map<Id, Row>, s: set<Id>)
    requires s <= rows.Keys && s != {}
    ensures exists id :: IsFirst(rows, s, id)
  {
    var x :| x in s;
    var rest := s - {x};
    if rest == {} {
      forall j | j in s ensures j == x { assert j == x || j in rest; }
      assert IsFirst(rows, s, x);
    } else {
      FirstExists(rows, rest);
      var y :| IsFirst(rows, rest, y);
      var m := if Before(rows, x, y) then x else y;
      forall j | j in s && j != m ensures Before(rows, m, j) { assert j == x || j in rest; }
      assert IsFirst(rows, s, m);
    }
  }

  ghost function First(rows: map<Id, Row>, s: set<Id>): (id: Id)
    requires s <= rows.Keys && s != {}
    ensures IsFirst(rows, s, id)
  {
    FirstExists(rows, s);
    var id :| IsFirst(rows, s, id); id
  }

  /** The ids a `LIMIT n` subquery returns, in order. */
  ghost function FirstN(rows: map<Id, Row>, s: set<Id>, n: nat): (ids: seq<Id>)
    requires s <= rows.Keys
    ensures forall id | id in ids :: id in s
    decreases n
  {
    if n == 0 || s == {} then []
    else var id := First(rows, s); [id] + FirstN(rows, s - {id}, n - 1)
  }

  function Lease(r: Row, owner: Owner, until: int): Row {
    r.(leaseOwner := Some(owner), leaseExpiresAt := Some(until), attempts := r.attempts + 1)
  }

  function LeaseAll(rows: map<Id, Row>, ids: seq<Id>, owner: Owner, until: int): map<Id, Row> {
    map id | id in rows :: if id in ids then Lease(rows[id], owner, until) else rows[id]
  }

  ghost function ClaimDue(db: Db, owner: Owner, leaseMs: int, limit: nat, maxAttempts: nat, skip: set<Id>, now: int)
    : (Db, seq<Id>)
  {
    var ids := FirstN(db.rows, Due(db.rows, maxAttempts, skip, now), limit);
    (db.(rows := LeaseAll(db.rows, ids, owner, now + leaseMs)), ids)
  }

  /**
   The claim is exact: no duplicates, as many rows as the limit allows, in order, and every due row
   that was left behind ranks after every row that was taken.
   */
  lemma {:induction false} FirstNExact(rows: map<Id, Row>, s: set<Id>, n: nat)
    requires s <= rows.Keys
    ensures var ids := FirstN(rows, s, n);
            && |ids| == Min(n, |s|)
            && (forall i, j | 0 <= i < j < |ids| :: Before(rows, ids[i], ids[j]))
            && (forall id, j | id in ids && j in s && j !in ids :: Before(rows, id, j))
    decreases n
  {
    if n != 0 && s != {} {
      var id := First(rows, s);
      FirstNExact(rows, s - {id}, n - 1);
    }
  }

  /** `claimDue` with `limit: 1`, the only limit the dispatcher uses. */
  ghost function ClaimOne(db: Db, owner: Owner, leaseMs: int, maxAttempts: nat, skip: set<Id>, now: int)
    : (r: (Db, Option<Id>))
    ensures r.1.Some? ==> r.1.value in db.rows && Claimable(db.rows[r.1.value], maxAttempts, now)
  {
    var s := Due(db.rows, maxAttempts, skip, now);
    if s == {} then (db, None)
    else var id := First(db.rows, s);
         (db.(rows := db.rows[id := Lease(db.rows[id], owner, now + leaseMs)]), Some(id))
  }

  lemma ClaimOneIsLimitOne(db: Db, owner: Owner, leaseMs: int, maxAttempts: nat, skip: set<Id>, now: int)
    ensures var one := ClaimOne(db, owner, leaseMs, maxAttempts, skip, now);
            ClaimDue(db, owner, leaseMs, 1, maxAttempts, skip, now)
            == (one.0, if one.1.Some? then [one.1.value] else [])
  {
    var s := Due(db.rows, maxAttempts, skip, now);
    if s == {} {
      assert LeaseAll(db.rows, [], owner, now + leaseMs) == db.rows;
    } else {
      var id := First(db.rows, s);
      assert FirstN(db.rows, s, 1) == [id] + FirstN(db.rows, s - {id}, 0) == [id];
      assert LeaseAll(db.rows, [id], owner, now + leaseMs) == db.rows[id := Lease(db.rows[id], owner, now + leaseMs)];
    }
  }

  // ---------------------------------------------------------------- settling an attempt

  predicate HeldBy(rows: map<Id, Row>, id: Id, owner: Owner) {
    id in rows && rows[id].leaseOwner == Some(owner) && rows[id].state.Pending?
  }

  function Deliver(r: Row, now: int): Row {
    r.(state := Delivered, deliveredAt := Some(now), leaseOwner := None, leaseExpiresAt := None)
  }

  function MarkDelivered(db: Db, id: Id, owner: Owner, now: int): (Db, bool) {
    if HeldBy(db.rows, id, owner) then (db.(rows := db.rows[id := Deliver(db.rows[id], now)]), true)
    else (db, false)
  }

  function Fail(r: Row, retryDelayMs: int, maxAttempts: nat, now: int): Row {
    r.(state := if r.attempts >= maxAttempts then DeadLetter else Pending,
       deadLetteredAt := if r.attempts >= maxAttempts then Some(now) else None,
       nextAttemptAt := now + retryDelayMs,
       leaseOwner := None,
       leaseExpiresAt := None)
  }

  function MarkFailed(db: Db, id: Id, owner: Owner, retryDelayMs: int, maxAttempts: nat, now: int)
    : (Db, Option<RowState>)
  {
    if HeldBy(db.rows, id, owner) then
      var r := Fail(db.rows[id], retryDelayMs, maxAttempts, now);
      (db.(rows := db.rows[id := r]), Some(r.state))
    else (db, None)
  }

  // ---------------------------------------------------------------- deadLetterExhausted

  predicate Exhausted(r: Row, maxAttempts: nat, now: int) {
    r.state.Pending? && r.attempts >= maxAttempts && LeaseLapsed(r, now)
  }

  function ExhaustedIds(rows: map<Id, Row>, maxAttempts: nat, now: int): set<Id> {
    set id | id in rows && Exhausted(rows[id], maxAttempts, now)
  }

  function Bury(r: Row, now: int): Row {
    r.(state := DeadLetter, deadLetteredAt := Some(now), leaseOwner := None, leaseExpiresAt := None)
  }

  function DeadLetterExhausted(db: Db, maxAttempts: nat, now: int): (Db, nat) {
    (db.(rows := map id | id in db.rows ::
             if Exhausted(db.rows[id], maxAttempts, now) then Bury(db.rows[id], now) else db.rows[id]),
     |ExhaustedIds(db.rows, maxAttempts, now)|)
  }

  // ---------------------------------------------------------------- escalation

  predicate NeedsDutyOwner(r: Row, escalateAfterMs: int, now: int) {
    && r.severity.Critical?
    && r.escalatedAt.None?
    && (r.state.DeadLetter? || (r.state.Pending? && r.createdAt <= now - escalateAfterMs))
  }

  predicate Escalatable(r: Row, escalateAfterMs: int, now: int) {
    && NeedsDutyOwner(r, escalateAfterMs, now)
    && (r.escalationNextAttemptAt.None? || r.escalationNextAttemptAt.value <= now)
  }

  function ToEscalate(rows: map<Id, Row>, escalateAfterMs: int, skip: set<Id>, now: int): set<Id> {
    set id | id in rows && id !in skip && Escalatable(rows[id], escalateAfterMs, now)
  }

  /** The first of ORDER BY id. */
  ghost function Least(s: set<Id>): (id: Id)
    requires s != {}
    ensures IsLeast(s, id)
  {
    LeastExists(s);
    var id :| IsLeast(s, id); id
  }

  predicate IsLeast(s: set<Id>, id: Id) { id in s && forall j | j in s :: id <= j }

  lemma LeastExists(s: set<Id>)
    requires s != {}
    ensures exists id :: IsLeast(s, id)
  {
    var x :| x in s;
    var rest := s - {x};
    if rest == {} {
      forall j | j in s ensures x <= j { assert j == x || j in rest; }
      assert IsLeast(s, x);
    } else {
      LeastExists(rest);
      var y :| IsLeast(rest, y);
      var m := if x < y then x else y;
      forall j | j in s ensures m <= j { assert j == x || j in rest; }
      assert IsLeast(s, m);
    }
  }

  function HoldEscalation(r: Row, leaseMs: int, now: int): Row {
    r.(escalationAttempts := r.escalationAttempts + 1, escalationNextAttemptAt := Some(now + leaseMs))
  }

  function ReasonOf(r: Row): EscalationReason {
    if r.state.DeadLetter? then DeadLettered else DeliveryOverdue
  }

  ghost function ClaimEscalation(db: Db, escalateAfterMs: int, leaseMs: int, skip: set<Id>, now: int)
    : (Db, Option<(Id, EscalationReason)>)
  {
    var s := ToEscalate(db.rows, escalateAfterMs, skip, now);
    if s == {} then (db, None)
    else
      var id := Least(s);
      (db.(rows := db.rows[id := HoldEscalation(db.rows[id], leaseMs, now)]), Some((id, ReasonOf(db.rows[id]))))
  }

  /** The ids ORDER BY id LIMIT n returns. */
  ghost function LeastN(s: set<Id>, n: nat): (ids: seq<Id>)
    ensures forall id | id in ids :: id in s
    decreases n
  {
    if n == 0 || s == {} then []
    else var id := Least(s); [id] + LeastN(s - {id}, n - 1)
  }

  /** Ascending, as many as the limit allows, and no row left out comes before one taken. */
  lemma {:induction false} LeastNExact(s: set<Id>, n: nat)
    ensures var ids := LeastN(s, n);
            && |ids| == Min(n, |s|)
            && (forall i, j | 0 <= i < j < |ids| :: ids[i] < ids[j])
            && (forall id, j | id in ids && j in s && j !in ids :: id < j)
    decreases n
  {
    if n != 0 && s != {} {
      var id := Least(s);
      var rest := LeastN(s - {id}, n - 1);
      LeastNExact(s - {id}, n - 1);
      forall j | 0 <= j < |rest| ensures id < rest[j] { assert rest[j] in rest; }
    }
  }

  function HoldAll(rows: map<Id, Row>, ids: seq<Id>, leaseMs: int, now: int): map<Id, Row> {
    map id | id in rows :: if id in ids then HoldEscalation(rows[id], leaseMs, now) else rows[id]
  }

  ghost function ClaimEscalations(db: Db, escalateAfterMs: int, leaseMs: int, limit: nat, skip: set<Id>, now: int)
    : (Db, seq<(Id, EscalationReason)>)
  {
    var ids := LeastN(ToEscalate(db.rows, escalateAfterMs, skip, now), limit);
    (db.(rows := HoldAll(db.rows, ids, leaseMs, now)), WithReasons(db.rows, ids))
  }

  /** Each row with the reason it is escalated for. */
  function WithReasons(rows: map<Id, Row>, ids: seq<Id>): (r: seq<(Id, EscalationReason)>)
    requires forall id | id in ids :: id in rows
  {
    seq(|ids|, i requires 0 <= i < |ids| => (ids[i], ReasonOf(rows[ids[i]])))
  }

  /** The dispatcher takes one escalation at a time. */
  lemma ClaimEscalationIsLimitOne(db: Db, escalateAfterMs: int, leaseMs: int, skip: set<Id>, now: int)
    ensures var one := ClaimEscalation(db, escalateAfterMs, leaseMs, skip, now);
            ClaimEscalations(db, escalateAfterMs, leaseMs, 1, skip, now)
            == (one.0, if one.1.Some? then [one.1.value] else [])
  {
    var s := ToEscalate(db.rows, escalateAfterMs, skip, now);
    if s == {} {
      assert HoldAll(db.rows, [], leaseMs, now) == db.rows && LeastN(s, 1) == [];
      assert WithReasons(db.rows, []) == [];
    } else {
      var id := Least(s);
      assert LeastN(s, 1) == [id] + LeastN(s - {id}, 0) == [id];
      assert HoldAll(db.rows, [id], leaseMs, now) == db.rows[id := HoldEscalation(db.rows[id], leaseMs, now)];
      assert WithReasons(db.rows, [id]) == [(id, ReasonOf(db.rows[id]))];
    }
  }

  function Escalated(r: Row, reason: EscalationReason, now: int): Row {
    r.(escalatedAt := Some(now), escalationReason := Some(reason))
  }

  function MarkEscalated(db: Db, id: Id, reason: EscalationReason, now: int): Db {
    if id in db.rows && db.rows[id].escalatedAt.None? then
      db.(rows := db.rows[id := Escalated(db.rows[id], reason, now)])
    else db
  }

  function Postponed(r: Row, retryDelayMs: int, now: int): Row {
    r.(escalationNextAttemptAt := Some(now + retryDelayMs))
  }

  function MarkEscalationFailed(db: Db, id: Id, retryDelayMs: int, now: int): Db {
    if id in db.rows && db.rows[id].escalatedAt.None? then
      db.(rows := db.rows[id := Postponed(db.rows[id], retryDelayMs, now)])
    else db
  }

  // ---------------------------------------------------------------- stats

  function PendingIds(rows: map<Id, Row>): set<Id> { set id | id in rows && rows[id].state.Pending? }

  function DeadLetterIds(rows: map<Id, Row>): set<Id> { set id | id in rows && rows[id].state.DeadLetter? }

  /** The `awaiting_escalation` filter of `stats`. */
  function AwaitingEscalation(rows: map<Id, Row>, escalateAfterMs: int, now: int): set<Id> {
    set id | id in rows && !rows[id].state.Delivered? && rows[id].severity.Critical? && rows[id].escalatedAt.None?
             && (rows[id].state.DeadLetter? || rows[id].createdAt <= now - escalateAfterMs)
  }
}
