/**
 The outbox and its dispatcher as objects. `NotificationOutbox` holds the table and updates it in
 place; `Deployment` adds the clock and the other dispatchers attached to the same database;
 `NotificationDispatcher.Drain` is one pass. Each is proved to take protocol steps and nothing else,
 so everything proved about runs holds of every pass, whatever the other dispatchers do meanwhile.
 */
module OutboxDispatcher {
  import opened Common
  import opened OutboxTable
  import opened OutboxProtocol
  import T = OutboxTable

  lemma FirstIsUnique(rows: map<Id, Row>, s: set<Id>, a: Id)
    requires s <= rows.Keys && IsFirst(rows, s, a)
    ensures a == First(rows, s)
  {
    assert IsFirst(rows, s, First(rows, s));
  }

  /** Only the named row changed. */
  ghost predicate OnlyRow(was: Db, now': Db, id: Id) {
    && id in was.rows && now'.nextId == was.nextId && now'.rows.Keys == was.rows.Keys
    && forall j | j in was.rows && j != id :: now'.rows[j] == was.rows[j]
  }

  /** Waiting with no attempt left, and nobody's. */
  predicate Spent(r: Row, maxAttempts: nat, now: int) {
    r.state == Pending && maxAttempts <= r.attempts && (r.leaseExpiresAt.Some? ==> r.leaseExpiresAt.value < now)
  }

  /** A critical row nobody was paged for: dead-lettered, or overdue. */
  predicate Unpaged(r: Row, escalateAfterMs: int, now: int) {
    && r.severity == Critical && r.escalatedAt == None
    && (r.state == DeadLetter || (r.state == Pending && r.createdAt + escalateAfterMs <= now))
    && (r.escalationNextAttemptAt.Some? ==> r.escalationNextAttemptAt.value <= now)
  }

  /** No dispatcher is named in the row's lease. */
  ghost predicate Released(db: Db, id: Id) { forall o :: !HeldBy(db.rows, id, o) }

  datatype ClaimedNotification = ClaimedNotification(id: Id, event: Event, attempts: nat)

  class NotificationOutbox {
    var db: Db

    constructor ()
      ensures db == Db(map[], 0)
    {
      db := Db(map[], 0);
    }

    method Enqueue(e: Event, cooldownMs: int, now: int) returns (r: EnqueueResult)
      requires OnePendingPerKey(db.rows)
      modifies this
      ensures (db, r) == T.Enqueue(old(db), e, cooldownMs, now)
    {
      if e.dedupKey == "" { return Refused; }
      if InCooldown(db.rows, e.dedupKey, cooldownMs, now) { return Suppressed; }
      if HasPending(db.rows, e.dedupKey) {
        var id :| id in db.rows && PendingFor(db.rows[id], e.dedupKey);
        assert id == PendingId(db.rows, e.dedupKey);
        db := Db(db.rows[id := Absorb(db.rows[id], e, now)], db.nextId + 1);
        return Merged;
      }
      db := Db(db.rows[db.nextId := NewRow(e, now)], db.nextId + 1);
      return Queued;
    }

    /** Takes up to `limit` due rows, best first, and leases them all at once. */
    method ClaimDue(owner: Owner, leaseMs: int, limit: nat, maxAttempts: nat, skip: set<Id>, now: int)
      returns (claimed: seq<Id>)
      modifies this
      ensures (db, claimed) == T.ClaimDue(old(db), owner, leaseMs, limit, maxAttempts, skip, now)
    {
      var remaining := Due(db.rows, maxAttempts, skip, now);
      ghost var due := remaining;
      claimed := [];
      while |claimed| < limit && remaining != {}
        invariant remaining <= db.rows.Keys && |claimed| <= limit && db == old(db)
        invariant claimed + FirstN(db.rows, remaining, limit - |claimed|) == FirstN(db.rows, due, limit)
        decreases limit - |claimed|
      {
        FirstExists(db.rows, remaining);
        var id :| id in remaining && IsFirst(db.rows, remaining, id);
        FirstIsUnique(db.rows, remaining, id);
        assert claimed + FirstN(db.rows, remaining, limit - |claimed|)
            == (claimed + [id]) + FirstN(db.rows, remaining - {id}, limit - |claimed| - 1);
        claimed := claimed + [id];
        remaining := remaining - {id};
      }
      assert FirstN(db.rows, remaining, limit - |claimed|) == [];
      assert claimed == FirstN(db.rows, due, limit);
      db := db.(rows := LeaseAll(db.rows, claimed, owner, now + leaseMs));
    }

    /** Fenced by the lease: a held row is released and delivered for good, so a second record finds nothing to do. */
    method MarkDelivered(id: Id, owner: Owner, now: int) returns (ok: bool)
      modifies this
      ensures (db, ok) == T.MarkDelivered(old(db), id, owner, now)
      ensures ok <==> HeldBy(old(db).rows, id, owner)
      ensures !ok ==> db == old(db)
      ensures ok ==> OnlyRow(old(db), db, id) && db.rows[id].state.Delivered? && Released(db, id)
      ensures ok ==> db.rows[id] == old(db).rows[id].(state := Delivered, deliveredAt := Some(now), leaseOwner := None,
                                                      leaseExpiresAt := None)
      ensures ok ==> forall m: nat, t :: !Claimable(db.rows[id], m, t) && !Exhausted(db.rows[id], m, t)
    {
      ok := HeldBy(db.rows, id, owner);
      if ok { db := db.(rows := db.rows[id := T.Deliver(db.rows[id], now)]); }
    }

    /** Fenced likewise: a held row is released, and due again exactly from the end of its backoff while attempts remain. */
    method MarkFailed(id: Id, owner: Owner, retryDelayMs: int, maxAttempts: nat, now: int)
      returns (state: Option<RowState>)
      modifies this
      ensures (db, state) == T.MarkFailed(old(db), id, owner, retryDelayMs, maxAttempts, now)
      ensures state.Some? <==> HeldBy(old(db).rows, id, owner)
      ensures state.None? ==> db == old(db)
      ensures state.Some? ==> && OnlyRow(old(db), db, id) && Released(db, id) && db.rows[id].state == state.value
                              && db.rows[id].attempts == old(db).rows[id].attempts
                              && (state.value.DeadLetter? <==> db.rows[id].attempts >= maxAttempts)
      ensures state.Some? ==> db.rows[id] == old(db).rows[id].(
                state := state.value, deadLetteredAt := if state.value.DeadLetter? then Some(now) else None,
                nextAttemptAt := now + retryDelayMs, leaseOwner := None, leaseExpiresAt := None)
      ensures state.Some? ==> forall t :: Claimable(db.rows[id], maxAttempts, t)
                                     <==> old(db).rows[id].attempts < maxAttempts && now + retryDelayMs <= t
    {
      state := None;
      if HeldBy(db.rows, id, owner) {
        var r := Fail(db.rows[id], retryDelayMs, maxAttempts, now);
        db := db.(rows := db.rows[id := r]);
        state := Some(r.state);
      }
    }

    method DeadLetterExhausted(maxAttempts: nat, now: int) returns (n: nat)
      modifies this
      ensures (db, n) == T.DeadLetterExhausted(old(db), maxAttempts, now)
      ensures db.nextId == old(db).nextId && db.rows.Keys == old(db).rows.Keys
      ensures forall id | id in db.rows :: db.rows[id] == if Spent(old(db).rows[id], maxAttempts, now)
                then old(db).rows[id].(state := DeadLetter, deadLetteredAt := Some(now), leaseOwner := None,
                                       leaseExpiresAt := None)
                else old(db).rows[id]
    {
      var todo := ExhaustedIds(db.rows, maxAttempts, now);
      n := 0;
      ghost var all := todo;
      while todo != {}
        invariant todo <= all && n + |todo| == |all| && db.nextId == old(db).nextId
        invariant db.rows == map id | id in old(db).rows ::
                               if id in all - todo then Bury(old(db).rows[id], now) else old(db).rows[id]
        decreases |todo|
      {
        var id :| id in todo;
        db := db.(rows := db.rows[id := Bury(db.rows[id], now)]);
        todo := todo - {id};
        n := n + 1;
      }
      assert db.rows == T.DeadLetterExhausted(old(db), maxAttempts, now).0.rows;
    }

    /** ORDER BY id LIMIT. */
    method LowestIds(waiting: set<Id>, limit: nat) returns (ids: seq<Id>)
      ensures ids == LeastN(waiting, limit)
    {
      var remaining := waiting;
      ids := [];
      while |ids| < limit && remaining != {}
        invariant |ids| <= limit && ids + LeastN(remaining, limit - |ids|) == LeastN(waiting, limit)
        decreases limit - |ids|
      {
        LeastExists(remaining);
        var id :| id in remaining && IsLeast(remaining, id);
        assert id == Least(remaining);
        assert ids + LeastN(remaining, limit - |ids|) == (ids + [id]) + LeastN(remaining - {id}, limit - |ids| - 1);
        ids := ids + [id];
        remaining := remaining - {id};
      }
      assert LeastN(remaining, limit - |ids|) == [];
    }

    /** Takes up to `limit` rows that need the duty owner, lowest id first, and pushes their next attempt out. */
    method ClaimEscalations(escalateAfterMs: int, leaseMs: int, limit: nat, skip: set<Id>, now: int)
      returns (claimed: seq<(Id, EscalationReason)>)
      modifies this
      ensures (db, claimed) == T.ClaimEscalations(old(db), escalateAfterMs, leaseMs, limit, skip, now)
      ensures forall i | 0 <= i < |claimed| ::
                var id := claimed[i].0;
                && id in old(db).rows && id in db.rows && id !in skip && Unpaged(old(db).rows[id], escalateAfterMs, now)
                && claimed[i].1 == (if old(db).rows[id].state == DeadLetter then DeadLettered else DeliveryOverdue)
                && db.rows[id] == old(db).rows[id].(escalationAttempts := old(db).rows[id].escalationAttempts + 1,
                                                    escalationNextAttemptAt := Some(now + leaseMs))
    {
      var ids := LowestIds(ToEscalate(db.rows, escalateAfterMs, skip, now), limit);
      claimed := WithReasons(db.rows, ids);
      forall i | 0 <= i < |claimed| ensures claimed[i] == (ids[i], ReasonOf(db.rows[ids[i]])) && ids[i] in ids {}
      db := db.(rows := HoldAll(db.rows, ids, leaseMs, now));
    }

    method ClaimEscalation(escalateAfterMs: int, leaseMs: int, skip: set<Id>, now: int)
      returns (claimed: Option<(Id, EscalationReason)>)
      modifies this
      ensures (db, claimed) == T.ClaimEscalation(old(db), escalateAfterMs, leaseMs, skip, now)
    {
      var waiting := ToEscalate(db.rows, escalateAfterMs, skip, now);
      if waiting == {} { return None; }
      LeastExists(waiting);
      var id :| id in waiting && IsLeast(waiting, id);
      assert id == Least(waiting);
      claimed := Some((id, ReasonOf(db.rows[id])));
      db := db.(rows := db.rows[id := HoldEscalation(db.rows[id], leaseMs, now)]);
    }

    /** Escalation is recorded once, ends escalation of the row for good, and leaves its delivery alone. */
    method MarkEscalated(id: Id, reason: EscalationReason, now: int)
      modifies this
      ensures db == T.MarkEscalated(old(db), id, reason, now)
      ensures db == old(db) || OnlyRow(old(db), db, id)
      ensures id in db.rows ==> forall after, t :: !Escalatable(db.rows[id], after, t)
      ensures forall j, m: nat, t | j in db.rows :: Claimable(db.rows[j], m, t) == Claimable(old(db).rows[j], m, t)
      ensures id in old(db).rows && old(db).rows[id].escalatedAt.Some? ==> db == old(db)
      ensures id in old(db).rows && old(db).rows[id].escalatedAt.None? ==>
                db.rows[id] == old(db).rows[id].(escalatedAt := Some(now), escalationReason := Some(reason))
    {
      if id in db.rows && db.rows[id].escalatedAt.None? {
        db := db.(rows := db.rows[id := Escalated(db.rows[id], reason, now)]);
      }
    }

    /** The row is to be escalated again exactly from the end of the delay, if it still needs the duty owner then. */
    method MarkEscalationFailed(id: Id, retryDelayMs: int, now: int)
      modifies this
      ensures db == T.MarkEscalationFailed(old(db), id, retryDelayMs, now)
      ensures db == old(db) || OnlyRow(old(db), db, id)
      ensures id in db.rows ==> forall after, t ::
                Escalatable(db.rows[id], after, t) <==> NeedsDutyOwner(old(db).rows[id], after, t) && now + retryDelayMs <= t
      ensures id in old(db).rows && old(db).rows[id].escalatedAt.None? ==>
                db.rows[id] == old(db).rows[id].(escalationNextAttemptAt := Some(now + retryDelayMs))
      ensures forall j, m: nat, t | j in db.rows :: Claimable(db.rows[j], m, t) == Claimable(old(db).rows[j], m, t)
    {
      if id in db.rows && db.rows[id].escalatedAt.None? {
        db := db.(rows := db.rows[id := Postponed(db.rows[id], retryDelayMs, now)]);
      }
    }

    /**
     Backlog counts, and the age of the oldest pending row; the escalation backlog is exactly what
     `claimEscalations` may still have to take.
     */
    method Stats(escalateAfterMs: int, now: int)
      returns (pending: nat, oldest: Option<int>, deadLetters: nat, awaiting: nat)
      ensures pending == |PendingIds(db.rows)| && deadLetters == |DeadLetterIds(db.rows)|
      ensures oldest.None? <==> PendingIds(db.rows) == {}
      ensures oldest.Some? ==> && (exists id | id in PendingIds(db.rows) :: now - db.rows[id].createdAt == oldest.value)
                               && forall id | id in PendingIds(db.rows) :: now - db.rows[id].createdAt <= oldest.value
      ensures awaiting == |set id | id in db.rows && NeedsDutyOwner(db.rows[id], escalateAfterMs, now)|
      ensures awaiting == 0 ==> forall skip :: ToEscalate(db.rows, escalateAfterMs, skip, now) == {}
    {
      pending, deadLetters := |PendingIds(db.rows)|, |DeadLetterIds(db.rows)|;
      oldest := OldestPendingAge(now);
      awaiting := |AwaitingEscalation(db.rows, escalateAfterMs, now)|;
      assert AwaitingEscalation(db.rows, escalateAfterMs, now)
          == set id | id in db.rows && NeedsDutyOwner(db.rows[id], escalateAfterMs, now);
    }

    method OldestPendingAge(now: int) returns (oldest: Option<int>)
      ensures oldest.None? <==> PendingIds(db.rows) == {}
      ensures oldest.Some? ==> && (exists id | id in PendingIds(db.rows) :: now - db.rows[id].createdAt == oldest.value)
                               && forall id | id in PendingIds(db.rows) :: now - db.rows[id].createdAt <= oldest.value
    {
      oldest := None;
      var left := PendingIds(db.rows);
      while left != {}
        invariant left <= PendingIds(db.rows)
        invariant oldest.None? <==> left == PendingIds(db.rows)
        invariant oldest.Some? ==> exists id | id in PendingIds(db.rows) :: now - db.rows[id].createdAt == oldest.value
        invariant forall id | id in PendingIds(db.rows) - left :: oldest.Some? && now - db.rows[id].createdAt <= oldest.value
        decreases |left|
      {
        var id :| id in left;
        var age := now - db.rows[id].createdAt;
        oldest := if oldest.None? || oldest.value < age then Some(age) else oldest;
        left := left - {id};
      }
    }
  }

  // ---------------------------------------------------------------- one database, many dispatchers

  /** Steps that do not act as dispatcher `o`. */
  predicate OthersOnly(steps: seq<Step>, o: Owner) {
    forall s | s in steps :: Actor(s) != Some(o)
  }

  function Actor(s: Step): Option<Owner> {
    match s
    case ClaimStep(p, _) => Some(p)
    case DeliverStep(p, _) => Some(p)
    case SettleStep(p) => Some(p)
    case ClaimEscalationStep(p, _) => Some(p)
    case FinishEscalationStep(p, _) => Some(p)
    case CrashStep(p) => Some(p)
    case _ => None
  }

  lemma OtherKeepsProc(c: Config, w: World, s: Step, o: Owner)
    requires Actor(s) != Some(o)
    ensures ProcOf(Next(c, w, s), o) == ProcOf(w, o)
  {
  }

  lemma {:induction false} OthersKeepProc(c: Config, w: World, steps: seq<Step>, o: Owner)
    requires OthersOnly(steps, o)
    ensures ProcOf(Run(c, w, steps), o) == ProcOf(w, o)
    decreases steps
  {
    if steps != [] {
      OtherKeepsProc(c, w, steps[0], o);
      OthersKeepProc(c, Next(c, w, steps[0]), steps[1..], o);
    }
  }

  /** How a recorded send left its row: as nobody's any more, or in the given state. */
  datatype Ending = LeaseLost | Became(state: RowState)

  /** What a dispatcher does: takes a row, calls the webhook, records an outcome, takes a page, finishes one. */
  datatype Deed =
    | Took(id: Id)
    | Sent(id: Id, ok: bool)
    | Settled(id: Id, ok: bool, ending: Ending)
    | TookPage(id: Id)
    | Paged(id: Id, ok: bool)

  /** What the step is for dispatcher `o`, read off the table before and after it. */
  ghost function DeedOf(c: Config, w: World, s: Step, o: Owner): seq<Deed> {
    var p, p', rows := ProcOf(w, o), ProcOf(Next(c, w, s), o), Next(c, w, s).db.rows;
    if Actor(s) != Some(o) then []
    else if s.ClaimStep? && p.Idle? && p'.Claimed? then [Took(p'.id)]
    else if s.ClaimEscalationStep? && p.Idle? && p'.Escalating? then [TookPage(p'.id)]
    else if s.DeliverStep? && p.Claimed? then [Sent(p.id, s.ok)]
    else if s.SettleStep? && p.Tried? then
      [Settled(p.id, p.ok, if HeldBy(w.db.rows, p.id, o) && p.id in rows then Became(rows[p.id].state) else LeaseLost)]
    else if s.FinishEscalationStep? && p.Escalating? then [Paged(p.id, s.ok)]
    else []
  }

  /** The deeds of dispatcher `o` along a run, in order. */
  ghost function DeedsBy(c: Config, w: World, steps: seq<Step>, o: Owner): seq<Deed>
    decreases steps
  {
    if steps == [] then [] else DeedOf(c, w, steps[0], o) + DeedsBy(c, Next(c, w, steps[0]), steps[1..], o)
  }

  lemma {:induction false} DeedsConcat(c: Config, w: World, a: seq<Step>, b: seq<Step>, o: Owner)
    ensures DeedsBy(c, w, a + b, o) == DeedsBy(c, w, a, o) + DeedsBy(c, Run(c, w, a), b, o)
    decreases a
  {
    if a == [] {
      assert a + b == b;
    } else {
      assert (a + b)[0] == a[0] && (a + b)[1..] == a[1..] + b;
      DeedsConcat(c, Next(c, w, a[0]), a[1..], b, o);
    }
  }

  lemma {:induction false} OthersDoNothing(c: Config, w: World, steps: seq<Step>, o: Owner)
    requires OthersOnly(steps, o)
    ensures DeedsBy(c, w, steps, o) == []
    decreases steps
  {
    if steps != [] {
      assert Actor(steps[0]) != Some(o);
      OthersDoNothing(c, Next(c, w, steps[0]), steps[1..], o);
    }
  }

  // ---------------------------------------------------------------- counting deeds

  datatype Kind = Start | Delivery | Retry | Burial | Loss | Page | FailedPage

  /**
   A retry is a row that waits for its next attempt, and also a failed call whose row was somebody else's
   by then; a loss is an accepted call whose row was.
   */
  function KindOf(d: Deed): Kind {
    match d
    case Took(_) => Start
    case Sent(_, _) => Start
    case TookPage(_) => Start
    case Settled(_, _, Became(Delivered)) => Delivery
    case Settled(_, _, Became(DeadLetter)) => Burial
    case Settled(_, _, Became(Pending)) => Retry
    case Settled(_, ok, LeaseLost) => if ok then Loss else Retry
    case Paged(_, ok) => if ok then Page else FailedPage
  }

  function Count(ds: seq<Deed>, k: Kind): nat {
    if ds == [] then 0 else Count(ds[..|ds| - 1], k) + if KindOf(ds[|ds| - 1]) == k then 1 else 0
  }

  lemma {:induction false} CountConcat(a: seq<Deed>, b: seq<Deed>, k: Kind)
    ensures Count(a + b, k) == Count(a, k) + Count(b, k)
    decreases b
  {
    if b == [] {
      assert a + b == a;
    } else {
      var n := |b| - 1;
      assert (a + b)[..|a + b| - 1] == a + b[..n];
      CountConcat(a, b[..n], k);
    }
  }

  /** The deeds are what the summary rose by, field by field, and the losses what `lost` counts. */
  ghost predicate Accounted(was: DispatchSummary, ds: seq<Deed>, now': DispatchSummary, lost: nat) {
    && now'.delivered == was.delivered + Count(ds, Delivery)
    && now'.retried == was.retried + Count(ds, Retry)
    && now'.deadLettered == was.deadLettered + Count(ds, Burial)
    && now'.escalated == was.escalated + Count(ds, Page)
    && now'.escalationFailed == was.escalationFailed + Count(ds, FailedPage)
    && lost == Count(ds, Loss)
  }

  lemma AccountedNone(s: DispatchSummary)
    ensures Accounted(s, [], s, 0)
  {
  }

  lemma AccountedJoin(s0: DispatchSummary, a: seq<Deed>, s1: DispatchSummary, l1: nat, b: seq<Deed>,
                      s2: DispatchSummary, l2: nat)
    requires Accounted(s0, a, s1, l1) && Accounted(s1, b, s2, l2)
    ensures Accounted(s0, a + b, s2, l1 + l2)
  {
    forall k ensures Count(a + b, k) == Count(a, k) + Count(b, k) { CountConcat(a, b, k); }
  }

  lemma CountOne(d: Deed, k: Kind)
    ensures Count([d], k) == if KindOf(d) == k then 1 else 0
  {
    assert [d][..0] == [];
  }

  /** Taking a row and sending it count for nothing until the outcome is recorded. */
  lemma CountPair(d: Deed, e: Deed, k: Kind)
    requires KindOf(d) == Start != k
    ensures Count([d] + [e], k) == if KindOf(e) == k then 1 else 0
  {
    CountConcat([d], [e], k);
    CountOne(d, k);
    CountOne(e, k);
  }

  /** The summary with one more deed of the kind in it. */
  function Plus(s: DispatchSummary, k: Kind): DispatchSummary {
    match k
    case Delivery => s.(delivered := s.delivered + 1)
    case Retry => s.(retried := s.retried + 1)
    case Burial => s.(deadLettered := s.deadLettered + 1)
    case Page => s.(escalated := s.escalated + 1)
    case FailedPage => s.(escalationFailed := s.escalationFailed + 1)
    case _ => s
  }

  lemma OneSend(s: DispatchSummary, d: Deed, e: Deed)
    requires KindOf(d) == Start
    ensures Accounted(s, [d] + [e], Plus(s, KindOf(e)), if KindOf(e) == Loss then 1 else 0)
  {
    CountPair(d, e, Delivery);
    CountPair(d, e, Retry);
    CountPair(d, e, Burial);
    CountPair(d, e, Loss);
    CountPair(d, e, Page);
    CountPair(d, e, FailedPage);
  }

  lemma OneStart(s: DispatchSummary, d: Deed)
    requires KindOf(d) == Start
    ensures Accounted(s, [d], s, 0)
  {
    CountOne(d, Delivery);
    CountOne(d, Retry);
    CountOne(d, Burial);
    CountOne(d, Loss);
    CountOne(d, Page);
    CountOne(d, FailedPage);
  }

  /** Each row in turn is taken once, sent once with the answer the webhook gave, and its outcome recorded once. */
  ghost predicate SendDeeds(ds: seq<Deed>, rows: seq<Id>, env: Outside) {
    && |ds| == 3 * |rows|
    && (forall i | 0 <= i < |rows| :: SendDeed(ds, 3 * i, rows[i], env.answers(3 * i + 1)))
  }

  predicate SendDeed(ds: seq<Deed>, n: nat, id: Id, ok: bool) {
    && n + 2 < |ds| && ds[n] == Took(id) && ds[n + 1] == Sent(id, ok)
    && ds[n + 2].Settled? && ds[n + 2].id == id && ds[n + 2].ok == ok
  }

  lemma SendDeedsPush(ds: seq<Deed>, rows: seq<Id>, env: Outside, id: Id, more: seq<Deed>)
    requires SendDeeds(ds, rows, env) && |more| == 3 && SendDeed(more, 0, id, env.answers(3 * |rows| + 1))
    ensures SendDeeds(ds + more, rows + [id], env)
  {
    var n, all := 3 * |rows|, ds + more;
    forall i | 0 <= i < |rows| ensures SendDeed(all, 3 * i, (rows + [id])[i], env.answers(3 * i + 1)) {
      assert SendDeed(ds, 3 * i, rows[i], env.answers(3 * i + 1));
    }
    assert all[n] == more[0] && all[n + 1] == more[1] && all[n + 2] == more[2];
  }

  /** Each row in turn is taken and paged once, with the answer its page got. */
  ghost predicate PageDeeds(ds: seq<Deed>, rows: seq<Id>, env: Outside, base: nat) {
    && |ds| == 2 * |rows|
    && (forall i | 0 <= i < |rows| :: PageDeed(ds, 2 * i, rows[i], env.answers(base + 2 * i + 1)))
  }

  predicate PageDeed(ds: seq<Deed>, n: nat, id: Id, ok: bool) {
    n + 1 < |ds| && ds[n] == TookPage(id) && ds[n + 1] == Paged(id, ok)
  }

  lemma PageDeedsPush(ds: seq<Deed>, rows: seq<Id>, env: Outside, base: nat, id: Id, more: seq<Deed>)
    requires PageDeeds(ds, rows, env, base) && |more| == 2 && PageDeed(more, 0, id, env.answers(base + 2 * |rows| + 1))
    ensures PageDeeds(ds + more, rows + [id], env, base)
  {
    var n, all := 2 * |rows|, ds + more;
    forall i | 0 <= i < |rows| ensures PageDeed(all, 2 * i, (rows + [id])[i], env.answers(base + 2 * i + 1)) {
      assert PageDeed(ds, 2 * i, rows[i], env.answers(base + 2 * i + 1));
    }
    assert all[n] == more[0] && all[n + 1] == more[1];
  }

  /** The deeds of all but the last row, and those of the last. */
  lemma SendDeedsPop(ds: seq<Deed>, rows: seq<Id>, env: Outside)
    requires SendDeeds(ds, rows, env) && rows != []
    ensures var n := 3 * (|rows| - 1);
            && SendDeeds(ds[..n], rows[..|rows| - 1], env)
            && ds == ds[..n] + ([ds[n]] + ([ds[n + 1]] + [ds[n + 2]]))
            && ds[n].Took? && ds[n + 1].Sent? && ds[n + 2].Settled?
  {
    var m, n := |rows| - 1, 3 * (|rows| - 1);
    assert SendDeed(ds, n, rows[m], env.answers(n + 1));
    forall i | 0 <= i < m ensures SendDeed(ds[..n], 3 * i, rows[..m][i], env.answers(3 * i + 1)) {
      assert SendDeed(ds, 3 * i, rows[i], env.answers(3 * i + 1));
    }
  }

  lemma CountSend(init: seq<Deed>, d: Deed, e: Deed, f: Deed, k: Kind)
    requires KindOf(d) == KindOf(e) == Start != k
    ensures Count(init + ([d] + ([e] + [f])), k) == Count(init, k) + if KindOf(f) == k then 1 else 0
  {
    CountConcat(init, [d] + ([e] + [f]), k);
    CountConcat([d], [e] + [f], k);
    CountOne(d, k);
    CountPair(e, f, k);
  }

  /** Every attempted row ends up in exactly one of the four counts. */
  lemma {:induction false} EverySendEndsOnce(ds: seq<Deed>, rows: seq<Id>, env: Outside)
    requires SendDeeds(ds, rows, env)
    ensures Count(ds, Delivery) + Count(ds, Retry) + Count(ds, Burial) + Count(ds, Loss) == |rows|
    ensures Count(ds, Page) == Count(ds, FailedPage) == 0
    decreases rows
  {
    if rows != [] {
      var n := 3 * (|rows| - 1);
      var init, d, e, f := ds[..n], ds[n], ds[n + 1], ds[n + 2];
      SendDeedsPop(ds, rows, env);
      EverySendEndsOnce(init, rows[..|rows| - 1], env);
      CountSend(init, d, e, f, Delivery);
      CountSend(init, d, e, f, Retry);
      CountSend(init, d, e, f, Burial);
      CountSend(init, d, e, f, Loss);
      CountSend(init, d, e, f, Page);
      CountSend(init, d, e, f, FailedPage);
    }
  }

  lemma PageDeedsPop(ds: seq<Deed>, rows: seq<Id>, env: Outside, base: nat)
    requires PageDeeds(ds, rows, env, base) && rows != []
    ensures var n := 2 * (|rows| - 1);
            && PageDeeds(ds[..n], rows[..|rows| - 1], env, base)
            && ds == ds[..n] + ([ds[n]] + [ds[n + 1]]) && ds[n].TookPage? && ds[n + 1].Paged?
  {
    var m, n := |rows| - 1, 2 * (|rows| - 1);
    assert PageDeed(ds, n, rows[m], env.answers(base + n + 1));
    forall i | 0 <= i < m ensures PageDeed(ds[..n], 2 * i, rows[..m][i], env.answers(base + 2 * i + 1)) {
      assert PageDeed(ds, 2 * i, rows[i], env.answers(base + 2 * i + 1));
    }
  }

  lemma CountPage(init: seq<Deed>, d: Deed, e: Deed, k: Kind)
    requires KindOf(d) == Start != k
    ensures Count(init + ([d] + [e]), k) == Count(init, k) + if KindOf(e) == k then 1 else 0
  {
    CountConcat(init, [d] + [e], k);
    CountPair(d, e, k);
  }

  /** Every page is counted as sent or as failed. */
  lemma {:induction false} EveryPageEndsOnce(ds: seq<Deed>, rows: seq<Id>, env: Outside, base: nat)
    requires PageDeeds(ds, rows, env, base)
    ensures Count(ds, Page) + Count(ds, FailedPage) == |rows|
    ensures Count(ds, Delivery) == Count(ds, Retry) == Count(ds, Burial) == Count(ds, Loss) == 0
    decreases rows
  {
    if rows != [] {
      var n := 2 * (|rows| - 1);
      var init, d, e := ds[..n], ds[n], ds[n + 1];
      PageDeedsPop(ds, rows, env, base);
      EveryPageEndsOnce(init, rows[..|rows| - 1], env, base);
      CountPage(init, d, e, Delivery);
      CountPage(init, d, e, Retry);
      CountPage(init, d, e, Burial);
      CountPage(init, d, e, Loss);
      CountPage(init, d, e, Page);
      CountPage(init, d, e, FailedPage);
    }
  }

  /** A world some run leads to from an empty table. */
  ghost predicate Reachable(c: Config, w: World) {
    exists w0: World, steps: seq<Step> :: Init(w0) && w == Run(c, w0, steps)
  }

  lemma ReachableInv(c: Config, w: World)
    requires Reachable(c, w)
    ensures Inv(c, w)
  {
    var w0: World, steps: seq<Step> :| Init(w0) && w == Run(c, w0, steps);
    InitInv(c, w0);
    RunKeepsInv(c, w0, steps);
  }

  lemma ReachableRun(c: Config, w: World, more: seq<Step>)
    requires Reachable(c, w)
    ensures Reachable(c, Run(c, w, more))
  {
    var w0: World, steps: seq<Step> :| Init(w0) && w == Run(c, w0, steps);
    RunConcat(c, w0, steps, more);
  }

  class Deployment {
    const outbox: NotificationOutbox
    const config: Config
    var now: nat
    var procs: map<Owner, Proc>
    var sent: map<Id, nat>
    var accepted: map<Id, nat>

    constructor (outbox: NotificationOutbox, config: Config)
      ensures this.outbox == outbox && this.config == config
      ensures World() == OutboxProtocol.World(outbox.db, 0, map[], map[], map[])
    {
      this.outbox, this.config := outbox, config;
      now, procs, sent, accepted := 0, map[], map[], map[];
    }

    function World(): World
      reads this, outbox
    {
      OutboxProtocol.World(outbox.db, now, procs, sent, accepted)
    }

    method Claim(o: Owner, skip: set<Id>) returns (row: Option<ClaimedNotification>)
      requires ProcOf(World(), o).Idle?
      modifies this, outbox
      ensures World() == Next(config, old(World()), ClaimStep(o, skip))
      ensures row.None? ==> World() == old(World()) && Due(World().db.rows, config.maxAttempts, skip, now) == {}
      ensures row.Some? ==> row.value.id !in skip && InFlight(ProcOf(World(), o)) && ProcOf(World(), o).Claimed?
                            && ProcOf(World(), o).id == row.value.id && ProcOf(World(), o).attempt == row.value.attempts
    {
      ClaimOneIsLimitOne(outbox.db, o, config.leaseMs, config.maxAttempts, skip, now);
      var ids := outbox.ClaimDue(o, config.leaseMs, 1, config.maxAttempts, skip, now);
      if ids == [] {
        assert World() == old(World());
        return None;
      }
      var id := ids[0];
      procs := procs[o := Claimed(id, outbox.db.rows[id].attempts, now + config.leaseMs)];
      row := Some(ClaimedNotification(id, outbox.db.rows[id].event, outbox.db.rows[id].attempts));
    }

    /** The webhook call returns (`ok`) or throws. */
    method Send(o: Owner, ok: bool)
      requires ProcOf(World(), o).Claimed?
      modifies this
      ensures World() == Next(config, old(World()), DeliverStep(o, ok))
    {
      var p := procs[o];
      procs := procs[o := Tried(p.id, p.attempt, p.until, ok)];
      sent := Bump(sent, p.id);
      if ok { accepted := Bump(accepted, p.id); }
    }

    method RecordDelivered(o: Owner) returns (held: bool)
      requires ProcOf(World(), o).Tried? && ProcOf(World(), o).ok
      modifies this, outbox
      ensures World() == Next(config, old(World()), SettleStep(o))
      ensures var id := old(ProcOf(World(), o).id);
              if held then HeldBy(old(World()).db.rows, id, o) && id in World().db.rows && World().db.rows[id].state.Delivered?
              else !HeldBy(old(World()).db.rows, id, o)
    {
      var p := procs[o];
      held := outbox.MarkDelivered(p.id, o, now);
      procs := procs[o := Idle];
    }

    method RecordFailed(o: Owner) returns (state: Option<RowState>)
      requires ProcOf(World(), o).Tried? && !ProcOf(World(), o).ok
      modifies this, outbox
      ensures World() == Next(config, old(World()), SettleStep(o))
      ensures var id := old(ProcOf(World(), o).id);
              if state.Some? then && HeldBy(old(World()).db.rows, id, o) && id in World().db.rows
                                  && World().db.rows[id].state == state.value != Delivered
              else !HeldBy(old(World()).db.rows, id, o)
    {
      var p := procs[o];
      var delay := RetryDelay(p.attempt, config.retryBaseMs, config.retryMaxMs);
      state := outbox.MarkFailed(p.id, o, delay, config.maxAttempts, now);
      procs := procs[o := Idle];
    }

    method TakeEscalation(o: Owner, skip: set<Id>) returns (claimed: Option<(Id, EscalationReason)>)
      requires ProcOf(World(), o).Idle?
      modifies this, outbox
      ensures World() == Next(config, old(World()), ClaimEscalationStep(o, skip))
      ensures claimed.None? ==> && World() == old(World())
                                && ToEscalate(World().db.rows, config.escalateAfterMs, skip, now) == {}
      ensures claimed.Some? ==> claimed.value.0 !in skip
                                && ProcOf(World(), o) == Escalating(claimed.value.0, claimed.value.1)
    {
      claimed := outbox.ClaimEscalation(config.escalateAfterMs, config.leaseMs, skip, now);
      if claimed.Some? { procs := procs[o := Escalating(claimed.value.0, claimed.value.1)]; }
    }

    method FinishEscalation(o: Owner, ok: bool)
      requires ProcOf(World(), o).Escalating?
      modifies this, outbox
      ensures World() == Next(config, old(World()), FinishEscalationStep(o, ok))
    {
      var p := procs[o];
      if ok {
        outbox.MarkEscalated(p.id, p.reason, now);
      } else {
        outbox.MarkEscalationFailed(p.id, RetryDelay(1, config.retryBaseMs, config.retryMaxMs), now);
      }
      procs := procs[o := Idle];
    }

    /** Any protocol step, carried out by the object methods. */
    method Perform(s: Step)
      requires OnePendingPerKey(outbox.db.rows)
      modifies this, outbox
      ensures World() == Next(config, old(World()), s)
    {
      match s
      case EnqueueStep(e) =>
        var _ := outbox.Enqueue(e, config.cooldownMs, now);
      case SweepStep =>
        var _ := outbox.DeadLetterExhausted(config.maxAttempts, now);
      case ClaimStep(o, skip) =>
        if ProcOf(World(), o).Idle? { var _ := Claim(o, skip); }
      case DeliverStep(o, ok) =>
        if ProcOf(World(), o).Claimed? { Send(o, ok); }
      case SettleStep(o) =>
        var p := ProcOf(World(), o);
        if p.Tried? {
          if p.ok { var _ := RecordDelivered(o); } else { var _ := RecordFailed(o); }
        }
      case ClaimEscalationStep(o, skip) =>
        if ProcOf(World(), o).Idle? { var _ := TakeEscalation(o, skip); }
      case FinishEscalationStep(o, ok) =>
        if ProcOf(World(), o).Escalating? { FinishEscalation(o, ok); }
      case CrashStep(o) =>
        procs := procs[o := Idle];
      case TickStep(dt) =>
        now := now + dt;
    }

    /** The other dispatchers, producers and the clock, between two statements of this one. */
    method Interleave(steps: seq<Step>)
      requires Reachable(config, World())
      modifies this, outbox
      ensures World() == Run(config, old(World()), steps)
      ensures Reachable(config, World())
    {
      ReachableRun(config, World(), steps);
      ReachableInv(config, World());
      var i := 0;
      while i < |steps|
        invariant 0 <= i <= |steps|
        invariant Inv(config, World())
        invariant Run(config, World(), steps[i..]) == Run(config, old(World()), steps)
      {
        ghost var w := World();
        NextKeepsInv(config, w, steps[i]);
        Perform(steps[i]);
        assert steps[i..][1..] == steps[i + 1..];
        i := i + 1;
      }
    }
  }

  // ---------------------------------------------------------------- one drain pass

  datatype DispatchSummary = DispatchSummary(
    delivered: nat, retried: nat, deadLettered: nat, escalated: nat, escalationFailed: nat)

  const NOTHING_DONE := DispatchSummary(0, 0, 0, 0, 0)

  /** What the sweep at the start of a pass puts into the summary. */
  ghost function Swept(c: Config, w: World, enabled: bool): DispatchSummary {
    NOTHING_DONE.(deadLettered := if enabled then |ExhaustedIds(w.db.rows, c.maxAttempts, w.now)| else 0)
  }

  /**
   What one pass meets from outside: what happens before its k-th statement, which rows are then
   locked by concurrent statements, and how the k-th webhook call ends.
   */
  datatype Outside = Outside(others: nat -> seq<Step>, locked: nat -> set<Id>, answers: nat -> bool)

  ghost predicate NotActing(env: Outside, o: Owner) {
    forall k: nat :: OthersOnly(env.others(k), o)
  }

  /** The trace from `w0` reaches `w`, and along it `o` did exactly `deeds`. */
  ghost predicate Traced(c: Config, w0: World, trace: seq<Step>, w: World, o: Owner, deeds: seq<Deed>) {
    w == Run(c, w0, trace) && DeedsBy(c, w0, trace, o) == deeds
  }

  lemma TraceOwn(c: Config, w0: World, trace: seq<Step>, w: World, o: Owner, deeds: seq<Deed>, s: Step)
    requires Traced(c, w0, trace, w, o, deeds)
    ensures Traced(c, w0, trace + [s], Next(c, w, s), o, deeds + DeedOf(c, w, s, o))
  {
    RunConcat(c, w0, trace, [s]);
    DeedsConcat(c, w0, trace, [s], o);
    assert [s][1..] == [];
    assert Run(c, w, [s]) == Next(c, w, s);
    assert DeedsBy(c, Next(c, w, s), [], o) == [];
  }

  lemma TraceOthers(c: Config, w0: World, trace: seq<Step>, w: World, o: Owner, deeds: seq<Deed>, steps: seq<Step>)
    requires Traced(c, w0, trace, w, o, deeds) && OthersOnly(steps, o)
    ensures Traced(c, w0, trace + steps, Run(c, w, steps), o, deeds)
    ensures ProcOf(Run(c, w, steps), o) == ProcOf(w, o)
  {
    RunConcat(c, w0, trace, steps);
    DeedsConcat(c, w0, trace, steps, o);
    OthersDoNothing(c, w, steps, o);
    OthersKeepProc(c, w, steps, o);
  }

  lemma TraceJoin(c: Config, w0: World, a: seq<Step>, w1: World, o: Owner, d1: seq<Deed>,
                  b: seq<Step>, w2: World, d2: seq<Deed>)
    requires Traced(c, w0, a, w1, o, d1) && Traced(c, w1, b, w2, o, d2)
    ensures Traced(c, w0, a + b, w2, o, d1 + d2)
  {
    RunConcat(c, w0, a, b);
    DeedsConcat(c, w0, a, b, o);
  }

  /** A stretch of a pass that so far sent the given rows, counted from one summary to another. */
  ghost predicate HasSent(c: Config, w0: World, trace: seq<Step>, w: World, o: Owner, deeds: seq<Deed>, rows: seq<Id>,
                          env: Outside, was: DispatchSummary, now': DispatchSummary, lost: nat) {
    && Traced(c, w0, trace, w, o, deeds) && SendDeeds(deeds, rows, env) && Distinct(rows)
    && Accounted(was, deeds, now', lost)
  }

  lemma HasSentNone(c: Config, w: World, o: Owner, env: Outside, s: DispatchSummary)
    ensures HasSent(c, w, [], w, o, [], [], env, s, s, 0)
  {
    AccountedNone(s);
  }

  lemma HasSentIdle(c: Config, w0: World, trace: seq<Step>, w: World, o: Owner, deeds: seq<Deed>, rows: seq<Id>,
                    env: Outside, was: DispatchSummary, now': DispatchSummary, lost: nat, more: seq<Step>, w': World)
    requires HasSent(c, w0, trace, w, o, deeds, rows, env, was, now', lost) && Traced(c, w, more, w', o, [])
    ensures HasSent(c, w0, trace + more, w', o, deeds, rows, env, was, now', lost)
  {
    TraceJoin(c, w0, trace, w, o, deeds, more, w', []);
    assert deeds + [] == deeds;
  }

  lemma HasSentAfter(c: Config, w0: World, first: seq<Step>, w1: World, o: Owner, trace: seq<Step>, w2: World,
                     deeds: seq<Deed>, rows: seq<Id>, env: Outside, was: DispatchSummary, now': DispatchSummary, lost: nat)
    requires Traced(c, w0, first, w1, o, []) && HasSent(c, w1, trace, w2, o, deeds, rows, env, was, now', lost)
    ensures HasSent(c, w0, first + trace, w2, o, deeds, rows, env, was, now', lost)
  {
    TraceJoin(c, w0, first, w1, o, [], trace, w2, deeds);
    assert [] + deeds == deeds;
  }

  lemma HasSentOneMore(c: Config, w0: World, trace: seq<Step>, w: World, o: Owner, deeds: seq<Deed>, rows: seq<Id>,
                       env: Outside, was: DispatchSummary, mid: DispatchSummary, lost: nat,
                       id: Id, t: seq<Step>, w': World, ds: seq<Deed>, now': DispatchSummary, l: nat)
    requires HasSent(c, w0, trace, w, o, deeds, rows, env, was, mid, lost) && id !in rows
    requires Traced(c, w, t, w', o, ds) && |ds| == 3 && SendDeed(ds, 0, id, env.answers(3 * |rows| + 1))
    requires Accounted(mid, ds, now', l)
    ensures HasSent(c, w0, trace + t, w', o, deeds + ds, rows + [id], env, was, now', lost + l)
  {
    TraceJoin(c, w0, trace, w, o, deeds, t, w', ds);
    AccountedJoin(was, deeds, mid, lost, ds, now', l);
    SendDeedsPush(deeds, rows, env, id, ds);
  }

  lemma TakenAndSent(c: Config, w1: World, t1: seq<Step>, w2: World, o: Owner, id: Id, t2: seq<Step>, w3: World,
                     ds: seq<Deed>, was: DispatchSummary, now': DispatchSummary, l: nat)
    requires Traced(c, w1, t1, w2, o, [Took(id)]) && Traced(c, w2, t2, w3, o, ds) && Accounted(was, ds, now', l)
    ensures Traced(c, w1, t1 + t2, w3, o, [Took(id)] + ds) && Accounted(was, [Took(id)] + ds, now', l)
  {
    TraceJoin(c, w1, t1, w2, o, [Took(id)], t2, w3, ds);
    OneStart(was, Took(id));
    AccountedJoin(was, [Took(id)], was, 0, ds, now', l);
  }

  /** A stretch of a pass that so far paged the given rows. */
  ghost predicate HasPaged(c: Config, w0: World, trace: seq<Step>, w: World, o: Owner, deeds: seq<Deed>, rows: seq<Id>,
                           env: Outside, base: nat, was: DispatchSummary, now': DispatchSummary) {
    && Traced(c, w0, trace, w, o, deeds) && PageDeeds(deeds, rows, env, base) && Distinct(rows)
    && Accounted(was, deeds, now', 0)
  }

  lemma HasPagedNone(c: Config, w: World, o: Owner, env: Outside, base: nat, s: DispatchSummary)
    ensures HasPaged(c, w, [], w, o, [], [], env, base, s, s)
  {
    AccountedNone(s);
  }

  lemma HasPagedIdle(c: Config, w0: World, trace: seq<Step>, w: World, o: Owner, deeds: seq<Deed>, rows: seq<Id>,
                     env: Outside, base: nat, was: DispatchSummary, now': DispatchSummary, more: seq<Step>, w': World)
    requires HasPaged(c, w0, trace, w, o, deeds, rows, env, base, was, now') && Traced(c, w, more, w', o, [])
    ensures HasPaged(c, w0, trace + more, w', o, deeds, rows, env, base, was, now')
  {
    TraceJoin(c, w0, trace, w, o, deeds, more, w', []);
    assert deeds + [] == deeds;
  }

  lemma HasPagedOneMore(c: Config, w0: World, trace: seq<Step>, w: World, o: Owner, deeds: seq<Deed>, rows: seq<Id>,
                        env: Outside, base: nat, was: DispatchSummary, mid: DispatchSummary,
                        id: Id, t: seq<Step>, w': World, ds: seq<Deed>, now': DispatchSummary)
    requires HasPaged(c, w0, trace, w, o, deeds, rows, env, base, was, mid) && id !in rows
    requires Traced(c, w, t, w', o, ds) && |ds| == 2 && PageDeed(ds, 0, id, env.answers(base + 2 * |rows| + 1))
    requires Accounted(mid, ds, now', 0)
    ensures HasPaged(c, w0, trace + t, w', o, deeds + ds, rows + [id], env, base, was, now')
  {
    TraceJoin(c, w0, trace, w, o, deeds, t, w', ds);
    AccountedJoin(was, deeds, mid, 0, ds, now', 0);
    PageDeedsPush(deeds, rows, env, base, id, ds);
  }

  /** One page as the summary counts it. */
  function WithPage(s: DispatchSummary, ok: bool): DispatchSummary {
    if ok then s.(escalated := s.escalated + 1) else s.(escalationFailed := s.escalationFailed + 1)
  }

  lemma OnePage(s: DispatchSummary, id: Id, ok: bool)
    ensures Accounted(s, [TookPage(id)] + [Paged(id, ok)], WithPage(s, ok), 0)
  {
    OneSend(s, TookPage(id), Paged(id, ok));
  }

  /** A pass: the sends up to `mid`, then the pages. */
  ghost predicate InTwoParts(c: Config, w0: World, trace: seq<Step>, mid: nat, w: World, o: Owner, sends: seq<Deed>,
                             pages: seq<Deed>) {
    && mid <= |trace| && Traced(c, w0, trace, w, o, sends + pages)
    && DeedsBy(c, w0, trace[..mid], o) == sends
  }

  lemma TwoParts(c: Config, w0: World, a: seq<Step>, w1: World, o: Owner, sends: seq<Deed>, b: seq<Step>, w2: World,
                 pages: seq<Deed>)
    requires Traced(c, w0, a, w1, o, sends) && Traced(c, w1, b, w2, o, pages)
    ensures InTwoParts(c, w0, a + b, |a|, w2, o, sends, pages) && Run(c, w0, (a + b)[..|a|]) == w1
  {
    TraceJoin(c, w0, a, w1, o, sends, b, w2, pages);
    assert (a + b)[..|a|] == a;
  }

  lemma PassAddsUp(s0: DispatchSummary, sends: seq<Deed>, attempted: seq<Id>, s1: DispatchSummary, lost: nat,
                   pages: seq<Deed>, paged: seq<Id>, s2: DispatchSummary, env: Outside, base: nat)
    requires Accounted(s0, sends, s1, lost) && Accounted(s1, pages, s2, 0)
    requires SendDeeds(sends, attempted, env) && PageDeeds(pages, paged, env, base)
    ensures Accounted(s0, sends + pages, s2, lost)
    ensures s2.delivered + s2.retried + s2.deadLettered + lost
            == s0.delivered + s0.retried + s0.deadLettered + |attempted|
    ensures s2.escalated + s2.escalationFailed == s0.escalated + s0.escalationFailed + |paged|
  {
    AccountedJoin(s0, sends, s1, lost, pages, s2, 0);
    EverySendEndsOnce(sends, attempted, env);
    EveryPageEndsOnce(pages, paged, env, base);
  }

  /** Sends after a sweep, then pages: one pass. */
  lemma PassJoins(c: Config, w0: World, a: seq<Step>, w1: World, o: Owner, sends: seq<Deed>, attempted: seq<Id>, env: Outside,
                  s1: DispatchSummary, lost: nat, b: seq<Step>, w2: World, pages: seq<Deed>, paged: seq<Id>, base: nat,
                  s2: DispatchSummary)
    requires Reachable(c, w0) && HasSent(c, w0, a, w1, o, sends, attempted, env, Swept(c, w0, true), s1, lost)
    requires HasPaged(c, w1, b, w2, o, pages, paged, env, base, s1, s2)
    ensures Reachable(c, w2)
    ensures InTwoParts(c, w0, a + b, |a|, w2, o, sends, pages) && Run(c, w0, (a + b)[..|a|]) == w1
    ensures Accounted(Swept(c, w0, true), sends + pages, s2, lost)
    ensures s2.delivered + s2.retried + s2.deadLettered + lost == Swept(c, w0, true).deadLettered + |attempted|
    ensures s2.escalated + s2.escalationFailed == |paged|
  {
    TwoParts(c, w0, a, w1, o, sends, b, w2, pages);
    PassAddsUp(Swept(c, w0, true), sends, attempted, s1, lost, pages, paged, s2, env, base);
    ReachableRun(c, w0, a + b);
  }

  predicate Distinct(ids: seq<Id>) {
    forall i, j | 0 <= i < j < |ids| :: ids[i] != ids[j]
  }

  /** Every row that is due has been attempted in this pass or is locked by a concurrent statement. */
  ghost predicate NothingDue(c: Config, w: World, attempted: seq<Id>, locked: set<Id>) {
    forall id | id in w.db.rows && Claimable(w.db.rows[id], c.maxAttempts, w.now) :: id in attempted || id in locked
  }

  ghost predicate NothingToEscalate(c: Config, w: World, paged: seq<Id>, locked: set<Id>) {
    forall id | id in w.db.rows && Escalatable(w.db.rows[id], c.escalateAfterMs, w.now) :: id in paged || id in locked
  }

  class NotificationDispatcher {
    const owner: Owner
    const batchSize: nat
    const enabled: bool
    const escalates: bool

    constructor (owner: Owner, batchSize: nat, enabled: bool, escalates: bool)
      ensures this.owner == owner && this.batchSize == batchSize
      ensures this.enabled == enabled && this.escalates == escalates
    {
      this.owner, this.batchSize, this.enabled, this.escalates := owner, batchSize, enabled, escalates;
    }

    /** The webhook call, with whatever the other dispatchers do around it. */
    method Attempt(site: Deployment, env: Outside, k: nat) returns (ok: bool, ghost trace: seq<Step>)
      requires Reachable(site.config, site.World()) && NotActing(env, owner)
      requires ProcOf(site.World(), owner).Claimed?
      modifies site, site.outbox
      ensures ok == env.answers(k)
      ensures ProcOf(site.World(), owner).Tried? && ProcOf(site.World(), owner).ok == ok
      ensures ProcOf(site.World(), owner).id == old(ProcOf(site.World(), owner).id)
      ensures Traced(site.config, old(site.World()), trace, site.World(), owner,
                     [Sent(old(ProcOf(site.World(), owner).id), ok)])
    {
      ghost var c, w0 := site.config, site.World();
      site.Interleave(env.others(k));
      TraceOthers(c, w0, [], w0, owner, [], env.others(k));
      trace := [] + env.others(k);

      ghost var w1 := site.World();
      ok := env.answers(k);
      site.Send(owner, ok);
      TraceOwn(c, w0, trace, w1, owner, [], DeliverStep(owner, ok));
      trace := trace + [DeliverStep(owner, ok)];

      ghost var w2 := site.World();
      ReachableRun(c, w0, trace);
      site.Interleave(env.others(k + 1));
      TraceOthers(c, w0, trace, w2, owner, [Sent(ProcOf(w0, owner).id, ok)], env.others(k + 1));
      trace := trace + env.others(k + 1);
    }

    /**
     Records the outcome of a send. The summary field that rises is the one that says how this left the
     row; `lost` when the row was somebody else's after an accepted send.
     */
    method Record(site: Deployment, ok: bool, summary: DispatchSummary)
      returns (after: DispatchSummary, lost: nat, ghost settled: Deed)
      requires ProcOf(site.World(), owner).Tried? && ProcOf(site.World(), owner).ok == ok
      modifies site, site.outbox
      ensures site.World() == Next(site.config, old(site.World()), SettleStep(owner))
      ensures DeedOf(site.config, old(site.World()), SettleStep(owner), owner) == [settled]
      ensures settled.Settled? && settled.ok == ok && settled.id == old(ProcOf(site.World(), owner).id)
      ensures after == Plus(summary, KindOf(settled)) && lost == if KindOf(settled) == Loss then 1 else 0
    {
      ghost var id := ProcOf(site.World(), owner).id;
      after, lost := summary, 0;
      if ok {
        var held := site.RecordDelivered(owner);
        if held { after := after.(delivered := after.delivered + 1); } else { lost := 1; }
        settled := Settled(id, ok, if held then Became(Delivered) else LeaseLost);
      } else {
        var state := site.RecordFailed(owner);
        if state == Some(DeadLetter) {
          after := after.(deadLettered := after.deadLettered + 1);
        } else {
          after := after.(retried := after.retried + 1);
        }
        settled := Settled(id, ok, if state.Some? then Became(state.value) else LeaseLost);
      }
    }

    /** Sends one claimed row and records the outcome, between any steps of others. */
    method DeliverClaimed(site: Deployment, env: Outside, k: nat, summary: DispatchSummary)
      returns (after: DispatchSummary, lost: nat, ghost deeds: seq<Deed>, ghost trace: seq<Step>)
      requires Reachable(site.config, site.World()) && NotActing(env, owner)
      requires ProcOf(site.World(), owner).Claimed?
      modifies site, site.outbox
      ensures ProcOf(site.World(), owner).Idle?
      ensures Traced(site.config, old(site.World()), trace, site.World(), owner, deeds)
      ensures && |deeds| == 2 && deeds[0] == Sent(old(ProcOf(site.World(), owner).id), env.answers(k))
              && deeds[1].Settled? && deeds[1].id == deeds[0].id && deeds[1].ok == deeds[0].ok
      ensures Accounted(summary, deeds, after, lost)
    {
      ghost var c, w0 := site.config, site.World();
      ghost var id := ProcOf(w0, owner).id;
      var ok;
      ok, trace := Attempt(site, env, k);
      ghost var w1 := site.World();
      ghost var settled;
      after, lost, settled := Record(site, ok, summary);
      TraceOwn(c, w0, trace, w1, owner, [Sent(id, ok)], SettleStep(owner));
      trace := trace + [SettleStep(owner)];
      deeds := [Sent(id, ok)] + [settled];
      OneSend(summary, Sent(id, ok), settled);
    }

    /** One claim, after whatever happened since the last statement. */
    method ClaimNext(site: Deployment, env: Outside, k: nat, attempted: seq<Id>)
      returns (row: Option<ClaimedNotification>, ghost trace: seq<Step>)
      requires Reachable(site.config, site.World()) && NotActing(env, owner)
      requires ProcOf(site.World(), owner).Idle?
      modifies site, site.outbox
      ensures Traced(site.config, old(site.World()), trace, site.World(), owner,
                     if row.Some? then [Took(row.value.id)] else [])
      ensures row.None? ==> && ProcOf(site.World(), owner).Idle?
                            && NothingDue(site.config, site.World(), attempted, env.locked(k))
      ensures row.Some? ==> && row.value.id !in attempted && ProcOf(site.World(), owner).Claimed?
                            && ProcOf(site.World(), owner).id == row.value.id
    {
      ghost var c, w0 := site.config, site.World();
      site.Interleave(env.others(k));
      TraceOthers(c, w0, [], w0, owner, [], env.others(k));
      trace := [] + env.others(k);
      ghost var w1 := site.World();
      var skip := (set id | id in attempted) + env.locked(k);
      row := site.Claim(owner, skip);
      assert forall id | id in w1.db.rows && id !in skip && Claimable(w1.db.rows[id], c.maxAttempts, w1.now) ::
          id in Due(w1.db.rows, c.maxAttempts, skip, w1.now);
      TraceOwn(c, w0, trace, w1, owner, [], ClaimStep(owner, skip));
      assert [] + DeedOf(c, w1, ClaimStep(owner, skip), owner) == if row.Some? then [Took(row.value.id)] else [];
      trace := trace + [ClaimStep(owner, skip)];
    }

    /** One claim immediately before its send; `None` when nothing is due. */
    method SendNext(site: Deployment, env: Outside, k: nat, attempted: seq<Id>, summary: DispatchSummary)
      returns (id: Option<Id>, after: DispatchSummary, lost: nat, ghost deeds: seq<Deed>, ghost trace: seq<Step>)
      requires Reachable(site.config, site.World()) && NotActing(env, owner)
      requires ProcOf(site.World(), owner).Idle?
      modifies site, site.outbox
      ensures ProcOf(site.World(), owner).Idle?
      ensures Traced(site.config, old(site.World()), trace, site.World(), owner, deeds)
      ensures Accounted(summary, deeds, after, lost)
      ensures id.None? ==> && deeds == [] && after == summary && lost == 0
                           && NothingDue(site.config, site.World(), attempted, env.locked(k))
      ensures id.Some? ==> id.value !in attempted && |deeds| == 3 && SendDeed(deeds, 0, id.value, env.answers(k + 1))
    {
      ghost var c, w1 := site.config, site.World();
      var row;
      row, trace := ClaimNext(site, env, k, attempted);
      id, after, lost, deeds := None, summary, 0, [];
      if row.None? {
        AccountedNone(summary);
      } else {
        ghost var w2, t2 := site.World(), [];
        ReachableRun(c, w1, trace);
        id := Some(row.value.id);
        after, lost, deeds, t2 := DeliverClaimed(site, env, k + 1, summary);
        TakenAndSent(c, w1, trace, w2, owner, row.value.id, t2, site.World(), deeds, summary, after, lost);
        trace, deeds := trace + t2, [Took(row.value.id)] + deeds;
      }
    }

    /** One turn of the send loop; `done` when nothing was due. */
    method SendTurn(site: Deployment, env: Outside, before: DispatchSummary, attempted: seq<Id>, lost: nat, ghost w0: World,
                    ghost trace: seq<Step>, ghost deeds: seq<Deed>, ghost start: DispatchSummary)
      returns (done: bool, after: DispatchSummary, attempted': seq<Id>, lost': nat, ghost trace': seq<Step>,
               ghost deeds': seq<Deed>)
      requires Reachable(site.config, site.World()) && NotActing(env, owner)
      requires ProcOf(site.World(), owner).Idle?
      requires HasSent(site.config, w0, trace, site.World(), owner, deeds, attempted, env, start, before, lost)
      modifies site, site.outbox
      ensures ProcOf(site.World(), owner).Idle? && Reachable(site.config, site.World())
      ensures HasSent(site.config, w0, trace', site.World(), owner, deeds', attempted', env, start, after, lost')
      ensures |attempted'| == |attempted| + if done then 0 else 1
      ensures done ==> NothingDue(site.config, site.World(), attempted', env.locked(3 * |attempted'|))
    {
      ghost var c, w1 := site.config, site.World();
      var id, l;
      ghost var t, more;
      id, after, l, more, t := SendNext(site, env, 3 * |attempted|, attempted, before);
      ReachableRun(c, w1, t);
      done, attempted', lost', trace', deeds' := id.None?, attempted, lost + l, trace + t, deeds + more;
      if done {
        HasSentIdle(c, w0, trace, w1, owner, deeds, attempted, env, start, before, lost, t, site.World());
        deeds' := deeds;
      } else {
        HasSentOneMore(c, w0, trace, w1, owner, deeds, attempted, env, start, before, lost,
                       id.value, t, site.World(), more, after, l);
        attempted' := attempted + [id.value];
      }
    }

    /** The send loop, until nothing is due or the batch is full. */
    method DrainRows(site: Deployment, env: Outside, summary: DispatchSummary)
      returns (after: DispatchSummary, attempted: seq<Id>, lost: nat, ghost deeds: seq<Deed>, ghost trace: seq<Step>)
      requires Reachable(site.config, site.World()) && NotActing(env, owner)
      requires ProcOf(site.World(), owner).Idle?
      modifies site, site.outbox
      ensures ProcOf(site.World(), owner).Idle?
      ensures HasSent(site.config, old(site.World()), trace, site.World(), owner, deeds, attempted, env, summary, after, lost)
      ensures |attempted| <= batchSize
      ensures |attempted| < batchSize ==>
                NothingDue(site.config, site.World(), attempted, env.locked(3 * |attempted|))
    {
      ghost var c, w0 := site.config, site.World();
      after, attempted, lost, deeds, trace := summary, [], 0, [], [];
      HasSentNone(c, w0, owner, env, summary);
      var done := false;
      while |attempted| < batchSize && !done
        invariant ProcOf(site.World(), owner).Idle? && Reachable(c, site.World()) && |attempted| <= batchSize
        invariant HasSent(c, w0, trace, site.World(), owner, deeds, attempted, env, summary, after, lost)
        invariant done ==> NothingDue(c, site.World(), attempted, env.locked(3 * |attempted|))
        decreases batchSize - |attempted|, !done
      {
        done, after, attempted, lost, trace, deeds :=
          SendTurn(site, env, after, attempted, lost, w0, trace, deeds, summary);
      }
    }

    /** The sweep, then the send loop. */
    method SweepAndSend(site: Deployment, env: Outside)
      returns (summary: DispatchSummary, attempted: seq<Id>, lost: nat, ghost sends: seq<Deed>, ghost trace: seq<Step>)
      requires Reachable(site.config, site.World()) && NotActing(env, owner)
      requires ProcOf(site.World(), owner).Idle?
      modifies site, site.outbox
      ensures trace != [] && trace[0] == SweepStep
      ensures ProcOf(site.World(), owner).Idle?
      ensures HasSent(site.config, old(site.World()), trace, site.World(), owner, sends, attempted, env,
                      Swept(site.config, old(site.World()), true), summary, lost)
      ensures |attempted| <= batchSize
      ensures |attempted| < batchSize ==>
                NothingDue(site.config, site.World(), attempted, env.locked(3 * |attempted|))
    {
      ghost var c, w0 := site.config, site.World();
      var swept := site.outbox.DeadLetterExhausted(site.config.maxAttempts, site.now);
      summary := NOTHING_DONE.(deadLettered := swept);
      ghost var start, w1 := summary, site.World();
      assert start == Swept(c, w0, true);
      TraceOwn(c, w0, [], w0, owner, [], SweepStep);
      assert [] + [SweepStep] == [SweepStep];
      ReachableRun(c, w0, [SweepStep]);
      ghost var t;
      summary, attempted, lost, sends, t := DrainRows(site, env, summary);
      HasSentAfter(c, w0, [SweepStep], w1, owner, t, site.World(), sends, attempted, env, start, summary, lost);
      trace := [SweepStep] + t;
    }

    method ClaimPage(site: Deployment, env: Outside, k: nat, attempted: seq<Id>)
      returns (claimed: Option<Id>, ghost trace: seq<Step>)
      requires Reachable(site.config, site.World()) && NotActing(env, owner)
      requires ProcOf(site.World(), owner).Idle?
      modifies site, site.outbox
      ensures Traced(site.config, old(site.World()), trace, site.World(), owner,
                     if claimed.Some? then [TookPage(claimed.value)] else [])
      ensures claimed.None? ==> && ProcOf(site.World(), owner).Idle?
                                && NothingToEscalate(site.config, site.World(), attempted, env.locked(k))
      ensures claimed.Some? ==> && claimed.value !in attempted && ProcOf(site.World(), owner).Escalating?
                                && ProcOf(site.World(), owner).id == claimed.value
    {
      ghost var c, w0 := site.config, site.World();
      site.Interleave(env.others(k));
      TraceOthers(c, w0, [], w0, owner, [], env.others(k));
      trace := [] + env.others(k);
      ghost var w1 := site.World();
      var skip := (set i | i in attempted) + env.locked(k);
      var page := site.TakeEscalation(owner, skip);
      assert forall i | i in w1.db.rows && i !in skip && Escalatable(w1.db.rows[i], c.escalateAfterMs, w1.now) ::
          i in ToEscalate(w1.db.rows, c.escalateAfterMs, skip, w1.now);
      TraceOwn(c, w0, trace, w1, owner, [], ClaimEscalationStep(owner, skip));
      trace := trace + [ClaimEscalationStep(owner, skip)];
      claimed := if page.Some? then Some(page.value.0) else None;
      assert [] + DeedOf(c, w1, ClaimEscalationStep(owner, skip), owner)
          == if claimed.Some? then [TookPage(claimed.value)] else [];
    }

    /** One escalation claim and page; `None` when nothing needs the duty owner. */
    method EscalateNext(site: Deployment, env: Outside, k: nat, attempted: seq<Id>)
      returns (id: Option<Id>, ok: bool, ghost deeds: seq<Deed>, ghost trace: seq<Step>)
      requires Reachable(site.config, site.World()) && NotActing(env, owner)
      requires ProcOf(site.World(), owner).Idle?
      modifies site, site.outbox
      ensures ok == env.answers(k + 1)
      ensures ProcOf(site.World(), owner).Idle?
      ensures Traced(site.config, old(site.World()), trace, site.World(), owner, deeds)
      ensures id.None? ==> deeds == [] && NothingToEscalate(site.config, site.World(), attempted, env.locked(k))
      ensures id.Some? ==> id.value !in attempted && deeds == [TookPage(id.value)] + [Paged(id.value, ok)]
    {
      ghost var c, w0 := site.config, site.World();
      ok := env.answers(k + 1);
      id, trace := ClaimPage(site, env, k, attempted);
      deeds := [];
      if id.Some? {
        ghost var w2 := site.World();
        ReachableRun(c, w0, trace);
        site.Interleave(env.others(k + 1));
        TraceOthers(c, w0, trace, w2, owner, [TookPage(id.value)], env.others(k + 1));
        trace := trace + env.others(k + 1);

        ghost var w3 := site.World();
        site.FinishEscalation(owner, ok);
        TraceOwn(c, w0, trace, w3, owner, [TookPage(id.value)], FinishEscalationStep(owner, ok));
        assert DeedOf(c, w3, FinishEscalationStep(owner, ok), owner) == [Paged(id.value, ok)];
        trace := trace + [FinishEscalationStep(owner, ok)];
        deeds := [TookPage(id.value)] + [Paged(id.value, ok)];
      }
    }

    /** One turn of the page loop; `done` when nothing was left to page. */
    method PageTurn(site: Deployment, env: Outside, base: nat, before: DispatchSummary, paged: seq<Id>, ghost w0: World,
                    ghost trace: seq<Step>, ghost deeds: seq<Deed>, ghost start: DispatchSummary)
      returns (done: bool, after: DispatchSummary, paged': seq<Id>, ghost trace': seq<Step>, ghost deeds': seq<Deed>)
      requires Reachable(site.config, site.World()) && NotActing(env, owner)
      requires ProcOf(site.World(), owner).Idle?
      requires HasPaged(site.config, w0, trace, site.World(), owner, deeds, paged, env, base, start, before)
      modifies site, site.outbox
      ensures ProcOf(site.World(), owner).Idle? && Reachable(site.config, site.World())
      ensures HasPaged(site.config, w0, trace', site.World(), owner, deeds', paged', env, base, start, after)
      ensures |paged'| == |paged| + if done then 0 else 1
      ensures done ==> NothingToEscalate(site.config, site.World(), paged', env.locked(base + 2 * |paged'|))
    {
      ghost var c, w1 := site.config, site.World();
      var id, ok;
      ghost var t, more;
      id, ok, more, t := EscalateNext(site, env, base + 2 * |paged|, paged);
      ReachableRun(c, w1, t);
      done, after, paged', trace', deeds' := id.None?, before, paged, trace + t, deeds + more;
      if done {
        HasPagedIdle(c, w0, trace, w1, owner, deeds, paged, env, base, start, before, t, site.World());
        deeds' := deeds;
      } else {
        after := WithPage(before, ok);
        OnePage(before, id.value, ok);
        HasPagedOneMore(c, w0, trace, w1, owner, deeds, paged, env, base, start, before,
                        id.value, t, site.World(), more, after);
        paged' := paged + [id.value];
      }
    }

    /** The page loop: every page that was claimed is counted as escalated or failed, by the answer it got. */
    method SendPages(site: Deployment, env: Outside, base: nat, summary: DispatchSummary)
      returns (after: DispatchSummary, paged: seq<Id>, ghost deeds: seq<Deed>, ghost trace: seq<Step>)
      requires Reachable(site.config, site.World()) && NotActing(env, owner)
      requires ProcOf(site.World(), owner).Idle?
      modifies site, site.outbox
      ensures ProcOf(site.World(), owner).Idle?
      ensures HasPaged(site.config, old(site.World()), trace, site.World(), owner, deeds, paged, env, base, summary, after)
      ensures |paged| <= batchSize
      ensures |paged| < batchSize ==>
                NothingToEscalate(site.config, site.World(), paged, env.locked(base + 2 * |paged|))
    {
      ghost var c, w0 := site.config, site.World();
      after, paged, deeds, trace := summary, [], [], [];
      HasPagedNone(c, w0, owner, env, base, summary);
      var done := false;
      while |paged| < batchSize && !done
        invariant ProcOf(site.World(), owner).Idle? && Reachable(c, site.World()) && |paged| <= batchSize
        invariant HasPaged(c, w0, trace, site.World(), owner, deeds, paged, env, base, summary, after)
        invariant done ==> NothingToEscalate(c, site.World(), paged, env.locked(base + 2 * |paged|))
        decreases batchSize - |paged|, !done
      {
        done, after, paged, trace, deeds := PageTurn(site, env, base, after, paged, w0, trace, deeds, summary);
      }
    }

    /** Pages the duty owner, if there is a route to them. */
    method Escalate(site: Deployment, env: Outside, base: nat, summary: DispatchSummary)
      returns (after: DispatchSummary, paged: seq<Id>, ghost deeds: seq<Deed>, ghost trace: seq<Step>)
      requires Reachable(site.config, site.World()) && NotActing(env, owner)
      requires ProcOf(site.World(), owner).Idle?
      modifies site, site.outbox
      ensures ProcOf(site.World(), owner).Idle?
      ensures HasPaged(site.config, old(site.World()), trace, site.World(), owner, deeds, paged, env, base, summary, after)
      ensures |paged| <= batchSize
      ensures !escalates ==> paged == [] && site.World() == old(site.World())
      ensures escalates && |paged| < batchSize ==>
                NothingToEscalate(site.config, site.World(), paged, env.locked(base + 2 * |paged|))
    {
      after, paged, deeds, trace := summary, [], [], [];
      if escalates {
        after, paged, deeds, trace := SendPages(site, env, base, summary);
      } else {
        HasPagedNone(site.config, site.World(), owner, env, base, summary);
      }
    }

    /** What an enabled dispatcher does in one pass. */
    method Pass(site: Deployment, env: Outside)
      returns (summary: DispatchSummary, attempted: seq<Id>, paged: seq<Id>, lost: nat, ghost trace: seq<Step>,
               ghost mid: nat, ghost sends: seq<Deed>, ghost pages: seq<Deed>)
      requires Reachable(site.config, site.World()) && NotActing(env, owner)
      requires ProcOf(site.World(), owner).Idle?
      modifies site, site.outbox
      ensures trace != [] && trace[0] == SweepStep
      ensures ProcOf(site.World(), owner).Idle? && Reachable(site.config, site.World())
      ensures InTwoParts(site.config, old(site.World()), trace, mid, site.World(), owner, sends, pages)
      ensures SendDeeds(sends, attempted, env) && Distinct(attempted) && |attempted| <= batchSize
      ensures PageDeeds(pages, paged, env, 3 * batchSize) && Distinct(paged) && |paged| <= batchSize
      ensures |attempted| < batchSize ==>
                NothingDue(site.config, Run(site.config, old(site.World()), trace[..mid]), attempted,
                           env.locked(3 * |attempted|))
      ensures escalates && |paged| < batchSize ==>
                NothingToEscalate(site.config, site.World(), paged, env.locked(3 * batchSize + 2 * |paged|))
      ensures !escalates ==> paged == []
      ensures Accounted(Swept(site.config, old(site.World()), true), sends + pages, summary, lost)
      ensures summary.delivered + summary.retried + summary.deadLettered + lost
              == Swept(site.config, old(site.World()), true).deadLettered + |attempted|
      ensures summary.escalated + summary.escalationFailed == |paged|
    {
      ghost var c, w0 := site.config, site.World();
      summary, attempted, lost, sends, trace := SweepAndSend(site, env);
      ReachableRun(c, w0, trace);
      ghost var w1, was := site.World(), summary;
      ghost var t;
      mid := |trace|;
      summary, paged, pages, t := Escalate(site, env, 3 * batchSize, summary);
      PassJoins(c, w0, trace, w1, owner, sends, attempted, env, was, lost, t, site.World(), pages, paged, 3 * batchSize, summary);
      trace := trace + t;
    }

    /**
     One pass. It is a run of the protocol that starts with the sweep. In its first `mid` steps this
     dispatcher sends every attempted row exactly once and records each outcome once; in the rest it pages
     every paged row once. If it stops sending early, every row then due was attempted or is locked by a
     concurrent statement, and likewise for pages at the end. Every field of the summary is the number of
     deeds of its kind, the swept rows among the dead letters. A disabled dispatcher touches nothing.
     */
    method Drain(site: Deployment, env: Outside)
      returns (summary: DispatchSummary, attempted: seq<Id>, paged: seq<Id>, lost: nat, ghost trace: seq<Step>,
               ghost mid: nat, ghost sends: seq<Deed>, ghost pages: seq<Deed>)
      requires Reachable(site.config, site.World()) && NotActing(env, owner)
      requires ProcOf(site.World(), owner).Idle?
      modifies site, site.outbox
      ensures !enabled ==> site.World() == old(site.World()) && summary == NOTHING_DONE && trace == []
      ensures enabled ==> trace != [] && trace[0] == SweepStep
      ensures ProcOf(site.World(), owner).Idle? && Reachable(site.config, site.World())
      ensures InTwoParts(site.config, old(site.World()), trace, mid, site.World(), owner, sends, pages)
      ensures SendDeeds(sends, attempted, env) && Distinct(attempted) && |attempted| <= batchSize
      ensures PageDeeds(pages, paged, env, 3 * batchSize) && Distinct(paged) && |paged| <= batchSize
      ensures enabled && |attempted| < batchSize ==>
                NothingDue(site.config, Run(site.config, old(site.World()), trace[..mid]), attempted,
                           env.locked(3 * |attempted|))
      ensures enabled && escalates && |paged| < batchSize ==>
                NothingToEscalate(site.config, site.World(), paged, env.locked(3 * batchSize + 2 * |paged|))
      ensures !escalates ==> paged == []
      ensures Accounted(Swept(site.config, old(site.World()), enabled), sends + pages, summary, lost)
      ensures var swept := Swept(site.config, old(site.World()), enabled).deadLettered;
              summary.delivered + summary.retried + summary.deadLettered + lost == swept + |attempted|
      ensures summary.escalated + summary.escalationFailed == |paged|
    {
      summary, attempted, paged, lost, trace := NOTHING_DONE, [], [], 0, [];
      mid, sends, pages := 0, [], [];
      if enabled {
        summary, attempted, paged, lost, trace, mid, sends, pages := Pass(site, env);
      } else {
        AccountedNone(summary);
      }
    }
  }
}
