/** What every run of the outbox protocol keeps, in the terms its callers care about. */
module OutboxSafety {
  import opened Common
  import opened OutboxTable
  import opened OutboxProtocol

  lemma EvolvesTransitively(a: Row, b: Row, d: Row)
    requires Evolves(a, b) && Evolves(b, d)
    ensures Evolves(a, d)
  {
  }

  /** Rows are retained over whole runs: never deleted, re-keyed, reopened or rewritten once settled. */
  lemma {:induction false} RunRetains(c: Config, w: World, steps: seq<Step>)
    requires TableOk(c, w)
    ensures TableOk(c, Run(c, w, steps)) && Retained(w.db.rows, Run(c, w, steps).db.rows)
    ensures w.now <= Run(c, w, steps).now
    decreases steps
  {
    if steps != [] {
      var w1 := Next(c, w, steps[0]);
      NextRows(c, w, steps[0]);
      RunRetains(c, w1, steps[1..]);
      var w2 := Run(c, w1, steps[1..]);
      forall id | id in w.db.rows ensures id in w2.db.rows && Evolves(w.db.rows[id], w2.db.rows[id]) {
        EvolvesTransitively(w.db.rows[id], w1.db.rows[id], w2.db.rows[id]);
      }
    }
  }

  /**
   Outbox safety. From an empty table, whatever the interleaving: at most one PENDING row per dedup
   key, no row is sent more often than `maxAttempts`, a DELIVERED row was accepted by the webhook, a
   dead letter spent every attempt, pages of one incident are a cooldown apart, and only critical rows
   are escalated.
   */
  lemma SafeOverEveryRun(c: Config, w: World, steps: seq<Step>)
    requires Init(w)
    ensures var v := Run(c, w, steps);
            && OnePendingPerKey(v.db.rows)
            && CooldownApart(c, v.db.rows)
            && (forall id | id in v.db.rows ::
                  && Count(v.accepted, id) <= Count(v.sent, id) <= v.db.rows[id].attempts <= c.maxAttempts
                  && (v.db.rows[id].state.Delivered? ==> Count(v.accepted, id) >= 1)
                  && (v.db.rows[id].state.DeadLetter? ==> v.db.rows[id].attempts == c.maxAttempts)
                  && (v.db.rows[id].escalatedAt.Some? ==> v.db.rows[id].severity.Critical?))
  {
    InitInv(c, w);
    RunKeepsInv(c, w, steps);
  }

  /** DELIVERED and DEAD_LETTER are absorbing, with their payload, attempts and timestamps. */
  lemma SettledRowsNeverChange(c: Config, w: World, steps: seq<Step>, id: Id)
    requires Inv(c, w) && id in w.db.rows && !w.db.rows[id].state.Pending?
    ensures var v := Run(c, w, steps);
            && id in v.db.rows
            && v.db.rows[id].state == w.db.rows[id].state && v.db.rows[id].event == w.db.rows[id].event
            && v.db.rows[id].attempts == w.db.rows[id].attempts
            && v.db.rows[id].deliveredAt == w.db.rows[id].deliveredAt
            && v.db.rows[id].deadLetteredAt == w.db.rows[id].deadLetteredAt
  {
    RunRetains(c, w, steps);
  }

  /** A row becomes DELIVERED exactly when the dispatcher still named in its lease records an accepted webhook call. */
  lemma DeliveredOnlyUnderTheFence(c: Config, w: World, s: Step, id: Id)
    requires id in w.db.rows && !w.db.rows[id].state.Delivered?
    ensures id in Next(c, w, s).db.rows && Next(c, w, s).db.rows[id].state.Delivered?
            <==> (&& s.SettleStep? && ProcOf(w, s.o).Tried? && ProcOf(w, s.o).ok && ProcOf(w, s.o).id == id
                  && w.db.rows[id].leaseOwner == Some(s.o) && w.db.rows[id].state.Pending?)
  {
    if !s.SettleStep? {
      DeliveriesOnlyFromSettling(c, w, s);
    }
  }

  /** A dispatcher that lost its lease changes nothing, whatever the webhook answered. */
  lemma LostLeaseSettlesNothing(c: Config, w: World, o: Owner)
    requires ProcOf(w, o).Tried? && !HeldBy(w.db.rows, ProcOf(w, o).id, o)
    ensures Settle(c, w, o).db == w.db
  {
  }

  /** An accepted event leaves a pending row for its key that carries it, and that row outlives every later step. */
  lemma AcceptedEventKeepsItsRow(c: Config, w: World, e: Event, steps: seq<Step>) returns (id: Id)
    requires Inv(c, w)
    requires Enqueue(w.db, e, c.cooldownMs, w.now).1 in {Queued, Merged}
    ensures var w1 := Next(c, w, EnqueueStep(e));
            && id in w1.db.rows && PendingFor(w1.db.rows[id], e.dedupKey) && w1.db.rows[id].event == e
    ensures var v := Run(c, w, [EnqueueStep(e)] + steps);
            id in v.db.rows && v.db.rows[id].dedupKey == e.dedupKey
  {
    id := if HasPending(w.db.rows, e.dedupKey) then PendingId(w.db.rows, e.dedupKey) else w.db.nextId;
    NextRows(c, w, EnqueueStep(e));
    RunRetains(c, Next(c, w, EnqueueStep(e)), steps);
    assert ([EnqueueStep(e)] + steps)[1..] == steps;
  }

  /** The answer of `enqueue`, decided by the table alone. */
  lemma EnqueueAnswer(c: Config, w: World, e: Event)
    requires Inv(c, w) && e.dedupKey != ""
    ensures var (db, r) := Enqueue(w.db, e, c.cooldownMs, w.now);
            && (r == Suppressed <==> InCooldown(w.db.rows, e.dedupKey, c.cooldownMs, w.now))
            && (r == Suppressed ==> db == w.db)
            && (r == Queued ==> PendingIds(db.rows) == PendingIds(w.db.rows) + {w.db.nextId})
            && (r == Merged ==> PendingIds(db.rows) == PendingIds(w.db.rows))
            && (r == Merged ==> exists id | id in w.db.rows && PendingFor(w.db.rows[id], e.dedupKey) ::
                                  db.rows == w.db.rows[id := Absorb(w.db.rows[id], e, w.now)])
  {
    if HasPending(w.db.rows, e.dedupKey) {
      var id := PendingId(w.db.rows, e.dedupKey);
      assert id in w.db.rows && PendingFor(w.db.rows[id], e.dedupKey);
    }
  }

  /** Steps of the run that take the row; each spends one attempt. */
  ghost function ClaimsOf(c: Config, w: World, steps: seq<Step>, id: Id): nat
    requires TableOk(c, w) && id in w.db.rows
    decreases steps
  {
    if steps == [] then 0
    else
      NextRows(c, w, steps[0]);
      var w1 := Next(c, w, steps[0]);
      (if steps[0].ClaimStep? && w1.db.rows[id] != w.db.rows[id] then 1 else 0) + ClaimsOf(c, w1, steps[1..], id)
  }

  lemma ClaimSpends(c: Config, w: World, o: Owner, skip: set<Id>, id: Id)
    requires id in w.db.rows
    ensures id in Claim(c, w, o, skip).db.rows
    ensures Claim(c, w, o, skip).db.rows[id].attempts ==
            w.db.rows[id].attempts + (if Claim(c, w, o, skip).db.rows[id] != w.db.rows[id] then 1 else 0)
  {
  }

  lemma OthersSpendNothing(c: Config, w: World, s: Step, id: Id)
    requires TableOk(c, w) && id in w.db.rows && !s.ClaimStep?
    ensures id in Next(c, w, s).db.rows && Next(c, w, s).db.rows[id].attempts == w.db.rows[id].attempts
  {
    NextRows(c, w, s);
    match s
    case EnqueueStep(e) => RaiseSpendsNothing(c, w, e, id);
    case SettleStep(o) =>
    case FinishEscalationStep(o, ok) =>
    case _ =>
  }

  lemma RaiseSpendsNothing(c: Config, w: World, e: Event, id: Id)
    requires TableOk(c, w) && id in w.db.rows
    ensures id in Raise(c, w, e).db.rows && Raise(c, w, e).db.rows[id].attempts == w.db.rows[id].attempts
  {
    NextRows(c, w, EnqueueStep(e));
  }

  lemma OnlyClaimsSpendAttempts(c: Config, w: World, s: Step, id: Id)
    requires TableOk(c, w) && id in w.db.rows
    ensures id in Next(c, w, s).db.rows
    ensures Next(c, w, s).db.rows[id].attempts ==
            w.db.rows[id].attempts + (if s.ClaimStep? && Next(c, w, s).db.rows[id] != w.db.rows[id] then 1 else 0)
  {
    if s.ClaimStep? {
      ClaimSpends(c, w, s.o, s.skip, id);
    } else {
      OthersSpendNothing(c, w, s, id);
    }
  }

  /** Every claim strictly uses up `maxAttempts - attempts`, so a run claims a row at most that often. */
  lemma {:induction false} ClaimsAreBounded(c: Config, w: World, steps: seq<Step>, id: Id)
    requires Inv(c, w) && id in w.db.rows
    ensures ClaimsOf(c, w, steps, id) <= c.maxAttempts - w.db.rows[id].attempts
    ensures id in Run(c, w, steps).db.rows
    ensures Run(c, w, steps).db.rows[id].attempts == w.db.rows[id].attempts + ClaimsOf(c, w, steps, id)
    decreases steps
  {
    if steps != [] {
      NextKeepsInv(c, w, steps[0]);
      OnlyClaimsSpendAttempts(c, w, steps[0], id);
      ClaimsAreBounded(c, Next(c, w, steps[0]), steps[1..], id);
    }
  }

  /**
   A repeat is merged into the pending row without touching its severity column, so a critical event
   merged into an info or warning row is never escalated, however long it stays undelivered.
   */
  lemma MinorRowNeverEscalates(c: Config, w: World, steps: seq<Step>, id: Id)
    requires Inv(c, w) && id in w.db.rows && !w.db.rows[id].severity.Critical?
    ensures id in Run(c, w, steps).db.rows && Run(c, w, steps).db.rows[id].escalatedAt.None?
  {
    RunKeepsInv(c, w, steps);
    RunRetains(c, w, steps);
  }
}
