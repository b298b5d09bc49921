/**
 No row can get stuck. From every reachable world, one idle dispatcher and the passing of time are
 enough to settle any pending row and to escalate any critical row that needs it, whatever other
 dispatchers left behind when they crashed. Each lemma returns the schedule it claims to exist.
 */
module OutboxProgress {
  import opened Common
  import opened OutboxTable
  import opened OutboxProtocol
  import opened OutboxSafety

  /** The schedule touches the world only through dispatcher `o`, the sweep and the clock. */
  predicate SoloBy(steps: seq<Step>, o: Owner) {
    forall s | s in steps ::
      match s
      case ClaimStep(p, _) => p == o
      case DeliverStep(p, _) => p == o
      case SettleStep(p) => p == o
      case ClaimEscalationStep(p, _) => p == o
      case FinishEscalationStep(p, _) => p == o
      case SweepStep => true
      case TickStep(_) => true
      case EnqueueStep(_) => false
      case CrashStep(_) => false
  }

  lemma SoloTail(steps: seq<Step>, o: Owner)
    requires SoloBy(steps, o) && steps != []
    ensures SoloBy(steps[1..], o) && SoloBy([steps[0]], o)
  {
    forall s | s in steps[1..] ensures s in steps {}
    assert steps[0] in steps;
  }

  lemma Run3(c: Config, w: World, a: Step, b: Step, d: Step)
    ensures Run(c, w, [a, b, d]) == Next(c, Next(c, Next(c, w, a), b), d)
  {
    var w1 := Next(c, w, a);
    var w2 := Next(c, w1, b);
    assert [a, b, d][1..] == [b, d] && [b, d][1..] == [d] && [d][1..] == [];
    assert Run(c, w2, [d]) == Next(c, w2, d);
  }

  /** Claim the first due row, send it, record it: exactly that row leaves the due set. */
  lemma DeliverFirst(c: Config, w: World, o: Owner)
    requires ProcOf(w, o).Idle?
    requires Due(w.db.rows, c.maxAttempts, {}, w.now) != {}
    ensures var id := First(w.db.rows, Due(w.db.rows, c.maxAttempts, {}, w.now));
            var v := Run(c, w, [ClaimStep(o, {}), DeliverStep(o, true), SettleStep(o)]);
            && v.db.rows.Keys == w.db.rows.Keys && v.now == w.now && ProcOf(v, o).Idle?
            && v.db.rows[id].state.Delivered?
            && (forall j | j in w.db.rows && j != id :: v.db.rows[j] == w.db.rows[j])
  {
    Run3(c, w, ClaimStep(o, {}), DeliverStep(o, true), SettleStep(o));
    var id := First(w.db.rows, Due(w.db.rows, c.maxAttempts, {}, w.now));
    var w1 := Claim(c, w, o, {});
    assert w1.procs[o] == Claimed(id, w.db.rows[id].attempts + 1, w.now + c.leaseMs);
    assert HeldBy(Send(w1, o, true).db.rows, id, o);
  }

  /** A due row is delivered once the due rows that rank before it are. */
  lemma {:induction false} DueRowCanDeliver(c: Config, w: World, id: Id, o: Owner) returns (steps: seq<Step>)
    requires ProcOf(w, o).Idle? && id in Due(w.db.rows, c.maxAttempts, {}, w.now)
    ensures SoloBy(steps, o)
    ensures id in Run(c, w, steps).db.rows && Run(c, w, steps).db.rows[id].state.Delivered?
    decreases |Due(w.db.rows, c.maxAttempts, {}, w.now)|
  {
    var due := Due(w.db.rows, c.maxAttempts, {}, w.now);
    var f := First(w.db.rows, due);
    steps := [ClaimStep(o, {}), DeliverStep(o, true), SettleStep(o)];
    DeliverFirst(c, w, o);
    if f != id {
      var v := Run(c, w, steps);
      assert Due(v.db.rows, c.maxAttempts, {}, v.now) == due - {f};
      var rest := DueRowCanDeliver(c, v, id, o);
      RunConcat(c, w, steps, rest);
      steps := steps + rest;
    }
  }

  /** A pending row past its backoff and lease has exactly one way on: a claim, or the dead-letter sweep. */
  lemma LapsedRowHasOneWayOn(c: Config, w: World, id: Id)
    requires id in w.db.rows && w.db.rows[id].state.Pending?
    requires w.db.rows[id].nextAttemptAt <= w.now && LeaseLapsed(w.db.rows[id], w.now)
    ensures id in Due(w.db.rows, c.maxAttempts, {}, w.now) <==> id !in ExhaustedIds(w.db.rows, c.maxAttempts, w.now)
  {
  }

  /** Time after which neither the backoff nor the lease of the row is in the way. */
  function QuietTime(r: Row): nat {
    Max(0, Max(r.nextAttemptAt, r.leaseExpiresAt.GetOr(0) + 1))
  }

  /** Every pending row can be settled, however its lease, backoff and attempts stand. */
  lemma PendingRowCanAlwaysSettle(c: Config, w: World, id: Id, o: Owner) returns (steps: seq<Step>)
    requires Inv(c, w) && ProcOf(w, o).Idle? && id in w.db.rows && w.db.rows[id].state.Pending?
    ensures SoloBy(steps, o)
    ensures id in Run(c, w, steps).db.rows
    ensures Run(c, w, steps).db.rows[id].state
            == if w.db.rows[id].attempts < c.maxAttempts then Delivered else DeadLetter
  {
    var tick := TickStep(QuietTime(w.db.rows[id]));
    var w1 := Next(c, w, tick);
    assert LeaseLapsed(w1.db.rows[id], w1.now);
    var rest := [SweepStep];
    if w.db.rows[id].attempts < c.maxAttempts {
      rest := DueRowCanDeliver(c, w1, id, o);
    } else {
      assert Run(c, w1, [SweepStep]) == Next(c, w1, SweepStep);
    }
    steps := [tick] + rest;
    assert steps[1..] == rest;
  }

  // ---------------------------------------------------------------- whatever the webhook answers

  /** One claim, one send with the given answer, one recorded outcome. */
  function Round(o: Owner, ok: bool): seq<Step> { [ClaimStep(o, {}), DeliverStep(o, ok), SettleStep(o)] }

  /** The first due row spends an attempt and is delivered, retried or dead-lettered; no other row changes. */
  lemma TryFirst(c: Config, w: World, o: Owner, ok: bool)
    requires ProcOf(w, o).Idle? && Due(w.db.rows, c.maxAttempts, {}, w.now) != {}
    ensures var id := First(w.db.rows, Due(w.db.rows, c.maxAttempts, {}, w.now));
            var v := Run(c, w, Round(o, ok));
            && v.db.rows.Keys == w.db.rows.Keys && v.now == w.now && ProcOf(v, o).Idle?
            && v.db.rows[id].attempts == w.db.rows[id].attempts + 1
            && v.db.rows[id].state == (if ok then Delivered
                                       else if v.db.rows[id].attempts >= c.maxAttempts then DeadLetter else Pending)
            && (forall j | j in w.db.rows && j != id :: v.db.rows[j] == w.db.rows[j])
  {
    Run3(c, w, ClaimStep(o, {}), DeliverStep(o, ok), SettleStep(o));
    var id := First(w.db.rows, Due(w.db.rows, c.maxAttempts, {}, w.now));
    var w1 := Claim(c, w, o, {});
    assert w1.procs[o] == Claimed(id, w.db.rows[id].attempts + 1, w.now + c.leaseMs);
    assert HeldBy(Send(w1, o, ok).db.rows, id, o);
  }

  /** The attempts that pending rows have left. */
  function Unspent(c: Config, rows: map<Id, Row>): set<(Id, nat)> {
    set id, a: nat | id in rows && rows[id].state.Pending? && rows[id].attempts <= a < c.maxAttempts :: (id, a)
  }

  lemma TryFirstSpends(c: Config, w: World, o: Owner, ok: bool)
    requires ProcOf(w, o).Idle? && Due(w.db.rows, c.maxAttempts, {}, w.now) != {}
    ensures Unspent(c, Run(c, w, Round(o, ok)).db.rows) < Unspent(c, w.db.rows)
  {
    TryFirst(c, w, o, ok);
    var id := First(w.db.rows, Due(w.db.rows, c.maxAttempts, {}, w.now));
    var v := Run(c, w, Round(o, ok));
    forall x | x in Unspent(c, v.db.rows) ensures x in Unspent(c, w.db.rows) {
      assert x.0 in w.db.rows;
    }
    assert (id, w.db.rows[id].attempts) in Unspent(c, w.db.rows);
    assert (id, w.db.rows[id].attempts) !in Unspent(c, v.db.rows);
  }

  lemma {:induction false} QuietForAll(rows: map<Id, Row>) returns (q: nat)
    ensures forall id | id in rows :: QuietTime(rows[id]) <= q
    decreases |rows|
  {
    if rows == map[] {
      q := 0;
    } else {
      var id :| id in rows;
      var rest := rows - {id};
      assert rows.Keys == rest.Keys + {id};
      var r := QuietForAll(rest);
      q := Max(r, QuietTime(rows[id]));
      forall j | j in rows ensures QuietTime(rows[j]) <= q {
        if j != id { assert j in rest && rest[j] == rows[j]; }
      }
    }
  }

  /** The webhook's answers in the order they came. */
  function Answers(steps: seq<Step>): seq<bool> {
    if steps == [] then [] else (if steps[0].DeliverStep? then [steps[0].ok] else []) + Answers(steps[1..])
  }

  lemma {:induction false} AnswersConcat(a: seq<Step>, b: seq<Step>)
    ensures Answers(a + b) == Answers(a) + Answers(b)
    decreases a
  {
    if a == [] {
      assert a + b == b;
    } else {
      AnswersConcat(a[1..], b);
      var first: seq<bool> := if a[0].DeliverStep? then [a[0].ok] else [];
      assert (a + b)[0] == a[0] && (a + b)[1..] == a[1..] + b;
      assert first + (Answers(a[1..]) + Answers(b)) == (first + Answers(a[1..])) + Answers(b);
    }
  }

  lemma RoundAnswers(o: Owner, ok: bool, q: nat)
    ensures Answers([TickStep(q)] + Round(o, ok)) == [ok]
  {
    var s := [TickStep(q), ClaimStep(o, {}), DeliverStep(o, ok), SettleStep(o)];
    assert [TickStep(q)] + Round(o, ok) == s;
    assert s[1..] == Round(o, ok) && Round(o, ok)[1..] == [DeliverStep(o, ok), SettleStep(o)];
    assert [DeliverStep(o, ok), SettleStep(o)][1..] == [SettleStep(o)] && [SettleStep(o)][1..] == [];
    assert Answers([SettleStep(o)]) == [];
    assert Answers([DeliverStep(o, ok), SettleStep(o)]) == [ok];
  }

  lemma SweepSettles(c: Config, w: World)
    requires forall id | id in w.db.rows :: LeaseLapsed(w.db.rows[id], w.now) && w.db.rows[id].nextAttemptAt <= w.now
    requires Due(w.db.rows, c.maxAttempts, {}, w.now) == {}
    ensures NonePending(Next(c, w, SweepStep).db.rows)
  {
    forall id | id in w.db.rows && w.db.rows[id].state.Pending? ensures Exhausted(w.db.rows[id], c.maxAttempts, w.now) {
      LapsedRowHasOneWayOn(c, w, id);
    }
  }

  /** A schedule of one dispatcher, with the webhook's answers in order, after which no row is pending. */
  ghost predicate Settles(c: Config, w: World, o: Owner, answers: nat -> bool, k: nat, steps: seq<Step>) {
    && SoloBy(steps, o)
    && |Answers(steps)| <= |Unspent(c, w.db.rows)|
    && (forall i | 0 <= i < |Answers(steps)| :: Answers(steps)[i] == answers(k + i))
    && Run(c, w, steps).db.rows.Keys == w.db.rows.Keys
    && NonePending(Run(c, w, steps).db.rows)
  }

  predicate NonePending(rows: map<Id, Row>) { forall id | id in rows :: !rows[id].state.Pending? }

  /**
   Whatever the webhook answers, one dispatcher that keeps taking the first due row settles the whole
   table: every row ends delivered or dead-lettered, within as many sends as pending rows had attempts left.
   */
  lemma {:induction false} SettlesWhateverTheAnswers(c: Config, w: World, o: Owner, answers: nat -> bool, k: nat)
    returns (steps: seq<Step>)
    requires ProcOf(w, o).Idle?
    ensures Settles(c, w, o, answers, k, steps)
    decreases |Unspent(c, w.db.rows)|
  {
    var q := QuietForAll(w.db.rows);
    if Due(w.db.rows, c.maxAttempts, {}, w.now + q) == {} {
      steps := [TickStep(q), SweepStep];
      NothingLeft(c, w, o, answers, k, q);
    } else {
      RoundSpends(c, w, o, answers(k), q);
      var v := Run(c, Next(c, w, TickStep(q)), Round(o, answers(k)));
      var rest := SettlesWhateverTheAnswers(c, v, o, answers, k + 1);
      steps := [TickStep(q)] + Round(o, answers(k)) + rest;
      OneRoundMore(c, w, o, answers, k, q, rest);
    }
  }

  lemma NothingLeft(c: Config, w: World, o: Owner, answers: nat -> bool, k: nat, q: nat)
    requires forall id | id in w.db.rows :: QuietTime(w.db.rows[id]) <= q
    requires Due(w.db.rows, c.maxAttempts, {}, w.now + q) == {}
    ensures Settles(c, w, o, answers, k, [TickStep(q), SweepStep])
  {
    var steps, w1 := [TickStep(q), SweepStep], Next(c, w, TickStep(q));
    forall id | id in w1.db.rows ensures LeaseLapsed(w1.db.rows[id], w1.now) && w1.db.rows[id].nextAttemptAt <= w1.now {
      assert QuietTime(w.db.rows[id]) <= q;
    }
    assert steps[1..] == [SweepStep] && [SweepStep][1..] == [];
    assert Run(c, w1, [SweepStep]) == Next(c, w1, SweepStep);
    SweepSettles(c, w1);
    assert Answers([SweepStep]) == [];
    assert Answers(steps) == [];
  }

  lemma OneRoundMore(c: Config, w: World, o: Owner, answers: nat -> bool, k: nat, q: nat, rest: seq<Step>)
    requires ProcOf(w, o).Idle? && Due(w.db.rows, c.maxAttempts, {}, w.now + q) != {}
    requires Settles(c, Run(c, Next(c, w, TickStep(q)), Round(o, answers(k))), o, answers, k + 1, rest)
    ensures Settles(c, w, o, answers, k, [TickStep(q)] + Round(o, answers(k)) + rest)
  {
    var first := [TickStep(q)] + Round(o, answers(k));
    RoundSpends(c, w, o, answers(k), q);
    RunConcat(c, w, first, rest);
    AnswersOneMore(o, answers, k, q, rest);
    SoloConcat(first, rest, o);
  }

  lemma RoundSpends(c: Config, w: World, o: Owner, ok: bool, q: nat)
    requires ProcOf(w, o).Idle? && Due(w.db.rows, c.maxAttempts, {}, w.now + q) != {}
    ensures var first, v := [TickStep(q)] + Round(o, ok), Run(c, Next(c, w, TickStep(q)), Round(o, ok));
            && Run(c, w, first) == v && v.db.rows.Keys == w.db.rows.Keys && ProcOf(v, o).Idle?
            && |Unspent(c, v.db.rows)| < |Unspent(c, w.db.rows)|
  {
    var first, w1 := [TickStep(q)] + Round(o, ok), Next(c, w, TickStep(q));
    assert first[1..] == Round(o, ok);
    TryFirst(c, w1, o, ok);
    TryFirstSpends(c, w1, o, ok);
    StrictlySmaller(Unspent(c, Run(c, w1, Round(o, ok)).db.rows), Unspent(c, w.db.rows));
  }

  lemma AnswersOneMore(o: Owner, answers: nat -> bool, k: nat, q: nat, rest: seq<Step>)
    requires forall i | 0 <= i < |Answers(rest)| :: Answers(rest)[i] == answers(k + 1 + i)
    ensures var all := Answers([TickStep(q)] + Round(o, answers(k)) + rest);
            |all| == |Answers(rest)| + 1 && forall i | 0 <= i < |all| :: all[i] == answers(k + i)
  {
    var first := [TickStep(q)] + Round(o, answers(k));
    AnswersConcat(first, rest);
    RoundAnswers(o, answers(k), q);
    var all := Answers(first + rest);
    forall i | 0 <= i < |all| ensures all[i] == answers(k + i) {
      if i > 0 { assert all[i] == Answers(rest)[i - 1]; }
    }
  }

  lemma SoloConcat(a: seq<Step>, b: seq<Step>, o: Owner)
    requires SoloBy(a, o) && SoloBy(b, o)
    ensures SoloBy(a + b, o)
  {
  }

  lemma StrictlySmaller<T>(a: set<T>, b: set<T>)
    requires a < b
    ensures |a| < |b|
  {
    assert b == a + (b - a);
    assert b - a != {};
  }

  lemma EscalateFirst(c: Config, w: World, o: Owner)
    requires ProcOf(w, o).Idle? && ToEscalate(w.db.rows, c.escalateAfterMs, {}, w.now) != {}
    ensures var id := Least(ToEscalate(w.db.rows, c.escalateAfterMs, {}, w.now));
            var v := Run(c, w, [ClaimEscalationStep(o, {}), FinishEscalationStep(o, true)]);
            && v.db.rows.Keys == w.db.rows.Keys && v.now == w.now && ProcOf(v, o).Idle?
            && v.db.rows[id].escalatedAt.Some? && v.db.rows[id].state == w.db.rows[id].state
            && (forall j | j in w.db.rows && j != id :: v.db.rows[j] == w.db.rows[j])
  {
    var a, b := ClaimEscalationStep(o, {}), FinishEscalationStep(o, true);
    var w1 := Next(c, w, a);
    assert [a, b][1..] == [b] && [b][1..] == [];
    assert Run(c, w1, [b]) == Next(c, w1, b);
    var id := Least(ToEscalate(w.db.rows, c.escalateAfterMs, {}, w.now));
    assert w1.procs[o] == Escalating(id, ReasonOf(w.db.rows[id]));
  }

  lemma {:induction false} EscalatableRowEscalates(c: Config, w: World, id: Id, o: Owner) returns (steps: seq<Step>)
    requires ProcOf(w, o).Idle? && id in ToEscalate(w.db.rows, c.escalateAfterMs, {}, w.now)
    ensures SoloBy(steps, o)
    ensures id in Run(c, w, steps).db.rows && Run(c, w, steps).db.rows[id].escalatedAt.Some?
    decreases |ToEscalate(w.db.rows, c.escalateAfterMs, {}, w.now)|
  {
    var waiting := ToEscalate(w.db.rows, c.escalateAfterMs, {}, w.now);
    var f := Least(waiting);
    steps := [ClaimEscalationStep(o, {}), FinishEscalationStep(o, true)];
    EscalateFirst(c, w, o);
    if f != id {
      var v := Run(c, w, steps);
      assert ToEscalate(v.db.rows, c.escalateAfterMs, {}, v.now) == waiting - {f};
      var rest := EscalatableRowEscalates(c, v, id, o);
      RunConcat(c, w, steps, rest);
      steps := steps + rest;
    }
  }

  /** Every undelivered, unescalated critical row can be escalated once its deadline has passed. */
  lemma CriticalRowCanAlwaysEscalate(c: Config, w: World, id: Id, o: Owner) returns (steps: seq<Step>)
    requires Inv(c, w) && ProcOf(w, o).Idle? && id in w.db.rows
    requires w.db.rows[id].severity.Critical? && !w.db.rows[id].state.Delivered? && w.db.rows[id].escalatedAt.None?
    ensures SoloBy(steps, o)
    ensures id in Run(c, w, steps).db.rows && Run(c, w, steps).db.rows[id].escalatedAt.Some?
  {
    var r := w.db.rows[id];
    var tick := TickStep(Max(0, Max(r.createdAt + c.escalateAfterMs, r.escalationNextAttemptAt.GetOr(0))));
    var w1 := Next(c, w, tick);
    assert Escalatable(w1.db.rows[id], c.escalateAfterMs, w1.now);
    var rest := EscalatableRowEscalates(c, w1, id, o);
    steps := [tick] + rest;
    assert steps[1..] == rest;
  }

  /**
   Exactly the rows whose severity column is critical can reach the duty owner. The column is written
   by the event that created the row, so a critical repeat of a minor pending row does not qualify.
   */
  lemma EscalationReachableIffCriticalColumn(c: Config, w: World, id: Id, o: Owner)
    requires Inv(c, w) && ProcOf(w, o).Idle? && id in w.db.rows
    requires !w.db.rows[id].state.Delivered? && w.db.rows[id].escalatedAt.None?
    ensures (exists steps: seq<Step> :: id in Run(c, w, steps).db.rows && Run(c, w, steps).db.rows[id].escalatedAt.Some?)
            <==> w.db.rows[id].severity.Critical?
  {
    if w.db.rows[id].severity.Critical? {
      var steps := CriticalRowCanAlwaysEscalate(c, w, id, o);
    } else {
      forall steps: seq<Step>
        ensures !(id in Run(c, w, steps).db.rows && Run(c, w, steps).db.rows[id].escalatedAt.Some?)
      {
        MinorRowNeverEscalates(c, w, steps, id);
      }
    }
  }

  /** A critical event merged into a pending row of lower severity: accepted, pending, and beyond escalation. */
  lemma CriticalRepeatOfMinorRowIsNotEscalated(c: Config, w: World, e: Event, steps: seq<Step>) returns (id: Id)
    requires Inv(c, w) && e.severity.Critical? && e.dedupKey != ""
    requires !InCooldown(w.db.rows, e.dedupKey, c.cooldownMs, w.now)
    requires HasPending(w.db.rows, e.dedupKey) && !w.db.rows[PendingId(w.db.rows, e.dedupKey)].severity.Critical?
    ensures Enqueue(w.db, e, c.cooldownMs, w.now).1 == Merged
    ensures var w1 := Next(c, w, EnqueueStep(e));
            && id in w1.db.rows && w1.db.rows[id].event == e && w1.db.rows[id].state.Pending?
            && id in Run(c, w1, steps).db.rows && Run(c, w1, steps).db.rows[id].escalatedAt.None?
  {
    id := PendingId(w.db.rows, e.dedupKey);
    NextKeepsInv(c, w, EnqueueStep(e));
    MinorRowNeverEscalates(c, Next(c, w, EnqueueStep(e)), steps, id);
  }
}
