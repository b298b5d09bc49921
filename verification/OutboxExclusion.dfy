/**
 When every claimed send settles before its lease expires, and no dispatcher dies between the
 webhook's acceptance and recording it, a row is never in flight twice and is accepted at most once.
 Both conditions are needed: without either one the protocol delivers at least once, not exactly once.
 */
module OutboxExclusion {
  import opened OutboxTable
  import opened OutboxProtocol
  import opened OutboxProgress

  ghost predicate TimelyStep(w: World, s: Step) {
    match s
    case TickStep(dt) => forall o | o in w.procs && InFlight(w.procs[o]) :: w.now + dt <= w.procs[o].until
    case CrashStep(o) => !(ProcOf(w, o).Tried? && ProcOf(w, o).ok)
    case _ => true
  }

  ghost predicate TimelyRun(c: Config, w: World, steps: seq<Step>)
    decreases steps
  {
    steps == [] || (TimelyStep(w, steps[0]) && TimelyRun(c, Next(c, w, steps[0]), steps[1..]))
  }

  /** Whoever is in flight still holds an unexpired lease on its row. */
  ghost predicate LeasesLive(w: World) {
    forall o | o in w.procs && InFlight(w.procs[o]) ::
      HeldBy(w.db.rows, w.procs[o].id, o) && w.now <= w.procs[o].until
  }

  /** Some dispatcher has a positive answer for `id` still to record. */
  ghost predicate ConfirmationPending(w: World, id: Id) {
    exists o | o in w.procs :: w.procs[o].Tried? && w.procs[o].ok && w.procs[o].id == id
  }

  ghost predicate AcceptedOnce(w: World) {
    forall id | Count(w.accepted, id) != 0 ::
      && Count(w.accepted, id) == 1
      && id in w.db.rows
      && (w.db.rows[id].state.Delivered? || ConfirmationPending(w, id))
  }

  /** At most one dispatcher is in flight on any row. */
  ghost predicate ExclusiveFlights(w: World) {
    forall o, p | o in w.procs && p in w.procs && InFlight(w.procs[o]) && InFlight(w.procs[p])
                  && w.procs[o].id == w.procs[p].id :: o == p
  }

  lemma LiveLeasesExclude(w: World)
    requires LeasesLive(w)
    ensures ExclusiveFlights(w)
  {
  }

  /** A row somebody is flying cannot be claimed or swept. */
  lemma FlownRowIsLeased(w: World, o: Owner)
    requires ProcsOk(w) && LeasesLive(w) && InFlight(ProcOf(w, o))
    ensures ProcOf(w, o).id in w.db.rows && !LeaseLapsed(w.db.rows[ProcOf(w, o).id], w.now)
  {
  }

  lemma ClaimKeepsLeasesLive(c: Config, w: World, o: Owner, skip: set<Id>)
    requires ProcsOk(w) && LeasesLive(w)
    ensures LeasesLive(Claim(c, w, o, skip))
  {
    var w' := Claim(c, w, o, skip);
    if w' != w {
      var id := w'.procs[o].id;
      forall p | p in w'.procs && InFlight(w'.procs[p])
        ensures HeldBy(w'.db.rows, w'.procs[p].id, p) && w'.now <= w'.procs[p].until
      {
        if p != o { FlownRowIsLeased(w, p); }
      }
    }
  }

  lemma SettleKeepsLeasesLive(c: Config, w: World, o: Owner)
    requires LeasesLive(w)
    ensures LeasesLive(Settle(c, w, o))
  {
    LiveLeasesExclude(w);
  }

  lemma SweepKeepsLeasesLive(c: Config, w: World)
    requires ProcsOk(w) && LeasesLive(w)
    ensures LeasesLive(Sweep(c, w))
  {
    forall p | p in w.procs && InFlight(w.procs[p])
      ensures HeldBy(Sweep(c, w).db.rows, w.procs[p].id, p)
    {
      FlownRowIsLeased(w, p);
    }
  }

  lemma EnqueueKeepsLeasesLive(c: Config, w: World, e: Event)
    requires TableOk(c, w) && LeasesLive(w)
    ensures LeasesLive(Next(c, w, EnqueueStep(e)))
  {
  }

  lemma EscalationKeepsLeasesLive(c: Config, w: World, s: Step)
    requires ProcsOk(w) && LeasesLive(w) && (s.ClaimEscalationStep? || s.FinishEscalationStep?)
    ensures LeasesLive(Next(c, w, s))
  {
  }

  lemma NextKeepsLeasesLive(c: Config, w: World, s: Step)
    requires ProcsOk(w) && TableOk(c, w) && LeasesLive(w) && TimelyStep(w, s)
    ensures LeasesLive(Next(c, w, s))
  {
    match s
    case SweepStep => SweepKeepsLeasesLive(c, w);
    case ClaimStep(o, skip) => ClaimKeepsLeasesLive(c, w, o, skip);
    case SettleStep(o) => SettleKeepsLeasesLive(c, w, o);
    case EnqueueStep(e) => EnqueueKeepsLeasesLive(c, w, e);
    case ClaimEscalationStep(_, _) => EscalationKeepsLeasesLive(c, w, s);
    case FinishEscalationStep(_, _) => EscalationKeepsLeasesLive(c, w, s);
    case _ =>
  }

  lemma ConfirmationMoves(w: World, w': World, id: Id)
    requires ConfirmationPending(w, id)
    requires forall o | o in w.procs && w.procs[o].Tried? && w.procs[o].ok :: o in w'.procs && w'.procs[o] == w.procs[o]
    ensures ConfirmationPending(w', id)
  {
  }

  /** Steps that record no outcome keep every pending confirmation. */
  lemma ConfirmationsStay(c: Config, w: World, s: Step)
    requires TimelyStep(w, s) && !s.SettleStep?
    ensures var w' := Next(c, w, s);
            forall o | o in w.procs && w.procs[o].Tried? && w.procs[o].ok :: o in w'.procs && w'.procs[o] == w.procs[o]
  {
  }

  lemma SendKeepsAcceptedOnce(w: World, o: Owner, ok: bool)
    requires LeasesLive(w) && AcceptedOnce(w)
    ensures AcceptedOnce(Send(w, o, ok))
  {
    var w' := Send(w, o, ok);
    LiveLeasesExclude(w);
    forall id | Count(w'.accepted, id) != 0
      ensures Count(w'.accepted, id) == 1 && id in w'.db.rows
      ensures w'.db.rows[id].state.Delivered? || ConfirmationPending(w', id)
    {
      if ProcOf(w, o).Claimed? && ok && id == ProcOf(w, o).id {
        assert w'.procs[o].Tried? && w'.procs[o].ok;
      } else if ConfirmationPending(w, id) {
        ConfirmationMoves(w, w', id);
      }
    }
  }

  lemma SettleKeepsAcceptedOnce(c: Config, w: World, o: Owner)
    requires LeasesLive(w) && AcceptedOnce(w)
    ensures AcceptedOnce(Settle(c, w, o))
  {
    var w' := Settle(c, w, o);
    LiveLeasesExclude(w);
    forall id | Count(w'.accepted, id) != 0
      ensures Count(w'.accepted, id) == 1 && id in w'.db.rows
      ensures w'.db.rows[id].state.Delivered? || ConfirmationPending(w', id)
    {
      if !w.db.rows[id].state.Delivered? {
        var p :| p in w.procs && w.procs[p].Tried? && w.procs[p].ok && w.procs[p].id == id;
        if p != o { assert w'.procs[p] == w.procs[p]; }
      }
    }
  }

  lemma NextKeepsAcceptedOnce(c: Config, w: World, s: Step)
    requires TableOk(c, w) && LeasesLive(w) && AcceptedOnce(w) && TimelyStep(w, s)
    ensures AcceptedOnce(Next(c, w, s))
  {
    if s.DeliverStep? {
      SendKeepsAcceptedOnce(w, s.o, s.ok);
    } else if s.SettleStep? {
      SettleKeepsAcceptedOnce(c, w, s.o);
    } else {
      var w' := Next(c, w, s);
      NextRows(c, w, s);
      ConfirmationsStay(c, w, s);
      assert w'.accepted == w.accepted;
      forall id | Count(w'.accepted, id) != 0 && !w.db.rows[id].state.Delivered? ensures ConfirmationPending(w', id) {
        ConfirmationMoves(w, w', id);
      }
    }
  }

  lemma {:induction false} TimelyRunKeeps(c: Config, w: World, steps: seq<Step>)
    requires Inv(c, w) && LeasesLive(w) && AcceptedOnce(w) && TimelyRun(c, w, steps)
    ensures LeasesLive(Run(c, w, steps)) && AcceptedOnce(Run(c, w, steps))
    decreases steps
  {
    if steps != [] {
      NextKeepsInv(c, w, steps[0]);
      NextKeepsLeasesLive(c, w, steps[0]);
      NextKeepsAcceptedOnce(c, w, steps[0]);
      TimelyRunKeeps(c, Next(c, w, steps[0]), steps[1..]);
    }
  }

  /** Exactly-once under timely settlement: no row in flight at two dispatchers, no row accepted twice. */
  lemma TimelyRunsDeliverOnce(c: Config, w: World, steps: seq<Step>)
    requires Init(w) && TimelyRun(c, w, steps)
    ensures var v := Run(c, w, steps);
            ExclusiveFlights(v) && forall id :: Count(v.accepted, id) <= 1
  {
    InitInv(c, w);
    TimelyRunKeeps(c, w, steps);
    LiveLeasesExclude(Run(c, w, steps));
  }

  // ---------------------------------------------------------------- both conditions are necessary

  /** The row can be claimed again, now or later. */
  predicate Repeatable(c: Config, w: World, id: Id) {
    id in w.db.rows && w.db.rows[id].state.Pending? && w.db.rows[id].attempts < c.maxAttempts
  }

  predicate Flies(w: World, o: Owner, id: Id) { InFlight(ProcOf(w, o)) && ProcOf(w, o).id == id }

  lemma {:induction false} SoloKeepsOthers(c: Config, w: World, steps: seq<Step>, p: Owner, o: Owner)
    requires SoloBy(steps, p) && o != p
    ensures ProcOf(Run(c, w, steps), o) == ProcOf(w, o)
    decreases steps
  {
    if steps != [] {
      SoloTail(steps, p);
      assert steps[0] in [steps[0]];
      SoloKeepsOthers(c, Next(c, w, steps[0]), steps[1..], p, o);
    }
  }

  /** A row that is not repeatable is neither taken nor accepted again. */
  lemma {:induction false} NeverAgain(c: Config, w: World, steps: seq<Step>, p: Owner, id: Id)
    requires TableOk(c, w) && SoloBy(steps, p) && id in w.db.rows && !Repeatable(c, w, id) && !Flies(w, p, id)
    ensures var v := Run(c, w, steps); !Flies(v, p, id) && Count(v.accepted, id) == Count(w.accepted, id)
    decreases steps
  {
    if steps != [] {
      SoloTail(steps, p);
      assert steps[0] in [steps[0]];
      NextRows(c, w, steps[0]);
      NeverAgainStep(c, w, steps[0], p, id);
      NeverAgain(c, Next(c, w, steps[0]), steps[1..], p, id);
    }
  }

  lemma NeverAgainStep(c: Config, w: World, s: Step, p: Owner, id: Id)
    requires TableOk(c, w) && SoloBy([s], p) && id in w.db.rows && !Repeatable(c, w, id) && !Flies(w, p, id)
    ensures var v := Next(c, w, s);
            id in v.db.rows && !Repeatable(c, v, id) && !Flies(v, p, id) && Count(v.accepted, id) == Count(w.accepted, id)
  {
    assert s in [s];
    NextRows(c, w, s);
    if s.ClaimStep? && Claim(c, w, s.o, s.skip) != w {
      assert w.db.rows[Claim(c, w, s.o, s.skip).procs[s.o].id].attempts < c.maxAttempts;
    }
  }

  /** One dispatcher can take any due row, after delivering those that rank before it. */
  lemma {:induction false} DueRowCanBeFlown(c: Config, w: World, id: Id, p: Owner) returns (steps: seq<Step>)
    requires ProcOf(w, p).Idle? && id in Due(w.db.rows, c.maxAttempts, {}, w.now)
    ensures SoloBy(steps, p) && ProcOf(Run(c, w, steps), p).Claimed? && ProcOf(Run(c, w, steps), p).id == id
    decreases |Due(w.db.rows, c.maxAttempts, {}, w.now)|
  {
    var due := Due(w.db.rows, c.maxAttempts, {}, w.now);
    var f := First(w.db.rows, due);
    if f == id {
      steps := [ClaimStep(p, {})];
      assert Run(c, w, steps) == Next(c, w, steps[0]);
    } else {
      steps := [ClaimStep(p, {}), DeliverStep(p, true), SettleStep(p)];
      DeliverFirst(c, w, p);
      var v := Run(c, w, steps);
      assert Due(v.db.rows, c.maxAttempts, {}, v.now) == due - {f};
      var rest := DueRowCanBeFlown(c, v, id, p);
      RunConcat(c, w, steps, rest);
      steps := steps + rest;
    }
  }

  lemma RepeatableCanBeFlown(c: Config, w: World, id: Id, p: Owner) returns (steps: seq<Step>)
    requires Repeatable(c, w, id) && ProcOf(w, p).Idle?
    ensures SoloBy(steps, p) && Flies(Run(c, w, steps), p, id) && ProcOf(Run(c, w, steps), p).Claimed?
  {
    var tick := TickStep(QuietTime(w.db.rows[id]));
    var w1 := Next(c, w, tick);
    assert id in Due(w1.db.rows, c.maxAttempts, {}, w1.now);
    var rest := DueRowCanBeFlown(c, w1, id, p);
    steps := [tick] + rest;
    assert steps[1..] == rest;
  }

  /**
   A flight that may outlive its lease: from every reachable state another dispatcher, by itself, can
   come to fly the same row if and only if the row is pending and has attempts left.
   */
  lemma LateFlightRepeatsExactly(c: Config, w: World, o: Owner, p: Owner, id: Id)
    requires Inv(c, w) && o != p && Flies(w, o, id) && ProcOf(w, p).Idle?
    ensures (exists steps :: SoloBy(steps, p) && Flies(Run(c, w, steps), o, id) && Flies(Run(c, w, steps), p, id))
       <==> Repeatable(c, w, id)
  {
    if Repeatable(c, w, id) {
      var steps := RepeatableCanBeFlown(c, w, id, p);
      SoloKeepsOthers(c, w, steps, p, o);
    } else {
      forall steps | SoloBy(steps, p) ensures !Flies(Run(c, w, steps), p, id) {
        NeverAgain(c, w, steps, p, id);
      }
    }
  }

  /**
   A dispatcher that dies after the webhook accepted and before recording it: another dispatcher, by
   itself, can have the row accepted again if and only if it is pending and has attempts left.
   */
  lemma CrashAfterAcceptanceRepeatsExactly(c: Config, w: World, o: Owner, p: Owner, id: Id)
    requires Inv(c, w) && o != p && Flies(w, o, id) && ProcOf(w, o).Tried? && ProcOf(w, o).ok && ProcOf(w, p).Idle?
    ensures Count(w.accepted, id) >= 1
    ensures (exists steps :: SoloBy(steps, p)
                             && Count(Run(c, Next(c, w, CrashStep(o)), steps).accepted, id) > Count(w.accepted, id))
       <==> Repeatable(c, w, id)
  {
    var w1 := Next(c, w, CrashStep(o));
    if Repeatable(c, w, id) {
      var steps := RepeatableCanBeAccepted(c, w1, id, p);
    } else {
      forall steps | SoloBy(steps, p) ensures Count(Run(c, w1, steps).accepted, id) == Count(w.accepted, id) {
        NeverAgain(c, w1, steps, p, id);
      }
    }
  }

  lemma RepeatableCanBeAccepted(c: Config, w: World, id: Id, p: Owner) returns (steps: seq<Step>)
    requires Repeatable(c, w, id) && ProcOf(w, p).Idle?
    ensures SoloBy(steps, p) && Count(Run(c, w, steps).accepted, id) > Count(w.accepted, id)
  {
    var flown := RepeatableCanBeFlown(c, w, id, p);
    var v, send := Run(c, w, flown), [DeliverStep(p, true)];
    steps := flown + send;
    RunConcat(c, w, flown, send);
    assert send[1..] == [] && Run(c, v, send) == Next(c, v, send[0]);
    AcceptedGrow(c, w, flown, id);
  }

  lemma {:induction false} AcceptedGrow(c: Config, w: World, steps: seq<Step>, id: Id)
    ensures Count(Run(c, w, steps).accepted, id) >= Count(w.accepted, id)
    decreases steps
  {
    if steps != [] {
      AcceptedGrow(c, Next(c, w, steps[0]), steps[1..], id);
    }
  }
}
