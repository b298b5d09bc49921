/**
 The statements of the outbox by what they do to rows: stated on severities, ids, states and columns,
 beside the functions the protocol is built from.
 */
module OutboxStatements {
  import opened Common
  import opened OutboxTable
  import opened OutboxProtocol

  // ---------------------------------------------------------------- enqueue

  ghost predicate JustDelivered(rows: map<Id, Row>, key: string, cooldownMs: int, now: int) {
    exists id | id in rows ::
      && rows[id].dedupKey == key && rows[id].state == Delivered && rows[id].deliveredAt.Some?
      && (rows[id].deliveredAt.value > now || (cooldownMs > 0 && rows[id].deliveredAt.value > now - cooldownMs))
  }

  ghost predicate Waiting(rows: map<Id, Row>, key: string, id: Id) {
    id in rows && rows[id].dedupKey == key && rows[id].state == Pending
  }

  /**
   An event is refused without a key, suppressed after a recent delivery of its key, absorbed by the
   pending row of its key, and otherwise queued as a new row; each exactly then, with these columns.
   */
  lemma EnqueueExactly(db: Db, e: Event, cooldownMs: int, now: int)
    ensures var (after, r) := Enqueue(db, e, cooldownMs, now);
            && (r == Refused <==> e.dedupKey == "")
            && (r == Suppressed <==> e.dedupKey != "" && JustDelivered(db.rows, e.dedupKey, cooldownMs, now))
            && (r == Merged <==> && e.dedupKey != "" && !JustDelivered(db.rows, e.dedupKey, cooldownMs, now)
                                 && exists id :: Waiting(db.rows, e.dedupKey, id))
            && (r == Refused || r == Suppressed ==> after == db)
            && (r == Merged ==>
                  && after.nextId == db.nextId + 1
                  && exists id :: Waiting(db.rows, e.dedupKey, id) && after.rows == db.rows[id :=
                       db.rows[id].(occurrences := db.rows[id].occurrences + 1, lastSeenAt := now, event := e)])
            && (r == Queued ==>
                  && after.nextId == db.nextId + 1
                  && after.rows == db.rows[db.nextId := Row(
                       severity := e.severity, dedupKey := e.dedupKey, event := e, state := Pending, occurrences := 1,
                       attempts := 0, nextAttemptAt := now, leaseOwner := None, leaseExpiresAt := None, createdAt := now,
                       lastSeenAt := now, deliveredAt := None, deadLetteredAt := None, escalationAttempts := 0,
                       escalationNextAttemptAt := None, escalationReason := None, escalatedAt := None)])
  {
    assert JustDelivered(db.rows, e.dedupKey, cooldownMs, now) <==> InCooldown(db.rows, e.dedupKey, cooldownMs, now);
    if HasPending(db.rows, e.dedupKey) {
      assert Waiting(db.rows, e.dedupKey, PendingId(db.rows, e.dedupKey));
    }
    if id :| Waiting(db.rows, e.dedupKey, id) {
      assert PendingFor(db.rows[id], e.dedupKey);
    }
  }

  // ---------------------------------------------------------------- claims

  /** May be taken: waiting, with attempts left, past its backoff and nobody's. */
  predicate Free(r: Row, maxAttempts: nat, now: int) {
    && r.state == Pending && r.attempts < maxAttempts && r.nextAttemptAt <= now
    && (r.leaseExpiresAt.Some? ==> r.leaseExpiresAt.value < now)
  }

  /** Goes first: the more severe, and of one severity the older. */
  predicate GoesFirst(a: Row, i: Id, b: Row, j: Id) {
    || (a.severity == Critical && b.severity != Critical)
    || (a.severity == Warning && b.severity == Info)
    || (a.severity == b.severity && i < j)
  }

  lemma GoesFirstIsBefore(rows: map<Id, Row>, i: Id, j: Id)
    requires i in rows && j in rows
    ensures GoesFirst(rows[i], i, rows[j], j) <==> Before(rows, i, j)
  {
  }

  /**
   The claimed page. Only free rows outside the excluded ones are taken, once each, up to the limit, and
   all of them below it. Critical rows come before the others, warnings before infos, and the lower id
   before the higher: whatever goes before a row that was taken was taken, and earlier. A taken row is
   leased until the end of the lease and has spent one attempt; nothing else changes.
   */
  lemma ClaimedPage(db: Db, owner: Owner, leaseMs: int, limit: nat, maxAttempts: nat, skip: set<Id>, now: int)
    ensures var (after, ids) := ClaimDue(db, owner, leaseMs, limit, maxAttempts, skip, now);
            && |ids| <= limit
            && (forall id | id in ids :: id in db.rows && id !in skip && Free(db.rows[id], maxAttempts, now))
            && (forall i, j | 0 <= i < j < |ids| :: ids[i] != ids[j])
            && (|ids| < limit ==> forall id | id in db.rows && id !in skip && Free(db.rows[id], maxAttempts, now) :: id in ids)
    ensures var (after, ids) := ClaimDue(db, owner, leaseMs, limit, maxAttempts, skip, now);
            forall i, id | 0 <= i < |ids| && id in db.rows && id !in skip && Free(db.rows[id], maxAttempts, now)
                           && GoesFirst(db.rows[id], id, db.rows[ids[i]], ids[i]) :: id in ids[..i]
    ensures var (after, ids) := ClaimDue(db, owner, leaseMs, limit, maxAttempts, skip, now);
            && after.nextId == db.nextId && after.rows.Keys == db.rows.Keys
            && (forall id | id in db.rows && id !in ids :: after.rows[id] == db.rows[id])
            && (forall id | id in ids :: after.rows[id] == db.rows[id].(
                  leaseOwner := Some(owner), leaseExpiresAt := Some(now + leaseMs), attempts := db.rows[id].attempts + 1))
  {
    var due := Due(db.rows, maxAttempts, skip, now);
    var ids := FirstN(db.rows, due, limit);
    FirstNExact(db.rows, due, limit);
    if |ids| < limit {
      AllTaken(ids, due);
    }
    forall i, id | 0 <= i < |ids| && id in due && GoesFirst(db.rows[id], id, db.rows[ids[i]], ids[i])
      ensures id in ids[..i]
    {
      EarlierTaken(db.rows, due, ids, i, id);
    }
  }

  lemma AllTaken(ids: seq<Id>, due: set<Id>)
    requires |ids| == |due| && (forall id | id in ids :: id in due)
    requires forall i, j | 0 <= i < j < |ids| :: ids[i] != ids[j]
    ensures forall id | id in due :: id in ids
  {
    DistinctSize(ids);
    forall id | id in due ensures id in ids {
      if id !in ids { SubsetSize(Taken(ids) + {id}, due); }
    }
  }

  function Taken(ids: seq<Id>): set<Id> { set id | id in ids }

  lemma {:induction false} DistinctSize(ids: seq<Id>)
    requires forall i, j | 0 <= i < j < |ids| :: ids[i] != ids[j]
    ensures |Taken(ids)| == |ids|
    decreases ids
  {
    if ids != [] {
      var n := |ids| - 1;
      DistinctSize(ids[..n]);
      assert Taken(ids) == Taken(ids[..n]) + {ids[n]};
    }
  }

  lemma EarlierTaken(rows: map<Id, Row>, due: set<Id>, ids: seq<Id>, i: nat, id: Id)
    requires due <= rows.Keys && i < |ids| && id in due && (forall x | x in ids :: x in due)
    requires forall a, b | 0 <= a < b < |ids| :: Before(rows, ids[a], ids[b])
    requires forall x, y | x in ids && y in due && y !in ids :: Before(rows, x, y)
    requires GoesFirst(rows[id], id, rows[ids[i]], ids[i])
    ensures id in ids[..i]
  {
    GoesFirstIsBefore(rows, id, ids[i]);
    assert id in ids;
    var k :| 0 <= k < |ids| && ids[k] == id;
    assert k < i;
    assert ids[..i][k] == id;
  }

  // ---------------------------------------------------------------- backoff

  /**
   The delay starts at the base, doubles with every attempt up to the thirty-first, and never exceeds
   the maximum.
   */
  lemma BackoffExactly(attempt: nat, baseMs: nat, maxMs: nat)
    ensures attempt <= 1 ==> RetryDelay(attempt, baseMs, maxMs) == if baseMs <= maxMs then baseMs else maxMs
    ensures 1 <= attempt <= 30 ==>
              var twice := 2 * RetryDelay(attempt, baseMs, maxMs);
              RetryDelay(attempt + 1, baseMs, maxMs) == if twice <= maxMs then twice else maxMs
    ensures attempt >= 31 ==> RetryDelay(attempt + 1, baseMs, maxMs) == RetryDelay(31, baseMs, maxMs)
  {
    if 1 <= attempt <= 30 {
      assert Doubled(baseMs, attempt) == 2 * Doubled(baseMs, attempt - 1);
    }
  }
}
