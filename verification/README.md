# Cotsel verification

A Dafny model of the parts of the Cotsel settlement services whose correctness depends on more than
one call: the notification outbox and its dispatchers, the indexer's projection and checkpoint,
transaction finality, schema migrations, request admission, administrator authority, and two
parsers. Each component states what its operations keep over every run, and where a promise of the
code or its documentation does not hold, an input that shows it and the exact condition under which
it does.

`dafny verify dfyconfig.toml` checks every file.

## Components

**Outbox** (`OutboxTable`, `OutboxProtocol`, `OutboxSafety`, `OutboxProgress`, `OutboxExclusion`,
`OutboxDispatcher`, `OutboxStatements`). Every SQL statement is an atomic function on the table, and
`OutboxStatements` says what each does to severities, states and columns. `Next` interleaves
enqueues, sweeps, claims, webhook calls, recorded outcomes, escalations, crashes and the clock for
any number of dispatchers. `NotificationOutbox`, `Deployment` and `NotificationDispatcher` are the
imperative form: a drain pass runs between arbitrary steps of the other dispatchers and produces a
trace of the protocol.

**Indexer** (`IndexerCounters`, `IndexerProjection`, `IndexerBatch`, `IndexerConsistency`,
`IndexerLegality`, `IndexerHistory`, `IndexerOverview`, `IndexerCheckpoint`, `IndexerErrors`).
`RunBlocks` projects one log at a time straight into the store; `ProcessBatch` is the handler with its
caches. `IndexerLegality` speaks of the chain alone: which histories keep the overview counters right.
`IndexerHistory` tells every stored column by the last event that sets it, `IndexerOverview` the
counters by the stored trades. The checkpoint machine adds restarts with other decoders, quarantine,
resolution and rewind over a finalized chain.

**Finality** (`Finality`, `FinalityTheorems`, `FinalityMeaning`, `FinalityHistory`). The classifier and
the transition guard as functions, with the texts of agreement keys modelled down to their characters;
`FinalityMeaning` has the eight conditions on what the providers reported, one for each state.

**Migrations** (`Migrations`, `MigrationSafety`, `MigrationEffects`, `MigrationResumption`,
`MigrationRunner`). Runners with any valid manifests take turns under the advisory lock and may be cut off
after any statement. `Session` is what one undisturbed run does to the database, by which cut-off runs are judged.

**Admission** (`NonceStore`, `ServiceAuth`, `RateLimit`, `RateLimitRuns`). The in-memory nonce store
and the signed request middleware over it; counting windows, opened by the first request or aligned,
and the limiter over them with many callers and routes.

**Authority** (`Authority`, `AuthoritySafety`, `AuthorityEffects`, `AuthorityStore`). Two-person changes,
the trusted session exchange, wallet login, provisioning, deactivation and break-glass on one set of
tables; `AuthorityEffects` has the exact condition and the columns of each.

**Parsers** (`Der`, `DerGrammar`, `Iban`). DER elements, signatures and public keys, by a grammar of
what is accepted; the mod-97 check.

## What the code does not promise as its words suggest

- A critical repeat of a pending row of lower severity is accepted and never escalated: the severity
  column is the first event's. `OutboxProgress.EscalationReachableIffCriticalColumn` has the condition.
- A webhook call that outlives its lease, or a crash between acceptance and its record, can send a row
  twice: exactly if the row is pending with attempts left (`OutboxExclusion.LateFlightRepeatsExactly`,
  `OutboxExclusion.CrashAfterAcceptanceRepeatsExactly`). `OutboxExclusion.TimelyRunsDeliverOnce` has
  the condition under which neither happens.
- The `retried` count of a pass includes failed calls whose row was another dispatcher's by then, and an
  accepted call whose row was is in no count: `OutboxDispatcher.EverySendEndsOnce` counts it apart.
- An event of a trade that was cancelled makes the overview counters wrong or halts the batch, and so
  does a trade locked twice; over chains that are projected to their end these are the only ways:
  `IndexerLegality.CountersMatchExactly`. A rewind over committed blocks keeps event records single,
  but projecting a `TradeLocked` again always miscounts.
- The rewind command also goes forward, past logs nobody projected. It is safe exactly if no escrow
  log lies between the highest block ever committed and its target: `IndexerCheckpoint.RewindSafeExactly`,
  and over whole runs `IndexerCheckpoint.SafeThroughoutExactly`.
- A stored success is said to fall only through `unknown`. It falls through any position that is not final
  and is submitted, unknown, reverted or replaced (`FinalityHistory.FallsThroughExactly`), and the
  classifier answers `submitted` when no provider answers (`FinalityHistory.DepthFallsWithoutUnknown`).
- A migration run that stops between creating the ledger and adopting an existing schema leaves a
  database that no later run finishes; every other cut-off run is made good by the next one:
  `MigrationResumption.ResumesExactly`. A run that refuses may have committed migrations before:
  `MigrationResumption.RefusalLeavesLedgerExactly`.
- A nonce must be remembered for more than twice the allowed clock skew. The relayer's check of its
  settings asks for once, and its defaults are twice: `ServiceAuth.AdmittedTwiceExactly`.
- The session exchange says it never re-homes administrator authority; it moves an administrator
  profile whose account id is a placeholder (`AuthoritySafety.RehomesAdminExactly`). A deactivated
  administrator loses the role to one person's provisioning (`AuthoritySafety.CeasesAdminExactly`),
  and a wallet login writes the organization of an administrator profile
  (`AuthoritySafety.AdminOrganizationExactly`). An exchange for an administrator's account replaces its
  wallet without asking for the old one (`AuthoritySafety.AdminWalletExactly`).

## Model

| member | source | states |
|---|---|---|
| OutboxTable.FirstNExact | notifications/src/outbox.ts:163-195 | the claimed page is duplicate free, as long as the limit and the due rows allow, and no row left out ranks before one taken; `OutboxStatements.ClaimedPage` says it by severity and id |
| OutboxTable.ClaimOneIsLimitOne | notifications/src/dispatcher.ts:218-232 | the dispatcher's one-row claim is the claim statement with limit one |
| OutboxTable.LeastNExact | notifications/src/outbox.ts:275-313 | the escalations taken are the lowest ids, ascending, as many as the limit and the waiting rows allow |
| OutboxTable.ClaimEscalationIsLimitOne | notifications/src/dispatcher.ts:301-352 | the dispatcher's one-row escalation is the claim statement with limit one |
| OutboxStatements.EnqueueExactly | notifications/src/outbox.ts:116-152 | refused, suppressed, merged or queued, each exactly under its condition on keys, states and delivery times, with every column written |
| OutboxStatements.ClaimedPage | notifications/src/outbox.ts:163-195 | only free rows, all of them below the limit; critical before the others, warnings before infos, lower ids first: whatever goes before a taken row was taken, and earlier; a taken row is leased and has spent one attempt, and nothing else changes |
| OutboxStatements.BackoffExactly | notifications/src/dispatcher.ts:80-83 | the delay is the base at first, doubles up to the thirty-first attempt, and is capped |
| OutboxProtocol.NextKeepsInv | notifications/src/outbox.ts:116-332 | every step of any process keeps one pending row per key, cooldown between same-key rows, sends within paid attempts, leases consistent with claims, and only critical rows escalated |
| OutboxProtocol.RunKeepsInv | notifications/src/outbox.ts:116-332 | the same over every interleaving |
| OutboxProtocol.DeliveriesOnlyFromSettling | notifications/src/outbox.ts:198-208 | no step but recording an outcome makes a row delivered |
| OutboxSafety.SafeOverEveryRun | notifications/src/outbox.ts:116-265 | from an empty table: at most one pending row per key, sends per row within maxAttempts, delivered rows were accepted by the webhook |
| OutboxSafety.RunRetains | notifications/src/outbox.ts:116-332 | no run deletes, re-keys or reopens a row |
| OutboxSafety.SettledRowsNeverChange | notifications/src/outbox.ts:198-265 | delivered and dead-lettered are absorbing, with the row's payload, attempts and timestamps |
| OutboxSafety.DeliveredOnlyUnderTheFence | notifications/src/outbox.ts:198-208 | a row becomes delivered if and only if the dispatcher still named in its lease records an accepted call |
| OutboxSafety.LostLeaseSettlesNothing | notifications/src/dispatcher.ts:252-299 | whatever the webhook answered, a dispatcher that lost its lease changes no row |
| OutboxSafety.AcceptedEventKeepsItsRow | notifications/src/outbox.ts:116-152 | an accepted event has a pending row carrying it, and the row survives every later run |
| OutboxSafety.EnqueueAnswer | notifications/src/outbox.ts:116-152 | suppressed, merged or queued, decided exactly by cooldown and pending row, with what each does to the table |
| OutboxSafety.OnlyClaimsSpendAttempts | notifications/src/outbox.ts:163-195 | attempts rise by one in a claim that takes the row and in no other step |
| OutboxSafety.ClaimsAreBounded | notifications/src/outbox.ts:163-195 | over a run a row is claimed exactly as often as its attempts rise, at most maxAttempts minus attempts times |
| OutboxSafety.MinorRowNeverEscalates | notifications/src/outbox.ts:275-313 | a row whose severity column is not critical is escalated in no run |
| OutboxProgress.DueRowCanDeliver | notifications/src/dispatcher.ts:197-236 | one dispatcher alone can deliver any due row, after the rows that rank before it |
| OutboxProgress.PendingRowCanAlwaysSettle | notifications/src/dispatcher.ts:197-236 | from every reachable state one dispatcher alone can settle any pending row: delivered while attempts remain, dead-lettered otherwise |
| OutboxProgress.SettlesWhateverTheAnswers | notifications/src/dispatcher.ts:197-299 | whatever sequence of answers the webhook gives, one dispatcher alone settles the whole table, within as many sends as pending rows had attempts left |
| OutboxProgress.CriticalRowCanAlwaysEscalate | notifications/src/dispatcher.ts:301-352 | every undelivered, unescalated critical row can be escalated |
| OutboxProgress.EscalationReachableIffCriticalColumn | notifications/src/outbox.ts:275-313 | some run escalates the row if and only if its severity column is critical |
| OutboxProgress.CriticalRepeatOfMinorRowIsNotEscalated | notifications/src/outbox.ts:116-152 | a critical event merged into a lesser row is accepted and beyond escalation in every run |
| OutboxExclusion.TimelyRunKeeps | notifications/src/outbox.ts:163-208 | runs whose sends settle before their lease keep every flight under a live lease and at most one acceptance per row |
| OutboxExclusion.TimelyRunsDeliverOnce | notifications/src/dispatcher.ts:252-299 | from an empty table such runs never fly a row twice at once and never have it accepted twice |
| OutboxExclusion.LateFlightRepeatsExactly | notifications/src/outbox.ts:163-195 | from every reachable state with a row in flight, another dispatcher alone can come to fly it too if and only if it is pending with attempts left |
| OutboxExclusion.CrashAfterAcceptanceRepeatsExactly | notifications/src/dispatcher.ts:252-299 | after a crash between acceptance and its record, another dispatcher alone can have the row accepted again if and only if it is pending with attempts left |
| OutboxDispatcher.NotificationOutbox.Enqueue | notifications/src/outbox.ts:116-152 | table and answer equal the enqueue function |
| OutboxDispatcher.NotificationOutbox.ClaimDue | notifications/src/outbox.ts:163-195 | the loop that picks and leases rows computes the page of `OutboxStatements.ClaimedPage` |
| OutboxDispatcher.NotificationOutbox.MarkDelivered | notifications/src/outbox.ts:198-208 | changes the row if and only if the caller still holds it; then no claim and no sweep takes it at any later time, and no other row changed |
| OutboxDispatcher.NotificationOutbox.MarkFailed | notifications/src/outbox.ts:214-241 | changes the row if and only if the caller still holds it; then it can be claimed exactly from the end of the backoff on while attempts remain, never again otherwise, and its attempts stand |
| OutboxDispatcher.NotificationOutbox.DeadLetterExhausted | notifications/src/outbox.ts:250-265 | the sweep buries exactly the waiting rows without attempts and without a live lease, with these columns, and counts them |
| OutboxDispatcher.NotificationOutbox.ClaimEscalations | notifications/src/outbox.ts:275-313 | the loop takes the lowest escalatable rows up to the limit, postponed, each with the reason of its state |
| OutboxDispatcher.NotificationOutbox.MarkEscalated | notifications/src/outbox.ts:315-322 | afterwards the row is escalatable at no time and with no delay, and no row became or ceased to be claimable; a second call changes nothing |
| OutboxDispatcher.NotificationOutbox.MarkEscalationFailed | notifications/src/outbox.ts:324-332 | the row is escalatable exactly from the end of the delay on, if it still needs the duty owner then; no row became or ceased to be claimable |
| OutboxDispatcher.NotificationOutbox.Stats | notifications/src/outbox.ts:335-362 | the counts are the sizes of the sets they name, the age is that of the oldest pending row, and an empty escalation backlog leaves nothing to claim |
| OutboxDispatcher.NotificationDispatcher.DeliverClaimed | notifications/src/dispatcher.ts:252-299 | one send with the answer the webhook gave and one recorded outcome, between any steps of others; the summary field that rises, or the loss, is how the outcome left the row |
| OutboxDispatcher.NotificationDispatcher.Record | notifications/src/dispatcher.ts:252-299 | the outcome recorded for a send is read off the row before and after, and exactly that kind is counted |
| OutboxDispatcher.NotificationDispatcher.DrainRows | notifications/src/dispatcher.ts:218-232 | along its trace each attempted row is taken, sent and settled once, in turn, at most batchSize of them; it stops only at the limit or when every due row was attempted or is locked at that statement; every summary field is the number of deeds of its kind |
| OutboxDispatcher.NotificationDispatcher.Escalate | notifications/src/dispatcher.ts:301-352 | along its trace each paged row is taken and paged once, counted as escalated or failed by the answer it got, until none is left that nobody locks |
| OutboxDispatcher.NotificationDispatcher.Drain | notifications/src/dispatcher.ts:197-236 | sweep, sends and pages of one pass are a run of the protocol; every summary field is the number of deeds of its kind along the trace, the swept rows among the dead letters; a pass that stops below its limit left nothing due and nothing to escalate that was not attempted or locked |
| OutboxDispatcher.EverySendEndsOnce | notifications/src/dispatcher.ts:252-299 | every attempted row is in exactly one of delivered, retried, dead-lettered and lost |
| OutboxDispatcher.EveryPageEndsOnce | notifications/src/dispatcher.ts:301-352 | every paged row is in exactly one of escalated and failed |
| IndexerCounters.SharesSumToTotal | indexer/src/overviewAggregate.ts:66-89 | the six buckets add up to the number of trades |
| IndexerCounters.TransitionMoves | indexer/src/overviewAggregate.ts:41-54 | a transition moves exactly one trade between two buckets and does not underflow |
| IndexerCounters.CancellationMoves | indexer/src/overviewAggregate.ts:56-64 | a cancellation moves exactly one trade to the cancelled bucket and does not underflow |
| IndexerCounters.CreationInserts | indexer/src/overviewAggregate.ts:32-39 | a creation counts right if and only if the trade is new |
| IndexerCounters.LeavingCancelledGoesWrong | indexer/src/overviewAggregate.ts:41-64 | every update of a cancelled trade throws or miscounts |
| IndexerCounters.BuildCountersFromExistingState | indexer/src/overviewAggregate.ts:66-89 | one pass computes the size of every bucket |
| IndexerProjection.EventIdInjective | indexer/src/eventIdentity.ts:8-10 | two logs share an event id if and only if they share transaction and log index |
| IndexerBatch.LatestTerminalEventsByTradeId | indexer/src/main.ts:1688-1711 | a trade is in the result if and only if it has a terminal event, with one that none follows in chain order and, at one place, by id |
| IndexerBatch.RebuildCounters | indexer/src/main.ts:976-995 | for every store the rebuilt counters are the bucket sizes of the stored trades |
| IndexerBatch.GetOrLoadOverviewSnapshot | indexer/src/main.ts:976-995 | the stored snapshot, or the rebuilt one |
| IndexerBatch.Batch.constructor | indexer/src/main.ts:122-132 | an empty batch shows the store as it is |
| IndexerBatch.Batch.GetOrLoadTrade | indexer/src/handlerContext.ts:14-33 | reading through the cache gives what the finished batch would show, and changes nothing of it |
| IndexerBatch.Batch.GetOrLoadProposal | indexer/src/main.ts:1810-1820 | the same for governance proposals |
| IndexerBatch.Batch.HandleEvent | indexer/src/main.ts:177-905 | a handler throws exactly when the reference does, and otherwise leaves the batch showing the reference's store, which `IndexerHistory.HistoryDecides` tells |
| IndexerBatch.Batch.Persist | indexer/src/persistence.ts:38-52 | writing rows in order gives the store the batch was showing |
| IndexerBatch.Batch.ProcessBlock | indexer/src/main.ts:134-905 | one block, with the log and reason of the first halt |
| IndexerBatch.RunBlocksConcat | indexer/src/main.ts:118-137 | projecting two stretches in turn is projecting both |
| IndexerBatch.ProcessBatch | indexer/src/main.ts:118-937 | for every batch the caches and one final write compute what one log at a time does, or halt at the same log for the same reason; `IndexerHistory` and `IndexerOverview` say what that is |
| IndexerBatch.RunBatches | indexer/src/main.ts:118-937 | however a stretch is cut into batches: committed store and halting log do not depend on the cut, and a halted batch leaves the store of the committed ones |
| IndexerHistory.HistoryDecides | indexer/src/main.ts:118-1991 | over every finished stretch, each column of trades, proposals, event records and the last trade event is what the last event that sets it says, by its constructor, and what it was where none does |
| IndexerHistory.StatusIsTheLast | indexer/src/main.ts:999-1991 | a trade is locked, in transit, arrived, frozen or closed by its last lifecycle event |
| IndexerHistory.NothingElseAppears | indexer/src/main.ts:999-1991 | stored trades and proposals are those that were there and those opened, and none disappears |
| IndexerHistory.LastBlockIsNamed | indexer/src/main.ts:134-137 | the snapshot names the last block and its time |
| IndexerConsistency.LifecycleExact | indexer/src/main.ts:1074-1510 | from matching counters a lifecycle event succeeds and keeps them matching if and only if its trade is not in the cancelled bucket |
| IndexerConsistency.CountersKeptExactly | indexer/src/main.ts:999-1991 | a projected log keeps counters equal to a rebuild if and only if it locks a new trade, moves a trade that was not cancelled, or touches no counter |
| IndexerConsistency.BenignNeverUnderflows | indexer/src/overviewAggregate.ts:123-153 | from matching counters, with its parents present, such a log never raises the underflow error |
| IndexerConsistency.BenignChainStaysConsistent | indexer/src/main.ts:118-937 | over whole chains of such logs the counters match a rebuild after every log |
| IndexerConsistency.FirstBadLogBreaksTheCounters | indexer/src/main.ts:118-937 | the first other log is where they stop matching |
| IndexerConsistency.ConsistentAddsUp | indexer/src/overviewAggregate.ts:66-89 | matching counters add up to the number of stored trades |
| IndexerOverview.OverviewMeans | indexer/src/overviewAggregate.ts:66-98 | matching counters are the numbers of stored trades, by status, the closed ones apart by whether their last terminal event gave the money back |
| IndexerOverview.StopsExactly | indexer/src/main.ts:177-905 | a decoded log stops the batch if and only if its transaction or parent row is missing or it leaves a status the counters have none of |
| IndexerOverview.LogStopsExactly | indexer/src/main.ts:139-187 | undecodable, unknown or handler failure, each exactly when |
| IndexerConsistency.ReplayedLockMiscounts | indexer/src/main.ts:999-1072 | projecting a lock a second time always leaves wrong counters |
| IndexerLegality.LegalHistoryCounts | indexer/src/main.ts:118-937 | over every chain that locks no trade twice and moves none after its cancellation, after every log: counters equal a rebuild and add up to the trades, and the next log halts the batch only undecodable or without its transaction or parent row |
| IndexerLegality.CountersMatchExactly | indexer/src/main.ts:118-937 | for every chain projected to its end, counters match a rebuild after every log if and only if the chain is such |
| IndexerLegality.DisputedAfterCancellation | indexer/src/main.ts:1299-1342 | a batch that disputes a cancelled trade goes through and takes another trade off the completed counter |
| IndexerLegality.DisputeUnderflows | indexer/src/overviewAggregate.ts:123-153 | with no completed trade to take, the same dispute halts the batch |
| IndexerCheckpoint.BatchRecords | indexer/src/main.ts:139-187 | a finished batch decoded and recorded each of its escrow logs and recorded nothing else |
| IndexerCheckpoint.RunKeepsInv | indexer/src/main.ts:881-932 | over commits, halts, crashes, gated starts, resolutions and rewinds that skip no escrow log: every escrow log below the checkpoint has a record, and every record a log of a committed block |
| IndexerCheckpoint.RecordedExactlyOnce | indexer/src/main.ts:881-932 | with decoders that agree on each log's kind, exactly one record, through every replay |
| IndexerCheckpoint.AdvancesOnlyClean | indexer/src/preflight.ts:222-239 | blocks are newly committed only by a batch that recorded all of them, with nothing unresolved in quarantine |
| IndexerCheckpoint.FailuresChangeNothing | indexer/src/poisonLog.ts:72-113 | halt, failed write or crash leaves store and checkpoint and ends the process, whether or not the evidence was written |
| IndexerCheckpoint.PoisonHolds | indexer/src/poisonLog.ts:110-113 | in no such run does the checkpoint, or the committed front, pass a log that no started process can decode |
| IndexerCheckpoint.OpenRowHolds | indexer/src/quarantine.ts:83-119 | in every run, with any rewinds: until an open row is resolved by name nothing starts, and store and committed front stay as they are |
| IndexerCheckpoint.EvidenceHolds | indexer/src/quarantine.ts:83-119 | written evidence, for a log resolved before too, opens its row, counts, and holds the indexer until resolved by name |
| IndexerCheckpoint.FailedWriteKeepsExactly | indexer/src/main.ts:918-933 | a failed write may keep any escrow logs of its batch as evidence, and no others |
| IndexerCheckpoint.QuarantineNamesEscrowLogs | indexer/src/main.ts:918-933 | no evidence is invented: over every run each row names an escrow log of the chain and was seen at least once |
| IndexerCheckpoint.RewindSafeExactly | indexer/quarantine.js:116-141 | a rewind keeps every log below the checkpoint recorded if and only if no escrow log of the chain lies between the highest block ever committed and its target |
| IndexerCheckpoint.SafeThroughoutExactly | indexer/quarantine.js:116-141 | over every run with any rewinds, every state is safe if and only if each rewind is |
| IndexerCheckpoint.ForwardRewindSkips | indexer/quarantine.js:116-141 | a forward rewind that leaves a log unrecorded |
| IndexerCheckpoint.RecoveryReaches | indexer/src/preflight.ts:222-239 | a stopped indexer can always resolve, start a build that projects the range, and commit it |
| IndexerErrors.IsNonRetryablePersistenceError | indexer/src/persistence.ts:57-70 | ends on cyclic error graphs; true if and only if the first coded error in breadth-first order, driver error before cause, is durable and comes before sixteen distinct objects |
| IndexerErrors.WithinIsAt | indexer/src/persistence.ts:57-70 | the places of that order hold exactly the errors reachable through driver errors and causes |
| IndexerErrors.DurableExactly | indexer/src/persistence.ts:64-66 | durable codes are the five-character ones of classes 22 and 23 |
| Finality.KeysAgreeIffMeaningsAgree | sdk/src/finality.ts:177-187 | for valid observations agreement keys are equal if and only if the observations mean the same |
| FinalityTheorems.WeakestIsMinimum | sdk/src/finality.ts:255-262 | the reported depth is attained and no provider's is lower |
| FinalityTheorems.DepthIffAnchored | sdk/src/finality.ts:194-281 | a depth is reported if and only if enough valid providers on the chain agree on one canonical block; `FinalityMeaning.AnswersExactly` says which state it names |
| FinalityTheorems.FinalizedExactly | sdk/src/finality.ts:194-281 | finalized if and only if sent, admissible, and every provider sees one success at or below its finalized tag |
| FinalityMeaning.AnswersExactly | sdk/src/finality.ts:194-281 | each of the eight states exactly under its own condition on observations, submission and number of providers; the conditions exclude each other and leave nothing out |
| FinalityMeaning.AnswerReports | sdk/src/finality.ts:194-281 | a block and a depth are reported if and only if enough trusted providers agree on one canonical block; final if and only if failed or at finalized depth |
| FinalityMeaning.BlockReported | sdk/src/finality.ts:165-174 | the reported block is the agreed one, at the depth every provider's tags reach |
| FinalityMeaning.EarlyReasons | sdk/src/finality.ts:219-239 | invalid, wrong chain, contradicted rejection, rejected, too few providers: each reason exactly when |
| FinalityMeaning.LateReasons | sdk/src/finality.ts:241-281 | silence, a block that is not canonical, and the tag that was reached: each reason exactly when |
| FinalityTheorems.OrderDoesNotMatter | sdk/src/finality.ts:194-281 | reordering observations changes only the list of provider ids |
| FinalityTheorems.MoreEvidenceNeverDeepens | sdk/src/finality.ts:194-281 | more observations give unknown or the same block at no greater depth |
| FinalityHistory.AnswersAreStorable | sdk/src/finality.ts:299-313 | every answer may be a first position, and is final exactly at finalized depth or as failed |
| FinalityHistory.MovesExactly | sdk/src/finality.ts:299-313 | which moves the guard accepts: storable positions first, a final one stays, successes only deepen, nothing becomes failed |
| FinalityHistory.FinalFreezes | sdk/src/finality.ts:299-313 | accepted runs never move after a final position |
| FinalityHistory.FailedOnlyFirst | sdk/src/finality.ts:299-313 | failed occurs only as the first and then only position |
| FinalityHistory.DepthFallsOnlyThroughDoubt | sdk/src/finality.ts:294-313 | between two successes of falling depth lies a position that is not final and is submitted, unknown, reverted or replaced |
| FinalityHistory.FallsThroughExactly | sdk/src/finality.ts:294-313 | a depth falls through a position if and only if it was not final and the position is such a one |
| FinalityHistory.DepthFallsWithoutUnknown | sdk/src/finality.ts:194-313 | the classifier takes that way: safe, submitted when no provider answers, confirmed, all accepted |
| FinalityHistory.HonestProgressIsAccepted | sdk/src/finality.ts:165-174 | the same providers seeing the same block with tags that do not retreat are never refused |
| FinalityHistory.HonestHistoryIsAccepted | sdk/src/finality.ts:299-313 | the same between any two moments of a history |
| FinalityHistory.FinalAnswerIsOnChain | sdk/src/finality.ts:219-281 | a final, non-failed answer is a block of every truthful provider's finalized chain and what it did |
| FinalityHistory.FinalAnswersAgree | sdk/src/finality.ts:111-281 | two final answers whose observers share one provider with an immutable finalized chain agree on state, number and hash |
| Text.HashExactly | sdk/src/finality.ts:95-95 | a hash is 0x and 64 hex digits |
| Migrations.LoadMigrationManifest | shared-db/migrate.js:45-126 | accepts exactly the manifests with well-formed, intact, pairwise increasing entries and baseline or adoption on the first alone; what it loads is valid for the runner |
| MigrationEffects.ManifestExactly | shared-db/migrate.js:45-126 | the loader accepts a manifest if and only if it has entries, each with a version, name, sums, file and flags as spelled out, in increasing version order |
| MigrationEffects.LoadedColumns | shared-db/migrate.js:107-124 | what is loaded of an entry is what it declares and the script in its file |
| Migrations.ValidateAppliedMigrations | shared-db/migrate.js:128-164 | accepts exactly the matching prefixes of the manifest, the whole of it when all is required |
| Migrations.PrefixIsDeclaredInOrder | shared-db/migrate.js:133-155 | the two passes of the check together are the prefix property, and follow from it |
| MigrationEffects.ValidatesExactly | shared-db/migrate.js:128-164 | the ledger is accepted if and only if its rows have the versions, names, sums and declared fingerprints of the manifest's first entries |
| MigrationSafety.RunKeepsInv | shared-db/migrate.js:251-436 | over every interleaving and cut-off: one lock holder, ledger a prefix of its manifest, ledger and committed scripts in step |
| MigrationSafety.ExecutedOnceInOrder | shared-db/migrate.js:358-412 | scripts commit in strictly increasing version order, are exactly the executed rows, and replayed over the first schema give the present one |
| MigrationSafety.DoneMeansApplied | shared-db/migrate.js:414-422 | a runner that succeeds leaves its whole manifest in the ledger and the declared fingerprint in the schema |
| MigrationSafety.FinishedRunsAgree | shared-db/migrate.js:251-436 | two histories that finish one manifest hold the same versions, names and checksums, cut off along the way or not |
| MigrationSafety.RefusalChangesNothing | shared-db/migrate.js:276-420 | the statement that refuses leaves ledger, schema and history and frees the lock |
| MigrationSafety.RunsExtendTheLedger | shared-db/migrate.js:251-436 | ledger and history only ever grow at their end |
| MigrationEffects.CommitsExactly | shared-db/migrate.js:358-412 | a pending migration is committed if and only if a baseline finds nothing, the script succeeds, leaves the declared fingerprint, and its version is not recorded; then one row is added at the end, and otherwise nothing changed |
| MigrationEffects.HistoryIsAsDeclared | shared-db/migrate.js:251-436 | over every interleaving and cut-off every committed script ran on what those before it left and left its declared fingerprint; every executed row records such a script; adopted rows come first, by the last declared fingerprint of the schema found |
| MigrationEffects.ProbesExactly | shared-db/migrate.js:276-298 | a runner goes on, adopts up to the last matching migration, or refuses, each exactly when |
| MigrationEffects.FinishesExactly | shared-db/migrate.js:414-422 | a runner at the end succeeds if and only if the schema has the last declared fingerprint |
| MigrationSafety.StrandedForever | shared-db/migrate.js:276-300 | an empty ledger over an existing schema: no number of baseline runs changes it or succeeds |
| MigrationSafety.AdoptionWithAndWithoutCrash | shared-db/migrate.js:276-356 | one schema, adopted and finished without the crash, stranded with it |
| MigrationResumption.SessionEnds | shared-db/migrate.js:251-436 | every undisturbed run of the protocol ends, with the database and answer of the session function |
| MigrationResumption.TracedIsSession | shared-db/migrate.js:251-436 | so does every run taken statement by statement once it lets go of the lock |
| MigrationResumption.ResumesExactly | shared-db/migrate.js:276-356 | a run that would succeed, cut off after any statement: run again it reaches the same database if and only if the cut was not between creating the ledger and committing adopted rows |
| MigrationResumption.ResumesAfterAnyCuts | shared-db/migrate.js:251-436 | the same over any number of cut-off runs |
| MigrationResumption.SessionFills | shared-db/migrate.js:414-422 | a run that succeeds leaves the whole manifest in the ledger and the declared fingerprint |
| MigrationResumption.FullStays | shared-db/migrate.js:251-436 | running again after success changes nothing and succeeds |
| MigrationResumption.RefusalLeavesLedgerExactly | shared-db/migrate.js:276-420 | a run that refuses leaves the ledger rows if and only if it adopted nothing and got no pending migration through; it never loses one |
| MigrationResumption.RefusingSessionAdvances | shared-db/migrate.js:358-412 | a refusing run that leaves one more migration in the ledger |
| MigrationRunner.FindLastIndex | shared-db/migrate.js:289-291 | the last migration with the observed fingerprint |
| MigrationRunner.Database.RunVersionedMigrations | shared-db/migrate.js:251-436 | an undisturbed session reaches success or refusal and takes exactly the protocol's steps; `MigrationEffects` says what each does |
| NonceStore.InMemoryNonceStore.Consume | shared-auth/src/nonceStore.js:39-56 | refused if and only if an unexpired entry for the key is stored; entries are the live ones, the new one last, oldest dropped beyond the cap |
| NonceStore.InMemoryNonceStore.PruneExpired | shared-auth/src/nonceStore.js:20-26 | exactly the unexpired entries remain, in order |
| NonceStore.InMemoryNonceStore.CapStoreSize | shared-auth/src/nonceStore.js:28-36 | the newest entries up to the cap remain |
| NonceStore.AcceptedIffNotRemembered | shared-auth/src/nonceStore.js:39-56 | over every run with a steady clock and room for what it accepts: accepted if and only if no earlier acceptance of the key is unexpired |
| NonceStore.ForgetsExactlyWhenFull | shared-auth/src/nonceStore.js:28-36 | accepting a nonce forgets an unexpired one if and only if the store was full of them |
| NonceStore.FullStoreForgets | shared-auth/src/nonceStore.js:28-36 | a nonce accepted twice within its lifetime |
| NonceStore.KeysApart | shared-auth/src/nonceStore.js:47-47 | api keys without a colon never share entries |
| NonceStore.ColonKeysCollide | shared-auth/src/nonceStore.js:47-47 | two callers with one key text |
| ServiceAuth.SpacesExactly | shared-auth/src/serviceAuth.js:83-92 | what is trimmed, by code point |
| ServiceAuth.TrimExactly | shared-auth/src/serviceAuth.js:83-92 | trimming leaves a text if and only if the value is that text, without space at its ends, between spaces |
| ServiceAuth.FirstHeader | shared-auth/src/serviceAuth.js:83-92 | the trimmed value of the first name that says something, and none if and only if no name does |
| ServiceAuth.GenuineExactly | shared-auth/src/serviceAuth.js:214-293 | genuine if and only if headers, timestamp, skew, key, activity, nonce and the principal's own signature over text, timestamp and nonce are right; any other request is refused for the first that fails |
| ServiceAuth.SpendsItsOwn | shared-auth/src/serviceAuth.js:265-297 | a genuine request spends the nonce it carries, or the derived one, under its principal's id |
| ServiceAuth.ForgedLeavesNoTrace | shared-auth/src/serviceAuth.js:235-305 | in no run is a request the named principal did not sign, or not in time, admitted, and it spends no nonce |
| ServiceAuth.Middleware.Authenticate | shared-auth/src/serviceAuth.js:214-305 | admits exactly the genuine requests whose nonce is not remembered; whatever is admitted or spends a nonce was signed by the principal it names |
| ServiceAuth.Middleware.Handle | shared-auth/src/serviceAuth.js:214-305 | the same from the headers as they arrive |
| ServiceAuth.AdmittedAtMostOnce | shared-auth/src/serviceAuth.js:235-305 | over every run of the middleware with a steady clock, room for what it admits, and a lifetime over twice the skew, no claim is admitted twice |
| ServiceAuth.AdmittedTwiceExactly | shared-auth/src/serviceAuth.js:235-305 | for a caller who can sign, some run of the middleware admits one claim twice if and only if the lifetime is at most twice the skew |
| ServiceAuth.RelayerDefaultsAdmitTwice | relayer/src/config.ts:80-90 | 600 and 300 seconds have such a run, 601 and 300 have none |
| RateLimit.InMemoryRateLimitStore.IncrementAndGet | shared-edge/rateLimit.js:42-57 | the window's new count, only that window changed, and a positive time to reset |
| RateLimit.RateLimiter.Admit | shared-edge/rateLimit.js:217-244 | passes if and only if both counts are within their limits; both count blocked requests too |
| RateLimit.WindowPasses | shared-edge/rateLimit.js:42-57 | one window passes at most limit requests |
| RateLimit.SlidingBound | shared-edge/rateLimit.js:37-93 | any stretch of one window length passes at most twice the limit, one less if windows open with their first request |
| RateLimit.MemoryWindows | shared-edge/rateLimit.js:42-57 | the in-memory counters form disjoint windows opened by their first request |
| RateLimit.MemoryBound | shared-edge/rateLimit.js:42-57 | at most 2*limit-1 in any stretch, over every run |
| RateLimit.AlignedBound | shared-edge/rateLimit.js:77-93 | at most 2*limit for windows numbered by floor division, over every run |
| RateLimit.MemoryBoundIsReached | shared-edge/rateLimit.js:42-57 | for every positive limit and window over a second some run passes 2*limit-1 |
| RateLimit.AlignedBoundIsReached | shared-edge/rateLimit.js:77-93 | for every limit and window over a second some run passes 2*limit |
| RateLimitRuns.AdmitAll | shared-edge/rateLimit.js:217-244 | the limiter over its store, run on any arrivals of any callers and routes, admits as the specification of runs says |
| RateLimitRuns.CountersAreSeparate | shared-edge/rateLimit.js:42-57 | each counter depends on the arrivals of its own caller, route and window alone |
| RateLimitRuns.CallerBound | shared-edge/rateLimit.js:217-244 | whatever everybody else sends, one caller passes on one route at most 2*limit-1 in any stretch of the burst window, and of the sustained window |
| RateLimitRuns.SharedAreSeparate | shared-edge/rateLimit.js:77-93 | the same separation for shared counters numbered by window |
| RateLimitRuns.SharedAdmitsExactly | shared-edge/rateLimit.js:77-93 | over the shared store a request passes if and only if fewer than the limit came before it in its numbered window, of either kind |
| RateLimitRuns.SharedCallerBound | shared-edge/rateLimit.js:217-244 | and at most 2*limit there |
| AuthoritySafety.RunKeepsInv | auth/src/core/adminAuthorityStore.ts:208-430 | over every interleaving: accounts and wallets unique, one pending change per account and environment, applied changes by two principals in this environment |
| AuthoritySafety.BecomesAdminOnlyByApproval | auth/src/core/adminAuthorityStore.ts:287-341 | a base role becomes admin only in an approval of a grant for that account, by a second principal naming its digest |
| AuthoritySafety.AdministratorsComeFromApprovals | auth/src/core/adminAuthorityStore.ts:287-341 | over every run, whoever is an administrator at the end and was not before became one in such an approval |
| AuthoritySafety.CeasesAdminExactly | auth/src/database/queries/adminAudit.ts:179-215 | over all steps, logins and exchanges included, it stops being admin if and only if a revocation is approved or a deactivated profile is provisioned again |
| AuthoritySafety.ExchangeKeepsAdmins | auth/src/database/queries/profiles.ts:41-143 | no exchange changes which profiles are administrators or their organization |
| AuthoritySafety.AdminSessionNeedsBoth | auth/src/core/exchangeAuthority.ts:177-221 | an administrator session needs a key entitled to it and authority the profile already had |
| AuthoritySafety.BoundKeyStaysInItsOrganization | auth/src/core/exchangeAuthority.ts:112-163 | a bound key leaves the profile in its organization |
| AuthoritySafety.RehomesAdminExactly | auth/src/database/queries/profiles.ts:112-128 | an exchange moves an administrator to another account if and only if that account has no profile, the request names the profile's wallet, its account is a placeholder, and key, role and organization would be given an administrator session of it |
| AuthoritySafety.RehomedAdministrator | auth/src/database/queries/profiles.ts:112-128 | such a move, after which the profile's authority is gone |
| AuthoritySafety.AdminWalletExactly | auth/src/database/queries/profiles.ts:75-110 | an exchange changes an administrator's wallet if and only if it names the account and another wallet that is nobody's, or that a placeholder profile without authority gives up to one that had none, and key, role and organization would be given an administrator session |
| AuthoritySafety.NewWalletLeadsThere | auth/src/database/queries/profiles.ts:75-110 | the wallet so named then finds that administrator profile |
| AuthoritySafety.AdminOrganizationExactly | auth/src/database/queries/profiles.ts:18-34 | an administrator's organization changes if and only if a grant naming another is approved for it or a wallet login names another |
| AuthoritySafety.AuthorityRestsOnTwoPersons | auth/src/database/queries/profileRows.ts:13-24 | over every run durable authority rests on an unexpired grant of this environment applied by two principals |
| AuthoritySafety.SettledChangesStay | auth/src/core/adminAuthorityStore.ts:163-172 | over every run a change keeps its evidence, leaves pending at most once, and stays where it went |
| AuthoritySafety.GrantGoneForGood | auth/src/database/queries/profileRows.ts:13-24 | without an approval for the account, no run brings back a grant that was revoked, expired or never given |
| AuthoritySafety.RevocationEnds | auth/src/core/adminAuthorityStore.ts:342-356 | an approved revocation ends the grant at once |
| AuthorityEffects.ProposesExactly | auth/src/core/adminAuthorityStore.ts:208-285 | a proposal is accepted, repeated or refused exactly when, and leaves one pending change with the digest of what was proposed |
| AuthorityEffects.ApprovesExactly | auth/src/core/adminAuthorityStore.ts:287-341 | an approval succeeds if and only if a second named principal gives the digest in time and in the environment, and the target can take the change |
| AuthorityEffects.GrantMakesAdministrator | auth/src/core/adminAuthorityStore.ts:306-341 | an approved grant makes the account's profile an active administrator with the organization named, no elevation and an active grant; every other profile stays |
| AuthorityEffects.RevocationUnmakesAdministrator | auth/src/core/adminAuthorityStore.ts:342-356 | an approved revocation leaves exactly the resulting role, no active grant, and everything else as it was |
| AuthorityEffects.CancelsExactly | auth/src/core/adminAuthorityStore.ts:399-430 | a cancellation takes exactly a pending change out |
| AuthorityEffects.ProvisionsExactly | auth/src/database/queries/adminAudit.ts:179-233 | provisioning succeeds exactly when, and the columns it writes |
| AuthorityEffects.DeactivatesExactly | auth/src/database/queries/adminAudit.ts:267-292 | deactivation switches off and ends an elevation, and leaves role and organization |
| AuthorityEffects.ElevatesExactly | auth/src/database/queries/breakGlass.ts:14-76 | break-glass succeeds exactly when, lifts until its time, and leaves the base role |
| AuthorityEffects.LowersExactly | auth/src/database/queries/breakGlass.ts:104-130 | revoking it clears the elevation and nothing else |
| AuthorityEffects.LogsInExactly | auth/src/database/queries/profiles.ts:18-34 | a wallet login writes at most the organization of the wallet's profile, or makes an ordinary one |
| AuthorityEffects.ExchangeMakes | auth/src/database/queries/profiles.ts:130-143 | an unknown identity gets an ordinary profile exactly when the key allows it |
| AuthorityEffects.ExchangeOfAccount | auth/src/database/queries/profiles.ts:102-110 | the account's profile is written exactly when key, organization and role allow it, with these columns |
| AuthorityEffects.ExchangeOfWallet | auth/src/database/queries/profiles.ts:112-128 | the wallet's profile is moved to the account exactly when it is a placeholder and they allow it |
| AuthorityEffects.ExchangeJoins | auth/src/database/queries/profiles.ts:80-100 | two profiles become one exactly when the wallet's is a placeholder without authority, the account's has no wallet, and they allow it |
| AuthorityStore.AdminAuthorityStore.Propose | auth/src/core/adminAuthorityStore.ts:208-285 | the transaction's effect and answer, with the invariant kept |
| AuthorityStore.AdminAuthorityStore.Approve | auth/src/core/adminAuthorityStore.ts:287-397 | the same for approval, whose condition and effect `AuthorityEffects` states |
| AuthorityStore.AdminAuthorityStore.Cancel | auth/src/core/adminAuthorityStore.ts:399-430 | the same for cancellation |
| Der.ReadDerElement | sdk/src/kmsEvmSigner.ts:36-64 | the loop reads the big-endian length, never outside the bytes, and agrees with that grammar's reader |
| Der.ReadExactly | sdk/src/kmsEvmSigner.ts:36-64 | an element is read if and only if the bytes from the offset are one, in short or long length form, and it ends where they do |
| Der.ReadsBack | sdk/src/kmsEvmSigner.ts:36-64 | every element below 2^32 bytes is read back wherever it stands |
| Der.ReadIsLocal | sdk/src/kmsEvmSigner.ts:36-64 | what is read does not depend on later bytes |
| Der.IntegerReadsBack | sdk/src/kmsEvmSigner.ts:66-75 | every positive number below 2^256 is read back |
| DerGrammar.ParsesExactly | sdk/src/kmsEvmSigner.ts:66-75 | a positive integer of at most 32 octets after one spare zero is taken at its value, and nothing else |
| Der.SignatureReadsBack | sdk/src/kmsEvmSigner.ts:101-128 | every in-range signature is read back with its low s |
| DerGrammar.AcceptedExactly | sdk/src/kmsEvmSigner.ts:101-128 | a signature is taken from exactly the byte strings that are one sequence of two integers in range, with s in its low form |
| Der.AlwaysLowS | sdk/src/kmsEvmSigner.ts:120-128 | whatever is accepted has 0 < r < n and 0 < s <= n/2 |
| DerGrammar.OppositeFormsMeet | sdk/src/kmsEvmSigner.ts:120-128 | two accepted byte strings, however encoded, give one signature if and only if r is shared and s equal or opposite |
| Der.NothingMayFollow | sdk/src/kmsEvmSigner.ts:106-109 | a signature with trailing bytes is refused |
| DerGrammar.ReadSpkiElement | contracts/scripts/derive-kms-signer-addresses.ts:20-43 | the script's own element loop gives an element if and only if the bytes are one |
| Der.ReadersAgree | contracts/scripts/derive-kms-signer-addresses.ts:45-66 | the two key readers, whose element loops each read exactly that grammar, accept the same bytes and take the same point |
| DerGrammar.KeyExactly | contracts/scripts/derive-kms-signer-addresses.ts:45-66 | each key reader takes a point from exactly the byte strings that are a sequence of an algorithm and an uncompressed point, and that point |
| Der.KeyReadsBack | sdk/src/kmsEvmSigner.ts:77-99 | every point encoded with any algorithm that fits four length octets is found by both |
| Iban.IsIban | shared-telemetry/sanitize.js:27-39 | the streamed check accepts if and only if the whole rearranged number leaves one modulo 97 |
| Iban.ValuesExactly | shared-telemetry/sanitize.js:32-37 | letters count on from ten in alphabetical order, digits for themselves |
| Iban.SubstitutionNoticed | shared-telemetry/sanitize.js:32-38 | one digit for another, or one letter for another, changes the remainder, in strings of any length |
| Iban.MistypedIsRejected | shared-telemetry/sanitize.js:27-39 | an accepted value with such a mistake is rejected |
| Iban.SwapNoticed | shared-telemetry/sanitize.js:32-38 | two neighbouring digits, or letters, swapped change the remainder |
| Iban.MixedSwapNoticedExactly | shared-telemetry/sanitize.js:32-38 | a digit swapped with a letter goes unnoticed for exactly 1B, 2M and 3X |
| Iban.SwappedIsRejectedExactly | shared-telemetry/sanitize.js:24-39 | an accepted account number with two different neighbours swapped, across the rearrangement too, is accepted again if and only if they are such a pair behind the first four characters |

## Left out

- IndexerCheckpoint.RecordedExactlyOnce: asks that corrected decoders do not move a log to another event table, since the tables key their records separately.
- IndexerCheckpoint.RunKeepsInv: a rewind ends a running process, which holds because it changes the nonce of the status row the runner checks; that runner is not part of the repository.
- ServiceAuth.AdmittedTwiceExactly: the skew check and the nonce are taken at one instant; a delay between them would lengthen the needed lifetime.
- IndexerBatch.LatestTerminalEventsByTradeId: ids at one place in the chain are ordered by character, which is the locale order of lower-case hexadecimal ids.
- Migrations.LoadMigrationManifest: file paths are names in a map; path traversal checks are not modelled.
- Row locks other than as rows another statement skips, isolation levels, and retry of transient database errors.
- Error texts, log lines, alert payloads, audit rows, session tables, e-mail columns and execution times.
- Redis and Postgres nonce stores, rate-limit store selection and fail-open handling.
- Hot-block rollback in the indexer, and hashing, ABI decoding, schema fingerprints, signing and address recovery, which are parameters.
- System, oracle and admin events beyond the record they leave, and the parts of governance proposals that no handler reads again.
- Operator signer changes, which repeat the shape of authority changes; relayer policies, configuration parsing, HTTP routing, deployment and repair scripts, and pattern-based redaction.
