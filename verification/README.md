# ZizaLend backend: verified model

A Dafny model of the stateful core of the ZizaLend backend, with machine-checked proofs about whole runs of it.
`dafny verify dfyconfig.toml` checks everything.

## What is modelled

**Indexing chain events.** `EventTable` is the event table with its three unique keys; `Scores` and `ScoreEvents` the
clamped score upsert and the deltas events carry; `Transaction` the retrying transaction; `EventStore` one call of
`storeEvents`; `Reindex` and `EventIndexer` range processing, paging and polling by one indexer object;
`IndexerMachine` any number of pollers, reindexing and reprocessing workers that crash or fail between any two steps,
with `IndexerScores` (what the scores are) and `IndexerWatermark` (what has not been lost) proved over all its runs;
`QuarantineReprocess` the admin's loop over quarantined events.

**Locks over an expiring store.** `KvStore` is the store and the cache facade; `FencedLock` the shared
set-if-absent / get-then-delete protocol as single store commands; `DefaultCheckerLock` the default checker's run lock
across instances; `Idempotency`, `IdempotencyAborts`, `IdempotencyOnce` and `IdempotentRequest` the idempotency
middleware (its interleavings, what a closed connection leaves running, the runs in which work is done once, one request
as an object); `CacheKeys` the key encoding.

**Batch work.** `WorkerPool` is the concurrent map of the default checker under every schedule; `OverdueLoans` its
selection queries, chunking and counting.

**Loan arithmetic.** `Amortization` is the instalment schedule in whole cents; `LoanViews` the SQL aggregate and the
event fold that both compute a loan's state.

**Registries and text.** `EventStream`, `EventStreamSpec` and `EventStreamRoute` are the server-sent-event registries
and the route in front of them, `RateLimit` the
fixed-window limiter, `Pagination` the keyset pages, `EnvFile` the env-file rewriter of the deployment script.

Components that mutate objects in place are classes and methods with loops, each tied to a specification function;
concurrency is a state machine whose steps are the single commands the code issues, in the order it issues them.

## What turned out not to hold

Where the code does less than its comments or documentation say, the model follows the code, proves what it does
guarantee, shows an input or a run for the rest and, where there is one, states the exact condition.

- The arrays and the delta map of `storeEvents` live outside the callback the transaction retries. A retried attempt
  pays its deltas again (`RetryPaysTwice`); the exact surplus is `SurplusOfFailedAttempts`.
- The page docs/wiki/indexer-sync-flow.md speaks of conflicts on `event_id` only; the table has two more keys, and two
  repayments of one loan in one ledger collide (`SecondRepaymentInLedgerIsDropped`).
- A failed quarantine write is only logged, and the watermark then passes the event, which no later poll reads again
  (`LostQuarantineWriteLosesTheEvent`). Only the event's own write matters (`NothingBelowTheWatermarkIsLost`), and an
  event is lost exactly when that write has failed and nothing else in the run ever covered it (`LostIff`).
- The page docs/wiki/api-idempotency.md says a request sent twice is executed once. Until an outcome is recorded that
  is so (`OnceUntilRecorded`) in runs in which no connection closes early, every answer can be recorded, no store command
  fails, and neither a claim nor a recorded outcome is outlived. In such runs a request executes again exactly when it
  had looked up before the record and asks for the claim after a release (`ExecutesAgainIff`; runs:
  `LateClaimDuplicatesWork`, `ReadBackRaceExecutesUnclaimed`).
- A connection that closes gives its claim back at once, while nothing stops its handler: a client that times out and
  retries has two handlers at work at the same time (`TimeoutAndRetryOverlap`). A second claimed handler starts beside
  one at work exactly when the first one's connection closed before it returned and that release has gone through
  (`StartsBesideIff`).
- The release on 'close' is described as a no-op after 'finish'. If both read the claim before either deletes it, the
  second delete removes somebody else's claim (`DoubleReleaseBreaksTheClaim`; exactly when, in a state:
  `FenceFailsIffExposed`, and over a run: `CalmIffNeverExposed`).
- The lock key of one idempotency key is the cache key of that key followed by ":inflight", which the key pattern
  accepts (`AcceptedKeysCanMeet`; exactly when: `LockKeyMeetsCacheKeyIff`, `CacheKeysMeetIff`).
- The default checker's token is a field of the instance: of two overlapping runs on one instance the first releases
  the second's lock (`TwoRunsOnOneInstance`). This can happen exactly when a run that holds the lock remembers its token
  beside a running one of its instance (`NeverMixesUpIff`).
- A stored interest rate or term of zero is used by the SQL and replaced by the default in the fold (`ViewsAgreeIff`).
- The last instalment can be negative (`LastPortionNegativeIff`, `FractionalLastPortionNegativeIff`), though not for
  the terms the preview offers.
- A failed broadcast removes a client from its registry but leaves its slot in the user's set (`DroppedSlotStaysTaken`),
  and the route checks the limit before it waits for its replay query (`CheckThenWaitExceedsTheLimit`); the limit holds
  exactly when every subscription still finds it open (`LimitHoldsIff`, `RouteLimitHoldsIff`).
- The route listens for the closing of its connection only after it has subscribed. A connection that closes during the
  wait takes a slot all the same (`ClosedWhileWaiting`), and a connection that is gone holds one exactly so, until a
  heartbeat fails to write to it or the service ends (`OrphanIff`).
- A rate-limit check that dies, or whose EXPIRE fails, between incrementing and setting the expiry, as the last one that
  could set it, leaves a counter that never expires (`PermanentCounterLocksOut`), and nothing else does
  (`PermanentIffCrashed`).
- A cached last page ends a walk through the list before rows added since (`CachedPageHidesNewRows`); a row is missed
  exactly when the snapshot behind its page is older than it (`MissedIff`).

## Model

| member | source | states |
|---|---|---|
| EventTable.InsertedCovers | backend/src/services/eventIndexer.ts:501-538 | after inserting, every offered row shares a unique key with a row of the table, and only rows that shared none before are added |
| EventTable.InsertedKeepsUniqueKeys | backend/migrations/1789000000001_idempotent-loan-events.js:37-39 | inserting with ON CONFLICT DO NOTHING keeps all three unique keys |
| EventTable.InsertedAppend | backend/src/services/eventIndexer.ts:501-538 | inserting two lists in turn adds what inserting their concatenation adds |
| EventTable.InsertedExactly | backend/migrations/1777000000008_unique-loan-status-events.js:44-47 | the row at any position of a batch, repeated ids included, is added if and only if it conflicts with neither the table nor an added row before it |
| EventTable.SecondRepaymentInLedgerIsDropped | backend/migrations/1789000000001_idempotent-loan-events.js:37-39 | two different repayments of one loan in one ledger: the second is dropped |
| Scores.UpsertIsSaturatingAdditionIff | backend/src/services/scoresService.ts:33-45 | the double clamp is saturating addition exactly for small deltas or where the outer clamp hides the inner one |
| Scores.InsertAgreesWithUpdate | backend/src/services/scoresService.ts:33-45 | inserting a user is updating a user who stands at 500 |
| Scores.UnsaturatedIsExact | backend/src/services/scoresService.ts:33-45 | deltas applied one by one add up exactly while no clamp binds |
| Scores.BatchEqualsOneByOneSameSign | backend/src/services/eventIndexer.ts:593-623 | summing a batch first equals applying it one by one when the deltas share a sign and the total is in range |
| Scores.BatchEqualsOneByOneUnsaturated | backend/src/services/eventIndexer.ts:593-623 | the same for mixed signs when no step saturates |
| Scores.MixedSignsNearTheCeilingDiffer | backend/src/services/scoresService.ts:33-45 | a repayment and a default near 850 give different scores one by one and summed |
| Scores.MixedPairIff | backend/src/services/scoresService.ts:33-45 | for two small deltas of opposite sign, summed first equals one by one if and only if the first alone stays in range or the second is zero |
| Scores.ApplyBulkAt | backend/src/services/scoresService.ts:15-45 | the statement moves each named user by the double clamp and nobody else, and keeps scores valid |
| Scores.ScoreTable.UpdateUserScoresBulk | backend/src/services/scoresService.ts:15-60 | the row-by-row upsert is the bulk specification, empty user ids skipped |
| ScoreEvents.AccumulateAt | backend/src/services/eventIndexer.ts:593-614 | the delta map holds each user's net delta of the inserted rows |
| ScoreEvents.AccumulateAppend | backend/src/services/eventIndexer.ts:593-614 | accumulating two lists in turn is accumulating their concatenation |
| Transaction.BoundedAttempts | backend/src/db/connection.ts:101-139 | at most maxRetries + 1 attempts, and total sleep below base times 2^maxRetries |
| Transaction.OnlyAppliedAttemptsShow | backend/src/db/connection.ts:101-139 | the final database shows the other clients, the attempts whose COMMIT was applied without acknowledgement and the committed one, none that was rolled back, and the result returned is the committed attempt's |
| Transaction.OnlyTheCommittedAttemptShows | backend/src/db/connection.ts:101-139 | when the run's acknowledgements arrive, a run that throws leaves no trace and one that returns only its committed attempt |
| Transaction.Pool.WithTransaction | backend/src/db/connection.ts:101-139 | the loop is the specification, and every client acquired is released exactly once |
| EventStore.RunCallback | backend/src/services/eventIndexer.ts:500-624 | one insert at a time and then the upsert is one insertion of all rows, also when it stops at an error |
| EventStore.SurplusOfFailedAttempts | backend/src/services/eventIndexer.ts:493-625 | what a retried transaction applies: the rows of the successful attempt once, and the rows each failed attempt had inserted once more |
| EventStore.TableAfterCommit | backend/src/services/eventIndexer.ts:493-625 | whatever fails on the way, a transaction that returns leaves the table of one clean insert |
| EventStore.CleanCommit | backend/src/services/eventIndexer.ts:493-625 | with no failed attempt every inserted row counts exactly once |
| EventStore.RetryPaysTwice | backend/src/services/eventIndexer.ts:493-500 | one transient failure at COMMIT pays one repayment twice |
| Reindex.EveryLedgerOnce | backend/src/services/eventIndexer.ts:217-249 | the chunks of a range cover every ledger exactly once, for every batch size |
| Reindex.RangeDeterminesTable | backend/src/services/eventIndexer.ts:217-249 | a completed range leaves the table and quarantine of one insert of all its events, for every batch size and any failed attempts |
| Reindex.SecondRunIsIdle | backend/src/services/eventIndexer.ts:217-249 | reindexing a settled range inserts nothing and changes no score |
| Reindex.ReindexIsIdempotent | backend/src/services/eventIndexer.ts:217-249 | after a completed run a second one, with any batch size, changes nothing |
| Reindex.ScoreAfterRange | backend/src/services/eventIndexer.ts:217-249 | the score after a range is the old score plus the net delta of the inserted rows, when no clamp binds |
| Reindex.BatchSizeIndependence | backend/src/services/eventIndexer.ts:217-249 | two batch sizes leave the same table and quarantine, and the same score when no clamp binds |
| EventIndexer.FetchEventsInRange | backend/src/services/eventIndexer.ts:420-463 | following cursors until a page holds nothing in range fetches exactly the events of the range, in order |
| EventIndexer.Indexer.StoreEvents | backend/src/services/eventIndexer.ts:465-657 | parse or quarantine each event, then one retried transaction: the specified database and count |
| EventIndexer.Indexer.ProcessChunk | backend/src/services/eventIndexer.ts:362-418 | a chunk stores the events of its range and reports the range's last ledger, or rethrows |
| EventIndexer.Indexer.ReindexRange | backend/src/services/eventIndexer.ts:217-249 | the loop terminates with the specified database and totals |
| EventIndexer.Indexer.UpdateLastIndexedLedger | backend/src/services/eventIndexer.ts:343-360 | the row holds the larger of the two ledgers afterwards, or the new one when there was no row |
| EventIndexer.Indexer.GetLastIndexedLedger | backend/src/services/eventIndexer.ts:320-341 | a missing row reads as 0 and is inserted, and the watermark stays what it was |
| EventIndexer.Indexer.PollOnce | backend/src/services/eventIndexer.ts:271-296 | the watermark advances by at most a batch, to ledgers that are stored, and not at all when storing throws |
| IndexerScores.ScoresFollowHistory | backend/src/services/eventIndexer.ts:465-625 | in every run the table is what the applied transactions added, its keys are unique, and scores are the fold of their deltas |
| IndexerScores.ExactlyOnceScores | backend/src/services/eventIndexer.ts:465-625 | when no attempt fails after an insert, every table row contributes its delta exactly once, through any crashes and interleavings |
| IndexerScores.ScoreIsTableNetPlusWastedNet | backend/src/services/eventIndexer.ts:493-625 | without that hypothesis a score is off by exactly the net delta of the wasted rows, when no clamp binds |
| IndexerWatermark.StepSafe | backend/src/services/eventIndexer.ts:271-405 | every step of every worker keeps the watermark invariant |
| IndexerWatermark.NothingBelowTheWatermarkIsLost | backend/src/services/eventIndexer.ts:271-296 | over all runs, every chain event up to the watermark whose own quarantine writes succeeded is ignored, quarantined or has a row sharing a key, whatever other writes failed |
| IndexerWatermark.LostIffOwnWriteFailed | backend/src/services/eventIndexer.ts:1089-1140 | an id counts as lost exactly when a quarantine write of that id has failed in the run |
| IndexerWatermark.CoveredAfterStepIff | backend/src/services/eventIndexer.ts:271-405 | a step covers an event, not covered before, if and only if it reads it as ignored, quarantines it, finds its row represented or commits rows that represent it |
| IndexerWatermark.LostIff | backend/src/services/eventIndexer.ts:1089-1140 | over all runs, an event up to the watermark is lost if and only if a quarantine write of its own failed and no step of the run, reindexing included, has covered it |
| IndexerWatermark.ProgressIsNeverUndone | backend/src/controllers/indexerController.ts:741-752 | over all runs the watermark never falls, no row disappears, and an event leaves quarantine only for a table row sharing a key |
| IndexerWatermark.LostQuarantineWriteLosesTheEvent | backend/src/services/eventIndexer.ts:1089-1140 | a run in which a quarantine write fails and the watermark passes the event with nothing kept of it |
| QuarantineReprocess.ReprocessQuarantinedEvents | backend/src/controllers/indexerController.ts:738-760 | the loop is the item-by-item specification and returns its two counts |
| QuarantineReprocess.LeavesQuarantineOnlyWithARow | backend/src/controllers/indexerController.ts:741-760 | every item is counted once, only deleted items leave quarantine, each with a table row sharing a key, and no table row is lost |
| KvStore.MemoryKvStore.Read | backend/src/utils/kvStore.ts:71-80 | deleting an expired entry on reading cannot be observed |
| KvStore.MemoryKvStore.SetNX | backend/src/utils/kvStore.ts:103-107 | writes exactly when no unexpired entry is there |
| KvStore.MemoryKvStore.Incr | backend/src/utils/kvStore.ts:118-125 | the next count, with the remaining expiry kept |
| KvStore.MemoryKvStore.Sweep | backend/src/utils/kvStore.ts:84-89 | sweeping cannot be observed |
| KvStore.CacheService.SetNotExists | backend/src/services/cacheService.ts:72-84 | true means written; an unreachable store reads as held |
| KvStore.CacheService.DeleteIfMatch | backend/src/services/cacheService.ts:104-126 | uninterrupted, it deletes exactly the entry that holds the expected value |
| FencedLock.StepInv | backend/src/services/cacheService.ts:72-126 | a calm command keeps the lock invariant and removes no foreign lock |
| FencedLock.CalmRunsAreFenced | backend/src/services/cacheService.ts:104-126 | over all interleavings without expiry inside a release or twin releases, no release removes another process's lock |
| FencedLock.MutualExclusion | backend/src/services/cacheService.ts:72-126 | two unexpired grants not given back are one and the same |
| FencedLock.FenceFailsIffExposed | backend/src/services/cacheService.ts:104-126 | from a given state the fence can fail, without the clock or a further release, if and only if a release under way lost its entry or has a twin |
| FencedLock.CalmIffNeverExposed | backend/src/services/cacheService.ts:104-126 | over all runs: the hypotheses hold throughout if and only if no state of the run lets the fence fail |
| DefaultCheckerLock.DefaultChecker.AcquireLock | backend/src/services/defaultChecker.ts:386-403 | takes the lock exactly when it is free and the store reachable, and remembers the token only then |
| DefaultCheckerLock.DefaultChecker.ReleaseLock | backend/src/services/defaultChecker.ts:405-428 | clears the field and deletes the key exactly if it still holds the remembered token |
| DefaultCheckerLock.ActionRefines | backend/src/services/defaultChecker.ts:386-428 | when no run holding the lock remembers its token beside a running one of its instance, each action (SETNX, assignment of the field, its clearing, get, del) is a step of the fenced lock or leaves the lock alone |
| DefaultCheckerLock.RunsNeverRemoveForeignLocks | backend/src/services/defaultChecker.ts:386-428 | a run that outlives its TTL never deletes another run's lock, for every placement and interleaving under the two hypotheses |
| DefaultCheckerLock.AtMostOneUnexpiredRun | backend/src/services/defaultChecker.ts:386-428 | at most one run that has taken the lock and not given it back has it unexpired |
| DefaultCheckerLock.RememberMixesUpIff | backend/src/services/defaultChecker.ts:386-428 | assigning the field puts another run in a position to delete the lock if and only if the lock is still held and that run is running on the same instance |
| DefaultCheckerLock.MixUpDeletes | backend/src/services/defaultChecker.ts:405-428 | a run in that position, ending, leaves the other running without its lock |
| DefaultCheckerLock.NeverMixesUpIff | backend/src/services/defaultChecker.ts:386-428 | over every run without an expiry inside a release, nobody ever gets into that position if and only if no run holding the lock remembers its token beside a running one of its instance |
| DefaultCheckerLock.TwoRunsOnOneInstance | backend/src/services/defaultChecker.ts:386-428 | two overlapping runs on one instance: the first releases the second's lock |
| DefaultCheckerLock.ExpiryInsideRelease | backend/src/services/cacheService.ts:104-126 | an expiry between get and del: the release removes the next holder's lock |
| Idempotency.ReplaysOnlyWhatWasProduced | backend/src/middleware/idempotency.ts:86-206 | in every run a cached or replayed response is one that an execution of the key produced, and a replaying request never executed |
| Idempotency.LookupAfterRecordReplays | backend/src/middleware/idempotency.ts:86-106 | a working lookup after an outcome was recorded and before it expires replays it, and that request never executes |
| Idempotency.ClaimedExecutionsAreExclusive | backend/src/middleware/idempotency.ts:108-206 | over all interleavings without expiry inside a release or overlapping releases, of two claimed handlers at work under unexpired grants one has had its connection closed and its claim given back |
| IdempotencyAborts.StartsBesideIff | backend/src/middleware/idempotency.ts:199-205 | over such runs, a claimed handler starts beside another one at work under an unexpired grant if and only if it asks while nobody holds the claim and the other's connection closed before its handler returned and the release of that has gone through |
| IdempotencyAborts.ExclusiveWithoutAborts | backend/src/middleware/idempotency.ts:108-206 | over such runs in which no connection closes early, at most one claimed handler is at work under an unexpired grant |
| IdempotencyAborts.TimeoutAndRetryOverlap | backend/src/middleware/idempotency.ts:199-205 | a run in which a client times out and retries and two claimed handlers are at work, nothing recorded |
| Idempotency.LateClaimDuplicatesWork | backend/src/middleware/idempotency.ts:86-112 | a run in which a lookup precedes the record and the work is done twice |
| Idempotency.ReadBackRaceExecutesUnclaimed | backend/src/middleware/idempotency.ts:113-135 | a run in which a refused request finds the claim gone and executes without one |
| Idempotency.DoubleReleaseBreaksTheClaim | backend/src/middleware/idempotency.ts:169-205 | a run in which the releases of 'finish' and 'close' overlap and two claimed executions coexist |
| IdempotencyOnce.ActionKeepsOnce | backend/src/middleware/idempotency.ts:86-206 | every action but an early closing, an answer that cannot be recorded, a failed store command or a wait that outlives the claim or the outcome keeps: nothing recorded yet means nobody has worked, or one request has and holds the claim |
| IdempotencyOnce.OnceUntilRecorded | backend/src/middleware/idempotency.ts:86-206 | over every interleaving of those actions, until an outcome is recorded at most one request executes |
| IdempotencyOnce.ExecutesAgainIff | backend/src/middleware/idempotency.ts:86-206 | in such runs a request executes after another if and only if it looked up before the record and asks for the claim, or reads it back, after a release while nobody holds it; the outcome is recorded by then |
| IdempotentRequest.Request.Arrive | backend/src/middleware/idempotency.ts:86-135 | replay, conflict or proceed, decided by the store's content alone, and the claim written exactly on proceeding |
| IdempotentRequest.Request.OnFinish | backend/src/middleware/idempotency.ts:176-197 | a recordable outcome is stored and the own claim is gone |
| IdempotentRequest.RetryAfterAnswer | backend/src/middleware/idempotency.ts:86-206 | a retry after the answer gets that answer |
| CacheKeys.CacheKeyIsInjective | backend/src/middleware/idempotencyPolicy.ts:198-219 | cache keys of colon-free methods and routes are equal if and only if the operations are |
| CacheKeys.LockKeyMeetsCacheKeyIff | backend/src/middleware/idempotencyPolicy.ts:211-224 | a lock key is a cache key exactly for the same operation with ":inflight" behind its key |
| CacheKeys.LocksAndOutcomesAreDisjoint | backend/src/middleware/idempotencyPolicy.ts:211-224 | locks and outcomes never share a key when no key ends in ":inflight" |
| CacheKeys.AcceptedKeysCanMeet | backend/src/middleware/idempotencyPolicy.ts:44-44 | two accepted keys whose lock and outcome share a key |
| CacheKeys.CacheKeysMeetIff | backend/src/middleware/idempotencyPolicy.ts:211-219 | for arbitrary routes, two operations share a cache key if and only if they are equal or one's route runs on through the other's scope into its key |
| CacheKeys.ColonInRouteCollides | backend/src/middleware/idempotencyPolicy.ts:211-219 | with a colon in the route two operations share a cache key |
| WorkerPool.StepInv | backend/src/services/defaultChecker.ts:68-76 | every scheduling step keeps: each index handed out is stored, in flight or a hole, and called once in order |
| WorkerPool.MeasureDecreases | backend/src/services/defaultChecker.ts:61-83 | every step of every schedule decreases the measure |
| WorkerPool.EveryScheduleIsCorrect | backend/src/services/defaultChecker.ts:61-83 | under every schedule: at most limit calls in flight, one call per defined item, and at the end results[i] = fn(items[i]) |
| WorkerPool.NoWorkersIff | backend/src/services/defaultChecker.ts:77-82 | no worker is started exactly when there is no item or the limit is not positive, and the empty answer is then right exactly when every item is undefined |
| WorkerPool.MapConcurrent | backend/src/services/defaultChecker.ts:61-83 | a scheduler that runs any enabled worker returns the mapped items |
| OverdueLoans.ApprovedIsMax | backend/src/services/defaultChecker.ts:150-156 | the grouped maximum: exactly the approved loans, each with its last approval |
| OverdueLoans.OverdueMeans | backend/src/services/defaultChecker.ts:157-175 | a loan is overdue exactly when its last approval plus the term is past and neither repayment nor default is there |
| OverdueLoans.FirstOfIsUnique | backend/src/services/defaultChecker.ts:173-176 | the ordered, limited selection is uniquely determined |
| OverdueLoans.FetchOverdueLoanIds | backend/src/services/defaultChecker.ts:147-182 | the ids are the first min(count, max) overdue loans by due ledger and id, non-positive ids removed |
| OverdueLoans.FetchOverdueStats | backend/src/services/defaultChecker.ts:188-248 | the count, the oldest due ledger and how far it is past, absent exactly when nothing is overdue |
| OverdueLoans.QueriesAgree | backend/src/services/defaultChecker.ts:147-248 | the id query returns as many ids as the count allows and its first id has the reported oldest due ledger |
| OverdueLoans.Chunk | backend/src/services/defaultChecker.ts:52-59 | the pieces are the items in order, non-empty, of the batch size but for a shorter last one |
| OverdueLoans.CountsAddUp | backend/src/services/defaultChecker.ts:492-494 | successful plus failed submissions are all submissions |
| OverdueLoans.SubmitAll | backend/src/services/defaultChecker.ts:475-494 | every batch is submitted and answered in place, and the two counts add up to the batches |
| LoanViews.ViewsAgreeIff | backend/src/controllers/loanController.ts:500-583 | in any row order and at every ledger, the aggregate and the fold of one loan show the same figures and status if and only if the term is not zero, a zero rate meets a zero principal or no elapsed time or a pending loan, and a missing amount meets no repayment or a pending loan |
| LoanViews.OrdinaryLoansAgree | backend/src/controllers/loanController.ts:341-403 | with a requested amount and no rate or term of zero the two views are equal, pending or not |
| LoanViews.InterestFreeLoanIsShownTwoWays | backend/src/controllers/loanController.ts:525-527 | an interest-free loan: the list shows 100 owed, the loan's page 112 |
| LoanViews.SumRepaidAnyOrder | backend/src/controllers/loanController.ts:351-351 | the repaid total does not depend on the order of the rows |
| LoanViews.MaxOfOneEvent | backend/src/controllers/loanController.ts:346-350 | a grouped maximum over a kind that occurs once is that event's field, null included |
| LoanViews.DisputeFreezesInterest | backend/src/controllers/loanController.ts:529-551 | an open dispute stops the interest, and never charges more than without it |
| Amortization.BuildAmortizationSchedule | backend/src/controllers/loanController.ts:238-299 | the loop with running remainders pushes exactly the closed-form rows |
| Amortization.ConservesMoney | backend/src/controllers/loanController.ts:267-299 | principal portions sum to the principal, interest portions to the rounded interest, instalments to the total due |
| Amortization.BalanceRunsDown | backend/src/controllers/loanController.ts:278-289 | the running balance is the unpaid principal, never negative, never rising, and zero at the end |
| Amortization.PortionsAreNearEqual | backend/src/controllers/loanController.ts:254-276 | portions but the last are within half a cent of the equal share, the last within (n-1)/2 cents of it for a whole total and n/2 otherwise |
| Amortization.LastPortionNegativeIff | backend/src/controllers/loanController.ts:270-272 | the last portion is negative exactly when 2(P mod n) >= n and P div n + P mod n + 1 < n |
| Amortization.FractionalLastPortionNegativeIff | backend/src/controllers/loanController.ts:274-276 | the same condition for a total with fractions of a cent, such as the interest |
| Amortization.PreviewIsNeverNegative | backend/src/controllers/loanController.ts:301-317 | 30, 60 and 90 days give 1, 2 and 3 instalments 30 days apart, with no negative principal portion and, at a rate not below zero, no negative interest portion or instalment |
| Amortization.DueDatesAdvance | backend/src/controllers/loanController.ts:281-281 | due dates never go back and the last closes the term |
| EventStreamSpec.RunKeepsInv | backend/src/services/eventStreamService.ts:43-311 | over every sequence of operations on distinct streams: registered clients are in their user's set, no user set is empty, a non-empty registry has its heartbeat running |
| EventStreamSpec.SubscribeKeeps | backend/src/services/eventStreamService.ts:152-192 | a subscription registers its own client, leaves every other as it is, and keeps the invariant |
| EventStreamSpec.UnsubscribeKeeps | backend/src/services/eventStreamService.ts:167-204 | a closure removes exactly its own client, keeps the invariant, and stops the timer when nobody is left |
| EventStreamSpec.BroadcastKeeps | backend/src/services/eventStreamService.ts:213-256 | a broadcast removes exactly the clients of its audience whose write fails, and keeps the invariant |
| EventStreamSpec.BeatRemovesTheFailing | backend/src/services/eventStreamService.ts:48-56 | a heartbeat removes exactly the clients whose write fails, in whatever order it visits them |
| EventStreamSpec.UnsubscribeTwice | backend/src/services/eventStreamService.ts:167-179 | unsubscribing is idempotent |
| EventStreamSpec.CheckedRunsStayWithinLimit | backend/src/services/eventStreamService.ts:136-138 | with check and subscription in one step no user exceeds three connections |
| EventStreamSpec.SubscribeWithinLimitIff | backend/src/services/eventStreamService.ts:136-138 | a subscription keeps the limit if and only if canOpenConnection holds at that moment |
| EventStreamSpec.LimitHoldsIff | backend/src/services/eventStreamService.ts:43-311 | over every run no user ever exceeds three if and only if every subscription happens while canOpenConnection holds |
| EventStreamRoute.RouteLimitHoldsIff | backend/src/controllers/eventStreamController.ts:61-134 | over every run of check, wait, subscribe and close the limit holds throughout if and only if what each check found still holds at its subscription |
| EventStreamRoute.CheckThenWaitExceedsTheLimit | backend/src/controllers/eventStreamController.ts:61-131 | a run of the route from the empty service in which two requests check before either subscribes and one user ends with four |
| EventStreamRoute.OrphanAfterStepIff | backend/src/controllers/eventStreamController.ts:61-134 | a closed connection holds a slot after a step if and only if the step is its own late subscription, or it did before and no heartbeat fails to write to it nor the service ends |
| EventStreamRoute.OrphanIff | backend/src/controllers/eventStreamController.ts:61-134 | over every run a closed connection holds a slot at the end if and only if it subscribed after closing during its wait and nothing has taken the slot back since |
| EventStreamRoute.ClosedWhileWaiting | backend/src/controllers/eventStreamController.ts:61-134 | a run of check, close and subscribe that leaves a slot with a connection already gone |
| EventStreamSpec.DroppedSlotStaysTaken | backend/src/services/eventStreamService.ts:213-256 | a client lost in a broadcast keeps its user's slot until its own connection, or all of them, close |
| EventStream.EventStreamService.SubscribeAddress | backend/src/services/eventStreamService.ts:152-159 | refines the subscription of which SubscribeKeeps and RunKeepsInv are proved |
| EventStream.EventStreamService.UnsubscribeAddress | backend/src/services/eventStreamService.ts:167-173 | the closure removes the client, its slot and what becomes empty, and stops the timer when nobody is left |
| EventStream.EventStreamService.Heartbeat | backend/src/services/eventStreamService.ts:43-66 | visits every registered client once and removes the failing ones |
| EventStream.EventStreamService.Broadcast | backend/src/services/eventStreamService.ts:213-256 | exactly the borrower's clients and the admins whose write succeeds are sent the event, each once |
| EventStream.EventStreamService.GetConnectionCount | backend/src/services/eventStreamService.ts:259-269 | the total is the number of registered clients, and zero exactly when there is none |
| EventStream.EventStreamService.CloseAllConnections | backend/src/services/eventStreamService.ts:271-311 | ends every registered client once and leaves empty registries and no timer |
| RateLimit.RateLimitService.CheckRateLimit | backend/src/services/rateLimitService.ts:54-91 | counts once, anchors the window on the first hit, and fails open |
| RateLimit.RateLimitService.GetRateLimitStatus | backend/src/services/rateLimitService.ts:117-151 | reports the stored count against the limit, and leaves the store as it was |
| RateLimit.WindowIsAnchored | backend/src/services/rateLimitService.ts:61-67 | the first hit fixes the end of the window and later hits keep it |
| RateLimit.StatusThenCheck | backend/src/services/rateLimitService.ts:117-151 | status and the next check in the same window agree if and only if the limit is positive or a counter exists |
| RateLimit.AtMostMaxRequestsPerWindow | backend/src/services/rateLimitService.ts:54-91 | under every interleaving of the single commands, crashes and failing commands included, at most maxRequests checks are allowed by their count between two resets |
| RateLimit.PermanentAfterStepIff | backend/src/services/rateLimitService.ts:64-91 | a step makes the counter permanent if and only if it is the crash or the failing command of the last check with the expiry still to set, and only a reset ends that |
| RateLimit.PermanentIffCrashed | backend/src/services/rateLimitService.ts:64-91 | over every interleaving the counter ends up permanent if and only if such a crash or failure happened and no reset came after it |
| RateLimit.CounterExpires | backend/src/services/rateLimitService.ts:64-91 | without a crash or failure there, over every interleaving a counter has its expiry or a check about to set it |
| RateLimit.CrashLeavesAPermanentCounter | backend/src/services/rateLimitService.ts:64-67 | a crash between increment and expiry leaves a counter without expiry |
| RateLimit.PermanentCounterLocksOut | backend/src/services/rateLimitService.ts:64-79 | such a counter at the limit refuses every later check, however much time passes |
| Pagination.PageHolds | backend/src/controllers/indexerController.ts:309-330 | a page holds exactly the rows from its cursor to the next, and a full limit of them when another page follows |
| Pagination.WalkIsComplete | backend/src/controllers/indexerController.ts:309-342 | following next_cursor to the end shows every row present at the start once, in order, whatever is appended in between |
| Pagination.FixedTable | backend/src/controllers/indexerController.ts:309-342 | on a fixed table the pages are the table, and there are at most its size over the limit plus one of them |
| Pagination.ShownIff | backend/src/controllers/indexerController.ts:309-342 | whatever states of the table the pages come from, an id is shown if and only if it is in the state behind the page whose range it falls into |
| Pagination.MissedIff | backend/src/controllers/indexerController.ts:301-342 | through the cache, a row present at the start is missed if and only if the snapshot that served its range lacks it |
| Pagination.OldRowsAreNeverMissed | backend/src/controllers/indexerController.ts:301-342 | a row that was there for the cache's lifetime is never missed |
| Pagination.CachedPageHidesNewRows | backend/src/controllers/indexerController.ts:301-342 | a walk that is served a first page cached before a row was added, and ends without it |
| EnvFile.WrittenPairs | scripts/deploy.ts:134-162 | the assignments afterwards are the old ones without the owned keys, values and order kept, followed by the entries |
| EnvFile.LooksUpTheNewValues | scripts/deploy.ts:134-162 | by first match owned keys have the new values and all others their old ones |
| EnvFile.OneLinePerOwnedKey | scripts/deploy.ts:143-149 | an owned key has exactly one line |
| EnvFile.KeptReads | scripts/deploy.ts:150-153 | filtering, collapsing blank lines and trimming change nothing that can be read off the kept lines |
| EnvFile.WritingTwiceIsWritingOnce | scripts/deploy.ts:134-162 | the same block written twice leaves the same file, character for character |

## Left out

- PostgreSQL and Redis: a table with unique keys and atomic transactions, and a map with expiry, stand for them; a transaction of one process is not interleaved with statements of another.
- Parsing: `parseEvent`, XDR and RPC responses; a parser is any function from events to a row, nothing or an exception, and the RPC log is complete and sorted by ledger.
- Dispatch after commit (webhooks, notifications, audit rows, cache invalidation): effects outside the modelled state.
- Other writers of scores (decay, reconciliation, absolute updates): the score theorems assume none runs.
- `withRetry` and `query` in backend/src/db/connection.ts: they would add an easier copy of the retry loop.
- EventStore.RunCallback: when the upsert or COMMIT itself fails, what the attempt wrote is not described, because it is rolled back.
- Floating point: loan arithmetic is over exact rationals, so the epsilon added before rounding is not modelled; amounts are whole cents.
- LoanViews.ViewsAgreeIff: assumes at most one request and one approval and one borrower address, as the unique keys and the contract provide; loans with several approvals are not compared.
- Explicit loan ids given to a default-check run: filtered and de-duplicated, then treated like the selected ones.
- Filters, paging and deadlines of the borrower's list: they select or decorate rows whose values are modelled.
- EnvFile.LooksUpTheNewValues: lines are read by the expression the rewriter itself uses, not by a dotenv parser (quotes, `export`, lower-case keys).
- Normalisation of methods and routes, hashing of credentials, JSON encoding of cached responses: inputs of the key functions and store.
- The pool of the default checker counts a call as completed when its worker resumes; a call that rejects, which ends the run, is not modelled.
- Contracts, frontend, authentication, validation, logging and metrics are not part of this model.
