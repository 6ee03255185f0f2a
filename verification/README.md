# Verification of the job queue

A Dafny 4.11 model of the job queue's core and proofs about it: the lease and fencing protocol over the shared jobs
table, the Redlock lock, the cron engine and its dispatcher, keyset pagination, idempotent enqueue, the worker pool,
the circuit breaker, the backoff engine, the reconciler's pass and the ETL statement builder with its SQL lexer.
`dafny verify dfyconfig.toml` checks the whole project.

## How it is organised

Concurrent parts are step systems. A state, an `Enabled` predicate and an `Apply` function say what one step does; a
run is a sequence of steps, each enabled where it is taken; the theorems quantify over all runs. Code that updates
things in place is a class or a method with loops, proved against functions that say what it should compute.

| file | what it models |
|---|---|
| `jobs.dfy`, `store.dfy` | the jobs table, the effect of each SQL statement, `PostgresStore` as an object |
| `lease_protocol.dfy` | workers, reconcilers, Kafka deliveries, cancellers and crashes at the grain of single SQL statements |
| `fencing.dfy`, `completion.dfy`, `exclusion.dfy`, `bounded_execution.dfy`, `stale_claims.dfy`, `retry_spacing.dfy`, `message_times.dfy` | safety of that protocol over every run, and where it ends |
| `coarse.dfy` | the same calls taken as atomic, and that every such run is a run of the fine protocol |
| `lease_renewal.dfy`, `job_worker.dfy` | the renewal loop in real time; one `jobWorker.Run` step by step |
| `redlock.dfy`, `redlock_manager.dfy` | the lock over all interleavings; `Acquire` and `Release` as loops over an array of nodes |
| `text.dfy`, `calendar.dfy`, `cron.dfy`, `scheduler.dfy`, `firing_window.dfy` | string functions, the Gregorian calendar, the cron parser and search, dispatch and its 1460-day window |
| `cursor.dfy`, `pagination.dfy`, `pagination_walk.dfy` | the base64 cursor, `ListJobs`, walks over a changing table |
| `enqueue.dfy`, `pool.dfy`, `breaker.dfy`, `backoff.dfy`, `reconciler.dfy` | one component each |
| `sql_lexer.dfy`, `insert_statement.dfy`, `executor.dfy`, `open_extract.dfy` | the SQL lexer, how built statements read through it, the builder, extracts with an open quote |

## What turned out not to hold

Each of these is stated with a witness and with the exact condition under which the property does hold.

- A cancelled job can come back. `CancelJob` leaves the lease token in the row, so a worker that read the row before
  the cancel still passes the token guard. A DEAD row stays DEAD in every continuation exactly when no worker holding
  the row's token is between its read and its write (`Fencing.CancelSticksIff`, `Fencing.CancelDuringRetryIsLost`). A
  canceller sees only the row: without a token it sticks, with one it need not (`Completion.DeadWithoutTokenSticks`,
  `Completion.DeadWithTokenIsRevived`).
- The transition table lets nothing leave COMPLETED. With the read and the write of `CancelJob` apart, a completed job
  may still be relabelled DEAD. A COMPLETED row stays COMPLETED in every continuation exactly when no cancel of it is
  between its read and its write (`Completion.CompletionSticksIff`, `Completion.CompletedIsRelabelled`).
- MaxRetries does not bound the handler starts of a job claimed from Kafka messages, because such a claim writes the
  message's attempt number plus one and not the row's. One message delivered once, but late, is enough. The bound holds
  in every run exactly when no Kafka claim is let through that neither goes beyond the row's attempt count nor is a
  last attempt; as the code lets every claim through, it holds only for MaxRetries = 1
  (`StaleClaims.BoundHoldsIff`, `StaleClaims.OneStaleClaimBreaksTheBound`, `StaleClaims.BoundWithEveryMessage`).
- A rescheduled job is left alone for its backoff by `ClaimNextJob`, but not by a claim from a Kafka message, which
  waits for the scheduled_at of its message and does not look at the row's. A rest until some time is kept in every run
  exactly when the job's messages carry only times that are not before it; the old message of a retried job is a
  counterexample (`MessageTimes.RestIsKeptIff`, `MessageTimes.OldMessageClaimsEarly`).
- The lease does not keep a job to one worker. In every run in which no requeue takes a row from a worker that is still
  alive, no two workers have a claim on one job; without that condition they can, for example when a claim waits in the
  queue past its lease (`Exclusion.WorkersAreAloneIff`, `Exclusion.RequeueDoubles`). What then keeps the two handlers
  apart is the execution lock alone, which is not renewed; when it has run out, both run (`Exclusion.TwoHandlersRun`).
- A lease of one second or less cannot be kept alive by the renewal loop; in general the lease holds exactly under two
  conditions on the delays (`LeaseRenewal.LeaseHoldsIff`, `LeaseRenewal.ShortLeaseIsLost`).
- A Redlock quorum that is set by hand to half the nodes or less, or a pause longer than the drift allowance, lets two
  callers hold the lock (`Redlock.MutualExclusionIff`).
- The breaker can refuse every call for ever exactly when HalfOpenRequests < SuccessThreshold; the server's own
  settings are in that case (`Breaker.LockOutIff`, `Breaker.ServerCanLockItselfOut`).
- An entry fires again exactly when it has a match within 1460 days of its last run, the zero time for an entry that
  never ran. So `0 0 29 2 1` never fires, and `0 0 29 2 *` never fires again after a firing on a 29 February
  (`FiringWindow.CanFireIff`, `FiringWindow.LeapMondayNeverFires`, `FiringWindow.LeapDayFiresNoMore`).
- Jobs accepted by the pool can be dropped when its context is cancelled. Every accepted job runs before `Stop` returns
  nil exactly when the context is never cancelled or the queue is unbuffered (`Pool.DrainsIff`).
- In an upsert whose extract leaves a single quote or a block comment open the conflict clause is not read at all; with
  an open double quote its column names are read as bare words instead. An accepted upsert reads as meant exactly when
  its extract closes its quotes and block comments (`OpenExtract.UpsertTokens`, `OpenExtract.UpsertReadsAsMeantIff`,
  `OpenExtract.OpenUpsertReadsAsNames`).

Where the code and its comments disagree the model follows the code: the comment above `CanTransition` allows every
state to go to DEAD, the function refuses COMPLETED and DEAD; the comment on `Next` speaks of four years, the window is
1460 days.

## Model

| member | source | states |
|---|---|---|
| `Store.PostgresStore.CreateJob` | internal/store/store.go:54-111 | adds the row, dated now if it had no creation time, exactly when its id is new and a non-empty idempotency key is free; no other row changes, and a refusal names its reason and changes nothing |
| `Store.PostgresStore.UpdateJob` | internal/store/store.go:156-222 | takes effect exactly when the transition table and the token guard both allow it; then the key, creation time and MaxRetries stay, the token stays only in RUNNING and FAILED, and no other row changes; otherwise nothing does |
| `Store.PostgresStore.CancelJob` | internal/store/store.go:225-240 | moves a row that is not COMPLETED or DEAD to DEAD and leaves its lease token in place; no other row changes |
| `Store.PostgresStore.ClaimNextJob` | internal/store/store.go:244-287 | fails exactly when nothing is due; otherwise claims a due row that no other due row precedes, with a new token, the lease and one more attempt, and changes no other row |
| `Store.PostgresStore.RenewLease` | internal/store/store.go:289-309 | extends the lease exactly when the row is RUNNING under the caller's non-empty token |
| `Store.PostgresStore.RequeueExpiredRunning` | internal/store/store.go:311-348 | requeues exactly a batch of at most `limit` expired leases, oldest first, sending exhausted jobs to DEAD and the others to PENDING now |
| `Store.PostgresStore.ReleaseClaim` | internal/store/store.go:350-371 | returns the row to PENDING without lease exactly when the caller still holds it |
| `LeaseProtocol.RunKeepsInv` | internal/store/store.go:156-371 | over every interleaving of single statements: workers hold the data their phase needs, rows the columns their state needs, no two workers share a token, a token about to be used for a claim is in no row |
| `Fencing.OnlyTheHolderWrites` | internal/store/store.go:192-197 | while a token is in a row, every update, renewal or release that changes the row carries that token |
| `Fencing.LostTokenIsFenced` | internal/store/store.go:183-197 | once a token has left a row it never returns to it and no call carrying it changes the row again |
| `Fencing.OneClaimPerPendingPeriod` | cmd/server/main.go:299-317 | two claims of one row, by Kafka or by the reconciler, are separated by a return to PENDING |
| `Fencing.FinalIsFinal` | internal/store/store.go:225-240 | a COMPLETED or DEAD row without token never becomes active again; only COMPLETED to DEAD by a racing cancel is possible |
| `Fencing.CompletionIsFinal` | internal/store/store.go:183-197 | once COMPLETED a row is never again PENDING, RUNNING or FAILED |
| `Fencing.CompletedAtMostOnce` | cmd/server/main.go:344-352 | the write of COMPLETED takes effect at most once per job in every run |
| `Fencing.CancelSticksIff` | internal/store/store.go:225-240 | a DEAD row stays DEAD in every continuation if and only if no worker holding its token is between read and write |
| `Fencing.CancelDuringRetryIsLost` | cmd/server/main.go:435-455 | a whole CancelJob between a worker's read and its FAILED write succeeds, and the job is PENDING again three steps later |
| `Fencing.RetryingIsReachable` | cmd/server/main.go:435-455 | that moment is reached from the empty table |
| `Completion.CompletionSticksIff` | internal/store/store.go:225-240 | a COMPLETED row stays COMPLETED in every continuation if and only if no CancelJob call for it is between its read and its write |
| `Completion.CompletedIsRelabelled` | internal/store/store.go:225-240 | a run from the empty table in which a cancel begun while the job ran relabels the completed job DEAD |
| `Completion.DeadWithoutTokenSticks` | internal/store/store.go:192-197 | a DEAD row without token stays DEAD in every continuation |
| `Completion.DeadWithTokenIsRevived` | internal/store/store.go:234-238 | a reachable DEAD row with a token that does not stay DEAD |
| `BoundedExecution.HandlerStartsAtMostMaxRetries` | cmd/server/main.go:425-477 | in every run whose Kafka claims of the job go beyond the row's attempt count or are last attempts, a job with MaxRetries = m > 0 has its handler started at most m times, with distinct attempt numbers, whatever crashes, expires, is released or fails to be recorded |
| `BoundedExecution.BoundWithoutMessages` | internal/store/store.go:244-287 | in particular when no message for this job is delivered and all its claims use ClaimNextJob, whatever other jobs do |
| `StaleClaims.BoundHoldsIff` | cmd/server/main.go:299-317 | for every m > 0 and every rule deciding which Kafka claims are let through, by the row's attempt count and the one written: the bound holds in all runs under the rule if and only if the rule lets through only claims beyond the row's count or of a last attempt |
| `StaleClaims.OneStaleClaimBreaksTheBound` | cmd/server/main.go:308-313 | any other claim breaks it: a run with a single delivery and more than m starts |
| `StaleClaims.BoundWithEveryMessage` | cmd/server/main.go:299-317 | with every message let through, numbered from 0, the bound holds if and only if MaxRetries is 1 |
| `StaleClaims.RedeliveryBreaksEveryBound` | cmd/server/main.go:299-317 | for every n some run with redelivered messages starts the handler of a job with MaxRetries = 2 exactly n times |
| `RetrySpacing.RetryIsNotClaimedEarly` | cmd/server/main.go:435-455 | a job whose retry was recorded, and that no Kafka claim takes meanwhile, is not claimed by ClaimNextJob before the failure time plus the drawn delay |
| `RetrySpacing.RetryWaitsForTheBackoff` | internal/store/store.go:256-258 | with the engine's delays that wait is at least the closed form for the failed attempt |
| `MessageTimes.RestIsKeptIff` | cmd/server/main.go:267-317 | for every time and every rule on the times messages carry: a row that rests until then is claimed by nobody before, in all runs under the rule, if and only if the rule lets through only times that are not before it |
| `MessageTimes.OldMessageClaimsEarly` | internal/service/job_service.go:54-81 | a retried row is claimed before its time by the message published when its job was created |
| `RetrySpacing.KafkaClaimsEarly` | cmd/server/main.go:267-317 | from every state in which a row rests, a message for it that is itself due can be delivered and its claim takes the row at once |
| `Exclusion.OneWorkerPerJob` | internal/store/store.go:311-348 | in every run in which no requeue takes a row from a worker that is still alive, no two workers have a claim on one job, by whichever path they came |
| `Exclusion.WorkersAreAloneIff` | internal/store/store.go:311-348 | no two workers have a claim on one job in all the runs considered, if and only if runs with a requeue that takes a row from a living worker are left out |
| `Exclusion.RequeueDoubles` | internal/store/store.go:326-341 | from every state in which a living worker's lease has run out and attempts are left, a requeue and the next claim put a second worker beside it |
| `Exclusion.TwoHandlersRun` | cmd/server/main.go:267-339 | a run in which a claim outlives its lease in the queue and both handlers of the job are running; any given time passes between their starts, so also more than the lifetime of the execution lock |
| `Coarse.CoarseRunIsFineRun` | internal/store/store.go:156-240 | every run of atomic store calls ends in a state that a run of the fine-grained protocol ends in |
| `Coarse.UpdateIsTwoSteps` | internal/store/store.go:156-222 | an atomic UpdateJob by a worker is its read followed at once by its write |
| `Coarse.LeaseColumns` | internal/store/store.go:244-371 | with atomic calls every RUNNING row has token, expiry and start time, every PENDING row none of them, no COMPLETED row has a token |
| `Coarse.StateMachine` | internal/store/store.go:553-567 | with atomic calls every state change of every run is an edge of the transition table, or RUNNING to PENDING by release or requeue |
| `Coarse.TerminalStatesAbsorb` | internal/store/store.go:553-567 | with atomic calls a COMPLETED or DEAD row is never touched again |
| `LeaseRenewal.LeaseHoldsIff` | cmd/server/main.go:355-397 | for any number of renewals, the requeue cannot take the row while its loop runs if and only if start delay + interval + latency < lease and interval + 2 latency < lease |
| `LeaseRenewal.ShortLeaseIsLost` | cmd/server/main.go:360-364 | a lease of a second or less is lost in some run, whatever the latencies |
| `LeaseRenewal.LateStart` | cmd/server/main.go:355-371 | a run that loses the lease before the first renewal when the first condition fails |
| `LeaseRenewal.LateRenewal` | cmd/server/main.go:368-385 | a run that loses the lease between two renewals when the second condition fails |
| `JobWorker.Worker.ScheduleRetry` | cmd/server/main.go:435-455 | a row held by the worker ends PENDING, without lease and due one backoff delay after the failure; any other row, cancelled or under another token, is left as it is |
| `JobWorker.Worker.DeadLetter` | cmd/server/main.go:466-477 | a row with the token that is not COMPLETED or DEAD ends DEAD without token; any other, a cancelled one included, is left as it is |
| `JobWorker.Worker.Finish` | cmd/server/main.go:331-353 | the held row ends COMPLETED exactly on success, PENDING exactly when a retry is allowed, else DEAD, always without lease, and no other row changes; a row no longer held changes only by being buried, and a cancelled or absent one not at all |
| `JobWorker.Worker.Run` | cmd/server/main.go:267-353 | a handler starts only past the breaker and the lock on a claimed row; a job not started is released or left as it was; without the row's token, or on a cancelled row, nothing changes |
| `Backoff.Engine.constructor` | internal/retry/backoff.go:25-45 | keeps each valid setting and replaces each invalid one by its default |
| `Backoff.Engine.Delay` | internal/retry/backoff.go:47-73 | the loop with its early exit computes min(MaxDelay, BaseDelay * Multiplier^max(attempt, 0)) and its jittered form |
| `Backoff.UnjitteredMonotone` | internal/retry/backoff.go:47-73 | more failures never shorten the delay, and it lies within [BaseDelay, MaxDelay] |
| `Backoff.JitterBounds` | internal/retry/backoff.go:65-70 | jitter only lengthens the delay, by at most its share and never past MaxDelay |
| `Backoff.DelayAtLeastUnjittered` | internal/retry/backoff.go:47-73 | every delay handed out is at least the unjittered one and positive |
| `Redlock.MutualExclusion` | internal/lock/redlock.go:56-124 | over every interleaving of any number of callers, no two unreleased locks on one resource are both before their expiry, given majority quorums and a pause within the drift allowance |
| `Redlock.MutualExclusionIff` | internal/lock/redlock.go:36-38 | exclusion holds in every run if and only if quorums are majorities and the drift allowance covers the pause |
| `Redlock.SmallQuorumsClash` | internal/lock/redlock.go:36-38 | with 2 * Quorum <= N two callers hold the lock at one moment |
| `Redlock.LongPauseClashes` | internal/lock/redlock.go:81-91 | with a pause beyond the allowance a lock outlives its own keys and a second caller acquires |
| `Redlock.QuorumsMeet` | internal/lock/redlock.go:85-91 | two majorities of the nodes share a node |
| `Redlock.FailedAcquireLeavesNothing` | internal/lock/redlock.go:62-100 | when cleanup calls reach their nodes, a failed, cancelled or retrying Acquire has left its token on no node, after any number of attempts |
| `Redlock.KeyStays` | internal/lock/redlock.go:103-124 | until it expires, a key is removed or replaced by nobody but its owner, however late other releases arrive |
| `RedlockManager.Manager.constructor` | internal/lock/redlock.go:35-52 | an unset quorum becomes a majority, a given one is kept; other unset values get their defaults |
| `RedlockManager.Manager.SetAll` | internal/lock/redlock.go:71-79 | counts exactly the nodes that were free, reached and answered; each of them holds the token until start + TTL; no other resource is touched |
| `RedlockManager.Manager.CleanAll` | internal/lock/redlock.go:93-96 | a node the call reaches no longer holds the token, and keys with another token stay |
| `RedlockManager.Manager.Acquire` | internal/lock/redlock.go:56-100 | a lock means a quorum of nodes holding the token until start + TTL and an expiry no later than that when the pause is within the drift; a failure leaves nothing behind when cleanup is reached; another caller's live key is never touched |
| `RedlockManager.Manager.Release` | internal/lock/redlock.go:103-124 | deletes the lock's own key where it is reached and no key with another token |
| `Cron.ParseField` | internal/scheduler/scheduler.go:196-239 | accepts exactly the valid fields, and the table it fills holds exactly the values the field means |
| `Cron.ParsePart` | internal/scheduler/scheduler.go:202-235 | one part is accepted exactly when valid and adds exactly its values |
| `Cron.MarkSteps` | internal/scheduler/scheduler.go:214-216 | sets exactly the multiples of the step |
| `Cron.ParseCron` | internal/scheduler/scheduler.go:159-194 | accepts exactly the valid expressions, and the parsed tables match exactly the minutes the five fields mean |
| `Cron.NextMatchIsLeast` | internal/scheduler/scheduler.go:252-276 | the plain minute-by-minute search gives the least matching whole minute after `from` and within 1460 days, or none exactly when there is none |
| `Cron.SkipMonth` | internal/scheduler/scheduler.go:257-260 | no match lies between a minute in a rejected month and the next month's first minute |
| `Cron.SkipDay` | internal/scheduler/scheduler.go:261-264 | no match lies between a minute of a rejected day and the next midnight |
| `Cron.SkipHour` | internal/scheduler/scheduler.go:265-268 | no match lies between a minute of a rejected hour and the next full hour |
| `Cron.Next` | internal/scheduler/scheduler.go:252-276 | the skip-ahead loop ends and returns what the plain search returns, from any starting time |
| `Cron.NextForExpression` | internal/scheduler/scheduler.go:252-276 | for every accepted expression the result is the least matching minute by the fields' own meaning, or none exactly when none exists in the window; from the zero time on a match is never the zero time, which stands for none |
| `Calendar.DateUnique` | internal/scheduler/scheduler.go:257-264 | a day number has one civil date: year, month and day are determined by it |
| `Calendar.YearStartClosedForm` | internal/scheduler/scheduler.go:257-264 | counting years day by day agrees with the Gregorian leap-year formula |
| `Scheduler.Scheduler.Register` | internal/scheduler/scheduler.go:54-68 | accepts exactly named entries with valid expressions; an accepted entry replaces its namesake and keeps its last run |
| `Scheduler.Scheduler.Dispatch` | internal/scheduler/scheduler.go:110-156 | fires exactly the enabled entries that are due and records the tick as their last run |
| `Scheduler.Scheduler.Loop` | internal/scheduler/scheduler.go:81-95 | over any ticks the last run of every enabled entry evolves as the per-entry recurrence says |
| `Scheduler.FiringHasItsMinute` | internal/scheduler/scheduler.go:132-143 | each firing after the first answers a matching minute in (previous firing, this firing] |
| `Scheduler.MinutesAreNotShared` | internal/scheduler/scheduler.go:132-143 | with nondecreasing ticks no two firings answer the same minute |
| `Scheduler.NothingLeftUnfired` | internal/scheduler/scheduler.go:132-143 | after every tick no matching minute within 1460 days of the last run lies at or before now |
| `FiringWindow.CanFireIff` | internal/scheduler/scheduler.go:132-143 | from any last run, an entry can fire again if and only if it has a match within 1460 days after it |
| `FiringWindow.LeapMondayMeans` | internal/scheduler/scheduler.go:159-194 | `0 0 29 2 1` is a valid expression and matches exactly midnight on a 29 February that is a Monday |
| `FiringWindow.LeapMondayNeverFires` | internal/scheduler/scheduler.go:252-276 | a schedule parsed from it has matches yet never fires |
| `FiringWindow.LeapDayMeans` | internal/scheduler/scheduler.go:159-194 | `0 0 29 2 *` is a valid expression and matches exactly midnight on a 29 February |
| `FiringWindow.LeapDayFiresNoMore` | internal/scheduler/scheduler.go:252-276 | after a firing on a 29 February such a schedule never fires again, over any ticks |
| `Cursor.LettersRoundTrip` | internal/store/store.go:525-533 | URL-safe base64 without padding decodes to what was encoded, for every byte string |
| `Cursor.CursorRoundTrip` | internal/store/store.go:525-543 | every key survives encoding and decoding, also with bars in the id, and never becomes the empty cursor |
| `Pagination.SortedDescends` | internal/store/store.go:402-419 | the reference order lists exactly the selected rows, by creation time and id descending |
| `Pagination.Query` | internal/store/store.go:408-434 | the first rows of that order |
| `Pagination.ListJobs` | internal/store/store.go:377-446 | one page: the clamped number of selected rows below the cursor in order, with a cursor exactly when more remain; a bad cursor is an error |
| `PaginationWalk.NoRowTwice` | internal/store/store.go:377-446 | following cursors while rows are added and changed, whatever is listed later, on the same page or a later one, has a strictly smaller key, so no row comes twice |
| `PaginationWalk.NoRowMissed` | internal/store/store.go:377-446 | a finished walk has returned every row that matched the filter throughout |
| `PaginationWalk.FixedTableIsListedWhole` | internal/store/store.go:377-446 | on a fixed table the pages put together are the sorted, filtered table |
| `PaginationWalk.FixedTableWalkEnds` | internal/store/store.go:439-445 | on a fixed table an unfinished walk has used up a full page per step, so it ends |
| `Enqueue.OneRowPerKey` | internal/service/job_service.go:32-81 | over every interleaving, at most one row has a non-empty key and all successful calls with it return that row's id |
| `Enqueue.RelookupFinds` | internal/service/job_service.go:58-65 | the lookup after a duplicate error always finds the row |
| `Enqueue.OnePublishPerKey` | internal/service/job_service.go:69-80 | at most one publish is issued for a row, and for a key, and none without a row |
| `Enqueue.JobService.Enqueue` | internal/service/job_service.go:32-81 | one call, with whatever other callers do before its insert and before its second lookup: an existing key returns its row and changes nothing; a duplicate error returns the row found by the second lookup; otherwise the filled-in row is added and published exactly when due |
| `Pool.Conservation` | internal/worker/pool.go:40-113 | in every interleaving the accepted jobs are, as a multiset, those queued, held by the dispatcher, running, leaving and finished |
| `Pool.BoundedAndInOrder` | internal/worker/pool.go:40-67 | never more than Concurrency handlers run, and jobs start in the order of acceptance |
| `Pool.StopDrains` | internal/worker/pool.go:97-113 | when Stop has returned nil nothing runs, the accepted jobs are those started and those left in the queue, and each ran exactly once if the context was not cancelled or the queue is unbuffered |
| `Pool.DrainsIff` | internal/worker/pool.go:97-113 | every accepted job has run whenever Stop returns nil, in all runs, if and only if the context is never cancelled or the queue is unbuffered |
| `Pool.CancelledContextDropsJobs` | internal/worker/pool.go:44-64 | with a cancelled context and a buffered queue an accepted job may never run |
| `Breaker.Breaker.Allow` | internal/circuitbreaker/circuitbreaker.go:48-67 | closed lets through; open lets through and turns half-open exactly once OpenTimeout has passed; half-open lets through while fewer than HalfOpenRequests successes are recorded; a refusal changes nothing; this is the step the history results below are about |
| `Breaker.Breaker.RecordSuccess` | internal/circuitbreaker/circuitbreaker.go:69-84 | a success while closed clears the failures, while half-open it counts towards closing, while open it changes nothing |
| `Breaker.Breaker.RecordFailure` | internal/circuitbreaker/circuitbreaker.go:86-103 | a failure while closed counts towards opening, while half-open it reopens at once, while open it changes nothing |
| `Breaker.ClosedCountsTheTrail` | internal/circuitbreaker/circuitbreaker.go:69-103 | over every history, while closed the failure count is the trailing run of failures and below the threshold |
| `Breaker.OpensAtTheThreshold` | internal/circuitbreaker/circuitbreaker.go:86-103 | a closed breaker opens exactly at the failure that completes the threshold, and remembers its time |
| `Breaker.OpenRefusesUntilTimeout` | internal/circuitbreaker/circuitbreaker.go:55-62 | once open, every call before openedAt + OpenTimeout is refused, whatever is recorded meanwhile |
| `Breaker.HalfOpenRefusesIff` | internal/circuitbreaker/circuitbreaker.go:63-66 | half-open refuses a call in some reachable state if and only if HalfOpenRequests < SuccessThreshold |
| `Breaker.LockOutIff` | internal/circuitbreaker/circuitbreaker.go:48-84 | some reachable state refuses every call for ever if and only if HalfOpenRequests < SuccessThreshold |
| `Breaker.ServerCanLockItselfOut` | cmd/server/main.go:126-131 | the server's configuration is in that case |
| `Reconciler.Reconciler.constructor` | internal/reconciler/reconciler.go:41-64 | positive settings are kept, others replaced by 100 jobs, five minutes and one minute, and the idle interval is never below the interval |
| `Reconciler.Reconciler.SubmitDue` | internal/reconciler/reconciler.go:121-145 | every claim is accepted by the pool or is the last one and its release was attempted; at most BatchSize are accepted; a pass ended by not-found leaves nothing due at that query; without other writers exactly the claimed rows change and, when pending rows have times, claims come in scheduled order |
| `Reconciler.Reconciler.Reconcile` | internal/reconciler/reconciler.go:110-151 | the whole pass: an expired batch is requeued first, then the above; work is reported exactly when something was requeued, failed, rejected, or submitted without cancellation |
| `Reconciler.ClaimTakesTheLeast` | internal/store/store.go:252-258 | a claim takes the least scheduled time of all pending rows, due or not, which is why claims stay in order whatever the clock does |
| `SqlLexer.TokensAreTheWordRuns` | internal/etl/executor.go:269-356 | the tokens are the lower-cased texts of the maximal word runs outside quotes and comments, in order, covering every word byte there |
| `SqlLexer.SqlTokens` | internal/etl/executor.go:269-356 | the one-pass loop with flags, buffer and two-byte steps returns exactly those tokens |
| `SqlLexer.ReadByte` | internal/etl/executor.go:286-353 | one turn of the loop: a word byte joins the buffer, any other flushes it, and the flags follow quotes and comments |
| `InsertStatement.LinesLexApart` | internal/etl/executor.go:269-356 | if `head` closes its quotes and block comments, the tokens of head + newline + s are those of head and then those of s |
| `InsertStatement.LexesApartIff` | internal/etl/executor.go:269-356 | that holds for every s if and only if `head` closes its quotes and block comments |
| `InsertStatement.QuotedAddsNothing` | internal/etl/executor.go:152-157 | a quoted identifier adds no token, whatever bytes it is made of |
| `Executor.NormalizeExtractSql` | internal/etl/executor.go:202-224 | accepts exactly the trimmed texts that start with SELECT or WITH and have no forbidden word outside quotes and comments |
| `Executor.ParseIdentifier` | internal/etl/executor.go:226-239 | accepts exactly names of one to three valid parts, which joined by dots give the name again |
| `Executor.SanitizeColumns` | internal/etl/executor.go:173-186 | accepts exactly lists of valid unqualified names and returns them quoted, in order |
| `Executor.NonConflictColumns` | internal/etl/executor.go:188-200 | the two loops keep the columns outside the conflict list in their order |
| `Executor.NonConflictKeeps` | internal/etl/executor.go:188-200 | each column outside the conflict list is kept as often as it was listed, and none inside it |
| `Executor.BuildInsertSql` | internal/etl/executor.go:102-171 | a statement is built exactly for a specification without faults, a reported fault is really there, and the text is the statement the source's formats give |
| `Executor.AppendKeepsTheExtract` | internal/etl/executor.go:152-157 | whatever the names, an append statement reads as insert, into and then exactly the extract's tokens |
| `Executor.ClauseIsReadIff` | internal/etl/executor.go:158-169 | the statement lexes apart from every line that may follow it if and only if the extract closes its quotes and block comments |
| `Executor.UpsertWords` | internal/etl/executor.go:158-169 | the tokens of an upsert whose extract closes its quotes: the append's, then on conflict do update set, then excluded once per updated column |
| `Executor.BuiltStatementReads` | internal/etl/executor.go:102-171 | for everything the builder accepts: the extract is a query without forbidden words and an append reads as above, as does an upsert whose extract closes its quotes |
| `OpenExtract.UpsertTokens` | internal/etl/executor.go:158-169 | the tokens of every upsert with ASCII names: the clause as written after a closed extract, nothing of it inside a single quote or a block comment, the conflict columns and each updated column twice inside a double quote |
| `OpenExtract.UpsertReadsAsMeantIff` | internal/etl/executor.go:102-171 | an accepted upsert with ASCII names reads as its append and its conflict clause if and only if the extract closes its quotes and block comments |
| `OpenExtract.OpenUpsertIsAccepted` | internal/etl/executor.go:202-224 | the builder accepts an extract that opens a double quote and does not close it |
| `OpenExtract.OpenUpsertReadsAsNames` | internal/etl/executor.go:158-169 | its upsert reads as insert, into, select and then the bare column names |

## Left out

- HTTP handlers, middleware, metrics, logging, readiness, configuration, Docker and load tests: no deep property.
- Kafka: only a source of PENDING job snapshots that may be stale or repeated; the client and its offsets are not modelled.
- The webhook executor and its network work; database errors other than the ones the store reports itself, except where a parameter says a call fails.
- Row columns that no guard reads (last_error, updated_at, task name and payload, metadata), NULL scanning and JSON; NULL is an option value.
- Random ids and tokens: fresh non-empty values chosen by the environment. Clocks are parameters.
- SKIP LOCKED: a claim or requeue sees no row locked by another statement; in the step system a claim may take any due row and a requeue any set of expired rows, so the safety results do not depend on it.
- A row left FAILED between the two writes of scheduleRetry: nothing in the source picks it up, and nothing is claimed about it.
- The execution lock is not part of the lease protocol: its results for all runs hold whether the lock works or not; its counterexamples do not track when a lock runs out.
- Redis nodes that lose keys, and calls that take effect after they returned an error. Node clocks are one clock, their error counted in the pause.
- Floating point in the backoff and the drift: exact reals. Durations are whole nanoseconds.
- Time zones and daylight saving: the scheduler runs in UTC; ticks are handled one after the other. Times before the zero time are allowed in the search, where the source could not tell a match at the zero time from none; from the zero time on that cannot happen.
- Scheduler.Scheduler.Dispatch: is one step, so a registration in the middle of it is not modelled; the handlers it starts are not either.
- RedlockManager.Manager.Acquire: has the nodes to itself during the call; interleaved callers are in `redlock.dfy`.
- JobWorker.Worker.Run: has the store to itself; what others do between its calls is in the lease protocol.
- Pagination: created_at holds whole microseconds, as a timestamp column does; the cursor carries them from the Unix epoch. Ids are ordered by code point, not by a database collation. Offsets and counts beyond the cursor are not modelled.
- Executor.NormalizeExtractSql: trims ASCII white space only, and lower-casing is ASCII; for bytes outside ASCII the source decodes UTF-8 first.
- Executor.ParseIdentifier: which non-ASCII names are valid is a parameter. pgx's Identifier.Sanitize is modelled from its documented behaviour.
- Executor.BuildInsertSql: takes which non-ASCII names are valid from the same parameter.
- Executor.BuiltStatementReads: says of an upsert only what follows from a closed extract; the other half is `OpenExtract.UpsertReadsAsMeantIff`.
- OpenExtract.UpsertTokens: is for ASCII column names, for the reason in the next line.
- OpenExtract.UpsertReadsAsMeantIff: is for ASCII column names; some names in other scripts add no word to the lexer, and inside an open double quote their clause is not told apart here.
- ETL execution, row counts and the specification's JSON decoding.
- The reconciler's timer loop and `nextInterval`.
