# WalaStack runtime kernel and job queue, modelled and verified in Dafny

WalaStack is a Rust framework whose kernel supervises long-running services, schedules tasks, hands out
capabilities and carries events; a job queue, an MCP client and an HTTP layer are built on it. This
project models the parts of it that are state, loops and arithmetic, and proves what they keep over
every run and every interleaving.

`dafny verify dfyconfig.toml` checks the whole project.

| file | models |
|---|---|
| `Timestamps.dfy` | UTC instants, the proleptic Gregorian calendar, RFC 3339 text (section 5.6) and byte order |
| `JobStores.dfy`, `JobStoreProviders.dfy` | the abstract queue, the memory store and the SQLite store, as functions and as mutable objects |
| `PullOrder.dfy` | when the two stores hand out the same jobs; the order among queues |
| `WorkerPool.dfy`, `PoolTheorems.dfy`, `PoolFairness.dfy`, `PoolOutcomes.dfy`, `PoolWaits.dfy`, `PoolProgress.dfy`, `PoolWorker.dfy` | N workers, any enqueuers and the clock over either store, across restarts of the durable one; safety, traces, budgets, what handlers' answers decide, fairness, retry delays, progress; the worker's own loop among the others |
| `Backoffs.dfy` | retry delays, saturation, the exponent cast, total waits |
| `Supervision.dfy`, `Health.dfy` | the restart watcher and the health registry that reads its events |
| `Scheduler.dfy`, `FireTimes.dfy` | the fire and attempt loops, cancellation, and the timing of periodic triggers |
| `McpCorrelation.dfy` | concurrent requests, the reader task and the timeouts over one pending map (JSON-RPC 2.0, section 5) |
| `Rotation.dfy` | weighted round-robin and the other selection strategies |
| `EventChannels.dfy`, `Shutdown.dfy` | channels made on demand under double-checked locking; the shutdown flag |
| `Plugins.dfy`, `Runtimes.dfy` | plugin registration and validation; the lifecycle of the runtime |
| `Common.dfy`, `Arithmetic.dfy` | stock types; facts about remainders |
| `Paths.dfy` | the router's and the OpenAPI document's route translators |

Concurrent parts are state machines. Every lock section, store call, flag read and published event is
one step; `Exec` runs any list of steps, and a step that is not enabled does nothing, so every list is a
run. Methods that change objects are proved equal to those steps or to specification functions.

Where the code and its documentation differ, the model follows the code:

- `ServiceFailed` is documented to be followed by a start when `will_restart` is set. That holds for a
  run if and only if none of its turns breaks it (`AnnouncedRestartsFollowIff`); after a refused restart
  under OnFailure it does not (`AnnouncedRestartNeverComes`), and health then shows the service as Ok
  (`RefusedRestartLooksHealthy`; exactly when health misleads is `HealthFollowsSupervisionIff`).
- `ServiceFailed` is also documented for every `start` that returns an error; a refused initial start
  publishes nothing (`FailuresPublishedIff`).
- FixedRate fires are documented as aligned to the period regardless of task duration. Lateness is never
  caught up (`FireIsLateByDrift`): a fire is aligned if and only if its drift is a whole number of periods
  (`AlignedIff`, and for one long task `LongTaskMisaligns`).
- `TaskFired` is documented as "a task attempt is starting" and `TaskRetrying` as a retry about to be
  attempted; a cancel in between breaks both (`AnnouncedAttemptsFollowIff`, `CancelledBeforeAttempt`).
- The comment that a wrapping ticket counter is fine holds only for wheels that a turn by 2^64 modulo
  the total leaves unchanged (`WrapExactness`). The documentation promises None when no listed name is
  registered; the code also returns None when only the picked name is not (`PickedNameMissing`; it never
  happens iff all names of positive weight are registered, `AlwaysAnsweredIff`).
- `EventBus::shutdown` is documented as idempotent; overlapping calls may both publish
  `RuntimeStopping` (`AnnouncedOnceIff`).
- `Runtime::shutdown_gracefully` is documented to do nothing the second time; it publishes
  `RuntimeStopped` every time (`StopEventsCounted`). Its comment that `RuntimeStopping` is out when the
  flag is found set fails between another task's setting the flag and its announcement
  (`AssumedAnnouncementIff`); then `RuntimeStopped` comes first (`StoppedFollowsStoppingIff`,
  `RushedStop`). A second `start` after a failed one starts nothing and reports success
  (`StartedIsHonestIff`).
- The plugin documentation asks for providers before the plugins that require them; the check runs after
  all registrations, so the order does not matter to it (`VerdictIgnoresOrder`).
- `delay_for` takes a zero-based retry index; the job workers pass the one-based attempt
  (`JobsWaitByAttempt`, `JobsWaitLonger`). An index of 2^31 or more wraps to a negative exponent
  (`WrappedDelaysAreSmall`), and jitter shortens delays beyond u64 nanoseconds (`JitteredDelay`).
- Queues are documented not to be priorities; the memory store serves a later queue only when the
  earlier ones have nothing due (`FirstReady`, `LaterQueuesWait`, `SecondQueueWaits`).
- Delivery is documented as at-least-once; an attempt whose worker is lost before it began is never
  handed over (`LostDelivery`).
- The branch of `request` for a reader that closed before responding cannot be reached
  (`SenderNeverDropped`): the reader's end does not drop the senders in the shared map.

Two observations on points that the documentation leaves open: nothing orders `JobEnqueued` before
`JobStarted` of the same job (`EnqueuedBeforeStartedIff`, with a run in `StartedMayPrecedeEnqueued`), and
a failed write leaves its entry in the pending map until a reply comes (`FailedEntryStaysIff`; `FailedWriteLeaks` is such a run).

## Model

| member | source | states |
|---|---|---|
| `Timestamps.TextOrderIsTimeOrder` | crates/walastack-jobs/src/sqlite.rs:136-145 | for UTC instants with four-digit years, byte order of the RFC 3339 text (0, 3, 6 or 9 fraction digits, `+00:00`) is time order, and equal text is equal time |
| `Timestamps.TextComparisonExact` | crates/walastack-jobs/src/sqlite.rs:144 | for a clock in a four-digit year, `scheduled_at <= now` on text agrees with time if and only if the schedule lies before the year 10000 |
| `Timestamps.EarlierPrintsSmaller` | crates/walastack-jobs/src/sqlite.rs:111-112 | the hard direction: earlier instants print as smaller strings, across fields and fraction lengths |
| `Timestamps.FractionBefore` | crates/walastack-jobs/src/sqlite.rs:111-112 | within one second a smaller fraction prints smaller even when the two fractions have different digit counts |
| `Timestamps.DatesFollow` | crates/walastack-jobs/src/sqlite.rs:111-112 | the calendar behind the text: the day after a date is the next date of the Gregorian calendar, by month lengths and the leap rule, for every day in both directions |
| `Timestamps.DatesStart` | crates/walastack-jobs/src/sqlite.rs:111-112 | and day 0 is 0000-01-01 |
| `Timestamps.TextSpellsInstant` | crates/walastack-jobs/src/sqlite.rs:111-112 | the text of a four-digit year is `YYYY-MM-DDThh:mm:ss`, a fraction and `+00:00`, whose time of day adds up to the instant exactly, with no more threes of digits than it needs |
| `Timestamps.DigitsReadBack` | crates/walastack-jobs/src/sqlite.rs:111-112 | a number printed in its width reads back |
| `JobStores.PullRefinesIff` | crates/walastack-jobs/src/lib.rs:579-614 | whichever store it is, a pull returns some due Pending or Retrying job of a listed queue, makes it Running with the next attempt number and changes nothing else, or returns nothing and nothing is due, if and only if it is the memory store or no waiting row of a listed queue is scheduled from the year 10000 on; the shape of the store is kept either way |
| `JobStores.PullRefines` | crates/walastack-jobs/src/lib.rs:579-614 | in particular from every sound store, which stays sound |
| `JobStores.MemoryPullRefines` | crates/walastack-jobs/src/lib.rs:579-614 | the deque walk refines that abstract pull and takes the id out of the one deque it is in |
| `JobStores.RowsPullRefinesIff` | crates/walastack-jobs/src/sqlite.rs:121-162 | the UPDATE with its sub-select, which compares text, refines the same abstract pull if and only if no waiting row of a listed queue is that late, whatever else is in the table |
| `JobStores.AttemptsAtTheLimit` | crates/walastack-jobs/src/sqlite.rs:139 | at the u32 limit the memory store saturates the attempt and the table wraps it |
| `JobStores.LateIsPicked` | crates/walastack-jobs/src/sqlite.rs:144-145 | such a row is handed out at once: the pull picks a late row, before every other |
| `JobStores.EnqueueRefines` | crates/walastack-jobs/src/lib.rs:556-577 | both stores give a new job the next id, and record its name, payload, queue, limit and schedule as submitted, the time, Pending and attempt 0; the store stays sound iff it can order the schedule |
| `JobStores.CompleteRefines` | crates/walastack-jobs/src/lib.rs:616-625 | completing changes that record's status only and nothing for an unknown id; the store stays sound iff it is not the memory store with that job waiting |
| `JobStores.FailRefines` | crates/walastack-jobs/src/lib.rs:627-659 | failing buries the job or re-schedules it, and changes nothing for an unknown id; the store stays sound iff the job was not waiting in memory and the new schedule can be ordered |
| `JobStores.MarkingSoundIffNotWaiting` | crates/walastack-jobs/src/lib.rs:627-659 | the mark methods do not look at the status: the deques stay sound if and only if the marked job was not waiting |
| `JobStores.WaitingIffInOnePlace` | crates/walastack-jobs/src/lib.rs:538-545 | in a sound memory store a job waits iff its id sits in a deque, then in exactly one position, in its own queue |
| `JobStores.SelectedIsDue` | crates/walastack-jobs/src/sqlite.rs:142-144 | the WHERE clause on text selects exactly the due jobs of the listed queues |
| `JobStores.SelectionExactIff` | crates/walastack-jobs/src/sqlite.rs:142-144 | for a whole table: the selection is exact if and only if every waiting row of a listed queue is scheduled before the year 10000 |
| `JobStores.SortsBeforeIsEarlier` | crates/walastack-jobs/src/sqlite.rs:145 | `ORDER BY scheduled_at, id` on text is the order by time, then id |
| `JobStores.FirstRowIsEarliest` | crates/walastack-jobs/src/sqlite.rs:141-147 | the sub-select picks the due row with the earliest schedule, and the smallest id among equals |
| `JobStores.FirstDue` | crates/walastack-jobs/src/lib.rs:591-598 | the position found is due and nothing before it in the deque is |
| `JobStores.FirstReady` | crates/walastack-jobs/src/lib.rs:587-610 | the queue served is the first listed one that has a due job |
| `JobStoreProviders.InMemoryJobStore.Enqueue` | crates/walastack-jobs/src/lib.rs:556-577 | new state and id are those of the store function; nothing else changes |
| `JobStoreProviders.InMemoryJobStore.PullNext` | crates/walastack-jobs/src/lib.rs:579-614 | the two nested searches over mutable maps compute `MemoryPull`: record and whole new state |
| `JobStoreProviders.InMemoryJobStore.MarkCompleted` | crates/walastack-jobs/src/lib.rs:616-625 | only the record map changes, as `MemoryComplete` says; unknown ids change nothing |
| `JobStoreProviders.InMemoryJobStore.MarkFailed` | crates/walastack-jobs/src/lib.rs:627-659 | record and deque change as `MemoryFail` says; unknown ids change nothing |
| `JobStoreProviders.SqliteJobStore.Enqueue` | crates/walastack-jobs/src/sqlite.rs:96-119 | the INSERT: a row under the next id |
| `JobStoreProviders.SqliteJobStore.SelectFirst` | crates/walastack-jobs/src/sqlite.rs:141-147 | one pass over the rows finds the first selected row in sort order |
| `JobStoreProviders.SqliteJobStore.PullNext` | crates/walastack-jobs/src/sqlite.rs:121-162 | the UPDATE ... RETURNING as a change of one row; an empty queue list returns nothing |
| `JobStoreProviders.SqliteJobStore.MarkCompleted` | crates/walastack-jobs/src/sqlite.rs:164-174 | the status of one row |
| `JobStoreProviders.SqliteJobStore.MarkFailed` | crates/walastack-jobs/src/sqlite.rs:176-215 | one row becomes Dead, or Retrying with its new schedule |
| `PullOrder.StoresPullAlike` | crates/walastack-jobs/src/sqlite.rs:141-147 | over one queue, with schedules that never go backwards and no retries, both stores return the same record at every pull of every run |
| `PullOrder.SamePick` | crates/walastack-jobs/src/lib.rs:591-598 | in such a state the deque walk and the sorted sub-select pick the same job, or both pick none |
| `PullOrder.OutOfOrderDiffers` | crates/walastack-jobs/src/sqlite.rs:145 | without the order of schedules they differ: two due jobs enqueued against their schedules come out in opposite orders |
| `PullOrder.LaterQueuesWait` | crates/walastack-jobs/src/lib.rs:587-610 | while the first listed queue has due jobs the memory store pulls those and leaves every other queue as it is |
| `PullOrder.SecondQueueWaits` | crates/walastack-jobs/src/lib.rs:587-610 | for every n, a run in which a due job of the second queue, enqueued first, waits through n pulls |
| `WorkerPool.InitInv` | crates/walastack-jobs/src/lib.rs:808-814 | an empty store of either kind with any number of idle workers satisfies the protocol invariant |
| `WorkerPool.StepInv` | crates/walastack-jobs/src/lib.rs:808-951 | every step of a worker, an enqueuer or the clock, the loss of a worker and a restart over the durable store keep the protocol invariant: store sound, holders distinct and in step with their records, every record's attempts, status, pull count and event trace consistent |
| `WorkerPool.RunInv` | crates/walastack-jobs/src/lib.rs:808-951 | the invariant holds after every interleaving of any length |
| `PoolTheorems.ReachableInv` | crates/walastack-jobs/src/lib.rs:808-951 | every reachable pool satisfies the invariant |
| `PoolTheorems.WaitingIffQueuedOnce` | crates/walastack-jobs/src/lib.rs:538-545 | in every reachable state a job is Pending or Retrying iff its id is in exactly one deque position, in its own queue |
| `PoolTheorems.HeldByOne` | crates/walastack-jobs/src/lib.rs:824-827 | a job in a worker's hands is Running, stored exactly as the worker sees it, and in nobody else's hands |
| `PoolTheorems.JobsConserved` | crates/walastack-jobs/src/lib.rs:556-659 | ids handed out = waiting + Running + Completed + Dead in every reachable state of either store; in memory the waiting jobs are as many as the deque positions |
| `PoolTheorems.FinishedStaysFinished` | crates/walastack-jobs/src/lib.rs:894-949 | Completed and Dead are absorbing: no later schedule of steps changes the record |
| `PoolTheorems.LostStaysRunning` | crates/walastack-jobs/src/lib.rs:820-823 | a job whose worker goes away stays Running for ever, unchanged: nothing reclaims it |
| `PoolTheorems.LostDelivery` | crates/walastack-jobs/src/lib.rs:854-879 | after a worker is lost no run adds to its job's trace: the attempt it held reaches the handler if and only if there is one and the worker had begun |
| `PoolTheorems.DispatchTrace` | crates/walastack-jobs/src/lib.rs:847-951 | in every reachable state a job's dispatch events are a prefix of Started(i) Failed(i) Retrying(i+1) for i = 1, 2, ... ended by Completed or Failed Dead within its budget, or of Failed(1) Dead(1) when no handler knows the job |
| `PoolTheorems.FinishedTrace` | crates/walastack-jobs/src/lib.rs:894-923 | a finished job has the whole history, ending with its stored status at its stored attempt; a dead one with a handler has made max(1, max_attempts) attempts, one that nobody handles a single one |
| `PoolTheorems.ReplaySpells` | crates/walastack-jobs/src/lib.rs:847-951 | the automaton that follows the events accepts exactly those histories and their prefixes |
| `PoolTheorems.PulledWithinBudget` | crates/walastack-jobs/src/lib.rs:603-607 | a job has been pulled exactly `attempt` times, at most max(1, max_attempts); Retrying implies 1 <= attempt < max_attempts |
| `PoolTheorems.PullsAndRemaining` | crates/walastack-jobs/src/lib.rs:913-948 | pulls so far plus attempts left equal the total budget of all jobs enqueued |
| `PoolTheorems.StepMeasure` | crates/walastack-jobs/src/lib.rs:603-607 | every successful pull uses up one remaining attempt and only an enqueue adds any |
| `PoolTheorems.FinitelyManyPulls` | crates/walastack-jobs/src/lib.rs:913-948 | without new jobs every schedule of any length makes at most the remaining number of pulls |
| `PoolTheorems.StepKeepsJobs` | crates/walastack-jobs/src/lib.rs:556-659 | no step drops a job or changes what it was enqueued with; ids grow by one per enqueue |
| `PoolOutcomes.DeadAfterLastAttempt` | crates/walastack-jobs/src/lib.rs:913-929 | in every reachable state `JobDead` of a job with a handler, and its stored status Dead, come with exactly max(1, max_attempts) attempts, and every announced retry is one of those attempts |
| `PoolOutcomes.AnswersDecide` | crates/walastack-jobs/src/lib.rs:894-949 | over every run a job is Completed only after failures and one success, Dead only after max(1, max_attempts) failures and no success, and waits for a retry only after fewer; and such answers leave it so, or Running while its worker has still to store that or was lost |
| `PoolOutcomes.RunTells` | crates/walastack-jobs/src/lib.rs:894-912 | over every run the published completions and failures of a job with a handler are the answers of its handler, in order |
| `PoolFairness.BoundedWaiting` | crates/walastack-jobs/src/lib.rs:587-610 | with a forward clock a due job at index k moves up by one for each pull from its queue, every one of which took a job that was ahead of it: it is within the first k + 1 pulls and is never overtaken from behind |
| `PoolProgress.StepWorks` | crates/walastack-jobs/src/lib.rs:815-951 | every effective step of a worker lowers the work left in the pool, five per attempt left and less for a job in hand |
| `PoolProgress.WorkersSettle` | crates/walastack-jobs/src/lib.rs:815-951 | without new jobs the effective steps of the workers are bounded by the work left, under every schedule of any length, whatever workers are lost and whatever restarts |
| `PoolProgress.HeldJobsMove` | crates/walastack-jobs/src/lib.rs:847-951 | a worker with a job in hand can always take an effective step |
| `PoolProgress.EmptyPullIff` | crates/walastack-jobs/src/lib.rs:579-614 | with idle workers and all waiting jobs due and listed, a pull is empty if and only if every job is Completed, Dead, or Running with nobody |
| `PoolProgress.QuietMeansDone` | crates/walastack-jobs/src/lib.rs:808-951 | when no worker can do anything effective, all workers are idle and every job is Completed, Dead, or lost in Running |
| `PoolWaits.JobsWaitByAttempt` | crates/walastack-jobs/src/lib.rs:926-938 | in every reachable state the i-th retry of a job waits the delay at index i of its handler's own backoff if it has one, of the default otherwise, with its own draw, or one second if the calendar library does not take that; the stored schedule is the end of the last wait |
| `PoolWaits.WaitsFromDecision` | crates/walastack-jobs/src/lib.rs:935-936 | each wait counts from the clock at the moment of the run in which the worker decided it |
| `PoolWaits.DeadJobWaited` | crates/walastack-jobs/src/lib.rs:913-948 | a job dead after n failures has waited the sum of the delays of indices 1 to n - 1, each with its own jitter draw, which is the backoff's own total over these draws if and only if the calendar library takes all of them |
| `PoolWaits.RetryTotalIff` | crates/walastack-jobs/src/lib.rs:935-938 | for any jitter draws, the one-second fallback changes a total if and only if some delay is longer than the calendar library takes |
| `PoolWaits.NoRetryIsEarly` | crates/walastack-jobs/src/lib.rs:591-598 | whoever pulls a retry, and in whatever interleaving, its delay since the failure is over |
| `PoolWaits.WaitsPass` | crates/walastack-jobs/src/lib.rs:930-945 | with a forward clock, from a job's first failure to its last retry at least all its delays pass |
| `PoolWorker.Worker.DispatchOne` | crates/walastack-jobs/src/lib.rs:847-951 | on either store the dispatch code equals the four dispatch steps of the pool machine, for every handler outcome and whatever other workers, enqueuers and the clock do in between; the retry time is the clock plus the job's backoff |
| `PoolWorker.Worker.TakeTurn` | crates/walastack-jobs/src/lib.rs:815-842 | one pass of the loop on either store, with or without a shutdown during the pull, is a run of machine steps with the others' steps interleaved |
| `PoolWorker.Worker.Loop` | crates/walastack-jobs/src/lib.rs:808-845 | the worker loop on either store, over any sequence of passes, among any other workers and enqueuers, is a run of the machine, so the theorems about runs apply to it |
| `PoolWorker.JobsAnnouncedOnce` | crates/walastack-jobs/src/lib.rs:1086-1093 | `JobEnqueued` is published exactly once per job, or its enqueuer is still about to, or was lost before it did |
| `PoolWorker.EnqueuedBeforeStartedIff` | crates/walastack-jobs/src/lib.rs:1086-1093 | when a worker begins a job, `JobEnqueued` is out if and only if the enqueuer has taken its second step |
| `Backoffs.LinearClosedForm` | crates/walastack-runtime/src/scheduler.rs:291-293 | the two saturating operations together are min(Duration::MAX, base + i * step) |
| `Backoffs.LinearMonotone` | crates/walastack-runtime/src/scheduler.rs:291-293 | linear delays never shrink |
| `Backoffs.ExponentialWithinMax` | crates/walastack-runtime/src/scheduler.rs:310-327 | an exponential delay never exceeds the cap |
| `Backoffs.ExponentialMonotone` | crates/walastack-runtime/src/scheduler.rs:310-327 | for factor >= 1 exponential delays never shrink while the index is below 2^31 |
| `Backoffs.WrappedDelaysAreSmall` | crates/walastack-runtime/src/scheduler.rs:314 | from index 2^31 on the cast makes the exponent negative, and no delay exceeds the very first |
| `Backoffs.DefaultBackoffWraps` | crates/walastack-jobs/src/lib.rs:439-443 | so the default policy of the workers has delay 0 at index 2^31 |
| `Backoffs.ExponentialDelayIs` | crates/walastack-runtime/src/scheduler.rs:310-327 | for every index, factor and cap the delay is base * factor^i in whole nanoseconds until that reaches the cap or u64, and the cap where it is infinite; from index 2^31 on the exponent is i - 2^32, and a negative factor counts as zero |
| `Backoffs.JitteredDelay` | crates/walastack-runtime/src/scheduler.rs:298-345 | with jitter the delay of the same index is the exponential one plus the drawn share of the jitter, up to u64 nanoseconds; it is never shorter if and only if the plain delay fits u64 nanoseconds or there is no jitter, and adds at most the jitter's share |
| `Backoffs.LinearTotal` | crates/walastack-runtime/src/scheduler.rs:776-780 | closed form of the total wait over any run of indices: an arithmetic series up to the index that the division of the remaining range by the step gives, the longest duration after that |
| `Backoffs.ExponentialTotal` | crates/walastack-runtime/src/scheduler.rs:310-327 | the total wait over any run of indices below 2^31 is at most the cap per delay; as long as no delay is cut it is the geometric series, less at most a nanosecond per delay |
| `Backoffs.JobsWaitLonger` | crates/walastack-jobs/src/lib.rs:930-935 | for every backoff the waits of indices 1 to n - 1 exceed those of 0 to n - 2 by the difference of the last and the first delay; under a linear one by a step per retry |
| `Supervision.OnePass` | crates/walastack-runtime/src/supervision.rs:311-394 | one pass of the watcher's loop body computes the specified turn: events, start calls, waits and the next handle and counter |
| `Supervision.Supervise` | crates/walastack-runtime/src/supervision.rs:299-395 | the loop over the mutable handle and counter computes the specified log of any sequence of turns |
| `Supervision.StartsAreBounded` | crates/walastack-runtime/src/supervision.rs:119-128 | each start call uses up one attempt of a policy that is not Always, and the watcher has returned once there are more turns than attempts left |
| `Supervision.StartCalls` | crates/walastack-runtime/src/supervision.rs:194-217 | exactly one start call under OneShot and at most max(1, max_attempts) under OnFailure, with termination, for every sequence of exits, restart results and a shutdown |
| `Supervision.AlwaysGoesOn` | crates/walastack-runtime/src/supervision.rs:119-128 | under Always every exit is followed by a start call as long as nothing is cancelled, shut down or interrupted |
| `Supervision.TurnsAreTruthful` | crates/walastack-runtime/src/supervision.rs:311-394 | over every run, turn by turn: the task's end is published as stop or failure with its error, failures and starts are numbered by the start calls made so far, a restart is announced if and only if the policy is Always or the failed start was not the last allowed, the wait before start n + 1 is the delay of index n - 1, and the watcher goes on after a start or a refusal that announces another |
| `Supervision.StartNumbers` | crates/walastack-runtime/src/supervision.rs:365-374 | announced starts carry strictly growing numbers until the counter saturates |
| `Supervision.FinalFailure` | crates/walastack-runtime/src/supervision.rs:343-356 | a failure that announces no restart is the last event |
| `Supervision.StopIsFinal` | crates/walastack-runtime/src/supervision.rs:334-341 | unless the policy is Always a clean stop is the last event |
| `Supervision.TraceOrder` | crates/walastack-runtime/src/supervision.rs:194-217 | all three orders for the whole trace, from the initial start on |
| `Supervision.AnnouncedRestartsFollowIff` | crates/walastack-runtime/src/supervision.rs:68-83 | for every policy and every run, each failure that announces a restart is followed at once by `ServiceStarted` if and only if no turn that is reached breaks the promise: a permitted restart after a panic that is interrupted or refused, or a refused restart after a clean exit under Always |
| `Supervision.AnnouncedRestartNeverComes` | crates/walastack-runtime/src/supervision.rs:387-391 | for every OnFailure budget of three or more, a run that announces two restarts and never starts the service again |
| `Supervision.FailuresPublishedIff` | crates/walastack-runtime/src/supervision.rs:194-208 | for every policy and run every panic and every start that returns an error is published as a failure if and only if the initial start succeeds |
| `Supervision.PanickingWaits` | crates/walastack-runtime/src/supervision.rs:130-140 | a service that keeps panicking is started after every failure and the waits add up to the delays of retry indices 0 to n - 2, each with its own jitter draw |
| `Health.ObservabilityState.OnServiceStarted` | crates/walastack-observability/src/lib.rs:187-201 | the handler is the specified transition of counters and entries |
| `Health.ObservabilityState.OnServiceStopped` | crates/walastack-observability/src/lib.rs:203-208 | the handler is the specified transition; an unknown service gets no entry |
| `Health.ObservabilityState.OnServiceFailed` | crates/walastack-observability/src/lib.rs:210-229 | the handler is the specified transition |
| `Health.ObservabilityState.Overall` | crates/walastack-observability/src/lib.rs:247-264 | the answer is the worst status there is, in whatever order the entries come |
| `Health.EntriesAreIndependent` | crates/walastack-observability/src/lib.rs:187-229 | a service's entry depends on its own events only |
| `Health.StatusIsLast` | crates/walastack-observability/src/lib.rs:187-229 | the status is decided by the last event of the service |
| `Health.StatusOfEntry` | crates/walastack-observability/src/lib.rs:187-229 | after any events at all, the status of an entry is what the last event of its service says |
| `Health.CountersCount` | crates/walastack-observability/src/lib.rs:187-229 | the global counters count the starts, stops and failures, up to u64 |
| `Health.EntriesCount` | crates/walastack-observability/src/lib.rs:187-229 | a service has an entry iff it has started or failed, and the entry counts its starts and failures, up to u32 |
| `Health.ErrorIsLast` | crates/walastack-observability/src/lib.rs:210-229 | the error shown is that of the service's last failure, and there is none before the first |
| `Health.WatchStatus` | crates/walastack-runtime/src/supervision.rs:311-394 | from any point of a run on, with or without stand-in handle, the status is right in the end if and only if the last turn acted on does not mislead, or was right before if there is none |
| `Health.HealthFollowsSupervisionIff` | crates/walastack-runtime/src/supervision.rs:299-395 | for every policy and every run, the registry shows Failed iff the last exit of the service itself was a panic with no restart allowed, Degraded iff it was a panic whose restart has not come up, Ok otherwise, if and only if the last turn acted on does not mislead (`Misleads`: the end of the stand-in under OnFailure, a stand-in kept down by shutdown after a panic, a refused restart after a clean exit, or one that uses up the budget) |
| `Health.HealthFollowsSupervision` | crates/walastack-runtime/src/supervision.rs:311-375 | in particular whenever restarts succeed |
| `Health.RefusedRestartLooksHealthy` | crates/walastack-runtime/src/supervision.rs:387-391 | a run in which it is wrong: Ok is shown for a service that panicked and never came up again |
| `Health.TotalsAgree` | crates/walastack-observability/src/lib.rs:187-229 | over any trace short enough not to saturate, per-service starts and failures add up to the global counters |
| `Scheduler.StepTrace` | crates/walastack-runtime/src/scheduler.rs:676-807 | each step keeps the split of the trace into whole fires and one current fire |
| `Scheduler.RunTrace` | crates/walastack-runtime/src/scheduler.rs:676-807 | so does every run |
| `Scheduler.FiresAreWhole` | crates/walastack-runtime/src/scheduler.rs:676-807 | at every moment the trace is fires 1, 2, ..., each with retries 2 to k and exactly one completion or failure with k <= max(1, max_attempts) calls, then at most a prefix of the next fire; none while the schedule sleeps uncancelled |
| `Scheduler.EventsAreTruthful` | crates/walastack-runtime/src/scheduler.rs:741-806 | over every run: no attempt beyond max(1, max_attempts), or beyond one without a policy, `TaskFailed` only after all of them, and retry n announced with the delay of the zero-based index n - 2 |
| `Scheduler.EventsTellResults` | crates/walastack-runtime/src/scheduler.rs:751-806 | over every run each success of the task is announced as a completion and each failure as a retry or the final failure, in order |
| `Scheduler.StopsAfterOneShotIff` | crates/walastack-runtime/src/scheduler.rs:713-716 | over every run without a cancel the schedule has stopped if and only if it is one-shot and its fire has come to a verdict |
| `Scheduler.OneShotFiresOnce` | crates/walastack-runtime/src/scheduler.rs:684-716 | a one-shot schedule fires at most once |
| `Scheduler.CancelSuppresses` | crates/walastack-runtime/src/scheduler.rs:451-453 | after a cancel at any moment of any run no fire and no task call happens, save one that had already passed its check |
| `Scheduler.CancelledActsNoMore` | crates/walastack-runtime/src/scheduler.rs:690-698 | the same for every cancelled state, although `changed()` may have consumed the notification |
| `Scheduler.CancelledWindsDown` | crates/walastack-runtime/src/scheduler.rs:676-717 | every own step of a cancelled schedule brings it closer to its end |
| `Scheduler.CancelInBackoffSleepsOn` | crates/walastack-runtime/src/scheduler.rs:788-792 | a cancel that a repeating schedule notices in a backoff is used up there: it sleeps on until its next time and stops then, without firing |
| `Scheduler.RunAttempts` | crates/walastack-runtime/src/scheduler.rs:733-807 | the attempt loop calls until the first success or the last allowed attempt and publishes one whole fire with waits of indices 0 to k - 2, or cancellation cuts it at the start of an attempt |
| `Scheduler.AnnouncedAttemptsFollowIff` | crates/walastack-runtime/src/scheduler.rs:744-794 | for every run that is not just on its way to an attempt: each `TaskFired` is followed by attempt 1 and each `TaskRetrying` by the attempt it names, if and only if no step breaks it: a cancel seen at the head of an attempt or during a backoff |
| `Scheduler.CancelledBeforeAttempt` | crates/walastack-runtime/src/scheduler.rs:747-749 | a run that announces a fire and attempts nothing |
| `FireTimes.RunLaps` | crates/walastack-runtime/src/scheduler.rs:688-716 | the fire loop produces the specified timeline |
| `FireTimes.NextFire` | crates/walastack-runtime/src/scheduler.rs:725-728 | a FixedRate fire comes one period after the last, or at once if the work took longer |
| `FireTimes.NeverBursts` | crates/walastack-runtime/src/scheduler.rs:725-728 | consecutive FixedRate fires are at least a period apart and fire k is no earlier than k periods after the start, whatever the delays |
| `FireTimes.FireIsLateByDrift` | crates/walastack-runtime/src/scheduler.rs:725-728 | fire k comes exactly its drift after k + 1 periods: the overshoots so far and the excess of each work over the period add up and are never caught up |
| `FireTimes.AlignedIff` | crates/walastack-runtime/src/scheduler.rs:725-728 | fire k is aligned to the period if and only if its drift is a whole number of periods |
| `FireTimes.LongTaskMisaligns` | crates/walastack-runtime/src/scheduler.rs:725-728 | after one task longer than the period, with exact sleeps, the next fire is aligned if and only if the excess is a whole number of periods |
| `FireTimes.ExactIffOnTime` | crates/walastack-runtime/src/scheduler.rs:725-728 | fire k comes exactly k + 1 periods after the start if and only if every sleep so far was exact and every task before it fitted |
| `FireTimes.DelayAfterCompletion` | crates/walastack-runtime/src/scheduler.rs:721 | FixedDelay fires its delay, and what the sleep overshoots, after the start or the completion before |
| `McpCorrelation.StepInv` | crates/walastack-mcp/src/stdio.rs:102-148 | every step of callers, reader and timers keeps the correlation invariant |
| `McpCorrelation.RunInv` | crates/walastack-mcp/src/stdio.rs:199-254 | the invariant holds in every interleaving |
| `McpCorrelation.OwnResponseOnly` | crates/walastack-mcp/src/stdio.rs:229-253 | a call that ends with a response got one with its own id, and ends with a remote error iff that carries one, with its code and message, with the result iff there is one, else with null; without a response it ends with a write failure or a timeout |
| `McpCorrelation.FirstReplyAnswers` | crates/walastack-mcp/src/stdio.rs:112-116 | the response is the first one that came in for its id while it was pending, unchanged |
| `McpCorrelation.WriteFailureIff` | crates/walastack-mcp/src/stdio.rs:212-228 | a call ends with a write failure if and only if its write failed; one that wrote and got no response ends with a timeout |
| `McpCorrelation.WaitingCallsEnd` | crates/walastack-mcp/src/stdio.rs:229-245 | a call that waits ends with its response, and in no other way, once that has come in, and can end with a timeout that removes its entry as long as it has not |
| `McpCorrelation.IdsAreDense` | crates/walastack-mcp/src/stdio.rs:199-211 | ids are handed out one after the other from 1 on |
| `McpCorrelation.SenderNeverDropped` | crates/walastack-mcp/src/stdio.rs:231-238 | the branch for a closed reply channel is never reached |
| `McpCorrelation.RemovedAtMostOnce` | crates/walastack-mcp/src/stdio.rs:112-115 | a pending entry is taken out at most once, by the reader or by the timer |
| `McpCorrelation.AnswersAreFinal` | crates/walastack-mcp/src/stdio.rs:229-253 | a finished call keeps its answer whatever arrives later |
| `McpCorrelation.LateRepliesIgnored` | crates/walastack-mcp/src/stdio.rs:112-115 | a second reply, or one after the timeout has let go, changes nothing |
| `McpCorrelation.QuiescentPendingIff` | crates/walastack-mcp/src/stdio.rs:212-227 | when all calls have returned, an id is pending if and only if its write or flush failed and no reply for it has been taken |
| `McpCorrelation.FailedEntryStaysIff` | crates/walastack-mcp/src/stdio.rs:112-115 | the entry of a failed write stays, over any further run, if and only if no reply with its id comes in |
| `McpCorrelation.ReaderTask.Pump` | crates/walastack-mcp/src/stdio.rs:104-147 | the reader loop over any transcript gives every pending id its first response, skips all other lines and leaves the rest pending |
| `Rotation.WeightedPick` | crates/walastack-runtime/src/capabilities.rs:390-407 | the accumulation loop returns the name at place ticket mod total on the wheel of weighted names; it falls through only if the total is 0 |
| `Rotation.WheelCount` | crates/walastack-runtime/src/capabilities.rs:390 | the wheel holds each name exactly the sum of its weights |
| `Rotation.WheelInOrder` | crates/walastack-runtime/src/capabilities.rs:396-403 | the names lie on the wheel in the order listed, each in one run as long as its weight |
| `Rotation.WindowIsExact` | crates/walastack-runtime/src/capabilities.rs:394-406 | any total-weight consecutive tickets without a wrap pick each name exactly the sum of its weights |
| `Rotation.CallersShareExactly` | crates/walastack-runtime/src/capabilities.rs:396 | the same for tickets taken by concurrent callers and resolved in any order |
| `Rotation.WrapExactness` | crates/walastack-runtime/src/capabilities.rs:395-396 | with the 64-bit wrap, every window is exact if and only if the wheel is unchanged by a turn of 2^64 mod total |
| `Rotation.DividingTotalIsInvariant` | crates/walastack-runtime/src/capabilities.rs:395-396 | a total that divides 2^64 satisfies that condition |
| `Rotation.WrapSkipsAProvider` | crates/walastack-runtime/src/capabilities.rs:395-396 | three names of weight 1 do not: across the wrap one is picked twice and one not at all |
| `Rotation.AlwaysAnsweredIff` | crates/walastack-runtime/src/capabilities.rs:390-407 | no ticket is answered with None if and only if some name has a positive weight and every name of positive weight is registered |
| `Rotation.PickedNameMissing` | crates/walastack-runtime/src/capabilities.rs:403-405 | one registered and one unregistered name: the second ticket gets None |
| `Rotation.WalkChain` | crates/walastack-runtime/src/capabilities.rs:296-298 | fallback returns a registered name of the chain with none before it registered, or nothing if no name of the chain is |
| `Rotation.Capabilities.Build` | crates/walastack-runtime/src/capabilities.rs:185-199 | exactly the weighted round-robin capabilities get a counter, at 0 |
| `Rotation.Capabilities.Rotate` | crates/walastack-runtime/src/capabilities.rs:381-408 | the pick at the current ticket, or nothing if that one name is not registered; the ticket is used up exactly when the total is positive |
| `Rotation.Capabilities.Get` | crates/walastack-runtime/src/capabilities.rs:281-303 | the provider named `default` without a strategy or under Single, the first registered of the chain under Fallback, the provider on the wheel at the ticket under weighted round-robin; only that moves the counter, and `AlwaysAnsweredIff` says when its answer can be None |
| `EventChannels.DoubleCheckedIsAtomic` | crates/walastack-runtime/src/events.rs:272-307 | in every interleaving, double-checked look-ups leave the map and hand out the channels that atomic get-or-create calls would |
| `EventChannels.CallersShareOneChannel` | crates/walastack-runtime/src/events.rs:309-344 | all callers of a type share one channel, no two types do, and one channel is made per type |
| `EventChannels.ChannelsStay` | crates/walastack-runtime/src/events.rs:292-307 | a channel is never replaced or removed |
| `EventChannels.DeliveryByType` | crates/walastack-runtime/src/events.rs:138-162 | in every interleaving each event reaches exactly the subscribers of its type at that moment: the bus of channels refines a bus without channels |
| `EventChannels.EventsReachSubscribers` | crates/walastack-runtime/src/events.rs:138-162 | the k-th event sent is the k-th delivery, and its receivers are exactly those who had subscribed to its type and not left |
| `EventChannels.CallsTakeEffectOnce` | crates/walastack-runtime/src/events.rs:138-175 | a call takes effect exactly once, as what it was begun for, when it has finished, and not before |
| `EventChannels.CallsCanFinish` | crates/walastack-runtime/src/events.rs:292-344 | a call that has begun can always finish by its own steps |
| `EventChannels.ChannelMap.LookAgain` | crates/walastack-runtime/src/events.rs:292-307 | the section under the write lock is one atomic get-or-create, whatever happened since the first look |
| `EventChannels.ChannelMap.Get` | crates/walastack-runtime/src/events.rs:309-344 | both looks undisturbed are one atomic get-or-create |
| `Shutdown.EarlyCallsAnnounce` | crates/walastack-runtime/src/events.rs:243-255 | when all shutdown calls have returned, those that announced, once each, are exactly those that checked the flag before it was set |
| `Shutdown.AnnouncedOnceIff` | crates/walastack-runtime/src/events.rs:243-255 | `RuntimeStopping` is published once if and only if exactly one call checked before the flag was set, and at least once if there was a call |
| `Shutdown.OverlappingCallsAnnounceTwice` | crates/walastack-runtime/src/events.rs:244-254 | two calls that both check first both publish |
| `Shutdown.CallsInTurnAnnounceOnce` | crates/walastack-runtime/src/events.rs:243-255 | calls that follow one another publish once, whatever their number |
| `Shutdown.FlagStays` | crates/walastack-runtime/src/events.rs:243-268 | the flag never goes back and a call that starts after it is set publishes nothing |
| `Shutdown.ObserversAgree` | crates/walastack-runtime/src/events.rs:258-268 | whoever asks after some call has returned sees the flag, and no observer sees it go back |
| `Plugins.LastRegistrationWins` | crates/walastack-runtime/src/capabilities.rs:80-92 | after all plugins a key holds what its last registration left, or what was there before |
| `Plugins.RegistryHoldsLast` | crates/walastack-runtime/src/plugins.rs:291-304 | over the whole list, a key holds the provider of the one registration that no later one repeats, or what was there before if nobody registers it |
| `Plugins.VerdictIgnoresOrder` | crates/walastack-runtime/src/runtime.rs:236-252 | whether the build is accepted is the same for every permutation of the plugins |
| `Plugins.SatisfiedIffOffered` | crates/walastack-runtime/src/plugins.rs:235-240 | after all plugins a requirement is met if and only if it was before or some plugin registers that capability, under that name if one is required |
| `Plugins.AcceptedIffOffered` | crates/walastack-runtime/src/runtime.rs:236-252 | the build is accepted if and only if every requirement of every plugin is met before or offered by a plugin; from an empty registry, if and only if each is offered |
| `Plugins.PlannedInOrder` | crates/walastack-runtime/src/plugins.rs:291-304 | the plan holds all services of all plugins and nothing else, in plugin order |
| `Plugins.OrderMattersIff` | crates/walastack-runtime/src/plugins.rs:291-304 | the final registry is the same in every order if and only if plugins that register the same key agree on its provider |
| `Plugins.DistinctKeysAreOrderFree` | crates/walastack-runtime/src/plugins.rs:291-304 | so plugins with distinct keys give the same registry in any order |
| `Plugins.CapabilityRegistry.Register` | crates/walastack-runtime/src/capabilities.rs:80-92 | inserts the provider and returns the one it replaced |
| `Plugins.PluginManager.ApplyAll` | crates/walastack-runtime/src/plugins.rs:291-304 | the loop over the plugins yields the specified registry and the services in order |
| `Plugins.ValidateRequirements` | crates/walastack-runtime/src/plugins.rs:312-324 | rejects with the first unmet requirement in plugin order, and accepts iff all are met; a named requirement needs that very provider |
| `Plugins.Build` | crates/walastack-runtime/src/runtime.rs:236-266 | the whole build, from the registrations alone: accepted iff every requirement was met before or is offered by a plugin, otherwise rejected with the first that is not; the builder's own services come before those of the plugins |
| `Runtimes.FlagRunsAlone` | crates/walastack-runtime/src/events.rs:243-255 | beside starts and stops the shutdown flag runs as by itself, the graceful stop being one more caller, so the theorems about the flag apply |
| `Runtimes.StopEventsCounted` | crates/walastack-runtime/src/runtime.rs:391-402 | over every run of starts, graceful stops and others' three-step signals: one `RuntimeStopped` per graceful stop that ended, and one `RuntimeStopping` per signal announced, which when all have returned are those that checked the flag before it was set |
| `Runtimes.StoppedFollowsStoppingIff` | crates/walastack-runtime/src/runtime.rs:391-402 | over every run each `RuntimeStopped` comes after a `RuntimeStopping` if and only if no stop that found the flag set ends before anybody has announced |
| `Runtimes.AssumedAnnouncementIff` | crates/walastack-runtime/src/runtime.rs:392-395 | that `RuntimeStopping` is out when the flag is found set is true if and only if some signal has taken its third step |
| `Runtimes.RushedStop` | crates/walastack-runtime/src/runtime.rs:392-401 | the run in which it is not: `RuntimeStopped` comes out before `RuntimeStopping` |
| `Runtimes.StopAlone` | crates/walastack-runtime/src/runtime.rs:391-402 | a graceful stop with nobody else about sets the flag, announces it unless that was done, and publishes `RuntimeStopped` |
| `Runtimes.StartAlone` | crates/walastack-runtime/src/runtime.rs:357-371 | a start with nobody else about publishes that it begins, the services up to the first failure, and `RuntimeStarted` if none fails |
| `Runtimes.ServicesStartOnce` | crates/walastack-runtime/src/runtime.rs:357-371 | over every run, at every moment, no service has been started twice, out of order or behind a failed one; between calls, once a start was made, all before the first failure have been |
| `Runtimes.StartedIsHonestIff` | crates/walastack-runtime/src/runtime.rs:357-371 | `RuntimeStarted` implies that all services were started if and only if no failed start is tried again |
| `Runtimes.Runtime.Start` | crates/walastack-runtime/src/runtime.rs:357-371 | the call is that stretch of steps, with others' signals in between: services start in order up to the first failure, which it reports, and the rest are dropped |
| `Runtimes.Runtime.StopGracefully` | crates/walastack-runtime/src/runtime.rs:391-402 | the call is its own steps, the three of its signal included, with others' steps in every gap |
| `Runtimes.Runtime.Run` | crates/walastack-runtime/src/runtime.rs:409-416 | start; if all went well look at the flag until it is set, whoever set it; stop in any case; with others' signal steps anywhere |
| `Paths.TranslatePath` | crates/walastack-router/src/lib.rs:99-118 | the router's scan over characters is: split on slashes, turn the first colon of a segment into a parameter to the segment's end, join |
| `Paths.ScanIsSegmentwise` | crates/walastack-router/src/lib.rs:99-118 | the scan never looks across a slash |
| `Paths.NormalizePath` | crates/walastack-openapi/src/lib.rs:811-831 | the document's loop with its slash fix-up is split, rewrite, join, on every string |
| `Paths.TranslatorsAgreeIff` | crates/walastack-openapi/src/lib.rs:811-831 | the two translators agree on a path if and only if every segment that contains a colon begins with one |
| `Paths.NormalizeIdempotent` | crates/walastack-openapi/src/lib.rs:808-811 | normalizing a normalized path changes nothing |
| `Paths.NormalizeBySegments` | crates/walastack-openapi/src/lib.rs:811-831 | two paths are documented alike only if their segments are rewritten alike |
| `Paths.PatternsTranslate` | crates/walastack-router/src/lib.rs:99-118 | every pattern of plain texts, `:name` parameters and texts with a parameter after them is served with `{name}` for each parameter, and documented with `{name}` for those at the start of a segment only |
| `Paths.PathIsPattern` | crates/walastack-router/src/lib.rs:99-118 | and every path is such a pattern |
| `Paths.JoinSplit` | crates/walastack-openapi/src/lib.rs:813 | joining the segments of a path gives the path back |
| `Paths.SplitJoin` | crates/walastack-openapi/src/lib.rs:813 | splitting joined segments gives them back, if none contains a slash |

## Left out

- HTTP serving, extractors, macros, CLI, test client, JWT and session code, secrets, configuration builders: plumbing or short maps with only easy facts.
- Job payloads, tool results, providers and task bodies: opaque values; handlers appear by their outcome, and a timeout of a handler or task is a failed outcome.
- Store I/O errors, SQL parsing, migrations, connection pools and the `last_error` column: SQL statements are atomic table updates that succeed.
- Parsing of stored rows: statuses are taken to read back as they were written, and timestamps too, whose text spells the instant exactly (`TextSpellsInstant`); the attempt column is read back modulo 2^32.
- The width of job ids (`next_id` as u64, i64 in SQLite), schedule ids and MCP ids: unbounded naturals, so fewer than 2^64 of each.
- Instants are nanoseconds without leap seconds; a retry date beyond the calendar's range, at which the source panics, is not modelled. That the calendar library takes delays up to i64::MAX milliseconds is taken from its documentation.
- The text format of timestamps is chrono's documented `to_rfc3339` output for UTC, written out in `Timestamps.dfy`; runs over the SQLite store assume a clock in a four-digit year and schedules before the year 10000; what happens otherwise is `TextComparisonExact` and `PullRefinesIff`.
- Floating point: delays and jitter use exact reals with the overflow threshold of f64 made explicit; rounding is not modelled. In the scheduler one jitter fraction stands for a whole schedule; supervision and the job workers draw anew each time.
- JobStores.PullRefinesIff: for the SQLite store the clock is in a four-digit year; schedules are arbitrary.
- Rotation.WrapExactness: stated for the 64-bit `usize`; on a 32-bit target the wrap is at 2^32.
- Rotation.WindowIsExact: weights are unbounded naturals, so the sum of u32 weights as u64 does not overflow.
- PoolWorker.Worker.Loop: over the SQLite store the retry times that the worker decides are before the year 10000 (`LoopFits`, which always holds in memory, `MemoryFits`); a restart of the process ends the loop.
- PoolTheorems.ReachableInv: a restart over the SQLite table keeps the same queues, handlers and backoffs and may change the number of workers; a memory store does not survive, so its restart is a new run.
- Scheduler.CancelSuppresses: one action whose check of the flag came before the cancel may still happen, as in the code.
- Cron and point-in-time triggers: their times come from a library and the wall clock.
- The map of supervised children, `drain` with its deadline per watcher, `shutdown_now`, and `pending_count`: the code spawns before it inserts, so no exact claim holds.
- Aborted MCP requests and peers that send requests; JSON parsing of lines is a classification of lines.
- The contents of broadcast and work-stealing channels (capacity, lag, closing): library code; a delivery is the set of subscribers at the moment of the send.
- `TypeId` downcasts, which always match; resources, which register like capabilities without names.
- Running phase and task counters of the health registry: single assignments and increments.
- Rendering of the OpenAPI document around its paths, and route matching inside the router's library.
