# NoETL worker and server: a verified model

NoETL runs playbooks on workers that claim work from a server. This project models the
parts of both that carry state from step to step, and proves what they keep over whole
runs. `dafny verify dfyconfig.toml` checks all of it.

Each component is modelled twice over the same functions. A class or method has the shape
of the code (fields updated in place, loops, early returns) and is proved against functions
on values; runs are sequences of those functions, in any interleaving, and the main results
are about all runs.

- **Pipeline executor** (`Pipeline`, `PipelineHistory`, `PipelineTermination`,
  `PipelineRetry`, `PipelineOutcomes`): the task loop with retry, skip, jump, continue and
  fail.
- **Runtime lease** (`RuntimeLease`): leader election through one row of the runtime table.
- **Transactional outbox** (`Outbox`, `OutboxProtocol`, `OutboxGuarantees`, `OutboxRows`):
  the row states, one publisher's batch, and any number of publishers that may crash.
- **Cursor worker** (`CursorWorker`): claim, execute and count, in three execution modes.
- **Log handler** (`VictoriaLogs`, `VictoriaLogsThreads`): bounded queue, shared batch,
  worker thread, flush and close.
- **Concurrency gate** (`AdaptiveConcurrency`): additive increase, multiplicative decrease,
  backoff window and slot counter.
- **Resource locator** (`PercentEncoding`, `ResourceLocator`, `LocatorPairs`,
  `LocatorSubjects`, `LocatorSpelling`): printing, parsing, key/value reading and NATS
  subjects.
- **Case evaluator** (`CaseEvaluator`, `CaseConditions`), **response redactor** (`Sanitize`,
  `SanitizeShown`), **snowflake ids** (`Snowflake`).

Tools, templates, regular expressions, HTTP answers and driver rows are oracles: function
parameters about which nothing is assumed. A database statement, a section under a lock and
a publish are single steps. Clocks are parameters; the database clock does not run backwards,
the clock of the snowflake generator may. Floating point numbers are exact reals.

## Where the code and its promises part

The model follows the code. In these places a promise of the documentation, or one a reader
would assume, does not hold; each has a witness and an exact condition among the lemmas.

- A pipeline need not end: it halts in every world exactly when no condition of its catch
  block can order a jump to a task of the list (`AlwaysHaltsIff`), and where conditions look
  at the failed task only, exactly when every jump goes forward (`HaltsIffJumpsForward`).
- Retry is by task name: it is transparent exactly when no name whose failure may be
  retried is shared (`TransparentIff`); otherwise a single allowed failure changes the pipeline's
  outcome (`SharedNameBreaksRetry`).
- The lease row records the owner's lease length, but the upsert does not compare against
  it: a contender judges the owner by its own. Two instances can both be within their lease
  exactly when their leases differ (`LeadersClashIff`). Releasing a lease frees it for
  nobody (`ReleaseIsInert`).
- An outbox row leaves PUBLISHED when marking it published took effect and raised
  nevertheless (`PublishedLeftIff`); a row whose publisher dies stays in flight and is never
  delivered again (`PublishableIff`, `OrphanedIff`); an event without an execution id is not
  deduplicated (`EnqueueAgain`).
- Closing the log handler does not send what is queued, nor always the entry the worker
  has in hand (`CloseSettlesIff`, `StopStrandsQueue`).
- An overload can shorten the backoff window (`OverloadCanShortenWindow`), exactly when less
  time has passed than the backoff is shorter (`WindowCutShortIff`); a success just
  before can be what does it (`SuccessCutsShortIff`). A gate with a minimum below one can
  shut (`IdleAdmitsIff`), and then nothing but a probe reopens it (`StarvedUntilProbe`);
  `ReopensIff` says when probes can, and `CanShutForGoodIff` for which bounds a gate may
  never reopen.
- An else case is a fallback only for the cases before it (`ElseIsFallbackIff`), and a
  routing when-case ends an inclusive evaluation only if no else case before it routed
  (`RoutingGoesOnIff`).
- Snowflake ids repeat before the epoch (`IdsRepeatBeforeEpoch`); `IdsRepeatIff` says
  exactly which do, and `RunIncreasesIff` which runs increase.
- A builder given an empty tenant, organization or id leaves it out instead of failing
  (`BuilderRoundTrip`). A cursor frame drops rows a driver hands over beyond those asked for
  (`FrameKeepsAllIff`).

One thing that looks like a flaw is none: the log handler's worker adds to its counters
without the lock, yet no update is ever lost (`CountersExact`).

## Model

A row for a method of a class, or for a method with a loop, says that the code's own steps
compute the functions about which the other rows speak. The results about runs, inputs and
interleavings are the lemmas. Some of them say what those functions compute, from the raw
answers of tools, templates and drivers and from the characters of texts, without naming them.

| member | source | states |
|---|---|---|
| Pipeline.FirstDecidingCondition | noetl/worker/pipeline_executor.py:352-391 | the catch action is that of the first condition that is an else or renders to true, 1 or yes; a rendering error does not decide; without one the action is fail |
| Pipeline.FindsFirstTask | noetl/worker/pipeline_executor.py:239-239 | a retry or jump target is the first task of that name |
| Pipeline.ParseTasks | noetl/worker/pipeline_executor.py:317-331 | the task list is the entries that are tasks, in order, over all definitions that are dictionaries |
| Pipeline.PipelineContext.UpdatePrev | noetl/worker/pipeline_executor.py:72-77 | a success sets the threaded value, the task and its result, and clears the error |
| Pipeline.PipelineContext.UpdateError | noetl/worker/pipeline_executor.py:79-82 | a failure sets the task and the error and nothing else |
| Pipeline.PipelineExecutor.EvaluateCatch | noetl/worker/pipeline_executor.py:352-391 | the catch loop finds that first deciding condition |
| Pipeline.PipelineExecutor.ApplyControl | noetl/worker/pipeline_executor.py:222-306 | each control action leaves exactly the index, retry counts and context of the step function, or ends with the failed result |
| Pipeline.PipelineExecutor.Attempt | noetl/worker/pipeline_executor.py:169-306 | one pass of the loop is one step of the run |
| Pipeline.PipelineExecutor.Execute | noetl/worker/pipeline_executor.py:124-315 | whenever the run halts, execute returns, and returns the run's result |
| Pipeline.RunMore | noetl/worker/pipeline_executor.py:168-306 | a run has one result, however many calls it is allowed |
| PipelineOutcomes.CatchIsOrdered | noetl/worker/pipeline_executor.py:352-402 | the catch action is what the first else, or first when that renders to true, 1 or yes, orders; an order without one of the four words fails the pipeline; three attempts unless it says otherwise |
| PipelineOutcomes.OnePassLaw | noetl/worker/pipeline_executor.py:168-315 | when every failure is answered by skip or continue, the run makes one call for each task, in order, and succeeds with the fold of the outcomes: a success sets _prev and its result, a skip sets _prev to a set_prev that is not null, any other failure neither |
| PipelineOutcomes.UnhandledFails | noetl/worker/pipeline_executor.py:298-306 | a first failure without such an order, or with none of the four, ends the run with the error, the failed task and what was known before it |
| PipelineOutcomes.JumpGoesTo | noetl/worker/pipeline_executor.py:266-291 | a first failure answered by a jump goes on at the first task of the name, with _prev and results as they were, or fails when there is none |
| PipelineOutcomes.RetryGoesTo | noetl/worker/pipeline_executor.py:223-257 | one answered by a retry goes on at the first task named by from, else by task, else at the failed task, counted once; or fails when no attempt is allowed or there is no such task |
| PipelineOutcomes.TriedAsAllowed | noetl/worker/pipeline_executor.py:174-228 | a task that fails n times and is always retried succeeds, in its n + 1-st try, exactly when n retries are allowed, and each try is told its number |
| PipelineOutcomes.LogIsOutcomes | noetl/worker/pipeline_executor.py:168-306 | in every run the history is that of the outcomes of its calls and of what the conditions order, retries and jumps included |
| PipelineOutcomes.FindTaskIff | noetl/worker/pipeline_executor.py:239-239 | a name finds its first task, or nothing exactly when no task bears it |
| PipelineOutcomes.TasksInOrder | noetl/worker/pipeline_executor.py:317-331 | the tasks of a pipe are those of its definitions one after the other; what is no dictionary contributes none |
| PipelineOutcomes.EntriesInOrder | noetl/worker/pipeline_executor.py:324-330 | those of a definition are its entries with a tool, in order |
| PipelineHistory.StepKeepsHistory | noetl/worker/pipeline_executor.py:203-306 | at every loop head results and _prev are those of the latest successes and skip values |
| PipelineHistory.RunReturnsHistory | noetl/worker/pipeline_executor.py:168-315 | so they are in what the run returns; a failed return names the last error and the task that raised it |
| PipelineHistory.PipelineReturnsHistory | noetl/worker/pipeline_executor.py:124-315 | the same for every pipeline from its start |
| PipelineTermination.BudgetShrinks | noetl/worker/pipeline_executor.py:226-228 | counting a retry of some task uses up one of the retries the tasks have left |
| PipelineTermination.StepShrinksMeasure | noetl/worker/pipeline_executor.py:168-306 | every step uses up one of the calls left: a retry pays for the pass it restarts |
| PipelineTermination.PipelineHalts | noetl/worker/pipeline_executor.py:168-306 | with forward jumps and at most A attempts per retry, n tasks halt within (n * A + 1) * n tool calls |
| PipelineTermination.AlwaysHaltsIff | noetl/worker/pipeline_executor.py:168-306 | a pipeline halts in every world exactly when no live condition of its catch block orders a jump to a task of the list, whatever its retries allow; otherwise there is a world in which it never ends |
| PipelineTermination.HaltsIffJumpsForward | noetl/worker/pipeline_executor.py:259-291 | where conditions see only which task failed, it halts whatever the tools do exactly when every jump goes to a later task |
| PipelineRetry.StuckIffOverrun | noetl/worker/pipeline_executor.py:223-236 | a run stops at a task exactly when the failure pattern has more failures in a row there than the attempts allow |
| PipelineRetry.EndingIsFold | noetl/worker/pipeline_executor.py:168-206 | its values are the fold of the tasks it completed |
| PipelineRetry.TransparentRetry | noetl/worker/pipeline_executor.py:167-315 | when each failure that occurs is answered by a retry, with attempts that may depend on task, error and attempt, and no name whose first failure may be retried is shared, the pipeline halts under any failure pattern; it equals the failure-free fold exactly when no task uses up its attempts, and otherwise fails with the fold of the earlier tasks |
| PipelineRetry.SharedNameBreaksRetry | noetl/worker/pipeline_executor.py:225-257 | in every pipeline with a repeated name whose first failure may be retried, one allowed failure makes the outcome differ from the fold |
| PipelineRetry.TransparentIff | noetl/worker/pipeline_executor.py:223-257 | so this law holds for all catch blocks, worlds, failure patterns and task values exactly when no such name is shared |
| RuntimeLease.Lease.TryAcquireOrRenew | noetl/server/runtime_leases.py:59-145 | acquires exactly when the row is absent, or a lease row that is its own or older than its lease; else reports the row's owner |
| RuntimeLease.Lease.GetOwnerInstance | noetl/server/runtime_leases.py:147-162 | the owner of a lease row, nobody for any other row |
| RuntimeLease.Lease.Release | noetl/server/runtime_leases.py:164-186 | the owner's release clears the ready flag only; another's, or one that raises, changes nothing |
| RuntimeLease.Lease.constructor | noetl/server/runtime_leases.py:41-57 | a lease lasts at least five seconds |
| RuntimeLease.AcquireSucceedsIff | noetl/server/runtime_leases.py:99-145 | in every reachable state an acquisition succeeds exactly when the caller won last or the last win is older than the caller's lease, releases notwithstanding |
| RuntimeLease.RunKeepsValid | noetl/server/runtime_leases.py:99-131 | owner and heartbeat are always those of the last successful acquisition |
| RuntimeLease.LeaseExclusion | noetl/server/runtime_leases.py:99-131 | in every interleaving, acquisitions by different instances are more than the later one's lease apart |
| RuntimeLease.LeadersClashIff | noetl/server/runtime_leases.py:107-131 | two instances can both be within their lease exactly when their leases differ |
| RuntimeLease.ReleaseIsInert | noetl/server/runtime_leases.py:164-179 | erasing all releases from a run changes no acquisition, owner or heartbeat |
| RuntimeLease.RefusedIsToldOwner | noetl/server/runtime_leases.py:144-162 | in every reachable state the owner a refused caller is told is the last acquirer |
| RuntimeLease.ReadyIff | noetl/server/runtime_leases.py:164-179 | after any run the row is offline exactly when the last acquirer has released since it last acquired |
| Outbox.EnqueueAgain | noetl/core/outbox.py:95-109 | enqueueing an event again changes nothing exactly when it has an execution id |
| Outbox.EnqueueKeepsNoDuplicates | noetl/core/outbox.py:36-36 | an insert keeps the table free of two rows with the same event of the same execution |
| Outbox.OutboxTable.Enqueue | noetl/core/outbox.py:61-109 | an event without an id is refused; otherwise the row is added unless it conflicts |
| Outbox.OutboxTable.SelectReady | noetl/core/outbox.py:117-125 | the first ready rows by id, without locked ones |
| Outbox.OutboxTable.ClaimBatch | noetl/core/outbox.py:112-140 | those rows, and only those, go in flight with one attempt more |
| Outbox.OutboxTable.MarkPublished | noetl/core/outbox.py:143-157 | marks the one row, whatever its status |
| Outbox.OutboxTable.MarkFailed | noetl/core/outbox.py:160-181 | marks the one row failed and available after the delay for its attempts |
| Outbox.OutboxTable.PublishClaims | noetl/core/outbox.py:214-237 | settles the claims in turn until marking a failure raises, with or without effect |
| Outbox.OutboxTable.PublishBatch | noetl/core/outbox.py:184-237 | every claimed row ends as its own publish and marks decided, committed calls that raise included; the count is the delivered ones; a raising mark_failed leaves the rest in flight |
| OutboxProtocol.StepKeepsOwnership | noetl/core/outbox.py:112-181 | no step lets two publishers, or one twice, hold a row, and a held claim matches its row |
| OutboxProtocol.RunKeepsValid | noetl/core/outbox.py:112-237 | ownership, claim times and delivery records are right in every reachable state |
| OutboxProtocol.RunKeepsNoDuplicates | noetl/core/outbox.py:36-36 | no two rows hold the same event of the same execution, in every run of inserts, claims and marks |
| OutboxGuarantees.OwnershipAndDelivery | noetl/core/outbox.py:112-237 | at most one claimant; attempts equals claims; published only after a successful publish |
| OutboxGuarantees.PublishedLeftIff | noetl/core/outbox.py:143-181 | a row leaves PUBLISHED exactly when its publisher marks it failed, raising or not, after its own mark took effect and raised |
| OutboxGuarantees.PublishedIsFinal | noetl/core/outbox.py:143-237 | when a raising call has no effect, PUBLISHED is never left |
| OutboxGuarantees.HiddenCommitUnpublishes | noetl/core/outbox.py:216-236 | otherwise it is, from every state where a publisher is about to mark a row |
| OutboxGuarantees.PublishOneIsRun | noetl/core/outbox.py:216-236 | one turn of the batch loop is a run of the protocol with the same effect on the table |
| OutboxGuarantees.PublishBatchIsRun | noetl/core/outbox.py:184-237 | the whole batch, cut short or not, is a run of the protocol that leaves the table the batch method leaves |
| OutboxGuarantees.RetrySpacing | noetl/core/outbox.py:160-181 | the n-th claim is at least 2^(n-1) - 1 seconds after the first, 511 + 256 * (n - 10) from the tenth on |
| OutboxRows.RetrySpacingIsTight | noetl/core/outbox.py:112-181 | for every n there is a run whose n-th claim is exactly that long after the first |
| OutboxRows.FailedRowComesBack | noetl/core/outbox.py:160-181 | a row marked failed after its n-th claim is claimable exactly from 2^(n-1) seconds later on, 256 from the ninth on, and keeps the first 2000 characters of the error |
| OutboxRows.PublishedRowIsDone | noetl/core/outbox.py:143-157 | a row marked published has the time, no error, and is not claimable |
| OutboxRows.ClaimSetsStatus | noetl/core/outbox.py:126-132 | a claim sets the status and counts the attempt of the rows it takes, and changes nothing else |
| OutboxRows.EnqueueAddsIff | noetl/core/outbox.py:61-109 | an event is added exactly when it has no execution or the table does not hold it for that execution; the new row is pending, untried and claimable at once |
| OutboxRows.EveryEventIsKept | noetl/core/outbox.py:61-181 | in every run, what was enqueued stays in the table |
| OutboxRows.RecordsAreOfRun | noetl/core/outbox.py:112-237 | what a state records of a row's successful publishes and claim times is what the steps of the run did |
| OutboxRows.RunKeepsWellMarked | noetl/core/outbox.py:112-181 | in every run pending rows are untouched, published ones have a time past and no error, failed ones an error of at most 2000 characters |
| OutboxRows.DeliveredCountIsCardinality | noetl/core/outbox.py:214-237 | the reported count is the number of claims published and marked |
| OutboxGuarantees.OrphanForever | noetl/core/outbox.py:117-135 | a row in flight that nobody holds stays so, and is not delivered again, in every run |
| OutboxGuarantees.PublishableIff | noetl/core/outbox.py:112-237 | a row can still be marked published exactly when it is not such an orphan |
| OutboxGuarantees.OrphanedIff | noetl/core/outbox.py:214-236 | a row becomes an orphan exactly when its holder dies or gives up before settling it; a mark_failed that raises but takes effect settles its own row |
| CursorWorker.ClaimFrameRows | noetl/worker/cursor_worker.py:456-499 | a frame is what the driver gives, row by row until it has none, cut at the target |
| CursorWorker.FrameKeepsAllIff | noetl/worker/cursor_worker.py:480-499 | no row a driver hands over is dropped exactly when it hands over no more than asked |
| CursorWorker.FrameSize | noetl/worker/cursor_worker.py:468-499 | a frame has at most max_rows rows, or one if that is less, and at most those left under the cap; it has the first the driver gives, up to that or to its first none |
| CursorWorker.StatusIff | noetl/worker/cursor_worker.py:558-565 | a run counts as failed exactly when it raises or its status spells failed in any casing, as a break exactly when it spells break |
| CursorWorker.CountsOfResults | noetl/worker/cursor_worker.py:539-565 | the counts of failed and break statuses are the numbers of rows whose result fails or asks to break |
| CursorWorker.AggregateFrameMetrics | noetl/worker/cursor_worker.py:539-555 | the row counters are the counts of the statuses |
| CursorWorker.CountsAddUp | noetl/worker/cursor_worker.py:539-544 | every status is counted under exactly one heading |
| CursorWorker.ExecuteInTurn | noetl/worker/cursor_worker.py:878-889 | rows run in order up to and including the first break |
| CursorWorker.ExecuteFrame | noetl/worker/cursor_worker.py:847-915 | in each mode every counted row has its own status, or its frame's, and only a sequential break leaves rows out |
| CursorWorker.ExecuteCursorWorker | noetl/worker/cursor_worker.py:687-966 | the loop ends; the cap holds; executed row k is claimed row k, by row with _index k and the result of its own run, by frame with that of its frame's run; failed is the number of executed rows whose run raised or spelt failed, breaks of those that spelt break, and the report is ok exactly when none failed; only rows after a sequential break go unexecuted; a break comes in the last frame only and ends the loop, which otherwise ends at the cap or at an empty claim |
| VictoriaLogs.AttemptsDecideFate | noetl/core/victorialogs_handler.py:221-244 | attempts made one by one come to the fate the first answer that is not a failed request decides |
| VictoriaLogs.Handler.Emit | noetl/core/victorialogs_handler.py:88-104 | an entry is queued, or dropped and counted when the queue is full |
| VictoriaLogs.Handler.TakeIfDue | noetl/core/victorialogs_handler.py:184-195 | the worker takes the whole batch when it is full or old enough, else nothing |
| VictoriaLogs.Handler.SendBatch | noetl/core/victorialogs_handler.py:206-244 | counts the batch as sent, or one failure, or nothing, as the answers decide |
| VictoriaLogs.Handler.Flush | noetl/core/victorialogs_handler.py:246-255 | takes and sends the shared batch |
| VictoriaLogs.Handler.Close | noetl/core/victorialogs_handler.py:257-268 | stops the handler and flushes the shared batch, not the queue |
| VictoriaLogsThreads.StepKeepsValid | noetl/core/victorialogs_handler.py:88-268 | every step of every thread keeps the places, the counters and the bounds |
| VictoriaLogsThreads.LogConservation | noetl/core/victorialogs_handler.py:88-268 | each accepted entry is in exactly one place, in order of acceptance; rejected ones are counted; the shared batch and the queue never exceed their sizes |
| VictoriaLogsThreads.EmitAcceptsIff | noetl/core/victorialogs_handler.py:73-104 | an entry is accepted, at the end of the queue, exactly when the queue is unbounded or has room; otherwise it is counted as dropped |
| VictoriaLogsThreads.BurstFillsQueue | noetl/core/victorialogs_handler.py:73-104 | of entries emitted in a row the first are queued in order, as many as there is room for, and the others dropped |
| VictoriaLogsThreads.EveryEmitIsAnswered | noetl/core/victorialogs_handler.py:88-104 | in every run each emitted entry is accepted or dropped, once, and nothing else is |
| VictoriaLogsThreads.DecideShipsIff | noetl/core/victorialogs_handler.py:184-199 | the worker ships the whole batch exactly when it is not empty and as large as the batch size or an interval old; an empty one is never shipped |
| VictoriaLogsThreads.IdleWorkerFlushes | noetl/core/victorialogs_handler.py:175-199 | also when nothing arrives |
| VictoriaLogsThreads.FlushShipsAll | noetl/core/victorialogs_handler.py:246-255 | a flush ships whatever the batch holds and begins a new interval |
| VictoriaLogsThreads.TriedAsOftenAsAsked | noetl/core/victorialogs_handler.py:221-244 | the worker and a flush try a batch as often as retry_attempts says, and give it up with the last failed request |
| VictoriaLogsThreads.UndisturbedUpdateCounts | noetl/core/victorialogs_handler.py:231-241 | reading and then writing a counter with nothing in between counts a batch as SendBatch does |
| VictoriaLogsThreads.CountersExact | noetl/core/victorialogs_handler.py:196-244 | although counters are read and written in separate steps, outside the lock in the worker, logs_sent and send_failures are exact but for the update in progress, and worker and flush never send at once |
| VictoriaLogsThreads.CloseSettlesIff | noetl/core/victorialogs_handler.py:173-268 | a call of close settles all accepted entries, in every interleaving without further emits, exactly when the queue is empty (or its one entry is the waiting worker's) and an entry the worker has yet to append is due at once by batch size or interval |
| VictoriaLogsThreads.StopStrandsQueue | noetl/core/victorialogs_handler.py:173-179 | what is queued when the worker stops is never sent, in any run |
| AdaptiveConcurrency.AdaptiveConcurrencyController.TryAcquire | noetl/worker/adaptive_concurrency.py:114-150 | one pass admits exactly when the window is over and the whole part of the limit leaves room |
| AdaptiveConcurrency.AdaptiveConcurrencyController.ReleaseSuccess | noetl/worker/adaptive_concurrency.py:152-165 | frees a slot, ends the streak, raises the limit by a tenth up to the maximum |
| AdaptiveConcurrency.AdaptiveConcurrencyController.ReleaseOverload | noetl/worker/adaptive_concurrency.py:167-193 | frees a slot, lengthens the streak, halves the limit down to the minimum, sets the window |
| AdaptiveConcurrency.AdaptiveConcurrencyController.ReleaseError | noetl/worker/adaptive_concurrency.py:195-199 | frees a slot and nothing else |
| AdaptiveConcurrency.AdaptiveConcurrencyController.Probe | noetl/worker/adaptive_concurrency.py:238-274 | a busy pool lowers the limit and extends the window, an idle one raises it |
| AdaptiveConcurrency.NewGateInBoundsIff | noetl/worker/adaptive_concurrency.py:63-65 | the first limit is within its bounds exactly when the bounds are in order |
| AdaptiveConcurrency.NewGateIsFresh | noetl/worker/adaptive_concurrency.py:63-68 | a first limit within the bounds is kept, one beyond them moved to the bound |
| AdaptiveConcurrency.AdmitsIff | noetl/worker/adaptive_concurrency.py:124-140 | one more is admitted exactly when the window is over and the slots then held are within the limit |
| AdaptiveConcurrency.ReleasesFreeOne | noetl/worker/adaptive_concurrency.py:152-199 | every release frees one slot of those there are; only a success ends the streak and adds a tenth |
| AdaptiveConcurrency.ProbeLowersIff | noetl/worker/adaptive_concurrency.py:239-262 | a probe lowers a positive limit above the minimum, by a quarter and at most to the minimum, exactly when the pool is over four fifths used, has nothing available or keeps somebody waiting; it then sets a window of half a second and a fifth for each one waiting, if that is longer |
| AdaptiveConcurrency.ProbeRaisesIff | noetl/worker/adaptive_concurrency.py:264-274 | it raises it by a fifth exactly when less than two fifths are used, half are available and the limit is more than a twentieth below the maximum |
| AdaptiveConcurrency.HalvingExact | noetl/worker/adaptive_concurrency.py:182-182 | k overloads in a row take a limit L to exactly max(min, L / 2^k) |
| AdaptiveConcurrency.GrowthExact | noetl/worker/adaptive_concurrency.py:159-159 | n successes in a row take it to exactly min(max, L + n / 10) |
| AdaptiveConcurrency.BackoffGrows | noetl/worker/adaptive_concurrency.py:185-186 | windows do not shrink with the streak and last from half a second to thirty |
| AdaptiveConcurrency.WindowOfStreak | noetl/worker/adaptive_concurrency.py:176-187 | the n-th overload in a row opens a window of the pause asked for, at least half a second, times 1.5^(n-1), 1.5^7 from the eighth on, at most thirty seconds |
| AdaptiveConcurrency.OverloadCanShortenWindow | noetl/worker/adaptive_concurrency.py:187-187 | from any gate, an overload asking for one second cuts short a window of thirty |
| AdaptiveConcurrency.WindowCutShortIff | noetl/worker/adaptive_concurrency.py:152-193 | over any run between two overloads, the second moves the announced end earlier exactly when the time passed is less than the difference of the two backoffs, by pauses asked for, streak and success in between; it moves the current end earlier exactly then or when a probe had paused for longer |
| AdaptiveConcurrency.SuccessCutsShortIff | noetl/worker/adaptive_concurrency.py:152-187 | after a success, an overload asking for the same pause does so exactly when less time passed than the ended streak had lengthened the backoff, which it had exactly when there was a streak and the pause is under thirty seconds |
| AdaptiveConcurrency.WindowNeverShrinks | noetl/worker/adaptive_concurrency.py:167-193 | not so while the server asks for one pause, nothing succeeds and no probe comes |
| AdaptiveConcurrency.SlotAccounting | noetl/worker/adaptive_concurrency.py:114-199 | with paired releases the counter is the outstanding acquires, never above the maximum, and the limit stays in bounds |
| AdaptiveConcurrency.DrainsBeforeAdmitting | noetl/worker/adaptive_concurrency.py:138-140 | nobody is admitted until so many slots are released that those left are fewer than the limit, with whatever successes and probes have added |
| AdaptiveConcurrency.IdleAdmitsIff | noetl/worker/adaptive_concurrency.py:138-140 | every reachable idle gate past its window admits exactly when the minimum is at least one |
| AdaptiveConcurrency.StarvedUntilProbe | noetl/worker/adaptive_concurrency.py:138-150 | a gate shut below one changes nothing until a probe |
| AdaptiveConcurrency.ReopensIff | noetl/worker/adaptive_concurrency.py:238-274 | such a gate can ever admit again exactly when its bounds and limit let probes, raising by 0.2 and lowering by a quarter, reach one; with a maximum of 1.05 or more always |
| AdaptiveConcurrency.CanShutForGoodIff | noetl/worker/adaptive_concurrency.py:138-274 | the exact bounds for which a gate can reach a state in which it never admits anybody again |
| PercentEncoding.DecodeOfUtf8 | noetl/core/resource_locator.py:37-37 | decoding undoes UTF-8 encoding |
| PercentEncoding.DecodeFirstIff | noetl/core/resource_locator.py:37-37 | bytes that start with the form of a character are read as it; others as the replacement character, for the longest start some character shares |
| PercentEncoding.UnquoteOfQuote | noetl/core/resource_locator.py:100-100 | unquote undoes quote for every text, and quoted text is unreserved characters and percent signs |
| LocatorSpelling.QuoteOneMore | noetl/core/resource_locator.py:222-222 | text is quoted character by character |
| LocatorSpelling.QuoteOneChar | noetl/core/resource_locator.py:222-222 | letters, digits and -._~ stand for themselves; another ASCII character is a percent sign and two upper-case hexadecimal digits |
| LocatorSpelling.QuoteKeepsUnreserved | noetl/core/resource_locator.py:222-222 | so unreserved text is left alone |
| LocatorSpelling.JoinSpelledOut | noetl/core/resource_locator.py:222-222 | a printed locator has one slash between two segments and none after the last |
| LocatorSpelling.UnquoteKeeps | noetl/core/resource_locator.py:100-100 | text without a percent sign is unquoted to itself |
| LocatorSpelling.UnquoteEscape | noetl/core/resource_locator.py:100-100 | an escape is read in either case |
| ResourceLocator.NormalizeSegmentIff | noetl/core/resource_locator.py:233-239 | a segment is accepted exactly when it is not blank and holds no slash once stripped |
| ResourceLocator.FromSegmentsIff | noetl/core/resource_locator.py:103-108 | a locator is built exactly from at least one acceptable segment, and has them stripped |
| ResourceLocator.SplitUrlOfPrinted | noetl/core/resource_locator.py:90-99 | of a printed locator, the first segment is the network location and the others the path |
| ResourceLocator.ParseOfPrint | noetl/core/resource_locator.py:86-108 | parsing the printed form of any locator returns it |
| ResourceLocator.PrintIsCanonical | noetl/core/resource_locator.py:86-222 | for whatever text parses, printing and parsing again changes nothing |
| LocatorSpelling.ParsePadded | noetl/core/resource_locator.py:88-90 | spaces around a locator do not matter, and exactly blank text is refused as empty |
| LocatorSpelling.ParseJoined | noetl/core/resource_locator.py:96-101 | for parts of quoted characters between slashes, empty parts are dropped and the others unquoted become the segments |
| LocatorSpelling.RootlessIsTheSame | noetl/core/resource_locator.py:96-101 | with or without the two slashes of a network location |
| LocatorSpelling.ExtrasAreRefused | noetl/core/resource_locator.py:93-94 | a query or a fragment after any such locator is refused; an empty one changes nothing |
| LocatorSpelling.LoneBracketIsRefused | noetl/core/resource_locator.py:90-90 | a network location is malformed exactly when it has one kind of bracket without the other |
| LocatorSpelling.OtherSchemeIsRefused | noetl/core/resource_locator.py:91-92 | for printed characters, a text is refused for its scheme exactly when it does not begin with noetl: in some casing |
| LocatorSpelling.BreaksAreDropped | noetl/core/resource_locator.py:90-90 | tabs and line breaks inside a locator are dropped |
| LocatorSpelling.ControlsAreDropped | noetl/core/resource_locator.py:90-90 | so are spaces and control characters in front of it |
| LocatorSpelling.SegmentErrors | noetl/core/resource_locator.py:103-108 | no segment, or the first that is blank or holds a slash, decides the error |
| LocatorPairs.BuildFromPairs | noetl/core/resource_locator.py:110-118 | pairs without a value are skipped, the others become alternating segments in order |
| LocatorPairs.ReadPairs | noetl/core/resource_locator.py:168-178 | an odd number of segments is refused, a repeated key keeps its last value |
| LocatorSpelling.LastValueWins | noetl/core/resource_locator.py:175-178 | of a key's values the last is read |
| LocatorSpelling.OddIsRefused | noetl/core/resource_locator.py:173-174 | reading pairs fails exactly for an odd number of segments |
| LocatorPairs.FromPairsIff | noetl/core/resource_locator.py:110-118 | succeeds exactly when some pair has a value and all that are used are acceptable |
| LocatorPairs.PairsRoundTrip | noetl/core/resource_locator.py:86-222 | print, parse and read back: nothing but what was given, and all of it exactly when no key was given two values |
| LocatorPairs.BuilderRoundTrip | noetl/core/resource_locator.py:242-335 | each URN builder succeeds exactly when some field is set and all set fields are acceptable, and reading the URN gives exactly those fields |
| LocatorSpelling.UrnSpelledOut | noetl/core/resource_locator.py:242-335 | a URN spells out tenant, org, region, zone, cluster and the resource in this order, each set field after its key |
| LocatorSubjects.FromSubjectOfSubject | noetl/core/resource_locator.py:120-141 | a subject reads back as the locator with its characters made safe |
| LocatorSubjects.SubjectRoundTripIff | noetl/core/resource_locator.py:197-219 | the trip through a subject is the identity exactly on NATS-safe segments |
| LocatorSubjects.SubjectTripStabilises | noetl/core/resource_locator.py:120-219 | after one trip the locator is stable |
| LocatorSubjects.SubjectsClashIff | noetl/core/resource_locator.py:197-219 | two locators share a subject exactly when they agree once made safe |
| LocatorSpelling.SubjectSpelledOut | noetl/core/resource_locator.py:218-219 | a subject is the word noetl and the segments between dots, with a low line for each character that is no letter, digit, low line or hyphen |
| LocatorSpelling.OtherSubjectsAreRefused | noetl/core/resource_locator.py:130-141 | nothing, another root and the root alone are refused; what follows the root is split at the dots |
| CaseEvaluator.RoutingIsFirst | noetl/worker/case_evaluator.py:286-303 | the routing action is the first next or retry of the actions |
| CaseEvaluator.Evaluator.EvaluateCondition | noetl/worker/case_evaluator.py:220-246 | a condition is true unless it raises, is blank or is a word for false |
| CaseConditions.HoldsIff | noetl/worker/case_evaluator.py:233-246 | a condition holds exactly when it renders to a text other than blank, false, 0, no and none in any casing with any spaces around |
| Base.SpacesListed | noetl/worker/case_evaluator.py:233-233 | stripping removes exactly the white space characters, which it lists |
| CaseConditions.WhenMatchedIff | noetl/worker/case_evaluator.py:174-196 | a when-case that is reached is matched exactly when its condition renders to such a text |
| CaseConditions.ElseMatchedIff | noetl/worker/case_evaluator.py:150-169 | an else case that is reached is matched exactly when no condition before it does |
| CaseConditions.OnlyElseMatched | noetl/worker/case_evaluator.py:145-211 | when every condition raises or says no, all else cases are matched and no other case |
| CaseConditions.PlainMatchGoesOn | noetl/worker/case_evaluator.py:201-209 | in inclusive mode a matched when-case without a retry or next lets the evaluation go on |
| CaseConditions.MatchesInOrder | noetl/worker/case_evaluator.py:159-196 | the matches are in the order of the cases, each with its condition and block |
| CaseConditions.ActionsAreOfMatches | noetl/worker/case_evaluator.py:168-199 | the actions are those of the blocks of the matches, one after the other |
| CaseConditions.RoutingIsRetryOrNext | noetl/worker/case_evaluator.py:286-303 | the routing action is the first retry or next of the actions |
| CaseConditions.ItemActionsInOrder | noetl/worker/case_evaluator.py:262-329 | an item yields one action for each of sink, retry, next and set it has, in this order, and then its tools in theirs, all marked with case and event |
| CaseConditions.BlocksConcat | noetl/worker/case_evaluator.py:262-264 | a block yields its items' actions one after the other, and nothing for an item that is no dictionary |
| CaseEvaluator.Evaluator.ExtractItem | noetl/worker/case_evaluator.py:262-329 | an item yields sink, retry, next, set and its tools, in that order |
| CaseEvaluator.Evaluator.ExtractActions | noetl/worker/case_evaluator.py:248-331 | a block yields its items' actions in order, and reports routing only when it set the routing action |
| CaseEvaluator.Evaluator.EvaluateCase | noetl/worker/case_evaluator.py:145-209 | one case that is reached fires by the rule, and says whether evaluation stops |
| CaseEvaluator.Evaluator.Evaluate | noetl/worker/case_evaluator.py:115-218 | matches, actions, routing and the else flag are those of the declarative rule |
| CaseEvaluator.ExclusivePicksOne | noetl/worker/case_evaluator.py:201-204 | in exclusive mode one when-case at most, and no case after it |
| CaseEvaluator.RoutingGoesOnIff | noetl/worker/case_evaluator.py:150-209 | in inclusive mode the cases after a chosen when-case that routes are reached exactly when an else case before it was chosen and routes |
| CaseEvaluator.ElseIsFallbackIff | noetl/worker/case_evaluator.py:150-169 | an else block and a when-case can both match exactly when a when-case with a condition of its own follows an else case |
| Snowflake.BitsCompose | noetl/core/common.py:119-119 | masking, shifting and or-ing sets the three fields side by side |
| Snowflake.DigitByDigit | noetl/core/common.py:107-119 | the and and the or of two numbers have the and and the or of their binary digits |
| Snowflake.NextSequence | noetl/core/common.py:107-107 | masking wraps the sequence number after 12 bits |
| Snowflake.FieldsDecode | noetl/core/common.py:119-119 | the three fields of an id decode back |
| Snowflake.Generator.GetId | noetl/core/common.py:100-119 | a call goes on from the last timestamp, counts within it, and spins to the first later reading when the count is used up |
| Snowflake.CallIs | noetl/core/common.py:100-117 | a later reading is taken as it is with sequence number 0; otherwise the number is counted up in the last timestamp, and after 4095 a later reading is waited for |
| Snowflake.MillisecondHoldsSequence | noetl/core/common.py:100-117 | so a timestamp holds 4096 ids, however often the clock repeats it or falls back, and the next call goes on with a later one |
| Snowflake.NextIdLargerIff | noetl/core/common.py:100-119 | two ids in a row increase exactly when they share a timestamp or the later one's field is larger |
| Snowflake.IdsIncrease | noetl/core/common.py:100-119 | for any clock with timestamps in range all ids of a run are strictly increasing |
| Snowflake.RunIncreasesIff | noetl/core/common.py:100-119 | all ids of a run increase exactly when every new timestamp has a larger 41-bit field, wherever the timestamps lie |
| Snowflake.NodesNeverClash | noetl/core/common.py:119-119 | generators with different node ids never produce equal ids |
| Snowflake.IdsRepeatBeforeEpoch | noetl/core/common.py:116-119 | any two new milliseconds before the epoch give the same id |
| Snowflake.IdsRepeatIff | noetl/core/common.py:100-119 | two calls of a run give the same id exactly when they are of different timestamps with equal 41-bit fields and have equal sequence numbers |
| Sanitize.RedactResponse | noetl/core/sanitize.py:375-517 | the recursive pass with its dictionary loop computes the redacted tree |
| Sanitize.RedactCleans | noetl/core/sanitize.py:375-517 | above the depth limit the result shows no secret: every key and text is as its kind requires |
| SanitizeShown.NoSecretShown | noetl/core/sanitize.py:306-517 | above the depth limit and outside keychain references every text of the result is the redaction text, or is no secret, contains none of eight characters or more, and is not shaped like one unless it is a template or code |
| SanitizeShown.TextsAreRedacted | noetl/core/sanitize.py:383-517 | a text is replaced exactly when it leaks in this sense; lists and tuples keep their kind and length; nothing at the depth limit is touched |
| SanitizeShown.EntriesAreRedacted | noetl/core/sanitize.py:386-486 | the value of a listed key is replaced unless it is a keychain reference; under a key with a sensitive term so are other containers, and texts that leak; any other value is redacted in its turn |
| SanitizeShown.SecretIff | noetl/core/sanitize.py:282-334 | a text counts as a secret exactly when it is or contains one, or has the shape and no mark of a template or of code |
| SanitizeShown.KeysIff | noetl/core/sanitize.py:337-392 | keys are compared in lower case with low lines for hyphens; a sensitive term anywhere in a key counts |
| SanitizeShown.PlaceholderIff | noetl/core/sanitize.py:349-372 | a keychain reference is a dictionary whose first $noetl_ref is a dictionary whose first kind is keychain |
| Sanitize.UnchangedIffClean | noetl/core/sanitize.py:375-517 | redaction leaves a tree alone exactly when it is clean |
| Sanitize.RedactionIsStable | noetl/core/sanitize.py:375-517 | redacting twice is redacting once, for every redaction text |
| Sanitize.NothingInvented | noetl/core/sanitize.py:386-517 | whatever stands in the result stood there before, is the redaction text, or is a container of the same kind, size and keys |
| Sanitize.PlaceholderSurvives | noetl/core/sanitize.py:413-472 | keychain placeholders under sensitive keys are kept |

## Left out

- Waiting times between pipeline retries (backoff and delay), and the finally block, which is handed back untouched; a per-task catch is parsed by the code and never read.
- Malformed pipelines on which the executor itself raises: a tool or an else action that is not a dictionary, attempts that are no integer.
- An acquire statement that commits and then raises, transaction-start clock skew, and the race between a failed acquire and the query for the owner.
- Event payloads, their Arrow encoding and the subject column of the outbox; publish order within a claimed batch.
- Metric buckets by tool kind and name, the frame cache, frame heartbeats and commits in the cursor worker, and the order in which rows of a concurrent frame run.
- VictoriaLogs.Handler.SendBatch: does not model the pauses between attempts, because nothing depends on them.
- The log worker's loop is modelled by its steps in VictoriaLogsThreads, not as one method. Emit is one step there, since the logging framework calls it under a lock of its own.
- VictoriaLogsThreads.CloseSettlesIff: does not model the end of the process, because close waits five seconds for the worker and what the worker then still does is lost with it; the lemma is about the handler once it is at rest.
- AdaptiveConcurrency.AdaptiveConcurrencyController.TryAcquire: does not model waiting, because it is one pass of the acquire loop; wake-ups only lead to another pass.
- URL rules of the standard library beyond splitting: validation of bracketed hosts with both brackets and Unicode normalization checks. Lone surrogates, which quoting refuses, are not characters here.
- Locality and value_after of locators, the template cache (which evicts by insertion order, not by use), and building the evaluation context.
- Case folding of characters outside ASCII in keys and conditions; keys of dictionaries that are not text.
- The regular expressions of secret values and of credentials in URLs: one oracle.
- The logging sanitizer, the command reaper, credentials, settings, and everything that is SQL text, transport or wiring.
