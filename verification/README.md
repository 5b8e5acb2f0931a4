# Deepr in Dafny

Deepr runs research jobs against local models, prepaid plans and metered APIs. This project
models six parts of it and proves what they promise over every input, every run or every
interleaving:

- **Quota ledger** (`Json`, `QuotaEvents`, `LedgerLog`, `QuotaLedgers`, `LedgerLocks`,
  `LedgerConcurrency`): an
  append-only JSON-lines file with idempotency keys, a strict scan before each append, an
  optional durability barrier and a lenient reader. The file is a sequence of symbols, so
  torn writes, merged lines and line splitting are seen as they are; a run is any sequence of
  calls, failed reads, partial writes, failed barriers and crashes; and any number of callers in
  any number of processes interleave their scans, partial writes, barriers, reads and deaths
  under the lock protocol.
- **Capacity waterfall** (`LatestEvents`, `Admissions`, `QuotaSnapshots`, `Eligibility`,
  `Selection`): from a probed snapshot to a ledger event, to the latest state per account, to
  eligibility, to the backend selected.
- **A2A tasks** (`TaskManagers`, `TaskHistory`, `A2AServers`, `A2AProtocol`): the task table
  with its caps and eviction, and the server's handlers, background runs, cancel and stop as
  atomic segments between awaits.
- **Bounded fan-out** (`CircuitBreakers`, `FanOuts`, `FanOutProofs`, `FanOutBounds`,
  `AgentBudgets`, `Orchestrators`): workers behind a semaphore with a circuit breaker, and the budgets around
  them. The gate that shuts public execution off is a parameter.
- **Retrieval** (`FreshContexts`, `Retrievals`): the fetch schedule under per-host locks and
  a global semaphore, the batched search, and the bounded prompt packer.
- **Two small protocols** (`CancelJobs`, `Reservations`): cancelling a stored job by
  compare-and-swap, and the reserve, mark, settle, refund discipline around benchmark calls.

Objects that change in place are classes whose methods are proved against functions on
values (`QuotaLedger`, `AdmissionLedger`, `TaskManager`, `A2AServer`, `CircuitBreaker`,
`SubagentRuntime`, `AgentBudget`, `JobsContainer`); the theorems are about those functions
and about runs of them. `Text`, `Sorting` and `Counting` are shared helpers.

## What does not hold

Where the code does not meet a natural property, the model keeps the code and proves exactly
when the property holds.

- A write that tears exactly in front of its line break leaves a row that the next call still
  accepts; the append after it then destroys both rows, although both calls were acknowledged
  after a barrier (`AcknowledgedRowsLost`). The event that an acknowledged call returns is
  readable for ever if and only if the file ended in a finished line before the call or already
  held the event on one (`AcknowledgedForever`).
- `QuotaWindowSnapshot` documents that `used_fraction` wins when both forms are set, but
  `effective_units_used` prefers `units_used`; the model follows the code, and a window that
  reports both can then be eligible below its reserve floor (`MixedFormsBreakTheFloor`). The
  floor holds if and only if the binding window counts no more units left than its headroom's
  share of the limit (`FloorHoldsIff`).
- `snapshot_availability` calls a snapshot exhausted up to half a percent of headroom, and the
  gate lets it pass (`ProbeAndGate`, `ExhaustedProbePassesGate`).
- A failed release can leave the file lock with its process, and shuts every other process out
  until that process acquires it again or dies (`SomeoneCanMove`, `LeftBehindShutsOut`).
- A handler whose run raises an ordinary exception leaves its task WORKING
  (`LeftWorkingIff`), and `stop` drops a run begun while it was waiting, so that cancelling
  its task no longer reaches it (`LateRunEscapesCancel`).
- With no trip and no cancelled agent, every query has its result if and only if the workers'
  slice is not negative; a negative override makes every worker fail before its agent starts,
  and the result is empty and untripped (`EveryQueryAnsweredIff`, `NoResults`).
- `excerpt(1)` and `excerpt(2)` may return three characters, so the prompt may exceed its
  total by two (`OverrunIff`, `PromptBoundIsReached`).
- Without an etag, cancelling overwrites a job that completes between the read and the
  replace (`OverwritesTerminalIff`, `UnstampedStoreLosesCompletion`).
- A reservation is closed exactly once if and only if `pool.submit` either accepts the job,
  raises an ordinary exception without queueing it, or raises another one after queueing it
  (`ClosedExactlyOnce`, `InterruptLeaksReservation`).

## Model

| member | source | states |
|---|---|---|
| JsonProofs.LoadsEncode | src/deepr/backends/quota_ledger.py:623-631 | reading back any JSON-native value that was serialized returns that value, strictly and leniently |
| JsonProofs.TornIsUnreadable | src/deepr/backends/quota_ledger.py:397-408 | no proper prefix of a serialized value is JSON, so a torn write is never mistaken for a row |
| JsonProofs.MergedIsUnreadable | src/deepr/backends/quota_ledger.py:416-448 | a complete value followed by anything but blanks is not JSON |
| Json.PyEqMeaning | src/deepr/backends/quota_ledger.py:683-701 | when two metadata values are equal in Python: numbers and booleans by value, arrays item by item, dictionaries by the same keys with equal values in any order |
| QuotaEvents.EventRoundTrip | src/deepr/backends/quota_ledger.py:187-242 | `from_dict(to_dict(e))` is `e`, for every event and under every clock and number conversion |
| QuotaEvents.WrittenIsValid | src/deepr/backends/quota_ledger.py:541-621 | the strict validators accept what is written exactly when the request check accepted the event |
| QuotaEvents.ValidReadsAlike | src/deepr/backends/quota_ledger.py:210-242 | a record the strict validators accept reads the same whenever and wherever it is read |
| QuotaEvents.ValidRewrites | src/deepr/backends/quota_ledger.py:541-661 | reading a record the strict validators accept and writing it back restores every field but the text of its times, so that such a record names known enumeration values and holds the types that are written |
| QuotaEvents.LenientMeans | src/deepr/backends/quota_ledger.py:209-254 | reading fails exactly without a backend or on an unreadable time or number; unknown names fall back, and missing fields have their defaults |
| QuotaEvents.OverageMeans | src/deepr/backends/quota_ledger.py:256-267 | null says nothing about overage, a boolean and its usual texts what they say, and any other value whether it is empty |
| LedgerLog.WrittenLineReads | src/deepr/backends/quota_ledger.py:416-448 | the strict scan reads a written line as the event it was written for |
| LedgerLog.TornLineIsSkipped | src/deepr/backends/quota_ledger.py:416-491 | a torn line stops the strict scan and is skipped by the reader |
| LedgerLog.MergedLineIsSkipped | src/deepr/backends/quota_ledger.py:416-491 | whatever is appended to a row on its own unfinished line makes the line unreadable to both readers |
| LedgerLog.ReadMeans | src/deepr/backends/quota_ledger.py:416-491 | what both readers make of one line: blank, not JSON, JSON that is no object, an object that cannot be read, a row, and strictly only a valid one |
| LedgerLog.LinesMean | src/deepr/backends/quota_ledger.py:459-476 | a line break divides the file into the lines before it and those after it, and text without one is a single line |
| LedgerLog.SelectKeeps | src/deepr/backends/quota_ledger.py:481-489 | the filters keep exactly the rows of the backend and account asked for within the closed time range, in order |
| LedgerLog.AppendSplits | src/deepr/backends/quota_ledger.py:397-408 | splitting the file into lines undoes appending: one call adds to the last line and finishes it with its own break |
| LedgerLog.AppendRows | src/deepr/backends/quota_ledger.py:397-408 | the rows readable after appending any part of a line, in terms of the rows before |
| LedgerLog.ScanClear | src/deepr/backends/quota_ledger.py:416-448 | a scan that raises nothing accepted every line, and finds a match exactly when a row carries the proposed key, the same observation |
| LedgerLog.ReadersAgree | src/deepr/backends/quota_ledger.py:416-491 | on a file the strict scan accepts, `get_events` returns the same events in the same order |
| QuotaLedgers.QuotaLedger.FindIdempotentEvent | src/deepr/backends/quota_ledger.py:416-448 | the loop computes the strict scan: corrupt, conflicting, or clear with the last match; `ConflictIff` says what conflicts |
| QuotaLedgers.QuotaLedger.RecordEvent | src/deepr/backends/quota_ledger.py:368-457 | the new file, its durable prefix and the outcome of one call, on every path of success and failure, as a function that `CallEffect`, `ConflictIff` and `AcknowledgedIsDurable` describe |
| QuotaLedgers.CallEffect | src/deepr/backends/quota_ledger.py:368-414 | whatever becomes of a call, it keeps the file, adds the event's line (or the part that was written) only when it appends, leaves the file alone when it refuses, is refused for a blank backend or non-finite metadata, and makes the file durable only by a barrier that succeeds |
| QuotaLedgers.ConflictIff | src/deepr/backends/quota_ledger.py:416-448 | against a row of the same key a call conflicts, and changes nothing, if and only if one of the fourteen compared fields or the metadata differs; otherwise it is a replay of the row, whatever its time and detail |
| QuotaLedgers.QuotaLedger.GetEvents | src/deepr/backends/quota_ledger.py:459-491 | the filtered rows in file order; it raises exactly when some line is JSON but no object |
| QuotaLedgers.ExactlyOnce | src/deepr/backends/quota_ledger.py:368-457 | for calls taken one at a time: in every run of calls, torn writes, failed barriers, crashes and retries no two readable rows share a non-empty key, in the file and in every prefix of it |
| QuotaLedgers.ExactlyOnceFromEmpty | src/deepr/backends/quota_ledger.py:368-457 | the same for every run from an empty ledger, with no further condition |
| QuotaLedgers.AcknowledgedIsDurable | src/deepr/backends/quota_ledger.py:368-414 | a call acknowledged after a barrier, fresh or replayed, leaves the whole file durable; a replay returns the recorded observation and writes nothing |
| QuotaLedgers.FirstCallIsAcknowledged | src/deepr/backends/quota_ledger.py:368-414 | the first call on an empty ledger is acknowledged and leaves exactly its row |
| QuotaLedgers.AcknowledgedIsReadableIffCleanTail | src/deepr/backends/quota_ledger.py:397-408 | an acknowledged first append adds exactly its row if and only if the file ended in a finished line |
| QuotaLedgers.SealedForever | src/deepr/backends/quota_ledger.py:368-457 | a durable finished row stays readable through every later run |
| QuotaLedgers.AcknowledgedForeverIffSealed | src/deepr/backends/quota_ledger.py:368-457 | the event an acknowledged call returns is readable after every later run if and only if a durable finished line holds it when the call returns |
| QuotaLedgers.AcknowledgedForever | src/deepr/backends/quota_ledger.py:368-457 | the same in terms of the file before the call, fresh or replayed: it ended in a finished line, or a finished line of it already read as the event |
| QuotaLedgers.AcknowledgedRowsLost | src/deepr/backends/quota_ledger.py:397-448 | a write torn in front of its line break, a retry and one more call: all durable, both calls acknowledged, nothing readable |
| QuotaLedgers.LatestAfterCall | src/deepr/backends/quota_ledger.py:493-500 | on a clean tail an accepted first call upserts the latest-event table with its event, and a replay leaves it alone |
| QuotaLedgers.NeverBlocksItself | src/deepr/backends/quota_ledger.py:368-448 | after any run whose reads and writes succeed, the next scan accepts every line |
| QuotaLedgers.PartialAppend | src/deepr/backends/quota_ledger.py:397-448 | any part of a line leaves an accepted file accepted exactly when nothing was written, or the whole line after a finished one |
| QuotaLedgers.TornCallBlocks | src/deepr/backends/quota_ledger.py:397-448 | a failed write leaves a file the strict scan refuses if and only if it left something that is not the whole line after a finished one |
| QuotaLedgers.BlockedRun | src/deepr/backends/quota_ledger.py:368-448 | a refused file is never changed by any further sequence of calls, so no duplicate is risked |
| QuotaLedgers.RetryAfterTornWrite | src/deepr/backends/quota_ledger.py:368-457 | the outcome of a retry for every number of symbols written, on a finished and on an unfinished last line: append, replay with barrier, or refusal without a change |
| QuotaLedgers.RetryAfterFailedBarrier | src/deepr/backends/quota_ledger.py:387-414 | after a failed barrier the retry appends nothing, repeats the barrier and returns the same event, or, where the row was merged with an unfinished line, is refused |
| LedgerLocks.MutualExclusion | src/deepr/backends/quota_ledger.py:329-366 | over any callers in any processes, at most one runs the body, it holds both locks, and whoever is outside holds no thread lock |
| LedgerLocks.ExitFreesThreadLock | src/deepr/backends/quota_ledger.py:329-366 | leaving by success, timeout, acquisition error, release error or death frees the thread lock |
| LedgerLocks.SomeoneCanMove | src/deepr/backends/quota_ledger.py:329-366 | some caller inside can get on unless a failed release left the file lock behind and all who are inside wait for it in other processes; a free thread lock can be taken |
| LedgerLocks.LeftBehindByRelease | src/deepr/backends/quota_ledger.py:329-366 | a file lock is left behind by a failed release and nothing else, until it is acquired again or its process dies |
| LedgerLocks.LeftBehindExists | src/deepr/backends/quota_ledger.py:329-366 | a run that leaves it behind |
| LedgerLocks.LeftBehindShutsOut | src/deepr/backends/quota_ledger.py:329-366 | a file lock left behind by a failed release keeps every other process out while its process does nothing |
| LedgerConcurrency.CallsTakeEffectInOrder | src/deepr/backends/quota_ledger.py:329-491 | over all interleavings of scans, partial writes, barriers, reads, lock events, process deaths and power losses the file is what the one-at-a-time ledger makes of the calls in the order of their bodies, and every call and reader is answered as it would answer |
| LedgerConcurrency.HeldScanIsCurrent | src/deepr/backends/quota_ledger.py:378-385 | when a caller acts on its scan the file is still as it was scanned, and a line is written only behind a file whose scan was clear |
| LedgerConcurrency.ExactlyOnceInEveryInterleaving | src/deepr/backends/quota_ledger.py:329-457 | in every state of every interleaving, half-written lines included, no two readable rows share a non-empty key, and no crash changes that |
| LedgerConcurrency.AcknowledgedInEveryInterleaving | src/deepr/backends/quota_ledger.py:329-457 | an event acknowledged after a barrier on a file that ended in a finished line, or already held it on one, is readable in every later state of every interleaving |
| LedgerConcurrency.UnlockedCallsDuplicate | src/deepr/backends/quota_ledger.py:378-385 | without the lock two callers scan the same file clear, and both appends leave two readable rows of one key |
| LatestEvents.LatestPerKey | src/deepr/backends/admission.py:402-410 | the loop computes the incremental fold |
| LatestEvents.LatestIsArgmax | src/deepr/backends/quota_ledger.py:493-500 | the fold holds under each key the event of greatest time, then of latest position, and nothing under keys without events |
| LatestEvents.LatestDistinct | src/deepr/backends/admission.py:402-410 | the fold holds one event per key |
| Admissions.AdmittedIff | src/deepr/backends/admission.py:413-426 | a pair is admitted exactly when its latest event is an admission that has not lapsed |
| Admissions.AdmitHolds | src/deepr/backends/admission.py:362-384 | an admission no older than the pair's other events admits the pair until its days are over, to the second, with its score and note |
| Admissions.LapsedStaysLapsed | src/deepr/backends/admission.py:305-309 | without a new event, time only takes admissions away |
| Admissions.OtherPairsUnaffected | src/deepr/backends/admission.py:402-426 | events of other pairs never change a pair's standing |
| Admissions.RevokeDenies | src/deepr/backends/admission.py:387-399 | a revocation no older than the earlier events denies the pair at every time until an admission no older than it |
| Admissions.ListActiveIsExact | src/deepr/backends/admission.py:429-433 | `list_active` is sorted by model and then task class and lists exactly the pairs `is_admitted` accepts, once each |
| QuotaSnapshots.BindingWindow | src/deepr/backends/quota_snapshot.py:137-149 | the loop computes the binding window |
| QuotaSnapshots.BindingIsLeast | src/deepr/backends/quota_snapshot.py:137-149 | the binding window is the first of the measurable windows with the least headroom, and there is none exactly when none is measurable |
| QuotaSnapshots.FractionMeans | src/deepr/backends/quota_snapshot.py:52-65 | how much of a window is used: nothing after its reset, else its fraction, else its count's share of a positive limit, kept between nothing and everything; the headroom is the rest |
| QuotaSnapshots.UnitsMean | src/deepr/backends/quota_snapshot.py:67-82 | how many units of a window are used: none after its reset, else its count, else the fraction's share of the limit; the rest of the limit is left, never less than nothing |
| QuotaSnapshots.EventMeans | src/deepr/backends/quota_snapshot.py:200-256 | the event of a snapshot: only noted when the probe failed or no window is measurable, exhaustion exactly when some window has no headroom, and otherwise usage; kind, reset, units, unit name and confidence are those of the binding window |
| QuotaSnapshots.DetailMeans | src/deepr/backends/quota_snapshot.py:161-197 | available exactly with more than the minimum headroom in every measurable window; the detail says so and holds the probe's error |
| QuotaSnapshots.MetadataMeans | src/deepr/backends/quota_snapshot.py:223-236 | of the event's metadata the unit limit of the binding window comes before the snapshot's own entries, and those before the figures |
| QuotaSnapshots.FiguresMean | src/deepr/backends/quota_snapshot.py:223-233 | the headroom and label among the figures are those of the binding window |
| QuotaSnapshots.UnitsMatchHeadroom | src/deepr/backends/quota_snapshot.py:52-83 | for a window of one consistent form the units left are the headroom's share of the limit |
| Eligibility.ReportsBestAccount | src/deepr/backends/eligibility.py:70-133 | the account reported is eligible if any is, else the most seriously blocked, ties by key; `EvaluateStatus` and `BlockedBySeverity` give the status |
| Eligibility.EvaluateStatus | src/deepr/backends/eligibility.py:70-133 | exactly when a backend is unavailable, its task unsupported, a budget required or the backend eligible, in the order of the guards |
| Eligibility.BlockedBySeverity | src/deepr/backends/eligibility.py:61-67 | a blocked backend is reported with the most serious of its accounts' blocks: quarantine, overage, exhaustion, reserve, unknown quota |
| Eligibility.JudgeMeans | src/deepr/backends/eligibility.py:150-208 | exactly when one account is quarantined, on overage, exhausted, at its reserve, unknown or eligible |
| Eligibility.ReserveMeans | src/deepr/backends/eligibility.py:211-228 | an absolute reserve is compared first, then the fraction of the total, under either of its keys |
| Eligibility.MetadataNumberMeans | src/deepr/backends/eligibility.py:231-238 | the numbers read from metadata: numbers, booleans and numeric text, nothing else |
| Eligibility.StateMeans | src/deepr/backends/quota_ledger.py:493-515 | the state of an account is its latest event, exhausted and quarantined by its type, with the key it is sorted by |
| Eligibility.SummarizeIsExact | src/deepr/backends/quota_ledger.py:493-515 | `summarize` lists in key order exactly the states of the latest events, one per account |
| Eligibility.EvaluateIgnoresOrder | src/deepr/backends/eligibility.py:70-133 | the decision does not depend on the order of quota states of distinct accounts |
| Eligibility.SnapshotJudgement | src/deepr/backends/eligibility.py:150-228 | exactly when a state made from a snapshot is eligible under observed quota |
| Eligibility.EligibleSnapshotIsSafe | src/deepr/backends/quota_snapshot.py:200-256 | an eligible snapshot was ok, without paid overage, with headroom in every measurable window, and above the reserve floor in each when forms are consistent |
| Eligibility.ConsistentSnapshotIffSafe | src/deepr/backends/eligibility.py:150-228 | with consistent forms and no absolute reserve, eligible if and only if safe and counted in units |
| Eligibility.FloorHoldsIff | src/deepr/backends/eligibility.py:211-228 | the reserve floor protects a snapshot, for every floor, if and only if it is blocked anyway or its binding window counts no more units left than its headroom's share of the limit |
| Eligibility.MixedFormsBreakTheFloor | src/deepr/backends/quota_snapshot.py:52-83 | such a window: it reports both forms and is eligible with its headroom below the floor |
| Eligibility.ProbeAndGate | src/deepr/backends/quota_snapshot.py:161-197 | for an eligible snapshot the probe says available exactly above its minimum headroom |
| Eligibility.ExhaustedProbePassesGate | src/deepr/backends/quota_snapshot.py:161-197 | a snapshot the probe calls exhausted that the gate finds eligible |
| Eligibility.EligibleFromLedgerIsSafe | src/deepr/backends/eligibility.py:70-228 | the same safety end to end for any number of accounts: an eligible backend reports an account with its latest event, and if a snapshot made that event the snapshot is safe |
| Eligibility.OneAccountIsSafe | src/deepr/backends/eligibility.py:70-228 | with one account, the snapshot behind its latest event is eligible and safe |
| Selection.SelectsLeastRoutable | src/deepr/backends/selection.py:127-193 | the backend selected is routable and of least rank, and none is selected exactly when none is routable |
| Selection.SelectedClears | src/deepr/backends/selection.py:127-186 | the backend selected is available, supports the task, is paid for only behind the budget gate, has a measured score of at least the floor if there is one, and under observed quota an eligible account |
| Selection.RoutableMeans | src/deepr/backends/selection.py:196-243 | routable means eligible and, with a floor, measured at or above it |
| Selection.RefusedIff | src/deepr/backends/selection.py:142-145 | a selection is refused exactly when the floor or some score is outside zero to one |
| Selection.RankMeans | src/deepr/backends/selection.py:188-193 | the rank by kind, then cost model, then id |
| Selection.MeteredNeedsBudget | src/deepr/backends/selection.py:127-186 | a metered backend is never selected without the caller's budget gate |
| Selection.CheapestKindFirst | src/deepr/backends/selection.py:188-193 | owned capacity comes before prepaid, prepaid before paid |
| Selection.SelectIgnoresBackendOrder | src/deepr/backends/selection.py:127-186 | permuting backends of distinct ids changes nothing |
| Selection.SelectIgnoresStateOrder | src/deepr/backends/selection.py:127-186 | permuting quota states of distinct accounts changes nothing |
| Selection.MoreBackendsNeverWorse | src/deepr/backends/selection.py:127-193 | adding a backend never loses a selection nor worsens its rank |
| TaskManagers.TaskManager.CreateTask | src/deepr/a2a/task_manager.py:93-136 | the new table and reply of an admission, every cap checked in the source's order; `CreateStores` says what they are |
| TaskManagers.TaskManager.TransitionTask | src/deepr/a2a/task_manager.py:142-206 | the new table and reply of a transition, refused ones leaving the table alone; `TransitionStores` says what the task then holds |
| TaskManagers.TaskManager.EvictOldTerminal | src/deepr/a2a/task_manager.py:208-222 | the loop drops exactly the oldest excess terminal tasks |
| TaskHistory.CreateStores | src/deepr/a2a/task_manager.py:93-136 | exactly when a creation is refused and for which cap, what an accepted task holds, and that no other task changes |
| TaskHistory.TransitionStores | src/deepr/a2a/task_manager.py:142-206 | exactly when a transition is accepted, unknown or invalid, and which fields of the task it replaces |
| TaskHistory.MeasuresMean | src/deepr/a2a/task_manager.py:110-114 | the active count, the active bytes and the terminal ids, task by task |
| TaskHistory.Utf8Adds | src/deepr/a2a/task_manager.py:107-114 | the length in UTF-8 by code point, and over concatenation |
| TaskHistory.CapsHold | src/deepr/a2a/task_manager.py:93-222 | after any sequence of operations active count, active bytes, bytes per task and terminal count are within their caps, so the table is within their sum |
| TaskHistory.RetainsLastTerminations | src/deepr/a2a/task_manager.py:199-222 | after any sequence the retained terminal tasks are exactly the last `max_terminal_tasks` terminal transitions, in order |
| TaskHistory.RejectionChangesNothing | src/deepr/a2a/task_manager.py:93-206 | a rejected call leaves the table unchanged, and an accepted one, evictions included, leaves the reported task in it |
| TaskHistory.ActiveSurvives | src/deepr/a2a/task_manager.py:208-222 | an active task is never evicted or changed by an operation on another id |
| TaskHistory.TerminalIsFinal | src/deepr/a2a/task_manager.py:170-177 | terminal states are absorbing: their own transitions are refused, others leave or evict the task |
| A2AServers.A2AServer.HandleCreateTask | src/deepr/a2a/server.py:215-250 | the handler up to its await: admission, WORKING, the run registered under the task |
| A2AServers.A2AServer.ResumeConsult | src/deepr/a2a/server.py:251-273 | the handler after its await, on outcome, exception and cancellation, and its cleanup of the run table; `ResumeStores` says what the task then holds |
| A2AServers.A2AServer.HandleCancelTask | src/deepr/a2a/server.py:282-293 | the run asked to end if registered and pending, then the transition or the 404 or 409 reply |
| A2AServers.A2AServer.BeginStop | src/deepr/a2a/server.py:131-138 | every registered pending run is asked to end and awaited |
| A2AServers.A2AServer.EndStop | src/deepr/a2a/server.py:138-139 | the run table is cleared |
| A2AProtocol.OneTerminalTransition | src/deepr/a2a/server.py:131-293 | in every interleaving each task has at most one terminal transition, and a handler exits with its task terminal or evicted unless its run raised an ordinary exception |
| A2AProtocol.RetiredForever | src/deepr/a2a/task_manager.py:170-206 | in every continuation a terminal task stays as it is or is evicted, and is never terminated again |
| A2AProtocol.ResumeOutcome | src/deepr/a2a/server.py:251-273 | how each way a run ends is answered: the outcome is committed exactly when nobody was first, the loser raises before changing anything, the cancel path answers 404 exactly when the task is gone and else 200 |
| A2AProtocol.ResumeStores | src/deepr/a2a/server.py:263-273 | what a task holds after its run returned an outcome that nobody forestalled: COMPLETED exactly when the run was ok and else FAILED, its result, cost, trace and artifacts, its error only when it failed, and its request unchanged |
| A2AProtocol.CancellingStores | src/deepr/a2a/server.py:253-293 | a cancellation, by its handler or by request, leaves the task cancelled with all it held, or evicts it |
| A2AProtocol.SubmitAnswers | src/deepr/a2a/server.py:215-250 | 413, 429, 201 or a suspended consult, exactly by the caps, with what the new task holds and the run registered under it |
| A2AProtocol.LeftWorkingIff | src/deepr/a2a/server.py:251-273 | a handler leaves its task active if and only if its run raised, it was not interrupted and nobody had cancelled |
| A2AProtocol.CancelOutcome | src/deepr/a2a/server.py:282-293 | 200 exactly on an active task, 404 exactly on an unknown or evicted one, 409 exactly on a terminal one; refusals change nothing |
| A2AProtocol.RegistryDrains | src/deepr/a2a/server.py:263-265 | once every handler has exited the table of active runs is empty |
| A2AProtocol.TableGuaranteesHold | src/deepr/a2a/server.py:215-293 | the caps and the eviction window hold in every interleaving of the server |
| A2AProtocol.CancelReachesRegistered | src/deepr/a2a/server.py:282-287 | cancelling asks a pending run to end if and only if it is still registered |
| A2AProtocol.InterruptAsks | src/deepr/a2a/server.py:251-262 | cancelling a suspended handler asks its pending run to end; after the run has ended, the handler answers 200 or 404 and commits no outcome |
| A2AProtocol.StopAsks | src/deepr/a2a/server.py:131-138 | `stop` asks exactly the registered pending runs to end and waits for exactly the registered ones |
| A2AProtocol.RegisteredUntilStopped | src/deepr/a2a/server.py:246-265 | until some `stop` finishes, every suspended handler's run is registered |
| A2AProtocol.LateRunExists | src/deepr/a2a/server.py:131-139 | an interleaving that reaches such a run |
| A2AProtocol.LateRunEscapesCancel | src/deepr/a2a/server.py:131-139 | after `stop` has cleared the table, cancelling a still pending run's task succeeds without asking the run to end |
| CircuitBreakers.CircuitBreaker.CheckHalt | src/deepr/agents/circuit_breaker.py:54-83 | it says halt exactly when tripped or over the cost or the failure-rate threshold |
| CircuitBreakers.CircuitBreaker.TripBreaker | src/deepr/agents/circuit_breaker.py:85-101 | a second trip keeps reason and time and adds trace ids |
| CircuitBreakers.ScanCounts | src/deepr/agents/circuit_breaker.py:44-52 | the counters and the aggregate cost are those of the results list |
| CircuitBreakers.CountsMean | src/deepr/agents/circuit_breaker.py:44-52 | the successes, the cost and the trace ids of a list of results, result by result |
| CircuitBreakers.ScanTripsAtFirst | src/deepr/agents/circuit_breaker.py:54-101 | tripped exactly when some prefix of the results is over a threshold, with the reason and time of the first such prefix and the traces of all results |
| FanOuts.SubagentRuntime.Launch | src/deepr/agents/runtime.py:115-139 | empty before the gate, blocked by the gate, or started with fresh breaker and equal slices |
| FanOuts.SubagentRuntime.CommitResult | src/deepr/agents/runtime.py:175-194 | the body under the results lock: append, count, check, trip, halt |
| FanOuts.SubagentRuntime.Gather | src/deepr/agents/runtime.py:196-202 | the result's total is the sum of its results' costs |
| FanOutProofs.RefinesScan | src/deepr/agents/runtime.py:131-202 | for every schedule the breaker is that of a sequential scan of the results list |
| FanOutProofs.BoundedTail | src/deepr/agents/runtime.py:141-194 | never more than `max_concurrent` permits held, no worker starts after the halt, at most `max_concurrent - 1` results follow the trip |
| FanOutProofs.OneResultPerQuery | src/deepr/agents/runtime.py:141-202 | with no trip every query has exactly one result, unless an uncaught exception cut its worker short |
| FanOutProofs.EveryQueryAnsweredIff | src/deepr/agents/runtime.py:115-202 | a complete, untripped fan-out without cancelled agents answers every query if and only if the slice is not negative: no override, one that is not negative, or everything reserved |
| FanOutProofs.NeverStuck | src/deepr/agents/runtime.py:131-198 | until all workers have finished some segment can run |
| FanOutProofs.SchedulesAreShort | src/deepr/agents/runtime.py:131-198 | no schedule has more than four segments per query |
| FanOutProofs.CostBound | src/deepr/agents/runtime.py:115-202 | with results of at most `x`, the total is at most the configured budget plus `max_concurrent` times `x`, for every schedule |
| FanOutBounds.CostBoundIsReached | src/deepr/agents/runtime.py:141-194 | under every valid configuration and for every `x` some complete schedule of results of at most `x` costs exactly that bound |
| FanOutProofs.SliceBound | src/deepr/agents/runtime.py:115-129 | workers that keep to their slice leave the synthesis reserve untouched |
| FanOutProofs.NoResults | src/deepr/agents/runtime.py:158-159 | a negative slice yields no result and no trip, on every schedule |
| FanOutProofs.LaunchOutcomes | src/deepr/agents/runtime.py:115-135 | when a fan-out starts, and that the override reaches the slices only |
| AgentBudgets.AgentBudget.RecordCost | src/deepr/agents/contract.py:128-149 | accepted exactly when it fits, a rejected record changing nothing |
| AgentBudgets.SpendIsAcceptedTotal | src/deepr/agents/contract.py:99-149 | under any sequence of records the spend stays within bounds and equals the sum of the accepted costs |
| AgentBudgets.ToolsNeverExceedParent | src/deepr/agents/agent_tool.py:102-121 | tools that keep to their slice, recorded in turn, never exceed the parent, and none of their records is rejected |
| AgentBudgets.SliceIsLargest | src/deepr/agents/agent_tool.py:102-121 | the slice permits exactly the spends within the tool's limit that the parent can record |
| AgentBudgets.DelegateMeans | src/deepr/agents/agent_tool.py:66-121 | exactly when a call ends for a missing query, a shut gate, an exhausted parent or a negative limit; without a parent the limit is the slice, with one the smaller of the limit and what is left |
| Orchestrators.Run | src/deepr/agents/orchestrator.py:79-190 | the phases compute the reply, as a function that `ReplyMeans` and `SubtasksMean` describe |
| Orchestrators.IndexOfId | src/deepr/agents/orchestrator.py:129-133 | parsing a worker id returns the subtask's index |
| Orchestrators.SortingRestoresSubtaskOrder | src/deepr/agents/orchestrator.py:125-137 | whatever order the workers finish in, sorting restores the order of the subtasks, each once, at any count |
| Orchestrators.ReplyMeans | src/deepr/agents/orchestrator.py:79-190 | in whatever order the workers finish, the replied cost is the sum over planner, workers and synthesizer, the artifacts are theirs in that and in subtask order, and the synthesizer is given the outputs of the workers that reported, in subtask order, or without workers the plan |
| Orchestrators.CollectedOnce | src/deepr/agents/orchestrator.py:138-142 | one worker's result contributes its output, cost and artifacts, and a failed worker nothing |
| Orchestrators.CollectedInOrder | src/deepr/agents/orchestrator.py:136-142 | what earlier subtasks contribute stands before what later ones do, and the costs are added |
| Orchestrators.SubtasksMean | src/deepr/agents/orchestrator.py:97-100 | the subtasks are the plan's non-blank lines, stripped and in order, or the query alone, and the reply counts them |
| Orchestrators.SplitJoined | src/deepr/agents/orchestrator.py:98 | splitting the plan into lines is the one way to write it as lines without a break |
| Orchestrators.NonBlankInOrder | src/deepr/agents/orchestrator.py:98 | a line is dropped exactly when it is blank, and the others are stripped and keep their order |
| Orchestrators.RunWithinBudget | src/deepr/agents/orchestrator.py:79-190 | the slices sum to the budget; agents that keep to them keep the replied cost within it, whatever order workers finish in, with or without workers or a synthesis |
| FreshContexts.ExcerptLength | src/deepr/backends/fresh_context.py:68-74 | an excerpt exceeds its limit exactly when the limit is one or two and the text does not fit |
| FreshContexts.ExcerptIsPrefix | src/deepr/backends/fresh_context.py:68-74 | an excerpt is the text or an ellipsis after a prefix that leaves out only blanks below the limit |
| FreshContexts.CitedText | src/deepr/backends/fresh_context.py:68-97 | content is shown before the snippet and alone is hashed, a stored hash comes before both, and a source is citable exactly with text to show and sixty-four hexadecimal digits |
| FreshContexts.CitableInOrder | src/deepr/backends/fresh_context.py:175-216 | the citable sources are kept in order, and nothing else is |
| FreshContexts.PackShowsLimited | src/deepr/backends/fresh_context.py:195-216 | every block shows its source as far as the limit per source and what is left of the total allow |
| FreshContexts.ToPromptContext | src/deepr/backends/fresh_context.py:175-216 | the loop computes the packing by recursion, and its count is the total excerpt length |
| FreshContexts.PromptBound | src/deepr/backends/fresh_context.py:195-216 | the total excerpt length is at most `max_total_chars + 2` |
| FreshContexts.PromptBoundIsReached | src/deepr/backends/fresh_context.py:68-74 | a prompt of that length |
| FreshContexts.OverrunIff | src/deepr/backends/fresh_context.py:195-216 | the total is exceeded exactly when a text does not fit into one or two remaining characters |
| FreshContexts.LabelsAgree | src/deepr/backends/fresh_context.py:257-309 | the prompt shows a prefix of the citable sources, and its labels name the same sources as the source pack's |
| FreshContexts.StopsOnlyWhenFull | src/deepr/backends/fresh_context.py:195-216 | with a positive limit per source, a citable source is left out only once the total is used up |
| Retrievals.CitableIff | src/deepr/backends/fresh_context.py:491-538 | a retrieved source is citable exactly when a page with text was fetched or cached text of known hash was revalidated; never for a search result alone, a failed fetch or a URL beyond the limit |
| Retrievals.FetchedMeans | src/deepr/backends/fresh_context.py:519-529 | the fields of a fetched source, the page's before the search result's |
| Retrievals.UnfetchedMeans | src/deepr/backends/fresh_context.py:499-538 | a URL that gave neither text nor a 304 answer keeps the search result's fields and the reason |
| Retrievals.SnippetAndSource | src/deepr/backends/fresh_context.py:499-538 | the snippet is the search result's, and the source names the browser exactly when the page answered |
| Retrievals.RevalidatedMeans | src/deepr/backends/fresh_context.py:600-632 | a 304 answer brings the cached text and hash, the page's fields before the cached ones and those before the search result's |
| Retrievals.ExtractUrls | src/deepr/backends/fresh_context.py:320-328 | every URL once, in order of first mention |
| Retrievals.RetrievalUrls | src/deepr/backends/fresh_context.py:462-488 | every admissible URL exactly once, in the order in which the query and then the results first name them, each result URL attributed to the first result naming it, inadmissible ones counted |
| Retrievals.RejectedCounts | src/deepr/backends/fresh_context.py:472-484 | an inadmissible URL counts once for each time it is named |
| Retrievals.AlwaysSafe | src/deepr/backends/fresh_context.py:541-567 | in every schedule at most four fetches in flight and at most one task holding each host |
| Retrievals.NeverStuck | src/deepr/backends/fresh_context.py:550-567 | no schedule deadlocks |
| Retrievals.SchedulesAreShort | src/deepr/backends/fresh_context.py:550-567 | every schedule ends within three segments per URL |
| Retrievals.FetchesFinish | src/deepr/backends/fresh_context.py:541-567 | from its start every schedule is safe, ends within three segments per URL and can always go on until every fetch has finished |
| Retrievals.GatheredInUrlOrder | src/deepr/backends/fresh_context.py:567 | the gathered sources are in URL order under every schedule |
| Retrievals.BuildSources | src/deepr/backends/fresh_context.py:541-576 | one source per URL in URL order, as many fetched as the limit allows, none without a browser, the rest with the fields of their search results |
| Retrievals.CollectSearchResults | src/deepr/backends/fresh_context.py:417-443 | each query's results stand between those of the earlier and those of the later queries, and likewise its error, however the queries are batched |
| Retrievals.CollectedOnce | src/deepr/backends/fresh_context.py:435-442 | one search contributes its results or its error, and nothing else |
| Retrievals.CollectedInOrder | src/deepr/backends/fresh_context.py:435-442 | what earlier queries contribute stands before what later ones do |
| CancelJobs.JobsContainer.CancelJob | deploy/azure/functions/function_app.py:361-389 | the loop runs the request's segments against any interference and any failing read or replace, and answers as they do |
| CancelJobs.CancelIsCompareAndSwap | deploy/azure/functions/function_app.py:361-389 | with etags and arbitrary other writers, no terminal job is replaced, at most one write is made, success implies a write, and the final 500 is not reached |
| CancelJobs.LoopAnswers | deploy/azure/functions/function_app.py:361-389 | the loop always answers and never falls through, writes at most once, succeeds only if it wrote, exactly then when no replace raised, and with etags replaces no terminal job |
| CancelJobs.UndisturbedCancel | deploy/azure/functions/function_app.py:361-389 | undisturbed, a completed, failed or cancelled job is refused and left alone, a missing one is not found, and any other ends up cancelled |
| CancelJobs.ConflictAfterThree | deploy/azure/functions/function_app.py:361-389 | a job rewritten in all three attempts is answered with a conflict and keeps what was last written |
| CancelJobs.OwnSegmentsCountDown | deploy/azure/functions/function_app.py:361-389 | three reads and three replaces at most, however long others write |
| CancelJobs.OverwritesTerminalIff | deploy/azure/functions/function_app.py:374-384 | a replace overwrites a terminal job exactly when jobs carry no etag and the job has become terminal |
| CancelJobs.UnstampedStoreLosesCompletion | deploy/azure/functions/function_app.py:374-384 | such a run without etags |
| Reservations.ClosedExactlyOnce | scripts/benchmark_models.py:1482-1563 | over all interleavings an unreserved call is never closed, and a reservation is closed exactly once unless its submit raised in a mismatched way |
| Reservations.RefundOrSettle | scripts/benchmark_models.py:1482-1501 | the one closing call is a refund if and only if no thread got the job or marking raised, and else it settles as ambiguous, failed or completed exactly by how the call ended |
| Reservations.NoRefundAfterProviderWork | scripts/benchmark_models.py:1880-1932 | at any moment, a reservation whose provider call was made has not been refunded unless submit raised after queueing it |
| Reservations.InterruptLeaksReservation | scripts/benchmark_models.py:1558-1562 | a keyboard interrupt out of submit leaves its reservation open |

## Left out

- Numbers: reals stand for floats, so rounding, `round(total, 6)`, overflow and the decimal
  text of a number are not modelled; a number is one symbol of the ledger file.
- Times are integers; ISO 8601 text is a numeral that reads back as the time written, and
  time zones and clock changes are left out.
- Text: lone surrogates and UTF-8 decoding errors; CR LF counts as an extra blank line, which
  both readers skip.
- Ledger metadata is JSON-native (distinct string keys, finite numbers), because tuples and
  non-string keys do not survive the round trip; a missing ledger file is an empty one.
- A barrier is atomic: it makes everything written so far durable or nothing more, and a
  crash keeps the durable prefix and any part of the rest. That a barrier on a newly created
  file also makes its directory entry durable is assumed: the code does not sync the directory.
- A scan reads the file at one moment; that is exact because the file lock is held throughout.
- A release that fails after the body replaces the call's result by a lock error: the history
  then holds an outcome that the caller did not see.
- Lock timeouts are events without a clock.
- Reason prose of the eligibility and selection decisions, and of the breaker: the figures
  are modelled, their formatting is not.
- Aliasing of the task objects the manager hands out, task metadata other than the budget
  cap, and the manager's refusal of bad limits, which the constructor requires instead.
- The A2A server's HTTP parsing, authentication, progress streams and response schema; ids
  are fresh.
- `SubagentRuntime.synthesize`, the cost ledger's own records and the order of the breaker's
  affected trace ids.
- `AsyncTaskDispatcher`, the benchmark spend guard and the provider, search and browser
  backends are seen only through what they return or the calls made to them.
- Cancelling a whole retrieval, the URL and host-key syntax (a predicate and a key here) and
  the wrapping of untrusted excerpts.
- The text of the prompt around its excerpts, and the readiness counts.
- The admission evidence read from local evaluations, and the resume and checkpoint logic of
  the benchmark script.
- Numeric strings in event metadata that read as infinite.
- CancelIsCompareAndSwap: a replace whose call raises another error may or may not have
  written, so a write does not imply success there.
