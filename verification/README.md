# Verified model of svcmetrics

svcmetrics is a metrics service: an agent collects gauges and counters and
reports them in batches, a server folds each batch into an in-memory map or a
PostgreSQL table, saves snapshots and publishes an audit log, and a tool
generates `Reset` methods for its structs. This project models the stateful
parts of it in Dafny and proves what their comments promise, over every input,
every interleaving and every fault.

`dafny verify dfyconfig.toml` checks everything.

| files | what they model |
|---|---|
| `GoInt`, `Models`, `Wrappers` | wrapping `int64`, metrics with their pointers, the map store that gives a batch its meaning |
| `Batch` | the fold of a batch through preallocated slots, on the heap, and its specification |
| `Memory`, `Snapshots` | the in-memory storage; saving it crash-safely, one file operation at a time |
| `Retry`, `PgErrors` | the retry driver with its pauses; which database errors are passing |
| `Postgres`, `PgCalls` | the table and its upserts as a refinement of the map store; calls that lose their answers |
| `Transactions`, `Replays` | any number of transactions and one-row upserts interleaving under row locks; what repeating an upsert undoes |
| `AgentState`, `Agents` | the agent's maps and the methods that change them |
| `Reporting`, `ReportingSteps` | collectors, reporter, workers, side calls, requests and server as one machine, over runs and step by step |
| `Audits`, `AuditRuns` | the audit publisher as an object, and under overlapping calls |
| `ResetTypes`, `ResetCollect`, `ResetTargets` | the front end of the `Reset` compiler: Go types, what declarations are collected, and what asks for a method |
| `ResetEmit`, `ResetFields`, `ResetGenerator`, `ResetGolden` | the code it emits and when Go accepts it, the fields that are reset, the text it is written as, and that text for the compiler's own fixtures |
| `ResetRun`, `ResetMethods`, `ResetForms`, `ResetAgain` | the emitted code on any heap; whole methods; the forms of fields; resetting twice |
| `ResetCalls`, `ResetLinks`, `ResetCycles` | generated methods calling each other: what they achieve together and when they return |

Conventions. A gauge value is an opaque 64-bit pattern: nothing computes on it.
A pointer to a value is a cell of an array. Go's `int64` addition wraps,
PostgreSQL's `bigint` overflow is an error; both are modelled as such. The
machines are relations between states labelled by steps; a run starts in an
initial state and takes any steps. Locks appear as the atomicity of a step,
except where the argument is about them (row locks in `Transactions`, the read
lock in `AuditRuns`). Contexts, timers, the network, the database driver and
the file system are choices made by the environment. `PollCount` is the only
counter the agent has, so the accounts of `Reporting` are about it; the methods
of `Agents.Agent` are stated for every counter name.

Where the code and its comments part:

- `internal/repository/postgres.go:21-23` says that repeating a statement cannot
  apply a metric twice. That holds of `UpdateBatch`, whose commit marks an
  unknown outcome. `UpdateCounter` commits by itself and is repeated after a
  lost answer. `PgCalls.CounterCanBeAppliedTwice` gives the run that counts 5 as
  10 and reports success, `PgCalls.CounterCanBeAppliedFourTimes` one that counts
  it four times and reports an error. `PgCalls.CounterAppliedAtMostOnceExactlyWhen`
  says of every run, however it ends, exactly when the comment is right: no two
  of the statements sent reached the row, or the row had no room for the value
  twice. `PgCalls.CounterIsSafeExactlyWhen` says before the call when nothing the
  connection does can break it.
- Repeating the upsert of a gauge is not harmless either. Another caller may
  have set the gauge in between and been told so: `Replays.ReplayUndoesNewerValue`
  is the run in which the repetition puts the older value back.
  `Replays.GaugeReplayExactlyWhen` says exactly when it changes nothing.
- `cmd/reset/emit.go` emits code Go does not accept for some packages.
  `ResetMethods.MethodAcceptedExactlyWhenFine` says exactly for which, among the
  packages that are not excepted under its name in "Left out", and `ResetForms`
  has a lemma for each family. Some are narrower than they look: a name defined by
  the name of a slice, map or array is accepted, and so is one defined by an alias
  of an interface. Others are not about the field at all: the receiver is named by
  one letter and hides a type or package of that name
  (`ResetForms.ReceiverOfDataHidesItsField`), it is `_` for a type whose name
  starts with `_`, and a field called `Reset` leaves no room for the method. A
  type imported without a qualifier cannot be written in the generated file
  (`ResetForms.DotImportedNameIsRefused`).
- `hasReset` (`cmd/reset/collect.go:37-42`) goes by the name a receiver is written
  with. A `Reset` declared through an alias of a marked struct is not seen, and a
  second one is generated beside it (`ResetCollect.ResetThroughAliasIsRefused`).
  One declared for an alias of a pointer is called through a pointer to that
  pointer. Nor are parameters looked at: one that takes some is called without.
- A generated `Reset` follows the pointers between marked structs and does not
  look out for cycles. On a node that is its own successor it never returns
  (`ResetCycles.OneNodeCycleNeverReturns`). It returns when the calls it leads to
  are finitely deep (`ResetCalls.ReturnsWhenItEnds`), and exactly then wherever
  no step clears a pointer such calls go through
  (`ResetLinks.ReturnsExactlyWhenItEnds`), as in all structs that are linked by
  plain pointers (`ResetCycles.LinkedReturnsExactlyWhenItEnds`). Without that
  proviso a cycle may be cut on the way: `ResetCycles.KnotNeverEnds` and
  `ResetCycles.KnotIsCut` are about one that is.

## Model

| member | source | states |
|---|---|---|
| GoInt.AddAssociates | internal/repository/batch.go:61 | wrapping addition of deltas does not depend on how they are grouped |
| GoInt.WrapIsCongruent | internal/repository/batch.go:61 | the wrapped value differs from the true one by a multiple of 2^64 |
| GoInt.WrapAdds | internal/agent/agent.go:350 | adding in `int64` is adding without bounds and wrapping once |
| GoInt.WrapSubtracts | internal/agent/agent.go:412 | the same for subtraction, so a delta between wrapped totals is the wrapped difference |
| Models.KeyLessTransitive | internal/repository/batch.go:80-82 | the order by type and then name is transitive |
| Models.KeyLessIrreflexive | internal/repository/batch.go:80-82 | no key comes before itself |
| Models.KeyLessTotal | internal/repository/batch.go:80-82 | any two different keys are ordered, so sorting determines the list |
| Models.KeyLessExactlyWhen | internal/repository/batch.go:80-82 | of two keys of one type the one comes first whose name is a proper prefix of the other or has the smaller character where they first differ; of different types the types are compared so |
| Models.CountersComeFirst | internal/repository/batch.go:80-82 | every counter key comes before every gauge key, whatever their names |
| Models.IncreasingIsSortedByTypeAndName | internal/repository/batch.go:18-24 | a list in increasing order holds its counters first, then its gauges, each by name |
| Models.IncreasingIsDistinct | internal/repository/batch.go:18-24 | a list in increasing order names every key once |
| Batch.ValidExactlyWhen | internal/repository/batch.go:37-52 | a metric is valid exactly with a name, a known type and the payload of that type, and the error says which of these is missing, in this order |
| Batch.LastValueIsOfLast | internal/repository/batch.go:58-60 | the value a gauge is folded to is that of its last metric in the batch |
| Batch.DeltaSumIsWrapped | internal/repository/batch.go:61 | the delta a counter is folded to is the true sum of its deltas, wrapped once |
| Batch.ApplyAllPerKey | internal/repository/memory.go:75-82 | what applying a raw batch leaves under each name: the last gauge value, the old counter plus the wrapped sum of its deltas |
| Batch.FoldIsWellformed | internal/repository/batch.go:36-78 | the fold of a valid batch is a valid batch |
| Batch.FoldPreservesMeaning | internal/repository/batch.go:18-24 | applying the fold to any store gives the same store as applying the raw metrics one by one in their order, wraparound included |
| Batch.FoldIsUnique | internal/repository/batch.go:18-24 | one entry per key, in increasing order, with last values and summed deltas: there is only one such list |
| Batch.NewSlot | internal/repository/batch.go:66-75 | a first metric gets the next slot of its kind and leaves the slots already given out alone |
| Batch.Merge | internal/repository/batch.go:54-64 | a repeated metric is merged through the pointer of its own entry and changes no other entry |
| Batch.Append | internal/repository/batch.go:66-77 | a new key takes a fresh slot, an entry and an index position; slots stay disjoint and the index stays exact |
| Batch.FoldAll | internal/repository/batch.go:36-78 | the loop stops at the first invalid metric with its problem, or has folded all of them, every entry in a slot of its own |
| Batch.SortByKey | internal/repository/batch.go:80-82 | the result is increasing by type and name, counters first, and a permutation of the entries |
| Batch.AggregateBatch | internal/repository/batch.go:30-85 | succeeds exactly on valid batches and gives their fold in fresh memory disjoint from the input, each entry owning its slot; otherwise the first problem met |
| Memory.MemStorage.UpdateGauge | internal/repository/memory.go:44-49 | sets the one gauge, leaves everything else, and returns it |
| Memory.MemStorage.UpdateCounter | internal/repository/memory.go:52-57 | adds to the one counter, wrapping, leaves everything else, and returns the total |
| Memory.MemStorage.UpdateBatch | internal/repository/memory.go:62-84 | a valid batch leaves the store as applying its raw metrics one by one would; an invalid one is reported and changes nothing |
| Memory.MemStorage.GetGauge | internal/repository/memory.go:87-95 | the stored value exactly when there is one |
| Memory.MemStorage.GetCounter | internal/repository/memory.go:98-106 | the stored total exactly when there is one |
| Memory.MemStorage.Snapshot | internal/repository/memory.go:128-142 | lists every gauge and counter exactly once, in any order of the maps |
| Memory.MemStorage.Load | internal/repository/memory.go:226-245 | restores every usable entry in order and counts the others |
| Memory.LastRecordIsRestored | internal/repository/memory.go:229-238 | a metric the file has usable records of is set to what the last of them says |
| Memory.UnrecordedStays | internal/repository/memory.go:229-238 | any other is left as it was |
| Memory.SkippedAreCounted | internal/repository/memory.go:235-243 | the number reported is that of the records that are neither a gauge with a value nor a counter with a delta |
| Memory.RestoreIsOverlay | internal/repository/memory.go:202-212 | loading into any store is overlaying it with what the file restores into an empty one |
| Memory.LoadTwiceIsLoadOnce | internal/repository/memory.go:202-212 | loading the same file again changes nothing |
| Memory.LoadRestoresSnapshot | internal/repository/memory.go:202-212 | a snapshot, whatever order its maps were listed in, restores exactly the saved store, overlaid on what was there, and skips nothing |
| Snapshots.StepKeeps | internal/repository/memory.go:157-200 | every file operation of every attempt, a failing encoding, and every update of the store in between, keeps the invariant of saving |
| Snapshots.CrashSafe | internal/repository/memory.go:144-149 | a crash at any point leaves under the target its old content or a complete snapshot of a state held during the call |
| Snapshots.SaveReportsWhatItDid | internal/repository/memory.go:150-186 | nil means a complete, flushed snapshot that others can read is in place, an error means the target is untouched; no other file changes |
| Snapshots.HeldAreTheStates | internal/repository/memory.go:157-160 | the states the snapshot may be of are those the storage went through from the call on |
| Snapshots.LitterIsOfFailedRemovals | internal/repository/memory.go:172-186 | a temporary file stays only where an attempt failed and removing it failed too |
| Snapshots.AttemptCanSucceed | internal/repository/memory.go:157-200 | from any state an attempt whose operations succeed leaves the encoded snapshot under the target, flushed and readable, and nothing else changed |
| Snapshots.LoadAfterCrash | internal/repository/memory.go:213-245 | what is found complete loads, into any store, as a state held during the call |
| Retry.DoValue | internal/retry/retry.go:84-103 | at most one call more than there are intervals, all but the last failing retriably and slept through, the last result returned, the observer told 1, 2, … with the pause taken, one extra time only when the wait is cut short |
| Retry.CallCountIsUnique | internal/retry/retry.go:84-103 | what is called and what the waits come to settles how many calls there are |
| Retry.NamedConfigIsUsed | internal/retry/retry.go:40-62 | a schedule and a check that are given are the ones used |
| Retry.PauseIsStretchedInterval | internal/retry/retry.go:105-113 | a pause is its interval plus the draw: no shorter, and longer by at most a quarter |
| Retry.PausesReachSchedule | internal/retry/retry.go:105-113 | all pauses together are no shorter than the schedule |
| Retry.PausesWithinBudget | internal/retry/retry.go:105-113 | all pauses together stay within the schedule stretched by a quarter of each interval |
| Retry.DefaultScheduleFitsRequest | internal/retry/retry.go:16-24 | four attempts, at least 1, 3 and 5 seconds apart, so at least 9 and at most 11.25 seconds of pauses, under the request timeout of 12 seconds |
| PgErrors.WrappingIsTransparent | internal/repository/retriable.go:23-52 | wrapping an error in context does not change whether it is retried |
| PgErrors.RetriedExactlyWhen | internal/repository/retriable.go:23-80 | a database error is retried exactly when it holds no commit marker and its root is one of the passing SQLSTATEs, which are listed, or a transport failure |
| PgErrors.FoundExactlyWhenLayered | internal/repository/retriable.go:29-41 | a commit marker or network error is found exactly when some layer of the chain is one, and the root is the last layer |
| Postgres.UpsertSimulates | internal/repository/postgres.go:134-148 | one upsert, seen through the rows that are not NULL, is one update of the map store |
| Postgres.UpsertAllSimulates | internal/repository/postgres.go:156-167 | the upserts of a batch are the updates of a batch |
| Postgres.UpsertAllAt | internal/repository/postgres.go:156-167 | a sorted batch changes each of its rows once, from what it held before, and no other |
| Postgres.UpsertAllSucceeds | internal/repository/postgres.go:145-148 | a sorted batch goes through exactly when no counter it adds to leaves `bigint` |
| Postgres.StepSimulates | internal/repository/postgres.go:64-287 | every update and read of the table is the corresponding operation of the map store, answers included |
| Postgres.StepPossibleExactlyWhenFits | internal/repository/postgres.go:84-122 | an operation can be answered without an overflow error exactly when the resulting sums fit |
| Postgres.BatchFitsExactlyWhen | internal/repository/postgres.go:109-122 | for a raw batch that condition is about the wrapped sum of its deltas per counter |
| Postgres.SessionSimulates | internal/repository/postgres.go:64-287 | over any sequence of operations the table is a map store |
| PgCalls.CounterBounds | internal/repository/postgres.go:84-99 | at most four calls; nil means between one and that many applications |
| PgCalls.CounterIsExact | internal/repository/postgres.go:87-92 | the row holds the old sum plus the value times the number of applications, without wrapping |
| PgCalls.CounterUntouchedExactlyWhen | internal/repository/postgres.go:84-99 | however a call ends, it leaves the counter alone exactly when no statement sent reached the row or the sum does not fit |
| PgCalls.CounterAppliedAtMostOnceExactlyWhen | internal/repository/postgres.go:19-23 | however a call ends, its value is counted at most once exactly when no two statements it sent reached the row, or the row has no room for the value twice |
| PgCalls.CounterAppliedOnceExactlyWhen | internal/repository/postgres.go:19-23 | a call that succeeds has counted its value once exactly when no statement that had been applied lost its answer; which calls are made is told from the answers and pauses alone |
| PgCalls.CounterIsSafeExactlyWhen | internal/repository/postgres.go:19-23 | whatever answers are lost, the value is counted at most once exactly when adding it twice would leave `bigint` |
| PgCalls.CounterCanBeAppliedTwice | internal/repository/postgres.go:19-23 | one lost answer is enough to count a value twice and return nil |
| PgCalls.CounterCanBeAppliedFourTimes | internal/repository/postgres.go:19-23 | with every answer lost the value is counted four times and an error returned |
| PgCalls.CounterCallsAreTheDrivers | internal/repository/postgres.go:84-99 | the calls of UpdateCounter are those the retry driver makes of its attempts |
| PgCalls.PgStorage.UpdateGauge | internal/repository/postgres.go:64-79 | the calls are those of the retry driver; it succeeds exactly when the last is answered, fails with what the last failed with, and stores the value exactly when some call made reached the row |
| PgCalls.PgStorage.UpdateCounter | internal/repository/postgres.go:84-99 | sum, number of applications, calls and error are those of the run of the environment's answers; no other row changes |
| PgCalls.PgStorage.UpdateBatchTx | internal/repository/postgres.go:125-173 | all of the batch or none of it; nil exactly when no step fails, otherwise the first failure met, by begin, a prepare, a statement, an overflowing sum or the commit, the last under the marker |
| PgCalls.PgStorage.UpdateBatch | internal/repository/postgres.go:109-122 | over all attempts, which are those of the retry driver, the batch is applied at most once, once on nil, not at all on an error that is not a commit in doubt; every attempt made reports the first failure the database had for it, and the last report is what the caller gets; an invalid batch is rejected untouched with its first problem |
| PgCalls.SucceedsExactlyWhen | internal/repository/postgres.go:125-173 | a transaction succeeds exactly when begin, both prepares, every statement and the commit do and no sum leaves `bigint`; its error has the marker exactly when the commit failed |
| PgCalls.ReplayedExactlyWhen | internal/repository/postgres.go:106-108 | a failed transaction is replayed exactly when the failure passes by itself, was not the commit, an attempt is left and the pause is slept through |
| PgCalls.StopsOnce | internal/repository/postgres.go:156-167 | at most one statement is the first to fail, and then the commit is not reached |
| PgCalls.FaultlessAttemptEnds | internal/repository/postgres.go:109-122 | a valid batch whose sums fit succeeds at the first attempt on which nothing fails |
| PgCalls.AnsweredAtOnceIsStep | internal/repository/postgres.go:84-99 | a counter upsert that is answered at once is the counter operation of the table |
| PgCalls.PgStorage.GetGauge | internal/repository/postgres.go:191-210 | the calls are those of the retry driver; if the last gets through the stored value or, without a row or with NULL, not found; otherwise what it failed with |
| PgCalls.PgStorage.GetCounter | internal/repository/postgres.go:213-232 | the same for a counter |
| PgCalls.PgStorage.GetAllGauges | internal/repository/postgres.go:236-264 | all gauges with a value, as of one attempt that got through, or the failure of the last |
| PgCalls.PgStorage.GetAllCounters | internal/repository/postgres.go:267-294 | the same for the counters |
| Transactions.StepKeeps | internal/repository/postgres.go:125-173 | every statement, fault, replay and commit of every writer keeps the invariant: buffers current, locks disjoint, rows serial |
| Transactions.BufferIsUpsertAll | internal/repository/postgres.go:156-172 | what a transaction has buffered is what its batch does, alone, to the rows as committed now |
| Transactions.Serializable | internal/repository/postgres.go:101-108 | for any number of writers and any interleaving the committed table is the committed batches applied one at a time in commit order |
| Transactions.LogIsCommitOrder | internal/repository/postgres.go:169-172 | that order is the order of the commits that took effect, answered or not |
| Transactions.FailureStartsOverExactlyWhen | internal/repository/postgres.go:106-108 | a failed attempt releases its rows and starts over exactly when the error passes by itself, an attempt is left and the pause is slept through; otherwise its caller gets the error |
| Transactions.SerialMeansApplyAll | internal/repository/postgres.go:101-108 | which reads like a map store given those batches one at a time |
| Transactions.CommittedTableMeansRawBatches | internal/repository/postgres.go:101-122 | the committed table reads like a map store given the raw batches of the committed calls, metric by metric, in commit order |
| Transactions.InDoubtIsFinal | internal/repository/postgres.go:175-188 | a batch whose commit is in doubt is never attempted again |
| Transactions.AppliedAsToldAlways | internal/repository/postgres.go:169-188 | a batch is committed at most once, exactly once if its caller got nil, never if it got an error without the marker; a one-row upsert at least once on nil and at most once per attempt |
| Transactions.WaitingClimbs | internal/repository/batch.go:18-24 | a writer that is waited for and waits itself wants a greater row |
| Transactions.NoWaitCycle | internal/repository/batch.go:18-24 | no reachable state has writers waiting for each other in a circle |
| Transactions.SomeoneUnblocked | internal/repository/postgres.go:156-167 | following the waits from any open transaction leads to one that waits for nobody |
| Transactions.AlwaysSomeStep | internal/repository/postgres.go:156-172 | while a transaction is open some writer can step without waiting |
| Transactions.RunsAreBounded | internal/repository/postgres.go:119-121 | every run ends, faults and replays included, within the work there was at the start |
| Replays.LastCommittedStands | internal/repository/postgres.go:67-72 | a gauge reads as the last value the last committed batch that names it gave it |
| Replays.GaugeUpsertChangesNothingExactlyWhen | internal/repository/postgres.go:67-72 | one gauge upsert leaves the table alone exactly when the gauge has the value already |
| Replays.GaugeReplayExactlyWhen | internal/repository/postgres.go:19-23 | in every reachable state, repeating a gauge upsert that was applied changes nothing exactly when the last commit that wrote the gauge wrote the same value |
| Replays.AloneIsNotOverwritten | internal/repository/postgres.go:19-23 | in particular when nobody else has committed the gauge since |
| Replays.ReplayUndoesNewerValue | internal/repository/postgres.go:19-23 | the run of two callers, both told nil, in which a repeated upsert replaces a newer committed value by an older one |
| AgentState.AtoiItoa | internal/model/metrics.go:41-43 | the decimal text of a number reads back as that number |
| AgentState.CPUUtilizationIsInjective | internal/model/metrics.go:41-43 | different CPUs have different gauge names |
| AgentState.OtherNamesAreNotCpus | internal/model/metrics.go:26-43 | no other gauge has the name of a CPU's |
| AgentState.SystemUpdateSetsCpus | internal/agent/system.go:46-54 | after a host reading the CPU gauges present are exactly those numbered up to the new count |
| AgentState.RuntimeKeepsCpus | internal/agent/agent.go:320-350 | a runtime reading adds and removes none of them |
| AgentState.CanonicalIsUnique | internal/agent/agent.go:371-380 | whatever order the gauge map is listed in, the batch is the same list |
| AgentState.CarriedExactlyWhenUnsent | internal/agent/agent.go:410-419 | a batch carries a counter exactly with all that is unsent of it, if that is not zero |
| AgentState.NothingUnsentOnceMarked | internal/agent/agent.go:411-413 | after the cut nothing of a reported counter is unsent, and other counters are as they were |
| AgentState.ReturnedPerCounter | internal/agent/agent.go:439-448 | giving metrics back takes the wrapped sum of their deltas off each counter |
| AgentState.ReturningUndoesMarking | internal/agent/agent.go:439-448 | a batch that is cut and given back leaves every counter as unsent as before |
| Agents.Agent.CollectRuntimeMetrics | internal/agent/agent.go:312-351 | sets each runtime gauge to its own reading, counts one poll, changes nothing else, keeps the CPU gauges exact |
| Agents.Agent.CollectSystemMetrics | internal/agent/system.go:28-57 | a failed reading changes nothing; a successful one sets memory and CPU gauges, drops the CPUs that went away, and touches no other gauge |
| Agents.Agent.SnapshotBatch | internal/agent/agent.go:396-421 | lists every gauge once and the unsent part of every counter, each in a slot of its own, and marks the counters as sent |
| Agents.Agent.CollectBatch | internal/agent/agent.go:381-387 | the batch is the canonical list of the state, in fresh memory, and the counters are marked as sent |
| Agents.Agent.ReturnCounters | internal/agent/agent.go:439-448 | exactly the deltas of the metrics given back come off what is marked as sent |
| Agents.Agent.OfferChunks | internal/agent/agent.go:262-271 | non-empty chunks of at most the batch size, taken in order, that together with the returned suffix are the whole list, at whichever chunk it stops |
| Agents.Agent.Report | internal/agent/agent.go:259-273 | cuts the canonical batch, names and values, and gives back the deltas of exactly the suffix nobody took |
| Agents.Agent.OfferOrReturn | internal/agent/agent.go:363-367 | the same for the chunks of a direct call: exactly those from the failed one on are given back |
| Reporting.StepKeeps | internal/agent/agent.go:181-301 | every step of collectors, reporter, workers, side calls, network and server keeps the books; failing for good and giving the deltas back are two steps |
| Reporting.DeltasAreConserved | internal/agent/agent.go:439-448 | at every moment what is marked as sent is what was acknowledged plus what reporter, workers and calls hold, and never more than was counted |
| Reporting.AtRestOnlyAcknowledgedIsSent | internal/agent/agent.go:169-203 | once nobody holds a batch, exactly the acknowledged polls are marked as sent |
| Reporting.ServerTotal | internal/agent/agent.go:284-301 | the server's total is the acknowledged deltas plus those of requests it applied and the agent saw fail, and of requests applied but not answered yet |
| Reporting.ExactlyOnceWhenNothingLost | internal/agent/agent.go:284-301 | at rest the server has counted exactly what was acknowledged if and only if the polls in requests it applied and the agent saw fail come to a multiple of 2^64; while they stay below that, if and only if there are none |
| Reporting.RateLimited | internal/agent/agent.go:275-282 | the workers together wait for the answers to at most as many requests as there are workers, each carries one batch of at most the batch size and makes at most four attempts at it; requests given up on but still on their way are not waited for |
| ReportingSteps.AccountsAreOfSteps | internal/agent/agent.go:284-301 | the polls are the polls made, the acknowledged deltas those of the chunks that were answered, the lost ones those of failed requests the server applied |
| ReportingSteps.TickTakesAll | internal/agent/agent.go:259-273 | a report takes all gauges and everything unsent, and leaves nothing unsent |
| ReportingSteps.HandTakesNext | internal/agent/agent.go:262-271 | a worker gets the next full batch, or what is left, and no metric is skipped |
| ReportingSteps.ChunkCanBeAcknowledged | internal/agent/agent.go:284-301 | any chunk can be posted, applied and acknowledged: the server has it and its holder goes on with the rest |
| ReportingSteps.RepeatedExactlyWhen | internal/agent/agent.go:284-301 | a failed request is repeated exactly by a worker that has made at most three requests for the batch; the metrics stay held, and a request given up on may still arrive |
| ReportingSteps.GivenBackIsUnsent | internal/agent/agent.go:439-448 | giving back takes exactly the deltas given back off what is marked as sent |
| ReportingSteps.ReporterHasStep | internal/agent/agent.go:238-273 | the reporter never waits but for a worker, and not for one once it is cancelled |
| ReportingSteps.HolderHasStep | internal/agent/agent.go:278-301 | nor does a holder of metrics: it posts them, learns what became of them, or gives them back |
| AuditRuns.StepKeeps | internal/audit/audit.go:139-224 | every step of overlapping Register, Publish, deliver and Close keeps the publisher's invariant |
| AuditRuns.NeverPanics | internal/audit/audit.go:160-164 | no run sends on or closes a closed queue, or adds to the wait group once Close waits on it |
| AuditRuns.DeliveredInOrder | internal/audit/audit.go:92-97 | delivered, in delivery and queued are, in this order, the events the observer accepted, and the queue keeps its bound |
| AuditRuns.PublishOrderKept | internal/audit/audit.go:92-97 | if one call had returned before another started no observer gets their events the other way round |
| AuditRuns.EveryEventAccountedFor | internal/audit/audit.go:157-184 | for each observer a call has to serve its event is accepted once or dropped and reported once, never both; later observers and calls after Close get nothing |
| AuditRuns.EveryObserverIsServed | internal/audit/audit.go:165-179 | a call that took the lock of an open publisher and has released it has dealt with every observer registered at that moment: its event accepted exactly once, or the observer among its drops, and no other observer |
| AuditRuns.SendDropsExactlyWhenFull | internal/audit/audit.go:172-178 | a send drops the event exactly when the queue is full to its bound, and touches no other queue |
| AuditRuns.LaterCallsComeLater | internal/audit/audit.go:92-97 | a call that starts when another is over is behind it in every queue |
| AuditRuns.PublishNeverBlocks | internal/audit/audit.go:157-164 | whatever the queues hold, a call that is not over has its next step to make |
| AuditRuns.CloseNilMeansDelivered | internal/audit/audit.go:186-211 | when Close returns nil every accepted event was delivered exactly once |
| AuditRuns.CloseNilMeansServedAreDelivered | internal/audit/audit.go:186-211 | by then a call that is over was delivered once to each observer registered when it took the lock, but for those it reported a drop for |
| AuditRuns.DrainingIsBounded | internal/audit/audit.go:213-224 | after Close the goroutines make no more steps than there was work in the queues |
| AuditRuns.DrainingNeverStuck | internal/audit/audit.go:213-224 | each goroutine that has not left has a step of its own to take |
| AuditRuns.DrainedMeansDone | internal/audit/audit.go:198-207 | Close can return nil exactly when every goroutine has left |
| Audits.Publisher.constructor | internal/audit/audit.go:120-134 | no observers, open, a queue size below one replaced by the default |
| Audits.Publisher.Register | internal/audit/audit.go:139-149 | adds one empty queue at the end, or nothing after Close |
| Audits.Publisher.Publish | internal/audit/audit.go:165-184 | every observer with room gets the event, exactly the others are named, in order; nothing after Close |
| Audits.Publisher.Close | internal/audit/audit.go:188-196 | closes every queue and keeps what is in it; again changes nothing |
| Audits.PublishAlone | internal/audit/audit.go:165-184 | a call nobody interrupts in the machine does to the queues what the object's method does |
| Audits.FullOnesAreNamed | internal/audit/audit.go:171-178 | the names reported are those of the full queues, each at its own position, once, in order |
| Audits.RegisterAlone | internal/audit/audit.go:139-149 | so is registering |
| Audits.CloseAlone | internal/audit/audit.go:188-196 | and closing |
| ResetCollect.HasMarker | cmd/reset/collect.go:66-77 | true exactly when some comment line is the marker |
| ResetCollect.PkgInfo.CollectDecls | cmd/reset/collect.go:34-64 | the last declaration of a name counts, targets are the marked structs in source order with their file, and a name has Reset exactly when a method is declared or asked for |
| ResetCollect.PkgInfo.CollectFiles | cmd/reset/main.go:90-92 | the same over all files of the package, one after the other |
| ResetCollect.CountedOnExactlyWhenCollected | cmd/reset/emit.go:182-185 | in the environment built from the declarations the generator counts on a method for a name exactly when the name was collected as having one |
| ResetCollect.RecordedIsOwn | cmd/reset/collect.go:37-42 | a method recorded for a name that is no alias is one Go gives that type |
| ResetCollect.UnrecordedResetIsRefused | cmd/reset/collect.go:37-42 | a target that has a Reset under whatever other name gets a second one, and Go refuses it |
| ResetCollect.ResetThroughAliasIsRefused | cmd/reset/collect.go:79-93 | `type A = T`, `func (a *A) Reset()` and a marked `T`: the method is recorded for A alone, and the one generated for T is refused |
| ResetCollect.TargetExactlyWhenCollected | cmd/reset/emit.go:33-45 | if no type is declared twice, methods are written for exactly the names collected as targets |
| ResetTargets.MarkerExactlyWhen | cmd/reset/collect.go:70-75 | a comment line is the marker exactly when, after its slashes, nothing but white space stands around it |
| ResetTargets.ReceiverExactlyWhen | cmd/reset/collect.go:79-93 | a receiver is recorded for a name exactly if it is that name, a pointer to it, or one of these instantiated |
| ResetTargets.AsksExactlyWhen | cmd/reset/collect.go:51-59 | a struct asks by its own comment, or without one by that of a declaration it stands in alone |
| ResetTargets.TargetsAreAsked | cmd/reset/collect.go:46-61 | the targets are exactly the specifications that ask |
| ResetTargets.TargetsKeepTheirFiles | cmd/reset/collect.go:58 | each with the file it is declared in |
| ResetEmit.AssignableExactlyWhen | cmd/reset/emit.go:190-202 | a variable of a defined type takes a value of the type it is looked at as exactly when that is its own, has no name, or is an interface |
| ResetEmit.ResettableExactlyWhen | cmd/reset/emit.go:182-184 | calling Reset is accepted exactly on a variable whose own type has it, written, generated or gained by embedding, and through pointers that have no name and lead to no pointer |
| ResetEmit.ReslicedExactlyWhen | cmd/reset/emit.go:158-160 | `e = e[:0]` is accepted exactly when e does not start with `*` |
| ResetEmit.AcceptedExactlyWhenFine | cmd/reset/emit.go:127-244 | for every type, at every depth, in a method with any receiver and type parameters, Go accepts the emitted statement exactly when the type is one of those listed in `Fine`; names are resolved where they are written, in a file without unqualified imports |
| ResetTypes.ZeroIsZeroConstant | cmd/reset/emit.go:24-32 | exactly the predeclared types have a literal, and it is a constant of the type and its zero value |
| ResetFields.FieldsInSourceOrder | cmd/reset/emit.go:108-123 | a method resets exactly the fields its declarations give the struct, by a name other than `_` or by embedding, each once and in source order |
| ResetFields.ListedExactlyWhenDeclared | cmd/reset/emit.go:108-123 | a field is among them exactly when a declaration declares it |
| ResetFields.EmbeddedNameExactly | cmd/reset/emit.go:273-288 | an embedded field goes by the name of its type, or of the type it points to |
| ResetFields.EmbeddedNamePerForm | cmd/reset/emit.go:273-288 | form by form: `T`, `*T`, `pkg.T`, `*pkg.T`, and these instantiated |
| ResetRun.TowardKeepsClean | cmd/reset/emit.go:91-125 | clearing more leaves what is clean clean, however variables alias |
| ResetRun.ZeroIsClean | cmd/reset/emit.go:234-244 | the zero value of any type is clean to every depth |
| ResetRun.RunClears | cmd/reset/emit.go:127-244 | on any heap the emitted statement does not panic, and if the calls it makes return it only clears and leaves its variable clean to every depth; asked of the methods called is that they are sound |
| ResetRun.StorageIsKept | cmd/reset/emit.go:158-166 | a slice keeps its storage and a map is emptied in place |
| ResetMethods.MethodAcceptedExactlyWhenFine | cmd/reset/emit.go:91-125 | Go accepts the method exactly when it can be declared at all, beside the methods the type has under any name and with the receiver it gets, and every field's type is fine under that receiver |
| ResetMethods.AcceptedMethodsClear | cmd/reset/emit.go:91-125 | a method Go accepts does not panic, and if it returns it has cleaned its receiver with every field its struct declares, embedded ones included, and cleared or left alone everything else; on nil it does nothing |
| ResetCalls.ProgramsClear | cmd/reset/emit.go:182-184 | the methods generated for a package, calling each other as deep as it takes, are themselves what each counts on: on a heap without marks no call panics, and one that returns has cleaned its receiver to every depth, with every field its struct declares |
| ResetCalls.GeneratedExactlyWhenTarget | cmd/reset/emit.go:182-184 | a type has a generated method exactly if it is a target, named, instantiated or in parentheses |
| ResetCalls.ReturnsWhenItEnds | cmd/reset/emit.go:182-184 | a generated method returns if the calls it leads to, as the heap stands, are finitely deep, and within that depth |
| ResetLinks.ReturnsExactlyWhenItEnds | cmd/reset/emit.go:182-184 | and only then, in every program in which no step clears a pointer that such calls go through |
| ResetCycles.LinkedKeepsLinks | cmd/reset/emit.go:149-156 | structs are such programs whose fields are predeclared values, slices, maps, functions, channels and interfaces, names of these, structs that have a method, and pointers to all these |
| ResetCycles.LinkedReturnsExactlyWhenItEnds | cmd/reset/emit.go:149-156 | so for them Reset returns exactly when every chain of links from the receiver ends |
| ResetCycles.LoopIsOfAProgram | cmd/reset/emit.go:149-156 | a node that is its own successor is a heap of such a program, which Go accepts |
| ResetCycles.OneNodeCycleNeverReturns | cmd/reset/emit.go:149-156 | Reset on it has not returned however many calls deep it is run |
| ResetCycles.KnotNeverEnds | cmd/reset/emit.go:149-162 | a node that leads to itself through an array cell leads to endless calls as the heap stands |
| ResetCycles.KnotIsCut | cmd/reset/emit.go:149-162 | yet its Reset returns, because the cell is cleared before it is followed: the proviso about cleared pointers is needed |
| ResetAgain.ResettingAgainChangesNothing | cmd/reset/emit.go:91-125 | a method that calls no Reset, as the heap stands, returns, and called again returns the very same heap, however its pointers alias |
| ResetForms.OrdinaryTypesAreFine | cmd/reset/emit.go:127-206 | literals of every kind, names defined by them or having Reset, and pointers to all but slices are accepted at any depth, where neither the receiver nor a declaration hides a name they are written with |
| ResetForms.PointerToSliceIsRefused | cmd/reset/emit.go:160 | the code for a pointer to a slice slices the pointer |
| ResetForms.PointerToNamedSliceIsRefused | cmd/reset/emit.go:193-202 | so does the code for a pointer to a name defined as a slice |
| ResetForms.NameOfNamedStructIsRefused | cmd/reset/emit.go:193-202 | a name defined by the name of a struct is assigned a value of the wrong name |
| ResetForms.NameOfNamedSliceIsAccepted | cmd/reset/emit.go:193-202 | a name defined by the name of a slice needs no such value and is accepted |
| ResetForms.NamedPointerToResettableIsRefused | cmd/reset/emit.go:182-184 | a name defined as a pointer to a type with Reset has no such method |
| ResetForms.PointerToPointerAliasIsRefused | cmd/reset/collect.go:79-93 | Reset declared for an alias of a pointer is no method of a pointer to the alias |
| ResetForms.ReceiverHidesType | cmd/reset/emit.go:193-202 | a conversion to a type of the receiver's name is refused |
| ResetForms.ReceiverOfDataHidesItsField | cmd/reset/emit.go:290-295 | `type d int64` and a marked `Data struct{ x d }` compile, and the method with `d.x = d(0)` is refused |
| ResetForms.UnderscoreReceiverIsRefused | cmd/reset/emit.go:105-107 | no method is accepted for a type whose name starts with `_` |
| ResetForms.FieldNamedResetIsRefused | cmd/reset/emit.go:105-107 | nor for a struct with a field called Reset |
| ResetForms.OtherDefinitionsAreRefusedExactlyWhenNotNilable | cmd/reset/emit.go:203-204 | a name defined by a qualified, instantiated or parenthesised type is refused exactly when nil is no value of it |
| ResetForms.ExternalInstanceIsRefusedExactlyWhenNotNilable | cmd/reset/emit.go:203-204 | a name defined by an instance of another package's generic type, such as `iter.Seq[int]`, is refused exactly when that kind of type has no nil |
| ResetForms.AliasOfInterfaceIsAcceptedExactlyWhenWritable | cmd/reset/emit.go:186-189 | a name defined by an alias of an interface takes the value that is assigned, where the alias can be written |
| ResetForms.NameOfResettableIsRefusedExactlyWhenNotPromoted | cmd/reset/emit.go:182-185 | a name defined by a type with Reset is refused exactly when it does not gain Reset from what the struct embeds |
| ResetForms.DotImportedNameIsRefused | cmd/reset/resolve.go:92-119 | a field of a type imported without a qualifier is refused, since the generated file has no such import |
| ResetForms.SelfPointerStops | cmd/reset/emit.go:16-22 | for `type P *P` five pointers are followed and the rest is left to a check at run time |
| ResetForms.NestingIsBounded | cmd/reset/emit.go:16-22 | however definitions refer to each other, the nesting of the emitted code is bounded by the unfoldings left and the stars of one definition |
| ResetGenerator.Generator.Fail | cmd/reset/emit.go:85-89 | only the first error is kept |
| ResetGenerator.Generator.ResetUnknown | cmd/reset/emit.go:234-244 | appends the text of the check at run time and its fallback |
| ResetGenerator.Generator.ResetExternal | cmd/reset/emit.go:208-232 | appends the text of the statement for a type of another package, or records that it could not be found |
| ResetGenerator.Generator.ResetExpr | cmd/reset/emit.go:127-174 | appends exactly the text of the emitted statement and records its error if it is the first |
| ResetGenerator.Generator.ResetNamed | cmd/reset/emit.go:176-206 | the same for a name, unfolded or not |
| ResetGenerator.Generator.WriteMethod | cmd/reset/emit.go:91-125 | appends the header, the statements for all named and embedded fields in order and the end; the error kept is the first |
| ResetGenerator.FirstErrorIsFirst | cmd/reset/emit.go:85-89 | that error is the one of the first field that has one |
| ResetGenerator.FailedLookupIsError | cmd/reset/emit.go:208-213 | a type that cannot be looked up is one |
| ResetGolden.GroupedText | cmd/reset/testdata/fields/reset.gen.go.golden:79-87 | the whole method of the fixture `Grouped`, up to indentation |
| ResetGolden.PairHeader | cmd/reset/testdata/generic/reset.gen.go.golden:5-9 | the header of the generic fixture `Pair` |
| ResetGolden.KeyText | cmd/reset/testdata/generic/reset.gen.go.golden:11-15 | the statement for its field of a type parameter |
| ResetGolden.BoxText | cmd/reset/testdata/generic/reset.gen.go.golden:23-27 | and for its field of an instantiated type |
| ResetGolden.StatusText | cmd/reset/testdata/fields/reset.gen.go.golden:23 | a field of a named number, as for the fixture `Fields` |
| ResetGolden.TagsText | cmd/reset/testdata/fields/reset.gen.go.golden:25 | a field of a named slice |
| ResetGolden.DoublePointerText | cmd/reset/testdata/fields/reset.gen.go.golden:32-36 | a pointer to a pointer |
| ResetGolden.InnerPointerText | cmd/reset/testdata/fields/reset.gen.go.golden:42-44 | a pointer to a struct with Reset |
| ResetGolden.DurationText | cmd/reset/testdata/fields/reset.gen.go.golden:57 | a type of another package |
| ResetGenerator.TextReads | cmd/reset/emit.go:149-160 | the text of every expression reads, by Go's precedence, as that expression, and with `[:0]` behind it as the slice expression the type checker is modelled on |

## Left out

- HTTP handlers, router, middleware, gzip, HMAC and JSON: plumbing and library code. Saving and loading assume that decoding inverts encoding.
- Time, timers and goroutine scheduling: a pause is a number, a wait either sleeps through or is cut short, and steps interleave freely. That no attempt starts after cancellation is not claimed.
- Gauge values are opaque; floating point does not occur.
- Directory durability: a rename is atomic, one that fails has had no effect, and a file that was synced survives a crash with its content.
- Concurrent `Save` calls for one path: their renames may land out of order, so that the newest snapshot survives is not claimed.
- `isRetriableFileError` and `isRetriableSendError`: which errors of files and requests are passing is the environment's choice, so the results hold for every classification.
- Opening and migrating a database and `PingContext`. The table does not change while one read is repeated.
- Transactions.AppliedAsToldAlways: a statement or commit that the client has given up on has either taken effect by then or never does; that the server is still at it while the next attempt runs is no step of `Transactions` or `PgCalls`.
- PostgreSQL's isolation levels: a transaction sees the newest committed version of each row it upserts and locks it until it ends, which is what its upserts rely on.
- `generate`: sorting the targets, import lines and formatting; `typeString` prints a type, and which packages the generated file imports under which names is given (`ResetTypes.Env.imported`). Looking up a type of another package is given by its result.
- ResetMethods.MethodAcceptedExactlyWhenFine: excepted are packages that redeclare a predeclared type (`ResetTypes.Valid`); targets with a type parameter named like a declared, a predeclared or an unqualified imported type (`ResetMethods.IsPackage`), which the generator takes for that type; packages in which one qualifier or unqualified name stands for different packages in different files, or for another than the generator finds under it (`cmd/reset/resolve.go:78-90`); and files that are not compiled together, by build constraints or a language version without `any` and `clear`. Which methods a struct gains from what it embeds is not looked up but given (`ResetTypes.Env.promotes`), as are the packages the generated file imports (`imported`).
- Identifiers are ASCII.
- ResetCalls.ProgramsClear: Reset methods written by hand, or of other packages, are taken to clear variables or leave them alone and not to panic; a variable handed to one, or to a method gained by embedding, counts as clean because it was handed over. That they return is asked only where returning is claimed.
- What an observer answers to an audit event: its failure is reported and changes nothing in the publisher.
- `internal/pool`, mocks, build information, flags and static checks: thin wrappers and tables.
