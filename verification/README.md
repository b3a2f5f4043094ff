# Verification of the metrics Agent and Server

A Dafny model of a Go system in which an Agent polls gauges, counts its polls and reports both to
a Server over HTTP or gRPC, and of the generator of `Reset` methods kept in the same repository.
`dafny verify dfyconfig.toml` checks all of it.

| file | what it models |
|---|---|
| `Options.dfy`, `Metrics.dfy` | optional values and results, the metric record, wrap-around of int64 |
| `MetricStore.dfy`, `InMemory.dfy` | what a batch does to a store, and the in-memory repository |
| `Reports.dfy` | the batch the Agent builds from a snapshot |
| `AgentProtocol.dfy`, `AgentInvariants.dfy`, `AgentTheorems.dfy` | the Agent's loops, queue, workers and shutdown as interleaved steps; what each step keeps; results about whole runs |
| `AgentService.dfy` | the Agent's objects, each method proved to take steps of that protocol |
| `AgentProgress.dfy` | what the Agent can always still do: deliver, leave its loops, return nil |
| `ResetGenerator.dfy`, `ResetSemantics.dfy`, `ResetTheorems.dfy` | the generator, the heap semantics of what it emits, and what running it does |
| `Retry.dfy` | the three loops of "attempt, classify, wait" |
| `Postgres.dfy` | the table, its transactions and their retries against the in-memory store |
| `Persistence.dfy`, `ServerShutdown.dfy`, `ServerLifecycle.dfy` | the metrics file, the Server's persistence fields, and the interleaving of requests, ticker and shutdown |
| `ServerProgress.dfy` | what each kind of save leaves in the file, and that a shutdown can always finish |
| `Transports.dfy` | the JSON validator, the protobuf converters, both handlers, and a batch sent either way with its retries |
| `Http.dfy`, `RequestPipeline.dfy`, `ResponseWriters.dfy` | request bodies from Agent to handler, and responses through compression and signing |

Concurrent parts are state machines. A Go `select` with several ready cases may take any of them, so
after a cancellation the tickers and the queue stay enabled beside the exits; a timeout is a step that
may come at any moment. Runs are sequences of enabled steps, and results hold for all of them.
Methods of mutable objects are tied to functions on values, and the lemmas speak of those functions.

Where the code departs from its own documentation, or from what one would expect of it, the model follows
the code, gives an input and the exact condition:

- The rules for generated `Reset` methods (the repository's README.md, lines 881 to 887) ask that the target
  of every pointer that is not nil be reset. The code leaves the target of a pointer to a named basic type, a
  slice, a map or another pointer alone (`NamedPointerKept`, `SlicePointerKept`; `PointerTargetReset` says
  exactly when a target is reset). Embedded fields are skipped (`CollectedFields`).
- Saving after every update does not keep the file equal to the memory when updates overlap, and can leave a
  file that is no list of metrics (`OverlapBreaks`, `OverlapGarbles`; `SynchronousSettles` for the exact
  condition, `OneAtATimeKeeps` for the runs without overlap).
- A request that outlives a forced stop of the HTTP server can still change the memory after the final save
  (`OutlivingRequestIsLost`; nothing follows if and only if no request is in progress, `NothingFollowsIff`).
- A failed write can lose the file's old contents (`FailedSaveKeeps`).
- The in-memory counters wrap modulo 2^64 where the BIGINT column reports an error, and the in-memory store keeps
  names that a TEXT column or its index refuses (`DisagreeOnOverflow`, `DisagreeOnNul`); the two repositories
  agree exactly until the first such refusal (`RepliesAgree`, `TransactRefines`).
- A gauge that is not a finite number goes out over gRPC but never over HTTP; a batch whose save fails stays
  applied, and the Agent sends it again over HTTP but not over gRPC (`NaNDiverges`, `FailingSavesDiverge`;
  `DeliverBothWays` says when the two ways leave equal stores).
- A Server without a private key answers 500, not 400, to an encrypted batch, which the Agent then retries
  to the end of its delays (`SealedWithoutKey`, `MismatchIsRefused`, `RefusalTrace`).
- `New` panics instead of returning the error when setting up file persistence fails, because the deferred
  `Close` calls a function that is nil by then (`NewOnGarbledFile`; `ServerShutdown.New` states when).

## Model

| member | source | states |
|---|---|---|
| `AgentProgress.StartExists` | internal/agent/agent.go:102-132 | with any rate limit, gauges and Server there is a state to start from |
| `AgentTheorems.PollsAreConserved` | internal/agent/service/report.go:21-95 | in every state of every interleaving, the polls completed equal, modulo 2^64 (and exactly while they fit), the sum of the accumulator, a report being built or refused, the queue, the workers, the final report and the acknowledged sends |
| `AgentTheorems.CleanExit` | internal/agent/agent.go:134-161 | when Run returns nil all goroutines have left, queue and accumulator are empty, and acknowledged poll counts sum to the polls made |
| `AgentTheorems.Convergence` | internal/agent/agent.go:143-157 | when Run returns nil the Server's store is its first one overlaid with the Agent's final gauges, PollCount grown by the polls plus the counts of attempts that took effect unacknowledged, whatever order workers delivered in |
| `AgentTheorems.ExactlyOnce` | internal/agent/service/report.go:98-109 | while counts fit the counter, PollCount grew by exactly the polls if and only if every attempt that took effect without an acknowledgement carried a zero count |
| `AgentTheorems.CleanIsFinal` | internal/agent/agent.go:155-161 | after a clean return no step of any goroutine is enabled |
| `AgentTheorems.ChannelSafety` | internal/agent/report.go:11-16 | no report is offered to a closed channel, it is closed at most once, and queue and concurrent sends stay within the rate limit |
| `AgentTheorems.ReportNeverBlocks` | internal/agent/report.go:5-17 | in any run a report is in the making for fewer than three steps of the report loop, and until it is done the loop has a step to take, whatever the queue and the other goroutines do |
| `AgentTheorems.ClosedQueueShrinks` | internal/agent/agent.go:148-153 | once closed the queue stays closed and changes only by losing its first report |
| `AgentTheorems.DrainBounded` | internal/agent/agent.go:224-241 | after the close no run holds more worker steps than a measure of the queue, sends and live workers |
| `AgentTheorems.DrainProgress` | internal/agent/agent.go:224-241 | after the close some worker can move until all have left |
| `AgentTheorems.DrainCompletes` | internal/agent/agent.go:148-153 | any schedule that lets the workers finish ends with all of them gone, the queue empty and the second wait able to succeed |
| `AgentProgress.LoopLeaves` | internal/agent/agent.go:180-222 | after the cancellation each of the three loops returns after at most a fixed number of its own steps, once it answers its ticker no more; until then it can take one, whatever the others do |
| `AgentProgress.RunCanSucceed` | internal/agent/agent.go:134-161 | from every reachable state in which Run has not returned and the final report has not failed, some run ends with Run returning nil |
| `AgentProgress.TimeoutMayFire` | internal/agent/agent.go:143-153 | while Run waits for the loops or the workers its timeout may fire in any state, and cancels the sends |
| `AgentProgress.WorkerLeaves` | internal/agent/agent.go:224-241 | once Run has returned each worker exits after at most six of its own steps, if it takes no further report, and until then can take one |
| `AgentProgress.NothingLeavesEarly` | internal/agent/agent.go:180-241 | without a cancellation no loop and no worker ever leaves |
| `AgentProgress.EveryPollCanArrive` | internal/agent/agent.go:102-132 | from every reachable state before the cancellation some run, with the Agent still serving, leaves nothing anywhere and every poll made so far acknowledged |
| `AgentProgress.RefusedWhenFull` | internal/agent/report.go:11-16 | a report is refused if and only if the queue is full, and enqueued otherwise |
| `AgentInvariants.ControlKept` | internal/agent/agent.go:102-162 | every step keeps the order of shutdown: loops joined before the close, workers joined before the flush |
| `AgentInvariants.ReportsKept` | internal/agent/service/report.go:47-77 | every report in any place stays a full batch of gauges the Agent has, ending in its own poll count |
| `AgentInvariants.CarriedStep` | internal/agent/service/report.go:21-95 | each step changes the sum over all places by the polls it completes and a multiple of 2^64 |
| `AgentService.ReportingService.PollRuntime` | internal/agent/service/poll.go:24-65 | gauge writes one by one, then one increment, as steps of the protocol |
| `AgentService.ReportingService.PollSystem` | internal/agent/service/poll.go:68-92 | memory, then one gauge a processor, ended early by a failed reading; no poll is counted; as steps of the protocol |
| `AgentService.SkippedWrite` | internal/agent/service/poll.go:94-100 | a gauge the repository does not take keeps its value, and the poll goes on |
| `AgentService.ReportingService.BuildMetricsBatch` | internal/agent/service/report.go:47-77 | every gauge once in some order, then the counter PollCount |
| `AgentService.ReportingService.PrepareReport` | internal/agent/service/report.go:21-45 | takes the whole count or, on a failed snapshot, gives it back |
| `AgentService.ReportingService.Restore` | internal/agent/service/report.go:91-95 | adds the report's count back |
| `AgentService.ReportingService.Send` | internal/agent/service/report.go:81-88 | a failed send restores the count, a successful one does not |
| `AgentService.ReportingService.Flush` | internal/agent/service/report.go:98-109 | the final report sent at once, as a legal run of the protocol |
| `AgentService.Agent.Report` | internal/agent/report.go:5-17 | enqueues while there is room, otherwise restores, as a legal run of the protocol |
| `AgentService.SendIsProtocolRun` | internal/agent/transport/grpc/sender.go:121-136 | every trace of a sender's loop is a legal run of the protocol's attempts, ending acknowledged exactly when the loop returned nil, with the report received once for each attempt that took effect |
| `AgentService.FlushIsProtocolRun` | internal/agent/service/report.go:98-109 | the same for the final report: Run returns nil exactly when the loop that sends it returned nil |
| `AgentService.SenderMeetsProtocol` | internal/agent/service/report.go:81-88 | a sender against a Server and the protocol's run of the same attempts leave the same store |
| `AgentService.Agent.RunSendWorker` | internal/agent/agent.go:224-241 | after the close one worker sends all that is queued and exits, as a legal run of the protocol |
| `AgentService.Agent.Finish` | internal/agent/agent.go:148-161 | close, drain and flush as a legal run that returns nil exactly when the flush works |
| `MetricStore.ApplyConcat` | internal/repository/memstorage.go:47-61 | a concatenated batch is its parts applied in order |
| `MetricStore.CountersAfterBatch` | internal/repository/memstorage.go:47-61 | each counter grows by the sum of its deltas modulo 2^64 |
| `MetricStore.CounterNamesAfterBatch` | internal/repository/memstorage.go:47-61 | a batch adds exactly the counter names it mentions |
| `MetricStore.GaugesAfterBatch` | internal/repository/memstorage.go:47-61 | a gauge takes its last value in the batch, or keeps its own |
| `MetricStore.PermutedCounters` | internal/repository/memstorage.go:47-61 | counters depend only on the multiset of metrics |
| `MetricStore.PermutedBatch` | internal/repository/memstorage.go:47-61 | batches that differ in order only and name each gauge once lead to the same store |
| `MetricStore.SameTimes` | internal/repository/memstorage.go:47-61 | a batch applied k and g times leaves equal stores if and only if both add the same to every counter modulo 2^64 and, when one number is zero, the store already held the batch |
| `Reports.ReportEffect` | internal/agent/service/report.go:47-77 | a report overlays its gauges and adds its poll count, nothing else |
| `Reports.OrderIrrelevant` | internal/agent/service/report.go:61-67 | the order of Go's range over the gauges cannot matter |
| `InMemory.MemStorage.UpdateGauge` | internal/repository/memstorage.go:26-33 | overwrites one gauge |
| `InMemory.MemStorage.UpdateCounter` | internal/repository/memstorage.go:37-44 | adds with wrap-around and returns the new total |
| `InMemory.MemStorage.UpdateMetrics` | internal/repository/memstorage.go:47-61 | the new contents are the batch applied to the old |
| `InMemory.MemStorage.GetGauge` | internal/repository/memstorage.go:65-75 | found exactly when stored, with the stored value |
| `InMemory.MemStorage.GetCounter` | internal/repository/memstorage.go:79-89 | found exactly when stored, with the stored value |
| `InMemory.MemStorage.Snapshot` | internal/repository/memstorage.go:93-108 | copies both maps whatever the iteration order |
| `InMemory.MemStorage.SetGauge` | internal/repository/memstorage.go:111-116 | overwrites one gauge |
| `InMemory.MemStorage.SetCounter` | internal/repository/memstorage.go:119-124 | overwrites one counter |
| `ResetGenerator.CollectFields` | cmd/reset/generator.go:273-286 | the loops collect the named fields in order |
| `ResetGenerator.CollectedFields` | cmd/reset/generator.go:273-286 | a field is collected if and only if a line names it; embedded fields are not |
| `ResetGenerator.FieldsInOrder` | cmd/reset/generator.go:273-286 | lines of a struct keep their order |
| `ResetGenerator.OneLine` | cmd/reset/generator.go:273-286 | and so do the names of one line, each with the type of the line |
| `ResetGenerator.FindResetStructs` | cmd/reset/generator.go:191-204 | the loops collect the marked structs in order |
| `ResetGenerator.CollectResetStructs` | cmd/reset/generator.go:215-251 | the same within one declaration group |
| `ResetGenerator.FoundStructs` | cmd/reset/generator.go:191-251 | a struct is found if and only if it or its group carries the directive |
| `ResetGenerator.BuildResetBody` | cmd/reset/generator.go:338-348 | one statement a field, in field order |
| `ResetTheorems.ResetMeaning` | cmd/reset/generator.go:25-35 | running Reset yields the heap in which exactly the declared fields of every reachable struct, and what they point at, are reset; reachable through marked types of any package, aliases and shared children included |
| `ResetTheorems.FieldsReset` | cmd/reset/generator.go:350-439 | every named field of every reached struct holds its reset value (pointers, maps and inline structs the same, slices cut to length 0 on their array), and every child is reached too |
| `ResetTheorems.PointersReset` | cmd/reset/generator.go:395-404 | the target of every reached `*T`, T one of Go's predeclared basic types, holds the zero of its kind; a basic value behind no such pointer is as it was |
| `ResetTheorems.ZeroValuesAreZeros` | cmd/reset/generator.go:450-465 | the generator writes a literal for exactly the predeclared basic types, and it is the zero of the type's kind |
| `ResetTheorems.DenotesIff` | cmd/reset/generator.go:366-418 | the type expressions behind which the emitted assertion finds a generated Reset: a marked struct's name or an alias of it, qualified or not, in any parentheses |
| `ResetTheorems.NilReceiver` | cmd/reset/generator.go:29-33 | Reset on nil changes nothing |
| `ResetTheorems.MapsCleared` | cmd/reset/generator.go:350-364 | maps are the same objects, emptied |
| `ResetTheorems.FrameKept` | cmd/reset/generator.go:338-439 | nothing outside the footprint changes; slice arrays keep their elements |
| `ResetTheorems.ResetIdempotent` | cmd/reset/generator.go:350-439 | a second Reset ends and changes nothing |
| `ResetTheorems.ResetsCommute` | cmd/reset/generator.go:350-439 | two Resets give the same heap in either order, whatever they share |
| `ResetTheorems.ResetTerminates` | cmd/reset/generator.go:25-35 | Reset terminates if and only if the reachable child graph has no cycle |
| `ResetTheorems.ResetReach` | cmd/reset/generator.go:350-439 | whatever the rules would change is reset if and only if it is the struct itself or some reached field resets it |
| `ResetTheorems.PointerTargetReset` | cmd/reset/generator.go:395-418 | for a reached pointer field and any object with something to reset: the code resets it if and only if it is the pointer's own target and the field's type is one the generator resets through, or it is reset anyway |
| `ResetTheorems.LoneTargetKept` | cmd/reset/generator.go:406-415 | a struct with one pointer of another type: Reset does nothing |
| `ResetTheorems.NamedPointerKept` | cmd/reset/generator.go:406-415 | the target of a pointer to a named string is kept |
| `ResetTheorems.SlicePointerKept` | cmd/reset/generator.go:406-415 | the slice behind a pointer to a slice keeps its length |
| `Retry.TraceBounds` | internal/repository/postgresstorage.go:259-290 | at most one attempt more than delays, waits a prefix of the delays, goes on after retriable errors only, nil exactly when the last attempt succeeded |
| `Retry.DefaultBounds` | internal/agent/transport/http/http_sender.go:135-139 | four attempts and nine seconds with the default delays |
| `Retry.TraceUnique` | internal/agent/transport/grpc/sender.go:121-136 | outcomes and classification leave one possible trace |
| `Retry.TracesCoincide` | internal/agent/transport/grpc/sender.go:121-136 | loops that classify the errors they meet alike, uncancelled, make the same trace |
| `Retry.RetriablePGErrors` | internal/repository/postgresstorage.go:304-307 | the database loop goes on exactly after a connection exception anywhere in the chain of causes: class 08 with one of seven subclasses |
| `Retry.RetriableGRPCErrors` | internal/agent/transport/grpc/sender.go:160-171 | the gRPC loop goes on exactly after Unavailable or ResourceExhausted, wrapped or not |
| `Retry.RetriableSendErrors` | internal/agent/transport/http/http_sender.go:193-209 | the HTTP loop goes on exactly after status 429 or 5xx or, with no status, after a request without response or a deadline |
| `Retry.SendGRPC` | internal/agent/transport/grpc/sender.go:108-171 | the gRPC loop follows the trace of its world and wraps its error |
| `Retry.PostWithRetry` | internal/agent/transport/http/http_sender.go:124-209 | the HTTP loop follows the trace of its world |
| `Retry.RetryDBOperation` | internal/repository/postgresstorage.go:259-307 | the database loop follows the trace of its world |
| `Postgres.UpsertRefines` | internal/repository/postgresstorage.go:79-128 | one upsert refines one in-memory update unless the name cannot be stored or the total overflows |
| `Postgres.TransactRefines` | internal/repository/postgresstorage.go:79-128 | a transaction fails if and only if the table refuses a metric of it, for its name or its running total, and otherwise refines the batch; the failure is not retried |
| `Postgres.AnswerRefines` | internal/repository/postgresstorage.go:27-257 | every command answers as the in-memory store does, and keeps the refinement, unless the table refuses it: no gauge row without value, no counter row without total |
| `Postgres.RepliesAgree` | internal/repository/postgresstorage.go:27-257 | over any sequence of commands the replies agree if and only if none is refused: no overflow, no name that cannot be stored or queried |
| `Postgres.DisagreeOnOverflow` | internal/repository/postgresstorage.go:50-76 | the greatest total plus one wraps in memory and is refused by the table |
| `Postgres.DisagreeOnNul` | internal/repository/postgresstorage.go:27-45 | the name of one NUL character is kept in memory and refused by the table |
| `Postgres.RefusedNames` | internal/repository/postgresstorage.go:27-76 | which error each kind of name the table cannot hold is refused with, whatever the table holds |
| `Postgres.NullTotalStays` | internal/repository/postgresstorage.go:50-76 | a NULL total stays NULL under updates, and neither they nor reads can give a total |
| `Postgres.NullValueFills` | internal/repository/postgresstorage.go:27-45 | a NULL value cannot be read, and the next update fills it |
| `Postgres.RepeatedBatch` | internal/repository/postgresstorage.go:79-128 | a batch applied k times leaves gauges as if applied once and adds k times each summed delta |
| `Postgres.PostgresStorage.Attempt` | internal/repository/postgresstorage.go:27-128 | one transaction with a fault before, at or after its commit |
| `Postgres.PostgresStorage.ReadRows` | internal/repository/postgresstorage.go:194-257 | the rows read back make the store the table refines, dropping none |
| `Postgres.PostgresStorage.Execute` | internal/repository/postgresstorage.go:259-290 | what a retried command answers, after which attempts and waits, and how often the table shows its effect, from what happens to each attempt |
| `Postgres.EffectsOf` | internal/repository/postgresstorage.go:259-290 | it takes effect at most four times; a write exactly once on success and never on failure, as long as no outcome gets lost |
| `Postgres.FaultlessIsOnce` | internal/repository/postgresstorage.go:259-290 | with nothing going wrong one attempt answers as the in-memory store does, or the command is refused |
| `Persistence.LoadSaved` | internal/repository/filestore.go:34-101 | a saved list loaded into any store overrides it by the saved maps, whatever the iteration order |
| `Persistence.RoundTrip` | internal/repository/filestore.go:34-101 | into an empty store it loads back exactly |
| `Persistence.LastEntryLoads` | internal/repository/filestore.go:87-98 | of any list, the last entry that gives a gauge or a counter a value decides; a counter is overwritten |
| `Persistence.OthersLoadNothing` | internal/repository/filestore.go:87-98 | a gauge or counter that no entry gives a value is as it was |
| `Persistence.EncodableIff` | internal/repository/filestore.go:60-63 | only NaN and the two infinities keep a store from being encoded |
| `Persistence.FiniteLists` | internal/repository/filestore.go:60-63 | the list can be encoded if and only if every gauge is finite |
| `Persistence.FailedSaveKeeps` | internal/repository/filestore.go:60-65 | a failed save keeps the old list if and only if a gauge could not be encoded or the file not opened; otherwise loading finds nothing, or all the data if the error came after them |
| `Persistence.FileStore.Save` | internal/repository/filestore.go:34-66 | succeeds exactly for finite gauges on a sound disk; a failure before the write keeps the file, one during it empties or garbles it |
| `Persistence.FileStore.Load` | internal/repository/filestore.go:69-101 | a missing or empty file is no error; only a list changes the store, and which failure leads to which error |
| `Persistence.MetricsService.UpdateGauge` | internal/server/service/metrics.go:53-63 | the update stays in memory whatever the save does; without error the file loads back to the memory, with one it is what the failed save left |
| `Persistence.MetricsService.UpdateMetrics` | internal/server/service/metrics.go:66-76 | the same for a batch |
| `Persistence.MetricsService.UpdateCounter` | internal/server/service/metrics.go:79-90 | the same, with the new total only on success |
| `Persistence.MetricsService.SaveIfSync` | internal/server/service/metrics.go:121-127 | saves only when synchronous saving is on |
| `ServerShutdown.SetupFilePersistence` | internal/server/persistence.go:14-69 | fails exactly on a load error or a negative interval, with nil for a function; otherwise the file is restored if asked to, interval 0 turns on saving after updates and a positive one the ticker |
| `ServerShutdown.New` | internal/server/server.go:48-145 | panics if and only if every earlier stage succeeded and the file persistence failed; a Server it gives back has its own service's metrics restored and its saving set up as configured |
| `ServerShutdown.NewOnGarbledFile` | internal/server/persistence.go:28-32 | a valid configuration that restores from a garbled file makes New panic |
| `ServerShutdown.Server.StopPersistence` | internal/server/server.go:210-216 | the first call saves, later ones repeat its answer and leave the file |
| `ServerShutdown.Server.Run` | internal/server/server.go:148-173 | the save is tried whatever serving returned, once, and the errors of both transports and of the save are joined; after a Close only the old error is repeated |
| `ServerShutdown.Server.Close` | internal/server/server.go:176-208 | calling it again, or after Run, changes neither file nor error |
| `ServerShutdown.RunThenClose` | cmd/server/main.go:62-68 | one save over Run and the deferred Close, and the file it wrote stays |
| `ServerShutdown.Restart` | internal/server/persistence.go:28-66 | Run, Close and a New on the same file: without an error the new Server has the old one's metrics; New panics if and only if the file ends up as no list |
| `ServerProgress.StartExists` | internal/server/server.go:137-145 | in each mode, with any metrics, there is a state to start from |
| `ServerLifecycle.InvKept` | internal/server/server.go:148-290 | every step of requests, ticker and shutdown keeps the invariant |
| `ServerLifecycle.FileIsSnapshot` | internal/repository/filestore.go:60-66 | at any moment the file is the first one or a save of some past memory state, except while a save has it open, after a write that was cut short, and after two saves had it open at once |
| `ServerProgress.PeriodicSaveIsTick` | internal/server/persistence.go:88-96 | in any run, whenever a periodic save ends the file holds the memory as it was at the saver's last tick |
| `ServerProgress.TickRound` | internal/server/persistence.go:88-101 | whenever the saver waits for its ticker a save of the memory as it is can be made; what each failure leaves, and that the saver goes on |
| `ServerProgress.RequestRound` | internal/server/service/metrics.go:53-76 | a request nothing comes between: the update stays, and is in the file exactly in synchronous mode and if the save works |
| `ServerProgress.MemoryIsLastUpdate` | internal/server/service/metrics.go:66-76 | in any run the memory is what the last update made of it; no save changes it |
| `ServerProgress.PutIsOverwrite` | internal/repository/filestore.go:65-65 | what a write makes of the file agrees with writing its bytes over the file from the start |
| `ServerProgress.RequestRunsOut` | internal/server/server.go:275-290 | once its transport is stopping, a handler gets no new request and ends the one it has in at most four of its own steps, whatever else happens |
| `ServerProgress.ShutdownCanFinish` | internal/server/server.go:148-216 | from every reachable state some run ends with Run returned, Close called and no request in progress; a final save not begun before leaves the memory in the file, and no transport need be stopped by force |
| `ServerProgress.ForcedLeavesRequests` | internal/server/server.go:260-283 | a transport that is up may go down by force at any time, with its requests in progress and the other transport as it was |
| `ServerLifecycle.NeverTwoWriters` | internal/server/persistence.go:56-107 | without synchronous saving two saves never have the file open at once |
| `ServerLifecycle.OverlapGarbles` | internal/server/service/metrics.go:121-127 | two synchronous saves of different length can leave a file that is no list, though no write was cut short |
| `ServerLifecycle.FinalSaveOnce` | internal/server/server.go:158-216 | Run then Close begin the final save at most once, exactly once when Run returned and there is a file |
| `ServerLifecycle.FinalSaveIsLast` | internal/server/server.go:167-216 | after graceful stops and the final save, no run writes file or memory or begins another final save |
| `ServerLifecycle.FinalFileIsMemory` | internal/server/persistence.go:56-66 | when that save succeeded the file loads back to the final memory |
| `ServerLifecycle.FinalOpenOutcome` | internal/repository/filestore.go:60-65 | a gauge that is not finite or a file that cannot be opened leaves the file; otherwise it is emptied |
| `ServerLifecycle.FinalSaveOutcome` | internal/server/persistence.go:56-66 | the final write succeeds if and only if all data went in without an error, and what each failure leaves of the file |
| `ServerLifecycle.NothingFollowsIff` | internal/server/server.go:279-283 | after the final save no run updates the memory or opens or writes the file if and only if no request is in progress |
| `ServerLifecycle.OutlivingRequestIsLost` | internal/server/server.go:279-283 | after a forced stop of the HTTP server a run reaches a successful final save and then an update that is in the memory and not in the file; with periodic saving nothing that follows puts it there |
| `ServerLifecycle.SynchronousSettles` | internal/server/service/metrics.go:121-127 | with saving after every update, all ways for the requests in progress to end leave the memory in the file if and only if none holds an older snapshot, none can change the memory beside another, and no longer list can be left behind the last write |
| `ServerLifecycle.OneAtATimeKeeps` | internal/server/service/metrics.go:66-76 | a run that admits one request at a time keeps the file equal to the memory whenever no request is in progress and the final save does not have it open, from the first update to the end of the shutdown |
| `ServerLifecycle.OverlapBreaks` | internal/server/service/metrics.go:66-76 | any two requests admitted together can end with an older state in the file although every save succeeded |
| `Transports.MetricRoundTrip` | internal/agent/transport/grpc/converter.go:27-62 | the converter accepts exactly what the JSON validator accepts, and the Server gets back the metric's own field |
| `Transports.ValidIsComplete` | internal/server/transport/http/handler/json.go:34-57 | validated metrics have the pointer the store follows |
| `Transports.EssencesApply` | internal/server/transport/grpc/converter.go:31-62 | what survives the wire has the same effect on a store |
| `Transports.RequestFromMetrics` | internal/agent/transport/grpc/converter.go:10-25 | succeeds exactly for valid batches, otherwise names the first metric the validator rejects and what is wrong with it |
| `Transports.MetricsFromProto` | internal/server/transport/grpc/converter.go:11-29 | accepts exactly named entries of a known type, keeps length and order, and gives a valid batch; otherwise names the first entry that is not |
| `Transports.DecodedIs` | internal/server/transport/grpc/converter.go:31-62 | the metric of an entry: its name, the type its number stands for, the one field of that type |
| `Transports.UpdatesJSON` | internal/server/transport/http/handler/update.go:137-161 | applies all of a valid batch or none, with the status of the first invalid metric; 500 for a failed save leaves the batch applied |
| `Transports.StatusIs` | internal/server/transport/http/handler/json.go:34-57 | 200 or, after a failed save, 500 for a batch of proper metrics; otherwise the first improper one decides: 404 without a name, else 400 |
| `Transports.UpdateMetricsRPC` | internal/server/transport/grpc/server.go:57-95 | applies the converted batch or nothing; Internal for a failed save leaves the batch applied |
| `Transports.SendOverHTTP` | internal/agent/transport/http/http_sender.go:61-157 | from a batch to the store: sent if and only if JSON can encode it, applied once for every attempt that arrives while it is valid, along the one trace of the retry loop |
| `Transports.SendOverGRPC` | internal/agent/transport/grpc/sender.go:108-137 | the same over gRPC, where only a valid batch is sent, whatever its gauges |
| `Transports.OnceOverGRPC` | internal/server/transport/grpc/server.go:84-95 | with nothing lost a valid batch is applied once over gRPC, whether or not its save works |
| `Transports.RepeatedOverHTTP` | internal/server/transport/http/handler/update.go:153-156 | over HTTP it is applied once for every attempt until a save works, four times at most |
| `Transports.DeliveriesAre` | internal/agent/transport/http/http_sender.go:141-156 | that number, from the store, the batch and what the disk does |
| `Transports.DeliverBothWays` | internal/agent/transport/grpc/converter.go:10-62 | HTTP delivers if and only if gRPC does and JSON can encode the batch; with nothing lost, equal stores are equal again if and only if the batch is invalid or the deliveries that the failing saves cause add what one adds to every counter and, for a batch JSON cannot encode, the store already held it |
| `Transports.FailingSavesDiverge` | internal/server/service/metrics.go:66-76 | two Servers whose disks never open the file: a counter sent once each way ends at four over HTTP and at one over gRPC |
| `Transports.NaNDiverges` | internal/agent/transport/http/http_sender.go:84-88 | a NaN gauge arrives over gRPC and is never sent over HTTP |
| `RequestPipeline.BodyIsDelivered` | internal/agent/transport/http/http_sender.go:61-114 | the handler reads the JSON the Agent built if and only if the signatures agree and the Server can open what was sealed |
| `RequestPipeline.MismatchIsRefused` | internal/server/transport/http/middleware/decryption.go:17-64 | otherwise the handler is not run: 400, or 500 when the Server has no private key |
| `RequestPipeline.SealedWithoutKey` | internal/server/transport/http/middleware/gzip.go:142-149 | any encrypted batch at a Server without keys is answered with 500 |
| `RequestPipeline.AlteredBodyIsRefused` | internal/server/transport/http/middleware/hash.go:71-90 | a body changed on the way is refused with 400 unless the digests collide |
| `RequestPipeline.OnlySignedPass` | internal/server/transport/http/middleware/hash.go:71-90 | with a key, what reaches the handler was unsigned or rightly signed |
| `RequestPipeline.HandlerSeesIff` | internal/server/transport/http/router/router.go:30-40 | for every request: the handler runs if and only if the signature fits, the body can be opened and what is called gzip begins like gzip; which bytes it reads then, and 500 for bad gzip alone, else 400 |
| `RequestPipeline.PlainRequestIsRead` | internal/server/transport/http/middleware/gzip.go:139-157 | a request neither signed, encrypted nor compressed is read as it was sent, by every Server |
| `RequestPipeline.UnknownSchemeIsRefused` | internal/server/transport/http/middleware/decryption.go:26-30 | a Server with a private key answers 400 to an encryption it does not know |
| `RequestPipeline.RestOfRequest` | internal/server/transport/http/middleware/decryption.go:46-64 | only an opened body changes the length and the headers the handler is given |
| `Http.NamesGzipIff` | internal/server/transport/http/middleware/gzip.go:139-140 | a value names gzip if and only if those four letters stand somewhere in it, in either case |
| `RequestPipeline.RefusalTrace` | internal/agent/transport/http/http_sender.go:141-204 | a 400 ends the sending after one attempt, a 500 after four |
| `RequestPipeline.HTTPSender.Send` | internal/agent/transport/http/http_sender.go:61-191 | every attempt posts the same request; without JSON or address, or when encryption fails, none is made |
| `RequestPipeline.WithHash` | internal/server/transport/http/middleware/hash.go:63-94 | refuses a wrong signature, otherwise hands on the body it read |
| `RequestPipeline.WithDecryption` | internal/server/transport/http/middleware/decryption.go:17-64 | refuses an unknown scheme or a body it cannot open, otherwise replaces body, length and header |
| `RequestPipeline.WithGzip` | internal/server/transport/http/middleware/gzip.go:119-157 | refuses with 500 what is called gzip and has no gzip header, hands on its decompression otherwise, and leaves every other body |
| `RequestPipeline.Route` | internal/server/transport/http/router/router.go:30-40 | hash check and decryption only with their keys, in this order, then gzip |
| `ResponseWriters.Serve` | internal/server/transport/http/middleware/hash.go:92-118 | for any calls of a handler: the status is the first set or 200, the body decompresses to the concatenated writes exactly when compression was chosen, the signature covers the bytes sent, and no other header changes |
| `ResponseWriters.StepsTrack` | internal/server/transport/http/middleware/gzip.go:49-76 | after any calls the writers hold what those calls mean |
| `ResponseWriters.ModeNeverChanges` | internal/server/transport/http/middleware/gzip.go:161-182 | the mode chosen at the first call that sends something stays |
| `ResponseWriters.CompressionIsInvisible` | internal/server/transport/http/middleware/gzip.go:119-157 | with or without gzip a client sees the same status and decoded body |
| `ResponseWriters.CompressWriter.InitWriter` | internal/server/transport/http/middleware/gzip.go:166-182 | the Content-Type at that moment decides between gzip and the plain writer |
| `ResponseWriters.CompressibleIff` | internal/server/transport/http/middleware/gzip.go:171-174 | compressed are exactly the types that begin with application/json or text/html, in either case |
| `ResponseWriters.CompressWriter.WriteHeader` | internal/server/transport/http/middleware/gzip.go:60-65 | decides the mode, then passes the status on |
| `ResponseWriters.CompressWriter.Write` | internal/server/transport/http/middleware/gzip.go:49-54 | sends 200 first when nothing was sent yet, then writes in the chosen mode |
| `ResponseWriters.CompressWriter.Close` | internal/server/transport/http/middleware/gzip.go:71-76 | flushes the gzip stream, and only that |
| `ResponseWriters.HashResponseWriter.Write` | internal/server/transport/http/middleware/hash.go:33-38 | appends, a first write setting 200 |
| `ResponseWriters.HashResponseWriter.WriteHeader` | internal/server/transport/http/middleware/hash.go:41-45 | keeps the first status |

## Left out

- LoadSaved: names are sequences of characters, so every name is valid UTF-8; JSON replaces other bytes, and so a Go name with such bytes would come back altered.
- RoundTrip: the same.
- RepliesAgree: the same; TEXT and protobuf refuse such names.
- SendOverHTTP: the same; an interrupted connection is an attempt lost before or after it reached the Server.
- SendOverGRPC: the same; a request larger than gRPC's limit for messages is refused by every Server and counts as an attempt lost before it arrived.
- AgentService.Agent.Finish: one schedule, with a single worker left; all schedules are those of the step relation.
- Gauge arithmetic: gauges are stored and copied, never computed with, so a float64 is a code for a finite number, NaN or an infinity.
- What is measured: a runtime poll is any list of gauge writes, followed by the increment; a system poll writes the readings it is given.
- Other writers to the Server while an Agent runs, and freshness of gauges before the shutdown, which the reordering of workers makes false.
- The handlers for one metric in the path or the body, and the reads over HTTP: they parse one metric and call the service.
- Timers, sockets, TLS, logging, audit, trusted subnets, HTML pages, `/ping`, configuration, flags and environment: intervals and timeouts are steps that may come at any time.
- JSON, gzip, RSA, AES-GCM and SHA-256 are functions known by a few laws: a gzip stream grows by appending and decompresses to what was written; only the matching private key opens a sealed body, and a sealed body, being a JSON object, is not a gzip stream; digests are not empty. That a key pair that does not match never opens a body idealises the cryptography.
- The `hash` field of a metric, which no transport carries to the store.
- A batch of the Agent is never empty, so the branch of prepareReport that returns an empty batch is not modelled.
- Parsing and formatting Go, walking directories and recognising the directive's text: the generator starts from declarations marked or not. Reset methods written by hand or promoted from an embedded field, generic structs, pointers into the middle of objects, blank field names and types that shadow predeclared names are excluded.
- The contents of values that a generated Reset replaces whole (fixed-size arrays, channels, functions, interfaces, unmarked structs, values of a qualified type): only that they become the zero value.
- Which names the primary key's index has room for is a parameter of the table; the model only knows that a name with a NUL character is refused.
- A crash of the process while it writes the file; writes that fail are covered. Opening a file empties it in one step, and the data go in by one call, as os.WriteFile makes it; a file system that splits that call is not modelled.
- Persistence.FileStore.Save: one save by itself; ServerLifecycle has the saves that run at the same time.
- ServerLifecycle starts from a Server that New returned without error; ServerShutdown covers New itself.
- ServerProgress.ForcedLeavesRequests: a forced stop leaves requests running in the model of both transports, as closing the HTTP server does. When stopGRPC gives up it still waits for GracefulStop, and so for its handlers, to return; only after a failing Serve may gRPC handlers run on. The model has some more runs for gRPC than the code.
- The Server's responses when it has no signing key go straight to the writer of net/http, which is not part of this model.
- Header values are compared after lowering ASCII letters only; a request always has a body, as net/http gives its handlers one.
- `pkg/pool`, the `staticlint` analyser, SQL migrations, generated protobuf code and mocks.
