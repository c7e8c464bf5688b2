# Verification model of the metrics agent and server

An agent polls system metrics, counts its polls, and posts both to a server, which keeps gauges and
counters in memory (saved to a file) or in a database table. This project models the parts of that
system whose correctness spans several functions or several goroutines, and proves properties of them
with Dafny. `dafny verify dfyconfig.toml` checks everything.

| file | subject |
|---|---|
| `Delivery.dfy` | the whole path of a poll: collector, reporter, sender, pool, retrying client, server counter, as one interleaved state machine and its invariant |
| `DeliveryLedger.dfy`, `DeliveryRuns.dfy`, `DeliveryShutdown.dfy` | what its runs conserve and at most count; runs that lose ticks or reach the bound; its end |
| `WorkerPool.dfy` | the bounded worker pool and the unlimited sender: accounting, order, termination of Stop; the pool as an object |
| `Reporter.dfy`, `Collector.dfy` | one report over the objects; what repeated merging of partial records keeps |
| `BatchSender.dfy`, `ObjPool.dfy` | from a record to the posted batch, through pooled slices |
| `Retry.dfy` | the retry loop, for every operation, error classification and cancellation |
| `MemStorage.dfy`, `Persistence.dfy` | the in-memory storage, its file, and whole lifetimes of updates, saves, crashes and restarts |
| `DbStorage.dfy` | the table under upserts, a CHECK constraint, transactions, lost answers and retries |
| `StorageRefinement.dfy` | the two storages against each other |
| `BatchCalls.dfy` | retried batches among other writers, and their place in the delivery protocol |
| `GzipHeader.dfy`, `GzipStream.dfy` | the two header tests, and compressed exchanges in both directions |
| `Admission.dfy` | request tracking, concurrency limit and graceful shutdown |
| `ResetGenerator.dfy`, `ResetText.dfy`, `ResetReader.dfy` | the generator of Reset methods: its choice of statements, their text, and that text read back and run |
| `ResetSemantics.dfy`, `ResetSharing.dfy`, `ResetCycles.dfy` | what the statements do, to values without and with sharing, and when they end |
| `Common.dfy`, `Strings.dfy`, `Metrics.dfy` | shared definitions |

Concurrency is modelled by state machines whose steps are the atomic sections of the goroutines; a run is
any sequence of enabled steps, and a theorem about runs holds for every interleaving. Code that updates
fields, arrays or maps is modelled by classes and loops, each method proved against a function about
which the lemmas then speak. Randomness, clocks, disks, networks and foreign libraries are parameters:
which case a `select` takes, what a provider or the server answers, whether a write to the disk succeeds,
the order in which a map is iterated, the gzip and JSON codecs (with their round-trip laws as hypotheses).

## Where the code does not do what one might expect

These are statements proved about the code as it is.

- A poll that lands between GetMetrics and ResetCount is erased (`DeliveryLedger.ErasedExactly` counts these,
  `DeliveryRuns.TickCanBeErased` shows one), and so are the polls of a report that the pool drops, since Send returns
  nil all the same (`Reporter.MetricsReporter.Report` says when, `DeliveryRuns.ReportCanBeDropped` shows one).
- One poll can be counted several times when the answers to applied requests are lost: the server's count is
  bounded by polls times attempts (`DeliveryLedger.DeliveryBound`), that bound is reached (`DeliveryRuns.BoundIsReached`), and
  `DeliveryRuns.NeverTooManyExactly` says exactly which configurations never count a poll twice.
- The four figures of GetStats need not belong together: `WorkerPool.StatsWhileMoving` says what they add up to and
  exactly when a task is seen twice, `WorkerPool.TaskSeenTwice` shows one.
- A WaitGroup at zero does not mean that no handler will run: a request can stand between the shutdown check
  and `Add` (`Admission.ZeroIsNotDrained` says exactly when, `Admission.ZeroWithPassedIsReachable` that it happens).
- The limiter's message for a limit of 0 says that all requests will be rejected
  (`internal/handler/middlewares/limiter.go:15`); the code admits them all, and so does the model.
- The database storage reports a counter that was never written as found (`StorageRefinement.MissingCounterIsFound`).
  A counter update of a gauge's row succeeds without effect (`DbStorage.CounterWriteReads`).
- The server's and the client's tests for gzip differ on upper case, on blanks other than spaces beside the token
  and on text behind it (`GzipHeader.UpperCaseDiffers`, `TabDiffers` and `TextBehindDiffers` give a header each;
  `GzipHeader.HeadersCompared` says exactly when they agree, on every ASCII header).
- A compressing response writer that is closed without any call, or whose first status is not 2xx, emits a gzip
  stream without announcing it; a 204 loses its body, and an informational first status is taken for the final
  one (`GzipStream.ResponseRoundTrip`, `GzipStream.ResponseSurvivesExactly`).
- The Reset generator is misled by the text of types such as `*time.Timer`, `[]time.Time`,
  `map[string]time.Time` and `mapset.Set` (`ResetGenerator.DispatchAgrees`, `ResetSemantics.StatementResetsExactly`
  say exactly when, `ResetSemantics.MisledByTime` gives two of them), and of several names declared on one line
  it resets only the first (`ResetSemantics.GeneratedResets`). A generated method ends exactly on values without
  a cycle of pointers (`ResetCycles.EndsExactly`; `ResetCycles.TwoNodesNeverEnd` gives a cycle).
- The test at `internal/repository/memstorage/memstorage_test.go:88` expects another error text than
  `internal/repository/memstorage/memstorage.go:140` gives; the text is not part of the model.

## Model

| member | source | states |
|---|---|---|
| DeliveryLedger.LedgerConservation | internal/agent/reporter/metrics_reporter.go:58-68 | in every reachable interleaving: polls plus the snapshot held between Send and ResetCount = current count + erased + handed to Send; handed = dropped + queued + held + finished + abandoned |
| DeliveryLedger.ErasedExactly | internal/agent/collector/metrics_collector.go:182-188 | the ticks erased so far, plus those the pending reset will erase, are exactly the polls that landed between GetMetrics and ResetCount |
| DeliveryRuns.TickCanBeErased | internal/agent/reporter/metrics_reporter.go:58-68 | in every configuration some run loses a tick to ResetCount |
| DeliveryRuns.ReportCanBeDropped | internal/agent/sender/metrics_sender.go:43-47 | in every bounded pool some run drops a report and clears its tick all the same |
| DeliveryLedger.DeliveryBound | internal/agent/client/client.go:124-154 | over every run: deltas of posts that succeeded <= server PollCount <= polls x agent attempts x server attempts, and <= polls when failed attempts are never applied; BatchCalls derives the server's attempts from its retry loop |
| DeliveryLedger.EveryTickCountedOnce | internal/agent/sender/worker_pool.go:100-141 | with clean failures and no task in a worker's hands, every tick is in exactly one place: unreported, erased, dropped, queued, failed, or counted once by the server |
| DeliveryRuns.BoundIsReached | internal/agent/client/client.go:140-147 | the delivery bound cannot be improved: with a buffered or an unbuffered pool and with the unlimited sender, where answers can get lost some run counts one poll once for each agent attempt and server attempt |
| DeliveryRuns.NeverTooManyExactly | internal/agent/client/client.go:124-154 | the server never counts more than was polled, in any run, iff failed attempts are never applied, or agent and server make one attempt each, or there is nobody to post |
| DeliveryLedger.CleanCount | internal/agent/client/client.go:140-154 | the server has counted what was acknowledged, and in a clean environment at most the requests in flight on top |
| BatchCalls.AttemptIsApply | internal/repository/dbstorage/dbstorage.go:104-162 | each attempt of the server's retried transaction, among any other writers, that commits is an Apply step which the protocol allows and which moves its count as the table's; an attempt that does not commit changes neither |
| BatchCalls.CallIsRun | internal/repository/dbstorage/dbstorage.go:103-173 | with no other writer a whole call, and every number of its attempts, is a run of the protocol of exactly as many Apply steps as commits, ending with the table's counter |
| BatchCalls.AnswerIsAllowed | internal/repository/dbstorage/dbstorage.go:103-173 | a call's answer is one that the protocol allows: success only if applied, and with clean failures failure only if not; applications within the protocol's limit |
| BatchCalls.CommitsOfCall | internal/repository/dbstorage/dbstorage.go:103-173 | a retried batch among any other writers commits k times, k <= attempts <= max(0, MaxRetries)+1, k >= 1 when it returns nil, and exactly as reported when failures are clean |
| BatchCalls.SharedCallEffect | internal/repository/dbstorage/dbstorage.go:117-152 | every counter then ends at its base + k x the batch's sum of deltas + what the other writers added |
| BatchCalls.BatchCallEffect | internal/repository/dbstorage/dbstorage.go:103-173 | with lost answers and no other writer: k = 0 leaves the table; else every counter ends at base + k x its sum and every gauge at its last write in the batch |
| BatchCalls.EntriesEffect | internal/repository/dbstorage/dbstorage.go:123-160 | one commit: no row changes its type, each counter moves by its sum, each gauge is its last write |
| BatchCalls.PostedDelta | internal/agent/sender/metric_service.go:41-57 | the batch that Send posts carries exactly the delta it was given, and no gauge of that name |
| BatchCalls.MemoryUpdateIsApply | internal/repository/memstorage/memstorage.go:77-98 | the in-memory storage's update is one Apply step while the sum fits |
| Delivery.InvStep | internal/agent/sender/worker_pool.go:69-141 | every step of collector, reporter, pool, worker, client and server keeps all ledgers, the link of each waiting worker to its own pending request, and the bounds on attempts and applications |
| DeliveryShutdown.SomeWorkerCanMove | internal/agent/sender/worker_pool.go:106-139 | once the pool is stopping, a worker that has not exited can take a step, whatever the server does |
| DeliveryShutdown.StopReturns | internal/agent/sender/worker_pool.go:57-66 | with nothing sent any more, workers take at most a computable number of steps; when none can move all have exited, none is active, accepted = processed + left in the queue, handed = dropped + delivered + failed + abandoned |
| DeliveryShutdown.AnswerEndsJob | internal/agent/client/client.go:140-147 | an answer ends the job iff it is a success or a failure that is not retryable; else another attempt may follow iff one is left |
| DeliveryShutdown.OverJobIssuesNothing | internal/agent/client/client.go:140-147 | an ended job issues no further attempt in any run until its worker has finished it |
| DeliveryShutdown.ClientFollowsRetry | internal/agent/client/client.go:132-147 | where the retry loop with the client's settings ends after k retryable failures the protocol lets the job be given up, and where it goes on the next attempt be issued |
| WorkerPool.PoolAccounting | internal/agent/sender/worker_pool.go:69-141 | for every run: Submit calls = accepted + dropped; dequeued followed by the queue is the accepted sequence; accepted = queued + held + processed; activeWorkers counts the workers inside a task and never exceeds the workers |
| WorkerPool.AccountedStep | internal/agent/sender/worker_pool.go:69-141 | each atomic section keeps the accounting |
| WorkerPool.WorkerStepDecreases | internal/agent/sender/worker_pool.go:101-141 | every worker step lowers a measure over the queue and the workers' positions |
| WorkerPool.StoppingCanMove | internal/agent/sender/worker_pool.go:106-139 | a stopping pool with a live worker is never stuck |
| WorkerPool.StopTerminates | internal/agent/sender/worker_pool.go:57-66 | after cancel and close no run of workers exceeds the measure; where it ends activeWorkers is 0, accepted = processed + queue, and the tasks left are the last accepted |
| WorkerPool.BoundedPool.constructor | internal/agent/sender/worker_pool.go:30-41 | a new pool is the initial state of the machine |
| WorkerPool.BoundedPool.Submit | internal/agent/sender/worker_pool.go:69-90 | accepts or counts a drop, as one enabled action of the machine; accepted and dropped move exactly accordingly |
| WorkerPool.BoundedPool.Select | internal/agent/sender/worker_pool.go:107-139 | the worker's select is one enabled action: receive, see the closed channel, or see the cancellation |
| WorkerPool.BoundedPool.Advance | internal/agent/sender/worker_pool.go:114-121 | the sections around a task: activeWorkers up, down, then processedTasks up |
| WorkerPool.BoundedPool.GetStats | internal/agent/sender/worker_pool.go:93-98 | with nothing moving between the loads: active is the number of workers in a task, dropped = submitted - accepted, accepted = queued + held + processed |
| WorkerPool.StatsWhileMoving | internal/agent/sender/worker_pool.go:93-98 | the four loads in four states of any run: queued + processed is the tasks accepted at the queue's load, plus those received since, less those in hand at the end; so it exceeds the accepted tasks iff more were received in between than were accepted or are in hand; dropped lies between its first and last value |
| WorkerPool.TaskSeenTwice | internal/agent/sender/worker_pool.go:93-98 | one task can be seen both in the queue and as processed |
| WorkerPool.BoundedPool.BeginStop | internal/agent/sender/worker_pool.go:57-59 | cancel then close, after which StopTerminates applies |
| Reporter.MetricsReporter.Send | internal/agent/sender/metrics_sender.go:38-48 | no error in either case; the task is appended to the accepted ones or the drop is counted, and exactly when which |
| Reporter.MetricsReporter.Report | internal/agent/reporter/metrics_reporter.go:58-68 | hands over the record and count as they are, dropped iff the queue is full with no worker waiting or the select takes the cancelled context, and clears the count in both cases |
| Collector.ProviderMerging | internal/agent/collector/metrics_collector.go:50-172 | after any rounds from a zero record, of the records returned without an error in order: the last one while all are zero; else from the first non-zero one on every scalar is its last non-zero value and the CPU list its last non-empty one, and the record never becomes zero again |
| Collector.MergedFields | internal/agent/collector/metrics_collector.go:70-172 | from a non-zero record on, no merge sequence makes it zero, and each field is its last non-zero reported value |
| Collector.ZeroPhase | internal/agent/collector/metrics_collector.go:71-74 | while the record is zero each report replaces it whole |
| Collector.RoundsAreReports | internal/agent/collector/metrics_collector.go:54-64 | the grouping into rounds and the failing providers do not matter, only the successful reports in order |
| Collector.SuccessesAreReports | internal/agent/collector/metrics_collector.go:54-64 | the successful results are the records at exactly the positions without an error, in increasing order |
| Collector.ReportsAreSuccesses | internal/agent/collector/metrics_collector.go:54-64 | no other sequence is |
| Collector.MetricsCollector.CollectFromAllProviders | internal/agent/collector/metrics_collector.go:50-67 | one tick merges exactly the records returned without an error, in order, and counts one poll, whatever the providers return |
| Collector.MetricsCollector.MergeMetrics | internal/agent/collector/metrics_collector.go:70-172 | in place: replaces a zero record, else overwrites exactly the fields that are non-zero in the new one |
| Collector.MetricsCollector.GetMetrics | internal/agent/collector/metrics_collector.go:175-180 | a snapshot of record and count |
| Collector.MetricsCollector.ResetCount | internal/agent/collector/metrics_collector.go:183-188 | clears the count only |
| BatchSender.DecimalInjective | internal/model/memory_metrics.go:82 | decimal printing is injective |
| BatchSender.CpuNamesCountFromOne | internal/model/memory_metrics.go:82 | CPU i is named CPUutilization followed by the decimal of i+1 |
| BatchSender.MapIsComplete | internal/model/memory_metrics.go:46-86 | the map has exactly 30 + number of CPUs entries, each value under its own name, and no PollCount |
| BatchSender.ToMap | internal/model/memory_metrics.go:46-86 | the literal and the CPU loop build that map |
| BatchSender.ZeroRecords | internal/model/memory_metrics.go:96-98 | a record counts as zero iff its values named Alloc, Sys and TotalAlloc are 0 |
| BatchSender.Append | internal/agent/sender/metric_service.go:43-47 | append on a slice over a shared array: contents grow by one, in place within the capacity, else in a fresh array |
| BatchSender.Fill | internal/agent/sender/metric_service.go:41-48 | for any iteration order: exactly one gauge per entry of the map |
| BatchSender.Build | internal/agent/sender/metric_service.go:39-57 | the posted batch: one gauge per entry and PollCount iff the delta is not 0, nothing stale |
| BatchSender.MetricsSlice.Reset | internal/agent/sender/pools.go:14-16 | length 0, same array |
| BatchSender.MetricsBatchPool.GetBatch | internal/agent/sender/pools.go:35-37 | an empty wrapper that shares its array with no other one, pooled or in use |
| BatchSender.MetricsBatchPool.PutBatch | internal/agent/sender/pools.go:40-42 | resets before pooling; no wrapper is pooled twice or while held |
| BatchSender.MetricsService.Send | internal/agent/sender/metric_service.go:27-80 | each send posts a complete batch, returns its wrapper, and leaves the slices and arrays of all sends in progress untouched |
| ObjPool.Pool.Get | pkg/objpool/pool.go:22-24 | hands out an object that nobody holds and that is no longer pooled |
| ObjPool.Pool.Put | pkg/objpool/pool.go:26-29 | the object is pooled once and not held any more |
| Retry.Do | internal/retry/retry.go:17-59 | the loop computes the run that RetrySemantics describes |
| Retry.RetrySemantics | internal/retry/retry.go:34-58 | 1 to max(0, MaxRetries)+1 attempts; all but the last fail retryably and uninterrupted; it stops early only if it may not go on; nil iff the last succeeded; which error is returned; which delays were waited for |
| Retry.EndsAt | internal/retry/retry.go:34-58 | for given retries, delays and test of errors: the first attempt that succeeds, fails with an error that the test rejects, has its wait interrupted, or is number max(0, n)+1 is the last, with exactly which report |
| Retry.AllRetried | internal/retry/retry.go:34-58 | if every attempt fails acceptably and uninterrupted there are max(0, n)+1, all delays between them are waited for in order, and the last error comes back |
| Retry.Defaults | internal/retry/retry.go:22-28 | no delays means 1, 3 and 5 seconds; no test means that nothing is retried |
| Retry.AppliedTimes | internal/retry/retry.go:17-59 | if attempts have the whole effect or none and may report failure after applying it, the effect happens k times, k <= attempts, and k >= 1 on success |
| Retry.AppliedOnce | internal/retry/retry.go:17-59 | if failures have no effect, success means exactly once and failure not at all |
| MemStorage.UpdateAllConcat | internal/repository/memstorage/memstorage.go:77-98 | a batch a ++ b equals a, then b |
| MemStorage.CounterIsSum | internal/repository/memstorage/memstorage.go:87-95 | each counter is its old value plus the integer sum of its deltas, modulo 2^64; it exists iff it did or is added to |
| MemStorage.GaugeIsLastWrite | internal/repository/memstorage/memstorage.go:83-86 | each gauge is its last write in the batch, or unchanged if there is none |
| MemStorage.DeltaSumPermutes | internal/repository/memstorage/memstorage.go:81-96 | the sum of deltas does not depend on the order |
| MemStorage.BatchOrder | internal/repository/memstorage/memstorage.go:77-98 | permuted batches give the same counters, wrap-around included, and the same state when no gauge occurs twice |
| MemStorage.ListingLoads | internal/repository/memstorage/memstorage.go:147-165 | loading any listing of a storage, in any order of iteration, into an empty one gives exactly that storage |
| MemStorage.ListingOverwrites | internal/repository/memstorage/memstorage.go:197-208 | loading a listing into any storage sets what it lists and leaves the rest |
| MemStorage.MemoryStorage.UpdateGauge | internal/repository/memstorage/memstorage.go:58-63 | equals the batch entry for the same gauge |
| MemStorage.MemoryStorage.UpdateCounter | internal/repository/memstorage/memstorage.go:65-75 | equals the batch entry for the same counter, with wrap-around |
| MemStorage.MemoryStorage.UpdateMetrics | internal/repository/memstorage/memstorage.go:77-98 | the loop over the maps equals the fold of single updates |
| MemStorage.MemoryStorage.GetGauge | internal/repository/memstorage/memstorage.go:100-107 | value and presence |
| MemStorage.MemoryStorage.GetCounter | internal/repository/memstorage/memstorage.go:109-116 | value and presence |
| MemStorage.MemoryStorage.Listing | internal/repository/memstorage/memstorage.go:147-165 | each counter and gauge exactly once, in an arbitrary order |
| MemStorage.MemoryStorage.SaveToFile | internal/repository/memstorage/memstorage.go:143-177 | succeeds iff the gauges are finite and the disk accepts; then the file restores to exactly the storage; else the file is unchanged |
| MemStorage.MemoryStorage.LoadFromFile | internal/repository/memstorage/memstorage.go:179-213 | succeeds iff the file is missing or decodes; a missing one changes nothing; a saved storage is laid over the present one, set and not added |
| MemStorage.MemoryStorage.StartPeriodicSave | internal/repository/memstorage/memstorage.go:215-224 | starts once |
| MemStorage.MemoryStorage.Close | internal/repository/memstorage/memstorage.go:247-268 | stops the ticker, closes done unless it is closed, saves; the maps do not change |
| Persistence.FileIsSomePast | internal/repository/memstorage/memstorage.go:143-268 | after any run of updates, saves, closes, crashes and restarts the file decodes to a past state, and done was closed at most once |
| Persistence.TickSaves | internal/repository/memstorage/memstorage.go:226-240 | in every reachable state a tick with finite gauges and a willing disk leaves a file from which a restoring start, even after a crash at once, comes up with exactly the current maps; any other tick leaves the file |
| Persistence.RunsCopyTheMaps | internal/repository/memstorage/memstorage.go:143-268 | every run behaves as a process that copies its maps: the file decodes to the maps at the last successful save, and the running storage is what it started with updated by every batch since |
| Persistence.DiskKeeps | internal/repository/memstorage/memstorage.go:143-177 | nothing but a save that the disk accepts changes what is kept |
| Persistence.TickerRuns | internal/repository/memstorage/memstorage.go:48-53 | ticks are handled from a start with a store interval until a close or a crash |
| Persistence.StartWithoutFile | internal/repository/memstorage/memstorage.go:183-190 | a start without a file comes up empty, restoring or not |
| Persistence.CleanRestart | internal/repository/memstorage/memstorage.go:29-56 | a Close succeeds iff gauges are finite and the disk accepts; then a restoring start comes up with exactly the final maps; a failed Close leaves the file |
| Persistence.SavedStays | internal/repository/memstorage/memstorage.go:179-268 | without updates, no sequence of ticks, closes, crashes and restoring starts loses saved maps |
| Persistence.InvStep | internal/repository/memstorage/memstorage.go:215-268 | each event keeps: the file decodes to a past state, a saved state is the current one, done is closed at most once per process |
| DbStorage.ReachableTablesAreValid | migrations/000001_create_metrics_table.up.sql:3-14 | every table reached by single and batch calls has unique ids and satisfies chk_metric, under type clashes, overflow, lost answers and interruptions |
| DbStorage.PerformKeepsValid | internal/repository/dbstorage/dbstorage.go:103-163 | a write keeps the table valid, and one that fails, at whatever statement of a batch, leaves the table as it was |
| DbStorage.GaugeWriteReads | internal/repository/dbstorage/dbstorage.go:50-56 | a gauge write fails iff the id is a counter; else it is read back; no other row changes |
| DbStorage.CounterWriteReads | internal/repository/dbstorage/dbstorage.go:76-82 | a counter write fails iff the sum overflows; on a gauge's row it does nothing; else it adds; no other row changes |
| DbStorage.CallEffect | internal/repository/dbstorage/dbstorage.go:58-61 | a call with lost answers has its effect k times, k <= attempts, k >= 1 on success |
| DbStorage.GaugeCallAppliesOnce | internal/repository/dbstorage/dbstorage.go:50-74 | with lost answers and no other writer a gauge write ends as if applied once, or not at all if it reports an error |
| DbStorage.CounterCallAddsMultiple | internal/repository/dbstorage/dbstorage.go:76-101 | with lost answers a counter ends at base + k x delta, k <= attempts, k >= 1 on success; no other row changes |
| DbStorage.DatabaseStorage.UpdateGauge | internal/repository/dbstorage/dbstorage.go:50-74 | the call's table and error are those of the retried upsert |
| DbStorage.DatabaseStorage.UpdateCounter | internal/repository/dbstorage/dbstorage.go:76-101 | likewise for the counter upsert |
| DbStorage.DatabaseStorage.BatchTransaction | internal/repository/dbstorage/dbstorage.go:104-162 | the transaction loop: all statements or none |
| DbStorage.DatabaseStorage.UpdateMetrics | internal/repository/dbstorage/dbstorage.go:103-173 | the call's table and error are those of the retried transaction |
| DbStorage.DatabaseStorage.GetGauge | internal/repository/dbstorage/dbstorage.go:175-200 | the row's value iff some attempt within the limit is answered and all before it fail retryably and uninterrupted; else not found; so at once if the first attempt is answered, and never if none is |
| DbStorage.DatabaseStorage.GetCounter | internal/repository/dbstorage/dbstorage.go:202-222 | likewise the row's delta, or 0 for a missing row, reported as found; not found only after failed attempts |
| DbStorage.LostAttempts | internal/repository/dbstorage/dbstorage.go:296-311 | a storage built with n retries makes max(0, n)+1 attempts against a lasting failure with one of eight codes or three texts, and one attempt against any other |
| DbStorage.RefusedWriteFailsAtOnce | internal/repository/dbstorage/dbstorage.go:296-311 | a clash of types or an overflow is reported after one attempt and changes nothing |
| DbStorage.LostAnswerAddsTwice | internal/repository/dbstorage/dbstorage.go:84-87 | a witness: a commit whose answer is lost, retried, adds twice and reports success |
| StorageRefinement.StoragesAnswerAlike | internal/repository/dbstorage/dbstorage.go:50-222 | for every history of clean calls, batches included: both storages give the same gauges and counter values after the entries of the calls that returned nil, if these keep one type per id; these are all entries when all calls returned nil |
| StorageRefinement.UndisturbedAnswerAlike | internal/repository/dbstorage/dbstorage.go:50-222 | for every history in which ids keep their type, no prefix sum leaves int64 and the retries of each call get to an undisturbed attempt: the same, after all entries |
| StorageRefinement.CallSucceedsExactly | internal/retry/retry.go:34-53 | a clean call of a write that the table accepts returns nil iff its retries get to an undisturbed attempt |
| StorageRefinement.SameAnswers | internal/repository/memstorage/memstorage.go:58-116 | in such a history every call returns nil and agreement is kept from any agreeing start |
| StorageRefinement.RefinesCommitted | internal/repository/dbstorage/dbstorage.go:103-173 | for every history of clean calls the table agrees with the in-memory storage after the calls that returned nil; failed calls leave no trace |
| StorageRefinement.EntryKeepsAgreement | internal/repository/dbstorage/dbstorage.go:123-160 | one entry succeeds and keeps agreement iff it neither clashes with its row's type nor overflows |
| StorageRefinement.AgreementOnReads | internal/repository/dbstorage/dbstorage.go:175-222 | agreement means equal answers to reads, but for found on counters |
| StorageRefinement.MissingCounterIsFound | internal/repository/dbstorage/dbstorage.go:206-221 | counter reads, found included, coincide iff the counter exists |
| GzipHeader.IsGzipEncoding | internal/handler/middlewares/compressor/gzip.go:150-179 | the scanner terminates and accepts iff lower-case gzip occurs and some comma-separated element, after leading spaces, starts with gzip in any case followed by its end or a space |
| GzipHeader.ScanElements | internal/handler/middlewares/compressor/gzip.go:156-178 | the nested loops behind the quick test |
| GzipHeader.HasGzip | internal/handler/middlewares/compressor/gzip.go:152 | the quick test finds the substring wherever it is |
| GzipHeader.IsGzipEncodingSplit | internal/agent/client/response_processor.go:36-43 | the client accepts iff some element, trimmed and lowered, is gzip |
| GzipHeader.HeadersCompared | internal/agent/client/response_processor.go:36-43 | on every ASCII header the two tests agree iff: with lower-case gzip, some element suits both or there are elements for the client only just when there are some for the server only; without, no element suits the client |
| GzipHeader.SpacedHeadersCompared | internal/agent/client/response_processor.go:36-43 | with lower-case gzip and only spaces as blanks the client accepts no more than the server; they agree iff some element suits both or none suits the server only, so when no element has a blank inside |
| GzipHeader.ElementsCompared | internal/handler/middlewares/compressor/gzip.go:159-170 | what each test makes of any element, by what stands beside the token: a blank other than a space before or right behind it hides it from the server, text behind it from the client |
| GzipHeader.BlanksAreThese | internal/agent/client/response_processor.go:38 | of all ASCII characters exactly six may stand in front of the token for the client |
| GzipHeader.UpperCaseDiffers | internal/handler/middlewares/compressor/gzip.go:152-154 | a header that only the client accepts |
| GzipHeader.TabDiffers | internal/handler/middlewares/compressor/gzip.go:159-161 | another: a tab in front of the token of a later element |
| GzipHeader.TextBehindDiffers | internal/handler/middlewares/compressor/gzip.go:167-169 | a header that only the server accepts |
| GzipStream.ResponseRoundTrip | internal/handler/middlewares/compressor/gzip.go:45-76 | for every sequence of calls, then Close: at most one header call; the final status; the client gets exactly what was written for a 2xx status that allows a body, nothing for one that does not, and else the raw stream |
| GzipStream.ResponseSurvivesExactly | internal/agent/client/response_processor.go:16-33 | the body survives iff it was announced by a 2xx first status and is allowed, or is not allowed and empty |
| GzipStream.ResponseInNumbers | internal/handler/middlewares/compressor/gzip.go:45-65 | announced as gzip iff the first call is a Write or has a status from 200 to 299; which status goes out; no body exactly for a first status 101, 204 or 304 |
| GzipStream.RequestRoundTrip | internal/agent/client/request_processor.go:37-71 | a body is compressed and announced iff compression is on and it has the minimal size; the server reads it back, except an empty one that is to be compressed |
| GzipStream.CompressWriter.constructor | internal/handler/middlewares/compressor/gzip.go:142-146 | starts in the initial session |
| GzipStream.CompressWriter.WriteHeader | internal/handler/middlewares/compressor/gzip.go:53-65 | only the first call sends a header, with Content-Encoding for 2xx |
| GzipStream.CompressWriter.Write | internal/handler/middlewares/compressor/gzip.go:45-51 | sends status 200 first if there was no header; the data go to the gzip writer |
| GzipStream.CompressWriter.Close | internal/handler/middlewares/compressor/gzip.go:67-76 | the first Close emits the stream and pools the reset gzip writer once; further ones change nothing |
| GzipStream.CompressResponse | internal/handler/middlewares/compressor/gzip.go:128-147 | wraps iff the response is not encoded and the client accepts gzip; the gzip writer it gets is nobody else's |
| Admission.AdmissionCounts | internal/handler/middlewares/track_active_requests.go:16-26 | in every reachable state the WaitGroup counts requests between Add and Done, the semaphore the permits held; with a positive limit at most that many handlers run; a request is refused iff all permits are out, and never with limit 0 |
| Admission.RefusalsAreFinal | internal/handler/middlewares/limiter.go:20-26 | a request that is refused for lack of permits or turned away by shutdown takes no permit and never reaches the handler |
| Admission.InvStep | internal/handler/middlewares/limiter.go:12-26 | every step keeps those counts |
| Admission.ActiveNeverGrows | internal/server/server.go:268-292 | once shutdownCh is closed the set of requests past the check never grows |
| Admission.DrainedStaysDrained | internal/server/server.go:268-292 | once that set is empty no handler runs again |
| Admission.ZeroIsNotDrained | internal/handler/middlewares/track_active_requests.go:16-24 | with the WaitGroup at zero during shutdown a handler can still start iff a request stands between the check and Add |
| Admission.ZeroWithPassedIsReachable | internal/handler/middlewares/track_active_requests.go:16-24 | such a state is reachable |
| ResetGenerator.DispatchAgrees | cmd/reset/reset.go:278-377 | for every type the choice by the printed text is the structural choice iff the text does not mislead |
| ResetGenerator.DispatchMisread | cmd/reset/reset.go:283-333 | what is emitted where the text misleads |
| ResetGenerator.TimeInText | cmd/reset/reset.go:119-140 | the text contains time.Time iff some selector inside the type mentions it |
| ResetGenerator.TextShape | cmd/reset/reset.go:119-140 | what the prefix tests see in the text of a type |
| ResetGenerator.TimeIsTime | cmd/reset/reset.go:338 | only time.Time prints as time.Time |
| ResetGenerator.PrimitivesAreThese | cmd/reset/reset.go:380-396 | the nineteen primitive types by name |
| ResetGenerator.PrimitiveStatement | cmd/reset/reset.go:325-329 | a field of a primitive type is set to false, the empty text or 0 |
| ResetSemantics.GeneratedResets | cmd/reset/reset.go:195-209 | on values without sharing: running a generated method succeeds; every first-named field of a supported type is reset, nested structs included, nil stays nil, all else is unchanged, and a second run changes nothing |
| ResetSemantics.StatementResetsExactly | cmd/reset/reset.go:278-345 | the emitted statement gives every value of the type its reset value iff the text does not mislead |
| ResetSemantics.ChosenResets | cmd/reset/reset.go:298-332 | the structurally chosen statement gives the type's reset value |
| ResetSemantics.MethodResets | cmd/reset/reset.go:195-209 | a generated method gives the struct's reset value; slices keep their memory |
| ResetSemantics.BodyResets | cmd/reset/reset.go:91-111 | only the first name of a line is reset |
| ResetSemantics.OnlyResetValuesStay | cmd/reset/reset.go:399-413 | a reset leaves a value alone iff it is a reset value |
| ResetSemantics.BlankIsReset | cmd/reset/reset.go:399-413 | the reset value is zero, empty or nil all the way down, and keeps its type |
| ResetSemantics.MisledByTime | cmd/reset/reset.go:348-350 | two concrete types that mislead: []time.Time and *time.Timer |
| ResetSemantics.SlicesReset | cmd/reset/reset.go:300-318 | a slice, alone or behind a pointer, gets length 0 and keeps its memory, whatever its element type that does not mention time.Time |
| ResetSemantics.MapsReset | cmd/reset/reset.go:304-323 | a map, alone or behind a pointer, is emptied |
| ResetSemantics.NumbersReset | cmd/reset/reset.go:308-329 | a number, alone or behind a pointer, becomes 0; a nil pointer stays |
| ResetSemantics.TimesReset | cmd/reset/reset.go:336-341 | a time, alone or behind a pointer, becomes the zero time |
| ResetSharing.GeneratedResets | cmd/reset/reset.go:195-209 | on values whose pointers and maps share: the method gets by with d pointers in a row iff no longer chain starts in the value; then it and everything it leads to is reset, the heap differs by resets only and not outside any part that is not led out of, and a second run changes nothing |
| ResetSharing.BlankKeeps | cmd/reset/reset.go:298-332 | a reset value is its own reset value, keeps its type, and leads to the same objects and maps |
| ResetSharing.OnlyClearedStay | cmd/reset/reset.go:399-413 | a reset leaves a variable alone iff it holds zero, false, empty text, length 0 and the zero time in every field that is reset |
| ResetSharing.ChosenResets | cmd/reset/reset.go:278-345 | each statement, chosen by the type, does the same for its field |
| ResetCycles.EndsExactly | cmd/reset/reset.go:195-209 | a generated method ends, at some depth, iff no chain of pointers from the value comes back to an object |
| ResetCycles.AcyclicResets | cmd/reset/reset.go:195-209 | on every acyclic value it ends, with one result whatever depth suffices: the value and all it leads to is reset, the heap differs by resets only and not outside any part that is not led out of, and a second run changes nothing |
| ResetCycles.AllIsCleared | cmd/reset/reset.go:195-209 | where all is reset, the variable and every object on a chain from it are cleared so, and the maps that they refer to are empty |
| ResetCycles.BoundedExactly | cmd/reset/reset.go:289-295 | pointer chains from a variable are bounded iff none comes back to an object |
| ResetCycles.CycleNeverEnds | cmd/reset/reset.go:289-295 | a chain that comes back to any of its objects, over any number of others, is followed for ever |
| ResetCycles.TwoNodesNeverEnd | cmd/reset/reset.go:289-295 | a witness: for a struct Node with a field next of type *Node and two nodes that point at each other the method ends at no depth |
| ResetCycles.MoreForMethod | cmd/reset/reset.go:289-295 | a larger depth never changes the result of a run that ends |
| ResetText.CollectFields | cmd/reset/reset.go:91-111 | exactly the lines that declare names, in order, each with its first name and its printed type |
| ResetText.CodeTellsStatement | cmd/reset/reset.go:291-341 | rendering is injective: the text determines the statement |
| ResetText.FieldCodeTellsStatement | cmd/reset/reset.go:278-333 | what is generated for a field is the same text for two printed types iff the same statement was chosen for them |
| ResetReader.ReadsCode | cmd/reset/reset.go:291-341 | an independent reader of the few forms of Go that occur reads every generated statement, for every field, as the one that was meant |
| ResetReader.FieldTextRuns | cmd/reset/reset.go:278-345 | what is generated for a field of any name and type, read and run on any value, does what its statement is said to do, calls that agree provided |
| ResetReader.FieldCodeRuns | cmd/reset/reset.go:278-345 | the same with the calls included, for well-typed values and types that do not mislead |
| ResetReader.MethodRuns | cmd/reset/reset.go:195-209 | the texts of a generated method, read and run on any value of its struct, give exactly its reset value |
| ResetReader.RecordResets | internal/model/memory_metrics.go:10-43 | for the agent's own record: all thirty numbers become 0 and the CPU slice has length 0 |
| ResetText.IndentCode | cmd/reset/reset.go:213-222 | every line of a statement is indented and nothing else changes |
| ResetText.StructResetBody | cmd/reset/reset.go:195-209 | the lines of the body are the indented lines of its statements, in order, none lost |

## Left out

- WorkerPool.PoolAccounting: does not model the overflow of `droppedTasks`, `processedTasks` (uint64) and `activeWorkers` (int32); the drop and its counter are one step, as no other goroutine can tell them apart but GetStats. In unlimited mode the sender has no such counters; only its tasks and its WaitGroup (the goroutines that have not exited) correspond to code.
- WorkerPool.BoundedPool.Submit: requires that the channel is not closed, since a send on a closed channel panics; the reporter stops the sender before it waits for a report in progress (internal/agent/reporter/metrics_reporter.go:71-79), so this is an assumption about the environment.
- DeliveryLedger.DeliveryBound: counts are unbounded; the overflow of pollCount and of the server's counter is not part of it. There is one agent, and the server's counter starts at 0.
- Delivery: one configuration value stands for valid retry delays; an agent whose delays do not parse posts nothing.
- Collector.MetricsCollector.MergeMetrics: the thirty conditional assignments are one pointwise overwrite; the CPU slice is a value, so its sharing with a provider (which Clone ends) is not modelled.
- BatchSender.MetricsService.Send: the two early returns for an empty batch are omitted; MapIsComplete shows that they cannot be taken.
- ObjPool.Pool.Get: a pool that forgets objects is covered (it may always hand out a new one), but forgotten objects stay listed as free.
- Metrics.Float: rounding, the sign of zero and subnormals are not modelled; NaN and infinities are.
- Retry.Do: MaxRetries + 1 does not overflow; the length of a delay matters only as a value in the list of delays waited for.
- MemStorage.MemoryStorage.SaveToFile: the write is atomic, IDs are valid UTF-8; read errors other than a missing file count as undecodable.
- MemStorage.MemoryStorage.StartPeriodicSave: the goroutine's unsynchronised read of the ticker field is not modelled; ticks are steps enabled before Close. A start after Close is not modelled.
- DbStorage.GaugeWriteReads: ids hold no NUL byte. Postgres text refuses one, a JSON body can carry one, and the in-memory storage accepts it; on such ids the two storages part.
- DbStorage.CounterWriteReads: the same assumption about ids, as in everything about histories that rests on these two.
- DbStorage: the hash column, and a commit whose outcome differs from all-or-nothing. A scan error on a NULL cannot occur in a valid table.
- BatchCalls.SharedCallEffect: other writers act between attempts, as transactions do that are serialized; they keep tables valid and rows' types. What other writers make of gauges is not stated.
- GzipHeader.HeadersCompared: ASCII only; Unicode blanks and case folding are not modelled.
- GzipStream.CompressWriter.Write: requires that the writer is open; the source would fail on a nil gzip writer after Close. Errors of the underlying connection, responses to HEAD and status codes outside 100-999 are not modelled.
- GzipStream: the compressing reader's pool discipline is the writer's again; the middleware that closes both is not modelled.
- Admission.AdmissionCounts: the limit is not negative (creating the semaphore with a negative size panics); panicking handlers are not modelled.
- Admission.DrainedStaysDrained: the server's own Shutdown (internal/server/server.go:275-277), which waits up to thirty seconds for open connections before the WaitGroup is waited for, and the ten seconds after which the resources are closed all the same are not modelled.
- ResetGenerator: import collection, the file template, formatting and struct tags. Package names and type names are taken not to contain the printer's punctuation.
- ResetSemantics.GeneratedResets: blank fields (named `_`) are treated like others although their statement does not compile. A named type that is neither primitive nor marked is left alone, whatever it is underneath.
- ResetSharing.GeneratedResets: pointers lead to objects of their own, not into a field of another struct or an element of a slice.
- HTTP routing and status mapping, logging, configuration, audit observers, the main page, ping, GetAllMetrics, signing, URL normalisation and the linter: plumbing or easy members.
- gopsutil and runtime providers, JSON, gzip, SHA-256, Postgres itself and templates: foreign code, replaced by parameters with stated hypotheses.
