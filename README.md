# metricq-db-hta in Dafny

A model of the MetricQ HTA database and its bulk importer, with proofs about
the model.

- **The bulk importer** (`Importer`, from `src/tools/metricq_importer/importer.py`).
  For every metric it computes the retention intervals. It merges the
  registered metrics into the token's configuration document, and a declined
  overwrite of existing entries stops the run. It seeds a queue with the
  importable metrics. Then workers drain the queue, run the external
  `hta_mysql_import` executable once per metric, and collect the metrics whose
  import exited non-zero. A launch that raises an error other than a missing
  executable ends the worker that made it.
- **The asynchronous HTA service** (`HtaService`, from
  `src/async_hta_service.hpp`). It validates a configuration and applies it,
  either the first time or as a reconfiguration, which only adds metrics. It
  keeps an injective input-name to metric-name mapping. Its write filter drops
  non-monotonic and NaN samples. It encodes history responses for the four
  request types.
- **The legacy database callbacks** (`LegacyDb`, from `src/db.cpp`). The data
  callback skips samples older than the archive's range. The history callback
  delta-encodes aggregate rows.
- **Request statistics** (`DbStatistics`, from `src/db_stats.cpp`). Per
  direction, a collector counts requests from pending to active to completed
  or failed. Collection snapshots the counters and resets them. A wrapper does
  nothing until it is initialised.
- **Periodic read/write statistics** (`ReadWriteStatistics`, from
  `src/read_write_stats.hpp`). Every update runs a log check. More than ten
  seconds after the last report, the check reports counts and averages and
  resets them.

Supporting modules:

- `TimeSeries` holds samples, aggregates, and the delta encoding of times
  together with its inverse.
- `SizeT` is the wrapping unsigned 64-bit counter of the C++ code.
- `Wrappers` holds `Option` and `Result`.

State the source updates in place is modelled by classes whose methods change
their fields:

- `DataheapToHtaImporter`;
- `AsyncHtaService`;
- `StatsCollector`, `DbStatsImpl` and `DbStats`;
- `ReadWriteStats`.

Each method's contract ties the new state to functions of the old one. The
lemmas then prove, about those functions:

- the delta encoding's round trip;
- the default retention maximum being the last multiple of the minimum by the
  factor before one more step would reach 30 days;
- the merge of a configuration document against a reference definition;
- the failure list holding exactly the jobs that exited non-zero;
- which jobs are taken at all when launches raise and end their workers;
- the injectivity of the name mapping;
- the consistency of the statistics snapshots.

## Model

| member | source | states |
|---|---|---|
| Importer.Trunc | src/tools/metricq_importer/importer.py:88-89 | `int()` on an interval truncates toward zero: the result is within one of the value, on the side of zero |
| Importer.IntervalMaxIsSmallestPower | src/tools/metricq_importer/importer.py:75-81 | the default maximum interval is `min * factor^k`, where `k` is the smallest number of steps after which one more step reaches 30 days; every earlier multiple stays below 30 days |
| Importer.IntervalMaxBounds | src/tools/metricq_importer/importer.py:75-81 | the default maximum is at least the minimum, one more factor reaches 30 days, and it stays below 30 days whenever the loop multiplied at least once |
| Importer.DefaultIntervalMax | src/tools/metricq_importer/importer.py:75-81 | the multiplying loop returns the value characterised above, the last multiple before one more step reaches 30 days, with its bounds |
| Importer.NewImportMetric | src/tools/metricq_importer/importer.py:61-73 | name, import name and factor are kept; a supplied minimum or maximum is kept; a missing minimum is forty sampling periods in nanoseconds; a missing maximum is the default maximum for the chosen minimum |
| Importer.ConfigOf | src/tools/metricq_importer/importer.py:83-91 | a metric's entry has its name, mode "RW" and its factor, and its two intervals truncated to integers |
| Importer.ImportMetricsOf | src/tools/metricq_importer/importer.py:125-127 | a metric is imported exactly when it is registered with a non-empty import name; no metric is added |
| Importer.ImportMetricsAppend | src/tools/metricq_importer/importer.py:120-127 | filtering distributes over appending, so the importable metrics keep registration order |
| Importer.DataheapToHtaImporter.constructor | src/tools/metricq_importer/importer.py:95-118 | connection settings and worker count are stored; the registry, the failure list, the last metric and the start time are empty |
| Importer.DataheapToHtaImporter.Register | src/tools/metricq_importer/importer.py:120-123 | register appends exactly the metric the constructor builds and changes nothing else |
| Importer.Conflicting | src/tools/metricq_importer/importer.py:156-159 | a registered metric conflicts exactly when the document already has an entry of its name |
| Importer.WithoutNames | src/tools/metricq_importer/importer.py:169 | an entry is kept exactly when its name is not among the removed names |
| Importer.MergedMetrics | src/tools/metricq_importer/importer.py:146-171 | with nothing registered, the document's metric list is saved unchanged |
| Importer.MergedMetricsReference | src/tools/metricq_importer/importer.py:159-171 | the saved list equals the old entries whose names are not registered, in order, followed by the entries of every registered metric in registration order |
| Importer.MergeKeepsNamesDistinct | src/tools/metricq_importer/importer.py:159-171 | if neither the document nor the registry repeats a name, the merged list repeats none |
| Importer.DataheapToHtaImporter.UpdateConfig | src/tools/metricq_importer/importer.py:145-186 | a missing document fails and a declined overwrite of conflicting entries fails, both with the store unchanged; otherwise the document's metrics become the merged list, its other fields are kept, and the job template takes the document's path, two threads and the import database settings |
| Importer.InvocationsInAt | src/tools/metricq_importer/importer.py:222-237 | the k-th launch is the invocation of the k-th job taken from the queue, with the template, the cutoff and that metric |
| Importer.FailedInCharacterised | src/tools/metricq_importer/importer.py:238-243 | a metric is in the failure list exactly when some job of it ran and exited non-zero; a missing executable and a launch that raised are not recorded; the list has at most one entry per job |
| Importer.AllSucceededNoFailures | src/tools/metricq_importer/importer.py:238-241 | when every job exits 0, the failure list is empty |
| Importer.WorkerStopCharacterised | src/tools/metricq_importer/importer.py:208-216 | a worker takes jobs until one raises out of `import_metric`: no job before its last one raised, it stops short of the end only right after a job that raised, and it saw at most one such job |
| Importer.DrainStopCharacterised | src/tools/metricq_importer/importer.py:208-220 | `w` workers together take at most `w` jobs that raise; they leave jobs in the queue only when exactly `w` such jobs were taken, the last one last; and once `w` such jobs were taken, the last job taken is one of them, so nothing is taken after the `w`-th |
| Importer.NoRaiseDrainsAll | src/tools/metricq_importer/importer.py:208-220 | with at least one worker and no launch that raises, every queued job is taken |
| Importer.DataheapToHtaImporter.ImportOne | src/tools/metricq_importer/importer.py:222-249 | one job launches `hta_mysql_import` with the metric's names, a configuration of the template plus this metric's entry, the start time in integer milliseconds and chunk size 10000000; the metric is appended to the failures exactly when that run exited non-zero; the call raises exactly when the launch failed other than by a missing executable |
| Importer.DataheapToHtaImporter.ImportNext | src/tools/metricq_importer/importer.py:209-216 | one worker step dequeues the head, records it as the last metric and runs it; it advances the progress bar by one unless the job raised, which it reports |
| Importer.DataheapToHtaImporter.ImportWorker | src/tools/metricq_importer/importer.py:208-216 | a worker takes jobs in queue order up to where `WorkerStop` puts it: it launches each, records exactly the failed ones, ends with the last dequeued metric shown, and advances progress once per job that did not raise |
| Importer.DataheapToHtaImporter.RunWorkers | src/tools/metricq_importer/importer.py:208-220 | the workers, one after another, take the jobs up to `DrainStop`, with launches, failures, last metric and progress as for one worker |
| Importer.DataheapToHtaImporter.ImportMain | src/tools/metricq_importer/importer.py:218-220 | with at least one worker the queue is drained as above; with none, `asyncio.wait` rejects the empty set and nothing is launched |
| Importer.DataheapToHtaImporter.RunImport | src/tools/metricq_importer/importer.py:197-206 | the queue is seeded with the importable metrics and their count is stored; when workers ran, the jobs up to `DrainStop` were launched in order, the rest stay queued, the failure list grew by exactly the failed ones, and progress counts the jobs that did not raise |
| Importer.DataheapToHtaImporter.Run | src/tools/metricq_importer/importer.py:129-186 | which exit a run takes, each as an if-and-only-if of the operator's answers, the stored document, the bindings and the worker count; a missing document and a declined overwrite give their errors; the two exits before the document is saved change nothing, and a failed binding changes nothing but the document and the template; every later exit has saved the merged document and built the job template from its path; with no workers the queue is seeded and nothing else moves; on completion the start time is the clock reading, the jobs up to `DrainStop` were launched with that template and cutoff, the rest stay queued, the last metric and the progress count are those of the jobs taken, and the reported names are exactly those of the failed jobs |
| HtaService.RegisterKeepsInvariant | src/async_hta_service.hpp:116-132 | a successful registration keeps the mapping injective, with the used-name set equal to the mapping's targets, and maps the new input to its name |
| HtaService.SetupOnlyAdds | src/async_hta_service.hpp:186-241 | a registration pass keeps the invariant and only adds: every earlier mapping and used name survives |
| HtaService.SetupMapsEveryMetric | src/async_hta_service.hpp:186-198 | a pass that raises no error leaves every configured metric name in use, and on the first configuration maps each metric's input to it |
| HtaService.ReconfigureWithKnownMetrics | src/async_hta_service.hpp:217-230 | a reconfiguration that only names known metrics changes nothing and raises nothing |
| HtaService.SubscribeMetrics | src/async_hta_service.hpp:540-549 | the subscription list has one entry per mapping, input and name as mapped, and no other |
| HtaService.ParseLogging | src/async_hta_service.hpp:82-97 | each logging switch is true when the logging section is missing or lacks that key, and a present key overrides the default |
| HtaService.FirstPrefixMetric | src/async_hta_service.hpp:156-164 | a configuration is rejected for prefix metrics exactly when some entry sets "prefix" to true, and the named entry is one that does |
| HtaService.AsyncHtaService.constructor | src/async_hta_service.hpp:104-106 | a new service has no mapping, no pool, no directory and default logging |
| HtaService.AsyncHtaService.RegisterInputMapping | src/async_hta_service.hpp:116-132 | registration fails when the name is already a target or the input is already mapped, changing nothing; otherwise it adds exactly the one mapping |
| HtaService.AsyncHtaService.GetMappedName | src/async_hta_service.hpp:134-143 | a mapped input gives its name; an unmapped input that is already some metric's name fails; otherwise the input is mapped to itself |
| HtaService.AsyncHtaService.RegisterMetrics | src/async_hta_service.hpp:186-241 | the posted registration loop's effect on the mapping and its error are those of the setup pass; the first configuration leaves the directory alone; a reconfiguration adds exactly the names `EmplacedNames` gives |
| HtaService.EmplacedNamesOfPass | src/async_hta_service.hpp:222-242 | a reconfiguration emplaces only names not used before; it emplaces every name its pass newly maps, and when the pass completes, exactly those |
| HtaService.AsyncHtaService.AsyncConfig | src/async_hta_service.hpp:146-245 | configuration: missing threads or metrics, metrics that are not an object, and prefix metrics are rejected in that order, leaving the mapping, the pool, its thread count, the directory and the logging switches unchanged; otherwise the logging switches are set; a first configuration needs at least one thread and creates the pool; a reconfiguration must keep the thread count; both thread errors leave the mapping, the pool and the directory unchanged; mappings are only added; a configuration that passes these checks is applied: the pool exists with that thread count and the mapping is the setup pass's; a first configuration sets the directory to the configured names, and a reconfiguration adds the names its pass emplaces; the handler's reply is the subscription list of the final mapping when the pass raised nothing (the pass's error otherwise, see Left out) |
| HtaService.WriteFilterProperties | src/async_hta_service.hpp:259-285 | the inserted samples are strictly increasing in time, all newer than the archive's end and not NaN, drawn from the chunk; inserted, non-monotonic and NaN counts add up to the chunk size |
| HtaService.NaNIsSkipped | src/async_hta_service.hpp:269-273 | a NaN newer than the archive's end, at the head of any chunk, is skipped and counted as NaN: the filter's result and its non-monotonic count are those of the rest of the chunk, and the NaN count is one more |
| HtaService.Write | src/async_hta_service.hpp:250-285 | the write loop inserts, and counts, exactly what the write filter describes, with the filter's properties |
| HtaService.EncodeRows | src/async_hta_service.hpp:366-381 | a timeline response carries the delta encoding of the row times from zero and each row's aggregate |
| HtaService.EncodeValues | src/async_hta_service.hpp:418-431 | a raw-value response carries the delta encoding of the sample times from zero and each sample's value |
| HtaService.Read | src/async_hta_service.hpp:338-483 | every response names the metric, decodes to the times it emits, and carries either aggregates or values, never both; per request type it holds the rows, the values, the single aggregate, the single last value or nothing |
| TimeSeries.DeltaAt | src/async_hta_service.hpp:370-380 | each delta is a time minus the previous time, the first minus the start |
| TimeSeries.DeltasSnoc | src/async_hta_service.hpp:370-380 | encoding one more time appends one delta against the last time: the loop step |
| TimeSeries.DecodeDeltas | src/async_hta_service.hpp:366-381 | the running sums of the deltas from the start give back the times |
| TimeSeries.EncodeSums | src/async_hta_service.hpp:366-381 | re-encoding the running sums gives back the deltas, so encoding is a bijection |
| LegacyDb.Accepted | src/db.cpp:37-47 | a sample is inserted exactly when its time is not before the archive's end (equal times pass) |
| LegacyDb.AcceptedPlusSkipped | src/db.cpp:37-47 | every sample is either inserted or counted as skipped |
| LegacyDb.BackwardsChunkInsertedWhole | src/db.cpp:37-47 | the filter compares against the range end fetched once, not the last inserted time, so any chunk whose samples are all at or after that end is inserted whole, however its times go back, and nothing is skipped |
| LegacyDb.DataCallback | src/db.cpp:32-54 | the data loop inserts the accepted samples and counts the skipped ones |
| LegacyDb.HistoryCallback | src/db.cpp:56-84 | the response names the metric; its deltas decode to the row times from the epoch; minimum, maximum and mean are each row's, in order |
| SizeT.Inc | src/db_stats.cpp:46 | increment modulo 2^64 |
| SizeT.Dec | src/read_write_stats.hpp:75-78 | decrement modulo 2^64; it is the inverse of increment |
| DbStatistics.ResetStats | src/db_stats.cpp:93-101 | reset zeroes every count and duration and keeps the two in-flight gauges |
| DbStatistics.ApplyKeepsInvariant | src/db_stats.cpp:186-197 | no sequence of collector calls produces a pending duration without a started request, the condition the output asserts |
| DbStatistics.ApplyCounts | src/db_stats.cpp:43-76 | over any call sequence, the started, completed and failed counts grow by exactly the number of active, complete and failed calls |
| DbStatistics.RequestLeavesGauges | src/db_stats.cpp:43-76 | a request that goes pending, active, then completed or failed leaves both gauges as they were, counts one start and adds both durations |
| DbStatistics.ActiveWithoutPendingWraps | src/db_stats.cpp:50-57 | an active call with no pending request wraps the pending gauge to the maximum, and still counts one start |
| DbStatistics.StatsCollector.constructor | src/db_stats.cpp:78-91 | a collector starts with every counter zero |
| DbStatistics.StatsCollector.Pending | src/db_stats.cpp:43-47 | pending raises the pending gauge by one, wrapping, and changes nothing else |
| DbStatistics.StatsCollector.Active | src/db_stats.cpp:50-57 | active moves one request from pending to active, counts a start and adds the pending time |
| DbStatistics.StatsCollector.Complete | src/db_stats.cpp:60-67 | complete retires one active request, counts a completion and adds its time and data size |
| DbStatistics.StatsCollector.Failed | src/db_stats.cpp:70-76 | failed retires one active request, counts a failure and adds its time, not its data |
| DbStatistics.StatsCollector.Collect | src/db_stats.cpp:104-110 | collect returns the counters as they were and resets them; the snapshot satisfies the asserted invariant |
| DbStatistics.DbStatsImpl.constructor | src/db_stats.cpp:221-225 | fresh read and write collectors, and the previous collection time is now |
| DbStatistics.DbStatsImpl.Collect | src/db_stats.cpp:227-239 | both directions are snapshotted and reset, and the collection time moves to now |
| DbStatistics.DbStats.constructor | src/db_stats.cpp:250-252 | a new wrapper has no implementation |
| DbStatistics.DbStats.Init | src/db_stats.cpp:258-268 | init creates a fresh implementation once; a second init changes nothing |
| DbStatistics.DbStats.Reset | src/db_stats.cpp:270-273 | reset drops the implementation |
| DbStatistics.DbStats.Read | src/db_stats.cpp:275-305 | read calls reach the read collector only when initialised, and never touch the write collector |
| DbStatistics.DbStats.Write | src/db_stats.cpp:307-337 | write calls reach the write collector only when initialised, and never touch the read collector |
| DbStatistics.DbStats.Collect | src/db_stats.cpp:339-345 | collect yields both snapshots exactly when initialised, and nothing otherwise; when initialised it resets both collectors and moves the collection time to now |
| ReadWriteStatistics.AverageAsWritten | src/read_write_stats.hpp:86-93 | the logged average has no value, because it divides by zero, exactly when the count is zero |
| ReadWriteStatistics.Average | src/read_write_stats.hpp:86-93 | the average is 0 without requests and otherwise the logged quotient, whose product with the count is at most the total and within one count of it |
| ReadWriteStatistics.ReportOf | src/read_write_stats.hpp:84-95 | a report carries the counts, the ongoing gauge and, wherever a count is positive, the logged averages |
| ReadWriteStatistics.FirstLogDividesByZero | src/read_write_stats.hpp:82-88 | a check from the epoch, the last report time of a fresh object, is due just over ten seconds later; the as-written average over a zero count has no value |
| ReadWriteStatistics.FirstRequestReportsZeroCounts | src/read_write_stats.hpp:67-93 | the first request on a fresh object more than ten seconds after the epoch yields a report with zero reads and zero writes, whose as-written averages have no value; the corrected report carries averages 0 |
| ReadWriteStatistics.ReadWriteStats.constructor | src/read_write_stats.hpp:108-114 | all counters are zero and the last report is at the epoch |
| ReadWriteStatistics.ReadWriteStats.LogStats | src/read_write_stats.hpp:80-104 | when strictly more than ten seconds have passed, the counters are reported, the read and write counts and durations are zeroed, and the report time is recorded; the ongoing gauge is never reset; otherwise nothing changes |
| ReadWriteStatistics.ReadWriteStats.AddReadDuration | src/read_write_stats.hpp:42-52 | a finished read is counted with its duration, one request fewer is ongoing, then the log check runs |
| ReadWriteStatistics.ReadWriteStats.AddWriteDuration | src/read_write_stats.hpp:54-65 | a finished write is counted with its duration, one request fewer is ongoing, then the log check runs |
| ReadWriteStatistics.ReadWriteStats.IncrementOngoing | src/read_write_stats.hpp:67-72 | one more request is ongoing, then the log check runs |
| ReadWriteStatistics.ReadWriteStats.DecrementOngoing | src/read_write_stats.hpp:75-78 | one request fewer is ongoing, wrapping below zero; nothing else changes |

## Left out

**I/O and external systems**

- The CouchDB client and session are left out. The configuration store is a map from token to document.
- The module with its `FakeAgent` and the broker connection is left out. The outcome of `create_bindings` is an input: whether the bindings were registered.
- The interactive prompts (`click.confirm`) are inputs, one boolean per prompt.
- The progress bar is a counter. Its label function is the `lastMetric` field.
- The clock (`Timestamp.now`, `Clock::now`) is a parameter, in nanoseconds.
- The external import process is not modelled. Their exit statuses are an input sequence, indexed in dequeue order. A missing executable (`FileNotFoundError`) is its own result.
- The temporary configuration file is left out: its creation, JSON serialisation and removal. As a result, swallowed removal errors have no counterpart, and neither does the file left behind when a launch raises and the removal is skipped. The file's content is the `JobConfig` value passed to the job. `launched` records every attempted launch, including those that raised.
- The HTA archive is left out. With it go `hta::Directory` construction, `emplace`, `insert`, `flush`, `range` and `retrieve`. A write returns the samples it would insert. A read takes the retrieved data as input. Exceptions from the archive are not modelled.
- Logging is left out: every log message, the skip warnings and their switches' effect on output, and the slow-request notices. Only the switches themselves are modelled.

**Concurrency**

- Concurrency is left out: asyncio scheduling, the thread pool, strands, work guards and mutexes. Posted tasks run at once. Workers run one after another; each takes jobs until the queue is empty or one of its launches raises. Since the queue is first in, first out, launch order is dequeue order, and each raising launch ends a different worker, so the set of jobs taken is that of the concurrent run. With more than one worker the real failure list is in completion order, whereas the model keeps dequeue order; membership is the same either way. The exception that ends a worker stays inside its task, since `asyncio.wait` does not re-raise it, and the run goes on to report the failures.
- Importer.DataheapToHtaImporter.ImportMain: returns `started == false` for zero workers. On every Python release `asyncio.wait` checks for an empty set first and raises `ValueError`. From 3.11 on, a positive worker count raises `TypeError`, because bare coroutines are passed; that behaviour is not modelled.

**The C++ service's handlers**

- The handler calls `async_write` and `async_read` are modelled by their parts: `async_write` is `GetMappedName` followed by `Write`, and `async_read` goes straight to `Read` with the metric name it was given, without consulting the mapping. Their posting, the `handler.failed` error path and the per-request `stats_` calls are not modelled; the statistics themselves are in `DbStatistics`.
- HtaService.AsyncHtaService.AsyncConfig: returns the registration pass's error as the call's result. In the source the registration loop runs in the task posted to the pool (`async_hta_service.hpp:179`, `:218`), after `async_config` has returned. The `logic_error` of a failed registration is thrown on a pool thread, and the handler at `:201` or `:243` is never called, so the caller receives neither an error nor a reply. Errors from validation and from the thread checks are thrown by `async_config` itself, as the model returns them.
- A `LAST_VALUE` read with more than one retrieved value only logs a warning in the source. The model returns the empty response for it.

**Statistics output**

- StatsMetrics is left out: the rates, utilisation and averages it sends as doubles, and their metadata. The assertion it makes on every snapshot is modelled: the pending duration is zero when no request started (`PendingInvariant`).
- DbStatistics.DbStatsImpl.Collect: requires the clock to have moved forward since the previous collection. This is the `assert(duration > 0)` of the output step. The source does not handle a clock that stands still or goes back.
- DbStatistics.Stats: the completed, failed and started counts and the data size are unbounded naturals, and the pending and active durations are unbounded integers rather than 64-bit nanosecond counts. The in-flight gauges do wrap, as `SizeT` values. The counts are reset at every collection, so reaching 2^64 is not a concern.
- ReadWriteStatistics.Average: the model divides with Dafny's Euclidean division. In C++ the signed nanosecond total divided by the `size_t` count is computed in the common unsigned 64-bit type, so a negative total would first be converted modulo 2^64. The two agree on every non-negative total, and the model assumes the totals are non-negative. Nothing in the modelled files guarantees that, since the durations are wall-clock differences supplied by callers.
- ReadWriteStatistics: the utilisation figures are doubles and are left out. The counts and durations are not bounded to 64 bits.

**Numbers and parameter ranges**

- Floating point is modelled as exact real arithmetic. Each interval and the sampling rate are reals, `sampling_rate * 40 * 1e9` is exact, and a double is a number or an abstract NaN.
- Importer.DefaultIntervalMax: requires a positive minimum and an integer factor of at least 2.
  - Factors 0, 1 and -1 are excluded. With factor 0 the source's loop never ends. With factor 1 or -1 it never ends when the minimum is below 2.592e15, but it does end for a larger minimum: factor 1 returns the minimum at once, and factor -1 returns the negated minimum after one step. The model does not capture these terminating cases.
  - Factors below -1 and fractional factors are left out.
  - `NewImportMetric` and `Register` demand the same only when the maximum is not supplied (`ConstructorAllowed`).
- Importer.DataheapToHtaImporter.UpdateConfig: a document without a "metrics" or a "path" key raises `KeyError` in the source. The model's documents always have both keys.
- HtaService: the JSON type errors of the source are not modelled. These are a "threads" value that is not a number, a "prefix" that is not a boolean and an "input" that is not a string. The configuration's members are typed options.
- TimeSeries: time points and deltas are unbounded integers. The 64-bit nanosecond range is left out.

**Outside the core, and a difference from the source's documentation**

- The command-line entry points are not part of this model: `importer_cmd`, `hdeem_importer.py` and `main.cpp`. Neither are the diagnostic checks or the log setup.
- The importer's design description gives the default maximum as the smallest multiple of the minimum by the factor that is at least 30 days. The code (`importer.py:75-81`) returns the last multiple before one more step would reach 30 days, which is below 30 days whenever a step was taken. The model follows the code.
- The importer's documentation says a missing executable marks the job failed. The code only logs it (`importer.py:242-243`), and the model follows the code: such a job is not in the failure list.

## Findings

| source | as written | input that shows it | evidently intended | confidence | as-written member | corrected member |
|---|---|---|---|---|---|---|
| src/read_write_stats.hpp:88 | the log check prints `read_duration_ / read_count_` and `write_duration_ / write_count_` whenever more than ten seconds have passed, without checking for a zero count | a fresh object, whose last report is at the epoch, gets its first `increment_ongoing` more than ten seconds after the epoch. Both counts are 0, so the division is by zero. The same happens after any report followed by requests of one direction only | an average of 0, or no average, when no request of that direction was counted | not executed | ReadWriteStatistics.AverageAsWritten | ReadWriteStatistics.Average |

`ReadWriteStatistics.FirstLogDividesByZero` exhibits the discrepancy. So does the method
`ReadWriteStatistics.FirstRequestReportsZeroCounts`, which drives a fresh object to a
due report with both counts zero. There the as-written average has no value,
while the report the model produces carries the corrected average 0.
