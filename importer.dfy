/**
 * The bulk importer (src/tools/metricq_importer/importer.py): retention
 * intervals per metric, the registry, the merge of the registry into the
 * token's configuration document, and the queue drained by the workers that
 * run the external import executable once per metric.
 * The document store is a map from token to document, the operator's answers,
 * the broker registration, the clock and the executable's exit statuses are
 * inputs. Workers run one after another; the queue is first in, first out.
 */
module Importer {
  import opened Wrappers

  // ---------------------------------------------------------------------------
  // Retention intervals

  /** 30 days in nanoseconds: the bound the default maximum interval works toward. */
  const Ceiling: real := 2592000000000000.0

  /** Nanoseconds per second. */
  const NanosPerSecond: real := 1000000000.0

  /** Python's int() on a float: truncation toward zero. */
  function Trunc(x: real): (r: int)
    ensures x >= 0.0 ==> 0.0 <= r as real <= x < r as real + 1.0
    ensures x < 0.0 ==> r as real - 1.0 < x <= r as real <= 0.0
  {
    if x >= 0.0 then x.Floor else -((-x).Floor)
  }

  function Pow(f: int, k: nat): int
  {
    if k == 0 then 1 else f * Pow(f, k - 1)
  }

  lemma {:induction false} PowAtLeastOne(f: int, k: nat)
    requires f >= 2
    ensures Pow(f, k) >= 1
  {
    if k > 0 {
      PowAtLeastOne(f, k - 1);
    }
  }

  /** One more factor step toward the ceiling shrinks the distance measure by at least one. */
  lemma StepShrinks(i: real, f: int)
    requires i > 0.0 && f >= 2 && i * f as real < Ceiling
    ensures 0.0 <= Ceiling / (i * f as real) <= Ceiling / i - 1.0
  {
    var x := Ceiling / i;
    assert x * i == Ceiling;
    assert f as real < x;
    var y := Ceiling / (i * f as real);
    assert y * (i * f as real) == Ceiling;
    assert y * f as real == x by {
      assert (y * f as real) * i == Ceiling;
    }
    assert y <= x / 2.0 by {
      assert y * 2.0 <= y * f as real;
    }
  }

  /** The default maximum interval: multiply until one more step would reach the ceiling. */
  function IntervalMaxFrom(i: real, factor: int): real
    requires i > 0.0 && factor >= 2
    decreases Ceiling / i
  {
    if i * factor as real >= Ceiling then i
    else StepShrinks(i, factor); IntervalMaxFrom(i * factor as real, factor)
  }

  /** How many factor steps the default maximum takes. */
  function Steps(i: real, factor: int): nat
    requires i > 0.0 && factor >= 2
    decreases Ceiling / i
  {
    if i * factor as real >= Ceiling then 0
    else StepShrinks(i, factor); 1 + Steps(i * factor as real, factor)
  }

  /** The interval reached from `m` after `k` factor steps. */
  function Reach(m: real, f: int, k: nat): real
  {
    m * Pow(f, k) as real
  }

  lemma ReachShift(m: real, f: int, k: nat)
    ensures Reach(m * f as real, f, k) == Reach(m, f, k + 1)
  {
    var p := Pow(f, k) as real;
    assert Pow(f, k + 1) as real == f as real * p;
    assert (m * f as real) * p == m * (f as real * p);
  }

  /**
   * The default maximum is interval_min·factor^k for the smallest k with
   * interval_min·factor^(k+1) at or above the ceiling.
   */
  lemma {:induction false} IntervalMaxIsSmallestPower(m: real, f: int)
    requires m > 0.0 && f >= 2
    ensures IntervalMaxFrom(m, f) == Reach(m, f, Steps(m, f))
    ensures Reach(m, f, Steps(m, f) + 1) >= Ceiling
    ensures forall k :: 1 <= k <= Steps(m, f) ==> Reach(m, f, k) < Ceiling
    decreases Ceiling / m
  {
    if m * f as real >= Ceiling {
      ReachShift(m, f, 0);
      assert Reach(m * f as real, f, 0) == m * f as real;
      assert Reach(m, f, 0) == m;
    } else {
      StepShrinks(m, f);
      var n := m * f as real;
      IntervalMaxIsSmallestPower(n, f);
      var k := Steps(n, f);
      assert Steps(m, f) == k + 1;
      ReachShift(m, f, k);
      ReachShift(m, f, k + 1);
      forall j | 1 <= j <= Steps(m, f)
        ensures Reach(m, f, j) < Ceiling
      {
        ReachShift(m, f, j - 1);
        if j == 1 {
          assert Reach(n, f, 0) == n;
        }
      }
    }
  }

  /**
   * So the default maximum is at least the minimum, one more step reaches the
   * ceiling, and it is itself below the ceiling whenever at least one step was taken.
   */
  lemma IntervalMaxBounds(m: real, f: int)
    requires m > 0.0 && f >= 2
    ensures IntervalMaxFrom(m, f) >= m
    ensures IntervalMaxFrom(m, f) * f as real >= Ceiling
    ensures Steps(m, f) > 0 ==> IntervalMaxFrom(m, f) < Ceiling
  {
    var k := Steps(m, f);
    IntervalMaxIsSmallestPower(m, f);
    PowAtLeastOne(f, k);
    var p := Pow(f, k) as real;
    assert m * p >= m * 1.0;
    assert Reach(m, f, k + 1) == (m * p) * f as real by {
      assert Pow(f, k + 1) as real == f as real * p;
    }
  }

  /**
   * _default_interval_max: the loop multiplies by the factor until the next
   * product would reach the ceiling. The source asserts interval_min > 0; the
   * loop ends only for a factor above 1.
   */
  method DefaultIntervalMax(intervalMin: real, factor: int) returns (r: real)
    requires intervalMin > 0.0 && factor >= 2
    ensures r == IntervalMaxFrom(intervalMin, factor)
    ensures r == Reach(intervalMin, factor, Steps(intervalMin, factor))
    ensures r >= intervalMin && r * factor as real >= Ceiling
    ensures Steps(intervalMin, factor) > 0 ==> r < Ceiling
  {
    IntervalMaxIsSmallestPower(intervalMin, factor);
    IntervalMaxBounds(intervalMin, factor);
    var i := intervalMin;
    while true
      invariant i > 0.0
      invariant IntervalMaxFrom(i, factor) == IntervalMaxFrom(intervalMin, factor)
      decreases Ceiling / i
    {
      if i * factor as real >= Ceiling {
        return i;
      }
      StepShrinks(i, factor);
      i := i * factor as real;
    }
  }

  // ---------------------------------------------------------------------------
  // Metrics and their configuration entries

  /** ImportMetric: `importName` None (or empty) marks a metric that is configured but not imported. */
  datatype ImportMetric = ImportMetric(metricqName: string, importName: Option<string>,
                                       intervalFactor: int, intervalMin: real, intervalMax: real)

  /** The default minimum interval: forty sampling periods, in nanoseconds. */
  function DefaultIntervalMin(samplingRate: real): real
  {
    samplingRate * 40.0 * NanosPerSecond
  }

  /** The interval minimum ImportMetric's constructor settles on. */
  function ChosenMin(samplingRate: real, intervalMin: Option<real>): real
  {
    if intervalMin.Some? then intervalMin.value else DefaultIntervalMin(samplingRate)
  }

  /** What the constructor may be called with: the default maximum needs a positive minimum. */
  predicate ConstructorAllowed(samplingRate: real, intervalFactor: int,
                               intervalMin: Option<real>, intervalMax: Option<real>)
  {
    intervalMax.None? ==> ChosenMin(samplingRate, intervalMin) > 0.0 && intervalFactor >= 2
  }

  /** The metric ImportMetric's constructor builds. */
  function ResolvedMetric(metricqName: string, importName: Option<string>, samplingRate: real,
                          intervalFactor: int, intervalMin: Option<real>, intervalMax: Option<real>): ImportMetric
    requires ConstructorAllowed(samplingRate, intervalFactor, intervalMin, intervalMax)
  {
    var lo := ChosenMin(samplingRate, intervalMin);
    ImportMetric(metricqName, importName, intervalFactor, lo,
                 if intervalMax.Some? then intervalMax.value else IntervalMaxFrom(lo, intervalFactor))
  }

  /**
   * ImportMetric.__init__: supplied intervals are kept as they are; a missing
   * minimum is forty sampling periods, a missing maximum the default maximum.
   */
  method NewImportMetric(metricqName: string, importName: Option<string>, samplingRate: real,
                         intervalFactor: int := 10, intervalMin: Option<real> := None,
                         intervalMax: Option<real> := None) returns (m: ImportMetric)
    requires ConstructorAllowed(samplingRate, intervalFactor, intervalMin, intervalMax)
    ensures m == ResolvedMetric(metricqName, importName, samplingRate, intervalFactor, intervalMin, intervalMax)
    ensures m.metricqName == metricqName && m.importName == importName && m.intervalFactor == intervalFactor
    ensures intervalMin.Some? ==> m.intervalMin == intervalMin.value
    ensures intervalMin.None? ==> m.intervalMin == samplingRate * 40.0 * NanosPerSecond
    ensures intervalMax.Some? ==> m.intervalMax == intervalMax.value
    ensures intervalMax.None? ==>
              m.intervalMax >= m.intervalMin && m.intervalMax * intervalFactor as real >= Ceiling
  {
    var lo := if intervalMin.Some? then intervalMin.value else samplingRate * 40.0 * NanosPerSecond;
    var hi;
    if intervalMax.Some? {
      hi := intervalMax.value;
    } else {
      hi := DefaultIntervalMax(lo, intervalFactor);
    }
    m := ImportMetric(metricqName, importName, intervalFactor, lo, hi);
  }

  /** One metric entry of a configuration document. */
  datatype MetricConfig = MetricConfig(name: string, mode: string, intervalMin: int, intervalMax: int,
                                       intervalFactor: int)

  /** ImportMetric.config: read-write, the two intervals truncated to integers, the factor as it is. */
  function ConfigOf(m: ImportMetric): (c: MetricConfig)
    ensures c.name == m.metricqName && c.mode == "RW" && c.intervalFactor == m.intervalFactor
    ensures m.intervalMin >= 0.0 ==> c.intervalMin as real <= m.intervalMin < c.intervalMin as real + 1.0
    ensures m.intervalMax >= 0.0 ==> c.intervalMax as real <= m.intervalMax < c.intervalMax as real + 1.0
  {
    MetricConfig(m.metricqName, "RW", Trunc(m.intervalMin), Trunc(m.intervalMax), m.intervalFactor)
  }

  // ---------------------------------------------------------------------------
  // The registry

  /** Python truthiness of import_name: neither None nor empty. */
  predicate Importable(m: ImportMetric)
  {
    m.importName.Some? && m.importName.value != ""
  }

  /** import_metrics: the registered metrics with an import name, in registration order. */
  function ImportMetricsOf(ms: seq<ImportMetric>): (r: seq<ImportMetric>)
    ensures |r| <= |ms|
    ensures forall m :: m in r <==> m in ms && Importable(m)
  {
    if ms == [] then []
    else (if Importable(ms[0]) then [ms[0]] else []) + ImportMetricsOf(ms[1..])
  }

  /** Registering more metrics appends their importable ones: the order is registration order. */
  lemma {:induction false} ImportMetricsAppend(a: seq<ImportMetric>, b: seq<ImportMetric>)
    ensures ImportMetricsOf(a + b) == ImportMetricsOf(a) + ImportMetricsOf(b)
  {
    if a == [] {
      assert a + b == b;
    } else {
      assert (a + b)[0] == a[0];
      assert (a + b)[1..] == a[1..] + b;
      ImportMetricsAppend(a[1..], b);
    }
  }

  function Configs(ms: seq<ImportMetric>): (r: seq<MetricConfig>)
    ensures |r| == |ms| && forall k :: 0 <= k < |ms| ==> r[k] == ConfigOf(ms[k])
  {
    seq(|ms|, k requires 0 <= k < |ms| => ConfigOf(ms[k]))
  }

  // ---------------------------------------------------------------------------
  // The configuration document and the merge

  /** A token's configuration document, as far as the importer reads and writes it. */
  datatype ConfigDocument = ConfigDocument(path: string, metrics: seq<MetricConfig>)

  /** The settings every job's configuration file starts from. */
  datatype ImportTemplate = ImportTemplate(kind: string, threads: int, path: string, host: string,
                                           user: string, password: string, database: string)

  function EntryNames(entries: seq<MetricConfig>): set<string>
  {
    set e | e in entries :: e.name
  }

  function MetricNames(ms: seq<ImportMetric>): set<string>
  {
    set m | m in ms :: m.metricqName
  }

  /** The registered metrics whose name the document already holds, in registration order. */
  function Conflicting(ms: seq<ImportMetric>, current: seq<MetricConfig>): (r: seq<ImportMetric>)
    ensures forall m :: m in r <==> m in ms && m.metricqName in EntryNames(current)
  {
    if ms == [] then []
    else (if ms[0].metricqName in EntryNames(current) then [ms[0]] else []) + Conflicting(ms[1..], current)
  }

  /** The entries whose name is not in `names`, in their order. */
  function WithoutNames(entries: seq<MetricConfig>, names: set<string>): (r: seq<MetricConfig>)
    ensures |r| <= |entries|
    ensures forall e :: e in r <==> e in entries && e.name !in names
  {
    if entries == [] then []
    else (if entries[0].name in names then [] else [entries[0]]) + WithoutNames(entries[1..], names)
  }

  /** The metric list update_config saves: old entries minus the conflicting ones, then every registered metric. */
  function MergedMetrics(current: seq<MetricConfig>, ms: seq<ImportMetric>): (r: seq<MetricConfig>)
    ensures ms == [] ==> r == current
  {
    var conflicts := Conflicting(ms, current);
    (if conflicts == [] then current else WithoutNames(current, MetricNames(conflicts))) + Configs(ms)
  }

  lemma {:induction false} WithoutNamesAgree(entries: seq<MetricConfig>, a: set<string>, b: set<string>)
    requires forall e :: e in entries ==> (e.name in a <==> e.name in b)
    ensures WithoutNames(entries, a) == WithoutNames(entries, b)
  {
    if entries != [] {
      assert entries[0] in entries;
      WithoutNamesAgree(entries[1..], a, b);
    }
  }

  lemma {:induction false} WithoutNamesNone(entries: seq<MetricConfig>, a: set<string>)
    requires forall e :: e in entries ==> e.name !in a
    ensures WithoutNames(entries, a) == entries
  {
    if entries != [] {
      assert entries[0] in entries;
      WithoutNamesNone(entries[1..], a);
      assert entries == [entries[0]] + entries[1..];
    }
  }

  /**
   * The merge, stated without the conflict list: every old entry whose name is not
   * registered, in order, then the configs of all registered metrics (importable
   * or not) in registration order.
   */
  lemma MergedMetricsReference(current: seq<MetricConfig>, ms: seq<ImportMetric>)
    ensures MergedMetrics(current, ms) == WithoutNames(current, MetricNames(ms)) + Configs(ms)
  {
    var conflicts := Conflicting(ms, current);
    forall e | e in current
      ensures e.name in MetricNames(conflicts) <==> e.name in MetricNames(ms)
    {
      if e.name in MetricNames(ms) {
        var m :| m in ms && m.metricqName == e.name;
        assert m in conflicts;
      }
    }
    if conflicts == [] {
      assert MetricNames(conflicts) == {};
      WithoutNamesNone(current, MetricNames(ms));
    } else {
      WithoutNamesAgree(current, MetricNames(conflicts), MetricNames(ms));
    }
  }

  ghost predicate DistinctNames(entries: seq<MetricConfig>)
  {
    forall j, k :: 0 <= j < k < |entries| ==> entries[j].name != entries[k].name
  }

  /** A document without duplicate names stays so when the registry has none either. */
  lemma MergeKeepsNamesDistinct(current: seq<MetricConfig>, ms: seq<ImportMetric>)
    requires DistinctNames(current) && DistinctNames(Configs(ms))
    ensures DistinctNames(MergedMetrics(current, ms))
  {
    MergedMetricsReference(current, ms);
    var kept := WithoutNames(current, MetricNames(ms));
    WithoutNamesDistinct(current, MetricNames(ms));
    var cs := Configs(ms);
    var all := kept + cs;
    forall j, k | 0 <= j < k < |all| ensures all[j].name != all[k].name {
      if k >= |kept| && j < |kept| {
        assert all[j] in kept;
        assert all[k] == cs[k - |kept|];
        assert ms[k - |kept|] in ms;
        assert all[k].name in MetricNames(ms);
      } else if j >= |kept| {
        assert all[j] == cs[j - |kept|] && all[k] == cs[k - |kept|];
      }
    }
  }

  lemma {:induction false} WithoutNamesDistinct(entries: seq<MetricConfig>, a: set<string>)
    requires DistinctNames(entries)
    ensures DistinctNames(WithoutNames(entries, a))
  {
    if entries != [] {
      var rest := WithoutNames(entries[1..], a);
      WithoutNamesDistinct(entries[1..], a);
      if entries[0].name !in a {
        forall e | e in rest ensures e.name != entries[0].name {
          var k :| 0 <= k < |entries[1..]| && entries[1..][k] == e;
          assert entries[k + 1] == e;
        }
        var all := [entries[0]] + rest;
        forall j, k | 0 <= j < k < |all| ensures all[j].name != all[k].name {
          if j == 0 {
            assert all[k] in rest;
          } else {
            assert all[j] == rest[j - 1] && all[k] == rest[k - 1];
          }
        }
      }
    }
  }

  // ---------------------------------------------------------------------------
  // Jobs

  /**
   * The result of one job: the process exited with a status; the executable
   * was not found (FileNotFoundError, which import_metric catches and logs);
   * or starting it raised another error (a PermissionError, say), which
   * import_metric does not catch and which ends the worker that took the job.
   */
  datatype ExecResult = Exited(code: int) | NotFound | SpawnFailed

  /** The temporary configuration file of one job: the template plus exactly this metric's entry. */
  datatype JobConfig = JobConfig(template: ImportTemplate, metrics: seq<MetricConfig>)

  /** One launch of hta_mysql_import and its arguments. */
  datatype Invocation = Invocation(executable: string, metricqName: string, importName: string,
                                   config: JobConfig, maxTimestampMs: int, chunkSize: int)

  /** The --mysql-chunk-size passed to every job. */
  const MysqlChunkSize := 10000000

  /** Timestamp.posix_ms truncated to an integer, for a time in nanoseconds. */
  function PosixMs(ns: int): int
  {
    Trunc(ns as real / 1000000.0)
  }

  /** The --import-metric argument; only importable metrics are queued, so the name is always present there. */
  function ImportNameOf(m: ImportMetric): string
  {
    if m.importName.Some? then m.importName.value else ""
  }

  function InvocationOf(template: ImportTemplate, cutoff: int, m: ImportMetric): Invocation
  {
    Invocation("hta_mysql_import", m.metricqName, ImportNameOf(m), JobConfig(template, [ConfigOf(m)]),
               PosixMs(cutoff), MysqlChunkSize)
  }

  /** A job counts as failed exactly when the executable ran and exited non-zero. */
  predicate JobFailed(r: ExecResult)
  {
    r.Exited? && r.code != 0
  }

  /** Whether the job's error escapes import_metric and ends the worker's loop. */
  predicate EndsWorker(r: ExecResult)
  {
    r.SpawnFailed?
  }

  /** The launches of jobs a..b-1 of the queue `ms`, in order. */
  function InvocationsIn(template: ImportTemplate, cutoff: int, ms: seq<ImportMetric>, a: nat, b: nat)
    : (r: seq<Invocation>)
    requires a <= b <= |ms|
    ensures |r| == b - a
    decreases b
  {
    if b == a then [] else InvocationsIn(template, cutoff, ms, a, b - 1) + [InvocationOf(template, cutoff, ms[b - 1])]
  }

  /** The metrics recorded as failed among jobs a..b-1, in dequeue order; `rs[k]` is the result of job `ms[k]`. */
  function FailedIn(ms: seq<ImportMetric>, rs: seq<ExecResult>, a: nat, b: nat): seq<ImportMetric>
    requires |ms| == |rs| && a <= b <= |ms|
    decreases b
  {
    if b == a then [] else FailedIn(ms, rs, a, b - 1) + (if JobFailed(rs[b - 1]) then [ms[b - 1]] else [])
  }

  /** How many of jobs a..b-1 raised out of import_metric. */
  function RaisedIn(rs: seq<ExecResult>, a: nat, b: nat): nat
    requires a <= b <= |rs|
    decreases b
  {
    if b == a then 0 else RaisedIn(rs, a, b - 1) + (if EndsWorker(rs[b - 1]) then 1 else 0)
  }

  /** The k-th launch is the invocation of the k-th job taken from the queue. */
  lemma {:induction false} InvocationsInAt(template: ImportTemplate, cutoff: int, ms: seq<ImportMetric>,
                                           a: nat, b: nat, k: nat)
    requires a <= k < b <= |ms|
    ensures InvocationsIn(template, cutoff, ms, a, b)[k - a] == InvocationOf(template, cutoff, ms[k])
    decreases b
  {
    if k < b - 1 {
      InvocationsInAt(template, cutoff, ms, a, b - 1, k);
    }
  }

  /** A job is in the failure list exactly when its executable ran and exited non-zero; at most once per job. */
  lemma {:induction false} FailedInCharacterised(ms: seq<ImportMetric>, rs: seq<ExecResult>, a: nat, b: nat)
    requires |ms| == |rs| && a <= b <= |ms|
    ensures |FailedIn(ms, rs, a, b)| <= b - a
    ensures forall m :: m in FailedIn(ms, rs, a, b) <==> exists k :: a <= k < b && ms[k] == m && JobFailed(rs[k])
    decreases b
  {
    if b > a {
      FailedInCharacterised(ms, rs, a, b - 1);
      forall m ensures m in FailedIn(ms, rs, a, b) <==> exists k :: a <= k < b && ms[k] == m && JobFailed(rs[k]) {
        if exists k :: a <= k < b && ms[k] == m && JobFailed(rs[k]) {
          var k :| a <= k < b && ms[k] == m && JobFailed(rs[k]);
          if k < b - 1 {
            assert m in FailedIn(ms, rs, a, b - 1);
          }
        }
      }
    }
  }

  /** When every job exits 0, nothing is reported as failed. */
  lemma {:induction false} AllSucceededNoFailures(ms: seq<ImportMetric>, rs: seq<ExecResult>, a: nat, b: nat)
    requires |ms| == |rs| && a <= b <= |ms| && forall k :: a <= k < b ==> rs[k] == Exited(0)
    ensures FailedIn(ms, rs, a, b) == []
    decreases b
  {
    if b > a {
      AllSucceededNoFailures(ms, rs, a, b - 1);
    }
  }

  lemma {:induction false} FailedInSplit(ms: seq<ImportMetric>, rs: seq<ExecResult>, a: nat, b: nat, c: nat)
    requires |ms| == |rs| && a <= b <= c <= |ms|
    ensures FailedIn(ms, rs, a, c) == FailedIn(ms, rs, a, b) + FailedIn(ms, rs, b, c)
    decreases c
  {
    if c > b {
      FailedInSplit(ms, rs, a, b, c - 1);
    }
  }

  lemma {:induction false} InvocationsInSplit(template: ImportTemplate, cutoff: int, ms: seq<ImportMetric>,
                                              a: nat, b: nat, c: nat)
    requires a <= b <= c <= |ms|
    ensures InvocationsIn(template, cutoff, ms, a, c)
            == InvocationsIn(template, cutoff, ms, a, b) + InvocationsIn(template, cutoff, ms, b, c)
    decreases c
  {
    if c > b {
      InvocationsInSplit(template, cutoff, ms, a, b, c - 1);
    }
  }

  lemma {:induction false} RaisedInSplit(rs: seq<ExecResult>, a: nat, b: nat, c: nat)
    requires a <= b <= c <= |rs|
    ensures RaisedIn(rs, a, c) == RaisedIn(rs, a, b) + RaisedIn(rs, b, c)
    decreases c
  {
    if c > b {
      RaisedInSplit(rs, a, b, c - 1);
    }
  }

  /** Where one worker that starts at queue position p stops: just past the first job that raises, or at the end. */
  function WorkerStop(rs: seq<ExecResult>, p: nat): (q: nat)
    requires p <= |rs|
    ensures p <= q <= |rs|
    decreases |rs| - p
  {
    if p == |rs| then p else if EndsWorker(rs[p]) then p + 1 else WorkerStop(rs, p + 1)
  }

  /** Where `w` workers stop that take jobs from position p on, each until a job of its own raises. */
  function DrainStop(rs: seq<ExecResult>, p: nat, w: nat): (q: nat)
    requires p <= |rs|
    ensures p <= q <= |rs|
    decreases w
  {
    if w == 0 then p else DrainStop(rs, WorkerStop(rs, p), w - 1)
  }

  /**
   * A worker takes jobs until one raises: no job before its last one raised, it
   * stops short of the end only after a job that raised, and it has seen at most
   * that one.
   */
  lemma {:induction false} WorkerStopCharacterised(rs: seq<ExecResult>, p: nat)
    requires p <= |rs|
    ensures forall k :: p <= k < WorkerStop(rs, p) - 1 ==> !EndsWorker(rs[k])
    ensures WorkerStop(rs, p) < |rs| ==> p < WorkerStop(rs, p) && EndsWorker(rs[WorkerStop(rs, p) - 1])
    ensures WorkerStop(rs, p) == |rs| || p == |rs| || EndsWorker(rs[WorkerStop(rs, p) - 1])
    ensures RaisedIn(rs, p, WorkerStop(rs, p))
            == if p < WorkerStop(rs, p) && EndsWorker(rs[WorkerStop(rs, p) - 1]) then 1 else 0
    decreases |rs| - p
  {
    if p < |rs| && !EndsWorker(rs[p]) {
      WorkerStopCharacterised(rs, p + 1);
      RaisedInSplit(rs, p, p + 1, WorkerStop(rs, p));
    }
  }

  lemma {:induction false} DrainStopAtEnd(rs: seq<ExecResult>, w: nat)
    ensures DrainStop(rs, |rs|, w) == |rs|
    decreases w
  {
    if w > 0 {
      DrainStopAtEnd(rs, w - 1);
    }
  }

  /**
   * The workers stop short of the end only once every one of them has hit a job
   * that raised: exactly `w` such jobs were taken, the last of them last. They
   * never take more than `w` of them, and once they have taken `w`, they take
   * nothing after the last.
   */
  lemma {:induction false} DrainStopCharacterised(rs: seq<ExecResult>, p: nat, w: nat)
    requires p <= |rs|
    ensures RaisedIn(rs, p, DrainStop(rs, p, w)) <= w
    ensures DrainStop(rs, p, w) < |rs| ==> RaisedIn(rs, p, DrainStop(rs, p, w)) == w
    ensures DrainStop(rs, p, w) < |rs| && w > 0 ==> p < DrainStop(rs, p, w) && EndsWorker(rs[DrainStop(rs, p, w) - 1])
    ensures w > 0 && RaisedIn(rs, p, DrainStop(rs, p, w)) == w ==>
              p < DrainStop(rs, p, w) && EndsWorker(rs[DrainStop(rs, p, w) - 1])
    decreases w
  {
    if w > 0 {
      var q1 := WorkerStop(rs, p);
      WorkerStopCharacterised(rs, p);
      DrainStopCharacterised(rs, q1, w - 1);
      RaisedInSplit(rs, p, q1, DrainStop(rs, p, w));
      if q1 == |rs| {
        DrainStopAtEnd(rs, w - 1);
      }
    }
  }

  lemma {:induction false} WorkerStopNoRaise(rs: seq<ExecResult>, p: nat)
    requires p <= |rs| && forall k :: p <= k < |rs| ==> !EndsWorker(rs[k])
    ensures WorkerStop(rs, p) == |rs|
    decreases |rs| - p
  {
    if p < |rs| {
      WorkerStopNoRaise(rs, p + 1);
    }
  }

  /** With at least one worker and no job that raises, every queued job is taken. */
  lemma NoRaiseDrainsAll(rs: seq<ExecResult>, p: nat, w: nat)
    requires p <= |rs| && w >= 1 && forall k :: p <= k < |rs| ==> !EndsWorker(rs[k])
    ensures DrainStop(rs, p, w) == |rs|
  {
    WorkerStopNoRaise(rs, p);
    DrainStopAtEnd(rs, w - 1);
  }

  function NamesOf(ms: seq<ImportMetric>): (r: seq<string>)
    ensures |r| == |ms| && forall k :: 0 <= k < |ms| ==> r[k] == ms[k].metricqName
  {
    seq(|ms|, k requires 0 <= k < |ms| => ms[k].metricqName)
  }

  // ---------------------------------------------------------------------------
  // The importer

  datatype UpdateError = ConfigMissing(token: string) | ConflictNotConfirmed(conflicts: seq<ImportMetric>)

  datatype RunOutcome =
    | NotConfirmed
    | UpdateFailed(error: UpdateError)
    | BindingFailed
    | NoWorkers
    | Completed(failedNames: seq<string>)

  /** DataheapToHTAImporter. */
  class DataheapToHtaImporter {
    const token: string
    const importHost: string
    const importUser: string
    const importPassword: string
    const importDatabase: string
    const numWorkers: nat
    /** The documents of the store's "config" database, by token. */
    var configStore: map<string, ConfigDocument>
    var metrics: seq<ImportMetric>
    var failedImports: seq<ImportMetric>
    var lastMetric: Option<ImportMetric>
    var importBegin: Option<int>
    var importConfig: Option<ImportTemplate>
    var queue: seq<ImportMetric>
    var numImportMetrics: nat
    /** The progress bar's count of finished jobs. */
    var progress: nat
    /** Every launch of the import executable, in order, including launches that raised. */
    var launched: seq<Invocation>
    /** What the queue was seeded with. */
    ghost var seeded: seq<ImportMetric>

    constructor (token: string, configStore: map<string, ConfigDocument>, importHost: string,
                 importUser: string, importPassword: string, importDatabase: string,
                 numWorkers: nat := 2)
      ensures this.token == token && this.configStore == configStore && this.numWorkers == numWorkers
      ensures this.importHost == importHost && this.importUser == importUser
      ensures this.importPassword == importPassword && this.importDatabase == importDatabase
      ensures metrics == [] && failedImports == [] && lastMetric == None && importBegin == None
      ensures importConfig == None && queue == [] && progress == 0 && launched == []
    {
      this.token, this.configStore, this.numWorkers := token, configStore, numWorkers;
      this.importHost, this.importUser := importHost, importUser;
      this.importPassword, this.importDatabase := importPassword, importDatabase;
      metrics, failedImports, lastMetric, importBegin := [], [], None, None;
      importConfig, queue, numImportMetrics, progress, launched := None, [], 0, 0, [];
      seeded := [];
    }

    /** register: appends one metric and changes nothing else. */
    method Register(metricqName: string, importName: Option<string>, samplingRate: real,
                    intervalFactor: int := 10, intervalMin: Option<real> := None,
                    intervalMax: Option<real> := None)
      requires ConstructorAllowed(samplingRate, intervalFactor, intervalMin, intervalMax)
      modifies this`metrics
      ensures metrics == old(metrics) +
                [ResolvedMetric(metricqName, importName, samplingRate, intervalFactor, intervalMin, intervalMax)]
    {
      var m := NewImportMetric(metricqName, importName, samplingRate, intervalFactor, intervalMin, intervalMax);
      metrics := metrics + [m];
    }

    function ImportMetrics(): seq<ImportMetric>
      reads this
    {
      ImportMetricsOf(metrics)
    }

    function Template(path: string): ImportTemplate
      reads this
    {
      ImportTemplate("file", 2, path, importHost, importUser, importPassword, importDatabase)
    }

    /**
     * update_config: the token's document must exist; conflicting names need
     * the operator's confirmation; then the merged list is saved and the job
     * template built from the document's path. A failure changes nothing.
     */
    method UpdateConfig(confirmOverwrite: bool) returns (error: Option<UpdateError>)
      modifies this`configStore, this`importConfig
      ensures token !in old(configStore) ==>
                error == Some(ConfigMissing(token)) &&
                configStore == old(configStore) && importConfig == old(importConfig)
      ensures token in old(configStore) ==>
                var doc := old(configStore)[token];
                var conflicts := Conflicting(metrics, doc.metrics);
                if conflicts != [] && !confirmOverwrite then
                  error == Some(ConflictNotConfirmed(conflicts)) &&
                  configStore == old(configStore) && importConfig == old(importConfig)
                else
                  error == None &&
                  configStore == old(configStore)[token := doc.(metrics := MergedMetrics(doc.metrics, metrics))] &&
                  importConfig == Some(Template(doc.path))
    {
      var configMetrics := Configs(metrics);
      if token !in configStore {
        return Some(ConfigMissing(token));
      }
      var document := configStore[token];
      var currentMetrics := document.metrics;
      var conflicts := Conflicting(metrics, currentMetrics);
      if conflicts != [] {
        if !confirmOverwrite {
          return Some(ConflictNotConfirmed(conflicts));
        }
        currentMetrics := WithoutNames(currentMetrics, MetricNames(conflicts));
      }
      currentMetrics := currentMetrics + configMetrics;
      configStore := configStore[token := document.(metrics := currentMetrics)];
      importConfig := Some(Template(document.path));
      error := None;
    }

    /** The queue holds the not yet dequeued rest of what it was seeded with. */
    ghost predicate QueueValid()
      reads this
    {
      && numImportMetrics == |seeded|
      && |queue| <= |seeded|
      && queue == seeded[|seeded| - |queue|..]
    }

    /**
     * import_metric: writes the job configuration, launches the executable and
     * records the metric as failed only on a non-zero exit; a missing executable
     * is logged and nothing is recorded. Any other launch error is not caught:
     * `raised` reports it to the worker, which it ends.
     */
    method ImportOne(metric: ImportMetric, result: ExecResult) returns (raised: bool)
      requires importConfig.Some? && importBegin.Some?
      modifies this`launched, this`failedImports
      ensures raised <==> EndsWorker(result)
      ensures launched == old(launched) + [InvocationOf(importConfig.value, importBegin.value, metric)]
      ensures failedImports == old(failedImports) + (if JobFailed(result) then [metric] else [])
    {
      var config := JobConfig(importConfig.value, [ConfigOf(metric)]);
      launched := launched + [Invocation("hta_mysql_import", metric.metricqName, ImportNameOf(metric),
                                         config, PosixMs(importBegin.value), MysqlChunkSize)];
      raised := false;
      match result
      case Exited(code) =>
        if code != 0 {
          failedImports := failedImports + [metric];
        }
      case NotFound =>
      case SpawnFailed =>
        raised := true;
    }

    /**
     * One turn of import_worker's loop: take the head of the queue and import
     * it; the progress bar advances unless the import raised.
     */
    method ImportNext(results: seq<ExecResult>, ghost p: nat) returns (raised: bool)
      requires QueueValid() && |results| == |seeded| && queue != [] && importConfig.Some? && importBegin.Some?
      requires p == |seeded| - |queue|
      modifies this`queue, this`lastMetric, this`launched, this`failedImports, this`progress
      ensures QueueValid() && queue == old(queue)[1..] && p + 1 == |seeded| - |queue|
      ensures raised <==> EndsWorker(results[p])
      ensures lastMetric == Some(seeded[p])
      ensures failedImports == old(failedImports) + (if JobFailed(results[p]) then [seeded[p]] else [])
      ensures launched == old(launched) + [InvocationOf(importConfig.value, importBegin.value, seeded[p])]
      ensures progress == old(progress) + (if raised then 0 else 1)
    {
      var k := numImportMetrics - |queue|;
      var metric := queue[0];
      assert metric == seeded[k];
      queue := queue[1..];
      assert queue == seeded[k + 1..];
      lastMetric := Some(metric);
      raised := ImportOne(metric, results[k]);
      if !raised {
        progress := progress + 1;
      }
    }

    /**
     * import_worker: dequeues until the queue is empty or an import raises,
     * which ends this worker; `results[k]` is the outcome of the k-th job taken
     * from the queue.
     */
    method ImportWorker(results: seq<ExecResult>, ghost p0: nat)
      requires QueueValid() && |results| == |seeded| && importConfig.Some? && importBegin.Some?
      requires p0 == |seeded| - |queue|
      modifies this`queue, this`lastMetric, this`launched, this`failedImports, this`progress
      ensures QueueValid() && |seeded| - |queue| == WorkerStop(results, p0)
      ensures failedImports == old(failedImports) + FailedIn(seeded, results, p0, WorkerStop(results, p0))
      ensures launched == old(launched) +
                InvocationsIn(importConfig.value, importBegin.value, seeded, p0, WorkerStop(results, p0))
      ensures lastMetric == if WorkerStop(results, p0) == p0 then old(lastMetric)
                            else Some(seeded[WorkerStop(results, p0) - 1])
      ensures progress + RaisedIn(results, p0, WorkerStop(results, p0)) == old(progress) + (WorkerStop(results, p0) - p0)
    {
      ghost var f0, l0, m0, g0 := failedImports, launched, lastMetric, progress;
      ghost var p := p0;
      var raised := false;
      while queue != [] && !raised
        invariant QueueValid() && p == |seeded| - |queue| && p0 <= p
        invariant raised ==> p0 < p && EndsWorker(results[p - 1]) && WorkerStop(results, p0) == p
        invariant !raised ==> WorkerStop(results, p0) == WorkerStop(results, p)
        invariant failedImports == f0 + FailedIn(seeded, results, p0, p)
        invariant launched == l0 + InvocationsIn(importConfig.value, importBegin.value, seeded, p0, p)
        invariant lastMetric == if p == p0 then m0 else Some(seeded[p - 1])
        invariant progress + RaisedIn(results, p0, p) == g0 + (p - p0)
        decreases |queue|
      {
        raised := ImportNext(results, p);
        p := p + 1;
      }
    }

    /**
     * The workers of import_main, one after another, each taking jobs until the
     * queue is empty or one of its imports raises.
     */
    method RunWorkers(results: seq<ExecResult>, ghost p0: nat, workers: nat)
      requires QueueValid() && |results| == |seeded| && importConfig.Some? && importBegin.Some?
      requires p0 == |seeded| - |queue|
      modifies this`queue, this`lastMetric, this`launched, this`failedImports, this`progress
      ensures QueueValid() && |seeded| - |queue| == DrainStop(results, p0, workers)
      ensures failedImports == old(failedImports) + FailedIn(seeded, results, p0, DrainStop(results, p0, workers))
      ensures launched == old(launched) +
                InvocationsIn(importConfig.value, importBegin.value, seeded, p0, DrainStop(results, p0, workers))
      ensures lastMetric == if DrainStop(results, p0, workers) == p0 then old(lastMetric)
                            else Some(seeded[DrainStop(results, p0, workers) - 1])
      ensures progress + RaisedIn(results, p0, DrainStop(results, p0, workers))
              == old(progress) + (DrainStop(results, p0, workers) - p0)
    {
      ghost var f0, l0, m0, g0 := failedImports, launched, lastMetric, progress;
      ghost var p := p0;
      for w := 0 to workers
        invariant QueueValid() && p == |seeded| - |queue| && p0 <= p
        invariant DrainStop(results, p0, workers) == DrainStop(results, p, workers - w)
        invariant failedImports == f0 + FailedIn(seeded, results, p0, p)
        invariant launched == l0 + InvocationsIn(importConfig.value, importBegin.value, seeded, p0, p)
        invariant lastMetric == if p == p0 then m0 else Some(seeded[p - 1])
        invariant progress + RaisedIn(results, p0, p) == g0 + (p - p0)
      {
        ImportWorker(results, p);
        ghost var q := WorkerStop(results, p);
        FailedInSplit(seeded, results, p0, p, q);
        InvocationsInSplit(importConfig.value, importBegin.value, seeded, p0, p, q);
        RaisedInSplit(results, p0, p, q);
        p := q;
      }
    }

    /**
     * import_main: runs the workers. With no workers asyncio.wait is given an
     * empty set and raises ValueError before any job runs: `started` is false.
     */
    method ImportMain(results: seq<ExecResult>, ghost p0: nat) returns (started: bool)
      requires QueueValid() && |results| == |seeded| && importConfig.Some? && importBegin.Some?
      requires p0 == |seeded| - |queue|
      modifies this`queue, this`lastMetric, this`launched, this`failedImports, this`progress
      ensures started <==> numWorkers >= 1
      ensures !started ==> queue == old(queue) && lastMetric == old(lastMetric) && launched == old(launched) &&
                           failedImports == old(failedImports) && progress == old(progress)
      ensures QueueValid()
      ensures started ==> |seeded| - |queue| == DrainStop(results, p0, numWorkers)
      ensures started ==> failedImports == old(failedImports) + FailedIn(seeded, results, p0, DrainStop(results, p0, numWorkers))
      ensures started ==>
                launched == old(launched) +
                  InvocationsIn(importConfig.value, importBegin.value, seeded, p0, DrainStop(results, p0, numWorkers))
      ensures started ==> lastMetric == if DrainStop(results, p0, numWorkers) == p0 then old(lastMetric)
                                        else Some(seeded[DrainStop(results, p0, numWorkers) - 1])
      ensures started ==> progress + RaisedIn(results, p0, DrainStop(results, p0, numWorkers))
                          == old(progress) + (DrainStop(results, p0, numWorkers) - p0)
    {
      if numWorkers == 0 {
        return false;
      }
      RunWorkers(results, p0, numWorkers);
      started := true;
    }

    /**
     * run_import: the queue is seeded with the import metrics, in registration
     * order, and drained by the workers.
     */
    method RunImport(results: seq<ExecResult>) returns (started: bool)
      requires importConfig.Some? && importBegin.Some?
      requires |results| == |ImportMetrics()|
      modifies this`queue, this`seeded, this`numImportMetrics, this`lastMetric, this`launched,
               this`failedImports, this`progress
      ensures seeded == ImportMetrics() && numImportMetrics == |ImportMetrics()|
      ensures started <==> numWorkers >= 1
      ensures !started ==> queue == ImportMetrics() && lastMetric == old(lastMetric) && launched == old(launched) &&
                           failedImports == old(failedImports) && progress == old(progress)
      ensures started ==>
                var stop := DrainStop(results, 0, numWorkers);
                && queue == ImportMetrics()[stop..]
                && failedImports == old(failedImports) + FailedIn(ImportMetrics(), results, 0, stop)
                && launched == old(launched) + InvocationsIn(importConfig.value, importBegin.value, ImportMetrics(), 0, stop)
                && lastMetric == (if stop == 0 then old(lastMetric) else Some(ImportMetrics()[stop - 1]))
                && progress + RaisedIn(results, 0, stop) == old(progress) + stop
    {
      var jobs := ImportMetricsOf(metrics);
      queue, seeded, numImportMetrics := jobs, jobs, |jobs|;
      assert jobs[0..] == jobs;
      started := ImportMain(results, 0);
    }

    /** Whether update_config gets through for these registered metrics and the operator's answer. */
    ghost predicate ConfigAccepted(store: map<string, ConfigDocument>, confirmOverwrite: bool)
      reads this
    {
      token in store && (Conflicting(metrics, store[token].metrics) == [] || confirmOverwrite)
    }

    /**
     * run: the operator confirms, the configuration is merged, the broker
     * bindings are registered, the cutoff taken, and the import metrics
     * imported; the names of the failed metrics are reported. Each step that
     * fails ends the run with the later steps not taken.
     */
    method Run(confirmRun: bool, confirmOverwrite: bool, bindingsRegistered: bool, now: int,
               results: seq<ExecResult>) returns (outcome: RunOutcome)
      requires importBegin.None?
      requires |results| == |ImportMetrics()|
      modifies this`configStore, this`importConfig, this`importBegin, this`queue, this`seeded,
               this`numImportMetrics, this`lastMetric, this`launched, this`failedImports, this`progress
      ensures metrics == old(metrics)
      // which exit the run takes
      ensures outcome.NotConfirmed? <==> !confirmRun
      ensures outcome.UpdateFailed? <==> confirmRun && !ConfigAccepted(old(configStore), confirmOverwrite)
      ensures outcome.BindingFailed? <==>
                confirmRun && ConfigAccepted(old(configStore), confirmOverwrite) && !bindingsRegistered
      ensures outcome.NoWorkers? <==>
                confirmRun && ConfigAccepted(old(configStore), confirmOverwrite) && bindingsRegistered &&
                numWorkers == 0
      ensures outcome.Completed? <==>
                confirmRun && ConfigAccepted(old(configStore), confirmOverwrite) && bindingsRegistered &&
                numWorkers >= 1
      ensures confirmRun && token !in old(configStore) ==> outcome == UpdateFailed(ConfigMissing(token))
      ensures confirmRun && token in old(configStore) && !confirmOverwrite &&
              Conflicting(metrics, old(configStore)[token].metrics) != [] ==>
                outcome == UpdateFailed(ConflictNotConfirmed(Conflicting(metrics, old(configStore)[token].metrics)))
      // the two exits before the document is saved change nothing
      ensures outcome.NotConfirmed? || outcome.UpdateFailed? ==>
                && configStore == old(configStore) && importConfig == old(importConfig)
                && importBegin == None && failedImports == old(failedImports) && launched == old(launched)
                && queue == old(queue) && lastMetric == old(lastMetric) && progress == old(progress)
                && numImportMetrics == old(numImportMetrics)
      // every later exit has saved the merged document and built the job template from it
      ensures !outcome.NotConfirmed? && !outcome.UpdateFailed? ==>
                && token in old(configStore)
                && configStore == old(configStore)[token := old(configStore)[token].(
                                    metrics := MergedMetrics(old(configStore)[token].metrics, metrics))]
                && importConfig == Some(Template(old(configStore)[token].path))
      ensures outcome.BindingFailed? ==>
                && importBegin == None && failedImports == old(failedImports) && launched == old(launched)
                && queue == old(queue) && lastMetric == old(lastMetric) && progress == old(progress)
                && numImportMetrics == old(numImportMetrics)
      ensures outcome.NoWorkers? ==>
                && importBegin == Some(now) && queue == ImportMetrics() && numImportMetrics == |ImportMetrics()|
                && failedImports == old(failedImports) && launched == old(launched) && progress == old(progress)
                && lastMetric == old(lastMetric)
      ensures outcome.Completed? ==>
                var stop := DrainStop(results, 0, numWorkers);
                && importBegin == Some(now)
                && failedImports == old(failedImports) + FailedIn(ImportMetrics(), results, 0, stop)
                && outcome.failedNames == NamesOf(failedImports)
                && launched == old(launched) +
                     InvocationsIn(Template(old(configStore)[token].path), now, ImportMetrics(), 0, stop)
                && queue == ImportMetrics()[stop..] && numImportMetrics == |ImportMetrics()|
                && lastMetric == (if stop == 0 then old(lastMetric) else Some(ImportMetrics()[stop - 1]))
                && progress + RaisedIn(results, 0, stop) == old(progress) + stop
    {
      if !confirmRun {
        return NotConfirmed;
      }
      var error := UpdateConfig(confirmOverwrite);
      if error.Some? {
        return UpdateFailed(error.value);
      }
      if !bindingsRegistered {
        return BindingFailed;
      }
      importBegin := Some(now);
      var started := RunImport(results);
      if !started {
        return NoWorkers;
      }
      outcome := Completed(NamesOf(failedImports));
    }
  }
}
