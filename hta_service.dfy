/**
 * The asynchronous HTA database service (src/async_hta_service.hpp): the
 * input-to-metric name mapping, configuration and reconfiguration, the write
 * filter for incoming chunks and the history responses.
 * Thread pool, strands and locks are left out: every posted task is run at once,
 * in order. The archive is left out: a write returns what it would insert, a
 * read takes the retrieved data as input.
 */
module HtaService {
  import opened Wrappers
  import opened TimeSeries

  datatype ServiceError =
    | AmbiguousInput(input: string, name: string)   // `name` is already the target of a mapping
    | DuplicatedInput(input: string)                // `input` is already mapped
    | MissingThreads
    | MissingMetrics
    | MetricsNotAnObject
    | PrefixNotSupported(name: string)
    | InvalidThreads(threads: int)
    | ThreadsChanged(threads: int, configured: int)

  datatype Outcome = Pass | Fail(error: ServiceError)

  /** The part of one metric's configuration the service reads. */
  datatype MetricEntry = MetricEntry(prefix: Option<bool>, input: Option<string>)

  /** The "metrics" member of a configuration: an object (entries in iteration order) or anything else. */
  datatype MetricsValue = NotAnObject | Object(entries: seq<(string, MetricEntry)>)

  datatype LoggingSection = LoggingSection(nanValues: Option<bool>, nonMonotonicValues: Option<bool>)

  datatype Config = Config(threads: Option<int>, metrics: Option<MetricsValue>,
                           logging: Option<LoggingSection>)

  /** Whether skipped NaN and non-monotonic values are reported; both default to true. */
  datatype LoggingConfig = LoggingConfig(nanValues: bool, nonMonotonicValues: bool)

  datatype SubscribeEntry = SubscribeEntry(input: string, name: string)

  /** The name mapping: input name to metric name, and the metric names already used. */
  datatype MappingState = MappingState(inputs: map<string, string>, names: set<string>)

  ghost predicate Injective(m: map<string, string>)
  {
    forall a, b :: a in m && b in m && a != b ==> m[a] != m[b]
  }

  /** The used names are exactly the mapping's targets, and no two inputs share a target. */
  ghost predicate MappingInvariant(s: MappingState)
  {
    s.names == s.inputs.Values && Injective(s.inputs)
  }

  /** register_input_mapping_ on the abstract state. */
  function Register(s: MappingState, input: string, name: string): Result<MappingState, ServiceError>
  {
    if name in s.names then Err(AmbiguousInput(input, name))
    else if input in s.inputs then Err(DuplicatedInput(input))
    else Ok(MappingState(s.inputs[input := name], s.names + {name}))
  }

  /** A successful registration keeps the mapping injective and the used names in step. */
  lemma RegisterKeepsInvariant(s: MappingState, input: string, name: string)
    requires MappingInvariant(s) && Register(s, input, name).Ok?
    ensures MappingInvariant(Register(s, input, name).value)
    ensures Register(s, input, name).value.inputs[input] == name
  {
    var t := Register(s, input, name).value;
    assert t.inputs.Values == s.inputs.Values + {name} by {
      forall v | v in t.inputs.Values ensures v in s.inputs.Values + {name} {
        var k :| k in t.inputs && t.inputs[k] == v;
        if k != input { assert s.inputs[k] == v; }
      }
      forall v | v in s.inputs.Values + {name} ensures v in t.inputs.Values {
        if v == name {
          assert t.inputs[input] == v;
        } else {
          var k :| k in s.inputs && s.inputs[k] == v;
          assert t.inputs[k] == v;
        }
      }
    }
  }

  /** A metric's input name: its "input" member, or else its own name. */
  function InputOf(name: string, entry: MetricEntry): string
  {
    if entry.input.Some? then entry.input.value else name
  }

  /** The mapping after a setup pass over `entries`, and the error that stopped it, if any. */
  datatype SetupResult = SetupResult(state: MappingState, error: Option<ServiceError>)

  /**
   * The registration loop of a configuration pass. On reconfiguration
   * (`skipMapped`) a metric whose name is already used is skipped. The first
   * failing registration stops the pass; what was registered before it stays.
   */
  function SetupMappings(s: MappingState, entries: seq<(string, MetricEntry)>, skipMapped: bool): SetupResult
    decreases |entries|
  {
    if entries == [] then SetupResult(s, None)
    else
      var name := entries[0].0;
      if skipMapped && name in s.names then SetupMappings(s, entries[1..], skipMapped)
      else match Register(s, InputOf(name, entries[0].1), name)
        case Err(e) => SetupResult(s, Some(e))
        case Ok(t) => SetupMappings(t, entries[1..], skipMapped)
  }

  /** A setup pass keeps the invariant, and it only adds: no mapping is removed or changed. */
  lemma {:induction false} SetupOnlyAdds(s: MappingState, entries: seq<(string, MetricEntry)>, skipMapped: bool)
    requires MappingInvariant(s)
    ensures MappingInvariant(SetupMappings(s, entries, skipMapped).state)
    ensures forall i :: i in s.inputs ==>
              i in SetupMappings(s, entries, skipMapped).state.inputs &&
              SetupMappings(s, entries, skipMapped).state.inputs[i] == s.inputs[i]
    ensures s.names <= SetupMappings(s, entries, skipMapped).state.names
    decreases |entries|
  {
    if entries != [] {
      var name := entries[0].0;
      if skipMapped && name in s.names {
        SetupOnlyAdds(s, entries[1..], skipMapped);
      } else {
        match Register(s, InputOf(name, entries[0].1), name)
        case Err(e) =>
        case Ok(t) =>
          RegisterKeepsInvariant(s, InputOf(name, entries[0].1), name);
          SetupOnlyAdds(t, entries[1..], skipMapped);
      }
    }
  }

  /**
   * A pass that completes leaves every configured metric mapped: on the initial
   * configuration from its input name, on reconfiguration at least by its name.
   */
  lemma {:induction false} SetupMapsEveryMetric(s: MappingState, entries: seq<(string, MetricEntry)>, skipMapped: bool)
    requires MappingInvariant(s)
    requires SetupMappings(s, entries, skipMapped).error == None
    ensures forall k :: 0 <= k < |entries| ==> entries[k].0 in SetupMappings(s, entries, skipMapped).state.names
    ensures !skipMapped ==> forall k :: 0 <= k < |entries| ==>
              var r := SetupMappings(s, entries, skipMapped).state;
              InputOf(entries[k].0, entries[k].1) in r.inputs &&
              r.inputs[InputOf(entries[k].0, entries[k].1)] == entries[k].0
    decreases |entries|
  {
    if entries != [] {
      var name := entries[0].0;
      var r := SetupMappings(s, entries, skipMapped).state;
      if skipMapped && name in s.names {
        SetupMapsEveryMetric(s, entries[1..], skipMapped);
        SetupOnlyAdds(s, entries[1..], skipMapped);
      } else {
        var t := Register(s, InputOf(name, entries[0].1), name).value;
        RegisterKeepsInvariant(s, InputOf(name, entries[0].1), name);
        SetupMapsEveryMetric(t, entries[1..], skipMapped);
        SetupOnlyAdds(t, entries[1..], skipMapped);
      }
      forall k | 1 <= k < |entries|
        ensures entries[k] == entries[1..][k - 1]
      {
      }
    }
  }

  /**
   * The names a reconfiguration pass emplaces into the directory: each metric
   * whose name is not yet used, before its registration is tried, up to and
   * including the first registration that fails.
   */
  function EmplacedNames(s: MappingState, entries: seq<(string, MetricEntry)>): set<string>
    decreases |entries|
  {
    if entries == [] then {}
    else
      var name := entries[0].0;
      if name in s.names then EmplacedNames(s, entries[1..])
      else match Register(s, InputOf(name, entries[0].1), name)
        case Err(_) => {name}
        case Ok(t) => {name} + EmplacedNames(t, entries[1..])
  }

  /**
   * A reconfiguration emplaces only names that were not used before, every
   * name its pass newly maps among them, and, when the pass completes,
   * exactly those.
   */
  lemma {:induction false} EmplacedNamesOfPass(s: MappingState, entries: seq<(string, MetricEntry)>)
    requires MappingInvariant(s)
    ensures EmplacedNames(s, entries) * s.names == {}
    ensures SetupMappings(s, entries, true).state.names - s.names <= EmplacedNames(s, entries)
    ensures SetupMappings(s, entries, true).error.None? ==>
              EmplacedNames(s, entries) == SetupMappings(s, entries, true).state.names - s.names
    decreases |entries|
  {
    if entries != [] {
      var name := entries[0].0;
      if name in s.names {
        EmplacedNamesOfPass(s, entries[1..]);
      } else {
        match Register(s, InputOf(name, entries[0].1), name)
        case Err(_) =>
        case Ok(t) =>
          RegisterKeepsInvariant(s, InputOf(name, entries[0].1), name);
          EmplacedNamesOfPass(t, entries[1..]);
          SetupOnlyAdds(t, entries[1..], true);
      }
    }
  }

  /** Reconfiguring with metrics that are all mapped already changes nothing. */
  lemma {:induction false} ReconfigureWithKnownMetrics(s: MappingState, entries: seq<(string, MetricEntry)>)
    requires forall k :: 0 <= k < |entries| ==> entries[k].0 in s.names
    ensures SetupMappings(s, entries, true) == SetupResult(s, None)
    decreases |entries|
  {
    if entries != [] {
      assert entries[0].0 in s.names;
      ReconfigureWithKnownMetrics(s, entries[1..]);
    }
  }

  /** get_subscribe_metrics: one {input, name} pair per mapped input. */
  function SubscribeMetrics(inputs: map<string, string>): (r: set<SubscribeEntry>)
    ensures forall e :: e in r <==> e.input in inputs && inputs[e.input] == e.name
  {
    set i | i in inputs :: SubscribeEntry(i, inputs[i])
  }

  /** LoggingConfig's constructor: each flag present in the section wins over its default. */
  function ParseLogging(section: Option<LoggingSection>): (r: LoggingConfig)
    ensures section.None? ==> r == LoggingConfig(true, true)
    ensures section.Some? && section.value.nanValues.Some? ==> r.nanValues == section.value.nanValues.value
    ensures section.Some? && section.value.nanValues.None? ==> r.nanValues
    ensures section.Some? && section.value.nonMonotonicValues.Some? ==>
              r.nonMonotonicValues == section.value.nonMonotonicValues.value
    ensures section.Some? && section.value.nonMonotonicValues.None? ==> r.nonMonotonicValues
  {
    match section
    case None => LoggingConfig(true, true)
    case Some(l) =>
      LoggingConfig(if l.nanValues.Some? then l.nanValues.value else true,
                    if l.nonMonotonicValues.Some? then l.nonMonotonicValues.value else true)
  }

  /** The name of the first metric with a true "prefix" member, if any. */
  function FirstPrefixMetric(entries: seq<(string, MetricEntry)>): (r: Option<string>)
    ensures r.None? <==> forall k :: 0 <= k < |entries| ==> entries[k].1.prefix != Some(true)
    ensures r.Some? ==> exists k :: 0 <= k < |entries| && entries[k].0 == r.value && entries[k].1.prefix == Some(true)
    decreases |entries|
  {
    if entries == [] then None
    else if entries[0].1.prefix == Some(true) then Some(entries[0].0)
    else
      var rest := FirstPrefixMetric(entries[1..]);
      assert forall k :: 1 <= k < |entries| ==> entries[k] == entries[1..][k - 1];
      rest
  }

  /** The configuration passes the checks made before the pool is looked at. */
  predicate Validated(config: Config)
  {
    && config.threads.Some?
    && config.metrics.Some?
    && config.metrics.value.Object?
    && FirstPrefixMetric(config.metrics.value.entries).None?
  }

  function EntryNames(entries: seq<(string, MetricEntry)>): set<string>
  {
    set k | 0 <= k < |entries| :: entries[k].0
  }

  // ---------------------------------------------------------------------------
  // The service object

  class AsyncHtaService {
    var inputMapping: map<string, string>
    var mappedMetrics: set<string>
    var hasPool: bool
    var poolThreads: int
    /** The metric names of the archive directory, once it exists. */
    var directory: Option<set<string>>
    var logging: LoggingConfig

    ghost function State(): MappingState
      reads this
    {
      MappingState(inputMapping, mappedMetrics)
    }

    ghost predicate Valid()
      reads this
    {
      && MappingInvariant(State())
      && (hasPool ==> poolThreads >= 1 && directory.Some?)
      && (!hasPool ==> poolThreads == 0 && directory.None?)
    }

    constructor ()
      ensures Valid()
      ensures inputMapping == map[] && mappedMetrics == {}
      ensures !hasPool && poolThreads == 0 && directory == None
      ensures logging == LoggingConfig(true, true)
    {
      inputMapping, mappedMetrics := map[], {};
      hasPool, poolThreads, directory := false, 0, None;
      logging := LoggingConfig(true, true);
    }

    /**
     * register_input_mapping_: refuses a name that is already a target, then an
     * input that is already mapped; otherwise adds input -> name.
     */
    method RegisterInputMapping(input: string, name: string) returns (outcome: Outcome)
      requires Valid()
      modifies this`inputMapping, this`mappedMetrics
      ensures Valid()
      ensures match Register(old(State()), input, name)
              case Ok(t) => outcome == Pass && State() == t
              case Err(e) => outcome == Fail(e) && State() == old(State())
    {
      if name in mappedMetrics {
        return Fail(AmbiguousInput(input, name));
      }
      if input in inputMapping {
        return Fail(DuplicatedInput(input));
      }
      RegisterKeepsInvariant(State(), input, name);
      inputMapping := inputMapping[input := name];
      mappedMetrics := mappedMetrics + {name};
      outcome := Pass;
    }

    /**
     * get_mapped_name_: the existing mapping with no change; otherwise the
     * identity mapping input -> input is registered, which fails when `input`
     * is already used as a metric name.
     */
    method GetMappedName(input: string) returns (result: Result<string, ServiceError>)
      requires Valid()
      modifies this`inputMapping, this`mappedMetrics
      ensures Valid()
      ensures input in old(inputMapping) ==>
                result == Ok(old(inputMapping)[input]) && State() == old(State())
      ensures input !in old(inputMapping) && input in old(mappedMetrics) ==>
                result == Err(AmbiguousInput(input, input)) && State() == old(State())
      ensures input !in old(inputMapping) && input !in old(mappedMetrics) ==>
                result == Ok(input) &&
                inputMapping == old(inputMapping)[input := input] &&
                mappedMetrics == old(mappedMetrics) + {input}
    {
      if input in inputMapping {
        return Ok(inputMapping[input]);
      }
      var outcome := RegisterInputMapping(input, input);
      if outcome.Fail? {
        return Err(outcome.error);
      }
      result := Ok(input);
    }

    /**
     * The registration loop of the posted configuration task; on reconfiguration
     * a metric not yet mapped is first added to the directory.
     */
    method RegisterMetrics(entries: seq<(string, MetricEntry)>, reconfigure: bool)
      returns (error: Option<ServiceError>)
      requires Valid()
      modifies this`inputMapping, this`mappedMetrics, this`directory
      ensures Valid()
      ensures SetupMappings(old(State()), entries, reconfigure) == SetupResult(State(), error)
      ensures old(directory).None? ==> directory.None?
      ensures old(directory).Some? ==> directory.Some? && old(directory).value <= directory.value
      ensures !reconfigure ==> directory == old(directory)
      ensures reconfigure && old(directory).Some? ==>
                directory == Some(old(directory).value + EmplacedNames(old(State()), entries))
    {
      ghost var result := SetupMappings(State(), entries, reconfigure);
      var i := 0;
      assert entries[0..] == entries;
      while i < |entries|
        invariant 0 <= i <= |entries|
        invariant Valid()
        invariant SetupMappings(State(), entries[i..], reconfigure) == result
        invariant old(directory).None? ==> directory.None?
        invariant old(directory).Some? ==> directory.Some? && old(directory).value <= directory.value
        invariant !reconfigure ==> directory == old(directory)
        invariant reconfigure && old(directory).Some? ==>
                    directory.Some? &&
                    directory.value + EmplacedNames(State(), entries[i..]) ==
                      old(directory).value + EmplacedNames(old(State()), entries)
      {
        var (name, entry) := entries[i];
        assert entries[i..][1..] == entries[i + 1..];
        if reconfigure && name in mappedMetrics {
          i := i + 1;
          continue;
        }
        if reconfigure && directory.Some? {
          directory := Some(directory.value + {name});
        }
        ghost var before := State();
        var outcome := RegisterInputMapping(InputOf(name, entry), name);
        if outcome.Fail? {
          assert reconfigure ==> EmplacedNames(before, entries[i..]) == {name};
          return Some(outcome.error);
        }
        i := i + 1;
      }
      assert entries[i..] == [];
      assert reconfigure && old(directory).Some? ==> directory.value == old(directory).value + EmplacedNames(old(State()), entries);
      error := None;
    }

    /**
     * async_config: validation, then either the initial configuration (the pool
     * is created with `threads` workers and every metric is mapped) or a
     * reconfiguration (same thread count; only metrics not yet mapped are added).
     * On success the subscription list of the whole mapping is handed on.
     */
    method AsyncConfig(config: Config) returns (result: Result<set<SubscribeEntry>, ServiceError>)
      requires Valid()
      modifies this
      ensures Valid()
      ensures config.threads.None? ==> result == Err(MissingThreads)
      ensures config.threads.Some? && config.metrics.None? ==> result == Err(MissingMetrics)
      ensures config.threads.Some? && config.metrics == Some(NotAnObject) ==> result == Err(MetricsNotAnObject)
      ensures config.threads.Some? && config.metrics.Some? && config.metrics.value.Object? &&
              FirstPrefixMetric(config.metrics.value.entries).Some? ==>
                result == Err(PrefixNotSupported(FirstPrefixMetric(config.metrics.value.entries).value))
      // a rejected configuration changes nothing, except that the logging section is taken
      // over as soon as validation passes
      ensures !Validated(config) ==>
                && State() == old(State()) && logging == old(logging) && hasPool == old(hasPool)
                && poolThreads == old(poolThreads) && directory == old(directory)
      ensures Validated(config) ==> logging == ParseLogging(config.logging)
      ensures Validated(config) && !old(hasPool) && config.threads.value < 1 ==>
                && result == Err(InvalidThreads(config.threads.value)) && State() == old(State()) && !hasPool
                && poolThreads == old(poolThreads) && directory == old(directory)
      ensures Validated(config) && old(hasPool) && config.threads.value != old(poolThreads) ==>
                && result == Err(ThreadsChanged(config.threads.value, old(poolThreads))) && State() == old(State())
                && directory == old(directory)
      // a configured service never changes its thread count
      ensures old(hasPool) ==> hasPool && poolThreads == old(poolThreads)
      ensures hasPool ==> poolThreads >= 1
      ensures !old(hasPool) && result.Ok? ==> hasPool && poolThreads == config.threads.value
      // existing mappings are never removed or changed
      ensures forall i :: i in old(inputMapping) ==> i in inputMapping && inputMapping[i] == old(inputMapping)[i]
      ensures old(mappedMetrics) <= mappedMetrics
      ensures result.Ok? ==> result.value == SubscribeMetrics(inputMapping)
      ensures result.Ok? ==> forall k :: 0 <= k < |config.metrics.value.entries| ==>
                               config.metrics.value.entries[k].0 in mappedMetrics
      ensures result.Ok? && old(hasPool) ==>
                SetupMappings(old(State()), config.metrics.value.entries, true) == SetupResult(State(), None)
      ensures result.Ok? && !old(hasPool) ==>
                SetupMappings(old(State()), config.metrics.value.entries, false) == SetupResult(State(), None)
      // a configuration that passes every check made before the task is posted is
      // applied: the pool exists with the configured thread count, the mapping is
      // what the registration pass leaves (also when that pass stops at an error),
      // and the reply is the pass's error or else the subscription list
      ensures Validated(config) && (old(hasPool) ==> config.threads.value == old(poolThreads)) &&
              (!old(hasPool) ==> config.threads.value >= 1) ==>
                var pass := SetupMappings(old(State()), config.metrics.value.entries, old(hasPool));
                && hasPool && poolThreads == config.threads.value
                && State() == pass.state
                && (pass.error.None? ==> result == Ok(SubscribeMetrics(inputMapping)))
                && (pass.error.Some? ==> result == Err(pass.error.value))
      // the first configuration builds the directory from every configured metric,
      // even when the registration pass then fails
      ensures Validated(config) && !old(hasPool) && config.threads.value >= 1 ==>
                directory == Some(EntryNames(config.metrics.value.entries))
      // a reconfiguration only adds to the directory, and what it adds is what its pass emplaces
      ensures old(hasPool) ==> old(directory).Some? && directory.Some? && old(directory).value <= directory.value
      ensures Validated(config) && old(hasPool) && config.threads.value == old(poolThreads) ==>
                directory == Some(old(directory).value + EmplacedNames(old(State()), config.metrics.value.entries))
    {
      if config.threads.None? {
        return Err(MissingThreads);
      }
      var threads := config.threads.value;
      if config.metrics.None? {
        return Err(MissingMetrics);
      }
      if config.metrics.value.NotAnObject? {
        return Err(MetricsNotAnObject);
      }
      var entries := config.metrics.value.entries;
      var prefixed := FirstPrefixMetric(entries);
      if prefixed.Some? {
        return Err(PrefixNotSupported(prefixed.value));
      }
      logging := ParseLogging(config.logging);
      ghost var before := State();
      var error;
      if !hasPool {
        if threads < 1 {
          return Err(InvalidThreads(threads));
        }
        hasPool, poolThreads := true, threads;
        directory := Some(EntryNames(entries));
        error := RegisterMetrics(entries, false);
      } else {
        if threads != poolThreads {
          return Err(ThreadsChanged(threads, poolThreads));
        }
        error := RegisterMetrics(entries, true);
      }
      SetupOnlyAdds(before, entries, old(hasPool));
      if error.Some? {
        return Err(error.value);
      }
      SetupMapsEveryMetric(before, entries, old(hasPool));
      result := Ok(SubscribeMetrics(inputMapping));
    }
  }

  // ---------------------------------------------------------------------------
  // write_: the chunk filter

  /** The samples write_ inserts: later than the running maximum (initially the range end) and not NaN. */
  function WriteFilter(chunk: seq<TimeValue>, maxTs: int): seq<TimeValue>
  {
    if chunk == [] then []
    else if chunk[0].time <= maxTs then WriteFilter(chunk[1..], maxTs)
    else if IsNaN(chunk[0].value) then WriteFilter(chunk[1..], maxTs)
    else [chunk[0]] + WriteFilter(chunk[1..], chunk[0].time)
  }

  /** How many samples write_ skips as non-monotonic. */
  function SkippedNonMonotonic(chunk: seq<TimeValue>, maxTs: int): nat
  {
    if chunk == [] then 0
    else if chunk[0].time <= maxTs then 1 + SkippedNonMonotonic(chunk[1..], maxTs)
    else if IsNaN(chunk[0].value) then SkippedNonMonotonic(chunk[1..], maxTs)
    else SkippedNonMonotonic(chunk[1..], chunk[0].time)
  }

  /** How many samples write_ skips as NaN. */
  function SkippedNaN(chunk: seq<TimeValue>, maxTs: int): nat
  {
    if chunk == [] then 0
    else if chunk[0].time <= maxTs then SkippedNaN(chunk[1..], maxTs)
    else if IsNaN(chunk[0].value) then 1 + SkippedNaN(chunk[1..], maxTs)
    else SkippedNaN(chunk[1..], chunk[0].time)
  }

  ghost predicate StrictlyIncreasing(s: seq<TimeValue>)
  {
    forall j, k :: 0 <= j < k < |s| ==> s[j].time < s[k].time
  }

  /**
   * What write_ inserts is strictly increasing in time, later than the range end,
   * free of NaN and taken from the chunk; every sample is counted exactly once.
   */
  lemma {:induction false} WriteFilterProperties(chunk: seq<TimeValue>, maxTs: int)
    ensures StrictlyIncreasing(WriteFilter(chunk, maxTs))
    ensures forall tv :: tv in WriteFilter(chunk, maxTs) ==> tv in chunk && tv.time > maxTs && !IsNaN(tv.value)
    ensures |WriteFilter(chunk, maxTs)| + SkippedNonMonotonic(chunk, maxTs) + SkippedNaN(chunk, maxTs) == |chunk|
  {
    if chunk != [] {
      if chunk[0].time <= maxTs || IsNaN(chunk[0].value) {
        WriteFilterProperties(chunk[1..], maxTs);
      } else {
        WriteFilterProperties(chunk[1..], chunk[0].time);
        var rest := WriteFilter(chunk[1..], chunk[0].time);
        assert WriteFilter(chunk, maxTs) == [chunk[0]] + rest;
        forall j, k | 0 <= j < k < |[chunk[0]] + rest|
          ensures ([chunk[0]] + rest)[j].time < ([chunk[0]] + rest)[k].time
        {
          if j == 0 {
            assert rest[k - 1] in rest;
          } else {
            assert ([chunk[0]] + rest)[j] == rest[j - 1];
          }
        }
      }
    }
  }

  /**
   * A NaN later than the running maximum is skipped and counted as NaN, and it
   * does not raise the maximum: the rest of the chunk is filtered as if it were
   * absent. (The legacy sink inserts it.)
   */
  lemma NaNIsSkipped(t: int, maxTs: int, rest: seq<TimeValue>)
    requires t > maxTs
    ensures WriteFilter([TimeValue(t, NaN)] + rest, maxTs) == WriteFilter(rest, maxTs)
    ensures SkippedNaN([TimeValue(t, NaN)] + rest, maxTs) == 1 + SkippedNaN(rest, maxTs)
    ensures SkippedNonMonotonic([TimeValue(t, NaN)] + rest, maxTs) == SkippedNonMonotonic(rest, maxTs)
  {
    assert ([TimeValue(t, NaN)] + rest)[1..] == rest;
  }

  /**
   * write_'s loop over a chunk. `rangeEnd` is the end of the metric's stored
   * range; `inserted` is what is handed to the archive, in order.
   */
  method Write(chunk: seq<TimeValue>, rangeEnd: int)
    returns (inserted: seq<TimeValue>, skipNonMonotonic: nat, skipNaN: nat)
    ensures inserted == WriteFilter(chunk, rangeEnd)
    ensures skipNonMonotonic == SkippedNonMonotonic(chunk, rangeEnd)
    ensures skipNaN == SkippedNaN(chunk, rangeEnd)
    ensures StrictlyIncreasing(inserted)
    ensures forall tv :: tv in inserted ==> tv in chunk && tv.time > rangeEnd && !IsNaN(tv.value)
    ensures |inserted| + skipNonMonotonic + skipNaN == |chunk|
  {
    var maxTs := rangeEnd;
    inserted, skipNonMonotonic, skipNaN := [], 0, 0;
    for i := 0 to |chunk|
      invariant inserted + WriteFilter(chunk[i..], maxTs) == WriteFilter(chunk, rangeEnd)
      invariant skipNonMonotonic + SkippedNonMonotonic(chunk[i..], maxTs) == SkippedNonMonotonic(chunk, rangeEnd)
      invariant skipNaN + SkippedNaN(chunk[i..], maxTs) == SkippedNaN(chunk, rangeEnd)
    {
      var tv := chunk[i];
      assert chunk[i..][1..] == chunk[i + 1..];
      if tv.time <= maxTs {
        skipNonMonotonic := skipNonMonotonic + 1;
        continue;
      }
      if IsNaN(tv.value) {
        skipNaN := skipNaN + 1;
        continue;
      }
      maxTs := tv.time;
      inserted := inserted + [tv];
    }
    WriteFilterProperties(chunk, rangeEnd);
  }

  // ---------------------------------------------------------------------------
  // read_: history responses

  /** A history request together with what the archive returned for it. */
  datatype HistoryData =
    | AggregateTimeline(rows: seq<Row>)
    | FlexRows(rows: seq<Row>)
    | FlexValues(values: seq<TimeValue>)
    | AggregateOver(startTime: int, aggregate: Aggregate)
    | LastValue(values: seq<TimeValue>)
    | UnknownType

  datatype HistoryResponse = HistoryResponse(metric: string, timeDeltas: seq<int>,
                                             aggregates: seq<Aggregate>, values: seq<Double>)

  /** The absolute times of the entries a response carries. */
  function EmittedTimes(data: HistoryData): seq<int>
  {
    match data
    case AggregateTimeline(rows) => RowTimes(rows)
    case FlexRows(rows) => RowTimes(rows)
    case FlexValues(values) => ValueTimes(values)
    case AggregateOver(start, _) => [start]
    case LastValue(values) => if |values| == 1 then [values[0].time] else []
    case UnknownType => []
  }

  /** The timeline loop of read_ over aggregate rows. */
  method EncodeRows(rows: seq<Row>) returns (deltas: seq<int>, aggregates: seq<Aggregate>)
    ensures deltas == Deltas(RowTimes(rows), 0)
    ensures |aggregates| == |rows| && forall k :: 0 <= k < |rows| ==> aggregates[k] == rows[k].aggregate
  {
    deltas, aggregates := [], [];
    var lastTime := 0;
    for i := 0 to |rows|
      invariant deltas == Deltas(RowTimes(rows[..i]), 0)
      invariant lastTime == LastTime(RowTimes(rows[..i]), 0)
      invariant |aggregates| == i && forall k :: 0 <= k < i ==> aggregates[k] == rows[k].aggregate
    {
      var row := rows[i];
      assert RowTimes(rows[..i + 1]) == RowTimes(rows[..i]) + [row.time];
      DeltasSnoc(RowTimes(rows[..i]), row.time, 0);
      deltas := deltas + [row.time - lastTime];
      aggregates := aggregates + [row.aggregate];
      lastTime := row.time;
    }
    assert rows[..|rows|] == rows;
  }

  /** The flex timeline loop of read_ over raw values. */
  method EncodeValues(values: seq<TimeValue>) returns (deltas: seq<int>, out: seq<Double>)
    ensures deltas == Deltas(ValueTimes(values), 0)
    ensures |out| == |values| && forall k :: 0 <= k < |values| ==> out[k] == values[k].value
  {
    deltas, out := [], [];
    var lastTime := 0;
    for i := 0 to |values|
      invariant deltas == Deltas(ValueTimes(values[..i]), 0)
      invariant lastTime == LastTime(ValueTimes(values[..i]), 0)
      invariant |out| == i && forall k :: 0 <= k < i ==> out[k] == values[k].value
    {
      var tv := values[i];
      assert ValueTimes(values[..i + 1]) == ValueTimes(values[..i]) + [tv.time];
      DeltasSnoc(ValueTimes(values[..i]), tv.time, 0);
      deltas := deltas + [tv.time - lastTime];
      out := out + [tv.value];
      lastTime := tv.time;
    }
    assert values[..|values|] == values;
  }

  /**
   * read_: every response is delta encoded from the epoch, so the running sums of
   * its deltas are the times of its entries, and it carries exactly one aggregate
   * or one value per delta.
   */
  method Read(id: string, data: HistoryData) returns (response: HistoryResponse)
    ensures response.metric == id
    ensures PrefixSums(response.timeDeltas, 0) == EmittedTimes(data)
    ensures |response.aggregates| + |response.values| == |response.timeDeltas|
    ensures response.aggregates == [] || response.values == []
    ensures (data.AggregateTimeline? || data.FlexRows?) ==>
              response.values == [] &&
              forall k :: 0 <= k < |data.rows| ==> response.aggregates[k] == data.rows[k].aggregate
    ensures data.FlexValues? ==>
              response.aggregates == [] &&
              forall k :: 0 <= k < |data.values| ==> response.values[k] == data.values[k].value
    ensures data.AggregateOver? ==> response.aggregates == [data.aggregate] && response.values == []
    ensures data.LastValue? ==>
              response.aggregates == [] &&
              response.values == (if |data.values| == 1 then [data.values[0].value] else [])
    ensures data.UnknownType? ==> response.timeDeltas == []
  {
    DecodeDeltas(EmittedTimes(data), 0);
    match data
    case AggregateTimeline(rows) =>
      var deltas, aggregates := EncodeRows(rows);
      response := HistoryResponse(id, deltas, aggregates, []);
    case FlexRows(rows) =>
      var deltas, aggregates := EncodeRows(rows);
      response := HistoryResponse(id, deltas, aggregates, []);
    case FlexValues(values) =>
      var deltas, out := EncodeValues(values);
      response := HistoryResponse(id, deltas, [], out);
    case AggregateOver(start, aggregate) =>
      response := HistoryResponse(id, [start], [aggregate], []);
    case LastValue(values) =>
      if |values| == 1 {
        response := HistoryResponse(id, [values[0].time], [], [values[0].value]);
      } else {
        response := HistoryResponse(id, [], [], []);
      }
    case UnknownType =>
      response := HistoryResponse(id, [], [], []);
  }
}
