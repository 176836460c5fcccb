/**
 * Request statistics (src/db_stats.cpp): a collector per direction whose
 * counters follow each request from pending to active to completed or failed,
 * collected and reset periodically, behind a wrapper that does nothing until
 * it is initialised. Locks are left out; durations are nanoseconds.
 */
module DbStatistics {
  import opened Wrappers
  import opened SizeT

  /**
   * StatsCollector::Stats. The completed, failed and started counts and the data
   * size are reset at every collection; the type leaves out their wrap-around.
   * The two in-flight gauges are never reset, and they wrap.
   */
  datatype Stats = Stats(completedCount: nat, failedCount: nat, startedCount: nat, dataSize: nat,
                         pendingDuration: int, activeDuration: int,
                         inPendingState: Size, inActiveState: Size)

  const InitialStats := Stats(0, 0, 0, 0, 0, 0, 0, 0)

  /** Stats::reset: zeroes every count and duration and keeps the two in-flight gauges. */
  function ResetStats(s: Stats): (r: Stats)
    ensures r.inPendingState == s.inPendingState && r.inActiveState == s.inActiveState
    ensures r.(inPendingState := 0, inActiveState := 0) == InitialStats
  {
    s.(completedCount := 0, failedCount := 0, startedCount := 0, dataSize := 0,
       pendingDuration := 0, activeDuration := 0)
  }

  /** The consistency asserted of every collected snapshot. */
  predicate PendingInvariant(s: Stats)
  {
    s.startedCount == 0 ==> s.pendingDuration == 0
  }

  /** One call on a collector. */
  datatype Event =
    | Pending
    | Active(pendingDuration: int)
    | Complete(activeDuration: int, dataSize: nat)
    | Failed(activeDuration: int)

  /** The effect of one call on the counters. */
  function Step(s: Stats, e: Event): Stats
  {
    match e
    case Pending => s.(inPendingState := Inc(s.inPendingState))
    case Active(d) =>
      s.(pendingDuration := s.pendingDuration + d, inPendingState := Dec(s.inPendingState),
         startedCount := s.startedCount + 1, inActiveState := Inc(s.inActiveState))
    case Complete(d, size) =>
      s.(completedCount := s.completedCount + 1, inActiveState := Dec(s.inActiveState),
         activeDuration := s.activeDuration + d, dataSize := s.dataSize + size)
    case Failed(d) =>
      s.(inActiveState := Dec(s.inActiveState), failedCount := s.failedCount + 1,
         activeDuration := s.activeDuration + d)
  }

  function Apply(s: Stats, events: seq<Event>): Stats
    decreases |events|
  {
    if events == [] then s else Apply(Step(s, events[0]), events[1..])
  }

  function CountActive(events: seq<Event>): nat
  {
    if events == [] then 0 else (if events[0].Active? then 1 else 0) + CountActive(events[1..])
  }

  function CountComplete(events: seq<Event>): nat
  {
    if events == [] then 0 else (if events[0].Complete? then 1 else 0) + CountComplete(events[1..])
  }

  function CountFailed(events: seq<Event>): nat
  {
    if events == [] then 0 else (if events[0].Failed? then 1 else 0) + CountFailed(events[1..])
  }

  /** No sequence of calls breaks the invariant asserted of the snapshots. */
  lemma {:induction false} ApplyKeepsInvariant(s: Stats, events: seq<Event>)
    requires PendingInvariant(s)
    ensures PendingInvariant(Apply(s, events))
    decreases |events|
  {
    if events != [] {
      ApplyKeepsInvariant(Step(s, events[0]), events[1..]);
    }
  }

  /**
   * Over any sequence of calls, the started, completed and failed counts grow by
   * the number of active, complete and failed calls, and the counts never go down.
   */
  lemma {:induction false} ApplyCounts(s: Stats, events: seq<Event>)
    ensures Apply(s, events).startedCount == s.startedCount + CountActive(events)
    ensures Apply(s, events).completedCount == s.completedCount + CountComplete(events)
    ensures Apply(s, events).failedCount == s.failedCount + CountFailed(events)
    decreases |events|
  {
    if events != [] {
      ApplyCounts(Step(s, events[0]), events[1..]);
    }
  }

  /** A request that runs its whole course leaves both in-flight gauges as they were. */
  lemma RequestLeavesGauges(s: Stats, pending: int, active: int, size: nat, succeeded: bool)
    ensures var last := if succeeded then Complete(active, size) else Failed(active);
            var t := Apply(s, [Pending, Active(pending), last]);
            t.inPendingState == s.inPendingState && t.inActiveState == s.inActiveState &&
            t.startedCount == s.startedCount + 1 && t.pendingDuration == s.pendingDuration + pending &&
            t.activeDuration == s.activeDuration + active
  {
    var last := if succeeded then Complete(active, size) else Failed(active);
    var e := [Pending, Active(pending), last];
    assert e[1..] == [Active(pending), last] && e[1..][1..] == [last] && e[1..][1..][1..] == [];
    var s1 := Step(s, Pending);
    var s2 := Step(s1, Active(pending));
    assert Apply(s, e) == Apply(s2, [last]) == Step(s2, last);
    assert Dec(Inc(s.inPendingState)) == s.inPendingState;
    assert Dec(Inc(s.inActiveState)) == s.inActiveState;
  }

  /**
   * An active call on a collector that counts no pending request (one whose
   * pending call was dropped before init) wraps the pending gauge to the
   * maximum, and still counts the start.
   */
  lemma ActiveWithoutPendingWraps(s: Stats, d: int)
    requires s.inPendingState == 0
    ensures Step(s, Active(d)).inPendingState == SizeMax
    ensures Step(s, Active(d)).startedCount == s.startedCount + 1
  {
  }

  class StatsCollector {
    var stats: Stats

    ghost predicate Valid()
      reads this
    {
      PendingInvariant(stats)
    }

    constructor ()
      ensures Valid() && stats == InitialStats
    {
      stats := InitialStats;
    }

    /** pending: one more request waits. */
    method Pending()
      requires Valid()
      modifies this
      ensures Valid()
      ensures stats == Step(old(stats), Event.Pending)
      ensures stats == old(stats).(inPendingState := Inc(old(stats).inPendingState))
    {
      stats := stats.(inPendingState := Inc(stats.inPendingState));
    }

    /** active: a waiting request starts after `pendingDuration`. */
    method Active(pendingDuration: int)
      requires Valid()
      modifies this
      ensures Valid()
      ensures stats == Step(old(stats), Event.Active(pendingDuration))
    {
      stats := stats.(pendingDuration := stats.pendingDuration + pendingDuration);
      stats := stats.(inPendingState := Dec(stats.inPendingState));
      stats := stats.(startedCount := stats.startedCount + 1);
      stats := stats.(inActiveState := Inc(stats.inActiveState));
    }

    /** complete: an active request finishes after `activeDuration`, with `dataSize` bytes. */
    method Complete(activeDuration: int, dataSize: nat)
      requires Valid()
      modifies this
      ensures Valid()
      ensures stats == Step(old(stats), Event.Complete(activeDuration, dataSize))
    {
      stats := stats.(completedCount := stats.completedCount + 1);
      stats := stats.(inActiveState := Dec(stats.inActiveState));
      stats := stats.(activeDuration := stats.activeDuration + activeDuration);
      stats := stats.(dataSize := stats.dataSize + dataSize);
    }

    /** failed: an active request fails after `activeDuration`; no data is counted. */
    method Failed(activeDuration: int)
      requires Valid()
      modifies this
      ensures Valid()
      ensures stats == Step(old(stats), Event.Failed(activeDuration))
    {
      stats := stats.(inActiveState := Dec(stats.inActiveState));
      stats := stats.(failedCount := stats.failedCount + 1);
      stats := stats.(activeDuration := stats.activeDuration + activeDuration);
    }

    /** collect: a snapshot of the counters, which are then reset. */
    method Collect() returns (collected: Stats)
      requires Valid()
      modifies this
      ensures Valid()
      ensures collected == old(stats) && stats == ResetStats(old(stats))
      ensures PendingInvariant(collected)
    {
      collected := stats;
      stats := ResetStats(stats);
    }
  }

  /** DbStats::DbStatsImpl: one collector per direction and the time of the last collection. */
  class DbStatsImpl {
    const read: StatsCollector
    const write: StatsCollector
    var previousCollectTime: int

    ghost predicate Valid()
      reads this, read, write
    {
      read != write && read.Valid() && write.Valid()
    }

    constructor (now: int)
      ensures Valid() && fresh(read) && fresh(write)
      ensures read.stats == InitialStats && write.stats == InitialStats
      ensures previousCollectTime == now
    {
      read := new StatsCollector();
      write := new StatsCollector();
      previousCollectTime := now;
    }

    /**
     * collect: both snapshots are taken (and later written out); writing them
     * asserts that time has passed since the previous collection.
     */
    method Collect(now: int) returns (readStats: Stats, writeStats: Stats)
      requires Valid()
      requires now > previousCollectTime
      modifies this, read, write
      ensures Valid()
      ensures readStats == old(read.stats) && read.stats == ResetStats(old(read.stats))
      ensures writeStats == old(write.stats) && write.stats == ResetStats(old(write.stats))
      ensures PendingInvariant(readStats) && PendingInvariant(writeStats)
      ensures previousCollectTime == now
    {
      readStats := read.Collect();
      writeStats := write.Collect();
      previousCollectTime := now;
    }
  }

  /** DbStats: forwards to its implementation once initialised, and does nothing before. */
  class DbStats {
    var impl: DbStatsImpl?
    ghost var Repr: set<object>

    ghost predicate Valid()
      reads this, Repr
    {
      && this in Repr
      && (impl != null ==>
            && impl in Repr && impl.read in Repr && impl.write in Repr
            && impl.Valid())
    }

    constructor ()
      ensures Valid() && fresh(Repr) && impl == null
    {
      impl := null;
      Repr := {this};
    }

    /** init: creates the implementation; a second init leaves the existing one alone. */
    method Init(now: int)
      requires Valid()
      modifies Repr
      ensures Valid() && fresh(Repr - old(Repr))
      ensures old(impl) != null ==>
                impl == old(impl) && Repr == old(Repr) &&
                impl.read.stats == old(impl.read.stats) && impl.write.stats == old(impl.write.stats) &&
                impl.previousCollectTime == old(impl.previousCollectTime)
      ensures old(impl) == null ==>
                impl != null && fresh(impl) && fresh(impl.read) && fresh(impl.write) &&
                impl.read.stats == InitialStats && impl.write.stats == InitialStats &&
                impl.previousCollectTime == now
    {
      if impl != null {
        return;
      }
      impl := new DbStatsImpl(now);
      Repr := Repr + {impl, impl.read, impl.write};
    }

    /** reset: drops the implementation. */
    method Reset()
      requires Valid()
      modifies this
      ensures Valid() && impl == null && Repr == old(Repr)
    {
      impl := null;
    }

    /** Forwarding to the read collector; `e` names the collector call. */
    method Read(e: Event)
      requires Valid()
      modifies Repr
      ensures Valid() && impl == old(impl) && Repr == old(Repr)
      ensures impl != null ==>
                impl.read.stats == Step(old(impl.read.stats), e) &&
                impl.write.stats == old(impl.write.stats) &&
                impl.previousCollectTime == old(impl.previousCollectTime)
    {
      if impl != null {
        match e
        case Pending => impl.read.Pending();
        case Active(d) => impl.read.Active(d);
        case Complete(d, size) => impl.read.Complete(d, size);
        case Failed(d) => impl.read.Failed(d);
      }
    }

    /** Forwarding to the write collector; `e` names the collector call. */
    method Write(e: Event)
      requires Valid()
      modifies Repr
      ensures Valid() && impl == old(impl) && Repr == old(Repr)
      ensures impl != null ==>
                impl.write.stats == Step(old(impl.write.stats), e) &&
                impl.read.stats == old(impl.read.stats) &&
                impl.previousCollectTime == old(impl.previousCollectTime)
    {
      if impl != null {
        match e
        case Pending => impl.write.Pending();
        case Active(d) => impl.write.Active(d);
        case Complete(d, size) => impl.write.Complete(d, size);
        case Failed(d) => impl.write.Failed(d);
      }
    }

    /** collect: the two snapshots written out, or nothing before init. */
    method Collect(now: int) returns (snapshots: Option<(Stats, Stats)>)
      requires Valid()
      requires impl != null ==> now > impl.previousCollectTime
      modifies Repr
      ensures Valid() && impl == old(impl) && Repr == old(Repr)
      ensures impl == null <==> snapshots.None?
      ensures impl != null ==>
                snapshots == Some((old(impl.read.stats), old(impl.write.stats))) &&
                impl.read.stats == ResetStats(old(impl.read.stats)) &&
                impl.write.stats == ResetStats(old(impl.write.stats)) &&
                impl.previousCollectTime == now
      ensures snapshots.Some? ==> PendingInvariant(snapshots.value.0) && PendingInvariant(snapshots.value.1)
    {
      if impl == null {
        return None;
      }
      var r, w := impl.Collect(now);
      snapshots := Some((r, w));
    }
  }
}
