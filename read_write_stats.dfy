/**
 * Periodic read/write request statistics (src/read_write_stats.hpp). Every
 * update runs the log check, which reports and resets the read and write
 * counters once more than ten seconds have passed since the last report. The
 * clock is passed in: `now` is the reading the check compares, `logTime` the
 * later reading stored as the time of the report. Durations are nanoseconds;
 * the lock is left out.
 */
module ReadWriteStatistics {
  import opened Wrappers
  import opened SizeT

  /** duration_between_logs: ten seconds. */
  const DurationBetweenLogs: int := 10_000_000_000

  /** The log check fires when strictly more than the interval has passed. */
  predicate LogDue(lastLog: int, now: int)
  {
    now - lastLog > DurationBetweenLogs
  }

  /** Bounds of the integer quotient of a non-negative total by a positive count. */
  lemma QuotientBounds(a: int, b: int)
    requires a >= 0 && b > 0
    ensures 0 <= (a / b) * b <= a < (a / b + 1) * b
  {
    var q, m := a / b, a % b;
    assert a == q * b + m && 0 <= m < b;
    assert (q + 1) * b == q * b + b;
  }

  /**
   * The average duration as the logged expression `duration / count` computes
   * it: no value at all (division by zero) when the count is 0.
   */
  function AverageAsWritten(total: int, count: nat): (r: Option<int>)
    ensures r.None? <==> count == 0
  {
    if count == 0 then None else Some(total / count)
  }

  /** The average duration per request, 0 when there was no request. */
  function Average(total: int, count: nat): (r: int)
    ensures count == 0 ==> r == 0
    ensures count > 0 ==> AverageAsWritten(total, count) == Some(r)
    ensures count > 0 && total >= 0 ==> 0 <= r * count <= total < (r + 1) * count
  {
    if count == 0 then 0
    else
      if total >= 0 then QuotientBounds(total, count); total / count
      else total / count
  }

  /** What one report states. */
  datatype StatsReport = StatsReport(readDuration: int, readCount: nat, readAverage: int,
                                     writeDuration: int, writeCount: nat, writeAverage: int,
                                     ongoing: Size)

  function ReportOf(readDuration: int, readCount: nat, writeDuration: int, writeCount: nat,
                    ongoing: Size): (r: StatsReport)
    ensures r.readCount == readCount && r.writeCount == writeCount && r.ongoing == ongoing
    ensures readCount > 0 ==> AverageAsWritten(readDuration, readCount) == Some(r.readAverage)
    ensures writeCount > 0 ==> AverageAsWritten(writeDuration, writeCount) == Some(r.writeAverage)
  {
    StatsReport(readDuration, readCount, Average(readDuration, readCount),
                writeDuration, writeCount, Average(writeDuration, writeCount), ongoing)
  }

  /**
   * A check from the epoch, the last report time of a fresh object, is due just
   * over ten seconds later, and the as-written average of nothing over a zero
   * count has no value.
   */
  lemma FirstLogDividesByZero()
    ensures LogDue(0, DurationBetweenLogs + 1)
    ensures AverageAsWritten(0, 0).None?
  {
  }

  class ReadWriteStats {
    var readDuration: int
    var readCount: nat
    var writeDuration: int
    var writeCount: nat
    var ongoing: Size
    var lastLog: int

    /** All counters zero; the last report time is the epoch. */
    constructor ()
      ensures readDuration == 0 && readCount == 0 && writeDuration == 0 && writeCount == 0
      ensures ongoing == 0 && lastLog == 0
    {
      readDuration, readCount, writeDuration, writeCount := 0, 0, 0, 0;
      ongoing, lastLog := 0, 0;
    }

    /**
     * log_stats: when due, reports the counters, zeroes the read and write counts
     * and durations and records `logTime`; the ongoing count is never reset.
     * When not due, nothing changes.
     */
    method LogStats(now: int, logTime: int) returns (report: Option<StatsReport>)
      modifies this
      ensures ongoing == old(ongoing)
      ensures LogDue(old(lastLog), now) ==>
                && report == Some(ReportOf(old(readDuration), old(readCount), old(writeDuration),
                                           old(writeCount), old(ongoing)))
                && readDuration == 0 && readCount == 0 && writeDuration == 0 && writeCount == 0
                && lastLog == logTime
      ensures !LogDue(old(lastLog), now) ==>
                && report == None
                && readDuration == old(readDuration) && readCount == old(readCount)
                && writeDuration == old(writeDuration) && writeCount == old(writeCount)
                && lastLog == old(lastLog)
    {
      report := None;
      if LogDue(lastLog, now) {
        report := Some(ReportOf(readDuration, readCount, writeDuration, writeCount, ongoing));
        readDuration, writeDuration := 0, 0;
        readCount, writeCount := 0, 0;
        lastLog := logTime;
      }
    }

    /** add_read_duration: one more read of `duration`, one request fewer ongoing, then the log check. */
    method AddReadDuration(duration: int, now: int, logTime: int) returns (report: Option<StatsReport>)
      modifies this
      ensures ongoing == Dec(old(ongoing))
      ensures writeCount == (if LogDue(old(lastLog), now) then 0 else old(writeCount))
      ensures writeDuration == (if LogDue(old(lastLog), now) then 0 else old(writeDuration))
      ensures LogDue(old(lastLog), now) ==>
                && report == Some(ReportOf(old(readDuration) + duration, old(readCount) + 1,
                                           old(writeDuration), old(writeCount), Dec(old(ongoing))))
                && readDuration == 0 && readCount == 0 && lastLog == logTime
      ensures !LogDue(old(lastLog), now) ==>
                && report == None
                && readDuration == old(readDuration) + duration && readCount == old(readCount) + 1
                && lastLog == old(lastLog)
    {
      readCount := readCount + 1;
      readDuration := readDuration + duration;
      DecrementOngoing();
      report := LogStats(now, logTime);
    }

    /** add_write_duration: one more write of `duration`, one request fewer ongoing, then the log check. */
    method AddWriteDuration(duration: int, now: int, logTime: int) returns (report: Option<StatsReport>)
      modifies this
      ensures ongoing == Dec(old(ongoing))
      ensures readCount == (if LogDue(old(lastLog), now) then 0 else old(readCount))
      ensures readDuration == (if LogDue(old(lastLog), now) then 0 else old(readDuration))
      ensures LogDue(old(lastLog), now) ==>
                && report == Some(ReportOf(old(readDuration), old(readCount),
                                           old(writeDuration) + duration, old(writeCount) + 1,
                                           Dec(old(ongoing))))
                && writeDuration == 0 && writeCount == 0 && lastLog == logTime
      ensures !LogDue(old(lastLog), now) ==>
                && report == None
                && writeDuration == old(writeDuration) + duration && writeCount == old(writeCount) + 1
                && lastLog == old(lastLog)
    {
      writeCount := writeCount + 1;
      writeDuration := writeDuration + duration;
      DecrementOngoing();
      report := LogStats(now, logTime);
    }

    /** increment_ongoing: one more request ongoing, then the log check. */
    method IncrementOngoing(now: int, logTime: int) returns (report: Option<StatsReport>)
      modifies this
      ensures ongoing == Inc(old(ongoing))
      ensures LogDue(old(lastLog), now) ==>
                && report == Some(ReportOf(old(readDuration), old(readCount), old(writeDuration),
                                           old(writeCount), Inc(old(ongoing))))
                && readDuration == 0 && readCount == 0 && writeDuration == 0 && writeCount == 0
                && lastLog == logTime
      ensures !LogDue(old(lastLog), now) ==>
                && report == None
                && readDuration == old(readDuration) && readCount == old(readCount)
                && writeDuration == old(writeDuration) && writeCount == old(writeCount)
                && lastLog == old(lastLog)
    {
      ongoing := Inc(ongoing);
      report := LogStats(now, logTime);
    }

    /** decrement_ongoing: called with the lock held; wraps below zero. */
    method DecrementOngoing()
      modifies this
      ensures ongoing == Dec(old(ongoing))
      ensures readDuration == old(readDuration) && readCount == old(readCount)
      ensures writeDuration == old(writeDuration) && writeCount == old(writeCount)
      ensures lastLog == old(lastLog)
    {
      ongoing := Dec(ongoing);
    }
  }

  /**
   * The first request on a fresh object more than ten seconds after the epoch
   * reaches the report with no read and no write counted, where the source
   * divides by those counts.
   */
  method FirstRequestReportsZeroCounts(now: int) returns (report: StatsReport)
    requires now > DurationBetweenLogs
    ensures report.readCount == 0 && report.writeCount == 0
    ensures AverageAsWritten(report.readDuration, report.readCount).None?
    ensures AverageAsWritten(report.writeDuration, report.writeCount).None?
    ensures report.readAverage == 0 && report.writeAverage == 0
  {
    var stats := new ReadWriteStats();
    var logged := stats.IncrementOngoing(now, now);
    report := logged.value;
  }
}
