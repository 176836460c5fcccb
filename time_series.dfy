/**
 * Values shared by the HTA service and the legacy sink: samples, aggregate rows,
 * and the delta encoding of timestamps used in every history response.
 * Times are nanoseconds since the epoch.
 */
module TimeSeries {

  /** A double as far as the model needs it: a number or NaN. */
  datatype Double = Num(x: real) | NaN

  predicate IsNaN(v: Double) { v.NaN? }

  /** One sample of a metric. */
  datatype TimeValue = TimeValue(time: int, value: Double)

  /** The aggregate of an interval of samples as stored by the archive. */
  datatype Aggregate = Aggregate(minimum: Double, maximum: Double, sum: Double, count: int,
                                 integral: Double, activeTime: int)

  /** One aggregate row of a retrieved timeline. */
  datatype Row = Row(time: int, aggregate: Aggregate)

  /** The times of a sequence of timed items, in order. */
  function TimesOf<T>(items: seq<T>, timeOf: T -> int): (r: seq<int>)
    ensures |r| == |items| && forall k :: 0 <= k < |items| ==> r[k] == timeOf(items[k])
  {
    seq(|items|, k requires 0 <= k < |items| => timeOf(items[k]))
  }

  function RowTimes(rows: seq<Row>): seq<int>
  {
    TimesOf(rows, (row: Row) => row.time)
  }

  function ValueTimes(values: seq<TimeValue>): seq<int>
  {
    TimesOf(values, (tv: TimeValue) => tv.time)
  }

  /**
   * Delta encoding: every time is sent as its difference to the time before it;
   * the first one as its difference to `last`.
   */
  function Deltas(times: seq<int>, last: int): (r: seq<int>)
    ensures |r| == |times|
  {
    if times == [] then [] else [times[0] - last] + Deltas(times[1..], times[0])
  }

  /** Decoding of a delta-encoded sequence: the running sums, starting at `start`. */
  function PrefixSums(deltas: seq<int>, start: int): (r: seq<int>)
    ensures |r| == |deltas|
  {
    if deltas == [] then [] else [start + deltas[0]] + PrefixSums(deltas[1..], start + deltas[0])
  }

  /** The value the next delta is taken against after encoding `times` from `last`. */
  function LastTime(times: seq<int>, last: int): int
  {
    if times == [] then last else times[|times| - 1]
  }

  /** Each delta is the difference to the previous time, the first to `last`. */
  lemma {:induction false} DeltaAt(times: seq<int>, last: int, k: nat)
    requires k < |times|
    ensures Deltas(times, last)[k] == times[k] - (if k == 0 then last else times[k - 1])
  {
    if k > 0 {
      DeltaAt(times[1..], times[0], k - 1);
    }
  }

  /** Encoding one more time appends one more delta: what the response loops rely on. */
  lemma {:induction false} DeltasSnoc(times: seq<int>, t: int, last: int)
    ensures Deltas(times + [t], last) == Deltas(times, last) + [t - LastTime(times, last)]
  {
    if times != [] {
      assert (times + [t])[1..] == times[1..] + [t];
      DeltasSnoc(times[1..], t, times[0]);
      assert LastTime(times[1..], times[0]) == LastTime(times, last);
    }
  }

  /** Decoding inverts encoding: the running sums of the deltas give back the times. */
  lemma {:induction false} DecodeDeltas(times: seq<int>, last: int)
    ensures PrefixSums(Deltas(times, last), last) == times
  {
    if times != [] {
      DecodeDeltas(times[1..], times[0]);
    }
  }

  /** Encoding inverts decoding, so the encoding loses nothing and adds nothing. */
  lemma {:induction false} EncodeSums(deltas: seq<int>, start: int)
    ensures Deltas(PrefixSums(deltas, start), start) == deltas
  {
    if deltas != [] {
      EncodeSums(deltas[1..], start + deltas[0]);
    }
  }
}
