/**
 * The legacy sink's two callbacks (src/db.cpp): the write filter that drops
 * samples older than the stored range, and the history response built from
 * retrieved aggregate rows with delta-encoded timestamps.
 * The archive itself is not modelled: `rangeEnd` is what the metric reports as
 * the end of its stored range, and what the loop would insert is returned.
 */
module LegacyDb {
  import opened TimeSeries

  /** The samples of `chunk` the sink inserts, in chunk order: those not older than `rangeEnd`. */
  function Accepted(chunk: seq<TimeValue>, rangeEnd: int): (r: seq<TimeValue>)
    ensures |r| <= |chunk|
    ensures forall tv :: tv in r <==> tv in chunk && tv.time >= rangeEnd
  {
    if chunk == [] then []
    else if chunk[0].time < rangeEnd then Accepted(chunk[1..], rangeEnd)
    else [chunk[0]] + Accepted(chunk[1..], rangeEnd)
  }

  /** How many samples of `chunk` are older than `rangeEnd`. */
  function CountOlder(chunk: seq<TimeValue>, rangeEnd: int): nat
  {
    if chunk == [] then 0
    else (if chunk[0].time < rangeEnd then 1 else 0) + CountOlder(chunk[1..], rangeEnd)
  }

  lemma {:induction false} AcceptedSnoc(chunk: seq<TimeValue>, tv: TimeValue, rangeEnd: int)
    ensures Accepted(chunk + [tv], rangeEnd)
         == Accepted(chunk, rangeEnd) + (if tv.time < rangeEnd then [] else [tv])
    ensures CountOlder(chunk + [tv], rangeEnd)
         == CountOlder(chunk, rangeEnd) + (if tv.time < rangeEnd then 1 else 0)
  {
    if chunk != [] {
      assert (chunk + [tv])[1..] == chunk[1..] + [tv];
      AcceptedSnoc(chunk[1..], tv, rangeEnd);
    }
  }

  /** Every sample is either skipped or inserted. */
  lemma {:induction false} AcceptedPlusSkipped(chunk: seq<TimeValue>, rangeEnd: int)
    ensures |Accepted(chunk, rangeEnd)| + CountOlder(chunk, rangeEnd) == |chunk|
  {
    if chunk != [] {
      AcceptedPlusSkipped(chunk[1..], rangeEnd);
    }
  }

  /**
   * The bound is read once and never raised, so every chunk that stays at or
   * after the stored range is inserted whole, in its own order, even one that
   * goes back in time.
   */
  lemma {:induction false} BackwardsChunkInsertedWhole(chunk: seq<TimeValue>, rangeEnd: int)
    requires forall k :: 0 <= k < |chunk| ==> chunk[k].time >= rangeEnd
    ensures Accepted(chunk, rangeEnd) == chunk
    ensures CountOlder(chunk, rangeEnd) == 0
  {
    if chunk != [] {
      assert forall k :: 0 <= k < |chunk[1..]| ==> chunk[1..][k] == chunk[k + 1];
      BackwardsChunkInsertedWhole(chunk[1..], rangeEnd);
      assert chunk == [chunk[0]] + chunk[1..];
    }
  }

  /**
   * Db::data_callback: the range end is read once; every sample strictly older
   * than it is counted as skipped, every other sample is inserted in chunk order.
   * NaN values are not filtered here.
   */
  method DataCallback(chunk: seq<TimeValue>, rangeEnd: int) returns (inserted: seq<TimeValue>, skip: nat)
    ensures inserted == Accepted(chunk, rangeEnd)
    ensures skip == CountOlder(chunk, rangeEnd)
    ensures skip + |inserted| == |chunk|
  {
    inserted, skip := [], 0;
    for i := 0 to |chunk|
      invariant inserted == Accepted(chunk[..i], rangeEnd)
      invariant skip == CountOlder(chunk[..i], rangeEnd)
    {
      var tv := chunk[i];
      AcceptedSnoc(chunk[..i], tv, rangeEnd);
      assert chunk[..i + 1] == chunk[..i] + [tv];
      if tv.time < rangeEnd {
        skip := skip + 1;
        continue;
      }
      inserted := inserted + [tv];
    }
    assert chunk[..|chunk|] == chunk;
    AcceptedPlusSkipped(chunk, rangeEnd);
  }

  /** The legacy history response: per row one delta and one min, max and average. */
  datatype HistoryResponse = HistoryResponse(metric: string, timeDeltas: seq<int>,
                                             valueMin: seq<Double>, valueMax: seq<Double>,
                                             valueAvg: seq<Double>)

  /**
   * Db::history_callback over the retrieved rows; `mean` stands for the archive's
   * Aggregate::mean(). The deltas start from the epoch.
   */
  method HistoryCallback(id: string, rows: seq<Row>, mean: Aggregate -> Double)
    returns (response: HistoryResponse)
    ensures response.metric == id
    ensures response.timeDeltas == Deltas(RowTimes(rows), 0)
    ensures PrefixSums(response.timeDeltas, 0) == RowTimes(rows)
    ensures |response.valueMin| == |response.valueMax| == |response.valueAvg| == |rows|
    ensures forall k :: 0 <= k < |rows| ==>
              && response.valueMin[k] == rows[k].aggregate.minimum
              && response.valueMax[k] == rows[k].aggregate.maximum
              && response.valueAvg[k] == mean(rows[k].aggregate)
  {
    var deltas, mins, maxs, avgs := [], [], [], [];
    var lastTime := 0;
    for i := 0 to |rows|
      invariant |mins| == |maxs| == |avgs| == i
      invariant deltas == Deltas(RowTimes(rows[..i]), 0)
      invariant lastTime == LastTime(RowTimes(rows[..i]), 0)
      invariant forall k :: 0 <= k < i ==>
                  && mins[k] == rows[k].aggregate.minimum
                  && maxs[k] == rows[k].aggregate.maximum
                  && avgs[k] == mean(rows[k].aggregate)
    {
      var row := rows[i];
      assert RowTimes(rows[..i + 1]) == RowTimes(rows[..i]) + [row.time];
      DeltasSnoc(RowTimes(rows[..i]), row.time, 0);
      deltas := deltas + [row.time - lastTime];
      mins := mins + [row.aggregate.minimum];
      maxs := maxs + [row.aggregate.maximum];
      avgs := avgs + [mean(row.aggregate)];
      lastTime := row.time;
    }
    assert rows[..|rows|] == rows;
    DecodeDeltas(RowTimes(rows), 0);
    response := HistoryResponse(id, deltas, mins, maxs, avgs);
  }
}
