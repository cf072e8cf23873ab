/** Counter rows and the clamped, saturating merge of one increment into a row. */
module Counters {
  import opened Basics
  import opened Vocabulary

  /** Counts are bounded to ten million per merged value. */
  const MAX_COUNT: u64 := 10_000_000

  type Histogram = map<LatencyBucket, u64>

  datatype CounterRow = CounterRow(
    requests: u64,
    attempts: u64,
    failoverUsed: u64,
    firstAttemptSuccess: u64,
    totalMs: Histogram,
    firstEventMs: Histogram)

  const EMPTY_ROW := CounterRow(0, 0, 0, 0, map[], map[])

  /** One number carried by a row: a plain count or one histogram bucket. */
  datatype Field =
    | Requests
    | Attempts
    | FailoverUsed
    | FirstAttemptSuccess
    | TotalMs(bucket: LatencyBucket)
    | FirstEventMs(bucket: LatencyBucket)

  function At(h: Histogram, b: LatencyBucket): u64 {
    if b in h then h[b] else 0
  }

  function Get(row: CounterRow, f: Field): u64 {
    match f
    case Requests => row.requests
    case Attempts => row.attempts
    case FailoverUsed => row.failoverUsed
    case FirstAttemptSuccess => row.firstAttemptSuccess
    case TotalMs(b) => At(row.totalMs, b)
    case FirstEventMs(b) => At(row.firstEventMs, b)
  }

  function Bounded(x: u64): u64 {
    Clamp(x, 0, MAX_COUNT)
  }

  function MergedHistogram(target: Histogram, source: Histogram): Histogram {
    map b | b in target.Keys + source.Keys :: SatAdd(At(target, b), Bounded(At(source, b)))
  }

  /** The bucket-by-bucket loop of the source computes `MergedHistogram`,
      in whatever order the buckets are visited. */
  method MergeHistogram(target: Histogram, source: Histogram) returns (merged: Histogram)
    ensures merged == MergedHistogram(target, source)
  {
    merged := target;
    var pending := source.Keys;
    while pending != {}
      invariant pending <= source.Keys
      invariant merged.Keys == target.Keys + (source.Keys - pending)
      invariant forall b <- merged.Keys ::
                  merged[b] == if b in source && b !in pending
                               then SatAdd(At(target, b), Bounded(source[b]))
                               else At(target, b)
      decreases pending
    {
      var b :| b in pending;
      merged := merged[b := SatAdd(At(merged, b), Bounded(source[b]))];
      pending := pending - {b};
    }
  }

  function Merged(target: CounterRow, increment: CounterRow): CounterRow {
    CounterRow(
      SatAdd(target.requests, Bounded(increment.requests)),
      SatAdd(target.attempts, Bounded(increment.attempts)),
      SatAdd(target.failoverUsed, Bounded(increment.failoverUsed)),
      SatAdd(target.firstAttemptSuccess, Bounded(increment.firstAttemptSuccess)),
      MergedHistogram(target.totalMs, increment.totalMs),
      MergedHistogram(target.firstEventMs, increment.firstEventMs))
  }

  method MergeCounterIncrement(target: CounterRow, increment: CounterRow) returns (row: CounterRow)
    ensures row == Merged(target, increment)
  {
    row := target.(
      requests := SatAdd(target.requests, Bounded(increment.requests)),
      attempts := SatAdd(target.attempts, Bounded(increment.attempts)),
      failoverUsed := SatAdd(target.failoverUsed, Bounded(increment.failoverUsed)),
      firstAttemptSuccess := SatAdd(target.firstAttemptSuccess, Bounded(increment.firstAttemptSuccess)));
    var totalMs := MergeHistogram(target.totalMs, increment.totalMs);
    var firstEventMs := MergeHistogram(target.firstEventMs, increment.firstEventMs);
    row := row.(totalMs := totalMs, firstEventMs := firstEventMs);
  }

  /** Every number of the row, histogram buckets included, follows one law. */
  lemma {:induction false} MergedField(target: CounterRow, increment: CounterRow, f: Field)
    ensures Get(Merged(target, increment), f)
            == Min(Get(target, f) + Min(Get(increment, f), 10_000_000), 0xFFFF_FFFF_FFFF_FFFF)
  {
    match f
    case TotalMs(b) => assert b in MergedHistogram(target.totalMs, increment.totalMs)
                              <==> b in target.totalMs || b in increment.totalMs;
    case FirstEventMs(b) => assert b in MergedHistogram(target.firstEventMs, increment.firstEventMs)
                                   <==> b in target.firstEventMs || b in increment.firstEventMs;
    case _ =>
  }
}
