/** The retry policy kernel: decisions over a status and the headers that matter. */
module RetryPolicy {
  import opened Basics
  import opened Vocabulary
  import opened Windows

  const MS: nat := 1_000_000
  const MAX_RETRY_AFTER: nat := 60 * SECOND

  /** A `retry-after` header: a count of seconds, or a date given by the time left
      until it (negative once passed); anything else does not parse. */
  datatype RetryAfterValue = Seconds(n: nat) | Until(left: int) | Unparsable

  datatype Headers = Headers(
    shouldRetry: ShouldRetry,
    retryAfterMs: Option<nat>,
    retryAfter: Option<RetryAfterValue>,
    requestId: Option<nat>)

  datatype Disposition = Disposition(retry: bool, failover: bool, retryAfter: Option<nat>)

  /** `retry-after-ms` wins over `retry-after`; both are cut off at 60 s. */
  function ParseRetryAfter(h: Headers): (r: Option<nat>)
    ensures r.Some? ==> r.value <= MAX_RETRY_AFTER
  {
    if h.retryAfterMs.Some? then Some(Min(h.retryAfterMs.value * MS, MAX_RETRY_AFTER))
    else
      match h.retryAfter
      case Some(Seconds(n)) => Some(Min(n * SECOND, MAX_RETRY_AFTER))
      case Some(Until(left)) => if left >= 0 then Some(Min(left, MAX_RETRY_AFTER)) else None
      case _ => None
  }

  predicate RetryableStatus(status: nat, h: Headers) {
    match h.shouldRetry
    case RetryTrue => true
    case RetryFalse => false
    case RetryAbsent => status == 429 || status >= 500
  }

  predicate FailoverableStatus(status: nat, h: Headers) {
    h.shouldRetry != RetryFalse && 502 <= status <= 504
  }

  function FromHttp(status: nat, h: Headers): Disposition {
    Disposition(RetryableStatus(status, h), FailoverableStatus(status, h), ParseRetryAfter(h))
  }

  /** A failure without a response; only transport errors and timeouts retry. */
  function FromTransport(transportError: bool): Disposition {
    Disposition(transportError, true, None)
  }

  /** Full-jitter ceiling: 500 ms doubling up to 30 s. */
  function CeilingMs(attempt: nat): nat {
    Min(500 * Pow2(Min(attempt, 6)), 30_000)
  }

  /** `draw` stands for the random source; the jitter is uniform in
      `0..=CeilingMs(attempt)`. */
  function RetryDelay(attempt: nat, retryAfter: Option<nat>, draw: nat): nat {
    var jitter := draw % (CeilingMs(attempt) + 1);
    Max(Min(if retryAfter.Some? then retryAfter.value else 0, MAX_RETRY_AFTER), jitter * MS)
  }

  /** No sleep is shorter than the server's clamped floor or longer than 60 s,
      whatever the server sent and whatever was drawn. */
  lemma {:induction false} DelayBounds(attempt: nat, retryAfter: Option<nat>, draw: nat)
    ensures RetryDelay(attempt, retryAfter, draw) <= MAX_RETRY_AFTER
    ensures retryAfter.Some? ==> RetryDelay(attempt, retryAfter, draw) >= Min(retryAfter.value, MAX_RETRY_AFTER)
    ensures retryAfter.None? ==> RetryDelay(attempt, retryAfter, draw) <= CeilingMs(attempt) * MS
  {
    var jitter := draw % (CeilingMs(attempt) + 1);
    assert jitter <= CeilingMs(attempt) <= 30_000;
  }

  /** Every response that may move domains may also be retried; a 500 or a 429
      never moves; an explicit "false" forbids both and "true" forces a retry. */
  lemma {:induction false} FailoverWithinRetry(status: nat, h: Headers)
    ensures var d := FromHttp(status, h);
            && (d.failover ==> d.retry && 502 <= status <= 504 && h.shouldRetry != RetryFalse)
            && (h.shouldRetry == RetryFalse ==> !d.retry && !d.failover)
            && (h.shouldRetry == RetryTrue ==> d.retry)
  {
  }
}
