/** The per-call recorder as functions on its state: what each observed fact does
    to the attempt list, and what finishing hands to the sink. */
module RecorderSpec {
  import opened Basics
  import opened Vocabulary
  import opened Counters
  import opened FoldLadder
  import opened RetryPolicy

  const MAX_DURATION_MS: nat := 3_600_000

  datatype AttemptRecord = AttemptRecord(
    index: nat,
    host: Host,
    outcome: AttemptOutcome,
    httpStatus: Option<nat>,
    errorClass: Option<ErrorClass>,
    errorSource: Option<ErrorSource>,
    shouldRetry: ShouldRetry,
    retryAfterMs: Option<nat>,
    elapsedMs: nat,
    ttfbMs: Option<nat>,
    requestId: Option<nat>,
    moved: bool,
    phase: TimeoutPhase)

  datatype RequestEvent = RequestEvent(
    attempts: seq<AttemptRecord>,
    finalOutcome: FinalOutcome,
    finalHttpStatus: Option<nat>,
    totalMs: nat,
    ttftMs: Option<nat>,
    failoverUsed: bool,
    timeoutPhase: TimeoutPhase,
    configuredTimeoutMs: Option<nat>)

  /** One call of the sink. */
  datatype Report = Report(event: RequestEvent, counters: seq<Entry>)

  /** What is fixed before the first attempt. Times are milliseconds. */
  datatype Spec = Spec(
    endpoint: Endpoint,
    recordable: bool,          // only GET and POST calls are recorded
    streaming: bool,
    providerPinned: bool,
    timeoutMs: Option<nat>)

  datatype Rec = Rec(
    attempts: seq<AttemptRecord>,
    failoverUsed: bool,
    ttftMs: Option<nat>,
    firstStarted: Option<nat>,
    attemptStarted: Option<nat>,
    currentHost: Option<Host>,
    currentIndex: Option<nat>,
    finished: bool,
    emitted: seq<Report>)      // calls of the sink so far

  const NEW_RECORDER := Rec([], false, None, None, None, None, None, false, [])

  function DurationMs(start: nat, end: nat): (ms: nat)
    ensures ms <= MAX_DURATION_MS
  {
    Min(SatSub(end, start), MAX_DURATION_MS)
  }

  // ---- Observations ----

  function BeginAttempt(r: Rec, host: Host, now: nat): Rec {
    r.(firstStarted := if r.firstStarted.None? then Some(now) else r.firstStarted,
       attemptStarted := Some(now),
       currentHost := Some(host),
       currentIndex := Some(|r.attempts|))
  }

  /** The attempt in flight has a start, a host and an index. */
  predicate InFlight(r: Rec) {
    r.attemptStarted.Some? && r.currentHost.Some? && r.currentIndex.Some?
  }

  function Store(r: Rec, a: AttemptRecord): Rec {
    r.(attempts := if a.index < |r.attempts| then r.attempts[a.index := a] else r.attempts + [a])
  }

  /** The record already stored for the attempt in flight, if any. */
  function Previous(r: Rec): (p: Option<AttemptRecord>)
    requires InFlight(r)
  {
    if r.currentIndex.value < |r.attempts| then Some(r.attempts[r.currentIndex.value]) else None
  }

  function OnResponse(r: Rec, status: nat, h: Headers, now: nat): Rec {
    if !InFlight(r) then r
    else
      var elapsed := DurationMs(r.attemptStarted.value, now);
      var delay := ParseRetryAfter(h);
      Store(r, AttemptRecord(
        r.currentIndex.value, r.currentHost.value,
        if status < 400 then Ok else HttpError,
        Some(status), None, None, h.shouldRetry,
        if delay.Some? then Some(Min(delay.value / MS, MAX_DURATION_MS)) else None,
        elapsed, Some(elapsed), h.requestId, false, NoPhase))
  }

  function OnBodyComplete(r: Rec, source: Option<ErrorSource>, now: nat): Rec {
    if !InFlight(r) || Previous(r).None? then r
    else
      var i := r.currentIndex.value;
      r.(attempts := r.attempts[i := r.attempts[i].(
           elapsedMs := DurationMs(r.attemptStarted.value, now), errorSource := source)])
  }

  function PhaseForClass(c: ErrorClass): TimeoutPhase {
    match c
    case ConnectTimeout => Connect
    case ReadTimeout => FirstByte
    case WriteTimeout => FirstByte
    case _ => NoPhase
  }

  function OnTransportError(
    r: Rec, c: ErrorClass, timedOut: bool, responseOpened: bool, bodyStarted: bool, now: nat): Rec
  {
    if !InFlight(r) then r
    else
      var stalled := timedOut && bodyStarted;
      var prev := Previous(r);
      var response := if responseOpened then prev else None;
      Store(r, AttemptRecord(
        r.currentIndex.value, r.currentHost.value,
        if timedOut then Timeout else if bodyStarted then StreamBroken else TransportError,
        if response.Some? then response.value.httpStatus else None,
        Some(if stalled && c == ReadTimeout then StreamStalled else c),
        if prev.Some? then prev.value.errorSource else None,
        if prev.Some? then prev.value.shouldRetry else RetryAbsent,
        if prev.Some? then prev.value.retryAfterMs else None,
        DurationMs(r.attemptStarted.value, now),
        if response.Some? then response.value.ttfbMs else None,
        if prev.Some? then prev.value.requestId else None,
        false,
        if stalled then Idle else PhaseForClass(c)))
  }

  function OnMoved(r: Rec): Rec {
    var n := |r.attempts|;
    if n == 0 then r
    else r.(attempts := r.attempts[n - 1 := r.attempts[n - 1].(moved := true)], failoverUsed := true)
  }

  function OnFirstEvent(r: Rec, now: nat): Rec {
    if r.ttftMs.None? && r.firstStarted.Some?
    then r.(ttftMs := Some(DurationMs(r.firstStarted.value, now)))
    else r
  }

  function OnAborted(r: Rec, now: nat): Rec {
    if !InFlight(r) then r
    else
      var elapsed := DurationMs(r.attemptStarted.value, now);
      match Previous(r)
      case Some(p) =>
        Store(r, p.(index := r.currentIndex.value, host := r.currentHost.value, outcome := Aborted, elapsedMs := elapsed))
      case None =>
        Store(r, AttemptRecord(
          r.currentIndex.value, r.currentHost.value, Aborted, None, None, None, RetryAbsent, None,
          elapsed, None, None, false, NoPhase))
  }

  // ---- Finishing ----

  function StatusClass(status: Option<nat>): HttpStatusClass {
    if status.None? then NoStatus
    else if 200 <= status.value <= 299 then Success
    else if status.value == 429 then RateLimited
    else if 400 <= status.value <= 499 then ClientError
    else if 500 <= status.value <= 599 then ServerError
    else NoStatus
  }

  function LatencyBucketOf(ms: nat): LatencyBucket {
    if ms < 100 then Lt100 else if ms < 200 then Lt200 else if ms < 400 then Lt400
    else if ms < 800 then Lt800 else if ms < 1600 then Lt1600 else if ms < 3200 then Lt3200
    else if ms < 6400 then Lt6400 else if ms < 12800 then Lt12800 else if ms < 25600 then Lt25600
    else if ms < 51200 then Lt51200 else if ms < 102400 then Lt102400 else Ge102400
  }

  function ConfiguredTimeoutMs(spec: Spec, phase: TimeoutPhase): Option<nat> {
    if (phase == Connect || phase == FirstByte || phase == Idle) && spec.timeoutMs.Some?
    then Some(Clamp(spec.timeoutMs.value, 1, MAX_DURATION_MS)) else None
  }

  predicate TimeoutFloorMet(phase: TimeoutPhase, configured: Option<nat>) {
    configured.Some? &&
    match phase
    case Connect => configured.value >= 10_000
    case FirstByte => configured.value >= 60_000
    case Idle => configured.value >= 30_000
    case _ => false
  }

  function FirstErrorClass(attempts: seq<AttemptRecord>): Option<ErrorClass> {
    if attempts == [] then None
    else if attempts[0].errorClass.Some? then attempts[0].errorClass
    else FirstErrorClass(attempts[1..])
  }

  function KeyFor(spec: Spec, level: Level, a: AttemptRecord, errorClass: Option<ErrorClass>): CounterKey {
    CounterKey(level, spec.endpoint, spec.streaming, a.host, a.outcome, errorClass,
               StatusClass(a.httpStatus), a.phase,
               TimeoutFloorMet(a.phase, ConfiguredTimeoutMs(spec, a.phase)), spec.providerPinned)
  }

  function One(b: bool): u64 {
    if b then 1 else 0
  }

  function RequestEntry(spec: Spec, r: Rec, totalMs: nat): Entry
    requires r.attempts != []
  {
    var last := r.attempts[|r.attempts| - 1];
    var firstEvent := if r.ttftMs.Some? then r.ttftMs else last.ttfbMs;
    Entry(
      KeyFor(spec, RequestLevel, last, FirstErrorClass(r.attempts)),
      CounterRow(
        1, Min(|r.attempts|, U64_MAX), One(r.failoverUsed), One(r.attempts[0].outcome == Ok),
        map[LatencyBucketOf(totalMs) := 1],
        if firstEvent.Some? then map[LatencyBucketOf(firstEvent.value) := 1] else map[]))
  }

  function AttemptEntry(spec: Spec, a: AttemptRecord): Entry {
    Entry(KeyFor(spec, AttemptLevel, a, a.errorClass), CounterRow(1, 1, One(a.moved), 0, map[], map[]))
  }

  function AttemptEntries(spec: Spec, attempts: seq<AttemptRecord>): (es: seq<Entry>)
    ensures |es| == |attempts|
  {
    seq(|attempts|, i requires 0 <= i < |attempts| => AttemptEntry(spec, attempts[i]))
  }

  function MakeReport(spec: Spec, r: Rec, exhausted: bool, now: nat): Report
    requires r.attempts != [] && r.firstStarted.Some?
  {
    var last := r.attempts[|r.attempts| - 1];
    var totalMs := DurationMs(r.firstStarted.value, now);
    Report(
      RequestEvent(
        r.attempts,
        if exhausted && |r.attempts| > 1 && last.outcome != Ok then Exhausted else Final(last.outcome),
        last.httpStatus, totalMs, r.ttftMs, r.failoverUsed, last.phase, ConfiguredTimeoutMs(spec, last.phase)),
      [RequestEntry(spec, r, totalMs)] + AttemptEntries(spec, r.attempts))
  }

  /** Derives the report and hands it over, once. */
  function Finish(spec: Spec, r: Rec, exhausted: bool, now: nat): Rec {
    if r.finished then r
    else if r.firstStarted.None? || r.attempts == [] || !spec.recordable then r.(finished := true)
    else r.(finished := true, emitted := r.emitted + [MakeReport(spec, r, exhausted, now)])
  }

  /** Dropping an unfinished recorder records an abort and finishes. */
  function Dropped(spec: Spec, r: Rec, now: nat): Rec {
    if r.finished then r else Finish(spec, OnAborted(r, now), false, now)
  }
}
