/** The reporter's operations as functions on its state. `Reporter.State` runs
    them in place; `ReporterRuns` proves what every run of them keeps. */
module ReporterSpec {
  import opened Basics
  import opened FoldLadder
  import opened EventBuffer
  import opened Windows
  import opened Batch

  const BACKOFF_MIN: nat := 60 * SECOND
  const BACKOFF_MAX: nat := 600 * SECOND
  const FLUSH_DEFAULT: nat := 30 * SECOND
  const MAX_PAUSE: nat := 86_400 * SECOND
  const URGENT_EVENTS: nat := 50
  const OPEN_ROW_ESTIMATE: nat := 400
  const BATCH_TRIGGER_BYTES: nat := 60 * 1024

  datatype Config = Config(sz: Sizes, retentionBytes: nat, hasKey: bool)

  datatype Buffer = Buffer(events: seq<Buffered>, bytes: nat, nextId: nat)

  datatype Counting = Counting(
    start: Option<nat>,        // the open window's minute
    open: seq<Entry>,
    closed: seq<Window>,
    nextId: nat,
    retained: nat)

  datatype Timing = Timing(
    flushInterval: nat,
    backoff: nat,
    backoffUntil: nat,
    pausedUntil: nat,
    nextFlushAt: nat,
    urgentNotBefore: nat,
    urgentFlush: bool)

  datatype Core = Core(
    buf: Buffer,
    win: Counting,
    time: Timing,
    sampleRate: real,
    dropped: u64,
    seqNo: u64,
    disabled: bool,
    shut: bool,
    workerStarted: bool)

  // ---- Construction ----

  /** `None` stands for a rate that is not finite. */
  function NormaliseSampleRate(rate: Option<real>): (r: real)
    ensures 0.0 <= r <= 1.0
  {
    match rate
    case None => 0.01
    case Some(x) => if x < 0.0 then 0.0 else if x > 1.0 then 1.0 else x
  }

  function NormaliseFlushInterval(interval: nat): (r: nat)
    ensures 0 < r <= BACKOFF_MAX
  {
    if interval > 0 then Min(interval, BACKOFF_MAX) else FLUSH_DEFAULT
  }

  function Initial(rate: Option<real>, interval: nat): Core {
    Core(
      Buffer([], 0, 0),
      Counting(None, [], [], 0, 0),
      Timing(NormaliseFlushInterval(interval), BACKOFF_MIN, 0, 0, 0, 0, false),
      NormaliseSampleRate(rate), 0, 0, false, false, false)
  }

  // ---- Windows ----

  /** The oldest `k` closed windows dropped, their rows counted. */
  function DropWindows(s: Core, k: nat): Core
    requires k <= |s.win.closed|
  {
    s.(win := s.win.(closed := s.win.closed[k..], retained := SatSub(s.win.retained, Retained(s.win.closed[..k]))),
       dropped := SatAdd(s.dropped, RowCount(s.win.closed[..k])))
  }

  function Prune(cfg: Config, s: Core, now: nat): Core {
    DropWindows(s, PruneCount(s.win.closed, now, cfg.retentionBytes))
  }

  /** The open rows pushed as a closed window, before pruning. */
  function PushWindow(cfg: Config, w: Counting, now: nat): Counting
    requires w.start.Some?
  {
    var bytes := WindowBytes(cfg.sz, w.open);
    Counting(Some(MinuteStart(now)), [],
             w.closed + [Window(w.nextId, w.start.value, w.open, bytes)],
             w.nextId + 1, w.retained + bytes)
  }

  function CloseWindow(cfg: Config, s: Core, now: nat): Core {
    if s.win.start.None? || s.win.open == [] then s
    else Prune(cfg, s.(win := PushWindow(cfg, s.win, now)), now)
  }

  function RollWindow(cfg: Config, s: Core, now: nat): Core {
    match s.win.start
    case None => s.(win := s.win.(start := Some(MinuteStart(now))))
    case Some(current) =>
      if MinuteStart(now) > current then
        var t := CloseWindow(cfg, s, now);
        t.(win := t.win.(start := Some(MinuteStart(now))))
      else s
  }

  function MergeCounters(s: Core, incs: seq<Entry>): Core {
    s.(win := s.win.(open := MergeAll(s.win.open, incs)))
  }

  // ---- Events ----

  /** What sampling made of a finished call: nothing, an event the schema cannot
      carry, or an event to buffer. */
  datatype Sample = Unsampled | Unfit | Kept(wire: WireEvent)

  function DropBufferedEvent(s: Core): Core {
    if s.buf.events == [] then s
    else
      var i := VictimIndex(s.buf.events);
      s.(buf := s.buf.(events := RemoveAt(s.buf.events, i), bytes := SatSub(s.buf.bytes, s.buf.events[i].bytes)),
         dropped := SatAdd(s.dropped, 1))
  }

  function AppendEvent(cfg: Config, s: Core, wire: WireEvent, now: nat): Core {
    var t := if |s.buf.events| >= MAX_EVENTS then DropBufferedEvent(s) else s;
    var bytes := cfg.sz.event(wire, 0);
    t.(buf := Buffer(t.buf.events + [Buffered(t.buf.nextId, wire, now, bytes, wire.ok)],
                     t.buf.bytes + bytes, t.buf.nextId + 1))
  }

  predicate Urgent(s: Core) {
    || |s.buf.events| >= URGENT_EVENTS
    || s.buf.bytes + s.win.retained + |s.win.open| * OPEN_ROW_ESTIMATE >= BATCH_TRIGGER_BYTES
  }

  function StartWorker(s: Core, now: nat, runtime: bool): Core {
    if s.workerStarted || s.disabled || s.shut || !runtime then s
    else s.(time := s.time.(nextFlushAt := now + s.time.flushInterval), workerStarted := true)
  }

  function TakeSample(cfg: Config, s: Core, now: nat, sample: Sample): Core {
    match sample
    case Unsampled => s
    case Unfit => s.(dropped := SatAdd(s.dropped, 1))
    case Kept(wire) => AppendEvent(cfg, s, wire, now)
  }

  function Wake(s: Core, now: nat, runtime: bool): Core {
    var t := StartWorker(s, now, runtime);
    if Urgent(t) then t.(time := t.time.(urgentFlush := true)) else t
  }

  /** One finished call: its counters and, if sampled, its event. */
  function OnRequest(cfg: Config, s: Core, now: nat, sample: Sample, incs: seq<Entry>, runtime: bool): Core {
    if s.disabled || s.shut then s
    else Wake(TakeSample(cfg, MergeCounters(RollWindow(cfg, s, now), incs), now, sample), now, runtime)
  }

  // ---- Flushing ----

  function Gate(t: Timing): nat {
    Max(t.pausedUntil, t.backoffUntil)
  }

  /** The windows as selection sees them: everything closed and pruned. */
  function Settle(cfg: Config, s: Core, now: nat): Core {
    Prune(cfg, CloseWindow(cfg, RollWindow(cfg, s, now), now), now)
  }

  function BatchContext(cfg: Config, s: Core, now: nat): Context {
    Context(cfg.sz, now, cfg.sz.envelope(s.seqNo, s.dropped))
  }

  /** Sequence numbers are 64-bit and start over after the last one. */
  function NextSeq(n: u64): u64 {
    if n == U64_MAX then 0 else n + 1
  }

  /** The next batch of a settled state; the sequence number moves only if
      something waits. */
  function SelectSettled(cfg: Config, t: Core, now: nat): (Core, Option<Selected>) {
    if t.buf.events == [] && Flatten(t.win.closed) == [] then (t, None)
    else
      (t.(seqNo := NextSeq(t.seqNo)),
       Select(BatchContext(cfg, t, now), t.buf.events, t.win.closed, t.dropped))
  }

  function SelectBatch(cfg: Config, s: Core, now: nat): (Core, Option<Selected>) {
    SelectSettled(cfg, Settle(cfg, s, now), now)
  }

  /** Takes out exactly the items a flush sent, by identity. */
  function RemoveSelected(cfg: Config, s: Core, sel: Selected): Core {
    var events := Retain(s.buf.events, SentIds(sel));
    var closed := RetireWindows(cfg.sz, s.win.closed, SentRefs(sel));
    s.(buf := s.buf.(events := events, bytes := SumBytes(events)),
       win := s.win.(closed := closed, retained := Retained(closed)))
  }

  function SetBackoff(t: Timing, now: nat, retryAfter: Option<nat>): Timing {
    var delay := if retryAfter.Some? then Max(t.backoff, retryAfter.value) else t.backoff;
    t.(backoffUntil := now + Min(delay, BACKOFF_MAX),
       backoff := Min(Max(t.backoff * 2, BACKOFF_MIN), BACKOFF_MAX))
  }

  function Disable(s: Core): Core {
    s.(disabled := true,
       buf := s.buf.(events := [], bytes := 0),
       win := s.win.(open := [], closed := [], retained := 0),
       dropped := 0)
  }

  /** A 202's policy; each entry is present only if it was a finite number. */
  datatype Policy = Policy(sampleRate: Option<real>, flush: Option<int>, pause: Option<int>)

  function ApplyPolicy(s: Core, p: Policy, now: nat): Core {
    var rate := if p.sampleRate.Some? && 0.0 <= p.sampleRate.value < s.sampleRate
                then p.sampleRate.value else s.sampleRate;
    var interval := if p.flush.Some? && p.flush.value > s.time.flushInterval
                    then Min(p.flush.value, BACKOFF_MAX) else s.time.flushInterval;
    var paused := if p.pause.Some? && 0 <= p.pause.value <= MAX_PAUSE
                  then Max(s.time.pausedUntil, now + p.pause.value) else s.time.pausedUntil;
    s.(sampleRate := rate, time := s.time.(flushInterval := interval, pausedUntil := paused))
  }

  datatype Reply = Reply(status: nat, off: bool, retryAfter: Option<int>, policy: Option<Policy>)

  /** Acknowledged, with nothing to say. */
  const PLAIN_202 := Reply(202, false, None, None)

  /** A `Retry-After` is honoured only within `0..=600` seconds. */
  function RetryAfter(raw: Option<int>): Option<nat> {
    if raw.Some? && 0 <= raw.value <= BACKOFF_MAX then Some(raw.value) else None
  }

  predicate DisablingStatus(status: nat) {
    status == 400 || status == 401 || status == 403 || status == 404 || status == 410
  }

  function Acknowledge(cfg: Config, s: Core, sel: Selected): Core {
    var t := RemoveSelected(cfg, s, sel);
    t.(dropped := SatSub(t.dropped, sel.dropped),
       time := t.time.(backoff := BACKOFF_MIN, backoffUntil := 0))
  }

  function Accepted(cfg: Config, s: Core, now: nat, sel: Selected, policy: Option<Policy>): Core {
    var t := Acknowledge(cfg, s, sel);
    if policy.Some? then ApplyPolicy(t, policy.value, now) else t
  }

  function TooLarge(cfg: Config, s: Core, sel: Selected): Core {
    var t := RemoveSelected(cfg, s, sel);
    t.(dropped := SatAdd(t.dropped, |sel.eventIds| + |sel.refs|))
  }

  function HandleResponse(cfg: Config, s: Core, now: nat, sel: Selected, reply: Reply): Core {
    if reply.off || DisablingStatus(reply.status) then Disable(s)
    else if reply.status == 202 then Accepted(cfg, s, now, sel, reply.policy)
    else if reply.status == 413 then TooLarge(cfg, s, sel)
    else s.(time := SetBackoff(s.time, now, RetryAfter(reply.retryAfter)))
  }

  // ---- The background worker ----

  /** Whether a poll of the worker loop starts a flush. */
  predicate ShouldFlush(t: Timing, now: nat) {
    || (t.urgentFlush && now >= Gate(t) && now >= t.urgentNotBefore)
    || now >= Max(t.nextFlushAt, Gate(t))
  }

  function WorkerPoll(t: Timing, now: nat): Timing {
    if t.urgentFlush && now >= Gate(t) && now >= t.urgentNotBefore then t.(urgentFlush := false) else t
  }

  function WorkerDone(t: Timing, now: nat): Timing {
    t.(nextFlushAt := now + t.flushInterval, urgentNotBefore := now + t.flushInterval)
  }
}
