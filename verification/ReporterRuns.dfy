/** Every run of the reporter: records, flushes and replies in any interleaving.

    A `World` is the reporter's state together with the one batch that may be in
    flight (the flush lock admits no second), the worker's phase and a history of
    what happened, kept for one counter field `f` chosen at will. Step times never
    decrease. */
module ReporterRuns {
  import opened Basics
  import opened Counters
  import opened FoldLadder
  import opened EventBuffer
  import opened Windows
  import opened Batch
  import opened ReporterSpec

  datatype History = History(
    appended: seq<WireEvent>,  // every event ever buffered, by id
    merged: nat,               // counts handed to the ladder
    lost: nat,                 // counts the ladder's clamps gave up
    retired: nat,              // counts removed by a 202
    discarded: nat,            // counts pruned, or removed by a 413
    cleared: nat,              // counts cleared by disabling
    counted: nat,              // drops ever counted
    acked: nat,                // drops reported and acknowledged
    forgotten: nat,            // drops cleared by disabling
    saturated: nat,            // drops the 64-bit counter had no room for
    failures: nat)             // backoffs since the last 202

  const EMPTY_HISTORY := History([], 0, 0, 0, 0, 0, 0, 0, 0, 0, 0)

  datatype WorkerFlush = WorkerFlush(start: nat, finish: Option<nat>, interval: nat)

  /** A flush that has passed the gate and not selected yet: when it looked, and
      whether a backoff was imposed since. */
  datatype Checked = Checked(at: nat, overtaken: bool)

  datatype World = World(
    core: Core,
    hist: History,
    checked: Option<Checked>,
    flight: Option<Selected>,
    now: nat,
    busy: bool,                // the worker is between a poll and its end
    flushes: seq<WorkerFlush>)

  datatype Step =
    | Record(now: nat, sample: Sample, incs: seq<Entry>, runtime: bool)
    | CheckGate(now: nat)      // a flush takes the flush lock and looks at the gate
    | BeginFlush(now: nat)     // under the same flush lock, it selects its batch
    | Respond(now: nat, reply: Reply)
    | SendFailed(now: nat)
    | Abandon(now: nat)        // the flush future is dropped at its await
    | NoClient(now: nat)       // the worker could not build its HTTP client
    | Close(now: nat)
    | Poll(now: nat)
    | Done(now: nat)

  // ---- How history follows each operation ----

  function HPrune(cfg: Config, f: Field, s: Core, h: History, now: nat): History {
    var gone := s.win.closed[..PruneCount(s.win.closed, now, cfg.retentionBytes)];
    h.(discarded := h.discarded + Total(ClosedEntries(gone), Everything, f)).(
      counted := h.counted + RowCount(gone),
      saturated := h.saturated + Excess(s.dropped + RowCount(gone), U64_MAX))
  }

  function HClose(cfg: Config, f: Field, s: Core, h: History, now: nat): History {
    if s.win.start.None? || s.win.open == [] then h
    else HPrune(cfg, f, s.(win := PushWindow(cfg, s.win, now)), h, now)
  }

  function HRoll(cfg: Config, f: Field, s: Core, h: History, now: nat): History {
    if s.win.start.Some? && MinuteStart(now) > s.win.start.value then HClose(cfg, f, s, h, now) else h
  }

  function HMerge(f: Field, s: Core, h: History, incs: seq<Entry>): History {
    h.(merged := h.merged + Increments(incs, f), lost := h.lost + LossAll(s.win.open, incs, f))
  }

  function HDrop(s: Core, h: History, n: nat): History {
    h.(counted := h.counted + n, saturated := h.saturated + Excess(s.dropped + n, U64_MAX))
  }

  function HSample(s: Core, h: History, sample: Sample): History {
    match sample
    case Unsampled => h
    case Unfit => HDrop(s, h, 1)
    case Kept(wire) =>
      HDrop(s, h, if |s.buf.events| >= MAX_EVENTS then 1 else 0).(appended := h.appended + [wire])
  }

  function HRecord(cfg: Config, f: Field, s: Core, h: History, now: nat, sample: Sample, incs: seq<Entry>): History {
    if s.disabled || s.shut then h
    else
      var t := RollWindow(cfg, s, now);
      HSample(MergeCounters(t, incs), HMerge(f, t, HRoll(cfg, f, s, h, now), incs), sample)
  }

  function HSettle(cfg: Config, f: Field, s: Core, h: History, now: nat): History {
    var t := RollWindow(cfg, s, now);
    var u := CloseWindow(cfg, t, now);
    HPrune(cfg, f, u, HClose(cfg, f, t, HRoll(cfg, f, s, h, now), now), now)
  }

  function HRespond(f: Field, s: Core, h: History, sel: Selected, reply: Reply): History {
    var removed := Total(RetiredRows(s.win.closed, SentRefs(sel)), Everything, f);
    if reply.off || DisablingStatus(reply.status) then
      h.(cleared := h.cleared + Total(s.win.open, Everything, f) + Total(ClosedEntries(s.win.closed), Everything, f),
         forgotten := h.forgotten + s.dropped)
    else if reply.status == 202 then
      h.(retired := h.retired + removed, acked := h.acked + sel.dropped, failures := 0)
    else if reply.status == 413 then
      HDrop(s, h, |sel.eventIds| + |sel.refs|).(discarded := h.discarded + removed)
    else h.(failures := h.failures + 1)
  }

  // ---- Steps ----

  predicate MayFlush(cfg: Config, w: World, now: nat) {
    !w.core.disabled && now >= Gate(w.core.time) && cfg.hasKey
  }

  predicate Enabled(w: World, step: Step) {
    && step.now >= w.now
    && (step.CheckGate? ==> w.checked == None && w.flight == None)
    && (step.BeginFlush? ==> w.checked.Some?)
    && (step.Respond? || step.SendFailed? || step.Abandon? ==> w.flight.Some?)
    && (step.Poll? ==> w.core.workerStarted && !w.busy)
    && (step.Done? || step.NoClient? ==> w.busy)
  }

  function Fail(w: World): World {
    w.(core := w.core.(time := SetBackoff(w.core.time, w.now, None)),
       hist := w.hist.(failures := w.hist.failures + 1))
  }

  function Next(cfg: Config, f: Field, w0: World, step: Step): World
    requires Enabled(w0, step)
  {
    var w := w0.(now := step.now);
    match step
    case Record(now, sample, incs, runtime) =>
      w.(core := OnRequest(cfg, w.core, now, sample, incs, runtime),
         hist := HRecord(cfg, f, w.core, w.hist, now, sample, incs))
    case CheckGate(now) => if MayFlush(cfg, w, now) then w.(checked := Some(Checked(now, false))) else w
    case BeginFlush(now) =>
      var (core, sel) := SelectBatch(cfg, w.core, now);
      w.(core := core, hist := HSettle(cfg, f, w.core, w.hist, now), checked := None, flight := sel)
    case Respond(now, reply) =>
      w.(core := HandleResponse(cfg, w.core, now, w.flight.value, reply),
         hist := HRespond(f, w.core, w.hist, w.flight.value, reply),
         flight := None)
    case SendFailed(now) => Fail(w).(flight := None)
    case Abandon(now) => w.(flight := None)
    case NoClient(now) =>
      Fail(w).(checked := if w.checked.Some? then Some(Checked(w.checked.value.at, true)) else None)
    case Close(now) => w.(core := w.core.(shut := true))
    case Poll(now) =>
      if w.core.shut || w.core.disabled || !ShouldFlush(w.core.time, now) then w
      else w.(core := w.core.(time := WorkerPoll(w.core.time, now)), busy := true,
              flushes := w.flushes + [WorkerFlush(now, None, 0)])
    case Done(now) =>
      var k := |w.flushes|;
      w.(core := w.core.(time := WorkerDone(w.core.time, now)), busy := false,
         flushes := if k == 0 then [] else
           w.flushes[k - 1 := w.flushes[k - 1].(finish := Some(now), interval := w.core.time.flushInterval)])
  }

  // ---- The invariant ----

  predicate GoodBuffer(b: Buffer, log: seq<WireEvent>) {
    ValidBuffer(b.events, log) && |log| == b.nextId && b.bytes == SumBytes(b.events)
  }

  predicate GoodWindows(cfg: Config, w: Counting, now: nat) {
    && ValidWindow(w.open)
    && ValidWindows(cfg.sz, w.closed)
    && (forall v :: v in w.closed ==> v.id < w.nextId)
    && w.retained == Retained(w.closed) <= cfg.retentionBytes
    && (w.start.None? ==> w.open == [] && w.closed == [])
    && (w.start.Some? ==> w.start.value <= MinuteStart(now) && forall v :: v in w.closed ==> v.start <= w.start.value)
  }

  /** Every count handed to the ladder is somewhere. */
  predicate Conserved(f: Field, w: Counting, h: History) {
    h.merged == Total(w.open, Everything, f) + Total(ClosedEntries(w.closed), Everything, f)
                + h.retired + h.discarded + h.cleared + h.lost
  }

  /** Every drop counted is acknowledged, waiting to be reported, forgotten by
      disabling or beyond what the counter can hold; the last only once more than
      2^64 - 1 were counted. */
  predicate DropsBalance(dropped: u64, h: History) {
    && h.counted == h.acked + dropped + h.forgotten + h.saturated
    && (h.saturated > 0 ==> h.counted > U64_MAX)
  }

  predicate GoodTimers(t: Timing, h: History) {
    && t.backoff == Min(BACKOFF_MIN * Pow2(h.failures), BACKOFF_MAX)
    && 0 < t.flushInterval <= BACKOFF_MAX
  }

  function High(sel: Selected): int {
    if sel.eventIds == [] then -1 else sel.eventIds[|sel.eventIds| - 1]
  }

  /** A closed row still held is the row that was sent under its identity. */
  predicate Frozen(ws: seq<Window>, rows: seq<ClosedRow>) {
    forall v, e, r ::
      v in ws && e in v.rows && r in rows && r.window == v.id && r.entry.key == e.key ==> r.entry == e
  }

  /** A batch names each of its items, and no two alike. */
  predicate Identified(sel: Selected) {
    && sel.eventIds == IdsOf(sel.events) && sel.refs == RefsOf(sel.rows)
    && Distinct(sel.eventIds) && Distinct(sel.refs)
  }

  predicate GoodFlight(s: Core, sel: Selected) {
    && !s.disabled
    && Identified(sel)
    && CoversUpTo(s.buf.events, SentIds(sel), High(sel))
    && (forall i :: i in sel.eventIds ==> i < s.buf.nextId)
    && sel.dropped <= s.dropped
    && (forall r :: r in sel.rows ==> r.window < s.win.nextId)
    && Frozen(s.win.closed, sel.rows)
  }

  predicate Emptied(s: Core) {
    s.buf.events == [] && s.win.open == [] && s.win.closed == [] && s.dropped == 0
  }

  /** Every worker flush starts a full interval after the previous one finished. */
  predicate Spaced(w: World) {
    var n := |w.flushes|;
    && (n > 0 ==> w.core.workerStarted)
    && (forall i :: 0 <= i < n - 1 ==> w.flushes[i].finish.Some?)
    && (forall i :: 0 <= i < n - 1 ==>
          w.flushes[i + 1].start >= w.flushes[i].finish.value + w.flushes[i].interval)
    && (w.busy ==> n > 0)
    && (!w.busy && n > 0 ==>
          && w.flushes[n - 1].finish.Some?
          && w.core.time.nextFlushAt == w.core.time.urgentNotBefore
             == w.flushes[n - 1].finish.value + w.flushes[n - 1].interval)
  }

  predicate Good(cfg: Config, f: Field, s: Core, h: History, flight: Option<Selected>, now: nat) {
    && GoodBuffer(s.buf, h.appended)
    && GoodWindows(cfg, s.win, now)
    && Conserved(f, s.win, h)
    && DropsBalance(s.dropped, h)
    && GoodTimers(s.time, h)
    && (s.disabled ==> Emptied(s))
    && (flight.Some? ==> GoodFlight(s, flight.value))
  }

  /** A flush past the gate still has its pause behind it, and its backoff unless
      one was imposed since. */
  predicate PastGate(cfg: Config, w: World) {
    w.checked.Some? ==>
      var c := w.checked.value;
      && w.flight == None && !w.core.disabled && cfg.hasKey
      && c.at <= w.now && w.core.time.pausedUntil <= c.at
      && (w.core.time.backoffUntil <= c.at <==> !c.overtaken)
  }

  predicate GoodWorld(cfg: Config, f: Field, w: World) {
    Good(cfg, f, w.core, w.hist, w.flight, w.now) && Spaced(w) && PastGate(cfg, w)
  }

  // ---- Each operation keeps it ----

  lemma {:induction false} MinuteStartMonotone(a: nat, b: nat)
    requires a <= b
    ensures MinuteStart(a) <= MinuteStart(b)
  {
    assert a / SECOND <= b / SECOND;
    assert a / SECOND / 60 <= b / SECOND / 60;
  }

  lemma {:induction false} ClosedEntriesConcat(a: seq<Window>, b: seq<Window>)
    ensures ClosedEntries(a + b) == ClosedEntries(a) + ClosedEntries(b)
  {
    if a == [] {
      assert a + b == b;
    } else {
      assert (a + b)[1..] == a[1..] + b;
      ClosedEntriesConcat(a[1..], b);
    }
  }

  lemma {:induction false} ClosedTotalSplit(ws: seq<Window>, k: nat, f: Field)
    requires k <= |ws|
    ensures Total(ClosedEntries(ws), Everything, f)
            == Total(ClosedEntries(ws[..k]), Everything, f) + Total(ClosedEntries(ws[k..]), Everything, f)
  {
    assert ws == ws[..k] + ws[k..];
    ClosedEntriesConcat(ws[..k], ws[k..]);
    TotalConcat(ClosedEntries(ws[..k]), ClosedEntries(ws[k..]), Everything, f);
  }

  /** The window invariant before the byte cap is enforced. */
  predicate Unpruned(cfg: Config, w: Counting, now: nat) {
    && ValidWindow(w.open)
    && ValidWindows(cfg.sz, w.closed)
    && (forall v :: v in w.closed ==> v.id < w.nextId)
    && w.retained == Retained(w.closed)
    && w.start.Some? && w.start.value <= MinuteStart(now)
    && forall v :: v in w.closed ==> v.start <= w.start.value
  }

  lemma {:induction false} PruneGoodWindows(cfg: Config, s: Core, now: nat)
    requires Unpruned(cfg, s.win, now)
    ensures GoodWindows(cfg, Prune(cfg, s, now).win, now)
    ensures forall v :: v in Prune(cfg, s, now).win.closed ==> v in s.win.closed && !TooOld(v, now)
  {
    var k := PruneCount(s.win.closed, now, cfg.retentionBytes);
    PruneExactly(s.win.closed, now, cfg.retentionBytes);
    RetainedSplit(s.win.closed, k);
    DropPrefixValid(cfg.sz, s.win.closed, k);
  }

  lemma {:induction false} PruneKeeps(
    cfg: Config, f: Field, s: Core, h: History, flight: Option<Selected>, now: nat)
    requires Unpruned(cfg, s.win, now)
    requires GoodBuffer(s.buf, h.appended) && Conserved(f, s.win, h) && DropsBalance(s.dropped, h)
    requires GoodTimers(s.time, h) && !s.disabled && (flight.Some? ==> GoodFlight(s, flight.value))
    ensures Good(cfg, f, Prune(cfg, s, now), HPrune(cfg, f, s, h, now), flight, now)
  {
    var k := PruneCount(s.win.closed, now, cfg.retentionBytes);
    PruneGoodWindows(cfg, s, now);
    ClosedTotalSplit(s.win.closed, k, f);
  }

  lemma {:induction false} TimePasses(
    cfg: Config, f: Field, s: Core, h: History, flight: Option<Selected>, now: nat, now': nat)
    requires Good(cfg, f, s, h, flight, now) && now <= now'
    ensures Good(cfg, f, s, h, flight, now')
  {
    MinuteStartMonotone(now, now');
  }

  lemma {:induction false} PushUnpruned(cfg: Config, w: Counting, now: nat)
    requires GoodWindows(cfg, w, now) && w.start.Some? && w.open != []
    ensures Unpruned(cfg, PushWindow(cfg, w, now), now)
  {
    var v := Window(w.nextId, w.start.value, w.open, WindowBytes(cfg.sz, w.open));
    AppendWindowValid(cfg.sz, w.closed, v);
    RetainedConcat(w.closed, [v]);
    assert Retained([v]) == v.bytes;
  }

  lemma {:induction false} PushConserves(cfg: Config, f: Field, w: Counting, h: History, now: nat)
    requires w.start.Some? && Conserved(f, w, h)
    ensures Conserved(f, PushWindow(cfg, w, now), h)
  {
    var v := Window(w.nextId, w.start.value, w.open, WindowBytes(cfg.sz, w.open));
    ClosedEntriesConcat(w.closed, [v]);
    assert ClosedEntries([v]) == w.open;
    TotalConcat(ClosedEntries(w.closed), w.open, Everything, f);
  }

  lemma {:induction false} PushKeepsFlight(cfg: Config, s: Core, sel: Selected, now: nat)
    requires GoodFlight(s, sel) && s.win.start.Some?
    ensures GoodFlight(s.(win := PushWindow(cfg, s.win, now)), sel)
  {
  }

  lemma {:induction false} CloseKeeps(
    cfg: Config, f: Field, s: Core, h: History, flight: Option<Selected>, now: nat)
    requires Good(cfg, f, s, h, flight, now) && !s.disabled
    ensures Good(cfg, f, CloseWindow(cfg, s, now), HClose(cfg, f, s, h, now), flight, now)
    ensures s.win.start.Some? ==> CloseWindow(cfg, s, now).win.start.Some? && CloseWindow(cfg, s, now).win.open == []
  {
    if s.win.start.Some? && s.win.open != [] {
      PushUnpruned(cfg, s.win, now);
      PushConserves(cfg, f, s.win, h, now);
      if flight.Some? {
        PushKeepsFlight(cfg, s, flight.value, now);
      }
      PruneKeeps(cfg, f, s.(win := PushWindow(cfg, s.win, now)), h, flight, now);
    }
  }

  lemma {:induction false} SetStartKeeps(
    cfg: Config, f: Field, s: Core, h: History, flight: Option<Selected>, now: nat)
    requires Good(cfg, f, s, h, flight, now) && !s.disabled
    ensures Good(cfg, f, s.(win := s.win.(start := Some(MinuteStart(now)))), h, flight, now)
  {
  }

  lemma {:induction false} RollOver(
    cfg: Config, f: Field, s: Core, h: History, flight: Option<Selected>, now: nat)
    requires Good(cfg, f, s, h, flight, now) && !s.disabled
    ensures var t := CloseWindow(cfg, s, now);
            Good(cfg, f, t.(win := t.win.(start := Some(MinuteStart(now)))), HClose(cfg, f, s, h, now), flight, now)
  {
    CloseKeeps(cfg, f, s, h, flight, now);
    SetStartKeeps(cfg, f, CloseWindow(cfg, s, now), HClose(cfg, f, s, h, now), flight, now);
  }

  lemma {:induction false} RollKeeps(
    cfg: Config, f: Field, s: Core, h: History, flight: Option<Selected>, now: nat)
    requires Good(cfg, f, s, h, flight, now) && !s.disabled
    ensures Good(cfg, f, RollWindow(cfg, s, now), HRoll(cfg, f, s, h, now), flight, now)
    ensures RollWindow(cfg, s, now).win.start.Some? && !RollWindow(cfg, s, now).disabled
  {
    if s.win.start.None? {
      SetStartKeeps(cfg, f, s, h, flight, now);
    } else {
      RollOver(cfg, f, s, h, flight, now);
    }
  }

  lemma {:induction false} MergeKeeps(
    cfg: Config, f: Field, s: Core, h: History, flight: Option<Selected>, now: nat, incs: seq<Entry>)
    requires Good(cfg, f, s, h, flight, now) && !s.disabled && s.win.start.Some?
    ensures Good(cfg, f, MergeCounters(s, incs), HMerge(f, s, h, incs), flight, now)
  {
    MergeAllExactly(s.win.open, incs, f);
  }

  lemma {:induction false} AppendKeepsBuffer(cfg: Config, s: Core, log: seq<WireEvent>, wire: WireEvent, now: nat)
    requires GoodBuffer(s.buf, log)
    ensures GoodBuffer(AppendEvent(cfg, s, wire, now).buf, log + [wire])
  {
    var t := if |s.buf.events| >= MAX_EVENTS then DropBufferedEvent(s) else s;
    var b := Buffered(t.buf.nextId, wire, now, cfg.sz.event(wire, 0), wire.ok);
    AppendValid(s.buf.events, log, b);
    if |s.buf.events| >= MAX_EVENTS {
      SumRemoveAt(s.buf.events, VictimIndex(s.buf.events));
    }
    assert AppendEvent(cfg, s, wire, now).buf.events == MakeRoom(s.buf.events) + [b];
    SumConcat(MakeRoom(s.buf.events), [b]);
  }

  /** Evictions and appends leave the in-flight ids a prefix of what is buffered. */
  lemma {:induction false} AppendKeepsFlight(cfg: Config, s: Core, sel: Selected, wire: WireEvent, now: nat)
    requires GoodFlight(s, sel)
    ensures GoodFlight(AppendEvent(cfg, s, wire, now), sel)
  {
    var t := AppendEvent(cfg, s, wire, now);
    var b := Buffered(s.buf.nextId, wire, now, cfg.sz.event(wire, 0), wire.ok);
    assert sel.eventIds != [] ==> High(sel) in sel.eventIds;
    assert High(sel) < b.id && b.id !in SentIds(sel);
    assert forall e :: e in t.buf.events ==> e == b || e in s.buf.events;
  }

  lemma {:induction false} SampleKeeps(
    cfg: Config, f: Field, s: Core, h: History, flight: Option<Selected>, now: nat, sample: Sample)
    requires Good(cfg, f, s, h, flight, now) && !s.disabled
    ensures Good(cfg, f, TakeSample(cfg, s, now, sample), HSample(s, h, sample), flight, now)
  {
    if sample.Kept? {
      AppendKeepsBuffer(cfg, s, h.appended, sample.wire, now);
      if flight.Some? {
        AppendKeepsFlight(cfg, s, flight.value, sample.wire, now);
      }
    }
  }

  lemma {:induction false} RecordKeeps(
    cfg: Config, f: Field, s: Core, h: History, flight: Option<Selected>, now: nat,
    sample: Sample, incs: seq<Entry>, runtime: bool)
    requires Good(cfg, f, s, h, flight, now)
    ensures Good(cfg, f, OnRequest(cfg, s, now, sample, incs, runtime),
                 HRecord(cfg, f, s, h, now, sample, incs), flight, now)
  {
    if !s.disabled && !s.shut {
      var t := RollWindow(cfg, s, now);
      var ht := HRoll(cfg, f, s, h, now);
      RollKeeps(cfg, f, s, h, flight, now);
      MergeKeeps(cfg, f, t, ht, flight, now, incs);
      var u := MergeCounters(t, incs);
      var hu := HMerge(f, t, ht, incs);
      SampleKeeps(cfg, f, u, hu, flight, now, sample);
      WakeKeeps(cfg, f, TakeSample(cfg, u, now, sample), HSample(u, hu, sample), flight, now, runtime);
    }
  }

  lemma {:induction false} WakeKeeps(
    cfg: Config, f: Field, s: Core, h: History, flight: Option<Selected>, now: nat, runtime: bool)
    requires Good(cfg, f, s, h, flight, now)
    ensures Good(cfg, f, Wake(s, now, runtime), h, flight, now)
  {
  }

  lemma {:induction false} SettleKeeps(cfg: Config, f: Field, s: Core, h: History, flight: Option<Selected>, now: nat)
    requires Good(cfg, f, s, h, flight, now) && !s.disabled
    ensures Good(cfg, f, Settle(cfg, s, now), HSettle(cfg, f, s, h, now), flight, now)
    ensures Settle(cfg, s, now).win.open == []
    ensures forall v :: v in Settle(cfg, s, now).win.closed ==> !TooOld(v, now)
  {
    var t := RollWindow(cfg, s, now);
    var ht := HRoll(cfg, f, s, h, now);
    RollKeeps(cfg, f, s, h, flight, now);
    CloseKeeps(cfg, f, t, ht, flight, now);
    PruneAgain(cfg, f, CloseWindow(cfg, t, now), HClose(cfg, f, t, ht, now), flight, now);
  }

  lemma {:induction false} PruneAgain(
    cfg: Config, f: Field, s: Core, h: History, flight: Option<Selected>, now: nat)
    requires Good(cfg, f, s, h, flight, now) && s.win.start.Some? && !s.disabled
    ensures Good(cfg, f, Prune(cfg, s, now), HPrune(cfg, f, s, h, now), flight, now)
    ensures Prune(cfg, s, now).win.open == s.win.open
    ensures forall v :: v in Prune(cfg, s, now).win.closed ==> !TooOld(v, now)
  {
    PruneKeeps(cfg, f, s, h, flight, now);
    PruneGoodWindows(cfg, s, now);
  }

  lemma {:induction false} FlattenMembers(ws: seq<Window>)
    ensures forall r :: r in Flatten(ws) ==>
              exists v :: v in ws && r.window == v.id && r.start == v.start && r.entry in v.rows
  {
    if ws != [] {
      FlattenMembers(ws[1..]);
      assert ws[0] in ws;
      forall r | r in Flatten(ws)
        ensures exists v :: v in ws && r.window == v.id && r.start == v.start && r.entry in v.rows
      {
        if r !in RowsOf(ws[0]) {
          var v :| v in ws[1..] && r.window == v.id && r.start == v.start && r.entry in v.rows;
          assert v in ws;
        }
      }
    }
  }

  lemma {:induction false} FreshRowsFrozen(sz: Sizes, ws: seq<Window>, rows: seq<ClosedRow>)
    requires ValidWindows(sz, ws) && rows <= Flatten(ws)
    ensures Frozen(ws, rows)
  {
    FlattenMembers(ws);
    forall v, e, r | v in ws && e in v.rows && r in rows && r.window == v.id && r.entry.key == e.key
      ensures r.entry == e
    {
      assert r in Flatten(ws);
      var u :| u in ws && r.window == u.id && r.start == u.start && r.entry in u.rows;
      var i :| 0 <= i < |ws| && ws[i] == u;
      var j :| 0 <= j < |ws| && ws[j] == v;
      assert i == j;
      var a :| 0 <= a < |v.rows| && v.rows[a] == e;
      var b :| 0 <= b < |v.rows| && v.rows[b] == r.entry;
      assert a == b;
    }
  }

  lemma {:induction false} PrefixCovers(events: seq<Buffered>, prefix: seq<Buffered>)
    requires Sorted(events) && prefix <= events
    ensures var ids := IdsOf(prefix);
            CoversUpTo(events, Members(ids), if ids == [] then -1 else ids[|ids| - 1])
  {
    var ids := IdsOf(prefix);
    var n := |prefix|;
    forall b | b in events
      ensures b.id in ids <==> b.id <= if ids == [] then -1 else ids[n - 1]
    {
      var m :| 0 <= m < |events| && events[m] == b;
      assert forall k :: 0 <= k < n ==> ids[k] == events[k].id;
      if m < n {
        assert ids[m] == b.id;
      }
    }
  }

  lemma {:induction false} FlattenDistinct(sz: Sizes, ws: seq<Window>)
    requires ValidWindows(sz, ws)
    ensures Distinct(RefsOf(Flatten(ws)))
  {
    if ws != [] {
      var head, rest := RowsOf(ws[0]), Flatten(ws[1..]);
      assert forall w :: w in ws[1..] ==> w in ws;
      FlattenDistinct(sz, ws[1..]);
      FlattenMembers(ws[1..]);
      assert ws[0] in ws;
      forall r | r in rest ensures r.window != ws[0].id {
        var v :| v in ws[1..] && r.window == v.id && r.start == v.start && r.entry in v.rows;
      }
      DistinctConcat(ws[0], rest);
    }
  }

  lemma {:induction false} DistinctConcat(w: Window, rest: seq<ClosedRow>)
    requires Unique(w.rows) && Distinct(RefsOf(rest)) && forall r :: r in rest ==> r.window != w.id
    ensures Distinct(RefsOf(RowsOf(w) + rest))
  {
    var all, n := RowsOf(w) + rest, |w.rows|;
    forall i, j | 0 <= i < j < |all| ensures RefOf(all[i]) != RefOf(all[j]) {
      if i >= n {
        assert RefsOf(rest)[i - n] != RefsOf(rest)[j - n];
      } else if j >= n {
        assert all[j] == rest[j - n] && all[j] in rest;
      }
    }
  }

  lemma {:induction false} FreshIdentities(sz: Sizes, events: seq<Buffered>, ws: seq<Window>, sel: Selected)
    requires Sorted(events) && ValidWindows(sz, ws)
    requires sel.events <= events && sel.rows <= Flatten(ws)
    requires sel.eventIds == IdsOf(sel.events) && sel.refs == RefsOf(sel.rows)
    ensures Identified(sel)
  {
    FlattenDistinct(sz, ws);
    forall i, j | 0 <= i < j < |sel.eventIds| ensures sel.eventIds[i] != sel.eventIds[j] {
      assert events[i].id < events[j].id;
    }
    forall i, j | 0 <= i < j < |sel.refs| ensures sel.refs[i] != sel.refs[j] {
      assert RefsOf(Flatten(ws))[i] != RefsOf(Flatten(ws))[j];
    }
  }

  lemma {:induction false} FreshBelow(cfg: Config, t: Core, log: seq<WireEvent>, now: nat, sel: Selected)
    requires GoodBuffer(t.buf, log) && GoodWindows(cfg, t.win, now)
    requires sel.events <= t.buf.events && sel.rows <= Flatten(t.win.closed) && sel.eventIds == IdsOf(sel.events)
    ensures forall i :: i in sel.eventIds ==> i < t.buf.nextId
    ensures forall r :: r in sel.rows ==> r.window < t.win.nextId
  {
    FlattenMembers(t.win.closed);
    forall i | i in sel.eventIds ensures i < t.buf.nextId {
      var k :| 0 <= k < |sel.eventIds| && sel.eventIds[k] == i;
      assert t.buf.events[k] in t.buf.events;
    }
    forall r | r in sel.rows ensures r.window < t.win.nextId {
      assert r in Flatten(t.win.closed);
    }
  }

  lemma {:induction false} SelectedParts(cfg: Config, t: Core, now: nat, sel: Selected)
    requires Select(BatchContext(cfg, t, now), t.buf.events, t.win.closed, t.dropped) == Some(sel)
    ensures sel.events <= t.buf.events && sel.rows <= Flatten(t.win.closed)
    ensures sel.eventIds == IdsOf(sel.events) && sel.refs == RefsOf(sel.rows) && sel.dropped == t.dropped
  {
    SelectedWithinLimits(BatchContext(cfg, t, now), t.buf.events, t.win.closed, t.dropped);
  }

  lemma {:induction false} FreshFlight(cfg: Config, t: Core, log: seq<WireEvent>, now: nat, sel: Selected)
    requires GoodBuffer(t.buf, log) && GoodWindows(cfg, t.win, now) && !t.disabled
    requires sel.events <= t.buf.events && sel.rows <= Flatten(t.win.closed)
    requires sel.eventIds == IdsOf(sel.events) && sel.refs == RefsOf(sel.rows) && sel.dropped == t.dropped
    ensures GoodFlight(t, sel)
  {
    PrefixCovers(t.buf.events, sel.events);
    FreshRowsFrozen(cfg.sz, t.win.closed, sel.rows);
    FreshIdentities(cfg.sz, t.buf.events, t.win.closed, sel);
    FreshBelow(cfg, t, log, now, sel);
  }

  /** A freshly selected batch is in flight: its ids are a prefix of the buffer and
      its rows are the closed rows themselves. */
  lemma {:induction false} SelectKeeps(cfg: Config, f: Field, s: Core, h: History, now: nat)
    requires Good(cfg, f, s, h, None, now) && !s.disabled
    ensures var (core, sel) := SelectBatch(cfg, s, now);
            Good(cfg, f, core, HSettle(cfg, f, s, h, now), sel, now)
  {
    SettleKeeps(cfg, f, s, h, None, now);
    var t := Settle(cfg, s, now);
    var picked := SelectBatch(cfg, s, now).1;
    if picked.Some? {
      SelectedParts(cfg, t, now, picked.value);
      FreshFlight(cfg, t, HSettle(cfg, f, s, h, now).appended, now, picked.value);
    }
  }

  lemma {:induction false} RemoveKeeps(cfg: Config, s: Core, log: seq<WireEvent>, sel: Selected, now: nat, f: Field)
    requires GoodBuffer(s.buf, log) && GoodWindows(cfg, s.win, now) && GoodFlight(s, sel)
    ensures var t := RemoveSelected(cfg, s, sel);
            && GoodBuffer(t.buf, log) && GoodWindows(cfg, t.win, now)
            && Total(ClosedEntries(t.win.closed), Everything, f)
               + Total(RetiredRows(s.win.closed, SentRefs(sel)), Everything, f)
               == Total(ClosedEntries(s.win.closed), Everything, f)
  {
    RetainValid(s.buf.events, log, SentIds(sel), High(sel));
    RetireValid(cfg.sz, s.win.closed, SentRefs(sel));
    RetireWindowsMembers(cfg.sz, s.win.closed, SentRefs(sel));
    RetirementConserves(cfg.sz, s.win.closed, SentRefs(sel), f);
  }

  lemma {:induction false} PolicyKeeps(
    cfg: Config, f: Field, s: Core, h: History, now: nat, p: Policy)
    requires Good(cfg, f, s, h, None, now)
    ensures Good(cfg, f, ApplyPolicy(s, p, now), h, None, now)
  {
  }

  lemma {:induction false} AcknowledgeKeeps(
    cfg: Config, f: Field, s: Core, h: History, sel: Selected, now: nat, reply: Reply)
    requires Good(cfg, f, s, h, Some(sel), now) && reply.status == 202 && !reply.off
    ensures Good(cfg, f, Acknowledge(cfg, s, sel), HRespond(f, s, h, sel, reply), None, now)
  {
    RemoveKeeps(cfg, s, h.appended, sel, now, f);
    var t, h' := Acknowledge(cfg, s, sel), HRespond(f, s, h, sel, reply);
    var u := RemoveSelected(cfg, s, sel);
    assert t.buf == u.buf && t.win == u.win && h'.appended == h.appended;
    AcknowledgeBalances(f, s, h, sel, reply, u.win);
    AcknowledgeResets(cfg, f, s, h, sel, reply);
    Assemble(cfg, f, t, h', now);
  }

  lemma {:induction false} AcknowledgeBalances(
    f: Field, s: Core, h: History, sel: Selected, reply: Reply, win: Counting)
    requires Conserved(f, s.win, h) && DropsBalance(s.dropped, h) && sel.dropped <= s.dropped
    requires reply.status == 202 && !reply.off && win.open == s.win.open
    requires Total(ClosedEntries(win.closed), Everything, f)
             + Total(RetiredRows(s.win.closed, SentRefs(sel)), Everything, f)
             == Total(ClosedEntries(s.win.closed), Everything, f)
    ensures var h' := HRespond(f, s, h, sel, reply);
            Conserved(f, win, h') && DropsBalance(SatSub(s.dropped, sel.dropped), h')
  {
  }

  lemma {:induction false} AcknowledgeResets(
    cfg: Config, f: Field, s: Core, h: History, sel: Selected, reply: Reply)
    requires GoodTimers(s.time, h) && !s.disabled && reply.status == 202 && !reply.off
    ensures var t := Acknowledge(cfg, s, sel);
            GoodTimers(t.time, HRespond(f, s, h, sel, reply)) && !t.disabled
            && t.dropped == SatSub(s.dropped, sel.dropped)
  {
    assert Pow2(0) == 1;
  }

  /** The parts of the invariant of an enabled reporter with nothing in flight. */
  lemma {:induction false} Assemble(cfg: Config, f: Field, s: Core, h: History, now: nat)
    requires GoodBuffer(s.buf, h.appended) && GoodWindows(cfg, s.win, now)
    requires Conserved(f, s.win, h) && DropsBalance(s.dropped, h) && GoodTimers(s.time, h) && !s.disabled
    ensures Good(cfg, f, s, h, None, now)
  {
  }

  lemma {:induction false} AcceptedKeeps(
    cfg: Config, f: Field, s: Core, h: History, sel: Selected, now: nat, reply: Reply)
    requires Good(cfg, f, s, h, Some(sel), now) && reply.status == 202 && !reply.off
    ensures Good(cfg, f, Accepted(cfg, s, now, sel, reply.policy), HRespond(f, s, h, sel, reply), None, now)
  {
    AcknowledgeKeeps(cfg, f, s, h, sel, now, reply);
    if reply.policy.Some? {
      PolicyKeeps(cfg, f, Acknowledge(cfg, s, sel), HRespond(f, s, h, sel, reply), now, reply.policy.value);
    }
  }

  lemma {:induction false} TooLargeKeeps(
    cfg: Config, f: Field, s: Core, h: History, sel: Selected, now: nat, reply: Reply)
    requires Good(cfg, f, s, h, Some(sel), now) && reply.status == 413 && !reply.off
    ensures Good(cfg, f, TooLarge(cfg, s, sel), HRespond(f, s, h, sel, reply), None, now)
  {
    RemoveKeeps(cfg, s, h.appended, sel, now, f);
    var t, h', u := TooLarge(cfg, s, sel), HRespond(f, s, h, sel, reply), RemoveSelected(cfg, s, sel);
    assert t.buf == u.buf && t.win == u.win && t.time == s.time && h'.appended == h.appended;
    TooLargeBalances(f, s, h, sel, reply, u.win);
    Assemble(cfg, f, t, h', now);
  }

  lemma {:induction false} TooLargeBalances(
    f: Field, s: Core, h: History, sel: Selected, reply: Reply, win: Counting)
    requires Conserved(f, s.win, h) && DropsBalance(s.dropped, h) && GoodTimers(s.time, h)
    requires reply.status == 413 && !reply.off && win.open == s.win.open
    requires Total(ClosedEntries(win.closed), Everything, f)
             + Total(RetiredRows(s.win.closed, SentRefs(sel)), Everything, f)
             == Total(ClosedEntries(s.win.closed), Everything, f)
    ensures var h' := HRespond(f, s, h, sel, reply);
            && Conserved(f, win, h') && GoodTimers(s.time, h')
            && DropsBalance(SatAdd(s.dropped, |sel.eventIds| + |sel.refs|), h')
  {
  }

  lemma {:induction false} DisableKeeps(
    cfg: Config, f: Field, s: Core, h: History, sel: Selected, now: nat, reply: Reply)
    requires Good(cfg, f, s, h, Some(sel), now) && (reply.off || DisablingStatus(reply.status))
    ensures Good(cfg, f, Disable(s), HRespond(f, s, h, sel, reply), None, now)
  {
  }

  lemma {:induction false} BackoffKeepsTimers(t: Timing, h: History, now: nat, retryAfter: Option<nat>)
    requires GoodTimers(t, h) && (retryAfter.Some? ==> retryAfter.value <= BACKOFF_MAX)
    ensures GoodTimers(SetBackoff(t, now, retryAfter), h.(failures := h.failures + 1))
    ensures now + BACKOFF_MIN <= SetBackoff(t, now, retryAfter).backoffUntil <= now + BACKOFF_MAX
  {
    assert Pow2(h.failures) >= 1;
  }

  lemma {:induction false} RespondKeeps(
    cfg: Config, f: Field, s: Core, h: History, sel: Selected, now: nat, reply: Reply)
    requires Good(cfg, f, s, h, Some(sel), now)
    ensures Good(cfg, f, HandleResponse(cfg, s, now, sel, reply), HRespond(f, s, h, sel, reply), None, now)
  {
    if reply.off || DisablingStatus(reply.status) {
      DisableKeeps(cfg, f, s, h, sel, now, reply);
    } else if reply.status == 202 {
      AcceptedKeeps(cfg, f, s, h, sel, now, reply);
    } else if reply.status == 413 {
      TooLargeKeeps(cfg, f, s, h, sel, now, reply);
    } else {
      BackoffKeepsTimers(s.time, h, now, RetryAfter(reply.retryAfter));
    }
  }

  /** Steps that touch nothing but the timers, and may end the flight. */
  lemma {:induction false} TimersKeep(
    cfg: Config, f: Field, s: Core, h: History, flight: Option<Selected>, now: nat, t: Timing, failures: nat)
    requires Good(cfg, f, s, h, flight, now) && GoodTimers(t, h.(failures := failures))
    ensures Good(cfg, f, s.(time := t), h.(failures := failures), flight, now)
    ensures Good(cfg, f, s.(time := t), h.(failures := failures), None, now)
  {
  }

  lemma {:induction false} FailKeeps(
    cfg: Config, f: Field, s: Core, h: History, flight: Option<Selected>, now: nat)
    requires Good(cfg, f, s, h, flight, now)
    ensures var t := s.(time := SetBackoff(s.time, now, None));
            var h' := h.(failures := h.failures + 1);
            Good(cfg, f, t, h', flight, now) && Good(cfg, f, t, h', None, now)
  {
    BackoffKeepsTimers(s.time, h, now, None);
    TimersKeep(cfg, f, s, h, flight, now, SetBackoff(s.time, now, None), h.failures + 1);
  }

  lemma {:induction false} TimerStepKeeps(cfg: Config, f: Field, w0: World, step: Step)
    requires Good(cfg, f, w0.core, w0.hist, w0.flight, step.now) && Enabled(w0, step)
    requires !step.Record? && !step.BeginFlush? && !step.Respond?
    ensures var w := Next(cfg, f, w0, step); Good(cfg, f, w.core, w.hist, w.flight, w.now)
  {
    var s, h, flight, now := w0.core, w0.hist, w0.flight, step.now;
    match step {
      case Poll(_) => TimersKeep(cfg, f, s, h, flight, now, WorkerPoll(s.time, now), h.failures);
      case Done(_) => TimersKeep(cfg, f, s, h, flight, now, WorkerDone(s.time, now), h.failures);
      case Close(_) =>
      case CheckGate(_) => TimersKeep(cfg, f, s, h, flight, now, s.time, h.failures);
      case Abandon(_) => TimersKeep(cfg, f, s, h, flight, now, s.time, h.failures);
      case SendFailed(_) => FailKeeps(cfg, f, s, h, flight, now);
      case NoClient(_) => FailKeeps(cfg, f, s, h, flight, now);
    }
  }

  lemma {:induction false} TrafficStepKeeps(cfg: Config, f: Field, w0: World, step: Step)
    requires Good(cfg, f, w0.core, w0.hist, w0.flight, step.now) && Enabled(w0, step) && PastGate(cfg, w0)
    requires step.Record? || step.BeginFlush? || step.Respond?
    ensures var w := Next(cfg, f, w0, step); Good(cfg, f, w.core, w.hist, w.flight, w.now)
  {
    var s, h, flight := w0.core, w0.hist, w0.flight;
    match step {
      case Record(now, sample, incs, runtime) =>
        RecordKeeps(cfg, f, s, h, flight, now, sample, incs, runtime);
      case BeginFlush(now) =>
        SelectKeeps(cfg, f, s, h, now);
      case Respond(now, reply) => RespondKeeps(cfg, f, s, h, flight.value, now, reply);
    }
  }

  // ---- The worker's pace ----

  /** Once the worker runs, only its own steps move its next flush. */
  predicate SamePace(s: Core, t: Core) {
    s.workerStarted ==>
      && t.workerStarted
      && t.time.nextFlushAt == s.time.nextFlushAt
      && t.time.urgentNotBefore == s.time.urgentNotBefore
  }

  lemma {:induction false} WindowsKeepPace(cfg: Config, s: Core, now: nat)
    ensures var t := RollWindow(cfg, s, now); t.time == s.time && t.workerStarted == s.workerStarted
    ensures var t := CloseWindow(cfg, s, now); t.time == s.time && t.workerStarted == s.workerStarted
    ensures var t := Prune(cfg, s, now); t.time == s.time && t.workerStarted == s.workerStarted
  {
  }

  lemma {:induction false} RecordKeepsPace(
    cfg: Config, s: Core, now: nat, sample: Sample, incs: seq<Entry>, runtime: bool)
    ensures SamePace(s, OnRequest(cfg, s, now, sample, incs, runtime))
  {
    WindowsKeepPace(cfg, s, now);
    var t := MergeCounters(RollWindow(cfg, s, now), incs);
    var u := TakeSample(cfg, t, now, sample);
    assert u.time == t.time && u.workerStarted == t.workerStarted;
  }

  lemma {:induction false} SelectKeepsPace(cfg: Config, s: Core, now: nat)
    ensures SamePace(s, SelectBatch(cfg, s, now).0)
  {
    var t := RollWindow(cfg, s, now);
    WindowsKeepPace(cfg, s, now);
    WindowsKeepPace(cfg, t, now);
    WindowsKeepPace(cfg, CloseWindow(cfg, t, now), now);
  }

  lemma {:induction false} RespondKeepsPace(cfg: Config, s: Core, now: nat, sel: Selected, reply: Reply)
    ensures SamePace(s, HandleResponse(cfg, s, now, sel, reply))
  {
  }

  lemma {:induction false} SpacedFrame(w: World, w': World)
    requires Spaced(w) && SamePace(w.core, w'.core) && w'.busy == w.busy && w'.flushes == w.flushes
    ensures Spaced(w')
  {
  }

  lemma {:induction false} NextSpaced(cfg: Config, f: Field, w: World, step: Step)
    requires GoodWorld(cfg, f, w) && Enabled(w, step)
    ensures Spaced(Next(cfg, f, w, step))
  {
    match step {
      case Record(now, sample, incs, runtime) =>
        RecordKeepsPace(cfg, w.core, now, sample, incs, runtime);
        SpacedFrame(w, Next(cfg, f, w, step));
      case BeginFlush(now) =>
        SelectKeepsPace(cfg, w.core, now);
        SpacedFrame(w, Next(cfg, f, w, step));
      case Respond(now, reply) =>
        RespondKeepsPace(cfg, w.core, now, w.flight.value, reply);
        SpacedFrame(w, Next(cfg, f, w, step));
      case Poll(now) => PollSpaced(cfg, f, w, now);
      case Done(now) => DoneSpaced(cfg, f, w, now);
      case _ => SpacedFrame(w, Next(cfg, f, w, step));
    }
  }

  lemma {:induction false} PollSpaced(cfg: Config, f: Field, w: World, now: nat)
    requires Spaced(w) && Enabled(w, Poll(now))
    ensures Spaced(Next(cfg, f, w, Poll(now)))
  {
  }

  lemma {:induction false} DoneSpaced(cfg: Config, f: Field, w: World, now: nat)
    requires Spaced(w) && Enabled(w, Done(now))
    ensures Spaced(Next(cfg, f, w, Done(now)))
  {
  }

  // ---- The gate ----

  /** What the gate depends on. */
  predicate SameGate(s: Core, t: Core) {
    && t.disabled == s.disabled
    && t.time.pausedUntil == s.time.pausedUntil && t.time.backoffUntil == s.time.backoffUntil
  }

  lemma {:induction false} WindowsKeepGate(cfg: Config, s: Core, now: nat)
    ensures SameGate(s, RollWindow(cfg, s, now))
    ensures SameGate(s, CloseWindow(cfg, s, now))
    ensures SameGate(s, Prune(cfg, s, now))
  {
  }

  lemma {:induction false} RecordKeepsGate(
    cfg: Config, s: Core, now: nat, sample: Sample, incs: seq<Entry>, runtime: bool)
    ensures SameGate(s, OnRequest(cfg, s, now, sample, incs, runtime))
  {
    WindowsKeepGate(cfg, s, now);
    var t := MergeCounters(RollWindow(cfg, s, now), incs);
    assert SameGate(t, TakeSample(cfg, t, now, sample));
  }

  lemma {:induction false} PastGateFrame(cfg: Config, w: World, w': World)
    requires PastGate(cfg, w) && SameGate(w.core, w'.core) && w'.now >= w.now
    requires w'.checked == w.checked && (w.checked.Some? ==> w'.flight == None)
    ensures PastGate(cfg, w')
  {
  }

  lemma {:induction false} NextPastGate(cfg: Config, f: Field, w: World, step: Step)
    requires GoodWorld(cfg, f, w) && Enabled(w, step)
    ensures PastGate(cfg, Next(cfg, f, w, step))
  {
    match step {
      case Record(now, sample, incs, runtime) =>
        RecordKeepsGate(cfg, w.core, now, sample, incs, runtime);
        PastGateFrame(cfg, w, Next(cfg, f, w, step));
      case CheckGate(now) =>
      case BeginFlush(now) =>
      case Respond(now, reply) =>
      case SendFailed(now) =>
      case Abandon(now) => PastGateFrame(cfg, w, Next(cfg, f, w, step));
      case NoClient(now) => BackoffKeepsTimers(w.core.time, w.hist, now, None);
      case Close(now) => PastGateFrame(cfg, w, Next(cfg, f, w, step));
      case Poll(now) => PastGateFrame(cfg, w, Next(cfg, f, w, step));
      case Done(now) => PastGateFrame(cfg, w, Next(cfg, f, w, step));
    }
  }

  // ---- Runs ----

  lemma {:induction false} StepKeepsGood(cfg: Config, f: Field, w: World, step: Step)
    requires GoodWorld(cfg, f, w) && Enabled(w, step)
    ensures GoodWorld(cfg, f, Next(cfg, f, w, step))
  {
    TimePasses(cfg, f, w.core, w.hist, w.flight, w.now, step.now);
    if step.Record? || step.BeginFlush? || step.Respond? {
      TrafficStepKeeps(cfg, f, w, step);
    } else {
      TimerStepKeeps(cfg, f, w, step);
    }
    NextSpaced(cfg, f, w, step);
    NextPastGate(cfg, f, w, step);
  }

  predicate LegalRun(cfg: Config, f: Field, w: World, steps: seq<Step>)
    decreases |steps|
  {
    steps == [] || (Enabled(w, steps[0]) && LegalRun(cfg, f, Next(cfg, f, w, steps[0]), steps[1..]))
  }

  function Run(cfg: Config, f: Field, w: World, steps: seq<Step>): World
    requires LegalRun(cfg, f, w, steps)
    decreases |steps|
  {
    if steps == [] then w else Run(cfg, f, Next(cfg, f, w, steps[0]), steps[1..])
  }

  function Start(rate: Option<real>, interval: nat): World {
    World(Initial(rate, interval), EMPTY_HISTORY, None, None, 0, false, [])
  }

  lemma {:induction false} IdleBuffer(b: Buffer, log: seq<WireEvent>)
    requires b == Buffer([], 0, 0) && log == []
    ensures GoodBuffer(b, log)
  {
  }

  lemma {:induction false} IdleWindows(cfg: Config, f: Field, win: Counting, h: History, now: nat)
    requires win == Counting(None, [], [], 0, 0) && h == EMPTY_HISTORY
    ensures GoodWindows(cfg, win, now) && Conserved(f, win, h)
  {
  }

  lemma {:induction false} IdleParts(cfg: Config, f: Field, s: Core, h: History, now: nat)
    requires s.buf == Buffer([], 0, 0) && s.win == Counting(None, [], [], 0, 0) && h == EMPTY_HISTORY
    ensures GoodBuffer(s.buf, h.appended) && GoodWindows(cfg, s.win, now) && Conserved(f, s.win, h)
  {
    IdleBuffer(s.buf, h.appended);
    IdleWindows(cfg, f, s.win, h, now);
  }

  lemma {:induction false} NoDropsGood(cfg: Config, f: Field, s: Core, h: History, now: nat)
    requires GoodBuffer(s.buf, h.appended) && GoodWindows(cfg, s.win, now) && Conserved(f, s.win, h)
    requires s.dropped == h.counted == h.acked == h.forgotten == h.saturated == 0
    requires GoodTimers(s.time, h) && !s.disabled
    ensures Good(cfg, f, s, h, None, now)
  {
    Assemble(cfg, f, s, h, now);
  }

  lemma {:induction false} IdleGood(cfg: Config, f: Field, s: Core, h: History, now: nat)
    requires s.buf == Buffer([], 0, 0) && s.win == Counting(None, [], [], 0, 0) && s.dropped == 0 && !s.disabled
    requires h == EMPTY_HISTORY && GoodTimers(s.time, h)
    ensures Good(cfg, f, s, h, None, now)
  {
    IdleParts(cfg, f, s, h, now);
    NoDropsGood(cfg, f, s, h, now);
  }

  /** Nothing buffered, counted, dropped or under way. */
  predicate Fresh(w: World) {
    && w.core.buf == Buffer([], 0, 0) && w.core.win == Counting(None, [], [], 0, 0)
    && w.core.dropped == 0 && !w.core.disabled && w.hist == EMPTY_HISTORY && GoodTimers(w.core.time, w.hist)
    && w.checked == None && w.flight == None && !w.busy && w.flushes == []
  }

  lemma {:induction false} StartIsFresh(rate: Option<real>, interval: nat)
    ensures Fresh(Start(rate, interval))
  {
    assert Pow2(0) == 1;
  }

  lemma {:induction false} RestingGood(cfg: Config, f: Field, w: World)
    requires Good(cfg, f, w.core, w.hist, w.flight, w.now) && w.checked == None && !w.busy && w.flushes == []
    ensures GoodWorld(cfg, f, w)
  {
  }

  /** A newly built reporter meets the invariant. */
  lemma {:induction false} FreshGood(cfg: Config, f: Field, w: World)
    requires Fresh(w)
    ensures GoodWorld(cfg, f, w)
  {
    IdleGood(cfg, f, w.core, w.hist, w.now);
    RestingGood(cfg, f, w);
  }

  lemma {:induction false} RunKeepsGood(cfg: Config, f: Field, w: World, steps: seq<Step>)
    requires GoodWorld(cfg, f, w) && LegalRun(cfg, f, w, steps)
    ensures GoodWorld(cfg, f, Run(cfg, f, w, steps))
    decreases |steps|
  {
    if steps != [] {
      StepKeepsGood(cfg, f, w, steps[0]);
      RunKeepsGood(cfg, f, Next(cfg, f, w, steps[0]), steps[1..]);
    }
  }
}
