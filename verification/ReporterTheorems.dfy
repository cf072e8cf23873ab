/** What holds in every reachable state of the reporter, and what a run drains. */
module ReporterTheorems {
  import opened Basics
  import opened Counters
  import opened FoldLadder
  import opened EventBuffer
  import opened Windows
  import opened Batch
  import opened ReporterSpec
  import opened ReporterRuns

  /** Some legal run from a newly built reporter ends in `w`. */
  ghost predicate Reachable(cfg: Config, f: Field, w: World) {
    exists w0, steps :: IsStart(w0) && LegalRun(cfg, f, w0, steps) && Run(cfg, f, w0, steps) == w
  }

  ghost predicate IsStart(w: World) {
    exists rate, interval :: w == Start(rate, interval)
  }

  lemma {:induction false} IsStartGood(cfg: Config, f: Field, w: World)
    requires IsStart(w)
    ensures GoodWorld(cfg, f, w)
  {
    var rate, interval :| w == Start(rate, interval);
    StartIsFresh(rate, interval);
    FreshGood(cfg, f, w);
  }

  lemma {:induction false} ReachableGood(cfg: Config, f: Field, w: World)
    requires Reachable(cfg, f, w)
    ensures GoodWorld(cfg, f, w)
  {
    var w0, steps :| IsStart(w0) && LegalRun(cfg, f, w0, steps) && Run(cfg, f, w0, steps) == w;
    IsStartGood(cfg, f, w0);
    RunKeepsGood(cfg, f, w0, steps);
  }

  // ---- Conservation ----

  /** Over every interleaving, and for every counter field, what was merged is
      open, closed, retired by a 202, discarded, cleared by disabling, or given up
      by a ladder clamp. */
  lemma {:induction false} CountsConserved(cfg: Config, f: Field, w: World)
    requires Reachable(cfg, f, w)
    ensures w.hist.merged == Total(w.core.win.open, Everything, f)
                             + Total(ClosedEntries(w.core.win.closed), Everything, f)
                             + w.hist.retired + w.hist.discarded + w.hist.cleared + w.hist.lost
  {
    ReachableGood(cfg, f, w);
  }

  /** A record the reporter takes. */
  predicate Counts(w: World, step: Step) {
    step.Record? && !w.core.disabled && !w.core.shut
  }

  /** What the records of a run hand to the ladder; a disabled or closed reporter
      takes none. */
  function Recorded(cfg: Config, f: Field, w: World, steps: seq<Step>): nat
    requires LegalRun(cfg, f, w, steps)
    decreases |steps|
  {
    if steps == [] then 0
    else
      (if Counts(w, steps[0]) then Increments(steps[0].incs, f) else 0)
      + Recorded(cfg, f, Next(cfg, f, w, steps[0]), steps[1..])
  }

  lemma {:induction false} MergedGrowsByRecords(cfg: Config, f: Field, w: World, step: Step)
    requires Enabled(w, step)
    ensures Next(cfg, f, w, step).hist.merged == w.hist.merged +
              if Counts(w, step) then Increments(step.incs, f) else 0
  {
    match step
    case Record(now, sample, incs, _) => RecordMerges(cfg, f, w.core, w.hist, now, sample, incs);
    case CheckGate(_) =>
    case BeginFlush(now) => SettleMergesNothing(cfg, f, w.core, w.hist, now);
    case Respond(_, reply) => RespondMergesNothing(f, w.core, w.hist, w.flight.value, reply);
    case SendFailed(_) =>
    case Abandon(_) =>
    case NoClient(_) =>
    case Close(_) =>
    case Poll(_) =>
    case Done(_) =>
  }

  lemma {:induction false} RecordMerges(
    cfg: Config, f: Field, s: Core, h: History, now: nat, sample: Sample, incs: seq<Entry>)
    ensures HRecord(cfg, f, s, h, now, sample, incs).merged == h.merged +
              if !s.disabled && !s.shut then Increments(incs, f) else 0
  {
  }

  lemma {:induction false} SettleMergesNothing(cfg: Config, f: Field, s: Core, h: History, now: nat)
    ensures HSettle(cfg, f, s, h, now).merged == h.merged
  {
  }

  lemma {:induction false} RespondMergesNothing(f: Field, s: Core, h: History, sel: Selected, reply: Reply)
    ensures HRespond(f, s, h, sel, reply).merged == h.merged
  {
  }

  /** What conservation balances is exactly the sum of what was recorded. */
  lemma {:induction false} MergedIsRecorded(cfg: Config, f: Field, w: World, steps: seq<Step>)
    requires LegalRun(cfg, f, w, steps)
    ensures Run(cfg, f, w, steps).hist.merged == w.hist.merged + Recorded(cfg, f, w, steps)
    decreases |steps|
  {
    if steps != [] {
      MergedGrowsByRecords(cfg, f, w, steps[0]);
      MergedIsRecorded(cfg, f, Next(cfg, f, w, steps[0]), steps[1..]);
    }
  }

  function OpenAt(cfg: Config, w: World, now: nat): seq<Entry> {
    RollWindow(cfg, w.core, now).win.open
  }

  /** Every record of the run meets the ladder's guard on the window it finds. */
  predicate ExactRun(cfg: Config, f: Field, w: World, steps: seq<Step>)
    requires LegalRun(cfg, f, w, steps)
    decreases |steps|
  {
    steps == [] ||
    ((Counts(w, steps[0]) ==> ExactAll(OpenAt(cfg, w, steps[0].now), steps[0].incs, f))
     && ExactRun(cfg, f, Next(cfg, f, w, steps[0]), steps[1..]))
  }

  lemma {:induction false} RecordLoss(
    cfg: Config, f: Field, s: Core, h: History, now: nat, sample: Sample, incs: seq<Entry>)
    ensures HRecord(cfg, f, s, h, now, sample, incs).lost == h.lost +
              if !s.disabled && !s.shut then LossAll(RollWindow(cfg, s, now).win.open, incs, f) else 0
  {
  }

  lemma {:induction false} SettleLosesNothing(cfg: Config, f: Field, s: Core, h: History, now: nat)
    ensures HSettle(cfg, f, s, h, now).lost == h.lost
  {
  }

  lemma {:induction false} RespondLosesNothing(f: Field, s: Core, h: History, sel: Selected, reply: Reply)
    ensures HRespond(f, s, h, sel, reply).lost == h.lost
  {
  }

  lemma {:induction false} LossGrowsByRecords(cfg: Config, f: Field, w: World, step: Step)
    requires Enabled(w, step)
    ensures Next(cfg, f, w, step).hist.lost == w.hist.lost +
              if Counts(w, step) then LossAll(OpenAt(cfg, w, step.now), step.incs, f) else 0
  {
    match step
    case Record(now, sample, incs, _) => RecordLoss(cfg, f, w.core, w.hist, now, sample, incs);
    case CheckGate(_) =>
    case BeginFlush(now) => SettleLosesNothing(cfg, f, w.core, w.hist, now);
    case Respond(_, reply) => RespondLosesNothing(f, w.core, w.hist, w.flight.value, reply);
    case SendFailed(_) =>
    case Abandon(_) =>
    case NoClient(_) =>
    case Close(_) =>
    case Poll(_) =>
    case Done(_) =>
  }

  lemma {:induction false} StepLossless(cfg: Config, f: Field, w: World, step: Step)
    requires GoodWorld(cfg, f, w) && Enabled(w, step)
    ensures Next(cfg, f, w, step).hist.lost >= w.hist.lost
    ensures Next(cfg, f, w, step).hist.lost == w.hist.lost <==>
              (Counts(w, step) ==> ExactAll(OpenAt(cfg, w, step.now), step.incs, f))
  {
    LossGrowsByRecords(cfg, f, w, step);
    if Counts(w, step) {
      OpenIsValid(cfg, f, w, step.now);
      MergeAllExactly(OpenAt(cfg, w, step.now), step.incs, f);
    }
  }

  lemma {:induction false} OpenIsValid(cfg: Config, f: Field, w: World, now: nat)
    requires GoodWorld(cfg, f, w) && !w.core.disabled && now >= w.now
    ensures ValidWindow(OpenAt(cfg, w, now))
  {
    TimePasses(cfg, f, w.core, w.hist, w.flight, w.now, now);
    RollKeeps(cfg, f, w.core, w.hist, w.flight, now);
  }

  /** Nothing is given up along a run iff every record in it meets the guard. */
  lemma {:induction false} LosslessRunIff(cfg: Config, f: Field, w: World, steps: seq<Step>)
    requires GoodWorld(cfg, f, w) && LegalRun(cfg, f, w, steps)
    ensures Run(cfg, f, w, steps).hist.lost >= w.hist.lost
    ensures Run(cfg, f, w, steps).hist.lost == w.hist.lost <==> ExactRun(cfg, f, w, steps)
    decreases |steps|
  {
    if steps != [] {
      StepLossless(cfg, f, w, steps[0]);
      StepKeepsGood(cfg, f, w, steps[0]);
      LosslessRunIff(cfg, f, Next(cfg, f, w, steps[0]), steps[1..]);
    }
  }

  /** Every record finds its minute with room below ten million. */
  predicate Roomy(cfg: Config, f: Field, w: World, steps: seq<Step>)
    requires LegalRun(cfg, f, w, steps)
    decreases |steps|
  {
    steps == [] ||
    ((Counts(w, steps[0]) ==>
        Total(OpenAt(cfg, w, steps[0].now), Everything, f) + Increments(steps[0].incs, f) <= MAX_COUNT)
     && Roomy(cfg, f, Next(cfg, f, w, steps[0]), steps[1..]))
  }

  /** Ten million counts a minute are enough room for that. */
  lemma {:induction false} RoomyRunIsExact(cfg: Config, f: Field, w: World, steps: seq<Step>)
    requires GoodWorld(cfg, f, w) && LegalRun(cfg, f, w, steps) && Roomy(cfg, f, w, steps)
    ensures ExactRun(cfg, f, w, steps)
    decreases |steps|
  {
    if steps != [] {
      if Counts(w, steps[0]) {
        OpenIsValid(cfg, f, w, steps[0].now);
        ExactWithinMaxCount(OpenAt(cfg, w, steps[0].now), steps[0].incs, f);
      }
      StepKeepsGood(cfg, f, w, steps[0]);
      RoomyRunIsExact(cfg, f, Next(cfg, f, w, steps[0]), steps[1..]);
    }
  }

  // ---- Closed windows are frozen ----

  /** A 202 retires only rows it sent, exactly as they were sent; nothing that was
      merged while the batch was in flight leaves with it, and nothing sent stays. */
  lemma {:induction false} AcceptRetiresWhatWasSent(cfg: Config, f: Field, w: World, now: nat, reply: Reply)
    requires Reachable(cfg, f, w) && Enabled(w, Respond(now, reply)) && reply.status == 202 && !reply.off
    ensures var s, sel, t := w.core, w.flight.value, Next(cfg, f, w, Respond(now, reply)).core;
            && t.win.open == s.win.open
            && (forall e :: e in RetiredRows(s.win.closed, SentRefs(sel)) ==> exists r :: r in sel.rows && r.entry == e)
            && (forall v, e :: v in t.win.closed && e in v.rows ==> (v.id, e.key) !in SentRefs(sel))
            && (forall b :: b in t.buf.events <==> b in s.buf.events && b.id !in sel.eventIds)
  {
    ReachableGood(cfg, f, w);
    AcceptedLeaves(cfg, w.core, w.flight.value, now, reply);
  }

  lemma {:induction false} AcceptedLeaves(cfg: Config, s: Core, sel: Selected, now: nat, reply: Reply)
    requires GoodFlight(s, sel) && reply.status == 202 && !reply.off
    ensures var t := HandleResponse(cfg, s, now, sel, reply);
            && t.win.open == s.win.open
            && (forall e :: e in RetiredRows(s.win.closed, SentRefs(sel)) ==> exists r :: r in sel.rows && r.entry == e)
            && (forall v, e :: v in t.win.closed && e in v.rows ==> (v.id, e.key) !in SentRefs(sel))
            && (forall b :: b in t.buf.events <==> b in s.buf.events && b.id !in sel.eventIds)
  {
    RetiredExactly(s.win.closed, SentRefs(sel));
    forall e | e in RetiredRows(s.win.closed, SentRefs(sel)) ensures exists r :: r in sel.rows && r.entry == e {
      var v :| v in s.win.closed && e in v.rows && (v.id, e.key) in SentRefs(sel);
      var k :| 0 <= k < |sel.refs| && sel.refs[k] == (v.id, e.key);
      assert sel.rows[k] in sel.rows && RefOf(sel.rows[k]) == (v.id, e.key);
    }
    RetainMembers(s.buf.events, SentIds(sel));
    SentRowsLeave(cfg.sz, s.win.closed, SentRefs(sel));
  }

  lemma {:induction false} SentRowsLeave(sz: Sizes, ws: seq<Window>, refs: set<Ref>)
    ensures forall v, e :: v in RetireWindows(sz, ws, refs) && e in v.rows ==> (v.id, e.key) !in refs
  {
    RetireWindowsMembers(sz, ws, refs);
    forall v, e | v in RetireWindows(sz, ws, refs) && e in v.rows ensures (v.id, e.key) !in refs {
      var u :| u in ws && v == RetireWindow(sz, u, refs);
      KeepRowsFacts(sz, u.rows, u.id, refs);
    }
  }

  // ---- The event buffer ----

  /** In every reachable state: at most 1000 events, ids strictly increasing, the
      buffered successes a suffix of all successes ever buffered and the buffered
      failures a suffix of all failures. */
  lemma {:induction false} BufferKeepsNewest(cfg: Config, f: Field, w: World, ok: bool)
    requires Reachable(cfg, f, w)
    ensures var events := w.core.buf.events;
            && |events| <= 1000
            && (forall i, j :: 0 <= i < j < |events| ==> events[i].id < events[j].id)
            && IsSuffix(OfKind(Wires(events), ok), OfKind(w.hist.appended, ok))
  {
    ReachableGood(cfg, f, w);
    BufferedAreSuffixes(w.core.buf.events, w.hist.appended, ok);
  }

  // ---- Accounting ----

  /** In every reachable state the byte totals are the sums over the contents, the
      retained bytes respect the cap, closed windows are oldest-first, and every
      counted drop is acknowledged, waiting or forgotten. */
  lemma {:induction false} AccountingExact(cfg: Config, f: Field, w: World)
    requires Reachable(cfg, f, w)
    ensures var s := w.core;
            && s.buf.bytes == SumBytes(s.buf.events)
            && s.win.retained == Retained(s.win.closed) <= cfg.retentionBytes
            && (forall i, j :: 0 <= i < j < |s.win.closed| ==>
                  s.win.closed[i].id < s.win.closed[j].id && s.win.closed[i].start <= s.win.closed[j].start)
            && w.hist.counted == w.hist.acked + s.dropped + w.hist.forgotten + w.hist.saturated
            && (w.hist.saturated > 0 ==> w.hist.counted > U64_MAX)
            && (w.flight.Some? ==> w.flight.value.dropped <= s.dropped)
  {
    ReachableGood(cfg, f, w);
  }

  /** Selection leaves no window older than 24 hours. */
  lemma {:induction false} SelectionPrunes(cfg: Config, f: Field, w: World, now: nat)
    requires Reachable(cfg, f, w) && Enabled(w, BeginFlush(now))
    ensures forall v :: v in Next(cfg, f, w, BeginFlush(now)).core.win.closed ==> now <= v.start + 86_400 * SECOND
  {
    ReachableGood(cfg, f, w);
    TimePasses(cfg, f, w.core, w.hist, w.flight, w.now, now);
    SettledIsYoung(cfg, f, w.core, w.hist, now);
  }

  lemma {:induction false} SettledIsYoung(cfg: Config, f: Field, s: Core, h: History, now: nat)
    requires Good(cfg, f, s, h, None, now) && !s.disabled
    ensures forall v :: v in SelectBatch(cfg, s, now).0.win.closed ==> now <= v.start + 86_400 * SECOND
  {
    SettleKeeps(cfg, f, s, h, None, now);
    SelectionKeepsWindows(cfg, Settle(cfg, s, now), now);
  }

  lemma {:induction false} SelectionKeepsWindows(cfg: Config, t: Core, now: nat)
    requires forall v :: v in t.win.closed ==> !TooOld(v, now)
    ensures forall v :: v in SelectSettled(cfg, t, now).0.win.closed ==> now <= v.start + 86_400 * SECOND
  {
  }

  // ---- Disabling ----

  lemma {:induction false} DisabledStep(cfg: Config, f: Field, w: World, step: Step)
    requires GoodWorld(cfg, f, w) && w.core.disabled && Enabled(w, step)
    ensures var t := Next(cfg, f, w, step).core; t.disabled && t.buf == w.core.buf && t.win == w.core.win
  {
  }

  /** After disabling, no run ever buffers or counts anything again. */
  lemma {:induction false} DisabledForever(cfg: Config, f: Field, w: World, steps: seq<Step>)
    requires GoodWorld(cfg, f, w) && w.core.disabled && LegalRun(cfg, f, w, steps)
    ensures var s := Run(cfg, f, w, steps).core;
            s.disabled && s.buf.events == [] && s.win.open == [] && s.win.closed == [] && s.dropped == 0
    decreases |steps|
  {
    if steps != [] {
      DisabledStep(cfg, f, w, steps[0]);
      StepKeepsGood(cfg, f, w, steps[0]);
      DisabledForever(cfg, f, Next(cfg, f, w, steps[0]), steps[1..]);
    }
  }

  // ---- Timing ----

  /** In every reachable state the next backoff is `min(60 * 2^n, 600)` seconds
      after `n` failures since the last 202. */
  lemma {:induction false} BackoffIsExponential(cfg: Config, f: Field, w: World)
    requires Reachable(cfg, f, w)
    ensures w.core.time.backoff == Min(60 * SECOND * Pow2(w.hist.failures), 600 * SECOND)
  {
    ReachableGood(cfg, f, w);
  }

  /** Every backoff actually imposed lies between one and ten minutes. */
  lemma {:induction false} BackoffBounds(cfg: Config, f: Field, w: World, step: Step)
    requires GoodWorld(cfg, f, w) && Enabled(w, step)
    requires step.SendFailed? || step.NoClient? ||
             (step.Respond? && !step.reply.off && !DisablingStatus(step.reply.status)
              && step.reply.status != 202 && step.reply.status != 413)
    ensures step.now + 60 * SECOND <= Next(cfg, f, w, step).core.time.backoffUntil <= step.now + 600 * SECOND
  {
    BackoffKeepsTimers(w.core.time, w.hist, step.now, None);
    if step.Respond? {
      BackoffKeepsTimers(w.core.time, w.hist, step.now, RetryAfter(step.reply.retryAfter));
    }
  }

  /** In every reachable state a flush about to select looked at the gate no later
      than now; its pause was and still is over; and its backoff still is iff none
      was imposed since it looked. */
  lemma {:induction false} GateRespected(cfg: Config, f: Field, w: World, now: nat)
    requires Reachable(cfg, f, w) && Enabled(w, BeginFlush(now))
    ensures var c := w.checked.value;
            && !w.core.disabled && cfg.hasKey && c.at <= now && w.core.time.pausedUntil <= c.at
            && (w.core.time.backoffUntil <= c.at <==> !c.overtaken)
  {
    ReachableGood(cfg, f, w);
  }

  lemma {:induction false} CheckedStays(cfg: Config, f: Field, w: World, steps: seq<Step>)
    requires w.checked.Some? && LegalRun(cfg, f, w, steps) && forall s :: s in steps ==> !s.BeginFlush?
    ensures Run(cfg, f, w, steps).checked
            == Some(Checked(w.checked.value.at, w.checked.value.overtaken || exists s :: s in steps && s.NoClient?))
    decreases |steps|
  {
    if steps != [] {
      var w' := Next(cfg, f, w, steps[0]);
      assert steps[0] in steps;
      assert w'.checked == Some(Checked(w.checked.value.at, w.checked.value.overtaken || steps[0].NoClient?));
      assert forall s :: s in steps <==> s == steps[0] || s in steps[1..];
      CheckedStays(cfg, f, w', steps[1..]);
    }
  }

  /** Whatever happens between a flush's look at the gate and its selection, the
      pause it saw still holds; the backoff does iff no step in between was the
      worker giving up for want of a client. */
  lemma {:induction false} BackoffHeldIff(cfg: Config, f: Field, v: World, now: nat, between: seq<Step>)
    requires GoodWorld(cfg, f, v) && Enabled(v, CheckGate(now)) && MayFlush(cfg, v, now)
    requires LegalRun(cfg, f, Next(cfg, f, v, CheckGate(now)), between)
    requires forall s :: s in between ==> !s.BeginFlush?
    ensures var w := Run(cfg, f, Next(cfg, f, v, CheckGate(now)), between);
            && w.checked.Some? && w.core.time.pausedUntil <= now
            && (w.core.time.backoffUntil <= now <==> forall s :: s in between ==> !s.NoClient?)
  {
    var v' := Next(cfg, f, v, CheckGate(now));
    StepKeepsGood(cfg, f, v, CheckGate(now));
    RunKeepsGood(cfg, f, v', between);
    CheckedStays(cfg, f, v', between);
  }

  /** Server policy only reduces volume. */
  predicate NoMoreVolume(s: Core, t: Core) {
    && t.sampleRate <= s.sampleRate
    && t.time.pausedUntil >= s.time.pausedUntil
    && t.time.flushInterval >= s.time.flushInterval
  }

  lemma {:induction false} WindowsKeepVolume(cfg: Config, s: Core, now: nat)
    ensures NoMoreVolume(s, RollWindow(cfg, s, now))
    ensures NoMoreVolume(s, CloseWindow(cfg, s, now))
    ensures NoMoreVolume(s, Prune(cfg, s, now))
  {
  }

  lemma {:induction false} RecordKeepsVolume(
    cfg: Config, s: Core, now: nat, sample: Sample, incs: seq<Entry>, runtime: bool)
    ensures NoMoreVolume(s, OnRequest(cfg, s, now, sample, incs, runtime))
  {
    WindowsKeepVolume(cfg, s, now);
    var t := MergeCounters(RollWindow(cfg, s, now), incs);
    assert NoMoreVolume(t, TakeSample(cfg, t, now, sample));
  }

  lemma {:induction false} SelectKeepsVolume(cfg: Config, s: Core, now: nat)
    ensures NoMoreVolume(s, SelectBatch(cfg, s, now).0)
  {
    var t := RollWindow(cfg, s, now);
    WindowsKeepVolume(cfg, s, now);
    WindowsKeepVolume(cfg, t, now);
    WindowsKeepVolume(cfg, CloseWindow(cfg, t, now), now);
  }

  lemma {:induction false} RespondKeepsVolume(cfg: Config, s: Core, now: nat, sel: Selected, reply: Reply)
    requires s.time.flushInterval <= BACKOFF_MAX
    ensures NoMoreVolume(s, HandleResponse(cfg, s, now, sel, reply))
  {
    if !reply.off && !DisablingStatus(reply.status) && reply.status == 202 {
      AcceptKeepsVolume(cfg, s, now, sel, reply.policy);
    }
  }

  lemma {:induction false} AcceptKeepsVolume(cfg: Config, s: Core, now: nat, sel: Selected, policy: Option<Policy>)
    requires s.time.flushInterval <= BACKOFF_MAX
    ensures NoMoreVolume(s, Accepted(cfg, s, now, sel, policy))
  {
  }

  lemma {:induction false} StepKeepsVolume(cfg: Config, f: Field, w: World, step: Step)
    requires w.core.time.flushInterval <= BACKOFF_MAX && Enabled(w, step)
    ensures NoMoreVolume(w.core, Next(cfg, f, w, step).core)
  {
    match step {
      case Record(now, sample, incs, runtime) => RecordKeepsVolume(cfg, w.core, now, sample, incs, runtime);
      case BeginFlush(now) => SelectKeepsVolume(cfg, w.core, now);
      case Respond(now, reply) => RespondKeepsVolume(cfg, w.core, now, w.flight.value, reply);
      case _ =>
    }
  }

  /** Along any run the sample rate never rises, the pause never moves earlier and
      the flush interval never shrinks. */
  lemma {:induction false} PolicyOnlyReduces(cfg: Config, f: Field, w: World, steps: seq<Step>)
    requires GoodWorld(cfg, f, w) && LegalRun(cfg, f, w, steps)
    ensures NoMoreVolume(w.core, Run(cfg, f, w, steps).core)
    decreases |steps|
  {
    if steps != [] {
      StepKeepsVolume(cfg, f, w, steps[0]);
      StepKeepsGood(cfg, f, w, steps[0]);
      PolicyOnlyReduces(cfg, f, Next(cfg, f, w, steps[0]), steps[1..]);
    }
  }

  /** A pause once imposed outlives everything that happens after it: whatever run
      follows, no batch is selected before it ends. */
  lemma {:induction false} PauseHonoured(cfg: Config, f: Field, w: World, steps: seq<Step>, now: nat)
    requires GoodWorld(cfg, f, w) && LegalRun(cfg, f, w, steps)
    requires Enabled(Run(cfg, f, w, steps), BeginFlush(now))
    ensures now >= w.core.time.pausedUntil
  {
    PolicyOnlyReduces(cfg, f, w, steps);
    RunKeepsGood(cfg, f, w, steps);
  }

  /** Consecutive worker flushes, urgent ones included, are at least the flush
      interval in force at the earlier one's end apart. */
  lemma {:induction false} WorkerFlushesSpaced(cfg: Config, f: Field, w: World, i: nat)
    requires Reachable(cfg, f, w) && i + 1 < |w.flushes|
    ensures w.flushes[i].finish.Some?
    ensures w.flushes[i + 1].start >= w.flushes[i].finish.value + w.flushes[i].interval
  {
    ReachableGood(cfg, f, w);
  }
}
