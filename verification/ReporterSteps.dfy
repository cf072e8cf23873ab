/** What each step of the reporter does in a reachable state, in numbers. */
module ReporterSteps {
  import opened Basics
  import opened Counters
  import opened FoldLadder
  import opened EventBuffer
  import opened Windows
  import opened Batch
  import opened ReporterSpec
  import opened ReporterRuns
  import opened ReporterTheorems

  // ---- Replies ----

  /** A row under this identity is held. */
  ghost predicate Held(ws: seq<Window>, id: nat, e: Entry) {
    exists v :: v in ws && v.id == id && e in v.rows
  }

  /** The items of the batch, and nothing else, are gone. */
  ghost predicate BatchGone(s: Core, t: Core, sel: Selected) {
    && t.win.open == s.win.open
    && (forall b :: b in t.buf.events <==> b in s.buf.events && b.id !in sel.eventIds)
    && (forall id: nat, e :: Held(t.win.closed, id, e) <==> Held(s.win.closed, id, e) && (id, e.key) !in sel.refs)
  }

  lemma {:induction false} RowsGone(sz: Sizes, ws: seq<Window>, refs: set<Ref>, id: nat, e: Entry)
    ensures Held(RetireWindows(sz, ws, refs), id, e) <==> Held(ws, id, e) && (id, e.key) !in refs
  {
    if ws != [] {
      var w, rest := RetireWindow(sz, ws[0], refs), RetireWindows(sz, ws[1..], refs);
      RowsGone(sz, ws[1..], refs, id, e);
      KeepRowsFacts(sz, ws[0].rows, ws[0].id, refs);
      assert forall v :: v in ws <==> v == ws[0] || v in ws[1..];
      assert forall v :: v in [w] + rest <==> v == w || v in rest;
      assert Held(ws, id, e) <==> (ws[0].id == id && e in ws[0].rows) || Held(ws[1..], id, e);
      if w.rows != [] {
        assert RetireWindows(sz, ws, refs) == [w] + rest;
        assert Held([w] + rest, id, e) <==> (w.id == id && e in w.rows) || Held(rest, id, e);
      } else {
        assert RetireWindows(sz, ws, refs) == rest;
      }
    }
  }

  lemma {:induction false} RemovalGone(cfg: Config, s: Core, sel: Selected)
    ensures BatchGone(s, RemoveSelected(cfg, s, sel), sel)
  {
    RetainMembers(s.buf.events, SentIds(sel));
    forall id: nat, e ensures Held(RetireWindows(cfg.sz, s.win.closed, SentRefs(sel)), id, e)
                         <==> Held(s.win.closed, id, e) && (id, e.key) !in sel.refs
    {
      RowsGone(cfg.sz, s.win.closed, SentRefs(sel), id, e);
    }
  }

  /** The pause after the `n`-th failure in a row: a minute doubled `n` times, or what
      the server asked for if that is longer and at most ten minutes; never longer than
      ten minutes. */
  predicate BacksOff(t: Timing, t': Timing, n: nat, now: nat, asked: Option<int>) {
    var least := if asked.Some? && 0 <= asked.value <= 600 * SECOND then asked.value else 0;
    && t' == t.(backoffUntil := t'.backoffUntil, backoff := t'.backoff)
    && t'.backoffUntil == now + Max(Min(60 * SECOND * Pow2(n), 600 * SECOND), least)
    && t'.backoff == Min(60 * SECOND * Pow2(n + 1), 600 * SECOND)
  }

  lemma {:induction false} BackoffIs(t: Timing, h: History, now: nat, asked: Option<int>)
    requires GoodTimers(t, h)
    ensures BacksOff(t, SetBackoff(t, now, RetryAfter(asked)), h.failures, now, asked)
    ensures asked.None? ==> BacksOff(t, SetBackoff(t, now, None), h.failures, now, asked)
  {
    assert Pow2(h.failures + 1) == 2 * Pow2(h.failures);
    assert Pow2(h.failures) >= 1;
  }

  /** A policy is taken as far as it lowers the rate, lengthens the interval, up to ten
      minutes, or pauses for at most a day. */
  predicate PolicyTaken(s: Core, t: Core, policy: Option<Policy>, now: nat) {
    var p := if policy.Some? then policy.value else Policy(None, None, None);
    && t.sampleRate == (if p.sampleRate.Some? && 0.0 <= p.sampleRate.value <= s.sampleRate
                        then p.sampleRate.value else s.sampleRate)
    && t.time.flushInterval == (if p.flush.Some? then Max(s.time.flushInterval, Min(p.flush.value, 600 * SECOND))
                                else s.time.flushInterval)
    && t.time.pausedUntil == (if p.pause.Some? && 0 <= p.pause.value <= 86_400 * SECOND
                              then Max(s.time.pausedUntil, now + p.pause.value) else s.time.pausedUntil)
  }

  lemma {:induction false} PolicyIs(s: Core, p: Policy, now: nat)
    requires s.time.flushInterval <= 600 * SECOND
    ensures PolicyTaken(s, ApplyPolicy(s, p, now), Some(p), now)
  {
  }

  /** What is left of the timers after a 202. */
  predicate TimersReset(t: Timing, t': Timing) {
    && t'.backoff == 60 * SECOND && t'.backoffUntil == 0 && t'.nextFlushAt == t.nextFlushAt
    && t'.urgentNotBefore == t.urgentNotBefore && t'.urgentFlush == t.urgentFlush
  }

  /** What a reply makes of the state it finds. */
  ghost predicate Answered(s: Core, t: Core, sel: Selected, n: nat, now: nat, reply: Reply) {
    if reply.off || reply.status in {400, 401, 403, 404, 410} then t.disabled && Emptied(t)
    else
      && !t.disabled && t.seqNo == s.seqNo && t.shut == s.shut && t.workerStarted == s.workerStarted
      && match reply.status
         case 202 =>
           && BatchGone(s, t, sel) && t.dropped == s.dropped - sel.dropped
           && TimersReset(s.time, t.time) && PolicyTaken(s, t, reply.policy, now)
         case 413 =>
           && BatchGone(s, t, sel) && t.time == s.time && t.sampleRate == s.sampleRate
           && t.dropped == Min(s.dropped + |sel.eventIds| + |sel.refs|, 0xFFFF_FFFF_FFFF_FFFF)
         case _ => t == s.(time := t.time) && BacksOff(s.time, t.time, n, now, reply.retryAfter)
  }

  lemma {:induction false} AcceptedAnswers(cfg: Config, s: Core, h: History, sel: Selected, now: nat, reply: Reply)
    requires GoodTimers(s.time, h) && GoodFlight(s, sel) && !reply.off && reply.status == 202
    ensures Answered(s, HandleResponse(cfg, s, now, sel, reply), sel, h.failures, now, reply)
  {
    RemovalGone(cfg, s, sel);
    if reply.policy.Some? {
      PolicyIs(Acknowledge(cfg, s, sel), reply.policy.value, now);
    }
  }

  lemma {:induction false} OthersAnswer(cfg: Config, s: Core, h: History, sel: Selected, now: nat, reply: Reply)
    requires GoodTimers(s.time, h) && GoodFlight(s, sel) && reply.status != 202
    ensures Answered(s, HandleResponse(cfg, s, now, sel, reply), sel, h.failures, now, reply)
  {
    RemovalGone(cfg, s, sel);
    BackoffIs(s.time, h, now, reply.retryAfter);
  }

  /** In every reachable state a reply disables the reporter iff it says so or its status
      is 400, 401, 403, 404 or 410; a 202 retires the batch, resets the backoff and takes
      the policy; a 413 drops the batch and counts it; every other reply backs off. */
  lemma {:induction false} ReplyExactly(cfg: Config, f: Field, w: World, now: nat, reply: Reply)
    requires Reachable(cfg, f, w) && Enabled(w, Respond(now, reply))
    ensures var w' := Next(cfg, f, w, Respond(now, reply));
            && w'.flight == None && !w.core.disabled
            && (w'.core.disabled <==> reply.off || reply.status in {400, 401, 403, 404, 410})
            && Answered(w.core, w'.core, w.flight.value, w.hist.failures, now, reply)
  {
    ReachableGood(cfg, f, w);
    var s, sel := w.core, w.flight.value;
    if reply.off {
      assert HandleResponse(cfg, s, now, sel, reply) == Disable(s);
    } else if reply.status == 202 {
      AcceptedAnswers(cfg, s, w.hist, sel, now, reply);
    } else {
      OthersAnswer(cfg, s, w.hist, sel, now, reply);
    }
  }

  /** A request that got no reply, or a worker without a client, backs off and changes
      nothing else. */
  lemma {:induction false} FailureExactly(cfg: Config, f: Field, w: World, step: Step)
    requires Reachable(cfg, f, w) && Enabled(w, step) && (step.SendFailed? || step.NoClient?)
    ensures var t := Next(cfg, f, w, step).core;
            t == w.core.(time := t.time) && BacksOff(w.core.time, t.time, w.hist.failures, step.now, None)
  {
    ReachableGood(cfg, f, w);
    BackoffIs(w.core.time, w.hist, step.now, None);
  }

  // ---- Records ----

  /** `start` is the beginning of the minute `now` lies in. */
  predicate MinuteOf(start: nat, now: nat) {
    start % (60 * SECOND) == 0 && start <= now < start + 60 * SECOND
  }

  lemma {:induction false} MinuteStartIs(now: nat, start: nat)
    ensures MinuteStart(now) == start <==> MinuteOf(start, now)
  {
    var second, minute := now / SECOND, now / SECOND / 60;
    assert MinuteStart(now) == minute * (60 * SECOND);
    assert second * SECOND <= now < second * SECOND + SECOND;
    assert minute * 60 <= second < minute * 60 + 60;
    MultipleOfMinute(minute);
    if MinuteOf(start, now) {
      var k := start / (60 * SECOND);
      assert start == k * (60 * SECOND);
      SameMinute(k, minute, now);
    }
  }

  lemma {:induction false} MultipleOfMinute(minute: nat)
    ensures minute * (60 * SECOND) % (60 * SECOND) == 0
  {
  }

  lemma {:induction false} SameMinute(k: nat, minute: nat, now: nat)
    requires k * (60 * SECOND) <= now < k * (60 * SECOND) + 60 * SECOND
    requires minute * (60 * SECOND) <= now < minute * (60 * SECOND) + 60 * SECOND
    ensures k == minute
  {
  }

  /** The windows after a record: its counters are merged into its own minute's rows;
      when a new minute begins, the rows of the last one are closed behind the older
      windows, of which those too old or beyond the byte cap go. */
  predicate CountedIn(cfg: Config, s: Counting, t: Counting, now: nat, incs: seq<Entry>) {
    && t.start.Some? && MinuteOf(t.start.value, now)
    && (if s.start == None || t.start == s.start then t.open == MergeAll(s.open, incs) && t.closed == s.closed
        else t.open == MergeAll([], incs) && ClosedInto(cfg, s, t.closed, now))
  }

  /** The closed windows and, behind them, the open rows if there are any. */
  function AllWindows(cfg: Config, s: Counting): seq<Window> {
    if s.open == [] || s.start == None then s.closed
    else s.closed + [Window(s.nextId, s.start.value, s.open, WindowBytes(cfg.sz, s.open))]
  }

  /** The newest of the windows: those too old or beyond the byte cap are gone. */
  predicate PrunedTo(all: seq<Window>, closed: seq<Window>, now: nat, cap: nat) {
    && |closed| <= |all| && closed == all[|all| - |closed|..]
    && PrunedAt(all, |all| - |closed|, now, cap)
  }

  /** The closed windows once the open rows, if any, have joined them. */
  predicate ClosedInto(cfg: Config, s: Counting, closed: seq<Window>, now: nat) {
    if s.open == [] then closed == s.closed
    else PrunedTo(AllWindows(cfg, s), closed, now, cfg.retentionBytes)
  }

  lemma {:induction false} CloseInto(cfg: Config, s: Core, now: nat)
    requires GoodWindows(cfg, s.win, now) && s.win.start.Some?
    ensures ClosedInto(cfg, s.win, CloseWindow(cfg, s, now).win.closed, now)
    ensures CloseWindow(cfg, s, now).win.open == []
  {
    if s.win.open != [] {
      PushUnpruned(cfg, s.win, now);
      var all := PushWindow(cfg, s.win, now).closed;
      PruneExactly(all, now, cfg.retentionBytes);
    }
  }

  /** The windows before the counters are merged. */
  predicate RolledInto(cfg: Config, s: Counting, t: Counting, now: nat) {
    && t.start == Some(MinuteStart(now))
    && (if s.start == None || t.start == s.start then t.open == s.open && t.closed == s.closed
        else t.open == [] && ClosedInto(cfg, s, t.closed, now))
  }

  lemma {:induction false} RollInto(cfg: Config, s: Core, now: nat)
    requires GoodWindows(cfg, s.win, now)
    ensures RolledInto(cfg, s.win, RollWindow(cfg, s, now).win, now)
  {
    if s.win.start.Some? && MinuteStart(now) > s.win.start.value {
      CloseInto(cfg, s, now);
    } else {
      assert RollWindow(cfg, s, now).win == s.win.(start := Some(MinuteStart(now)));
    }
  }

  lemma {:induction false} RollCounts(cfg: Config, s: Counting, t: Counting, now: nat, incs: seq<Entry>)
    requires RolledInto(cfg, s, t, now)
    ensures CountedIn(cfg, s, t.(open := MergeAll(t.open, incs)), now, incs)
  {
    MinuteStartIs(now, MinuteStart(now));
  }

  /** One event less: the oldest success, or the oldest event if there is none. */
  predicate Evicts(events: seq<Buffered>, rest: seq<Buffered>) {
    exists i :: 0 <= i < |events| && rest == RemoveAt(events, i)
      && (forall j :: 0 <= j < i ==> !events[j].ok)
      && (events[i].ok || (i == 0 && forall j :: 0 <= j < |events| ==> !events[j].ok))
  }

  /** A kept event joins the buffer at its end, under the next id, with the time it came
      and its size; from a thousand on another one leaves for it. */
  predicate SampleTaken(cfg: Config, s: Buffer, t: Buffer, now: nat, sample: Sample) {
    match sample
    case Unsampled => t == s
    case Unfit => t == s
    case Kept(wire) =>
      var n := |t.events| - 1;
      && n >= 0 && t.nextId == s.nextId + 1
      && t.events[n] == Buffered(s.nextId, wire, now, cfg.sz.event(wire, 0), wire.ok)
      && (if |s.events| < 1000 then t.events[..n] == s.events else Evicts(s.events, t.events[..n]))
  }

  lemma {:induction false} TakesSample(cfg: Config, s: Core, now: nat, sample: Sample)
    ensures SampleTaken(cfg, s.buf, TakeSample(cfg, s, now, sample).buf, now, sample)
    ensures TakeSample(cfg, s, now, sample).win == s.win
  {
    if sample.Kept? {
      var t := TakeSample(cfg, s, now, sample);
      var events := s.buf.events;
      if |events| >= MAX_EVENTS {
        var i := VictimIndex(events);
        assert t.buf.events[..|t.buf.events| - 1] == RemoveAt(events, i);
        assert events[i].ok || (i == 0 && forall j :: 0 <= j < |events| ==> !events[j].ok);
      }
    }
  }

  /** A record starts the worker, if a runtime is there, and asks for an urgent flush from
      50 events or an estimated 60 KiB on. */
  predicate Woken(s: Core, t: Core, now: nat, runtime: bool) {
    var begins := runtime && !s.workerStarted;
    && t.workerStarted == (s.workerStarted || runtime)
    && t.time == s.time.(nextFlushAt := if begins then now + s.time.flushInterval else s.time.nextFlushAt,
                         urgentFlush := t.time.urgentFlush)
    && (t.time.urgentFlush <==>
          || s.time.urgentFlush || |t.buf.events| >= 50
          || t.buf.bytes + t.win.retained + 400 * |t.win.open| >= 61_440)
  }

  lemma {:induction false} Wakes(s: Core, now: nat, runtime: bool)
    requires !s.disabled && !s.shut
    ensures var t := Wake(s, now, runtime); Woken(s, t, now, runtime) && t.buf == s.buf && t.win == s.win
  {
  }

  /** Nothing but windows, buffer and drops differs. */
  predicate SameControls(s: Core, t: Core) {
    && t.time == s.time && t.sampleRate == s.sampleRate && t.seqNo == s.seqNo && t.disabled == s.disabled
    && t.shut == s.shut && t.workerStarted == s.workerStarted
  }

  lemma {:induction false} ControlsKept(cfg: Config, s: Core, now: nat, sample: Sample, incs: seq<Entry>)
    ensures SameControls(s, MergeCounters(RollWindow(cfg, s, now), incs)) && RollWindow(cfg, s, now).buf == s.buf
    ensures SameControls(s, TakeSample(cfg, s, now, sample))
  {
  }

  /** What a record makes of the state it finds. */
  predicate Taken(cfg: Config, s: Core, t: Core, now: nat, sample: Sample, incs: seq<Entry>, runtime: bool) {
    if s.disabled || s.shut then t == s
    else
      && CountedIn(cfg, s.win, t.win, now, incs) && SampleTaken(cfg, s.buf, t.buf, now, sample)
      && Woken(s, t, now, runtime) && t.sampleRate == s.sampleRate && t.seqNo == s.seqNo
  }

  /** In every reachable state a record counts in its own minute, buffers its event and
      wakes the worker; a disabled or closed reporter takes nothing. */
  lemma {:induction false} RecordExactly(
    cfg: Config, f: Field, w: World, now: nat, sample: Sample, incs: seq<Entry>, runtime: bool)
    requires Reachable(cfg, f, w) && Enabled(w, Record(now, sample, incs, runtime))
    ensures Taken(cfg, w.core, Next(cfg, f, w, Record(now, sample, incs, runtime)).core, now, sample, incs, runtime)
  {
    ReachableGood(cfg, f, w);
    WindowsLater(cfg, w.core.win, w.now, now);
    Takes(cfg, w.core, now, sample, incs, runtime);
  }

  lemma {:induction false} WindowsLater(cfg: Config, w: Counting, now: nat, later: nat)
    requires GoodWindows(cfg, w, now) && now <= later
    ensures GoodWindows(cfg, w, later)
  {
    MinuteStartMonotone(now, later);
  }

  lemma {:induction false} Takes(cfg: Config, s: Core, now: nat, sample: Sample, incs: seq<Entry>, runtime: bool)
    requires GoodWindows(cfg, s.win, now)
    ensures Taken(cfg, s, OnRequest(cfg, s, now, sample, incs, runtime), now, sample, incs, runtime)
  {
    if s.disabled || s.shut {
      return;
    }
    RollInto(cfg, s, now);
    RollCounts(cfg, s.win, RollWindow(cfg, s, now).win, now, incs);
    var t := MergeCounters(RollWindow(cfg, s, now), incs);
    ControlsKept(cfg, s, now, sample, incs);
    TakesSample(cfg, t, now, sample);
    ControlsKept(cfg, t, now, sample, incs);
    Wakes(TakeSample(cfg, t, now, sample), now, runtime);
  }

  // ---- Flushes ----

  lemma {:induction false} PrunedStays(ws: seq<Window>, now: nat, cap: nat)
    requires PrunedAt(ws, 0, now, cap)
    ensures PruneCount(ws, now, cap) == 0
  {
    assert ws[0..] == ws;
  }

  lemma {:induction false} PrunesTo(cfg: Config, s: Core, now: nat)
    requires Ordered(s.win.closed)
    ensures PrunedTo(s.win.closed, Prune(cfg, s, now).win.closed, now, cfg.retentionBytes)
  {
    PruneExactly(s.win.closed, now, cfg.retentionBytes);
  }

  lemma {:induction false} ClosedArePruned(all: seq<Window>, closed: seq<Window>, now: nat, cap: nat)
    requires PrunedTo(all, closed, now, cap)
    ensures PrunedAt(closed, 0, now, cap)
  {
    assert closed[0..] == closed;
  }

  /** What rolling over and closing leave, before the last pruning. */
  lemma {:induction false} ClosesAll(cfg: Config, s: Core, now: nat)
    requires GoodWindows(cfg, s.win, now)
    ensures var t := CloseWindow(cfg, RollWindow(cfg, s, now), now);
            && t.win.open == [] && t.buf == s.buf
            && (if s.win.open == [] || s.win.start == None then t.win.closed == s.win.closed
                else ClosedInto(cfg, s.win, t.win.closed, now))
  {
    RollInto(cfg, s, now);
    var t := RollWindow(cfg, s, now);
    if s.win.start == Some(MinuteStart(now)) {
      CloseInto(cfg, s, now);
    }
  }

  lemma {:induction false} SettlesInto(cfg: Config, s: Core, now: nat)
    requires GoodWindows(cfg, s.win, now)
    ensures var t := Settle(cfg, s, now);
            && t.win.open == [] && t.buf == s.buf
            && PrunedTo(AllWindows(cfg, s.win), t.win.closed, now, cfg.retentionBytes)
  {
    ClosesAll(cfg, s, now);
    PrunedInto(cfg, s.win, CloseWindow(cfg, RollWindow(cfg, s, now), now), now);
  }

  lemma {:induction false} PrunedInto(cfg: Config, s: Counting, t: Core, now: nat)
    requires Ordered(s.closed)
    requires if s.open == [] || s.start == None then t.win.closed == s.closed
             else ClosedInto(cfg, s, t.win.closed, now)
    ensures PrunedTo(AllWindows(cfg, s), Prune(cfg, t, now).win.closed, now, cfg.retentionBytes)
    ensures Prune(cfg, t, now).win.open == t.win.open && Prune(cfg, t, now).buf == t.buf
  {
    if s.open == [] || s.start == None {
      PrunesTo(cfg, t, now);
    } else {
      ClosedArePruned(AllWindows(cfg, s), t.win.closed, now, cfg.retentionBytes);
      PrunedStays(t.win.closed, now, cfg.retentionBytes);
      NonePruned(cfg, t, now);
    }
  }

  lemma {:induction false} NonePruned(cfg: Config, t: Core, now: nat)
    requires PruneCount(t.win.closed, now, cfg.retentionBytes) == 0
    ensures Prune(cfg, t, now).win.closed == t.win.closed
  {
    assert t.win.closed[0..] == t.win.closed;
  }

  /** The batch a selection makes of a settled state: the oldest events and rows, at most
      100 and 200 of them and 65,536 bytes in all, and no fewer than need be: events are
      left out only while they do not fit beside the rows, rows only once no event is
      left. */
  predicate Batched(x: Context, events: seq<Buffered>, rows: seq<ClosedRow>, dropped: nat, sel: Selected) {
    var e, c := |sel.events|, |sel.rows|;
    var es, cs := Min(|events|, 100), Min(|rows|, 200);
    && e <= es && c <= cs && sel.events == events[..e] && sel.rows == rows[..c] && sel.dropped == dropped
    && |sel.eventIds| == e && (forall i :: 0 <= i < e ==> sel.eventIds[i] == events[i].id)
    && |sel.refs| == c && (forall i :: 0 <= i < c ==> sel.refs[i] == (rows[i].window, rows[i].entry.key))
    && BodyBytes(x, events[..e], rows[..c]) <= 65_536
    && (e < es ==> BodyBytes(x, events[..e + 1], rows[..cs]) > 65_536)
    && (c < cs ==> e == 0 && BodyBytes(x, [], rows[..c + 1]) > 65_536)
  }

  lemma {:induction false} SelectBatches(x: Context, events: seq<Buffered>, ws: seq<Window>, dropped: u64)
    requires events != [] || Flatten(ws) != []
    ensures var r := Select(x, events, ws, dropped);
            if BodyBytes(x, [], []) > 65_536 then r == None
            else r.Some? && Batched(x, events, Flatten(ws), dropped, r.value)
  {
    var es, rs := FirstEvents(events), FirstRows(ws);
    var r := Trim(x, es, rs, |es|, |rs|);
    TrimExactly(x, es, rs, 0, 0);
    if r.Some? {
      var (e, c) := r.value;
      TrimExactly(x, es, rs, e, c);
      BestIsBatched(x, events, Flatten(ws), es, rs, e, c, dropped);
    }
  }

  lemma {:induction false} BestIsBatched(
    x: Context, events: seq<Buffered>, rows: seq<ClosedRow>, es: seq<Buffered>, rs: seq<ClosedRow>, e: nat, c: nat,
    dropped: u64)
    requires es == events[..Min(|events|, 100)] && rs == rows[..Min(|rows|, 200)] && BestFit(x, es, rs, e, c)
    ensures Batched(x, events, rows, dropped, Selected(es[..e], rs[..c], IdsOf(es[..e]), RefsOf(rs[..c]), dropped))
  {
    assert es[..e] == events[..e] && rs[..c] == rows[..c];
    assert e < |es| ==> es[..e + 1] == events[..e + 1];
    assert c < |rs| ==> rs[..c + 1] == rows[..c + 1];
  }

  /** What a selection makes of the state it finds. */
  predicate SelectedFrom(cfg: Config, s: Core, t: Core, sel: Option<Selected>, now: nat) {
    var rows, x := Flatten(t.win.closed), Context(cfg.sz, now, cfg.sz.envelope(s.seqNo, t.dropped));
    && t.win.open == [] && t.buf == s.buf && PrunedTo(AllWindows(cfg, s.win), t.win.closed, now, cfg.retentionBytes)
    && (if t.buf.events == [] && rows == [] then sel == None && t.seqNo == s.seqNo
        else
          && t.seqNo == (s.seqNo + 1) % 0x1_0000_0000_0000_0000
          && if BodyBytes(x, [], []) > 65_536 then sel == None
             else sel.Some? && Batched(x, t.buf.events, rows, t.dropped, sel.value))
  }

  lemma {:induction false} Selects(cfg: Config, s: Core, now: nat)
    requires GoodWindows(cfg, s.win, now)
    ensures var (t, sel) := SelectBatch(cfg, s, now); SelectedFrom(cfg, s, t, sel, now)
  {
    SettlesInto(cfg, s, now);
    SettleKeepsSeq(cfg, s, now);
    SelectsSettled(cfg, s, Settle(cfg, s, now), now);
  }

  lemma {:induction false} SelectsSettled(cfg: Config, s: Core, t: Core, now: nat)
    requires t.win.open == [] && t.buf == s.buf && t.seqNo == s.seqNo
    requires PrunedTo(AllWindows(cfg, s.win), t.win.closed, now, cfg.retentionBytes)
    ensures var (u, sel) := SelectSettled(cfg, t, now); SelectedFrom(cfg, s, u, sel, now)
  {
    if t.buf.events != [] || Flatten(t.win.closed) != [] {
      SelectBatches(BatchContext(cfg, t, now), t.buf.events, t.win.closed, t.dropped);
      NextSeqIs(t.seqNo);
    }
  }

  lemma {:induction false} NextSeqIs(n: u64)
    ensures NextSeq(n) == (n + 1) % 0x1_0000_0000_0000_0000
  {
  }

  lemma {:induction false} WindowsKeepSeq(cfg: Config, s: Core, now: nat)
    ensures RollWindow(cfg, s, now).seqNo == CloseWindow(cfg, s, now).seqNo == Prune(cfg, s, now).seqNo == s.seqNo
  {
  }

  lemma {:induction false} SettleKeepsSeq(cfg: Config, s: Core, now: nat)
    ensures Settle(cfg, s, now).seqNo == s.seqNo
  {
    var t := RollWindow(cfg, s, now);
    WindowsKeepSeq(cfg, s, now);
    WindowsKeepSeq(cfg, t, now);
    WindowsKeepSeq(cfg, CloseWindow(cfg, t, now), now);
  }

  /** In every reachable state a selection closes and prunes the windows, takes the next
      sequence number iff anything waits, and puts in flight the largest batch that fits;
      nothing iff nothing waits or not even an empty batch fits. */
  lemma {:induction false} SelectExactly(cfg: Config, f: Field, w: World, now: nat)
    requires Reachable(cfg, f, w) && Enabled(w, BeginFlush(now))
    ensures var w' := Next(cfg, f, w, BeginFlush(now));
            w'.checked == None && SelectedFrom(cfg, w.core, w'.core, w'.flight, now)
  {
    ReachableGood(cfg, f, w);
    WindowsLater(cfg, w.core.win, w.now, now);
    Selects(cfg, w.core, now);
  }

  /** A flush passes the gate iff the reporter is enabled, has a key and is past both its
      pause and its backoff; looking changes nothing else. */
  lemma {:induction false} GateOpensIff(cfg: Config, f: Field, w: World, now: nat)
    requires Reachable(cfg, f, w) && Enabled(w, CheckGate(now))
    ensures var w' := Next(cfg, f, w, CheckGate(now));
            && w' == w.(now := now, checked := w'.checked)
            && (w'.checked.Some? <==>
                  !w.core.disabled && cfg.hasKey && w.core.time.pausedUntil <= now && w.core.time.backoffUntil <= now)
            && (w'.checked.Some? ==> w'.checked.value == Checked(now, false))
  {
    assert Gate(w.core.time) <= now <==> w.core.time.pausedUntil <= now && w.core.time.backoffUntil <= now;
  }

  /** The worker's poll begins a flush iff the reporter is open and enabled, past pause
      and backoff, and a regular flush is due or an urgent one asked for and allowed. */
  lemma {:induction false} PollExactly(cfg: Config, f: Field, w: World, now: nat)
    requires Reachable(cfg, f, w) && Enabled(w, Poll(now))
    ensures var w', t := Next(cfg, f, w, Poll(now)), w.core.time;
            && (w'.busy <==>
                  && !w.core.shut && !w.core.disabled && t.pausedUntil <= now && t.backoffUntil <= now
                  && (t.nextFlushAt <= now || (t.urgentFlush && t.urgentNotBefore <= now)))
            && w'.core == w.core.(time := t.(urgentFlush := t.urgentFlush && !(w'.busy && t.urgentNotBefore <= now)))
  {
  }

  /** A flush dropped at its await gives its batch up and nothing else; closing shuts the
      reporter and nothing else. */
  lemma {:induction false} LeavingExactly(cfg: Config, f: Field, w: World, now: nat)
    requires Reachable(cfg, f, w) && now >= w.now
    ensures w.flight.Some? ==> Next(cfg, f, w, Abandon(now)) == w.(now := now, flight := None)
    ensures Next(cfg, f, w, Close(now)) == w.(now := now, core := w.core.(shut := true))
  {
  }

  lemma {:induction false} ShutStep(cfg: Config, f: Field, w: World, step: Step)
    requires w.core.shut && Enabled(w, step)
    ensures Next(cfg, f, w, step).core.shut
    ensures Next(cfg, f, w, step).hist.merged == w.hist.merged
    ensures Next(cfg, f, w, step).hist.appended == w.hist.appended
  {
    MergedGrowsByRecords(cfg, f, w, step);
    match step
    case BeginFlush(now) =>
      SelectKeepsShut(cfg, w.core, now);
      SettleKeepsLog(cfg, f, w.core, w.hist, now);
    case Respond(now, reply) => RespondKeepsShut(cfg, f, w.core, w.hist, now, w.flight.value, reply);
    case Record(_, _, _, _) =>
    case CheckGate(_) =>
    case SendFailed(_) =>
    case Abandon(_) =>
    case NoClient(_) =>
    case Close(_) =>
    case Poll(_) =>
    case Done(_) =>
  }

  lemma {:induction false} WindowsKeepShut(cfg: Config, s: Core, now: nat)
    ensures RollWindow(cfg, s, now).shut == CloseWindow(cfg, s, now).shut == Prune(cfg, s, now).shut == s.shut
  {
  }

  lemma {:induction false} SettleKeepsLog(cfg: Config, f: Field, s: Core, h: History, now: nat)
    ensures HSettle(cfg, f, s, h, now).appended == h.appended
  {
  }

  lemma {:induction false} SelectKeepsShut(cfg: Config, s: Core, now: nat)
    ensures SelectBatch(cfg, s, now).0.shut == s.shut
  {
    SettleKeepsShut(cfg, s, now);
  }

  lemma {:induction false} SettleKeepsShut(cfg: Config, s: Core, now: nat)
    ensures Settle(cfg, s, now).shut == s.shut
  {
    var t := RollWindow(cfg, s, now);
    WindowsKeepShut(cfg, s, now);
    WindowsKeepShut(cfg, t, now);
    WindowsKeepShut(cfg, CloseWindow(cfg, t, now), now);
  }

  lemma {:induction false} RespondKeepsShut(
    cfg: Config, f: Field, s: Core, h: History, now: nat, sel: Selected, reply: Reply)
    ensures HandleResponse(cfg, s, now, sel, reply).shut == s.shut
    ensures HRespond(f, s, h, sel, reply).appended == h.appended
  {
  }

  /** Once closed, no run counts or buffers anything again. */
  lemma {:induction false} ShutForever(cfg: Config, f: Field, w: World, steps: seq<Step>)
    requires w.core.shut && LegalRun(cfg, f, w, steps)
    ensures var v := Run(cfg, f, w, steps);
            v.core.shut && v.hist.merged == w.hist.merged && v.hist.appended == w.hist.appended
    decreases |steps|
  {
    if steps != [] {
      ShutStep(cfg, f, w, steps[0]);
      ShutForever(cfg, f, Next(cfg, f, w, steps[0]), steps[1..]);
    }
  }

  // ---- The beginning ----

  function Distance(x: real, y: real): real {
    if x <= y then y - x else x - y
  }

  /** A new reporter is empty and open, with the rate nearest to the one configured, one
      in a hundred if that is not finite, and the interval configured up to ten minutes,
      half a minute if that is zero. */
  lemma {:induction false} StartExactly(rate: Option<real>, interval: nat)
    ensures var s := Start(rate, interval).core;
            && 0.0 <= s.sampleRate <= 1.0
            && (if rate.None? then s.sampleRate == 0.01
                else forall y :: 0.0 <= y <= 1.0 ==> Distance(rate.value, s.sampleRate) <= Distance(rate.value, y))
            && s.time.flushInterval == (if interval == 0 then 30 * SECOND else Min(interval, 600 * SECOND))
            && s.time.backoff == 60 * SECOND && s.time.backoffUntil == s.time.pausedUntil == 0
            && Emptied(s) && s.win.start == None && !s.disabled && !s.shut && !s.workerStarted && !s.time.urgentFlush
  {
  }
}
