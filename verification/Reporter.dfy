/** The reporter's state as the source keeps it: one mutable record, updated in
    place. Every method is proved against its function in `ReporterSpec`. */
module Reporter {
  import opened Basics
  import opened Vocabulary
  import opened Counters
  import opened FoldLadder
  import opened EventBuffer
  import opened Windows
  import opened Batch
  import opened Retirement
  import Spec = ReporterSpec

  lemma DropInTwo(s: Spec.Core, a: nat, b: nat)
    requires a + b <= |s.win.closed|
    ensures Spec.DropWindows(Spec.DropWindows(s, a), b) == Spec.DropWindows(s, a + b)
  {
    var ws := s.win.closed;
    assert ws[a..][b..] == ws[a + b..];
    assert ws[..a + b] == ws[..a] + ws[a..][..b];
    RetainedConcat(ws[..a], ws[a..][..b]);
  }

  lemma DropOneMore(s: Spec.Core, k: nat)
    requires k < |s.win.closed|
    ensures Spec.DropWindows(Spec.DropWindows(s, k), 1) == Spec.DropWindows(s, k + 1)
  {
    DropInTwo(s, k, 1);
  }

  lemma RetainedPush(ws: seq<Window>, w: Window)
    ensures Retained(ws + [w]) == Retained(ws) + w.bytes
  {
    RetainedConcat(ws, [w]);
    assert Retained([w]) == w.bytes;
  }

  lemma DropKeepsTotal(s: Spec.Core, k: nat)
    requires k <= |s.win.closed| && s.win.retained == Retained(s.win.closed)
    ensures var t := Spec.DropWindows(s, k); t.win.retained == Retained(t.win.closed)
  {
    RetainedSplit(s.win.closed, k);
  }

  /** Up to 100 events, oldest first, with their ids. */
  method TakeEvents(events: seq<Buffered>) returns (taken: seq<Buffered>, ids: seq<nat>)
    ensures taken == FirstEvents(events) && ids == IdsOf(taken)
  {
    taken, ids := [], [];
    var n := Min(|events|, MAX_BATCH_EVENTS);
    for i := 0 to n
      invariant taken == events[..i] && ids == IdsOf(taken)
    {
      taken, ids := taken + [events[i]], ids + [events[i].id];
    }
  }

  /** Up to 200 closed rows in window order, with their references. */
  method TakeClosedRows(ws: seq<Window>) returns (taken: seq<ClosedRow>, refs: seq<Ref>)
    ensures taken == FirstRows(ws) && refs == RefsOf(taken)
  {
    taken, refs := [], [];
    assert Flatten(ws[..0]) == [];
    for i := 0 to |ws|
      invariant taken == Flatten(ws[..i]) && |taken| <= MAX_BATCH_COUNTERS && refs == RefsOf(taken)
    {
      var w := ws[i];
      RetainedSplit(ws, i + 1);
      FlattenOneMore(ws, i);
      ghost var before := taken;
      for j := 0 to |w.rows|
        invariant taken == before + RowsOf(w)[..j] && |taken| <= MAX_BATCH_COUNTERS && refs == RefsOf(taken)
      {
        if |taken| >= MAX_BATCH_COUNTERS {
          assert taken <= Flatten(ws[..i + 1]) <= Flatten(ws);
          return;
        }
        var row := ClosedRow(w.id, w.start, w.rows[j]);
        RowsOneMore(before, w, j);
        RefsOneMore(taken, row);
        taken, refs := taken + [row], refs + [(w.id, w.rows[j].key)];
      }
      assert RowsOf(w)[..|w.rows|] == RowsOf(w);
    }
    assert ws[..|ws|] == ws;
  }

  lemma {:induction false} RowsOneMore(before: seq<ClosedRow>, w: Window, j: nat)
    requires j < |w.rows|
    ensures before + RowsOf(w)[..j + 1] == before + RowsOf(w)[..j] + [ClosedRow(w.id, w.start, w.rows[j])]
  {
  }

  lemma {:induction false} RefsOneMore(taken: seq<ClosedRow>, row: ClosedRow)
    ensures RefsOf(taken + [row]) == RefsOf(taken) + [(row.window, row.entry.key)]
  {
  }

  lemma FlattenOneMore(ws: seq<Window>, i: nat)
    requires i < |ws|
    ensures Flatten(ws[..i + 1]) == Flatten(ws[..i]) + RowsOf(ws[i])
  {
    assert ws[..i + 1] == ws[..i] + [ws[i]];
    RetainedConcat(ws[..i], [ws[i]]);
    assert Flatten([ws[i]]) == RowsOf(ws[i]);
  }

  /** Trims a batch from its tail, events first, keeping identities aligned. */
  method TrimBatch(x: Context, events: seq<Buffered>, rows: seq<ClosedRow>, dropped: u64)
    returns (sel: Option<Selected>)
    ensures sel == match Trim(x, events, rows, |events|, |rows|)
                   case None => None
                   case Some((e, c)) =>
                     Some(Selected(events[..e], rows[..c], IdsOf(events[..e]), RefsOf(rows[..c]), dropped))
  {
    var es, rs := events, rows;
    var ids, refs := IdsOf(es), RefsOf(rs);
    while true
      invariant |es| <= |events| && es == events[..|es|] && ids == IdsOf(es)
      invariant |rs| <= |rows| && rs == rows[..|rs|] && refs == RefsOf(rs)
      invariant Trim(x, events, rows, |es|, |rs|) == Trim(x, events, rows, |events|, |rows|)
      decreases |es| + |rs|
    {
      if Fits(x, es, rs) {
        return Some(Selected(es, rs, ids, refs, dropped));
      }
      if es != [] {
        es, ids := es[..|es| - 1], ids[..|ids| - 1];
      } else if rs != [] {
        rs, refs := rs[..|rs| - 1], refs[..|refs| - 1];
      } else {
        return None;
      }
    }
  }

  /** Whether anything waits, and the batch built from it. */
  method BuildBatch(x: Context, events: seq<Buffered>, ws: seq<Window>, dropped: u64)
    returns (waiting: bool, sel: Option<Selected>)
    ensures waiting == (events != [] || Flatten(ws) != [])
    ensures sel == if waiting then Select(x, events, ws, dropped) else None
  {
    var es, ids := TakeEvents(events);
    var rs, refs := TakeClosedRows(ws);
    if es == [] && rs == [] {
      return false, None;
    }
    waiting := true;
    sel := TrimBatch(x, es, rs, dropped);
  }

  lemma ResizeOneMore(sz: Sizes, all: seq<Window>, changed: set<nat>, i: nat)
    requires i < |all|
    ensures var done := ResizeChanged(sz, all, changed);
            (done[..i] + all[i..])[i := done[i]] == done[..i + 1] + all[i + 1..]
  {
  }

  lemma RetainedUpdate(ws: seq<Window>, i: nat, w: Window)
    requires i < |ws|
    ensures Retained(ws[i := w]) == Retained(ws) - ws[i].bytes + w.bytes
    ensures Retained(ws) >= ws[i].bytes
  {
    assert ws == ws[..i] + [ws[i]] + ws[i + 1..];
    assert ws[i := w] == ws[..i] + [w] + ws[i + 1..];
    RetainedConcat(ws[..i] + [ws[i]], ws[i + 1..]);
    RetainedConcat(ws[..i] + [w], ws[i + 1..]);
    RetainedPush(ws[..i], ws[i]);
    RetainedPush(ws[..i], w);
  }

  lemma StripNothing(ws: seq<Window>)
    ensures Strip(ws, {}) == ws
  {
    forall i | 0 <= i < |ws| ensures Strip(ws, {})[i] == ws[i] {
      KeepNothingSent(ws[i].rows, ws[i].id);
    }
  }

  lemma {:induction false} StripKeepsBytes(ws: seq<Window>, refs: set<Ref>)
    ensures Retained(Strip(ws, refs)) == Retained(ws)
  {
    if ws != [] {
      assert Strip(ws, refs)[1..] == Strip(ws[1..], refs);
      StripKeepsBytes(ws[1..], refs);
    }
  }

  /** The source's mutable record, its fields grouped by what they are about:
      buffered events, counter windows, timers. */
  class State {
    const cfg: Spec.Config
    var buf: Spec.Buffer
    var win: Spec.Counting
    var time: Spec.Timing
    var sampleRate: real
    var dropped: u64
    var seqNo: u64
    var disabled: bool
    var shut: bool
    var workerStarted: bool

    function View(): Spec.Core
      reads this
    {
      Spec.Core(buf, win, time, sampleRate, dropped, seqNo, disabled, shut, workerStarted)
    }

    /** What byte accounting every method relies on and keeps. */
    ghost predicate Accounted()
      reads this
    {
      win.retained == Retained(win.closed)
    }

    constructor (cfg: Spec.Config, rate: Option<real>, interval: nat)
      ensures View() == Spec.Initial(rate, interval) && this.cfg == cfg
    {
      this.cfg := cfg;
      buf := Spec.Buffer([], 0, 0);
      win := Spec.Counting(None, [], [], 0, 0);
      time := Spec.Timing(Spec.NormaliseFlushInterval(interval), Spec.BACKOFF_MIN, 0, 0, 0, 0, false);
      sampleRate := Spec.NormaliseSampleRate(rate);
      dropped, seqNo := 0, 0;
      disabled, shut, workerStarted := false, false, false;
    }

    // ---- Windows ----

    method DropOldest()
      requires win.closed != []
      modifies `win, `dropped
      ensures View() == Spec.DropWindows(old(View()), 1)
    {
      var window := win.closed[0];
      assert win.closed[..1] == [window];
      assert Retained([window]) == window.bytes && RowCount([window]) == |window.rows|;
      win := win.(closed := win.closed[1..], retained := SatSub(win.retained, window.bytes));
      dropped := SatAdd(dropped, |window.rows|);
    }

    method DropExpired(now: nat)
      modifies `win, `dropped
      ensures View() == Spec.DropWindows(old(View()), ExpiredCount(old(win).closed, now))
    {
      ghost var before, k := View(), 0;
      while win.closed != [] && TooOld(win.closed[0], now)
        invariant k <= |before.win.closed| && View() == Spec.DropWindows(before, k)
        invariant k + ExpiredCount(win.closed, now) == ExpiredCount(before.win.closed, now)
        decreases |win.closed|
      {
        DropOneMore(before, k);
        DropOldest();
        k := k + 1;
      }
    }

    method DropOverflow()
      requires Accounted()
      modifies `win, `dropped
      ensures View() == Spec.DropWindows(old(View()), OverflowCount(old(win).closed, cfg.retentionBytes))
    {
      ghost var before, k := View(), 0;
      while win.retained > cfg.retentionBytes && win.closed != []
        invariant k <= |before.win.closed| && View() == Spec.DropWindows(before, k)
        invariant k + OverflowCount(win.closed, cfg.retentionBytes)
                  == OverflowCount(before.win.closed, cfg.retentionBytes)
        decreases |win.closed|
      {
        RetainedSplit(before.win.closed, k);
        DropOneMore(before, k);
        DropOldest();
        k := k + 1;
      }
      RetainedSplit(before.win.closed, k);
    }

    method PruneWindows(now: nat)
      requires Accounted()
      modifies `win, `dropped
      ensures View() == Spec.Prune(cfg, old(View()), now)
      ensures Accounted()
    {
      ghost var before := View();
      ghost var e := ExpiredCount(win.closed, now);
      DropKeepsTotal(before, e);
      DropExpired(now);
      ghost var k := OverflowCount(win.closed, cfg.retentionBytes);
      DropKeepsTotal(View(), k);
      DropOverflow();
      DropInTwo(before, e, k);
    }

    method CloseCurrentWindow(now: nat)
      requires Accounted()
      modifies `win, `dropped
      ensures View() == Spec.CloseWindow(cfg, old(View()), now)
      ensures Accounted()
    {
      if win.start.None? || win.open == [] {
        return;
      }
      var rows := win.open;
      var bytes := WindowBytes(cfg.sz, rows);
      var window := Window(win.nextId, win.start.value, rows, bytes);
      RetainedPush(win.closed, window);
      win := win.(open := [], closed := win.closed + [window], nextId := win.nextId + 1,
                  retained := win.retained + bytes, start := Some(MinuteStart(now)));
      PruneWindows(now);
    }

    method RollWindow(now: nat)
      requires Accounted()
      modifies `win, `dropped
      ensures View() == Spec.RollWindow(cfg, old(View()), now)
      ensures Accounted()
    {
      var minuteStart := MinuteStart(now);
      if win.start.None? {
        win := win.(start := Some(minuteStart));
      } else if minuteStart > win.start.value {
        CloseCurrentWindow(now);
        win := win.(start := Some(minuteStart));
      }
    }

    // ---- The fold ladder ----

    method Refold(position: nat, endpoint: bool) returns (target: CounterKey)
      requires position < |win.open|
      modifies `win
      ensures win == old(win).(open := Refolded(old(win).open, position, endpoint))
      ensures target == FoldedKey(old(win).open[position].key, endpoint)
    {
      var existing := win.open[position];
      win := win.(open := RemoveAt(win.open, position));
      target := FoldedKey(existing.key, endpoint);
      var merged := MergeCounterIncrement(EMPTY_ROW, existing.row);
      win := win.(open := win.open + [Entry(target, merged)]);
    }

    method CounterTarget(key: CounterKey) returns (target: CounterKey)
      modifies `win
      ensures var rows := old(win).open;
              var r := Choose(rows, key);
              win == old(win).(open := Prepared(rows, r)) && target == Target(rows, key, r)
    {
      if HasKey(win.open, key) || |win.open| < MAX_WINDOW_KEYS {
        return key;
      }
      var errorFolded := FoldedKey(key, false);
      if HasKey(win.open, errorFolded) {
        return errorFolded;
      }
      var position := FirstIndex(win.open, (e: Entry) => SameButErrorClass(e.key, key));
      if position < |win.open| {
        target := Refold(position, false);
        return;
      }
      var endpointFolded := FoldedKey(key, true);
      if HasKey(win.open, endpointFolded) {
        return endpointFolded;
      }
      position := FirstIndex(win.open, (e: Entry) => SameButErrorClassAndEndpoint(e.key, key));
      if position < |win.open| {
        target := Refold(position, true);
        return;
      }
      return win.open[0].key;
    }

    method MergeOneCounter(inc: Entry)
      modifies `win
      ensures win == old(win).(open := MergeOne(old(win).open, inc))
    {
      var target := CounterTarget(inc.key);
      var i := Find(win.open, target);
      if i < |win.open| {
        var row := MergeCounterIncrement(win.open[i].row, inc.row);
        win := win.(open := win.open[i := Entry(target, row)]);
      } else {
        var row := MergeCounterIncrement(EMPTY_ROW, inc.row);
        win := win.(open := win.open + [Entry(target, row)]);
      }
    }

    method MergeCounters(incs: seq<Entry>)
      modifies `win
      ensures View() == Spec.MergeCounters(old(View()), incs)
    {
      ghost var rows := win.open;
      var i := 0;
      while i < |incs|
        invariant 0 <= i <= |incs|
        invariant MergeAll(win.open, incs[i..]) == MergeAll(rows, incs)
        invariant win == old(win).(open := win.open)
      {
        assert incs[i..][1..] == incs[i + 1..];
        MergeOneCounter(incs[i]);
        i := i + 1;
      }
    }

    // ---- Events ----

    method DropBufferedEvent()
      modifies `buf, `dropped
      ensures View() == Spec.DropBufferedEvent(old(View()))
    {
      var index := VictimIndex(buf.events);
      if index < |buf.events| {
        var event := buf.events[index];
        buf := buf.(events := RemoveAt(buf.events, index), bytes := SatSub(buf.bytes, event.bytes));
        dropped := SatAdd(dropped, 1);
      }
    }

    method AppendEvent(wire: WireEvent, now: nat)
      modifies `buf, `dropped
      ensures View() == Spec.AppendEvent(cfg, old(View()), wire, now)
    {
      if |buf.events| >= MAX_EVENTS {
        DropBufferedEvent();
      }
      var bytes := cfg.sz.event(wire, 0);
      buf := Spec.Buffer(buf.events + [Buffered(buf.nextId, wire, now, bytes, wire.ok)],
                         buf.bytes + bytes, buf.nextId + 1);
    }

    method StartWorker(now: nat, runtime: bool)
      modifies `time, `workerStarted
      ensures View() == Spec.StartWorker(old(View()), now, runtime)
    {
      if workerStarted || disabled || shut || !runtime {
        return;
      }
      time := time.(nextFlushAt := now + time.flushInterval);
      workerStarted := true;
    }

    method OnRequest(now: nat, sample: Spec.Sample, incs: seq<Entry>, runtime: bool)
      requires Accounted()
      modifies this
      ensures View() == Spec.OnRequest(cfg, old(View()), now, sample, incs, runtime)
      ensures Accounted()
    {
      if disabled || shut {
        return;
      }
      RollWindow(now);
      MergeCounters(incs);
      match sample {
        case Unsampled =>
        case Unfit => dropped := SatAdd(dropped, 1);
        case Kept(wire) => AppendEvent(wire, now);
      }
      StartWorker(now, runtime);
      if Spec.Urgent(View()) {
        time := time.(urgentFlush := true);
      }
    }

    // ---- Flushing ----

    /** Closes the open window and prunes. */
    method Settle(now: nat)
      requires Accounted()
      modifies `win, `dropped
      ensures View() == Spec.Settle(cfg, old(View()), now)
      ensures Accounted()
    {
      RollWindow(now);
      CloseCurrentWindow(now);
      PruneWindows(now);
    }

    method SelectSettled(now: nat) returns (sel: Option<Selected>)
      modifies `seqNo
      ensures (View(), sel) == Spec.SelectSettled(cfg, old(View()), now)
    {
      var waiting;
      waiting, sel := BuildBatch(Spec.BatchContext(cfg, View(), now), buf.events, win.closed, dropped);
      if waiting {
        seqNo := Spec.NextSeq(seqNo);
      }
    }

    /** Builds the next batch; nothing when nothing waits. */
    method SelectBatch(now: nat) returns (sel: Option<Selected>)
      requires Accounted()
      modifies `win, `dropped, `seqNo
      ensures (View(), sel) == Spec.SelectBatch(cfg, old(View()), now)
      ensures Accounted()
    {
      Settle(now);
      sel := SelectSettled(now);
    }

    /** Takes the row of every reference out of its window. */
    method StripSent(refs: seq<Ref>) returns (changed: set<nat>)
      requires ValidWindows(cfg.sz, win.closed)
      modifies `win
      ensures win == old(win).(closed := Strip(old(win).closed, Members(refs)))
      ensures forall i :: 0 <= i < |win.closed| && win.closed[i].id !in changed ==>
                win.closed[i].rows == old(win).closed[i].rows
    {
      ghost var all := win.closed;
      changed := {};
      StripNothing(all);
      assert refs[..0] == [] && Members<Ref>([]) == {};
      for k := 0 to |refs|
        invariant win == old(win).(closed := Strip(all, Members(refs[..k])))
        invariant forall i :: 0 <= i < |all| && all[i].id !in changed ==> win.closed[i].rows == all[i].rows
      {
        StripStep(cfg.sz, all, Members(refs[..k]), refs[k]);
        MembersOneMore(refs, k);
        var hit := StripRef(refs[k]);
        if hit {
          changed := changed + {refs[k].0};
        }
      }
      assert refs[..|refs|] == refs;
    }

    /** Takes one row out of its window, if both are still there. */
    method StripRef(r: Ref) returns (hit: bool)
      modifies `win
      ensures win == old(win).(closed := StripOne(old(win).closed, r))
      ensures forall i :: 0 <= i < |win.closed| && !(hit && win.closed[i].id == r.0) ==>
                win.closed[i] == old(win).closed[i]
      ensures forall i :: 0 <= i < |win.closed| ==> win.closed[i].id == old(win).closed[i].id
    {
      var (id, key) := r;
      var p := FindWindow(win.closed, id);
      hit := false;
      if p < |win.closed| {
        var window := win.closed[p];
        var q := Find(window.rows, key);
        if q < |window.rows| {
          win := win.(closed := win.closed[p := window.(rows := RemoveAt(window.rows, q))]);
          hit := true;
        }
      }
    }

    /** Recomputes the sizes of the changed windows and the retained total. */
    method Resize(changed: set<nat>)
      requires Accounted()
      modifies `win
      ensures win == old(win).(closed := ResizeChanged(cfg.sz, old(win).closed, changed), retained := win.retained)
      ensures Accounted()
    {
      ghost var all := win.closed;
      for i := 0 to |win.closed|
        invariant |win.closed| == |all| && Accounted()
        invariant win == old(win).(closed := win.closed, retained := win.retained)
        invariant win.closed == ResizeChanged(cfg.sz, all, changed)[..i] + all[i..]
      {
        ResizeOneMore(cfg.sz, all, changed, i);
        var window := win.closed[i];
        assert window == all[i] && win.closed[i := window] == win.closed;
        if window.id in changed {
          var resized := Resized(cfg.sz, window);
          RetainedUpdate(win.closed, i, resized);
          win := win.(closed := win.closed[i := resized],
                      retained := SatSub(win.retained, window.bytes) + resized.bytes);
        }
      }
    }

    /** Retires the closed rows under the given references. */
    method RetireRows(refs: seq<Ref>)
      requires ValidWindows(cfg.sz, win.closed) && Accounted()
      modifies `win
      ensures win == old(win).(closed := RetireWindows(cfg.sz, old(win).closed, Members(refs)),
                               retained := Retained(RetireWindows(cfg.sz, old(win).closed, Members(refs))))
    {
      ghost var all := win.closed;
      var changed := StripSent(refs);
      StripKeepsBytes(all, Members(refs));
      FinishRetirement(cfg.sz, all, Members(refs), changed);
      Resize(changed);
      win := win.(closed := NonEmpty(win.closed));
    }

    method RemoveSelected(sel: Selected)
      requires ValidWindows(cfg.sz, win.closed) && Accounted()
      modifies `buf, `win
      ensures View() == Spec.RemoveSelected(cfg, old(View()), sel)
      ensures Accounted()
    {
      var events := Retain(buf.events, SentIds(sel));
      buf := buf.(events := events, bytes := SumBytes(events));
      RetireRows(sel.refs);
      assert Members(sel.refs) == SentRefs(sel);
    }

    // ---- Replies ----

    method SetBackoff(now: nat, retryAfter: Option<nat>)
      modifies `time
      ensures time == Spec.SetBackoff(old(time), now, retryAfter)
    {
      var delay := time.backoff;
      if retryAfter.Some? {
        delay := Max(delay, retryAfter.value);
      }
      time := time.(backoffUntil := now + Min(delay, Spec.BACKOFF_MAX));
      time := time.(backoff := Min(Max(time.backoff * 2, Spec.BACKOFF_MIN), Spec.BACKOFF_MAX));
    }

    method Disable()
      modifies `disabled, `buf, `win, `dropped
      ensures View() == Spec.Disable(old(View()))
    {
      disabled := true;
      buf := buf.(events := [], bytes := 0);
      win := win.(open := [], closed := [], retained := 0);
      dropped := 0;
    }

    method ApplyPolicy(policy: Spec.Policy, now: nat)
      modifies `sampleRate, `time
      ensures View() == Spec.ApplyPolicy(old(View()), policy, now)
    {
      if policy.sampleRate.Some? && 0.0 <= policy.sampleRate.value < sampleRate {
        sampleRate := policy.sampleRate.value;
      }
      if policy.flush.Some? && policy.flush.value > time.flushInterval {
        time := time.(flushInterval := Min(policy.flush.value, Spec.BACKOFF_MAX));
      }
      if policy.pause.Some? && 0 <= policy.pause.value <= Spec.MAX_PAUSE {
        time := time.(pausedUntil := Max(time.pausedUntil, now + policy.pause.value));
      }
    }

    method HandleResponse(now: nat, sel: Selected, reply: Spec.Reply)
      requires ValidWindows(cfg.sz, win.closed) && Accounted()
      modifies this
      ensures View() == Spec.HandleResponse(cfg, old(View()), now, sel, reply)
      ensures Accounted()
    {
      if reply.off {
        Disable();
      } else if reply.status == 202 {
        RemoveSelected(sel);
        dropped := SatSub(dropped, sel.dropped);
        time := time.(backoff := Spec.BACKOFF_MIN, backoffUntil := 0);
        if reply.policy.Some? {
          ApplyPolicy(reply.policy.value, now);
        }
      } else if Spec.DisablingStatus(reply.status) {
        Disable();
      } else if reply.status == 413 {
        RemoveSelected(sel);
        dropped := SatAdd(dropped, |sel.eventIds| + |sel.refs|);
      } else {
        SetBackoff(now, Spec.RetryAfter(reply.retryAfter));
      }
    }

    // ---- The worker ----

    /** One turn of the worker loop: whether it flushes now. */
    method Poll(now: nat) returns (flush: bool)
      modifies `time
      ensures flush == (!shut && !disabled && Spec.ShouldFlush(old(time), now))
      ensures time == if flush then Spec.WorkerPoll(old(time), now) else old(time)
    {
      if shut || disabled {
        return false;
      }
      var gate := Spec.Gate(time);
      var deadline := Max(time.nextFlushAt, gate);
      if time.urgentFlush && now >= gate && now >= time.urgentNotBefore {
        time := time.(urgentFlush := false);
        return true;
      }
      return now >= deadline;
    }

    method FlushDone(now: nat)
      modifies `time
      ensures time == Spec.WorkerDone(old(time), now)
    {
      time := time.(nextFlushAt := now + time.flushInterval);
      time := time.(urgentNotBefore := time.nextFlushAt);
    }
  }
}
