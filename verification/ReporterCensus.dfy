/** Where every event and every row goes: what leaves the reporter, by the step that
    took it, against what was buffered and what was counted as dropped. */
module ReporterCensus {
  import opened Counters
  import opened FoldLadder
  import opened EventBuffer
  import opened Windows
  import opened Batch
  import opened ReporterSpec
  import opened ReporterRuns
  import opened ReporterTheorems

  /** Events by what removed them, samples that fitted no event, rows that left the
      windows while time passed, and items a 413 named. */
  datatype Census = Census(
    accepted: int, refused: int, evicted: int, cleared: int, unfit: int, pruned: int, oversize: int)

  const NOBODY := Census(0, 0, 0, 0, 0, 0, 0)

  function Plus(a: Census, b: Census): Census {
    Census(a.accepted + b.accepted, a.refused + b.refused, a.evicted + b.evicted, a.cleared + b.cleared,
           a.unfit + b.unfit, a.pruned + b.pruned, a.oversize + b.oversize)
  }

  /** Rows open or closed. */
  function RowsIn(w: Counting): nat {
    |w.open| + RowCount(w.closed)
  }

  /** What the step from `w` to `v` takes away, read off the two states. */
  function StepCensus(cfg: Config, w: World, step: Step, v: World): Census
    requires Enabled(w, step)
  {
    var s, t := w.core, v.core;
    var gone := |s.buf.events| - |t.buf.events|;
    match step
    case Record(now, sample, _, _) =>
      if !Counts(w, step) then NOBODY
      else
        NOBODY.(evicted := gone + if sample.Kept? then 1 else 0,
                unfit := if sample.Unfit? then 1 else 0,
                pruned := RowsIn(s.win) - RowsIn(RollWindow(cfg, s, now).win))
    case BeginFlush(_) => NOBODY.(pruned := RowsIn(s.win) - RowsIn(t.win))
    case Respond(_, reply) =>
      if reply.off || DisablingStatus(reply.status) then NOBODY.(cleared := gone)
      else if reply.status == 202 then NOBODY.(accepted := gone)
      else if reply.status == 413 then
        NOBODY.(refused := gone, oversize := |w.flight.value.eventIds| + |w.flight.value.refs|)
      else NOBODY
    case CheckGate(_) => NOBODY
    case SendFailed(_) => NOBODY
    case Abandon(_) => NOBODY
    case NoClient(_) => NOBODY
    case Close(_) => NOBODY
    case Poll(_) => NOBODY
    case Done(_) => NOBODY
  }

  function RunCensus(cfg: Config, f: Field, w: World, steps: seq<Step>): Census
    requires LegalRun(cfg, f, w, steps)
    decreases |steps|
  {
    if steps == [] then NOBODY
    else
      var w' := Next(cfg, f, w, steps[0]);
      Plus(StepCensus(cfg, w, steps[0], w'), RunCensus(cfg, f, w', steps[1..]))
  }

  /** Nobody comes back. */
  predicate Counted(c: Census) {
    && c.accepted >= 0 && c.refused >= 0 && c.evicted >= 0 && c.cleared >= 0
    && c.unfit >= 0 && c.pruned >= 0 && c.oversize >= 0
  }

  /** Events that left the buffer. */
  function Leavers(c: Census): int {
    c.accepted + c.refused + c.evicted + c.cleared
  }

  /** What ought to be counted as dropped. */
  function Drops(c: Census): int {
    c.evicted + c.unfit + c.pruned + c.oversize
  }

  /** From `w` to `v` every event buffered is still there or was taken by someone, and
      every drop was counted. */
  predicate Balances(w: World, v: World, c: Census) {
    && Counted(c)
    && |v.hist.appended| - |w.hist.appended| == |v.core.buf.events| - |w.core.buf.events| + Leavers(c)
    && v.hist.counted - w.hist.counted == Drops(c)
  }

  // ---- Windows ----

  lemma {:induction false} PruneLeaves(cfg: Config, f: Field, s: Core, h: History, now: nat)
    ensures RowsIn(s.win) - RowsIn(Prune(cfg, s, now).win) == HPrune(cfg, f, s, h, now).counted - h.counted >= 0
    ensures Prune(cfg, s, now).buf == s.buf && HPrune(cfg, f, s, h, now).appended == h.appended
  {
    RetainedSplit(s.win.closed, PruneCount(s.win.closed, now, cfg.retentionBytes));
  }

  lemma {:induction false} CloseLeaves(cfg: Config, f: Field, s: Core, h: History, now: nat)
    ensures RowsIn(s.win) - RowsIn(CloseWindow(cfg, s, now).win) == HClose(cfg, f, s, h, now).counted - h.counted >= 0
    ensures CloseWindow(cfg, s, now).buf == s.buf && HClose(cfg, f, s, h, now).appended == h.appended
  {
    if s.win.start.Some? && s.win.open != [] {
      var t := s.(win := PushWindow(cfg, s.win, now));
      PushKeepsRows(cfg, s.win, now);
      PruneLeaves(cfg, f, t, h, now);
    }
  }

  lemma {:induction false} PushKeepsRows(cfg: Config, w: Counting, now: nat)
    requires w.start.Some?
    ensures RowsIn(PushWindow(cfg, w, now)) == RowsIn(w)
  {
    var v := Window(w.nextId, w.start.value, w.open, WindowBytes(cfg.sz, w.open));
    RetainedConcat(w.closed, [v]);
    assert RowCount([v]) == |w.open| + RowCount([v][1..]);
  }

  lemma {:induction false} RollLeaves(cfg: Config, f: Field, s: Core, h: History, now: nat)
    ensures RowsIn(s.win) - RowsIn(RollWindow(cfg, s, now).win) == HRoll(cfg, f, s, h, now).counted - h.counted >= 0
    ensures RollWindow(cfg, s, now).buf == s.buf && HRoll(cfg, f, s, h, now).appended == h.appended
  {
    CloseLeaves(cfg, f, s, h, now);
  }

  lemma {:induction false} SettleLeaves(cfg: Config, f: Field, s: Core, h: History, now: nat)
    ensures RowsIn(s.win) - RowsIn(Settle(cfg, s, now).win) == HSettle(cfg, f, s, h, now).counted - h.counted >= 0
    ensures Settle(cfg, s, now).buf == s.buf && HSettle(cfg, f, s, h, now).appended == h.appended
  {
    var t, ht := RollWindow(cfg, s, now), HRoll(cfg, f, s, h, now);
    RollLeaves(cfg, f, s, h, now);
    CloseLeaves(cfg, f, t, ht, now);
    PruneLeaves(cfg, f, CloseWindow(cfg, t, now), HClose(cfg, f, t, ht, now), now);
  }

  // ---- Steps ----

  lemma {:induction false} SampleLeaves(cfg: Config, s: Core, h: History, now: nat, sample: Sample)
    ensures var t, h' := TakeSample(cfg, s, now, sample), HSample(s, h, sample);
            var kept, unfit := if sample.Kept? then 1 else 0, if sample.Unfit? then 1 else 0;
            var evicted := |s.buf.events| + kept - |t.buf.events|;
            && evicted >= 0
            && |h'.appended| - |h.appended| == kept
            && h'.counted - h.counted == evicted + unfit
  {
  }

  lemma {:induction false} RecordLeaves(
    cfg: Config, f: Field, s: Core, h: History, now: nat, sample: Sample, incs: seq<Entry>, runtime: bool)
    requires !s.disabled && !s.shut
    ensures var t, h' := OnRequest(cfg, s, now, sample, incs, runtime), HRecord(cfg, f, s, h, now, sample, incs);
            var kept, unfit := if sample.Kept? then 1 else 0, if sample.Unfit? then 1 else 0;
            var evicted := |s.buf.events| + kept - |t.buf.events|;
            var pruned := RowsIn(s.win) - RowsIn(RollWindow(cfg, s, now).win);
            && evicted >= 0 && pruned >= 0
            && |h'.appended| - |h.appended| == kept
            && h'.counted - h.counted == evicted + unfit + pruned
  {
    RollLeaves(cfg, f, s, h, now);
    var t := RollWindow(cfg, s, now);
    var u, hu := MergeCounters(t, incs), HMerge(f, t, HRoll(cfg, f, s, h, now), incs);
    SampleLeaves(cfg, u, hu, now, sample);
    assert OnRequest(cfg, s, now, sample, incs, runtime).buf == TakeSample(cfg, u, now, sample).buf;
  }

  lemma {:induction false} RecordBalances(cfg: Config, f: Field, w: World, step: Step, v: World)
    requires Enabled(w, step) && step.Record?
    requires v.core == OnRequest(cfg, w.core, step.now, step.sample, step.incs, step.runtime)
    requires v.hist == HRecord(cfg, f, w.core, w.hist, step.now, step.sample, step.incs)
    ensures Balances(w, v, StepCensus(cfg, w, step, v))
  {
    if Counts(w, step) {
      RecordLeaves(cfg, f, w.core, w.hist, step.now, step.sample, step.incs, step.runtime);
      RecordSums(w, v, step.sample, RowsIn(w.core.win) - RowsIn(RollWindow(cfg, w.core, step.now).win));
    } else {
      NobodyLeft(w, v);
    }
  }

  lemma {:induction false} RecordSums(w: World, v: World, sample: Sample, pruned: int)
    requires var kept, unfit := if sample.Kept? then 1 else 0, if sample.Unfit? then 1 else 0;
             var evicted := |w.core.buf.events| + kept - |v.core.buf.events|;
             && evicted >= 0 && pruned >= 0
             && |v.hist.appended| - |w.hist.appended| == kept
             && v.hist.counted - w.hist.counted == evicted + unfit + pruned
    ensures Balances(w, v, NOBODY.(
              evicted := |w.core.buf.events| - |v.core.buf.events| + if sample.Kept? then 1 else 0,
              unfit := if sample.Unfit? then 1 else 0,
              pruned := pruned))
  {
  }

  lemma {:induction false} NobodyLeft(w: World, v: World)
    requires |v.core.buf.events| == |w.core.buf.events|
    requires |v.hist.appended| == |w.hist.appended| && v.hist.counted == w.hist.counted
    ensures Balances(w, v, NOBODY)
  {
    NobodyCounted();
    NobodyLeaves();
    NoneLeft(w, v, NOBODY);
  }

  lemma {:induction false} NobodyCounted()
    ensures Counted(NOBODY)
  {
  }

  lemma {:induction false} NobodyLeaves()
    ensures Leavers(NOBODY) == 0 && Drops(NOBODY) == 0
  {
  }

  lemma {:induction false} NoneLeft(w: World, v: World, c: Census)
    requires |v.core.buf.events| == |w.core.buf.events|
    requires |v.hist.appended| == |w.hist.appended| && v.hist.counted == w.hist.counted
    requires Counted(c) && Leavers(c) == 0 && Drops(c) == 0
    ensures Balances(w, v, c)
  {
  }

  lemma {:induction false} FlushBalances(cfg: Config, f: Field, w: World, step: Step, v: World)
    requires Enabled(w, step) && step.BeginFlush?
    requires v.core.buf == Settle(cfg, w.core, step.now).buf && v.core.win == Settle(cfg, w.core, step.now).win
    requires v.hist == HSettle(cfg, f, w.core, w.hist, step.now)
    ensures Balances(w, v, StepCensus(cfg, w, step, v))
  {
    SettleLeaves(cfg, f, w.core, w.hist, step.now);
  }

  /** A reply clears the buffer, takes what was sent, or leaves it alone. */
  lemma {:induction false} RespondEvents(cfg: Config, s: Core, now: nat, sel: Selected, reply: Reply)
    ensures HandleResponse(cfg, s, now, sel, reply).buf.events
            == if reply.off || DisablingStatus(reply.status) then []
               else if reply.status == 202 || reply.status == 413 then Retain(s.buf.events, SentIds(sel))
               else s.buf.events
  {
  }

  lemma {:induction false} RespondCounts(f: Field, s: Core, h: History, sel: Selected, reply: Reply)
    ensures var h' := HRespond(f, s, h, sel, reply);
            && h'.appended == h.appended
            && h'.counted - h.counted
               == if !reply.off && reply.status == 413 then |sel.eventIds| + |sel.refs| else 0
  {
  }

  lemma {:induction false} RespondBalances(cfg: Config, f: Field, w: World, step: Step, v: World)
    requires Enabled(w, step) && step.Respond?
    requires v.core.buf.events == HandleResponse(cfg, w.core, step.now, w.flight.value, step.reply).buf.events
    requires v.hist == HRespond(f, w.core, w.hist, w.flight.value, step.reply)
    ensures Balances(w, v, StepCensus(cfg, w, step, v))
  {
    var s, sel := w.core, w.flight.value;
    RetainMembers(s.buf.events, SentIds(sel));
    RespondEvents(cfg, s, step.now, sel, step.reply);
    RespondCounts(f, s, w.hist, sel, step.reply);
    RespondSums(w, v, sel, step.reply, StepCensus(cfg, w, step, v));
  }

  lemma {:induction false} RespondSums(w: World, v: World, sel: Selected, reply: Reply, c: Census)
    requires v.hist.appended == w.hist.appended && |v.core.buf.events| <= |w.core.buf.events|
    requires v.hist.counted - w.hist.counted
             == if !reply.off && reply.status == 413 then |sel.eventIds| + |sel.refs| else 0
    requires !reply.off && !DisablingStatus(reply.status) && reply.status != 202 && reply.status != 413 ==>
               v.core.buf.events == w.core.buf.events
    requires var gone := |w.core.buf.events| - |v.core.buf.events|;
             c == if reply.off || DisablingStatus(reply.status) then NOBODY.(cleared := gone)
                  else if reply.status == 202 then NOBODY.(accepted := gone)
                  else if reply.status == 413 then
                    NOBODY.(refused := gone, oversize := |sel.eventIds| + |sel.refs|)
                  else NOBODY
    ensures Balances(w, v, c)
  {
  }

  /** A step that touches neither buffer nor drop count. */
  lemma {:induction false} IdleBalances(cfg: Config, w: World, step: Step, v: World)
    requires Enabled(w, step) && !step.Record? && !step.BeginFlush? && !step.Respond?
    requires v.core.buf == w.core.buf && v.hist.appended == w.hist.appended && v.hist.counted == w.hist.counted
    ensures Balances(w, v, StepCensus(cfg, w, step, v))
  {
    NobodyLeft(w, v);
    IdleCensus(cfg, w, step, v);
  }

  lemma {:induction false} IdleCensus(cfg: Config, w: World, step: Step, v: World)
    requires Enabled(w, step) && !step.Record? && !step.BeginFlush? && !step.Respond?
    ensures StepCensus(cfg, w, step, v) == NOBODY
  {
  }

  lemma {:induction false} StepBalances(cfg: Config, f: Field, w: World, step: Step)
    requires Enabled(w, step)
    ensures Balances(w, Next(cfg, f, w, step), StepCensus(cfg, w, step, Next(cfg, f, w, step)))
  {
    var v := Next(cfg, f, w, step);
    if step.Record? {
      RecordBalances(cfg, f, w, step, v);
    } else if step.BeginFlush? {
      FlushBalances(cfg, f, w, step, v);
    } else if step.Respond? {
      RespondBalances(cfg, f, w, step, v);
    } else {
      IdleBalances(cfg, w, step, v);
    }
  }

  lemma {:induction false} BalancesTwice(u: World, v: World, w: World, a: Census, b: Census)
    requires Balances(u, v, a) && Balances(v, w, b)
    ensures Balances(u, w, Plus(a, b))
  {
  }

  lemma {:induction false} RunUnfolds(cfg: Config, f: Field, w: World, steps: seq<Step>)
    requires steps != [] && LegalRun(cfg, f, w, steps)
    ensures var w', rest := Next(cfg, f, w, steps[0]), steps[1..];
            && Run(cfg, f, w, steps) == Run(cfg, f, w', rest)
            && RunCensus(cfg, f, w, steps) == Plus(StepCensus(cfg, w, steps[0], w'), RunCensus(cfg, f, w', rest))
  {
  }

  lemma {:induction false} BalanceExtends(
    w: World, w': World, v: World, a: Census, b: Census, v': World, c: Census)
    requires Balances(w, w', a) && Balances(w', v, b) && v' == v && c == Plus(a, b)
    ensures Balances(w, v', c)
  {
    BalancesTwice(w, w', v, a, b);
  }

  lemma {:induction false} RunBalances(cfg: Config, f: Field, w: World, steps: seq<Step>)
    requires LegalRun(cfg, f, w, steps)
    ensures Balances(w, Run(cfg, f, w, steps), RunCensus(cfg, f, w, steps))
    decreases |steps|
  {
    if steps == [] {
      NobodyLeft(w, w);
    } else {
      var w', rest := Next(cfg, f, w, steps[0]), steps[1..];
      StepBalances(cfg, f, w, steps[0]);
      RunBalances(cfg, f, w', rest);
      RunUnfolds(cfg, f, w, steps);
      BalanceExtends(w, w', Run(cfg, f, w', rest), StepCensus(cfg, w, steps[0], w'), RunCensus(cfg, f, w', rest),
                     Run(cfg, f, w, steps), RunCensus(cfg, f, w, steps));
    }
  }

  lemma {:induction false} StartsAtZero(w: World)
    requires IsStart(w)
    ensures w.hist == EMPTY_HISTORY && w.core.buf.events == []
  {
    var rate, interval :| w == Start(rate, interval);
    StartIsFresh(rate, interval);
  }

  /** Every event ever buffered is still buffered or was removed by a 202, by a 413, by
      eviction or by disabling; and the drops counted are exactly the evicted events,
      the samples that fitted no event, the rows that expired or overflowed, and the
      items refused as oversize. */
  predicate Accounted(w: World, c: Census) {
    && Counted(c)
    && |w.hist.appended| == |w.core.buf.events| + Leavers(c)
    && w.hist.counted == Drops(c)
  }

  lemma {:induction false} FromZero(w0: World, w: World, c: Census)
    requires IsStart(w0) && Balances(w0, w, c)
    ensures Accounted(w, c)
  {
    StartsAtZero(w0);
  }

  /** At the end of every run of a new reporter all events and all drops are accounted
      for. */
  lemma {:induction false} EveryDropIsCounted(cfg: Config, f: Field, w0: World, steps: seq<Step>)
    requires IsStart(w0) && LegalRun(cfg, f, w0, steps)
    ensures Accounted(Run(cfg, f, w0, steps), RunCensus(cfg, f, w0, steps))
  {
    RunBalances(cfg, f, w0, steps);
    FromZero(w0, Run(cfg, f, w0, steps), RunCensus(cfg, f, w0, steps));
  }
}
