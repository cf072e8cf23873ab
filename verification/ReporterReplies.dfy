/** What a reply accounts for: the drops a 413 counts and the counts a 202 retires. */
module ReporterReplies {
  import opened Basics
  import opened Vocabulary
  import opened Counters
  import opened FoldLadder
  import opened EventBuffer
  import opened Windows
  import opened Batch
  import opened Tally
  import RecorderSpec
  import opened ReporterSpec
  import opened ReporterRuns
  import opened ReporterTheorems
  import opened ReporterDrain

  // ---- What a 413 counts ----

  lemma {:induction false} RetainCount(events: seq<Buffered>, ids: set<nat>)
    ensures |Retain(events, ids)| + CountIn(IdsOf(events), ids) == |events|
  {
    if events != [] {
      RetainCount(events[1..], ids);
      assert IdsOf(events)[1..] == IdsOf(events[1..]);
    }
  }

  lemma {:induction false} TakeCount(w: Window, rows: seq<Entry>, refs: set<Ref>)
    ensures |TakeRows(rows, w.id, refs)| == CountIn(RefsOf(RowsOf(w.(rows := rows))), refs)
  {
    if rows != [] {
      TakeCount(w, rows[1..], refs);
      assert RefsOf(RowsOf(w.(rows := rows)))[1..] == RefsOf(RowsOf(w.(rows := rows[1..])));
    }
  }

  lemma {:induction false} RetiredCount(ws: seq<Window>, refs: set<Ref>)
    ensures |RetiredRows(ws, refs)| == CountIn(RefsOf(Flatten(ws)), refs)
  {
    if ws != [] {
      RetiredCount(ws[1..], refs);
      TakeCount(ws[0], ws[0].rows, refs);
      assert ws[0].(rows := ws[0].rows) == ws[0];
      RefsConcat(RowsOf(ws[0]), Flatten(ws[1..]));
      CountConcat(RefsOf(RowsOf(ws[0])), RefsOf(Flatten(ws[1..])), refs);
    }
  }

  lemma {:induction false} RefsConcat(a: seq<ClosedRow>, b: seq<ClosedRow>)
    ensures RefsOf(a + b) == RefsOf(a) + RefsOf(b)
  {
  }

  /** Every item of the batch is still where it was selected from. */
  predicate StillHeld(s: Core, sel: Selected) {
    && (forall i :: i in sel.eventIds ==> i in IdsOf(s.buf.events))
    && (forall r :: r in sel.refs ==> r in RefsOf(Flatten(s.win.closed)))
  }

  lemma {:induction false} RemovedEvents(s: Core, log: seq<WireEvent>, sel: Selected)
    requires GoodBuffer(s.buf, log) && Identified(sel)
    ensures |Retain(s.buf.events, SentIds(sel))| + |sel.eventIds| >= |s.buf.events|
    ensures |Retain(s.buf.events, SentIds(sel))| + |sel.eventIds| == |s.buf.events|
            <==> forall i :: i in sel.eventIds ==> i in IdsOf(s.buf.events)
  {
    var ids := IdsOf(s.buf.events);
    RetainCount(s.buf.events, SentIds(sel));
    assert Distinct(ids) by {
      forall i, j | 0 <= i < j < |ids| ensures ids[i] != ids[j] {
        assert s.buf.events[i].id < s.buf.events[j].id;
      }
    }
    AllHeldIff(ids, sel.eventIds);
  }

  lemma {:induction false} RemovedRows(cfg: Config, s: Core, sel: Selected)
    requires ValidWindows(cfg.sz, s.win.closed) && Identified(sel)
    ensures var kept := RetireWindows(cfg.sz, s.win.closed, SentRefs(sel));
            && RowCount(kept) + |sel.refs| >= RowCount(s.win.closed)
            && (RowCount(kept) + |sel.refs| == RowCount(s.win.closed)
                <==> forall r :: r in sel.refs ==> r in RefsOf(Flatten(s.win.closed)))
  {
    var held := RefsOf(Flatten(s.win.closed));
    RetirementConserves(cfg.sz, s.win.closed, SentRefs(sel), Requests);
    RetiredCount(s.win.closed, SentRefs(sel));
    FlattenDistinct(cfg.sz, s.win.closed);
    AllHeldIff(held, sel.refs);
  }

  /** How many items a step takes out of the buffer and the closed windows. */
  function Removed(s: Core, t: Core): int {
    |s.buf.events| - |t.buf.events| + RowCount(s.win.closed) - RowCount(t.win.closed)
  }

  lemma {:induction false} TooLargeRemoves(cfg: Config, s: Core, log: seq<WireEvent>, sel: Selected)
    requires GoodBuffer(s.buf, log) && ValidWindows(cfg.sz, s.win.closed) && Identified(sel)
    ensures Removed(s, TooLarge(cfg, s, sel)) <= |sel.eventIds| + |sel.refs|
    ensures Removed(s, TooLarge(cfg, s, sel)) == |sel.eventIds| + |sel.refs| <==> StillHeld(s, sel)
  {
    RemovedEvents(s, log, sel);
    RemovedRows(cfg, s, sel);
  }

  /** In every reachable state a 413 counts at least the items it removes, and
      exactly those iff everything sent is still held. */
  lemma {:induction false} OversizeCountedOnceIff(cfg: Config, f: Field, w: World, now: nat, reply: Reply)
    requires Reachable(cfg, f, w) && Enabled(w, Respond(now, reply)) && reply.status == 413 && !reply.off
    ensures var w' := Next(cfg, f, w, Respond(now, reply));
            && w'.hist.counted - w.hist.counted >= Removed(w.core, w'.core)
            && (w'.hist.counted - w.hist.counted == Removed(w.core, w'.core) <==> StillHeld(w.core, w.flight.value))
  {
    ReachableGood(cfg, f, w);
    TooLargeRemoves(cfg, w.core, w.hist.appended, w.flight.value);
  }

  // ---- What a 202 retires ----

  /** The least a row may say of a field on the wire. */
  function Floor(f: Field): u64 {
    if f.Requests? then 1 else 0
  }

  /** What the wire form of a row says: the count, clamped. */
  function OnWire(e: Entry, f: Field): u64 {
    Clamp(Get(e.row, f), Floor(f), MAX_COUNT)
  }

  function Reported(rows: seq<Entry>, f: Field): nat {
    if rows == [] then 0 else OnWire(rows[0], f) + Reported(rows[1..], f)
  }

  /** What clamping cuts off, and what it makes up. */
  function CutOff(rows: seq<Entry>, f: Field): nat {
    if rows == [] then 0 else Excess(Get(rows[0].row, f), 10_000_000) + CutOff(rows[1..], f)
  }

  function MadeUp(rows: seq<Entry>, f: Field): nat {
    if rows == [] then 0 else (if f.Requests? && Get(rows[0].row, f) == 0 then 1 else 0) + MadeUp(rows[1..], f)
  }

  lemma {:induction false} ReportedBalance(rows: seq<Entry>, f: Field)
    ensures Reported(rows, f) + CutOff(rows, f) == Total(rows, Everything, f) + MadeUp(rows, f)
  {
    if rows != [] {
      ReportedBalance(rows[1..], f);
    }
  }

  predicate AboveFloor(rows: seq<Entry>, f: Field) {
    forall e :: e in rows ==> Get(e.row, f) >= Floor(f)
  }

  lemma {:induction false} ReportedIff(rows: seq<Entry>, f: Field)
    requires AboveFloor(rows, f)
    ensures Reported(rows, f) <= Total(rows, Everything, f)
    ensures Reported(rows, f) == Total(rows, Everything, f) <==> forall e :: e in rows ==> Get(e.row, f) <= 10_000_000
  {
    if rows != [] {
      assert rows[0] in rows;
      assert forall e :: e in rows <==> e == rows[0] || e in rows[1..];
      ReportedIff(rows[1..], f);
    }
  }

  lemma {:induction false} MergedAboveFloor(row: CounterRow, increment: CounterRow, f: Field)
    requires Get(increment, f) >= Floor(f)
    ensures Get(Merged(row, increment), f) >= Floor(f)
  {
    MergedField(row, increment, f);
  }

  lemma {:induction false} AddAboveFloor(rows: seq<Entry>, key: CounterKey, increment: CounterRow, f: Field)
    requires AboveFloor(rows, f) && Get(increment, f) >= Floor(f)
    ensures AboveFloor(AddTo(rows, key, increment), f)
  {
    var i := Find(rows, key);
    if i < |rows| {
      MergedAboveFloor(rows[i].row, increment, f);
    } else {
      MergedAboveFloor(EMPTY_ROW, increment, f);
    }
  }

  lemma {:induction false} RefoldAboveFloor(rows: seq<Entry>, p: nat, endpoint: bool, f: Field)
    requires AboveFloor(rows, f) && p < |rows|
    ensures AboveFloor(Refolded(rows, p, endpoint), f)
  {
    assert rows[p] in rows;
    MergedAboveFloor(EMPTY_ROW, rows[p].row, f);
    assert forall e :: e in RemoveAt(rows, p) ==> e in rows;
  }

  lemma {:induction false} MergeAllAboveFloor(rows: seq<Entry>, incs: seq<Entry>, f: Field)
    requires AboveFloor(rows, f) && AboveFloor(incs, f)
    ensures AboveFloor(MergeAll(rows, incs), f)
    decreases |incs|
  {
    if incs != [] {
      var inc := incs[0];
      var r := Choose(rows, inc.key);
      assert inc in incs;
      if r.Refold? {
        RefoldAboveFloor(rows, r.position, r.endpoint, f);
      }
      AddAboveFloor(Prepared(rows, r), Target(rows, inc.key, r), inc.row, f);
      MergeAllAboveFloor(MergeOne(rows, inc), incs[1..], f);
    }
  }

  /** Every record counts at least one request, as the recorder's reports do. */
  predicate Proper(steps: seq<Step>, f: Field) {
    forall s :: s in steps && s.Record? ==> AboveFloor(s.incs, f)
  }

  lemma {:induction false} ReportsAreProper(
    spec: RecorderSpec.Spec, r: RecorderSpec.Rec, exhausted: bool, now: nat, f: Field)
    requires r.attempts != [] && r.firstStarted.Some?
    ensures AboveFloor(RecorderSpec.MakeReport(spec, r, exhausted, now).counters, f)
  {
  }

  lemma {:induction false} RecordAboveFloor(
    cfg: Config, f: Field, s: Core, now: nat, sample: Sample, incs: seq<Entry>, runtime: bool)
    requires AboveFloor(HeldRows(s), f) && AboveFloor(incs, f)
    ensures AboveFloor(HeldRows(OnRequest(cfg, s, now, sample, incs, runtime)), f)
  {
    if !s.disabled && !s.shut {
      RollShrinks(cfg, s, now);
      var t := RollWindow(cfg, s, now);
      assert forall e :: e in t.win.open ==> e in HeldRows(t);
      MergeAllAboveFloor(t.win.open, incs, f);
      var u := MergeCounters(t, incs);
      assert AboveFloor(HeldRows(u), f);
      assert OnRequest(cfg, s, now, sample, incs, runtime).win == u.win;
    }
  }

  lemma {:induction false} RespondAboveFloor(cfg: Config, f: Field, s: Core, now: nat, sel: Selected, reply: Reply)
    requires AboveFloor(HeldRows(s), f)
    ensures AboveFloor(HeldRows(HandleResponse(cfg, s, now, sel, reply)), f)
  {
    RetireKeepsOld(cfg.sz, s.win.closed, SentRefs(sel));
    var closed := RetireWindows(cfg.sz, s.win.closed, SentRefs(sel));
    assert forall e :: e in s.win.open + ClosedEntries(closed) ==> e in HeldRows(s);
    RespondWindows(cfg, s, now, sel, reply);
  }

  /** A reply leaves the windows alone, retires what was sent, or clears them. */
  lemma {:induction false} RespondWindows(cfg: Config, s: Core, now: nat, sel: Selected, reply: Reply)
    ensures var t := HandleResponse(cfg, s, now, sel, reply);
            var closed := RetireWindows(cfg.sz, s.win.closed, SentRefs(sel));
            || t.win == s.win
            || (t.win.open == s.win.open && t.win.closed == closed)
            || (t.win.open == [] && t.win.closed == [])
  {
  }

  lemma {:induction false} StepAboveFloor(cfg: Config, f: Field, w: World, step: Step)
    requires Enabled(w, step) && AboveFloor(HeldRows(w.core), f) && (step.Record? ==> AboveFloor(step.incs, f))
    ensures AboveFloor(HeldRows(Next(cfg, f, w, step).core), f)
  {
    match step
    case Record(now, sample, incs, runtime) => RecordAboveFloor(cfg, f, w.core, now, sample, incs, runtime);
    case BeginFlush(now) =>
      SettleShrinks(cfg, w.core, now);
      assert SelectBatch(cfg, w.core, now).0.win == Settle(cfg, w.core, now).win;
    case Respond(now, reply) => RespondAboveFloor(cfg, f, w.core, now, w.flight.value, reply);
    case CheckGate(_) =>
    case SendFailed(_) =>
    case Abandon(_) =>
    case NoClient(_) =>
    case Close(_) =>
    case Poll(_) =>
    case Done(_) =>
  }

  lemma {:induction false} RunAboveFloor(cfg: Config, f: Field, w: World, steps: seq<Step>)
    requires LegalRun(cfg, f, w, steps) && AboveFloor(HeldRows(w.core), f) && Proper(steps, f)
    ensures AboveFloor(HeldRows(Run(cfg, f, w, steps).core), f)
    decreases |steps|
  {
    if steps != [] {
      assert steps[0] in steps && forall s :: s in steps[1..] ==> s in steps;
      StepAboveFloor(cfg, f, w, steps[0]);
      RunAboveFloor(cfg, f, Next(cfg, f, w, steps[0]), steps[1..]);
    }
  }

  lemma {:induction false} RetiredWereHeld(ws: seq<Window>, refs: set<Ref>)
    ensures forall e :: e in RetiredRows(ws, refs) ==> e in ClosedEntries(ws)
  {
    if ws != [] {
      RetiredWereHeld(ws[1..], refs);
      TakenRowsWereSent(ws[0].rows, ws[0].id, refs);
    }
  }

  /** The rows a 202 retires now. */
  function RetiredBy(w: World): seq<Entry>
    requires w.flight.Some?
  {
    RetiredRows(w.core.win.closed, SentRefs(w.flight.value))
  }

  /** At the end of every run of proper records, the counts a 202 retires are at
      least what the wire said of those rows, and exactly that iff none of them had
      grown past ten million. */
  lemma {:induction false} RetiredIsReportedIff(
    cfg: Config, f: Field, w0: World, steps: seq<Step>, now: nat, reply: Reply)
    requires IsStart(w0) && LegalRun(cfg, f, w0, steps) && Proper(steps, f)
    requires Enabled(Run(cfg, f, w0, steps), Respond(now, reply)) && reply.status == 202 && !reply.off
    ensures var w := Run(cfg, f, w0, steps);
            var retired := Next(cfg, f, w, Respond(now, reply)).hist.retired - w.hist.retired;
            && retired >= Reported(RetiredBy(w), f)
            && (retired == Reported(RetiredBy(w), f) <==> forall e :: e in RetiredBy(w) ==> Get(e.row, f) <= MAX_COUNT)
  {
    var w := Run(cfg, f, w0, steps);
    assert HeldRows(w0.core) == [];
    RunAboveFloor(cfg, f, w0, steps);
    RetiredWereHeld(w.core.win.closed, SentRefs(w.flight.value));
    assert forall e :: e in ClosedEntries(w.core.win.closed) ==> e in HeldRows(w.core);
    ReportedIff(RetiredBy(w), f);
    RetiredAdds(cfg, f, w, now, reply);
  }

  lemma {:induction false} RetiredAdds(cfg: Config, f: Field, w: World, now: nat, reply: Reply)
    requires Enabled(w, Respond(now, reply)) && reply.status == 202 && !reply.off
    ensures Next(cfg, f, w, Respond(now, reply)).hist.retired - w.hist.retired == Total(RetiredBy(w), Everything, f)
  {
  }
}
