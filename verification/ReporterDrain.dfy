/** Acknowledged flushes drain the reporter, one strictly smaller state at a time. */
module ReporterDrain {
  import opened Basics
  import opened Counters
  import opened FoldLadder
  import opened EventBuffer
  import opened Windows
  import opened Batch
  import opened ReporterSpec
  import opened ReporterRuns

  /** Everything waiting: buffered events, open rows and closed rows. */
  function Items(s: Core): nat {
    |s.buf.events| + |s.win.open| + RowCount(s.win.closed)
  }

  function HeldRows(s: Core): seq<Entry> {
    s.win.open + ClosedEntries(s.win.closed)
  }

  /** One flush answered by a plain 202. */
  function Round(cfg: Config, s: Core, now: nat): Core {
    var (t, sel) := SelectBatch(cfg, s, now);
    if sel.None? then t else Acknowledge(cfg, t, sel.value)
  }

  /** Any single item that is waiting fits a batch of its own, at any age and with
      any sequence number and drop count a batch can carry. */
  ghost predicate EachFits(cfg: Config, s: Core) {
    && (forall b, age: nat, n: u64, d: u64 :: b in s.buf.events && age <= MAX_AGE_MS ==>
          cfg.sz.envelope(n, d) + cfg.sz.event(b.wire, age) <= MAX_BATCH_BYTES)
    && (forall e, age: nat, n: u64, d: u64 :: e in HeldRows(s) && age <= MAX_AGE_MS ==>
          cfg.sz.envelope(n, d) + cfg.sz.row(e, age) <= MAX_BATCH_BYTES)
  }

  /** Decimal digits, as JSON spells a number. */
  function Digits(n: nat): nat {
    if n < 10 then 1 else 1 + Digits(n / 10)
  }

  lemma {:induction false} DigitsBelow(n: nat, k: nat)
    requires 0 < k && n < Pow10(k)
    ensures Digits(n) <= k
  {
    if n >= 10 {
      DigitsBelow(n / 10, k - 1);
    }
  }

  lemma {:induction false} DigitsOfU64(n: nat)
    requires n <= U64_MAX
    ensures Digits(n) <= 20
  {
    assert Pow10(10) == 10_000_000_000;
    assert Pow10(20) == 10_000_000_000 * Pow10(10);
    DigitsBelow(n, 20);
  }

  lemma {:induction false} ThreeNumbers(n: u64, d: u64, age: nat)
    requires age <= MAX_AGE_MS
    ensures Digits(n) + Digits(d) + Digits(age) <= 60
  {
    DigitsOfU64(n);
    DigitsOfU64(d);
    DigitsOfU64(age);
  }

  /** The hypothesis is met by lengths that spell their numbers out: with 1 KiB
      around the items, items of up to 60 KiB each fit alone. */
  lemma {:induction false} SpelledSizesFit(cfg: Config, s: Core)
    requires forall n: u64, d: u64 :: cfg.sz.envelope(n, d) <= 1024 + Digits(n) + Digits(d)
    requires forall b, age: nat :: b in s.buf.events ==> cfg.sz.event(b.wire, age) <= 61440 + Digits(age)
    requires forall e, age: nat :: e in HeldRows(s) ==> cfg.sz.row(e, age) <= 61440 + Digits(age)
    ensures EachFits(cfg, s)
  {
    forall b, age: nat, n: u64, d: u64 | b in s.buf.events && age <= MAX_AGE_MS
      ensures cfg.sz.envelope(n, d) + cfg.sz.event(b.wire, age) <= MAX_BATCH_BYTES
    {
      ThreeNumbers(n, d, age);
    }
    forall e, age: nat, n: u64, d: u64 | e in HeldRows(s) && age <= MAX_AGE_MS
      ensures cfg.sz.envelope(n, d) + cfg.sz.row(e, age) <= MAX_BATCH_BYTES
    {
      ThreeNumbers(n, d, age);
    }
  }

  lemma {:induction false} FlattenEntries(ws: seq<Window>)
    ensures forall r :: r in Flatten(ws) ==> r.entry in ClosedEntries(ws)
  {
    if ws != [] {
      FlattenEntries(ws[1..]);
    }
  }

  // ---- Settling: closing and pruning never add items ----

  predicate Shrinks(s: Core, t: Core) {
    && t.buf == s.buf
    && Items(t) <= Items(s)
    && forall e :: e in HeldRows(t) ==> e in HeldRows(s)
  }

  lemma {:induction false} PruneShrinks(cfg: Config, s: Core, now: nat)
    ensures Shrinks(s, Prune(cfg, s, now))
  {
    var ws := s.win.closed;
    var k := PruneCount(ws, now, cfg.retentionBytes);
    RetainedSplit(ws, k);
    assert ws == ws[..k] + ws[k..];
    ClosedEntriesConcat(ws[..k], ws[k..]);
  }

  lemma {:induction false} CloseShrinks(cfg: Config, s: Core, now: nat)
    ensures Shrinks(s, CloseWindow(cfg, s, now))
  {
    if s.win.start.Some? && s.win.open != [] {
      var t := s.(win := PushWindow(cfg, s.win, now));
      var v := t.win.closed[|s.win.closed|];
      RetainedConcat(s.win.closed, [v]);
      ClosedEntriesConcat(s.win.closed, [v]);
      assert RowCount([v]) == |s.win.open| && ClosedEntries([v]) == s.win.open;
      assert Shrinks(s, t);
      PruneShrinks(cfg, t, now);
    }
  }

  lemma {:induction false} RollShrinks(cfg: Config, s: Core, now: nat)
    ensures Shrinks(s, RollWindow(cfg, s, now))
  {
    CloseShrinks(cfg, s, now);
  }

  lemma {:induction false} SettleShrinks(cfg: Config, s: Core, now: nat)
    ensures Shrinks(s, Settle(cfg, s, now))
  {
    var t := RollWindow(cfg, s, now);
    var u := CloseWindow(cfg, t, now);
    RollShrinks(cfg, s, now);
    CloseShrinks(cfg, t, now);
    PruneShrinks(cfg, u, now);
  }

  // ---- A round ----

  lemma {:induction false} RetainShorter(events: seq<Buffered>, ids: set<nat>)
    requires events != [] && events[0].id in ids
    ensures |Retain(events, ids)| < |events|
  {
    RetainMembers(events[1..], ids);
  }

  /** A 202 for a non-empty batch leaves strictly less waiting. */
  lemma {:induction false} AcknowledgeShrinks(cfg: Config, t: Core, sel: Selected)
    requires sel.eventIds == IdsOf(sel.events) && sel.refs == RefsOf(sel.rows)
    requires sel.events <= t.buf.events && sel.rows <= Flatten(t.win.closed)
    requires sel.events != [] || sel.rows != []
    ensures Items(Acknowledge(cfg, t, sel)) < Items(t)
  {
    RetainMembers(t.buf.events, SentIds(sel));
    RetirementConserves(cfg.sz, t.win.closed, SentRefs(sel), Requests);
    if sel.events != [] {
      assert sel.eventIds[0] in sel.eventIds;
      RetainShorter(t.buf.events, SentIds(sel));
    } else {
      FirstRowRetired(t.win.closed, sel);
    }
  }

  lemma {:induction false} FirstRowRetired(ws: seq<Window>, sel: Selected)
    requires sel.refs == RefsOf(sel.rows) && sel.rows != [] && sel.rows <= Flatten(ws)
    ensures RetiredRows(ws, SentRefs(sel)) != []
  {
    FlattenMembers(ws);
    RetiredExactly(ws, SentRefs(sel));
    var r := sel.rows[0];
    assert r in Flatten(ws) && sel.refs[0] in sel.refs && RefOf(r) in SentRefs(sel);
    var v :| v in ws && r.window == v.id && r.start == v.start && r.entry in v.rows;
    assert r.entry in RetiredRows(ws, SentRefs(sel));
  }

  lemma {:induction false} SingleRowBytes(x: Context, rows: seq<ClosedRow>)
    requires rows != []
    ensures BodyBytes(x, [], rows[..1]) == x.envelope + RowBytes(x, rows[0])
  {
    assert rows[..1][..0] == [] && CountersBytes(x, rows[..1]) == CountersBytes(x, []) + RowBytes(x, rows[0]);
  }

  lemma {:induction false} SingleEventBytes(x: Context, events: seq<Buffered>)
    requires events != []
    ensures BodyBytes(x, events[..1], []) == x.envelope + EventBytes(x, events[0])
  {
    assert events[..1][..0] == [] && EventsBytes(x, events[..1]) == EventsBytes(x, []) + EventBytes(x, events[0]);
  }

  /** With every item fitting alone, a settled state with anything waiting selects
      a non-empty batch. */
  lemma {:induction false} SelectsSomething(cfg: Config, t: Core, now: nat)
    requires EachFits(cfg, t) && (t.buf.events != [] || Flatten(t.win.closed) != [])
    ensures var r := Select(BatchContext(cfg, t, now), t.buf.events, t.win.closed, t.dropped);
            r.Some? && (r.value.events != [] || r.value.rows != [])
  {
    var x := BatchContext(cfg, t, now);
    var es, rs := FirstEvents(t.buf.events), FirstRows(t.win.closed);
    FlattenEntries(t.win.closed);
    if rs != [] {
      assert rs[0] in Flatten(t.win.closed);
      SingleRowBytes(x, rs);
      FitsMonotone(x, [], rs, 0, 0, 0, 1);
    } else {
      assert es[0] in t.buf.events;
      SingleEventBytes(x, es);
      FitsMonotone(x, es, [], 0, 0, 1, 0);
    }
    TrimExactly(x, es, rs, 0, 0);
    var picked := Trim(x, es, rs, |es|, |rs|).value;
    TrimExactly(x, es, rs, picked.0, picked.1);
    ProgressIff(x, es, rs, picked.0, picked.1);
  }

  /** Every acknowledged round strictly reduces what is waiting. */
  lemma {:induction false} RoundShrinks(cfg: Config, s: Core, now: nat)
    requires EachFits(cfg, s) && Settle(cfg, s, now).win.open == []
    ensures Items(Round(cfg, s, now)) <= Items(s)
    ensures Items(s) > 0 ==> Items(Round(cfg, s, now)) < Items(s)
  {
    SettleShrinks(cfg, s, now);
    var t := Settle(cfg, s, now);
    FlattenLength(t.win.closed);
    if t.buf.events != [] || Flatten(t.win.closed) != [] {
      SelectsSomething(cfg, t, now);
      SelectedWithinLimits(BatchContext(cfg, t, now), t.buf.events, t.win.closed, t.dropped);
      var (u, sel) := SelectBatch(cfg, s, now);
      AcknowledgeShrinks(cfg, u, sel.value);
    }
  }

  lemma {:induction false} AcknowledgeKeepsFits(cfg: Config, t: Core, sel: Selected)
    requires EachFits(cfg, t)
    ensures EachFits(cfg, Acknowledge(cfg, t, sel))
  {
    RetainMembers(t.buf.events, SentIds(sel));
    RetireKeepsOld(cfg.sz, t.win.closed, SentRefs(sel));
  }

  lemma {:induction false} RetireKeepsOld(sz: Sizes, ws: seq<Window>, refs: set<Ref>)
    ensures forall e :: e in ClosedEntries(RetireWindows(sz, ws, refs)) ==> e in ClosedEntries(ws)
  {
    if ws != [] {
      RetireKeepsOld(sz, ws[1..], refs);
      KeepRowsFacts(sz, ws[0].rows, ws[0].id, refs);
      var w := RetireWindow(sz, ws[0], refs);
      var rest := RetireWindows(sz, ws[1..], refs);
      ClosedEntriesConcat(if w.rows == [] then [] else [w], rest);
    }
  }

  lemma {:induction false} RoundKeepsFits(cfg: Config, s: Core, now: nat)
    requires EachFits(cfg, s)
    ensures EachFits(cfg, Round(cfg, s, now))
  {
    SettleShrinks(cfg, s, now);
    var (t, sel) := SelectBatch(cfg, s, now);
    assert EachFits(cfg, t);
    if sel.Some? {
      AcknowledgeKeepsFits(cfg, t, sel.value);
    }
  }

  // ---- Whole drains ----

  /** A flush and its acknowledgement, as steps of a run. */
  function RoundSteps(cfg: Config, f: Field, w: World, now: nat): World
    requires w.checked == None && w.flight == None && now >= w.now
  {
    var w0 := Next(cfg, f, w, CheckGate(now));
    if w0.checked.None? then w0
    else
      var w1 := Next(cfg, f, w0, BeginFlush(now));
      if w1.flight.Some? then Next(cfg, f, w1, Respond(now, PLAIN_202)) else w1
  }

  lemma {:induction false} RoundStepsGood(cfg: Config, f: Field, w: World, now: nat)
    requires GoodWorld(cfg, f, w) && w.checked == None && w.flight == None && now >= w.now
    ensures GoodWorld(cfg, f, RoundSteps(cfg, f, w, now))
  {
    StepKeepsGood(cfg, f, w, CheckGate(now));
    var w0 := Next(cfg, f, w, CheckGate(now));
    if w0.checked.Some? {
      FlushStepsGood(cfg, f, w0, now);
    }
  }

  lemma {:induction false} FlushStepsGood(cfg: Config, f: Field, w0: World, now: nat)
    requires GoodWorld(cfg, f, w0) && w0.checked.Some? && now >= w0.now
    ensures var w1 := Next(cfg, f, w0, BeginFlush(now));
            GoodWorld(cfg, f, if w1.flight.Some? then Next(cfg, f, w1, Respond(now, PLAIN_202)) else w1)
  {
    StepKeepsGood(cfg, f, w0, BeginFlush(now));
    var w1 := Next(cfg, f, w0, BeginFlush(now));
    if w1.flight.Some? {
      StepKeepsGood(cfg, f, w1, Respond(now, PLAIN_202));
    }
  }

  lemma {:induction false} WindowsKeepTimes(cfg: Config, s: Core, now: nat)
    ensures var t := RollWindow(cfg, s, now); t.time == s.time && t.disabled == s.disabled
    ensures var t := CloseWindow(cfg, s, now); t.time == s.time && t.disabled == s.disabled
    ensures var t := Prune(cfg, s, now); t.time == s.time && t.disabled == s.disabled
  {
  }

  lemma {:induction false} SelectKeepsTimes(cfg: Config, s: Core, now: nat)
    ensures var t := SelectBatch(cfg, s, now).0; t.time == s.time && t.disabled == s.disabled
  {
    var t := RollWindow(cfg, s, now);
    WindowsKeepTimes(cfg, s, now);
    WindowsKeepTimes(cfg, t, now);
    WindowsKeepTimes(cfg, CloseWindow(cfg, t, now), now);
  }

  lemma {:induction false} RoundStepsIsRound(cfg: Config, f: Field, w: World, now: nat)
    requires w.checked == None && w.flight == None && now >= w.now && MayFlush(cfg, w, now)
    ensures var w' := RoundSteps(cfg, f, w, now);
            && w'.core == Round(cfg, w.core, now)
            && w'.checked == None && w'.flight == None && w'.now == now && MayFlush(cfg, w', now)
  {
    FlushIsRound(cfg, f, Next(cfg, f, w, CheckGate(now)), now);
  }

  lemma {:induction false} FlushIsRound(cfg: Config, f: Field, w: World, now: nat)
    requires w.checked.Some? && now >= w.now && MayFlush(cfg, w, now)
    ensures var w1 := Next(cfg, f, w, BeginFlush(now));
            var w' := if w1.flight.Some? then Next(cfg, f, w1, Respond(now, PLAIN_202)) else w1;
            && w'.core == Round(cfg, w.core, now)
            && w'.checked == None && w'.flight == None && w'.now == now && MayFlush(cfg, w', now)
  {
    SelectKeepsTimes(cfg, w.core, now);
  }

  predicate Ascending(from: nat, times: seq<nat>)
    decreases |times|
  {
    times == [] || (from <= times[0] && Ascending(times[0], times[1..]))
  }

  ghost predicate Drainable(cfg: Config, f: Field, w: World, times: seq<nat>) {
    && GoodWorld(cfg, f, w) && w.checked == None && w.flight == None && EachFits(cfg, w.core)
    && Ascending(w.now, times)
    && (times != [] ==> MayFlush(cfg, w, times[0]))
  }

  function Drain(cfg: Config, f: Field, w: World, times: seq<nat>): World
    requires w.checked == None && w.flight == None && Ascending(w.now, times)
    decreases |times|
  {
    if times == [] then w
    else
      var w' := RoundSteps(cfg, f, w, times[0]);
      Drain(cfg, f, w', times[1..])
  }

  /** With no new records, as many acknowledged flushes as there are items leave
      nothing waiting, whenever those flushes happen. */
  lemma {:induction false} AcknowledgedFlushesDrain(cfg: Config, f: Field, w: World, times: seq<nat>)
    requires Drainable(cfg, f, w, times) && |times| >= Items(w.core)
    ensures Items(Drain(cfg, f, w, times).core) == 0
    decreases |times|
  {
    if times != [] {
      var now := times[0];
      var w' := RoundSteps(cfg, f, w, now);
      RoundStepsIsRound(cfg, f, w, now);
      RoundStepsGood(cfg, f, w, now);
      RoundKeepsFits(cfg, w.core, now);
      TimePasses(cfg, f, w.core, w.hist, None, w.now, now);
      SettleKeeps(cfg, f, w.core, w.hist, None, now);
      RoundShrinks(cfg, w.core, now);
      AcknowledgedFlushesDrain(cfg, f, w', times[1..]);
    }
  }
}
