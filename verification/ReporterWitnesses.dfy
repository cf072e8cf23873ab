/** Runs of a reporter in production that show where a reply or a gate does less than
    one might expect. Every record is the report of one call that succeeds at once and
    is not sampled; every flush is the worker's or the final one. */
module ReporterWitnesses {
  import opened Basics
  import opened Vocabulary
  import opened Counters
  import opened FoldLadder
  import opened EventBuffer
  import opened Windows
  import opened Batch
  import opened RecorderSpec
  import opened CallReports
  import opened ReporterSpec
  import opened ReporterRuns
  import opened ReporterTheorems
  import opened ReporterReplies

  /** The retention cap as shipped, a key, and rows and envelopes of at most a
      thousand bytes. */
  ghost predicate Production(cfg: Config) {
    && cfg.retentionBytes == 524_288 && cfg.hasKey
    && (forall e, age: nat :: cfg.sz.row(e, age) <= 1000)
    && (forall n: nat, d: nat :: cfg.sz.envelope(n, d) <= 1000)
  }

  const INTERVAL: nat := 30 * SECOND

  const CALL := Spec(ChatCompletions, true, false, false, None)

  /** The counters of one such call, and the rows of `n` of them. */
  function Call(): seq<Entry> {
    CallCounters(CALL, Apex, Fine)
  }

  function Rows(n: u64): seq<Entry> {
    CallRows(n, CALL, Apex, Fine)
  }

  lemma {:induction false} CallIsReported()
    ensures |Emitted(CALL, Apex, Fine)| == 1 && Emitted(CALL, Apex, Fine)[0].counters == Call()
  {
    OneReport(CALL, Apex, Fine);
  }

  function Bytes(cfg: Config, n: u64): nat {
    WindowBytes(cfg.sz, Rows(n))
  }

  function OpenWindow(start: nat, n: u64): Counting {
    Counting(Some(start), Rows(n), [], 0, 0)
  }

  function Closed(cfg: Config, id: nat, start: nat, n: u64): Window {
    Window(id, start, Rows(n), Bytes(cfg, n))
  }

  /** The first window closed, and what is open in the minute from `start`. */
  function OneClosed(cfg: Config, start: nat, n: u64, open: seq<Entry>): Counting {
    Counting(Some(start), open, [Closed(cfg, 0, 0, n)], 1, Bytes(cfg, n))
  }

  function Refs(id: nat): seq<Ref> {
    [(id, Rows(1)[0].key), (id, Rows(1)[1].key)]
  }

  function Sent(n: u64): Selected {
    Selected([], [ClosedRow(0, 0, Rows(n)[0]), ClosedRow(0, 0, Rows(n)[1])], [], Refs(0), 0)
  }

  // ---- Bytes and pruning ----

  lemma {:induction false} TwoRowsBytes(cfg: Config, n: u64)
    requires Production(cfg)
    ensures Bytes(cfg, n) <= 2003
  {
    var rows := Rows(n);
    assert rows[1..][1..] == [];
    assert RowsBytes(cfg.sz, rows[1..]) == cfg.sz.row(rows[1], 0) + RowsBytes(cfg.sz, rows[1..][1..]);
  }

  lemma {:induction false} OneWindow(w: Window)
    ensures Retained([w]) == w.bytes && RowCount([w]) == |w.rows| && ClosedEntries([w]) == w.rows
  {
    var none: seq<Window> := [];
    assert [w][1..] == none;
    assert Retained(none) == 0 && RowCount(none) == 0 && ClosedEntries(none) == [];
    assert w.rows + [] == w.rows;
  }

  lemma {:induction false} YoungStays(w: Window, now: nat)
    requires !TooOld(w, now) && w.bytes <= 524_288
    ensures PruneCount([w], now, 524_288) == 0
  {
    OneWindow(w);
    assert [w][0..] == [w];
  }

  lemma {:induction false} OldGoes(a: Window, b: Window, now: nat)
    requires TooOld(a, now) && !TooOld(b, now) && b.bytes <= 524_288
    ensures PruneCount([a, b], now, 524_288) == 1
  {
    OneWindow(b);
    assert [a, b][1..] == [b];
    assert ExpiredCount([b], now) == 0 && ExpiredCount([a, b], now) == 1;
  }

  lemma {:induction false} NothingPruned(cfg: Config, f: Field, s: Core, h: History, now: nat)
    requires PruneCount(s.win.closed, now, cfg.retentionBytes) == 0
    ensures Prune(cfg, s, now) == s && LedgerOf(HPrune(cfg, f, s, h, now)) == LedgerOf(h)
  {
    assert s.win.closed[0..] == s.win.closed && s.win.closed[..0] == [];
  }

  // ---- What is watched along a run ----

  /** The requests recorded, discarded and retired so far, and the drops counted. */
  datatype Ledger = Ledger(merged: nat, discarded: nat, retired: nat, counted: nat)

  function LedgerOf(h: History): Ledger {
    Ledger(h.merged, h.discarded, h.retired, h.counted)
  }

  datatype Scene = Scene(
    win: Counting, dropped: u64, shut: bool, busy: bool, checked: Option<Checked>, flight: Option<Selected>,
    backoff: nat, backoffUntil: nat, now: nat, ledger: Ledger)

  function SceneOf(w: World): Scene {
    Scene(w.core.win, w.core.dropped, w.core.shut, w.busy, w.checked, w.flight, w.core.time.backoff,
          w.core.time.backoffUntil, w.now, LedgerOf(w.hist))
  }

  /** A reporter with nothing under way. */
  function Opening(win: Counting, now: nat, ledger: Ledger): Scene {
    Scene(win, 0, false, false, None, None, BACKOFF_MIN, 0, now, ledger)
  }

  /** A worker that is due, no pause, no event buffered. */
  predicate Calm(w: World) {
    && w.core.buf == Buffer([], 0, 0) && !w.core.disabled && w.core.workerStarted
    && w.core.time.pausedUntil == 0 && w.core.time.nextFlushAt == INTERVAL
  }

  predicate Begun(w: World) {
    && w.core.buf == Buffer([], 0, 0) && !w.core.disabled && !w.core.workerStarted
    && w.core.time.pausedUntil == 0 && w.core.time.flushInterval == INTERVAL
    && SceneOf(w) == Opening(Counting(None, [], [], 0, 0), 0, Ledger(0, 0, 0, 0))
  }

  lemma {:induction false} StartBegun(w: World)
    requires w == Start(None, 0)
    ensures Begun(w) && IsStart(w)
  {
  }

  // ---- Records ----

  lemma {:induction false} CallRequests()
    ensures Increments(Call(), Requests) == 2
  {
    RequestsIn(1, CALL, Apex, Fine);
  }

  /** A record, once its minute is open. */
  lemma {:induction false} RecordInto(cfg: Config, s: Core, t: Core, now: nat, rows: seq<Entry>)
    requires !s.disabled && !s.shut && t == RollWindow(cfg, s, now) && t.buf == Buffer([], 0, 0)
    requires MergeAll(t.win.open, Call()) == rows && |rows| == 2 && t.win.retained <= 10_000
    ensures OnRequest(cfg, s, now, Unsampled, Call(), true)
            == StartWorker(t.(win := t.win.(open := rows)), now, true)
  {
  }

  lemma {:induction false} RecordsTwo(cfg: Config, s: Core, h: History, now: nat)
    requires !s.disabled && !s.shut
    ensures var h1, h2 := HRoll(cfg, Requests, s, h, now), HRecord(cfg, Requests, s, h, now, Unsampled, Call());
            LedgerOf(h2) == LedgerOf(h1).(merged := h1.merged + 2)
  {
    CallRequests();
  }

  function RecordAt(now: nat): Step {
    Record(now, Unsampled, Call(), true)
  }

  lemma {:induction false} FirstRecord(cfg: Config, w: World)
    requires Begun(w)
    ensures var w' := Next(cfg, Requests, w, RecordAt(0));
            && Calm(w')
            && SceneOf(w') == SceneOf(w).(win := OpenWindow(0, 1), ledger := Ledger(2, 0, 0, 0))
  {
    assert MinuteStart(0) == 0;
    FirstCall(CALL, Apex, Fine);
    RecordInto(cfg, w.core, RollWindow(cfg, w.core, 0), 0, Rows(1));
    RecordsTwo(cfg, w.core, w.hist, 0);
  }

  lemma {:induction false} SameMinute(cfg: Config, s: Core, h: History, now: nat)
    requires s.win.start == Some(MinuteStart(now))
    ensures RollWindow(cfg, s, now) == s && HRoll(cfg, Requests, s, h, now) == h
  {
  }

  lemma {:induction false} NextRecord(cfg: Config, w: World, now: nat, rows: seq<Entry>)
    requires Calm(w) && !w.core.shut && now >= w.now && w.core.win.start == Some(MinuteStart(now))
    requires MergeAll(w.core.win.open, Call()) == rows && |rows| == 2 && w.core.win.retained <= 10_000
    ensures var w' := Next(cfg, Requests, w, RecordAt(now));
            && Calm(w')
            && SceneOf(w') == SceneOf(w).(
                 win := w.core.win.(open := rows), now := now, ledger := LedgerOf(w.hist).(merged := w.hist.merged + 2))
  {
    SameMinute(cfg, w.core, w.hist, now);
    RecordInto(cfg, w.core, w.core, now, rows);
    RecordsTwo(cfg, w.core, w.hist, now);
  }

  // ---- The worker and the gate ----

  lemma {:induction false} PollFlushes(cfg: Config, w: World, now: nat)
    requires Calm(w) && !w.busy && !w.core.shut && w.core.time.backoffUntil == 0 && now >= w.now && now >= INTERVAL
    ensures var w' := Next(cfg, Requests, w, Poll(now));
            Enabled(w, Poll(now)) && Calm(w') && SceneOf(w') == SceneOf(w).(busy := true, now := now)
  {
  }

  lemma {:induction false} GatePassed(cfg: Config, w: World, now: nat)
    requires Production(cfg) && Calm(w) && w.checked == None && w.flight == None
    requires w.core.time.backoffUntil == 0 && now >= w.now
    ensures var w' := Next(cfg, Requests, w, CheckGate(now));
            && Calm(w') && SceneOf(w') == SceneOf(w).(checked := Some(Checked(now, false)), now := now)
  {
  }

  // ---- Selection ----

  lemma {:induction false} ClosesFirst(cfg: Config, s: Core, h: History, n: u64, now: nat)
    requires Production(cfg) && s.win == OpenWindow(0, n) && now <= RETENTION
    ensures CloseWindow(cfg, s, now) == s.(win := OneClosed(cfg, MinuteStart(now), n, []))
    ensures LedgerOf(HClose(cfg, Requests, s, h, now)) == LedgerOf(h)
    ensures PruneCount([Closed(cfg, 0, 0, n)], now, 524_288) == 0
  {
    TwoRowsBytes(cfg, n);
    var t := s.(win := OneClosed(cfg, MinuteStart(now), n, []));
    assert PushWindow(cfg, s.win, now) == t.win;
    YoungStays(Closed(cfg, 0, 0, n), now);
    NothingPruned(cfg, Requests, t, h, now);
  }

  /** Closing leaves `t`, which has nothing open; so rolling over and closing do too. */
  lemma {:induction false} RollsOnce(cfg: Config, f: Field, s: Core, t: Core, h: History, now: nat)
    requires s.win.start == Some(0) && t == CloseWindow(cfg, s, now)
    requires t.win.start == Some(MinuteStart(now)) && t.win.open == []
    ensures CloseWindow(cfg, RollWindow(cfg, s, now), now) == t
    ensures HClose(cfg, f, RollWindow(cfg, s, now), HRoll(cfg, f, s, h, now), now) == HClose(cfg, f, s, h, now)
  {
    if MinuteStart(now) > 0 {
      assert RollWindow(cfg, s, now) == t;
    } else {
      assert RollWindow(cfg, s, now) == s;
    }
  }

  lemma {:induction false} SettlesFirst(cfg: Config, s: Core, h: History, n: u64, now: nat)
    requires Production(cfg) && s.win == OpenWindow(0, n) && now <= RETENTION
    ensures Settle(cfg, s, now) == s.(win := OneClosed(cfg, MinuteStart(now), n, []))
    ensures LedgerOf(HSettle(cfg, Requests, s, h, now)) == LedgerOf(h)
  {
    ClosesFirst(cfg, s, h, n, now);
    var t := s.(win := OneClosed(cfg, MinuteStart(now), n, []));
    RollsOnce(cfg, Requests, s, t, h, now);
    NothingPruned(cfg, Requests, t, HClose(cfg, Requests, s, h, now), now);
  }

  lemma {:induction false} FlattensTwo(cfg: Config, n: u64)
    ensures Flatten([Closed(cfg, 0, 0, n)]) == Sent(n).rows && RefsOf(Sent(n).rows) == Refs(0)
  {
    var w := Closed(cfg, 0, 0, n);
    assert [w][1..] == [];
    assert RowsOf(w) == Sent(n).rows;
    assert Flatten([w]) == RowsOf(w) + Flatten([]);
  }

  lemma {:induction false} TwoRowsFit(x: Context, rows: seq<ClosedRow>)
    requires |rows| == 2 && x.envelope <= 1000
    requires x.sz.row(rows[0].entry, AgeMs(x.now, rows[0].start)) <= 1000
    requires x.sz.row(rows[1].entry, AgeMs(x.now, rows[1].start)) <= 1000
    ensures Fits(x, [], rows)
  {
    assert rows[..1][..0] == [] && rows[..1][0] == rows[0];
    assert CountersBytes(x, rows[..1]) == CountersBytes(x, []) + RowBytes(x, rows[0]);
    assert CountersBytes(x, rows) == CountersBytes(x, rows[..1]) + RowBytes(x, rows[1]);
  }

  lemma {:induction false} SelectsTwo(cfg: Config, t: Core, start: nat, n: u64, now: nat)
    requires Production(cfg) && t.buf == Buffer([], 0, 0) && t.win.closed == [Closed(cfg, 0, 0, n)] && t.dropped == 0
    ensures SelectSettled(cfg, t, now) == (t.(seqNo := NextSeq(t.seqNo)), Some(Sent(n)))
  {
    var rows, x := Sent(n).rows, BatchContext(cfg, t, now);
    var none: seq<Buffered> := [];
    FlattensTwo(cfg, n);
    TwoRowsFit(x, rows);
    assert rows[..2] == rows && none[..0] == none && IdsOf(none) == [];
    assert Trim(x, none, rows, 0, 2) == Some((0, 2));
    assert FirstEvents(t.buf.events) == none && Batch.FirstRows(t.win.closed) == rows;
  }

  lemma {:induction false} FlushSends(cfg: Config, w: World, n: u64, now: nat)
    requires Production(cfg) && Calm(w) && w.core.win == OpenWindow(0, n) && w.core.dropped == 0
    requires w.checked.Some? && w.now <= now <= RETENTION
    ensures var w' := Next(cfg, Requests, w, BeginFlush(now));
            && Calm(w')
            && SceneOf(w') == SceneOf(w).(
                 win := OneClosed(cfg, MinuteStart(now), n, []), checked := None, flight := Some(Sent(n)), now := now)
  {
    SettlesFirst(cfg, w.core, w.hist, n, now);
    SelectsTwo(cfg, Settle(cfg, w.core, now), MinuteStart(now), n, now);
  }

  // ---- Runs, one step at a time ----

  lemma {:induction false} OneStep(cfg: Config, w: World, step: Step, w': World, rest: seq<Step>)
    requires Enabled(w, step) && Next(cfg, Requests, w, step) == w' && LegalRun(cfg, Requests, w', rest)
    ensures LegalRun(cfg, Requests, w, [step] + rest)
    ensures Run(cfg, Requests, w, [step] + rest) == Run(cfg, Requests, w', rest)
  {
    assert ([step] + rest)[1..] == rest;
  }

  lemma {:induction false} EndsReachable(cfg: Config, w0: World, steps: seq<Step>)
    requires IsStart(w0) && LegalRun(cfg, Requests, w0, steps)
    ensures Reachable(cfg, Requests, Run(cfg, Requests, w0, steps))
  {
  }

  // ---- Rows counted as dropped twice ----

  /** A day less a second after the first record, and two seconds later. */
  const EVE: nat := 86_399 * SECOND
  const MORROW: nat := 86_401 * SECOND

  const TOO_LARGE := Reply(413, false, None, None)

  lemma {:induction false} Minutes()
    ensures MinuteStart(EVE) == 86_340 * SECOND && MinuteStart(MORROW) == 86_400 * SECOND
  {
  }

  /** The second window, closed and alone, with a third call open. */
  function SecondClosed(cfg: Config): Counting {
    Counting(Some(MinuteStart(MORROW)), Rows(1), [Closed(cfg, 1, MinuteStart(EVE), 1)], 2, Bytes(cfg, 1))
  }

  lemma {:induction false} DayPasses(cfg: Config, s: Core, h: History)
    requires Production(cfg) && s.win == OneClosed(cfg, MinuteStart(EVE), 1, Rows(1)) && s.dropped == 0
    ensures RollWindow(cfg, s, MORROW) == s.(win := SecondClosed(cfg).(open := []), dropped := 2)
    ensures LedgerOf(HRoll(cfg, Requests, s, h, MORROW))
            == LedgerOf(h).(discarded := h.discarded + 2, counted := h.counted + 2)
  {
    Minutes();
    TwoRowsBytes(cfg, 1);
    var a, b := Closed(cfg, 0, 0, 1), Closed(cfg, 1, MinuteStart(EVE), 1);
    var t := s.(win := Counting(Some(MinuteStart(MORROW)), [], [a, b], 2, 2 * Bytes(cfg, 1)));
    assert PushWindow(cfg, s.win, MORROW) == t.win;
    OldGoes(a, b, MORROW);
    assert [a, b][1..] == [b] && [a, b][..1] == [a];
    OneWindow(a);
    RequestsIn(1, CALL, Apex, Fine);
    assert Prune(cfg, t, MORROW) == s.(win := SecondClosed(cfg).(open := []), dropped := 2);
  }

  lemma {:induction false} LateRecord(cfg: Config, w: World)
    requires Production(cfg) && Calm(w) && !w.core.shut && w.now <= MORROW
    requires w.core.win == OneClosed(cfg, MinuteStart(EVE), 1, Rows(1)) && w.core.dropped == 0
    ensures var w' := Next(cfg, Requests, w, RecordAt(MORROW));
            var l := LedgerOf(w.hist);
            && Calm(w')
            && SceneOf(w') == SceneOf(w).(
                 win := SecondClosed(cfg), dropped := 2, now := MORROW,
                 ledger := Ledger(l.merged + 2, l.discarded + 2, l.retired, l.counted + 2))
  {
    DayPasses(cfg, w.core, w.hist);
    FirstCall(CALL, Apex, Fine);
    TwoRowsBytes(cfg, 1);
    RecordInto(cfg, w.core, RollWindow(cfg, w.core, MORROW), MORROW, Rows(1));
    RecordsTwo(cfg, w.core, w.hist, MORROW);
  }

  lemma {:induction false} NoneHere(cfg: Config)
    ensures var w, refs := Closed(cfg, 1, MinuteStart(EVE), 1), Members(Refs(0));
            RetireWindows(cfg.sz, [w], refs) == [w] && RetiredRows([w], refs) == []
  {
    var w, refs := Closed(cfg, 1, MinuteStart(EVE), 1), Members(Refs(0));
    forall e | e in w.rows ensures (1, e.key) !in refs {
      assert forall r :: r in refs ==> r.0 == 0;
    }
    KeptWhole(w.rows, 1, refs);
    assert [w][1..] == [];
    assert RetireWindow(cfg.sz, w, refs) == w;
    assert RetireWindows(cfg.sz, [w], refs) == [w] + RetireWindows(cfg.sz, [], refs);
    assert RetiredRows([w], refs) == TakeRows(w.rows, 1, refs) + RetiredRows([], refs);
  }

  lemma {:induction false} KeptWhole(rows: seq<Entry>, window: nat, refs: set<Ref>)
    requires forall e :: e in rows ==> (window, e.key) !in refs
    ensures KeepRows(rows, window, refs) == rows && TakeRows(rows, window, refs) == []
  {
    if rows != [] {
      KeptWhole(rows[1..], window, refs);
    }
  }

  lemma {:induction false} RefusalCounts(cfg: Config, s: Core, h: History)
    requires s.win == SecondClosed(cfg) && s.dropped == 2 && s.buf == Buffer([], 0, 0)
    ensures TooLarge(cfg, s, Sent(1)) == s.(dropped := 4)
    ensures LedgerOf(HRespond(Requests, s, h, Sent(1), TOO_LARGE)) == LedgerOf(h).(counted := h.counted + 2)
  {
    RefusalRemoves(cfg, s);
    RefusalHistory(cfg, s, h);
  }

  lemma {:induction false} RefusalRemoves(cfg: Config, s: Core)
    requires s.win == SecondClosed(cfg) && s.buf == Buffer([], 0, 0)
    ensures RemoveSelected(cfg, s, Sent(1)) == s
  {
    NoneHere(cfg);
    OneWindow(Closed(cfg, 1, MinuteStart(EVE), 1));
    assert Retain([], SentIds(Sent(1))) == [];
  }

  lemma {:induction false} RefusalHistory(cfg: Config, s: Core, h: History)
    requires s.win == SecondClosed(cfg)
    ensures LedgerOf(HRespond(Requests, s, h, Sent(1), TOO_LARGE)) == LedgerOf(h).(counted := h.counted + 2)
  {
    NoneHere(cfg);
  }

  lemma {:induction false} Refused(cfg: Config, w: World)
    requires Calm(w) && w.core.win == SecondClosed(cfg) && w.core.dropped == 2 && w.flight == Some(Sent(1))
    requires w.now <= MORROW
    ensures var w' := Next(cfg, Requests, w, Respond(MORROW, TOO_LARGE));
            && SceneOf(w') == SceneOf(w).(
                 dropped := 4, flight := None, now := MORROW,
                 ledger := LedgerOf(w.hist).(counted := w.hist.counted + 2))
  {
    RefusalCounts(cfg, w.core, w.hist);
  }

  /** Three calls recorded, the rows of two still held, those of one gone, and twice
      as many drops counted as rows that went. */
  predicate CountedTwice(cfg: Config, w: World) {
    && w.core.win == SecondClosed(cfg) && LedgerOf(w.hist) == Ledger(6, 2, 0, 4) && w.core.dropped == 4
  }

  const REFUSAL := [Respond(MORROW, TOO_LARGE)]
  const LATE_CALL := [RecordAt(MORROW)] + REFUSAL
  const CALL_IN_FLIGHT := [RecordAt(EVE)] + LATE_CALL
  const WORKER_FLUSH := [BeginFlush(EVE)] + CALL_IN_FLIGHT
  const WORKER_GATE := [CheckGate(EVE)] + WORKER_FLUSH
  const WORKER_WAKES := [Poll(EVE)] + WORKER_GATE
  const LAST_DAY := [RecordAt(0)] + WORKER_WAKES

  function InFlight(win: Counting, dropped: u64, now: nat, ledger: Ledger): Scene {
    Opening(win, now, ledger).(dropped := dropped, busy := true, flight := Some(Sent(1)))
  }

  lemma {:induction false} FromRefusal(cfg: Config, w: World)
    requires Calm(w) && SceneOf(w) == InFlight(SecondClosed(cfg), 2, MORROW, Ledger(6, 2, 0, 2))
    ensures LegalRun(cfg, Requests, w, REFUSAL) && CountedTwice(cfg, Run(cfg, Requests, w, REFUSAL))
  {
    Refused(cfg, w);
    var w' := Next(cfg, Requests, w, REFUSAL[0]);
    OneStep(cfg, w, REFUSAL[0], w', []);
    assert [REFUSAL[0]] + [] == REFUSAL;
  }

  lemma {:induction false} FromLateCall(cfg: Config, w: World)
    requires Production(cfg) && Calm(w)
    requires SceneOf(w) == InFlight(OneClosed(cfg, MinuteStart(EVE), 1, Rows(1)), 0, EVE, Ledger(4, 0, 0, 0))
    ensures LegalRun(cfg, Requests, w, LATE_CALL) && CountedTwice(cfg, Run(cfg, Requests, w, LATE_CALL))
  {
    LateRecord(cfg, w);
    var w' := Next(cfg, Requests, w, RecordAt(MORROW));
    FromRefusal(cfg, w');
    OneStep(cfg, w, RecordAt(MORROW), w', REFUSAL);
  }

  lemma {:induction false} FromCallInFlight(cfg: Config, w: World)
    requires Production(cfg) && Calm(w)
    requires SceneOf(w) == InFlight(OneClosed(cfg, MinuteStart(EVE), 1, []), 0, EVE, Ledger(2, 0, 0, 0))
    ensures LegalRun(cfg, Requests, w, CALL_IN_FLIGHT) && CountedTwice(cfg, Run(cfg, Requests, w, CALL_IN_FLIGHT))
  {
    FirstCall(CALL, Apex, Fine);
    TwoRowsBytes(cfg, 1);
    NextRecord(cfg, w, EVE, Rows(1));
    var w' := Next(cfg, Requests, w, RecordAt(EVE));
    FromLateCall(cfg, w');
    OneStep(cfg, w, RecordAt(EVE), w', LATE_CALL);
  }

  lemma {:induction false} FromWorkerFlush(cfg: Config, w: World)
    requires Production(cfg) && Calm(w)
    requires SceneOf(w) == Opening(OpenWindow(0, 1), EVE, Ledger(2, 0, 0, 0)).(
                             busy := true, checked := Some(Checked(EVE, false)))
    ensures LegalRun(cfg, Requests, w, WORKER_FLUSH) && CountedTwice(cfg, Run(cfg, Requests, w, WORKER_FLUSH))
  {
    FlushSends(cfg, w, 1, EVE);
    var w' := Next(cfg, Requests, w, BeginFlush(EVE));
    FromCallInFlight(cfg, w');
    OneStep(cfg, w, BeginFlush(EVE), w', CALL_IN_FLIGHT);
  }

  lemma {:induction false} FromWorkerGate(cfg: Config, w: World)
    requires Production(cfg) && Calm(w)
    requires SceneOf(w) == Opening(OpenWindow(0, 1), EVE, Ledger(2, 0, 0, 0)).(busy := true)
    ensures LegalRun(cfg, Requests, w, WORKER_GATE) && CountedTwice(cfg, Run(cfg, Requests, w, WORKER_GATE))
  {
    GatePassed(cfg, w, EVE);
    var w' := Next(cfg, Requests, w, CheckGate(EVE));
    FromWorkerFlush(cfg, w');
    OneStep(cfg, w, CheckGate(EVE), w', WORKER_FLUSH);
  }

  lemma {:induction false} FromWorkerWakes(cfg: Config, w: World)
    requires Production(cfg) && Calm(w) && SceneOf(w) == Opening(OpenWindow(0, 1), 0, Ledger(2, 0, 0, 0))
    ensures LegalRun(cfg, Requests, w, WORKER_WAKES) && CountedTwice(cfg, Run(cfg, Requests, w, WORKER_WAKES))
  {
    PollFlushes(cfg, w, EVE);
    var w' := Next(cfg, Requests, w, Poll(EVE));
    FromWorkerGate(cfg, w');
    OneStep(cfg, w, Poll(EVE), w', WORKER_GATE);
  }

  /** "Every drop is counted" once, refuted: a window a day old is sent, expires while
      the batch is in flight, and is refused as too large. */
  lemma {:induction false} OversizeCanCountTwice(cfg: Config, w0: World)
    requires Production(cfg) && w0 == Start(None, 0)
    ensures LegalRun(cfg, Requests, w0, LAST_DAY)
    ensures var w := Run(cfg, Requests, w0, LAST_DAY); CountedTwice(cfg, w) && Reachable(cfg, Requests, w)
  {
    StartBegun(w0);
    FirstRecord(cfg, w0);
    var w' := Next(cfg, Requests, w0, RecordAt(0));
    FromWorkerWakes(cfg, w');
    OneStep(cfg, w0, RecordAt(0), w', WORKER_WAKES);
    EndsReachable(cfg, w0, LAST_DAY);
  }

  // ---- Counts retired that were never sent ----

  const FLUSH_NOW := [BeginFlush(INTERVAL)]
  const GATE_NOW := [CheckGate(INTERVAL)] + FLUSH_NOW
  const FLUSH_MINUTE := [Poll(INTERVAL)] + GATE_NOW

  function CallsInARow(n: nat): seq<Step> {
    if n == 0 then [] else [RecordAt(0)] + CallsInARow(n - 1)
  }

  lemma {:induction false} AllHere(cfg: Config, n: u64)
    ensures RetiredRows([Closed(cfg, 0, 0, n)], Members(Refs(0))) == Rows(n)
  {
    var w, refs := Closed(cfg, 0, 0, n), Members(Refs(0));
    forall e | e in w.rows ensures (0, e.key) in refs {
      assert (0, Rows(n)[0].key) == Refs(0)[0] && (0, Rows(n)[1].key) == Refs(0)[1];
    }
    TakenWhole(w.rows, 0, refs);
    assert [w][1..] == [];
    assert RetiredRows([w], refs) == TakeRows(w.rows, 0, refs) + RetiredRows([], refs);
  }

  lemma {:induction false} TakenWhole(rows: seq<Entry>, window: nat, refs: set<Ref>)
    requires forall e :: e in rows ==> (window, e.key) in refs
    ensures TakeRows(rows, window, refs) == rows
  {
    if rows != [] {
      TakenWhole(rows[1..], window, refs);
    }
  }

  lemma {:induction false} WireSays(n: u64)
    requires n > MAX_COUNT
    ensures Reported(Rows(n), Requests) == 2 * MAX_COUNT
  {
    var rows := Rows(n);
    assert rows[1..][1..] == [];
    assert Reported(rows[1..], Requests) == OnWire(rows[1], Requests) + Reported(rows[1..][1..], Requests);
  }

  /** Acknowledging the batch in flight retires `2 * n` requests and the wire carried
      twenty million. */
  predicate RetiresUnsent(cfg: Config, w: World, n: u64) {
    && Enabled(w, Respond(INTERVAL, PLAIN_202))
    && Next(cfg, Requests, w, Respond(INTERVAL, PLAIN_202)).hist.retired == 2 * n
    && Reported(RetiredBy(w), Requests) == 2 * MAX_COUNT
  }

  /** The rows of `n` calls in flight. */
  predicate Loaded(cfg: Config, w: World, n: u64) {
    && w.core.win.closed == [Closed(cfg, 0, 0, n)] && w.flight == Some(Sent(n))
    && w.now == INTERVAL && w.hist.retired == 0
  }

  lemma {:induction false} FlightRetires(cfg: Config, w: World, n: u64)
    requires n > MAX_COUNT && Loaded(cfg, w, n)
    ensures RetiresUnsent(cfg, w, n)
  {
    AllHere(cfg, n);
    WireSays(n);
    RequestsIn(n, CALL, Apex, Fine);
    RetiredAdds(cfg, Requests, w, INTERVAL, PLAIN_202);
  }

  lemma {:induction false} FromFlushNow(cfg: Config, w: World, n: u64)
    requires Production(cfg) && Calm(w) && n > MAX_COUNT
    requires SceneOf(w) == Recorded(n).(now := INTERVAL).(
                             busy := true, checked := Some(Checked(INTERVAL, false)))
    ensures LegalRun(cfg, Requests, w, FLUSH_NOW) && Loaded(cfg, Run(cfg, Requests, w, FLUSH_NOW), n)
  {
    FlushSends(cfg, w, n, INTERVAL);
    var w' := Next(cfg, Requests, w, FLUSH_NOW[0]);
    OneStep(cfg, w, FLUSH_NOW[0], w', []);
    assert [FLUSH_NOW[0]] + [] == FLUSH_NOW;
  }

  lemma {:induction false} FromGateNow(cfg: Config, w: World, n: u64)
    requires Production(cfg) && Calm(w) && n > MAX_COUNT
    requires SceneOf(w) == Recorded(n).(now := INTERVAL).(busy := true)
    ensures LegalRun(cfg, Requests, w, GATE_NOW) && Loaded(cfg, Run(cfg, Requests, w, GATE_NOW), n)
  {
    GatePassed(cfg, w, INTERVAL);
    var w' := Next(cfg, Requests, w, CheckGate(INTERVAL));
    FromFlushNow(cfg, w', n);
    OneStep(cfg, w, CheckGate(INTERVAL), w', FLUSH_NOW);
  }

  lemma {:induction false} FromFlushMinute(cfg: Config, w: World, n: u64)
    requires Production(cfg) && Calm(w) && n > MAX_COUNT
    requires SceneOf(w) == Recorded(n)
    ensures LegalRun(cfg, Requests, w, FLUSH_MINUTE) && Loaded(cfg, Run(cfg, Requests, w, FLUSH_MINUTE), n)
  {
    PollFlushes(cfg, w, INTERVAL);
    var w' := Next(cfg, Requests, w, Poll(INTERVAL));
    FromGateNow(cfg, w', n);
    OneStep(cfg, w, Poll(INTERVAL), w', GATE_NOW);
  }

  /** The scene after `m` calls. */
  function Recorded(m: u64): Scene {
    Opening(OpenWindow(0, m), 0, Ledger(2 * m, 0, 0, 0))
  }

  lemma {:induction false} OneCallMore(cfg: Config, w: World, m: u64)
    requires Calm(w) && m < U64_MAX && SceneOf(w) == Recorded(m)
    ensures var w' := Next(cfg, Requests, w, RecordAt(0)); Calm(w') && SceneOf(w') == Recorded(m + 1)
  {
    assert MinuteStart(0) == 0;
    AnotherCall(m, CALL, Apex, Fine);
    NextRecord(cfg, w, 0, Rows(m + 1));
  }

  function TakeCall(cfg: Config, w: World): World {
    if Enabled(w, RecordAt(0)) then Next(cfg, Requests, w, RecordAt(0)) else w
  }

  function Iterate<W>(step: W -> W, w: W, k: nat): W {
    if k == 0 then w else Iterate(step, step(w), k - 1)
  }

  predicate AfterCalls(w: World, m: nat) {
    m <= U64_MAX && Calm(w) && SceneOf(w) == Recorded(m)
  }

  /** Every call adds one. */
  ghost predicate AddsOne(step: World -> World) {
    forall x, j: nat :: AfterCalls(x, j) && j < U64_MAX ==> AfterCalls(step(x), j + 1)
  }

  lemma {:induction false} CallsAddUp(step: World -> World, w: World, m: nat, k: nat)
    requires AddsOne(step) && AfterCalls(w, m) && m + k <= U64_MAX
    ensures AfterCalls(Iterate(step, w, k), m + k)
    decreases k
  {
    if k > 0 {
      CallsAddUp(step, step(w), m + 1, k - 1);
    }
  }

  function Taking(cfg: Config): World -> World {
    (x: World) => TakeCall(cfg, x)
  }

  lemma {:induction false} CallTaken(cfg: Config, x: World, j: nat)
    requires AfterCalls(x, j) && j < U64_MAX
    ensures AfterCalls(TakeCall(cfg, x), j + 1)
  {
    OneCallMore(cfg, x, j);
  }

  lemma {:induction false} TakingAddsOne(cfg: Config)
    ensures AddsOne(Taking(cfg))
  {
    forall x, j: nat | AfterCalls(x, j) && j < U64_MAX ensures AfterCalls(Taking(cfg)(x), j + 1) {
      CallTaken(cfg, x, j);
      assert Taking(cfg)(x) == TakeCall(cfg, x);
    }
  }

  lemma {:induction false} StaysAtZero(cfg: Config, w: World)
    requires w.now == 0
    ensures Enabled(w, RecordAt(0)) && TakeCall(cfg, w) == Next(cfg, Requests, w, RecordAt(0)) && TakeCall(cfg, w).now == 0
  {
  }

  /** Calls in a row and what follows them are one run. */
  lemma {:induction false} CallsThen(cfg: Config, w: World, k: nat, v: World, rest: seq<Step>)
    requires w.now == 0 && v == Iterate(Taking(cfg), w, k) && LegalRun(cfg, Requests, v, rest)
    ensures LegalRun(cfg, Requests, w, CallsInARow(k) + rest)
    ensures Run(cfg, Requests, w, CallsInARow(k) + rest) == Run(cfg, Requests, v, rest)
    decreases k
  {
    if k == 0 {
      assert CallsInARow(0) + rest == rest;
    } else {
      var w' := TakeCall(cfg, w);
      StaysAtZero(cfg, w);
      CallsThen(cfg, w', k - 1, v, rest);
      OneStep(cfg, w, RecordAt(0), w', CallsInARow(k - 1) + rest);
      Assoc([RecordAt(0)], CallsInARow(k - 1), rest);
    }
  }

  lemma {:induction false} FirstThenRest(step: World -> World, w0: World, n: u64)
    requires AddsOne(step) && AfterCalls(step(w0), 1) && n > 0
    ensures AfterCalls(Iterate(step, w0, n), n)
  {
    CallsAddUp(step, step(w0), 1, n - 1);
  }

  lemma {:induction false} FirstCallTaken(cfg: Config, w0: World)
    requires Begun(w0)
    ensures AfterCalls(Taking(cfg)(w0), 1)
  {
    FirstRecord(cfg, w0);
    assert Taking(cfg)(w0) == TakeCall(cfg, w0);
  }

  lemma {:induction false} BegunCalls(cfg: Config, w0: World, n: u64)
    requires Begun(w0) && n > 0
    ensures AfterCalls(Iterate(Taking(cfg), w0, n), n)
  {
    FirstCallTaken(cfg, w0);
    TakingAddsOne(cfg);
    FirstThenRest(Taking(cfg), w0, n);
  }

  /** After more than ten million calls in a minute and one flush, a 202 retires more
      than the wire carried. */
  lemma {:induction false} AcceptCanRetireUnsent(cfg: Config, w0: World, n: u64)
    requires Production(cfg) && w0 == Start(None, 0) && n > MAX_COUNT
    ensures LegalRun(cfg, Requests, w0, CallsInARow(n) + FLUSH_MINUTE)
    ensures var w := Run(cfg, Requests, w0, CallsInARow(n) + FLUSH_MINUTE);
            RetiresUnsent(cfg, w, n) && Reachable(cfg, Requests, w)
  {
    StartBegun(w0);
    BegunCalls(cfg, w0, n);
    var v := Iterate(Taking(cfg), w0, n);
    FromFlushMinute(cfg, v, n);
    CallsThen(cfg, w0, n, v, FLUSH_MINUTE);
    FlightRetires(cfg, Run(cfg, Requests, v, FLUSH_MINUTE), n);
    EndsReachable(cfg, w0, CallsInARow(n) + FLUSH_MINUTE);
  }

  // ---- A backoff overtaken ----

  const GIVES_UP := [NoClient(INTERVAL)] + FLUSH_NOW
  const FINAL_GATE := [CheckGate(INTERVAL)] + GIVES_UP
  const CLOSING := [Close(INTERVAL)] + FINAL_GATE
  const WAKES := [Poll(INTERVAL)] + CLOSING
  const OVERTAKEN := [RecordAt(0)] + WAKES

  /** A batch in flight a minute before its backoff ends. */
  predicate TooEarly(w: World) {
    w.flight == Some(Sent(1)) && w.core.time.backoffUntil == w.now + BACKOFF_MIN
  }

  lemma {:induction false} CloseShuts(cfg: Config, w: World)
    requires Calm(w) && w.now <= INTERVAL
    ensures var w' := Next(cfg, Requests, w, Close(INTERVAL));
            Calm(w') && SceneOf(w') == SceneOf(w).(shut := true, now := INTERVAL)
  {
  }

  lemma {:induction false} WorkerGivesUp(cfg: Config, w: World)
    requires Calm(w) && w.busy && w.now <= INTERVAL && w.core.time.backoff == BACKOFF_MIN
    requires w.checked == Some(Checked(INTERVAL, false))
    ensures var w' := Next(cfg, Requests, w, NoClient(INTERVAL));
            && Calm(w')
            && SceneOf(w') == SceneOf(w).(
                 checked := Some(Checked(INTERVAL, true)), backoff := 2 * BACKOFF_MIN,
                 backoffUntil := INTERVAL + BACKOFF_MIN, now := INTERVAL)
  {
  }

  /** The scene while the reporter is closing and its worker still busy. */
  function Closing(now: nat): Scene {
    Opening(OpenWindow(0, 1), now, Ledger(2, 0, 0, 0)).(shut := true, busy := true)
  }

  lemma {:induction false} FromFinalFlush(cfg: Config, w: World)
    requires Production(cfg) && Calm(w)
    requires SceneOf(w) == Closing(INTERVAL).(
                             checked := Some(Checked(INTERVAL, true)), backoff := 2 * BACKOFF_MIN,
                             backoffUntil := INTERVAL + BACKOFF_MIN)
    ensures LegalRun(cfg, Requests, w, FLUSH_NOW) && TooEarly(Run(cfg, Requests, w, FLUSH_NOW))
  {
    FlushSends(cfg, w, 1, INTERVAL);
    var w' := Next(cfg, Requests, w, FLUSH_NOW[0]);
    OneStep(cfg, w, FLUSH_NOW[0], w', []);
    assert [FLUSH_NOW[0]] + [] == FLUSH_NOW;
  }

  lemma {:induction false} FromGivesUp(cfg: Config, w: World)
    requires Production(cfg) && Calm(w)
    requires SceneOf(w) == Closing(INTERVAL).(checked := Some(Checked(INTERVAL, false)))
    ensures LegalRun(cfg, Requests, w, GIVES_UP) && TooEarly(Run(cfg, Requests, w, GIVES_UP))
  {
    WorkerGivesUp(cfg, w);
    var w' := Next(cfg, Requests, w, NoClient(INTERVAL));
    FromFinalFlush(cfg, w');
    OneStep(cfg, w, NoClient(INTERVAL), w', FLUSH_NOW);
  }

  lemma {:induction false} FromFinalGate(cfg: Config, w: World)
    requires Production(cfg) && Calm(w) && SceneOf(w) == Closing(INTERVAL)
    ensures LegalRun(cfg, Requests, w, FINAL_GATE) && TooEarly(Run(cfg, Requests, w, FINAL_GATE))
  {
    GatePassed(cfg, w, INTERVAL);
    var w' := Next(cfg, Requests, w, CheckGate(INTERVAL));
    FromGivesUp(cfg, w');
    OneStep(cfg, w, CheckGate(INTERVAL), w', GIVES_UP);
  }

  lemma {:induction false} FromClosing(cfg: Config, w: World)
    requires Production(cfg) && Calm(w) && SceneOf(w) == Closing(INTERVAL).(shut := false)
    ensures LegalRun(cfg, Requests, w, CLOSING) && TooEarly(Run(cfg, Requests, w, CLOSING))
  {
    CloseShuts(cfg, w);
    var w' := Next(cfg, Requests, w, Close(INTERVAL));
    FromFinalGate(cfg, w');
    OneStep(cfg, w, Close(INTERVAL), w', FINAL_GATE);
  }

  lemma {:induction false} FromWakes(cfg: Config, w: World)
    requires Production(cfg) && Calm(w) && SceneOf(w) == Opening(OpenWindow(0, 1), 0, Ledger(2, 0, 0, 0))
    ensures LegalRun(cfg, Requests, w, WAKES) && TooEarly(Run(cfg, Requests, w, WAKES))
  {
    PollFlushes(cfg, w, INTERVAL);
    var w' := Next(cfg, Requests, w, Poll(INTERVAL));
    FromClosing(cfg, w');
    OneStep(cfg, w, Poll(INTERVAL), w', CLOSING);
  }

  /** The final flush overtakes a backoff: the reporter is closed while its worker is
      awake, the final flush looks at the gate, the worker then gives up for want of a
      client, and the final flush selects all the same. */
  lemma {:induction false} BackoffCanBeOvertaken(cfg: Config, w0: World)
    requires Production(cfg) && w0 == Start(None, 0)
    ensures LegalRun(cfg, Requests, w0, OVERTAKEN)
    ensures var w := Run(cfg, Requests, w0, OVERTAKEN); TooEarly(w) && Reachable(cfg, Requests, w)
  {
    StartBegun(w0);
    FirstRecord(cfg, w0);
    var w' := Next(cfg, Requests, w0, RecordAt(0));
    FromWakes(cfg, w');
    OneStep(cfg, w0, RecordAt(0), w', WAKES);
    EndsReachable(cfg, w0, OVERTAKEN);
  }
}
