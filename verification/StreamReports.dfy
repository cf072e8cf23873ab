/** What a call that opened a response reports in the end, from the environment's
    answers and what became of its stream or body. */
module StreamReports {
  import opened Basics
  import opened Vocabulary
  import opened RecorderSpec
  import opened RecorderRuns
  import opened EngineSpec
  import opened EngineTheorems
  import opened EngineAnswers
  import opened ReportTheorems

  // ---- What became of the stream ----

  predicate Finishes(op: Op) {
    op.StreamFailure? || op.StreamComplete? || op.FinishCall?
  }

  predicate Fails(op: Op) {
    op.StreamFailure? || op.Failure?
  }

  /** The first of the operations to finish the call is the `k`-th; none does if that is
      past the end. */
  predicate FinishesAt(ops: seq<Op>, k: nat) {
    && k <= |ops| && (forall j :: 0 <= j < k ==> !Finishes(ops[j]))
    && (k < |ops| ==> Finishes(ops[k]))
  }

  /** An event came before operation `i`. */
  predicate Started(ops: seq<Op>, i: nat)
    requires i <= |ops|
  {
    exists j :: 0 <= j < i && ops[j].StreamEvent?
  }

  /** Operation `j` is the last failure before operation `i`. */
  predicate LastFailure(ops: seq<Op>, j: nat, i: nat)
    requires i <= |ops|
  {
    j < i && Fails(ops[j]) && forall l :: j < l < i ==> !Fails(ops[l])
  }

  /** The time to the first event before operation `i`, if there was one. */
  predicate FirstEventTold(ops: seq<Op>, i: nat, started: nat, ttft: Option<nat>)
    requires i <= |ops|
  {
    if Started(ops, i) then
      exists j :: 0 <= j < i && ops[j].StreamEvent? && ttft == Some(Elapsed(started, ops[j].now))
                  && forall l :: 0 <= l < j ==> !ops[l].StreamEvent?
    else ttft == None
  }

  /** The record of an opened attempt that failed by `op`, once its body had begun or
      not: a timeout in a body that had begun is a stall. */
  predicate TellsBroken(turn: Turn, op: Op, begun: bool, a: AttemptRecord)
    requires Fails(op)
  {
    var stalled := op.timedOut && begun;
    && turn.send.Responded? && a.httpStatus == Some(turn.send.status) && TellsHeaders(turn, a) && a.errorSource == None
    && a.outcome == (if op.timedOut then Timeout else if begun then StreamBroken else TransportError)
    && a.errorClass == Some(if stalled && op.class_ == ReadTimeout then StreamStalled else op.class_)
    && a.phase == (if stalled then Idle
                   else if op.class_ == ConnectTimeout then Connect
                   else if op.class_ == ReadTimeout || op.class_ == WriteTimeout then FirstByte else NoPhase)
    && a.elapsedMs == Elapsed(turn.startedAt, op.now)
  }

  predicate BrokenBy(turn: Turn, ops: seq<Op>, j: nat, a: AttemptRecord)
    requires j < |ops| && Fails(ops[j])
  {
    TellsBroken(turn, ops[j], ops[j].StreamFailure? && Started(ops, j), a)
  }

  predicate NoFailure(ops: seq<Op>, i: nat)
    requires i <= |ops|
  {
    forall j :: 0 <= j < i ==> !Fails(ops[j])
  }

  /** The record of the opened attempt before operation `i`: the response, or the last
      failure. */
  predicate Fate(turn: Turn, ops: seq<Op>, i: nat, a: AttemptRecord)
    requires i <= |ops|
  {
    && (NoFailure(ops, i) ==> TellsResponse(turn, a))
    && forall j :: 0 <= j < i && LastFailure(ops, j, i) ==> BrokenBy(turn, ops, j, a)
  }

  // ---- The recorder on the way ----

  /** A call that opened its `n`-th attempt at `turn`, before operation `i`. */
  predicate Ongoing(turn: Turn, started: nat, ops: seq<Op>, i: nat, before: Rec, r: Rec)
    requires i <= |ops|
  {
    var n := |before.attempts|;
    && n > 0 && !r.finished && r.emitted == [] && Since(r, n - 1, turn.startedAt) && r.firstStarted == Some(started)
    && r.currentHost == Some(before.attempts[n - 1].host)
    && |r.attempts| == n && r.attempts[..n - 1] == before.attempts[..n - 1]
    && r.attempts[n - 1].host == before.attempts[n - 1].host && r.attempts[n - 1].index == n - 1
    && FirstEventTold(ops, i, started, r.ttftMs)
    && Fate(turn, ops, i, r.attempts[n - 1])
  }

  lemma {:induction false} NoFailureKeepsFate(turn: Turn, ops: seq<Op>, i: nat, a: AttemptRecord)
    requires i < |ops| && Fate(turn, ops, i, a) && !Fails(ops[i])
    ensures Fate(turn, ops, i + 1, a)
  {
    forall j | 0 <= j < i + 1 && LastFailure(ops, j, i + 1) ensures BrokenBy(turn, ops, j, a) {
      assert LastFailure(ops, j, i);
    }
  }

  lemma {:induction false} FailureSetsFate(turn: Turn, ops: seq<Op>, i: nat, a: AttemptRecord)
    requires i < |ops| && Fails(ops[i]) && BrokenBy(turn, ops, i, a)
    ensures Fate(turn, ops, i + 1, a)
  {
    assert LastFailure(ops, i, i + 1);
  }

  /** The record shows the answered status and headers, however it went since. */
  predicate Responded(turn: Turn, a: AttemptRecord) {
    turn.send.Responded? && a.httpStatus == Some(turn.send.status) && TellsHeaders(turn, a) && a.errorSource == None
  }

  lemma {:induction false} FateResponded(turn: Turn, ops: seq<Op>, i: nat, a: AttemptRecord)
    requires i <= |ops| && Fate(turn, ops, i, a)
    ensures Responded(turn, a)
    decreases i
  {
    if i > 0 {
      if Fails(ops[i - 1]) {
        assert LastFailure(ops, i - 1, i);
      } else {
        forall j | 0 <= j < i - 1 && LastFailure(ops, j, i - 1) ensures BrokenBy(turn, ops, j, a) {
          assert LastFailure(ops, j, i);
        }
        FateResponded(turn, ops, i - 1, a);
      }
    }
  }

  lemma {:induction false} NoEventKeepsFirst(ops: seq<Op>, i: nat, started: nat, ttft: Option<nat>)
    requires i < |ops| && FirstEventTold(ops, i, started, ttft) && !ops[i].StreamEvent?
    ensures FirstEventTold(ops, i + 1, started, ttft) && Started(ops, i + 1) == Started(ops, i)
  {
    if Started(ops, i) {
      var j :| 0 <= j < i && ops[j].StreamEvent? && ttft == Some(Elapsed(started, ops[j].now))
               && forall l :: 0 <= l < j ==> !ops[l].StreamEvent?;
      assert 0 <= j < i + 1 && ops[j].StreamEvent?;
    }
  }

  lemma {:induction false} BreakTells(r: Rec, k: nat, turn: Turn, op: Op, begun: bool)
    requires Since(r, k, turn.startedAt) && |r.attempts| == k + 1 && Responded(turn, r.attempts[k]) && Fails(op)
    ensures var o := OnTransportError(r, op.class_, op.timedOut, true, begun, op.now);
            && |o.attempts| == k + 1 && o.attempts[..k] == r.attempts[..k]
            && TellsBroken(turn, op, begun, o.attempts[k])
            && o.attempts[k].host == r.currentHost.value && o.attempts[k].index == k && o == r.(attempts := o.attempts)
  {
  }

  lemma {:induction false} FailureOngoing(
    turn: Turn, started: nat, ops: seq<Op>, i: nat, before: Rec, r: Rec, begun: bool)
    requires i < |ops| && Ongoing(turn, started, ops, i, before, r) && Fails(ops[i])
    requires begun == (ops[i].StreamFailure? && Started(ops, i))
    ensures var op := ops[i];
            Ongoing(turn, started, ops, i + 1, before, OnTransportError(r, op.class_, op.timedOut, true, begun, op.now))
  {
    var op, k := ops[i], |r.attempts| - 1;
    FateResponded(turn, ops, i, r.attempts[k]);
    BreakTells(r, k, turn, op, begun);
    var o := OnTransportError(r, op.class_, op.timedOut, true, begun, op.now);
    FailureSetsFate(turn, ops, i, o.attempts[k]);
    NoEventKeepsFirst(ops, i, started, r.ttftMs);
  }

  lemma {:induction false} EventOngoing(turn: Turn, started: nat, ops: seq<Op>, i: nat, before: Rec, c: Call, spec: Spec)
    requires i < |ops| && Ongoing(turn, started, ops, i, before, c.rec) && ops[i].StreamEvent?
    requires c.bodyStarted == Started(ops, i)
    ensures Ongoing(turn, started, ops, i + 1, before, Apply(spec, c, ops[i]).rec)
    ensures Apply(spec, c, ops[i]).bodyStarted && Started(ops, i + 1)
  {
    assert ops[i].StreamEvent?;
    NoFailureKeepsFate(turn, ops, i, c.rec.attempts[|before.attempts| - 1]);
    var ttft := Apply(spec, c, ops[i]).rec.ttftMs;
    if Started(ops, i) {
      var j :| 0 <= j < i && ops[j].StreamEvent? && ttft == Some(Elapsed(started, ops[j].now))
               && forall l :: 0 <= l < j ==> !ops[l].StreamEvent?;
      assert 0 <= j < i + 1 && ops[j].StreamEvent?;
    } else {
      assert forall l :: 0 <= l < i ==> !ops[l].StreamEvent?;
      assert ttft == Some(Elapsed(started, ops[i].now));
    }
  }

  lemma {:induction false} QuietOngoing(turn: Turn, started: nat, ops: seq<Op>, i: nat, before: Rec, r: Rec)
    requires i < |ops| && Ongoing(turn, started, ops, i, before, r) && !Fails(ops[i]) && !ops[i].StreamEvent?
    ensures Ongoing(turn, started, ops, i + 1, before, r)
  {
    NoFailureKeepsFate(turn, ops, i, r.attempts[|before.attempts| - 1]);
    NoEventKeepsFirst(ops, i, started, r.ttftMs);
  }

  // ---- The report ----

  /** The operations the report can know of: up to the one that finishes. */
  function Known(ops: seq<Op>, k: nat): (i: nat)
    requires k <= |ops|
    ensures i <= |ops|
  {
    if k < |ops| then k + 1 else k
  }

  /** The last record of the report: as the stream left it, or, if nothing finished the
      call, aborted when its recorder was dropped. */
  ghost predicate LastTold(turn: Turn, ops: seq<Op>, k: nat, now: nat, a: AttemptRecord)
    requires k <= |ops|
  {
    if k < |ops| then Fate(turn, ops, k + 1, a)
    else exists outcome, ms :: Fate(turn, ops, k, a.(outcome := outcome, elapsedMs := ms))
                               && a.outcome == Aborted && a.elapsedMs == Elapsed(turn.startedAt, now)
  }

  /** The report of a call that had made the attempts of `before`, opened the last of
      them at `turn` and was finished by operation `k`, or dropped. */
  ghost predicate StreamTold(
    spec: Spec, turn: Turn, started: nat, ops: seq<Op>, k: nat, now: nat, before: Rec, rep: Report)
    requires k <= |ops| && (k < |ops| ==> Finishes(ops[k]))
  {
    var n, e := |before.attempts|, rep.event;
    && n > 0 && |e.attempts| == n && CountersTell(spec, rep) && EventTells(spec, e, false)
    && e.attempts[..n - 1] == before.attempts[..n - 1] && e.attempts[n - 1].host == before.attempts[n - 1].host
    && e.totalMs == Elapsed(started, if k < |ops| then ops[k].now else now)
    && FirstEventTold(ops, Known(ops, k), started, e.ttftMs)
    && LastTold(turn, ops, k, now, e.attempts[n - 1])
  }

  lemma {:induction false} FinishTold(
    spec: Spec, turn: Turn, started: nat, ops: seq<Op>, k: nat, now: nat, before: Rec, o: Rec)
    requires k < |ops| && Finishes(ops[k]) && Ongoing(turn, started, ops, k + 1, before, o) && spec.recordable
    ensures var r := Finish(spec, o, false, ops[k].now);
            r.finished && |r.emitted| == 1 && StreamTold(spec, turn, started, ops, k, now, before, r.emitted[0])
  {
    ReportRows(spec, o, false, ops[k].now);
  }

  lemma {:induction false} AbortTold(turn: Turn, started: nat, ops: seq<Op>, now: nat, before: Rec, r: Rec)
    requires Ongoing(turn, started, ops, |ops|, before, r)
    ensures var a, n := OnAborted(r, now), |before.attempts|;
            && a == r.(attempts := a.attempts) && |a.attempts| == n && a.attempts[..n - 1] == before.attempts[..n - 1]
            && a.attempts[n - 1].host == before.attempts[n - 1].host
            && LastTold(turn, ops, |ops|, now, a.attempts[n - 1])
  {
    var a, n := OnAborted(r, now), |before.attempts|;
    var last, was := a.attempts[n - 1], r.attempts[n - 1];
    assert last.(outcome := was.outcome, elapsedMs := was.elapsedMs) == was;
  }

  lemma {:induction false} DropTold(spec: Spec, turn: Turn, started: nat, ops: seq<Op>, now: nat, before: Rec, r: Rec)
    requires Ongoing(turn, started, ops, |ops|, before, r) && spec.recordable
    ensures var d := Dropped(spec, r, now);
            |d.emitted| == 1 && StreamTold(spec, turn, started, ops, |ops|, now, before, d.emitted[0])
  {
    AbortTold(turn, started, ops, now, before, r);
    ReportRows(spec, OnAborted(r, now), false, now);
  }

  lemma {:induction false} EmittedKept(spec: Spec, c: Call, op: Op)
    requires c.rec.finished
    ensures Apply(spec, c, op).rec.finished && Apply(spec, c, op).rec.emitted == c.rec.emitted
  {
  }

  lemma {:induction false} FinishingTold(
    spec: Spec, turn: Turn, started: nat, ops: seq<Op>, k: nat, now: nat, before: Rec, c: Call)
    requires k < |ops| && Finishes(ops[k]) && AfterOpen(ops[k]) && spec.recordable
    requires Ongoing(turn, started, ops, k, before, c.rec) && c.bodyStarted == Started(ops, k)
    ensures var r := Apply(spec, c, ops[k]).rec;
            r.finished && HandsOver(spec, turn, started, ops, k, now, before, r.emitted)
  {
    FinishedBy(spec, c, ops[k]);
    var o := AtTheEnd(c, ops[k]);
    if ops[k].StreamFailure? {
      FailureOngoing(turn, started, ops, k, before, c.rec, c.bodyStarted);
    } else {
      QuietOngoing(turn, started, ops, k, before, c.rec);
    }
    FinishTold(spec, turn, started, ops, k, now, before, o);
  }

  /** What the recorder holds when `op` finishes the call. */
  function AtTheEnd(c: Call, op: Op): Rec {
    if op.StreamFailure? then OnTransportError(c.rec, op.class_, op.timedOut, true, c.bodyStarted, op.now) else c.rec
  }

  lemma {:induction false} FinishedBy(spec: Spec, c: Call, op: Op)
    requires Finishes(op) && AfterOpen(op)
    ensures Apply(spec, c, op).rec == Finish(spec, AtTheEnd(c, op), false, op.now)
  {
  }

  lemma {:induction false} StillOngoing(
    spec: Spec, turn: Turn, started: nat, ops: seq<Op>, i: nat, before: Rec, c: Call)
    requires i < |ops| && !Finishes(ops[i]) && AfterOpen(ops[i])
    requires Ongoing(turn, started, ops, i, before, c.rec) && c.bodyStarted == Started(ops, i)
    ensures Ongoing(turn, started, ops, i + 1, before, Apply(spec, c, ops[i]).rec)
    ensures Apply(spec, c, ops[i]).bodyStarted == Started(ops, i + 1)
  {
    if ops[i].Failure? {
      FailureOngoing(turn, started, ops, i, before, c.rec, false);
      NoEventKeepsFirst(ops, i, started, c.rec.ttftMs);
    } else {
      EventOngoing(turn, started, ops, i, before, c, spec);
    }
  }

  lemma {:induction false} ApplyFirst(spec: Spec, c: Call, ops: seq<Op>, i: nat)
    requires i < |ops|
    ensures ApplyAll(spec, c, ops[i..]) == ApplyAll(spec, Apply(spec, c, ops[i]), ops[i + 1..])
  {
    assert ops[i..][0] == ops[i] && ops[i..][1..] == ops[i + 1..];
  }

  /** What is handed over for a call finished by operation `k`, or dropped. */
  ghost predicate HandsOver(
    spec: Spec, turn: Turn, started: nat, ops: seq<Op>, k: nat, now: nat, before: Rec, emitted: seq<Report>)
    requires k <= |ops| && (k < |ops| ==> Finishes(ops[k]))
  {
    |emitted| == 1 && StreamTold(spec, turn, started, ops, k, now, before, emitted[0])
  }

  /** What each operation keeps holds in the end. */
  lemma {:induction false} KeptToTheEnd(spec: Spec, c: Call, ops: seq<Op>, i: nat, kept: (nat, Call) -> bool)
    requires i <= |ops| && kept(i, c)
    requires forall j, d :: 0 <= j < |ops| && kept(j, d) ==> kept(j + 1, Apply(spec, d, ops[j]))
    ensures kept(|ops|, ApplyAll(spec, c, ops[i..]))
    decreases |ops| - i
  {
    if i < |ops| {
      ApplyFirst(spec, c, ops, i);
      KeptToTheEnd(spec, Apply(spec, c, ops[i]), ops, i + 1, kept);
    }
  }

  /** Before operation `i` the call goes on, or has been finished by operation `k`. */
  ghost predicate Underway(
    spec: Spec, turn: Turn, started: nat, ops: seq<Op>, k: nat, now: nat, before: Rec, i: nat, c: Call)
    requires FinishesAt(ops, k)
  {
    i <= |ops| &&
    if i <= k then Ongoing(turn, started, ops, i, before, c.rec) && c.bodyStarted == Started(ops, i)
    else c.rec.finished && HandsOver(spec, turn, started, ops, k, now, before, c.rec.emitted)
  }

  lemma {:induction false} StaysUnderway(
    spec: Spec, turn: Turn, started: nat, ops: seq<Op>, k: nat, now: nat, before: Rec, i: nat, c: Call)
    requires FinishesAt(ops, k) && i < |ops| && AfterOpen(ops[i]) && spec.recordable
    requires Underway(spec, turn, started, ops, k, now, before, i, c)
    ensures Underway(spec, turn, started, ops, k, now, before, i + 1, Apply(spec, c, ops[i]))
  {
    if i == k {
      FinishingTold(spec, turn, started, ops, k, now, before, c);
    } else if i < k {
      StillOngoing(spec, turn, started, ops, i, before, c);
    } else {
      EmittedKept(spec, c, ops[i]);
    }
  }

  lemma {:induction false} StreamRun(
    spec: Spec, turn: Turn, started: nat, ops: seq<Op>, k: nat, now: nat, before: Rec, c: Call)
    requires FinishesAt(ops, k) && spec.recordable && forall j :: 0 <= j < |ops| ==> AfterOpen(ops[j])
    requires Ongoing(turn, started, ops, 0, before, c.rec) && !c.bodyStarted
    ensures Underway(spec, turn, started, ops, k, now, before, |ops|, ApplyAll(spec, c, ops))
  {
    var kept := (i: nat, d: Call) => Underway(spec, turn, started, ops, k, now, before, i, d);
    forall j, d | 0 <= j < |ops| && kept(j, d) ensures kept(j + 1, Apply(spec, d, ops[j])) {
      StaysUnderway(spec, turn, started, ops, k, now, before, j, d);
    }
    assert ops[0..] == ops;
    KeptToTheEnd(spec, c, ops, 0, kept);
  }

  lemma {:induction false} RunThenDrop(
    spec: Spec, turn: Turn, started: nat, ops: seq<Op>, k: nat, now: nat, before: Rec, c: Call)
    requires FinishesAt(ops, k) && spec.recordable && Underway(spec, turn, started, ops, k, now, before, |ops|, c)
    ensures HandsOver(spec, turn, started, ops, k, now, before, Dropped(spec, c.rec, now).emitted)
  {
    if k == |ops| {
      DropTold(spec, turn, started, ops, now, before, c.rec);
    }
  }

  // ---- From the environment ----

  /** The attempt that opened the call is in flight, as it was answered. */
  predicate OpenedAt(r: Rec, n: nat, turn: Turn) {
    n > 0 && |r.attempts| == n && Since(r, n - 1, turn.startedAt) && r.currentHost == Some(r.attempts[n - 1].host)
  }

  lemma {:induction false} StepOpens(req: Request, t: Trace, turn: Turn)
    requires t.cursor < |req.hosts| && WellKept(t.rec) && !t.rec.finished && |t.rec.attempts| == |t.used|
    requires Step(req, t, turn).end.Opened?
    ensures OpenedAt(Step(req, t, turn).rec, |t.used| + 1, turn)
  {
    ObservedExtends(t.rec, |t.used|, req.hosts[t.cursor], turn);
    ObservedTells(t.rec, |t.used|, req.hosts[t.cursor], turn);
  }

  lemma {:induction false} WalkOpened(req: Request, t: Trace, env: nat -> Turn)
    requires Mirrors(req, t, t.rec) && |t.rec.attempts| == |t.used| && !t.rec.finished
    requires t.cursor < |req.hosts| && |t.used| <= req.maxRetries
    ensures var w := Walk(req, t, env); w.end.Opened? ==> w.used != [] && OpenedAt(w.rec, |w.used|, env(|w.used| - 1))
    decreases req.maxRetries - |t.used|
  {
    var turn := env(|t.used|);
    StepMirrors(req, t, turn);
    StepBounds(req, t, turn);
    var t' := Step(req, t, turn);
    if t'.end.Running? {
      RecordedEnding(req, t.rec, |t.used|, t.cursor, turn);
      WalkOpened(req, t', env);
    } else if t'.end.Opened? {
      StepOpens(req, t, turn);
    }
  }

  lemma {:induction false} TellsIsResponse(turn: Turn, a: AttemptRecord)
    requires Tells(turn, a, false) && turn.send.Responded? && 200 <= turn.send.status <= 299
    ensures TellsResponse(turn, a)
  {
  }

  lemma {:induction false} OngoingFrom(turn: Turn, started: nat, ops: seq<Op>, r: Rec, n: nat)
    requires OpenedAt(r, n, turn) && Clocked(r, started) && r.attempts[n - 1].index == n - 1
    requires Tells(turn, r.attempts[n - 1], false) && turn.send.Responded? && 200 <= turn.send.status <= 299
    ensures Ongoing(turn, started, ops, 0, r, r)
  {
    TellsIsResponse(turn, r.attempts[n - 1]);
  }

  lemma {:induction false} OpenedOngoing(req: Request, env: nat -> Turn, ops: seq<Op>, w: Trace)
    requires req.hosts != [] && w == Execute(req, env) && w.end.Opened?
    ensures w.used != [] && Ongoing(env(|w.used| - 1), env(0).startedAt, ops, 0, w.rec, w.rec)
  {
    OpenedInFlight(req, env, w);
    WalkLeft(req, env);
    WalkAttempts(req, env, w);
    EndsExactly(req, env);
    OngoingFrom(env(|w.used| - 1), env(0).startedAt, ops, w.rec, |w.used|);
  }

  lemma {:induction false} OpenedInFlight(req: Request, env: nat -> Turn, w: Trace)
    requires req.hosts != [] && w == Execute(req, env) && w.end.Opened?
    ensures w.used != [] && OpenedAt(w.rec, |w.used|, env(|w.used| - 1))
    ensures w.rec.attempts[|w.used| - 1].index == |w.used| - 1
  {
    assert Mirrors(req, START, START.rec);
    WalkOpened(req, START, env);
    RecorderMirrorsEngine(req, env);
  }

  /** Every attempt before the last was answered so, at the candidate used. */
  predicate EarlierTold(req: Request, env: nat -> Turn, used: seq<nat>, attempts: seq<AttemptRecord>)
    requires |used| == |attempts|
  {
    forall i :: 0 <= i < |used| ==>
      && used[i] < |req.hosts| && attempts[i].host == req.hosts[used[i]]
      && (i < |used| - 1 ==> Tells(env(i), attempts[i], false))
  }

  /** A call whose `n`-th attempt opened succeeded at first attempt: answered well at
      attempt 0, or open there and finished without a failure. */
  predicate FirstWasEnough(env: nat -> Turn, n: nat, ops: seq<Op>, k: nat)
    requires k <= |ops|
  {
    if n > 1 then AnsweredWell(env(0)) else k < |ops| && NoFailure(ops, k + 1)
  }

  /** What the opened call hands over, given where it was before the operations. */
  ghost predicate CallTold(
    req: Request, env: nat -> Turn, used: seq<nat>, ops: seq<Op>, k: nat, now: nat, before: Rec, emitted: seq<Report>)
    requires FinishesAt(ops, k)
  {
    var n := |used|;
    && n > 0 && HandsOver(req.spec, env(n - 1), env(0).startedAt, ops, k, now, before, emitted)
    && |emitted[0].event.attempts| == n && EarlierTold(req, env, used, emitted[0].event.attempts)
    && (emitted[0].counters[0].row.firstAttemptSuccess == 1 <==> FirstWasEnough(env, n, ops, k))
  }

  /** A recordable call that opens a response and is then followed to its end reports
      every attempt as it was answered, the last as its stream or body went, and as a
      success at first attempt exactly when it was one. */
  lemma {:induction false} OpenedCallTold(req: Request, env: nat -> Turn, ops: seq<Op>, k: nat, now: nat)
    requires req.hosts != [] && req.spec.recordable && Execute(req, env).end.Opened?
    requires FinishesAt(ops, k) && forall j :: 0 <= j < |ops| ==> AfterOpen(ops[j])
    ensures var w := Execute(req, env);
            CallTold(req, env, w.used, ops, k, now, w.rec,
                     Dropped(req.spec, ApplyAll(req.spec, Call(w.rec, false), ops).rec, now).emitted)
  {
    TraceTold(req, env, ops, k, now, Execute(req, env));
  }

  lemma {:induction false} TraceTold(req: Request, env: nat -> Turn, ops: seq<Op>, k: nat, now: nat, w: Trace)
    requires req.hosts != [] && w == Execute(req, env) && req.spec.recordable && w.end.Opened?
    requires FinishesAt(ops, k) && forall j :: 0 <= j < |ops| ==> AfterOpen(ops[j])
    ensures CallTold(req, env, w.used, ops, k, now, w.rec,
                     Dropped(req.spec, ApplyAll(req.spec, Call(w.rec, false), ops).rec, now).emitted)
  {
    OpenedOngoing(req, env, ops, w);
    WalkEarlier(req, env, w);
    OngoingTold(req, env, w.used, ops, k, now, w.rec);
  }

  lemma {:induction false} OngoingTold(
    req: Request, env: nat -> Turn, used: seq<nat>, ops: seq<Op>, k: nat, now: nat, before: Rec)
    requires FinishesAt(ops, k) && (forall j :: 0 <= j < |ops| ==> AfterOpen(ops[j])) && req.spec.recordable
    requires used != [] && Ongoing(env(|used| - 1), env(0).startedAt, ops, 0, before, before)
    requires |used| == |before.attempts| && EarlierTold(req, env, used, before.attempts)
    requires var send := env(|used| - 1).send; send.Responded? && 200 <= send.status <= 299
    ensures CallTold(req, env, used, ops, k, now, before,
                     Dropped(req.spec, ApplyAll(req.spec, Call(before, false), ops).rec, now).emitted)
  {
    var turn, started := env(|used| - 1), env(0).startedAt;
    var c := ApplyAll(req.spec, Call(before, false), ops);
    StreamRun(req.spec, turn, started, ops, k, now, before, Call(before, false));
    RunThenDrop(req.spec, turn, started, ops, k, now, before, c);
    EarlierFollows(req, env, used, ops, k, now, before, Dropped(req.spec, c.rec, now).emitted[0]);
  }

  lemma {:induction false} WalkEarlier(req: Request, env: nat -> Turn, w: Trace)
    requires req.hosts != [] && w == Execute(req, env) && w.end.Opened?
    ensures w.used != [] && |w.used| == |w.rec.attempts| && EarlierTold(req, env, w.used, w.rec.attempts)
    ensures var send := env(|w.used| - 1).send; send.Responded? && 200 <= send.status <= 299
  {
    WalkAttempts(req, env, w);
    EndsExactly(req, env);
  }

  lemma {:induction false} EarlierFollows(
    req: Request, env: nat -> Turn, used: seq<nat>, ops: seq<Op>, k: nat, now: nat, before: Rec, rep: Report)
    requires used != [] && |used| == |before.attempts| && EarlierTold(req, env, used, before.attempts)
    requires FinishesAt(ops, k)
    requires var turn := env(|used| - 1);
             && turn.send.Responded? && 200 <= turn.send.status <= 299
             && StreamTold(req.spec, turn, env(0).startedAt, ops, k, now, before, rep)
    ensures EarlierTold(req, env, used, rep.event.attempts)
    ensures rep.counters[0].row.firstAttemptSuccess == 1 <==> FirstWasEnough(env, |used|, ops, k)
  {
    var n, attempts := |used|, rep.event.attempts;
    assert forall i :: 0 <= i < n - 1 ==> attempts[i] == attempts[..n - 1][i] == before.attempts[..n - 1][i];
    AnsweredWellIff(env(0));
    if n == 1 {
      LastWell(env(0), ops, k, now, attempts[0]);
    }
  }

  lemma {:induction false} SomeFailureIsLast(ops: seq<Op>, i: nat)
    requires i <= |ops| && !NoFailure(ops, i)
    ensures exists j :: 0 <= j < i && LastFailure(ops, j, i)
  {
    if Fails(ops[i - 1]) {
      assert LastFailure(ops, i - 1, i);
    } else {
      SomeFailureIsLast(ops, i - 1);
      var j :| 0 <= j < i - 1 && LastFailure(ops, j, i - 1);
      assert LastFailure(ops, j, i);
    }
  }

  lemma {:induction false} LastWell(turn: Turn, ops: seq<Op>, k: nat, now: nat, a: AttemptRecord)
    requires k <= |ops| && turn.send.Responded? && turn.send.status < 400 && LastTold(turn, ops, k, now, a)
    ensures a.outcome == Ok <==> k < |ops| && NoFailure(ops, k + 1)
  {
    if k < |ops| && !NoFailure(ops, k + 1) {
      SomeFailureIsLast(ops, k + 1);
      var j :| 0 <= j < k + 1 && LastFailure(ops, j, k + 1);
      assert BrokenBy(turn, ops, j, a);
    }
  }
}
