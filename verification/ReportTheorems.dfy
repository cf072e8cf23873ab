/** What a report says of its call: from the attempts it carries to the counters, and
    from the environment's answers to the attempts. */
module ReportTheorems {
  import opened Basics
  import opened Vocabulary
  import opened Counters
  import opened FoldLadder
  import opened RecorderSpec
  import opened RecorderRuns
  import opened EngineSpec
  import opened EngineTheorems
  import opened EngineAnswers

  // ---- Buckets and classes by their bounds ----

  /** The buckets in order. */
  function Rank(b: LatencyBucket): nat {
    match b
    case Lt100 => 0
    case Lt200 => 1
    case Lt400 => 2
    case Lt800 => 3
    case Lt1600 => 4
    case Lt3200 => 5
    case Lt6400 => 6
    case Lt12800 => 7
    case Lt25600 => 8
    case Lt51200 => 9
    case Lt102400 => 10
    case Ge102400 => 11
  }

  /** Bucket `i` ends at 100 ms doubled `i` times, where the next begins; the last one
      never ends. */
  predicate InBucket(ms: nat, b: LatencyBucket) {
    && (Rank(b) > 0 ==> 100 * Pow2(Rank(b) - 1) <= ms)
    && (Rank(b) < 11 ==> ms < 100 * Pow2(Rank(b)))
  }

  lemma {:induction false} Doublings()
    ensures Pow2(0) == 1 && Pow2(1) == 2 && Pow2(2) == 4 && Pow2(3) == 8 && Pow2(4) == 16 && Pow2(5) == 32
    ensures Pow2(6) == 64 && Pow2(7) == 128 && Pow2(8) == 256 && Pow2(9) == 512 && Pow2(10) == 1024
  {
    assert Pow2(4) == 2 * Pow2(3) && Pow2(6) == 2 * Pow2(5) && Pow2(8) == 2 * Pow2(7) && Pow2(10) == 2 * Pow2(9);
  }

  lemma {:induction false} BucketIff(ms: nat, b: LatencyBucket)
    ensures LatencyBucketOf(ms) == b <==> InBucket(ms, b)
  {
    Doublings();
  }

  /** A histogram that holds one duration. */
  predicate Holds(h: Histogram, ms: nat) {
    exists b :: InBucket(ms, b) && h == map[b := 1]
  }

  lemma {:induction false} HoldsOne(ms: nat)
    ensures Holds(map[LatencyBucketOf(ms) := 1], ms)
  {
    BucketIff(ms, LatencyBucketOf(ms));
  }

  predicate InClass(status: Option<nat>, c: HttpStatusClass) {
    match c
    case Success => status.Some? && 200 <= status.value < 300
    case RateLimited => status == Some(429)
    case ClientError => status.Some? && 400 <= status.value < 500 && status.value != 429
    case ServerError => status.Some? && 500 <= status.value < 600
    case NoStatus => status.Some? ==> status.value < 200 || 300 <= status.value < 400 || 600 <= status.value
  }

  /** The configured timeout is long enough to blame the server for a timeout. */
  predicate LongEnough(timeoutMs: Option<nat>, phase: TimeoutPhase) {
    timeoutMs.Some? &&
    match phase
    case Connect => timeoutMs.value >= 10_000
    case FirstByte => timeoutMs.value >= 60_000
    case Idle => timeoutMs.value >= 30_000
    case _ => false
  }

  /** `c` is the class of the first of the attempts that has one. */
  predicate IsFirstClass(attempts: seq<AttemptRecord>, c: Option<ErrorClass>) {
    match c
    case None => forall i :: 0 <= i < |attempts| ==> attempts[i].errorClass == None
    case Some(_) =>
      exists i :: 0 <= i < |attempts| && attempts[i].errorClass == c
                  && forall j :: 0 <= j < i ==> attempts[j].errorClass == None
  }

  lemma {:induction false} FirstClassIs(attempts: seq<AttemptRecord>)
    ensures IsFirstClass(attempts, FirstErrorClass(attempts))
  {
    if attempts != [] {
      FirstClassIs(attempts[1..]);
      var c := FirstErrorClass(attempts);
      if attempts[0].errorClass == None {
        if c.Some? {
          var i :| 0 <= i < |attempts[1..]| && attempts[1..][i].errorClass == c
                   && forall j :: 0 <= j < i ==> attempts[1..][j].errorClass == None;
          assert attempts[i + 1].errorClass == c;
          forall j | 0 <= j < i + 1 ensures attempts[j].errorClass == None {
            if j > 0 {
              assert attempts[j] == attempts[1..][j - 1];
            }
          }
        } else {
          assert forall i :: 1 <= i < |attempts| ==> attempts[i] == attempts[1..][i - 1];
        }
      }
    }
  }

  // ---- Counters against the attempts of the report ----

  /** The key of a row about attempt `a`, but for its error class. */
  predicate KeyTells(spec: Spec, level: Level, key: CounterKey, a: AttemptRecord) {
    && key.level == level && key.endpoint == spec.endpoint && key.streaming == spec.streaming
    && key.providerPinned == spec.providerPinned
    && key.host == a.host && key.outcome == a.outcome && key.timeoutPhase == a.phase
    && InClass(a.httpStatus, key.httpStatusClass)
    && (key.timeoutFloorMet <==> LongEnough(spec.timeoutMs, a.phase))
  }

  lemma {:induction false} KeyForTells(spec: Spec, level: Level, a: AttemptRecord, c: Option<ErrorClass>)
    ensures KeyTells(spec, level, KeyFor(spec, level, a, c), a) && KeyFor(spec, level, a, c).errorClass == c
  {
  }

  /** The request row: one request, all its attempts, whether it moved, whether the
      first attempt was enough, how long it took and when its first event came. */
  predicate RequestRowTells(row: CounterRow, e: RequestEvent)
    requires e.attempts != []
  {
    var last := e.attempts[|e.attempts| - 1];
    && row.requests == 1 && row.attempts == Min(|e.attempts|, U64_MAX)
    && row.failoverUsed == (if e.failoverUsed then 1 else 0)
    && row.firstAttemptSuccess == (if e.attempts[0].outcome == Ok then 1 else 0)
    && Holds(row.totalMs, e.totalMs)
    && (if e.ttftMs.Some? then Holds(row.firstEventMs, e.ttftMs.value)
        else if last.ttfbMs.Some? then Holds(row.firstEventMs, last.ttfbMs.value)
        else row.firstEventMs == map[])
  }

  predicate AttemptRowTells(spec: Spec, row: Entry, a: AttemptRecord) {
    && KeyTells(spec, AttemptLevel, row.key, a) && row.key.errorClass == a.errorClass
    && row.row == CounterRow(1, 1, if a.moved then 1 else 0, 0, map[], map[])
  }

  /** The counters of a report tell its event. */
  predicate CountersTell(spec: Spec, rep: Report) {
    var e, rows := rep.event, rep.counters;
    var n := |e.attempts|;
    && n > 0 && |rows| == n + 1
    && KeyTells(spec, RequestLevel, rows[0].key, e.attempts[n - 1])
    && IsFirstClass(e.attempts, rows[0].key.errorClass)
    && RequestRowTells(rows[0].row, e)
    && forall k :: 0 <= k < n ==> AttemptRowTells(spec, rows[k + 1], e.attempts[k])
  }

  /** The summary fields of a report's event tell its last attempt. */
  predicate EventTells(spec: Spec, e: RequestEvent, exhausted: bool) {
    var n := |e.attempts|;
    && n > 0
    && var last := e.attempts[n - 1];
       && e.finalHttpStatus == last.httpStatus && e.timeoutPhase == last.phase
       && e.finalOutcome == (if exhausted && n > 1 && last.outcome != Ok then Exhausted else Final(last.outcome))
       && e.configuredTimeoutMs == (if last.phase in {Connect, FirstByte, Idle} && spec.timeoutMs.Some?
                                    then Some(Max(1, Min(spec.timeoutMs.value, 3_600_000))) else None)
  }

  lemma {:induction false} RequestEntryTells(spec: Spec, r: Rec, exhausted: bool, now: nat)
    requires r.attempts != [] && r.firstStarted.Some?
    ensures var e := MakeReport(spec, r, exhausted, now).event;
            RequestRowTells(RequestEntry(spec, r, e.totalMs).row, e)
  {
    var last := r.attempts[|r.attempts| - 1];
    HoldsOne(DurationMs(r.firstStarted.value, now));
    if r.ttftMs.Some? {
      HoldsOne(r.ttftMs.value);
    } else if last.ttfbMs.Some? {
      HoldsOne(last.ttfbMs.value);
    }
  }

  /** Every report, whatever the recorder held: the request row tells the whole call,
      each attempt row its attempt, and the failover counts add up to the moves. */
  lemma {:induction false} ReportRows(spec: Spec, r: Rec, exhausted: bool, now: nat)
    requires r.attempts != [] && r.firstStarted.Some?
    ensures var rep := MakeReport(spec, r, exhausted, now);
            && rep.event.attempts == r.attempts && rep.event.failoverUsed == r.failoverUsed
            && rep.event.ttftMs == r.ttftMs && rep.event.totalMs == Elapsed(r.firstStarted.value, now)
            && EventTells(spec, rep.event, exhausted) && CountersTell(spec, rep)
            && Total(rep.counters[1..], Everything, FailoverUsed) == Moves(r.attempts)
            && Total(rep.counters[1..], Everything, Requests) == |r.attempts|
  {
    var rep := MakeReport(spec, r, exhausted, now);
    assert rep.counters[1..] == AttemptEntries(spec, r.attempts);
    AttemptTotals(spec, r.attempts);
    FirstClassIs(r.attempts);
    RequestEntryTells(spec, r, exhausted, now);
    KeyForTells(spec, RequestLevel, r.attempts[|r.attempts| - 1], FirstErrorClass(r.attempts));
    forall k | 0 <= k < |r.attempts| ensures AttemptRowTells(spec, rep.counters[k + 1], r.attempts[k]) {
      assert rep.counters[k + 1] == AttemptEntry(spec, r.attempts[k]);
      KeyForTells(spec, AttemptLevel, r.attempts[k], r.attempts[k].errorClass);
    }
  }

  // ---- Calls that fail ----

  /** What has been handed over is the report of what the recorder holds. */
  predicate ReportsAs(spec: Spec, r: Rec, exhausted: bool, now: nat) {
    r.emitted != [] ==>
      r.attempts != [] && r.firstStarted.Some? && r.emitted == [MakeReport(spec, r, exhausted, now)]
  }

  lemma {:induction false} FinishReportsAs(spec: Spec, o: Rec, exhausted: bool, now: nat)
    requires !o.finished && o.emitted == []
    ensures ReportsAs(spec, Finish(spec, o, exhausted, now), exhausted, now)
  {
  }

  lemma {:induction false} DropReportsAs(spec: Spec, o: Rec, now: nat)
    requires !o.finished && o.emitted == []
    ensures ReportsAs(spec, Dropped(spec, o, now), false, now)
  {
    FinishReportsAs(spec, OnAborted(o, now), false, now);
  }

  /** The clocks of a call that began at `started`, before any stream event. */
  predicate Clocked(r: Rec, started: nat) {
    !r.finished && r.emitted == [] && r.firstStarted == Some(started) && r.ttftMs == None
  }

  lemma {:induction false} ObservedClocked(r: Rec, host: Host, turn: Turn, started: nat)
    requires !r.finished && r.emitted == [] && r.ttftMs == None
    requires r.firstStarted == Some(started) || (r.firstStarted == None && started == turn.startedAt)
    ensures Clocked(Observed(r, host, turn), started) && Clocked(OnMoved(Observed(r, host, turn)), started)
  {
  }

  /** What the engine leaves of a recorder with these clocks. */
  predicate Left(spec: Spec, rec: Rec, started: nat, end: End, exhausted: bool, now: nat) {
    && rec.firstStarted == Some(started) && rec.ttftMs == None
    && (end.Running? || end.Opened? ==> Clocked(rec, started))
    && ReportsAs(spec, rec, end.Refused? && exhausted, now)
  }

  /** The recorder `o` as an attempt that ended so leaves it. */
  predicate EndsIn(spec: Spec, o: Rec, rec: Rec, end: End, exhausted: bool, now: nat) {
    match end
    case Running => rec == o
    case Opened(_) => rec == o
    case Refused => rec == Finish(spec, o, exhausted, now)
    case Cancelled => rec == Dropped(spec, o, now)
  }

  lemma {:induction false} RecordedEndsIn(req: Request, r: Rec, attempt: nat, cursor: nat, turn: Turn)
    requires cursor < |req.hosts|
    ensures var o := Observed(r, req.hosts[cursor], turn);
            var out, rec := TurnoutOf(req, attempt, cursor, turn), Recorded(req, r, attempt, cursor, turn);
            var exhausted := attempt > 0 && Retryable(turn.send);
            || EndsIn(req.spec, o, rec, out.end, exhausted, turn.endedAt)
            || EndsIn(req.spec, OnMoved(o), rec, out.end, exhausted, turn.endedAt)
  {
  }

  lemma {:induction false} EndsInLeft(spec: Spec, o: Rec, rec: Rec, started: nat, end: End, exhausted: bool, now: nat)
    requires Clocked(o, started) && EndsIn(spec, o, rec, end, exhausted, now)
    ensures Left(spec, rec, started, end, exhausted, now)
  {
    match end {
      case Refused => FinishReportsAs(spec, o, exhausted, now);
      case Cancelled => DropReportsAs(spec, o, now);
      case _ =>
    }
  }

  lemma {:induction false} StepLeft(req: Request, t: Trace, turn: Turn, started: nat)
    requires t.cursor < |req.hosts| && !t.rec.finished && t.rec.emitted == [] && t.rec.ttftMs == None
    requires t.rec.firstStarted == Some(started) || (t.rec.firstStarted == None && started == turn.startedAt)
    ensures var t' := Step(req, t, turn);
            Left(req.spec, t'.rec, started, t'.end, |t.used| > 0 && Retryable(turn.send), turn.endedAt)
  {
    var o, t' := Observed(t.rec, req.hosts[t.cursor], turn), Step(req, t, turn);
    var exhausted := |t.used| > 0 && Retryable(turn.send);
    ObservedClocked(t.rec, req.hosts[t.cursor], turn, started);
    RecordedEndsIn(req, t.rec, |t.used|, t.cursor, turn);
    if EndsIn(req.spec, o, t'.rec, t'.end, exhausted, turn.endedAt) {
      EndsInLeft(req.spec, o, t'.rec, started, t'.end, exhausted, turn.endedAt);
    } else {
      EndsInLeft(req.spec, OnMoved(o), t'.rec, started, t'.end, exhausted, turn.endedAt);
    }
  }

  /** The clocks of a call before its first attempt, or since. */
  predicate Running(env: nat -> Turn, t: Trace) {
    && !t.rec.finished && t.rec.emitted == [] && t.rec.ttftMs == None
    && t.rec.firstStarted == if t.used == [] then None else Some(env(0).startedAt)
  }

  /** What the whole walk leaves of the recorder. */
  predicate LeftOver(req: Request, env: nat -> Turn, t: Trace) {
    t.used != [] &&
    var last := env(|t.used| - 1);
    Left(req.spec, t.rec, env(0).startedAt, t.end, |t.used| > 1 && Retryable(last.send), last.endedAt)
  }

  lemma {:induction false} StepLeavesOver(req: Request, t: Trace, env: nat -> Turn)
    requires MayStep(req, t) && Running(env, t)
    ensures var t' := Step(req, t, env(|t.used|)); LeftOver(req, env, t') && (t'.end.Running? ==> Running(env, t'))
  {
    StepLeft(req, t, env(|t.used|), env(0).startedAt);
  }

  lemma {:induction false} WalkLeft(req: Request, env: nat -> Turn)
    requires req.hosts != []
    ensures LeftOver(req, env, Execute(req, env))
  {
    var kept, brought := (t: Trace) => Running(env, t), (t: Trace) => LeftOver(req, env, t);
    forall u | kept(u) && MayStep(req, u)
      ensures var u' := Step(req, u, env(|u.used|)); if u'.end.Running? then kept(u') else brought(u')
    {
      StepLeavesOver(req, u, env);
    }
    WalkBrings(req, START, env, kept, brought);
  }

  /** Attempt `k` answered a status below 400 and its body, if it was read, came whole. */
  predicate AnsweredWell(turn: Turn) {
    && turn.send.Responded? && turn.send.status < 400
    && (200 <= turn.send.status <= 299 || !turn.send.drain.DrainFailed?)
  }

  lemma {:induction false} AnsweredWellIff(turn: Turn)
    ensures AnsweredOutcome(turn) == Ok <==> AnsweredWell(turn)
  {
  }

  /** The first of the first `m` answers that is a failure says `c`. */
  predicate FirstFailure(env: nat -> Turn, m: nat, c: Option<ErrorClass>) {
    match c
    case None => forall i :: 0 <= i < m ==> AnsweredClass(env(i)) == None
    case Some(_) =>
      exists i :: 0 <= i < m && AnsweredClass(env(i)) == c && forall j :: 0 <= j < i ==> AnsweredClass(env(j)) == None
  }

  lemma {:induction false} ClassesAreTold(env: nat -> Turn, attempts: seq<AttemptRecord>, c: Option<ErrorClass>)
    requires forall i :: 0 <= i < |attempts| ==> attempts[i].errorClass == AnsweredClass(env(i))
    requires IsFirstClass(attempts, c)
    ensures FirstFailure(env, |attempts|, c)
  {
    if c.Some? {
      var i :| 0 <= i < |attempts| && attempts[i].errorClass == c
               && forall j :: 0 <= j < i ==> attempts[j].errorClass == None;
      assert AnsweredClass(env(i)) == c;
    }
  }

  /** The report of a call that made the attempts `used` and ended so: every attempt as
      it was answered, and the whole from the first start to the last reading. */
  predicate AttemptsTold(req: Request, env: nat -> Turn, used: seq<nat>, end: End, rep: Report) {
    var n, m := |used|, |rep.event.attempts|;
    && n > 0 && m > 0 && m == (if env(n - 1).send.BadHeaders? then n - 1 else n)
    && CountersTell(req.spec, rep)
    && EventTells(req.spec, rep.event, end.Refused? && n > 1 && Retryable(env(n - 1).send))
    && rep.event.totalMs == Elapsed(env(0).startedAt, env(n - 1).endedAt) && rep.event.ttftMs == None
    && forall i :: 0 <= i < m ==>
         && Tells(env(i), rep.event.attempts[i], end.Cancelled? && i == n - 1)
         && used[i] < |req.hosts| && rep.event.attempts[i].host == req.hosts[used[i]]
  }

  /** Its request row, from the environment: the last attempt, the first failure, the
      time it took, and a success at first attempt iff attempt 0 was answered well and
      not cancelled. */
  predicate RequestTold(req: Request, env: nat -> Turn, used: seq<nat>, end: End, row: Entry) {
    var n := |used|;
    var m := if n > 0 && env(n - 1).send.BadHeaders? then n - 1 else n;
    && m > 0 && used[m - 1] < |req.hosts| && row.key.host == req.hosts[used[m - 1]]
    && row.key.outcome == (if end.Cancelled? && m == n then Aborted else AnsweredOutcome(env(m - 1)))
    && InClass(AnsweredStatus(env(m - 1)), row.key.httpStatusClass)
    && FirstFailure(env, m, row.key.errorClass)
    && (row.row.firstAttemptSuccess == 1 <==> AnsweredWell(env(0)) && !(end.Cancelled? && n == 1))
    && Holds(row.row.totalMs, Elapsed(env(0).startedAt, env(n - 1).endedAt))
  }

  lemma {:induction false} RequestRowFollows(req: Request, env: nat -> Turn, used: seq<nat>, end: End, rep: Report)
    requires AttemptsTold(req, env, used, end, rep)
    ensures RequestTold(req, env, used, end, rep.counters[0])
  {
    ClassesAreTold(env, rep.event.attempts, rep.counters[0].key.errorClass);
    AnsweredWellIff(env(0));
  }

  lemma {:induction false} WalkTold(req: Request, env: nat -> Turn, w: Trace)
    requires req.hosts != [] && w == Execute(req, env) && w.rec.emitted != []
    ensures AttemptsTold(req, env, w.used, w.end, w.rec.emitted[0])
  {
    WalkLeft(req, env);
    WalkAttempts(req, env, w);
    ReportTold(req, env, w.used, w.end, w.rec);
  }

  lemma {:induction false} WalkAttempts(req: Request, env: nat -> Turn, w: Trace)
    requires req.hosts != [] && w == Execute(req, env)
    ensures w.used != [] && |w.rec.attempts| == |w.used| - (if env(|w.used| - 1).send.BadHeaders? then 1 else 0)
    ensures forall i :: 0 <= i < |w.rec.attempts| ==>
              && Tells(env(i), w.rec.attempts[i], w.end.Cancelled? && i == |w.used| - 1)
              && w.used[i] < |req.hosts| && w.rec.attempts[i].host == req.hosts[w.used[i]]
  {
    RecordsTellAnswers(req, env);
    RecorderMirrorsEngine(req, env);
  }

  lemma {:induction false} ReportTold(req: Request, env: nat -> Turn, used: seq<nat>, end: End, r: Rec)
    requires used != [] && r.emitted != []
    requires var last := env(|used| - 1);
             Left(req.spec, r, env(0).startedAt, end, |used| > 1 && Retryable(last.send), last.endedAt)
    requires |r.attempts| == |used| - (if env(|used| - 1).send.BadHeaders? then 1 else 0)
    requires forall i :: 0 <= i < |r.attempts| ==>
               && Tells(env(i), r.attempts[i], end.Cancelled? && i == |used| - 1)
               && used[i] < |req.hosts| && r.attempts[i].host == req.hosts[used[i]]
    ensures AttemptsTold(req, env, used, end, r.emitted[0])
  {
    var last := env(|used| - 1);
    ReportRows(req.spec, r, end.Refused? && |used| > 1 && Retryable(last.send), last.endedAt);
  }

  /** A refused or cancelled call reports what the environment answered. */
  lemma {:induction false} FailedCallTold(req: Request, env: nat -> Turn)
    requires req.hosts != [] && Execute(req, env).rec.emitted != []
    ensures var w := Execute(req, env);
            && AttemptsTold(req, env, w.used, w.end, w.rec.emitted[0])
            && RequestTold(req, env, w.used, w.end, w.rec.emitted[0].counters[0])
  {
    var w := Execute(req, env);
    WalkTold(req, env, w);
    RequestRowFollows(req, env, w.used, w.end, w.rec.emitted[0]);
  }
}
