/** What holds of every call, for every environment and every cancellation point. */
module EngineTheorems {
  import opened Basics
  import opened Vocabulary
  import opened Counters
  import opened FoldLadder
  import opened RetryPolicy
  import opened RecorderSpec
  import opened RecorderRuns
  import opened EngineSpec

  lemma {:induction false} ExecuteFacts(req: Request, env: nat -> Turn)
    requires req.hosts != []
    ensures var w := Execute(req, env);
            WalkFacts(req, env, w) && 0 < |w.used| <= req.maxRetries + 1 && !w.end.Running?
  {
    assert WalkFacts(req, env, START);
    WalkKeepsFacts(req, START, env);
  }

  // ---- How often, and where to ----

  /** At most `max_retries + 1` attempts, exactly one when the request is not safe
      to replay; attempt `k` goes to the candidate its marked predecessors earned. */
  lemma {:induction false} AttemptsBounded(req: Request, env: nat -> Turn)
    requires req.hosts != []
    ensures var w := Execute(req, env);
            && 0 < |w.used| <= req.maxRetries + 1
            && (!req.replaySafe ==> |w.used| == 1)
            && (forall k :: 0 <= k < |w.used| ==> w.used[k] == CandidateAt(env, k, |req.hosts|))
  {
    ExecuteFacts(req, env);
  }

  /** The failure a move needs. */
  predicate MovableFailure(send: Send) {
    || send.Failed?
    || (send.Responded? && 502 <= send.status <= 504 && send.headers.shouldRetry != RetryFalse)
  }

  /** Every move goes one candidate on and follows a transport failure or an
      unvetoed 502, 503 or 504. */
  lemma {:induction false} MovesJustified(req: Request, env: nat -> Turn, k: nat)
    requires req.hosts != [] && k < |Execute(req, env).used|
    ensures var path := Path(Execute(req, env));
            path[k + 1] != path[k] ==>
              path[k + 1] == path[k] + 1 && req.replaySafe && MovableFailure(env(k).send)
  {
    ExecuteFacts(req, env);
    MoveOf(req, env, Execute(req, env), k);
  }

  lemma {:induction false} MoveOf(req: Request, env: nat -> Turn, w: Trace, k: nat)
    requires req.hosts != [] && WalkFacts(req, env, w) && k < |w.used|
    ensures var path := Path(w);
            path[k + 1] != path[k] ==>
              path[k + 1] == path[k] + 1 && req.replaySafe && MovableFailure(env(k).send)
  {
    var path := Path(w);
    if path[k + 1] != path[k] {
      assert k < |w.sleeps|;
      assert path[k] == CandidateAt(env, k, |req.hosts|);
      assert path[k + 1] == CandidateAt(env, k + 1, |req.hosts|);
    }
  }

  // ---- How long ----

  lemma {:induction false} SumBounded(sleeps: seq<nat>, bound: nat)
    requires forall k :: 0 <= k < |sleeps| ==> sleeps[k] <= bound
    ensures SumOf(sleeps) <= |sleeps| * bound
  {
    if sleeps != [] {
      SumBounded(sleeps[..|sleeps| - 1], bound);
      assert |sleeps| * bound == (|sleeps| - 1) * bound + bound;
    }
  }

  /** Each sleep respects the server's clamped floor and 60 s; so a call sleeps at
      most 60 s per retry in all. */
  lemma {:induction false} SleepBounded(req: Request, env: nat -> Turn)
    requires req.hosts != []
    ensures var w := Execute(req, env);
            && (forall k :: 0 <= k < |w.sleeps| ==>
                  && w.sleeps[k] <= MAX_RETRY_AFTER
                  && (env(k).send.Responded? && ParseRetryAfter(env(k).send.headers).Some? ==>
                        w.sleeps[k] >= ParseRetryAfter(env(k).send.headers).value))
            && SumOf(w.sleeps) <= req.maxRetries * MAX_RETRY_AFTER
  {
    ExecuteFacts(req, env);
    var w := Execute(req, env);
    forall k | 0 <= k < |w.sleeps|
      ensures w.sleeps[k] <= MAX_RETRY_AFTER
      ensures env(k).send.Responded? && ParseRetryAfter(env(k).send.headers).Some? ==>
                w.sleeps[k] >= ParseRetryAfter(env(k).send.headers).value
    {
      DelayBounds(k, VerdictOf(env(k)).d.retryAfter, env(k).draw);
    }
    SumBounded(w.sleeps, MAX_RETRY_AFTER);
    assert |w.sleeps| <= req.maxRetries by {
      if w.sleeps != [] {
        var last := |w.sleeps| - 1;
        assert MayRetry(req, last, VerdictOf(env(last)).d);
      }
    }
    Scale(|w.sleeps|, req.maxRetries, MAX_RETRY_AFTER);
  }

  lemma {:induction false} Scale(a: nat, b: nat, c: nat)
    requires a <= b
    ensures a * c <= b * c
  {
  }

  // ---- What the recorder says ----

  /** A finished call reported once iff it may be recorded and stored an attempt,
      and the report carries exactly the stored attempts. */
  predicate Reported(spec: Spec, r: Rec) {
    if r.finished then
      && (|r.emitted| == 1 <==> spec.recordable && r.attempts != [])
      && (r.emitted != [] ==>
            |r.emitted| == 1 && r.emitted[0].event.attempts == r.attempts
            && r.emitted[0].event.failoverUsed == r.failoverUsed
            && CountsAttempts(spec, r.emitted[0].counters, r))
    else r.emitted == []
  }

  predicate CountsAttempts(spec: Spec, rows: seq<Entry>, r: Rec) {
    && rows != [] && rows == [rows[0]] + AttemptEntries(spec, r.attempts)
    && rows[0].row.failoverUsed == One(r.failoverUsed)
  }

  lemma {:induction false} EndingReports(spec: Spec, o: Rec, rec: Rec, end: End, now: nat)
    requires WellKept(o) && !o.finished && Ending(spec, o, rec, end, now)
    ensures Reported(spec, rec)
  {
    match end
    case Running =>
    case Opened(_) =>
    case Refused =>
      FinishReports(spec, o, true, now);
      FinishReports(spec, o, false, now);
    case Cancelled =>
      AbortKeeps(o, now);
      FinishReports(spec, OnAborted(o, now), false, now);
  }

  lemma {:induction false} FinishReports(spec: Spec, o: Rec, exhausted: bool, now: nat)
    requires WellKept(o) && !o.finished
    ensures Reported(spec, Finish(spec, o, exhausted, now))
  {
  }

  lemma {:induction false} AbortKeeps(r: Rec, now: nat)
    requires WellKept(r)
    ensures WellKept(OnAborted(r, now))
  {
  }

  lemma {:induction false} StepReports(req: Request, t: Trace, turn: Turn)
    requires t.cursor < |req.hosts| && WellKept(t.rec) && !t.rec.finished && |t.rec.attempts| == |t.used|
    ensures Reported(req.spec, Step(req, t, turn).rec)
  {
    var k, host := |t.used|, req.hosts[t.cursor];
    var o := Observed(t.rec, host, turn);
    ObservedExtends(t.rec, k, host, turn);
    RecordedEnding(req, t.rec, k, t.cursor, turn);
    var out := TurnoutOf(req, k, t.cursor, turn);
    if out.cursor == t.cursor {
      EndingReports(req.spec, o, Step(req, t, turn).rec, out.end, turn.endedAt);
    } else {
      EndingReports(req.spec, OnMoved(o), Step(req, t, turn).rec, out.end, turn.endedAt);
    }
  }

  lemma {:induction false} WalkMirrors(req: Request, t: Trace, env: nat -> Turn)
    requires Mirrors(req, t, t.rec) && |t.rec.attempts| == |t.used| && !t.rec.finished
    requires t.cursor < |req.hosts| && |t.used| <= req.maxRetries
    ensures var w := Walk(req, t, env);
            && w.used != [] && Mirrors(req, w, w.rec) && Reported(req.spec, w.rec)
            && (|w.rec.attempts| < |w.used| <==> env(|w.used| - 1).send.BadHeaders?)
            && (w.rec.finished <==> w.end.Refused? || w.end.Cancelled?)
    decreases req.maxRetries - |t.used|
  {
    var turn := env(|t.used|);
    StepMirrors(req, t, turn);
    StepReports(req, t, turn);
    StepBounds(req, t, turn);
    var t' := Step(req, t, turn);
    if t'.end.Running? {
      RecordedEnding(req, t.rec, |t.used|, t.cursor, turn);
      WalkMirrors(req, t', env);
    }
  }

  /** For every run, cancelled at any await or not: attempt `k` carries index `k` and
      the host of the candidate used, it is marked as moved exactly where the cursor
      advanced, and `failover_used` holds iff some attempt moved. */
  lemma {:induction false} RecorderMirrorsEngine(req: Request, env: nat -> Turn)
    requires req.hosts != []
    ensures var w := Execute(req, env);
            var r, path := w.rec, Path(w);
            && w.used != []
            && |r.attempts| == |w.used| - (if env(|w.used| - 1).send.BadHeaders? then 1 else 0)
            && (forall k :: 0 <= k < |r.attempts| ==>
                  && r.attempts[k].index == k
                  && w.used[k] < |req.hosts|
                  && r.attempts[k].host == req.hosts[w.used[k]]
                  && (r.attempts[k].moved <==> path[k + 1] != path[k]))
            && (r.failoverUsed <==> exists k :: 0 <= k < |r.attempts| && r.attempts[k].moved)
  {
    assert Mirrors(req, START, START.rec);
    WalkMirrors(req, START, env);
  }

  /** A refused or cancelled call has reported exactly once iff it may be recorded
      and stored an attempt; an opened one has not reported yet. */
  lemma {:induction false} FailedCallsReport(req: Request, env: nat -> Turn)
    requires req.hosts != []
    ensures var w := Execute(req, env);
            if w.end.Opened? then !w.rec.finished && w.rec.emitted == []
            else
              && (|w.rec.emitted| == 1 <==> req.spec.recordable && w.rec.attempts != [])
              && (w.rec.emitted != [] ==> w.rec.emitted[0].event.attempts == w.rec.attempts)
  {
    assert Mirrors(req, START, START.rec);
    WalkMirrors(req, START, env);
    ExecuteFacts(req, env);
  }

  // ---- What each record says ----

  function AnsweredStatus(turn: Turn): Option<nat> {
    if turn.send.Responded? then Some(turn.send.status) else None
  }

  /** The class of the failure an attempt met, while sending or in the body. */
  function AnsweredClass(turn: Turn): Option<ErrorClass> {
    match turn.send
    case Failed(c, _) => Some(c)
    case Responded(status, _, DrainFailed(c, _)) => if IsSuccess(status) then None else Some(c)
    case _ => None
  }

  predicate TimedOut(turn: Turn) {
    match turn.send
    case Failed(_, timedOut) => timedOut
    case Responded(_, _, DrainFailed(_, timedOut)) => timedOut
    case _ => false
  }

  function AnsweredOutcome(turn: Turn): AttemptOutcome {
    if AnsweredClass(turn).Some? then if TimedOut(turn) then Timeout else TransportError
    else if turn.send.Responded? && turn.send.status < 400 then Ok
    else HttpError
  }

  /** Where the body of a failure says it comes from. */
  function AnsweredSource(turn: Turn): Option<ErrorSource> {
    match turn.send
    case Responded(status, _, Drained(source)) => if IsSuccess(status) then None else source
    case _ => None
  }

  /** What a timeout was waiting for. */
  function AnsweredPhase(turn: Turn): TimeoutPhase {
    match AnsweredClass(turn)
    case Some(ConnectTimeout) => Connect
    case Some(ReadTimeout) => FirstByte
    case Some(WriteTimeout) => FirstByte
    case _ => NoPhase
  }

  /** Milliseconds between two readings of the clock, at most an hour. */
  function Elapsed(from: nat, to: nat): nat {
    Min(Max(to - from, 0), 3_600_000)
  }

  /** When the answer was complete: a failure's body is read first. */
  function SettledAt(turn: Turn): nat {
    if turn.send.Responded? && !IsSuccess(turn.send.status) && !turn.send.drain.DrainCancelled?
    then turn.endedAt else turn.answeredAt
  }

  /** The wait a server asks for, in nanoseconds: at most a minute, the header in
      milliseconds before the one in seconds or with a date. */
  function Asked(h: Headers): Option<nat> {
    match (h.retryAfterMs, h.retryAfter)
    case (Some(ms), _) => Some(Min(ms, 60_000) * 1_000_000)
    case (None, Some(Seconds(n))) => Some(Min(n, 60) * 1_000_000_000)
    case (None, Some(Until(left))) => if left < 0 then None else Some(Min(left, 60_000_000_000))
    case _ => None
  }

  /** What the headers say, and when they came. */
  predicate TellsHeaders(turn: Turn, a: AttemptRecord) {
    if turn.send.Responded? then
      var h := turn.send.headers;
      && a.shouldRetry == h.shouldRetry && a.requestId == h.requestId
      && a.retryAfterMs == (if Asked(h).Some? then Some(Asked(h).value / 1_000_000) else None)
      && a.ttfbMs == Some(Elapsed(turn.startedAt, turn.answeredAt))
    else a.shouldRetry == RetryAbsent && a.requestId == None && a.retryAfterMs == None && a.ttfbMs == None
  }

  /** A record tells the environment's answer: its status and headers, its failure and
      what it came to and when, unless the call was cancelled there. */
  predicate Tells(turn: Turn, a: AttemptRecord, cancelled: bool) {
    && a.httpStatus == AnsweredStatus(turn)
    && a.errorClass == AnsweredClass(turn)
    && a.errorSource == AnsweredSource(turn)
    && a.phase == AnsweredPhase(turn)
    && TellsHeaders(turn, a)
    && a.outcome == (if cancelled then Aborted else AnsweredOutcome(turn))
    && a.elapsedMs == Elapsed(turn.startedAt, if cancelled then turn.endedAt else SettledAt(turn))
  }

  /** The record of an answer whose body is still to be read. */
  predicate TellsResponse(turn: Turn, a: AttemptRecord) {
    && turn.send.Responded? && a.httpStatus == Some(turn.send.status) && a.errorClass == None && a.errorSource == None
    && a.phase == NoPhase && TellsHeaders(turn, a) && a.outcome == (if turn.send.status < 400 then Ok else HttpError)
    && a.elapsedMs == Elapsed(turn.startedAt, turn.answeredAt)
  }

  /** Attempt `k` is in flight since `started`. */
  predicate Since(r: Rec, k: nat, started: nat) {
    InFlight(r) && r.currentIndex == Some(k) && r.attemptStarted == Some(started)
  }

  lemma {:induction false} ResponseTells(b: Rec, k: nat, turn: Turn)
    requires Since(b, k, turn.startedAt) && |b.attempts| == k && turn.send.Responded?
    ensures var o := OnResponse(b, turn.send.status, turn.send.headers, turn.answeredAt);
            Since(o, k, turn.startedAt) && |o.attempts| == k + 1 && TellsResponse(turn, o.attempts[k])
  {
    var h := turn.send.headers;
    assert Asked(h) == ParseRetryAfter(h);
  }

  lemma {:induction false} DrainTells(o: Rec, k: nat, turn: Turn)
    requires Since(o, k, turn.startedAt) && |o.attempts| == k + 1
    requires TellsResponse(turn, o.attempts[k]) && !IsSuccess(turn.send.status)
    ensures turn.send.drain.Drained? ==> Tells(turn, OnBodyComplete(o, turn.send.drain.source, turn.endedAt).attempts[k], false)
    ensures turn.send.drain.DrainFailed? ==>
              var f := turn.send.drain;
              Tells(turn, OnTransportError(o, f.class_, f.timedOut, true, false, turn.endedAt).attempts[k], false)
    ensures turn.send.drain.DrainCancelled? ==> Tells(turn, o.attempts[k], false)
  {
  }

  lemma {:induction false} FailureTells(b: Rec, k: nat, turn: Turn)
    requires Since(b, k, turn.startedAt) && |b.attempts| == k && turn.send.Failed?
    ensures var o := OnTransportError(b, turn.send.class_, turn.send.timedOut, false, false, turn.answeredAt);
            |o.attempts| == k + 1 && Tells(turn, o.attempts[k], false)
  {
  }

  lemma {:induction false} ObservedTells(r: Rec, k: nat, host: Host, turn: Turn)
    requires WellKept(r) && !r.finished && |r.attempts| == k
    ensures var o := Observed(r, host, turn);
            Since(o, k, turn.startedAt) && (|o.attempts| == k + 1 ==> Tells(turn, o.attempts[k], false))
  {
    var b := BeginAttempt(r, host, turn.startedAt);
    match turn.send {
      case Responded(status, headers, _) =>
        ResponseTells(b, k, turn);
        if !IsSuccess(status) {
          DrainTells(OnResponse(b, status, headers, turn.answeredAt), k, turn);
        }
      case Failed(_, _) => FailureTells(b, k, turn);
      case _ =>
    }
  }

  lemma {:induction false} MovedTells(o: Rec, k: nat, turn: Turn)
    requires |o.attempts| == k + 1 && Tells(turn, o.attempts[k], false) && Since(o, k, turn.startedAt)
    ensures |OnMoved(o).attempts| == k + 1 && Tells(turn, OnMoved(o).attempts[k], false)
    ensures OnMoved(o).attempts[..k] == o.attempts[..k] && Since(OnMoved(o), k, turn.startedAt)
  {
  }

  lemma {:induction false} EndingTells(spec: Spec, o: Rec, rec: Rec, end: End, k: nat, turn: Turn)
    requires WellKept(o) && !o.finished && Since(o, k, turn.startedAt) && k <= |o.attempts| <= k + 1
    requires Ending(spec, o, rec, end, turn.endedAt)
    requires |o.attempts| == k + 1 ==> Tells(turn, o.attempts[k], false)
    requires |o.attempts| == k && end.Cancelled? ==> turn.send.SendCancelled?
    ensures k <= |rec.attempts| <= k + 1 && rec.attempts[..k] == o.attempts[..k]
    ensures |rec.attempts| == k + 1 ==> Tells(turn, rec.attempts[k], end.Cancelled?)
  {
  }

  /** Every record so far tells its answer. */
  predicate AllTell(env: nat -> Turn, attempts: seq<AttemptRecord>) {
    forall i :: 0 <= i < |attempts| ==> Tells(env(i), attempts[i], false)
  }

  lemma {:induction false} StepTells(req: Request, t: Trace, env: nat -> Turn)
    requires t.cursor < |req.hosts| && WellKept(t.rec) && !t.rec.finished && |t.rec.attempts| == |t.used|
    requires AllTell(env, t.rec.attempts)
    ensures var k, t' := |t.used|, Step(req, t, env(|t.used|));
            && k <= |t'.rec.attempts| <= k + 1 && t'.rec.attempts[..k] == t.rec.attempts
            && (|t'.rec.attempts| == k + 1 ==> Tells(env(k), t'.rec.attempts[k], t'.end.Cancelled?))
  {
    var k, host, turn := |t.used|, req.hosts[t.cursor], env(|t.used|);
    var o := Observed(t.rec, host, turn);
    ObservedExtends(t.rec, k, host, turn);
    ObservedTells(t.rec, k, host, turn);
    RecordedEnding(req, t.rec, k, t.cursor, turn);
    var out, rec := TurnoutOf(req, k, t.cursor, turn), Step(req, t, turn).rec;
    if out.cursor == t.cursor {
      EndingTells(req.spec, o, rec, out.end, k, turn);
    } else {
      MovedTells(o, k, turn);
      MovedKept(o, k, host);
      EndingTells(req.spec, OnMoved(o), rec, out.end, k, turn);
    }
  }

  lemma {:induction false} MovedKept(o: Rec, k: nat, host: Host)
    requires EngineSpec.At(o, k, host)
    ensures EngineSpec.At(OnMoved(o), k, host)
  {
  }

  /** Every record tells its answer, the last one with the cancellation. */
  predicate EndTells(env: nat -> Turn, attempts: seq<AttemptRecord>, n: nat, cancelled: bool) {
    forall i :: 0 <= i < |attempts| ==> Tells(env(i), attempts[i], cancelled && i == n - 1)
  }

  lemma {:induction false} OneMoreTells(
    env: nat -> Turn, before: seq<AttemptRecord>, after: seq<AttemptRecord>, k: nat, cancelled: bool)
    requires AllTell(env, before) && |before| == k <= |after| <= k + 1 && after[..k] == before
    requires |after| == k + 1 ==> Tells(env(k), after[k], cancelled)
    ensures EndTells(env, after, k + 1, cancelled)
    ensures !cancelled ==> AllTell(env, after)
  {
    forall i | 0 <= i < k ensures Tells(env(i), after[i], false) {
      assert after[i] == after[..k][i] == before[i];
    }
  }

  lemma {:induction false} WalkTells(req: Request, t: Trace, env: nat -> Turn)
    requires Mirrors(req, t, t.rec) && |t.rec.attempts| == |t.used| && !t.rec.finished
    requires t.cursor < |req.hosts| && |t.used| <= req.maxRetries && AllTell(env, t.rec.attempts)
    ensures var w := Walk(req, t, env); EndTells(env, w.rec.attempts, |w.used|, w.end.Cancelled?)
    decreases req.maxRetries - |t.used|
  {
    var k, turn := |t.used|, env(|t.used|);
    StepMirrors(req, t, turn);
    StepBounds(req, t, turn);
    StepTells(req, t, env);
    var t' := Step(req, t, turn);
    OneMoreTells(env, t.rec.attempts, t'.rec.attempts, k, t'.end.Cancelled?);
    if t'.end.Running? {
      RecordedEnding(req, t.rec, k, t.cursor, turn);
      WalkTells(req, t', env);
    }
  }

  /** For every run each record tells the answer its attempt got: the status, the
      class of the failure and the outcome; only the attempt at which the call was
      cancelled is recorded as aborted instead. */
  lemma {:induction false} RecordsTellAnswers(req: Request, env: nat -> Turn)
    requires req.hosts != []
    ensures var w := Execute(req, env);
            forall i :: 0 <= i < |w.rec.attempts| ==>
              Tells(env(i), w.rec.attempts[i], w.end.Cancelled? && i == |w.used| - 1)
  {
    assert Mirrors(req, START, START.rec);
    WalkTells(req, START, env);
  }

  // ---- What the counters say ----

  lemma {:induction false} MovesFollowPath(attempts: seq<AttemptRecord>, path: seq<nat>)
    requires |path| > |attempts|
    requires forall k :: 0 <= k < |attempts| ==>
               path[k + 1] == path[k] + One(attempts[k].moved)
    ensures path[|attempts|] == path[0] + Moves(attempts)
  {
    if attempts != [] {
      var rest, tail := attempts[1..], path[1..];
      forall k | 0 <= k < |rest| ensures tail[k + 1] == tail[k] + One(rest[k].moved) {
        assert path[k + 2] == path[k + 1] + One(attempts[k + 1].moved);
      }
      MovesFollowPath(rest, tail);
    }
  }

  lemma {:induction false} MovesPositiveIff(attempts: seq<AttemptRecord>)
    ensures Moves(attempts) > 0 <==> exists k :: 0 <= k < |attempts| && attempts[k].moved
  {
    if attempts != [] {
      MovesPositiveIff(attempts[1..]);
      if k :| 0 <= k < |attempts[1..]| && attempts[1..][k].moved {
        assert attempts[k + 1].moved;
      }
      if k :| 0 < k < |attempts| && attempts[k].moved {
        assert attempts[1..][k - 1].moved;
      }
    }
  }

  /** The marked attempts number exactly the candidates the call moved past. */
  lemma {:induction false} MovesReachCursor(req: Request, env: nat -> Turn)
    requires req.hosts != []
    ensures var w := Execute(req, env); Moves(w.rec.attempts) == w.cursor
  {
    assert Mirrors(req, START, START.rec);
    WalkMirrors(req, START, env);
    ExecuteFacts(req, env);
    MovesReach(req, env, Execute(req, env));
  }

  lemma {:induction false} MovesReach(req: Request, env: nat -> Turn, w: Trace)
    requires req.hosts != [] && w.used != [] && WalkFacts(req, env, w) && Mirrors(req, w, w.rec)
    ensures Moves(w.rec.attempts) == w.cursor
  {
    var path := Path(w);
    assert path[0] == CandidateAt(env, 0, |req.hosts|) == 0;
    forall k | 0 <= k < |w.rec.attempts| ensures path[k + 1] == path[k] + One(w.rec.attempts[k].moved) {
      MoveOf(req, env, w, k);
    }
    MovesFollowPath(w.rec.attempts, path);
  }

  /** The counters of a call that reported tell where it went: one row per attempt,
      whose failover counts add up to the index of the candidate it ended on, and a
      request row marked as failed over iff that is not the first. */
  lemma {:induction false} CountersTellTheWalk(req: Request, env: nat -> Turn)
    requires req.hosts != [] && Execute(req, env).rec.emitted != []
    ensures var w := Execute(req, env);
            var rows := w.rec.emitted[0].counters;
            && |rows| == |w.rec.attempts| + 1
            && Total(rows[1..], Everything, FailoverUsed) == w.cursor
            && Total(rows[1..], Everything, Requests) == |w.rec.attempts|
            && (rows[0].row.failoverUsed == 1 <==> w.cursor > 0)
  {
    var w := Execute(req, env);
    assert Mirrors(req, START, START.rec);
    WalkMirrors(req, START, env);
    MovesReachCursor(req, env);
    MovesPositiveIff(w.rec.attempts);
    AttemptTotals(req.spec, w.rec.attempts);
    var rows := w.rec.emitted[0].counters;
    assert ([rows[0]] + AttemptEntries(req.spec, w.rec.attempts))[1..] == AttemptEntries(req.spec, w.rec.attempts);
  }

  // ---- An opened call, to its end ----

  /** What may follow once a response is open: the stream's calls, or, for a body read
      whole, a failure in it and the finish. */
  predicate AfterOpen(op: Op) {
    || op.StreamEvent? || op.StreamFailure? || op.StreamComplete?
    || (op.Failure? && op.responseOpened && !op.started)
    || (op.FinishCall? && !op.exhausted)
  }

  /** What the counters of a call that ended on candidate `cursor` after `n` attempts
      must say. */
  predicate Tallies(rows: seq<Entry>, n: nat, cursor: nat) {
    && |rows| == n + 1
    && Total(rows[1..], Everything, FailoverUsed) == cursor
    && Total(rows[1..], Everything, Requests) == n
    && (rows[0].row.failoverUsed == 1 <==> cursor > 0)
  }

  /** The recorder of an opened call: the attempt in flight is the last one and never
      moved; a finished one has reported, iff it may, exactly the walk. */
  predicate Streaming(spec: Spec, r: Rec, n: nat, cursor: nat) {
    && WellKept(r) && n > 0 && |r.attempts| == n && r.currentIndex == Some(n - 1)
    && !r.attempts[n - 1].moved && Moves(r.attempts) == cursor
    && (r.failoverUsed <==> cursor > 0)
    && (if r.finished then
          && (|r.emitted| == 1 <==> spec.recordable)
          && (r.emitted != [] ==> Tallies(r.emitted[0].counters, n, cursor))
        else r.emitted == [])
  }

  lemma {:induction false} MovesSnoc(attempts: seq<AttemptRecord>, a: AttemptRecord)
    ensures Moves(attempts + [a]) == Moves(attempts) + One(a.moved)
  {
    if attempts == [] {
      assert attempts + [a] == [a];
    } else {
      assert (attempts + [a])[1..] == attempts[1..] + [a];
      MovesSnoc(attempts[1..], a);
    }
  }

  lemma {:induction false} MovesReplaceLast(attempts: seq<AttemptRecord>, a: AttemptRecord)
    requires attempts != [] && a.moved == attempts[|attempts| - 1].moved
    ensures Moves(attempts[|attempts| - 1 := a]) == Moves(attempts)
  {
    var n := |attempts| - 1;
    MovesSnoc(attempts[..n], attempts[n]);
    MovesSnoc(attempts[..n], a);
    assert attempts == attempts[..n] + [attempts[n]] && attempts[n := a] == attempts[..n] + [a];
  }

  lemma {:induction false} ReportTallies(spec: Spec, r: Rec, exhausted: bool, now: nat)
    requires r.attempts != [] && r.firstStarted.Some? && (r.failoverUsed <==> Moves(r.attempts) > 0)
    ensures Tallies(MakeReport(spec, r, exhausted, now).counters, |r.attempts|, Moves(r.attempts))
  {
    var rows := MakeReport(spec, r, exhausted, now).counters;
    AttemptTotals(spec, r.attempts);
    assert rows[1..] == AttemptEntries(spec, r.attempts);
  }

  lemma {:induction false} FinishStreams(spec: Spec, r: Rec, n: nat, cursor: nat, now: nat)
    requires Streaming(spec, r, n, cursor)
    ensures Streaming(spec, Finish(spec, r, false, now), n, cursor) && Finish(spec, r, false, now).finished
  {
    FinishKeeps(spec, r, false, now);
    if !r.finished {
      ReportTallies(spec, r, false, now);
    }
  }

  lemma {:induction false} StoreStreams(spec: Spec, r: Rec, n: nat, cursor: nat, r': Rec, a: AttemptRecord)
    requires Streaming(spec, r, n, cursor) && WellKept(r') && !a.moved
    requires r' == r.(attempts := r.attempts[n - 1 := a])
    ensures Streaming(spec, r', n, cursor)
  {
    MovesReplaceLast(r.attempts, a);
  }

  lemma {:induction false} FailureStreams(
    spec: Spec, r: Rec, n: nat, cursor: nat, k: ErrorClass, timedOut: bool, started: bool, now: nat)
    requires Streaming(spec, r, n, cursor)
    ensures Streaming(spec, OnTransportError(r, k, timedOut, true, started, now), n, cursor)
  {
    var r' := OnTransportError(r, k, timedOut, true, started, now);
    TransportErrorKeeps(r, k, timedOut, true, started, now);
    StoreStreams(spec, r, n, cursor, r', r'.attempts[n - 1]);
  }

  lemma {:induction false} DropStreams(spec: Spec, r: Rec, n: nat, cursor: nat, now: nat)
    requires Streaming(spec, r, n, cursor)
    ensures Streaming(spec, Dropped(spec, r, now), n, cursor) && Dropped(spec, r, now).finished
  {
    if !r.finished {
      var r' := OnAborted(r, now);
      AbortKeeps(r, now);
      StoreStreams(spec, r, n, cursor, r', r'.attempts[n - 1]);
      FinishStreams(spec, r', n, cursor, now);
    }
  }

  lemma {:induction false} OpStreams(spec: Spec, c: Call, op: Op, n: nat, cursor: nat)
    requires Streaming(spec, c.rec, n, cursor) && AfterOpen(op)
    ensures Streaming(spec, Apply(spec, c, op).rec, n, cursor)
  {
    match op {
      case StreamEvent(now) => ObservationKeeps(spec, c, op);
      case StreamFailure(k, timedOut, now) =>
        FailureStreams(spec, c.rec, n, cursor, k, timedOut, c.bodyStarted, now);
        FinishStreams(spec, OnTransportError(c.rec, k, timedOut, true, c.bodyStarted, now), n, cursor, now);
      case StreamComplete(now) => FinishStreams(spec, c.rec, n, cursor, now);
      case Failure(k, timedOut, _, _, now) => FailureStreams(spec, c.rec, n, cursor, k, timedOut, false, now);
      case FinishCall(_, now) => FinishStreams(spec, c.rec, n, cursor, now);
    }
  }

  lemma {:induction false} OpsStream(spec: Spec, c: Call, ops: seq<Op>, n: nat, cursor: nat)
    requires Streaming(spec, c.rec, n, cursor) && forall op :: op in ops ==> AfterOpen(op)
    ensures Streaming(spec, ApplyAll(spec, c, ops).rec, n, cursor)
    decreases |ops|
  {
    if ops != [] {
      assert ops[0] in ops && forall op :: op in ops[1..] ==> op in ops;
      OpStreams(spec, c, ops[0], n, cursor);
      OpsStream(spec, Apply(spec, c, ops[0]), ops[1..], n, cursor);
    }
  }

  /** Of `n` attempts the last is in flight, and unmoved. */
  predicate LastUnmoved(r: Rec, n: nat) {
    n > 0 && !r.finished && |r.attempts| == n && r.currentIndex == Some(n - 1) && !r.attempts[n - 1].moved
  }

  lemma {:induction false} OpenedAtLast(req: Request, t: Trace, turn: Turn)
    requires t.cursor < |req.hosts| && WellKept(t.rec) && !t.rec.finished && |t.rec.attempts| == |t.used|
    requires Step(req, t, turn).end.Opened?
    ensures LastUnmoved(Step(req, t, turn).rec, |t.used| + 1)
  {
    ObservedExtends(t.rec, |t.used|, req.hosts[t.cursor], turn);
  }

  lemma {:induction false} WalkOpens(req: Request, t: Trace, env: nat -> Turn)
    requires Mirrors(req, t, t.rec) && |t.rec.attempts| == |t.used| && !t.rec.finished
    requires t.cursor < |req.hosts| && |t.used| <= req.maxRetries
    ensures var w := Walk(req, t, env); w.end.Opened? ==> LastUnmoved(w.rec, |w.used|)
    decreases req.maxRetries - |t.used|
  {
    var turn := env(|t.used|);
    StepMirrors(req, t, turn);
    StepBounds(req, t, turn);
    var t' := Step(req, t, turn);
    if t'.end.Running? {
      RecordedEnding(req, t.rec, |t.used|, t.cursor, turn);
      WalkOpens(req, t', env);
    } else if t'.end.Opened? {
      OpenedAtLast(req, t, turn);
    }
  }

  /** A call that opens a response, followed through any events, failures and ends of
      its stream or its body to the drop of its recorder: it reports exactly once iff
      it may be recorded, and its counters tell the walk. */
  lemma {:induction false} OpenedCallsReport(req: Request, env: nat -> Turn, ops: seq<Op>, now: nat)
    requires req.hosts != [] && Execute(req, env).end.Opened? && forall op :: op in ops ==> AfterOpen(op)
    ensures var w := Execute(req, env);
            var r := Dropped(req.spec, ApplyAll(req.spec, Call(w.rec, false), ops).rec, now);
            && (|r.emitted| == 1 <==> req.spec.recordable) && |r.emitted| <= 1
            && (r.emitted != [] ==> Tallies(r.emitted[0].counters, |w.used|, w.cursor))
  {
    var w := Execute(req, env);
    assert Mirrors(req, START, START.rec);
    WalkMirrors(req, START, env);
    WalkOpens(req, START, env);
    MovesReachCursor(req, env);
    MovesPositiveIff(w.rec.attempts);
    var c := Call(w.rec, false);
    OpsStream(req.spec, c, ops, |w.used|, w.cursor);
    DropStreams(req.spec, ApplyAll(req.spec, c, ops).rec, |w.used|, w.cursor, now);
  }
}
