/** The retry and failover walk of one call over an adversarial environment, with
    the recorder it drives. */
module EngineSpec {
  import opened Basics
  import opened Vocabulary
  import opened RetryPolicy
  import opened RecorderSpec
  import opened RecorderRuns

  /** Reading the body of a failure response, under the deadline. */
  datatype Drain = Drained(source: Option<ErrorSource>) | DrainFailed(class_: ErrorClass, timedOut: bool) | DrainCancelled

  /** What one attempt meets. A failure covers a request that could not be built. */
  datatype Send =
    | Responded(status: nat, headers: Headers, drain: Drain)
    | Failed(class_: ErrorClass, timedOut: bool)
    | BadHeaders               // invalid configuration, found before sending
    | SendCancelled            // the future is dropped while sending

  /** Everything the environment decides about one attempt, clock readings and the
      random draw included. The future may be dropped at any await. */
  datatype Turn = Turn(
    send: Send, draw: nat, sleepCancelled: bool, startedAt: nat, answeredAt: nat, endedAt: nat)

  datatype Verdict =
    | Open(status: nat)        // a 2xx, handed over undrained
    | Cancel
    | Broken                   // a non-retryable failure whose body could not be read
    | Decide(d: Disposition)

  predicate IsSuccess(status: nat) {
    200 <= status <= 299
  }

  function VerdictOf(turn: Turn): Verdict {
    match turn.send
    case Responded(status, headers, drain) =>
      if IsSuccess(status) then Open(status)
      else if drain.DrainCancelled? then Cancel
      else if drain.DrainFailed? && !FromHttp(status, headers).retry then Broken
      else Decide(FromHttp(status, headers))
    case Failed(_, _) => Decide(FromTransport(true))
    case BadHeaders => Decide(FromTransport(false))
    case SendCancelled => Cancel
  }

  /** What the recorder is told during one attempt. */
  function Observed(r: Rec, host: Host, turn: Turn): Rec {
    var b := BeginAttempt(r, host, turn.startedAt);
    match turn.send
    case BadHeaders => b
    case SendCancelled => b
    case Failed(k, timedOut) => OnTransportError(b, k, timedOut, false, false, turn.answeredAt)
    case Responded(status, headers, drain) =>
      var o := OnResponse(b, status, headers, turn.answeredAt);
      if IsSuccess(status) then o
      else
        match drain
        case Drained(source) => OnBodyComplete(o, source, turn.endedAt)
        case DrainFailed(k, timedOut) => OnTransportError(o, k, timedOut, true, false, turn.endedAt)
        case DrainCancelled => o
  }

  datatype End = Running | Opened(status: nat) | Refused | Cancelled

  /** A walk so far: the candidate of each attempt, the cursor, the sleeps. */
  datatype Trace = Trace(used: seq<nat>, cursor: nat, sleeps: seq<nat>, rec: Rec, end: End)

  datatype Request = Request(spec: Spec, hosts: seq<Host>, maxRetries: nat, replaySafe: bool)

  predicate MayRetry(req: Request, attempt: nat, d: Disposition) {
    attempt < req.maxRetries && d.retry && req.replaySafe
  }

  /** Saturating: at the last candidate the cursor stays, and that is no move. */
  predicate Advances(req: Request, cursor: nat, d: Disposition) {
    d.failover && cursor + 1 < |req.hosts|
  }

  /** What the loop does after an attempt: where the cursor goes, whether and how
      long it sleeps, and whether the walk is over. */
  datatype Turnout = Turnout(cursor: nat, sleep: Option<nat>, end: End)

  function TurnoutOf(req: Request, attempt: nat, cursor: nat, turn: Turn): Turnout {
    match VerdictOf(turn)
    case Open(status) => Turnout(cursor, None, Opened(status))
    case Cancel => Turnout(cursor, None, Cancelled)
    case Broken => Turnout(cursor, None, Refused)
    case Decide(d) =>
      if !MayRetry(req, attempt, d) then Turnout(cursor, None, Refused)
      else
        Turnout(
          if Advances(req, cursor, d) then cursor + 1 else cursor,
          Some(RetryDelay(attempt, d.retryAfter, turn.draw)),
          if turn.sleepCancelled then Cancelled else Running)
  }

  /** What the recorder holds after an attempt and the decision about it. */
  function Recorded(req: Request, r: Rec, attempt: nat, cursor: nat, turn: Turn): Rec
    requires cursor < |req.hosts|
  {
    var o := Observed(r, req.hosts[cursor], turn);
    match VerdictOf(turn)
    case Open(status) => o
    case Cancel => Dropped(req.spec, o, turn.endedAt)
    case Broken => Finish(req.spec, o, false, turn.endedAt)
    case Decide(d) =>
      if !MayRetry(req, attempt, d) then Finish(req.spec, o, attempt > 0 && d.retry, turn.endedAt)
      else
        var o' := if Advances(req, cursor, d) then OnMoved(o) else o;
        if turn.sleepCancelled then Dropped(req.spec, o', turn.endedAt) else o'
  }

  /** One iteration of the engine's loop. */
  function Step(req: Request, t: Trace, turn: Turn): Trace
    requires t.cursor < |req.hosts|
  {
    var out := TurnoutOf(req, |t.used|, t.cursor, turn);
    Trace(t.used + [t.cursor], out.cursor,
          if out.sleep.Some? then t.sleeps + [out.sleep.value] else t.sleeps,
          Recorded(req, t.rec, |t.used|, t.cursor, turn), out.end)
  }

  lemma {:induction false} StepBounds(req: Request, t: Trace, turn: Turn)
    requires t.cursor < |req.hosts|
    ensures var t' := Step(req, t, turn);
            && t'.cursor < |req.hosts| && |t'.used| == |t.used| + 1
            && (t'.end.Running? ==> |t.used| < req.maxRetries)
  {
  }

  /** The loop, from attempt `|t.used|` on. */
  function Walk(req: Request, t: Trace, env: nat -> Turn): Trace
    requires t.cursor < |req.hosts| && |t.used| <= req.maxRetries
    decreases req.maxRetries - |t.used|
  {
    StepBounds(req, t, env(|t.used|));
    var t' := Step(req, t, env(|t.used|));
    if t'.end.Running? then Walk(req, t', env) else t'
  }

  /** The loop can go on from here. */
  predicate MayStep(req: Request, t: Trace) {
    t.cursor < |req.hosts| && |t.used| <= req.maxRetries
  }

  /** What every iteration keeps while the walk runs, and brings about when it ends,
      holds of the whole walk. */
  lemma {:induction false} WalkBrings(
    req: Request, t: Trace, env: nat -> Turn, kept: Trace -> bool, brought: Trace -> bool)
    requires MayStep(req, t) && kept(t)
    requires forall u :: kept(u) && MayStep(req, u) ==>
               var u' := Step(req, u, env(|u.used|)); if u'.end.Running? then kept(u') else brought(u')
    ensures brought(Walk(req, t, env))
    decreases req.maxRetries - |t.used|
  {
    StepBounds(req, t, env(|t.used|));
    var t' := Step(req, t, env(|t.used|));
    if t'.end.Running? {
      WalkBrings(req, t', env, kept, brought);
    }
  }

  const START := Trace([], 0, [], NEW_RECORDER, Running)

  function Execute(req: Request, env: nat -> Turn): Trace
    requires req.hosts != []
  {
    Walk(req, START, env)
  }

  // ---- Reference definitions ----

  predicate Marks(turn: Turn) {
    VerdictOf(turn).Decide? && VerdictOf(turn).d.failover
  }

  /** How many of the first `k` attempts failed in a way that may move domains. */
  function Marked(env: nat -> Turn, k: nat): nat {
    if k == 0 then 0 else Marked(env, k - 1) + if Marks(env(k - 1)) then 1 else 0
  }

  /** The candidate attempt `k` must use: one further per marked failure, staying
      at the last. */
  function CandidateAt(env: nat -> Turn, k: nat, len: nat): nat
    requires len > 0
  {
    Min(Marked(env, k), len - 1)
  }

  /** The candidates in order, and where the cursor ended up. */
  function Path(t: Trace): seq<nat> {
    t.used + [t.cursor]
  }

  function SumOf(sleeps: seq<nat>): nat {
    if sleeps == [] then 0 else SumOf(sleeps[..|sleeps| - 1]) + sleeps[|sleeps| - 1]
  }

  // ---- What every walk does ----

  /** The engine's own facts about a trace. */
  predicate WalkFacts(req: Request, env: nat -> Turn, t: Trace)
    requires req.hosts != []
  {
    var n := |t.used|;
    && t.cursor < |req.hosts|
    && (forall k :: 0 <= k < n ==> t.used[k] == CandidateAt(env, k, |req.hosts|))
    && (forall k :: 0 <= k < n - 1 ==> VerdictOf(env(k)).Decide? && MayRetry(req, k, VerdictOf(env(k)).d))
    && |t.sleeps| <= n
    && (forall k :: 0 <= k < |t.sleeps| ==>
          && VerdictOf(env(k)).Decide? && MayRetry(req, k, VerdictOf(env(k)).d)
          && t.sleeps[k] == RetryDelay(k, VerdictOf(env(k)).d.retryAfter, env(k).draw))
    && (|t.sleeps| == n ==> t.cursor == CandidateAt(env, n, |req.hosts|))
    && (|t.sleeps| < n ==> t.cursor == t.used[n - 1])
    && (t.end.Running? ==> |t.sleeps| == n)
    && n <= |t.sleeps| + 1
  }

  /** What a turn-out owes to the environment's `k`-th answer. */
  predicate Justified(req: Request, env: nat -> Turn, k: nat, cursor: nat, out: Turnout)
    requires req.hosts != []
  {
    if out.sleep.Some? then
      && VerdictOf(env(k)).Decide? && MayRetry(req, k, VerdictOf(env(k)).d)
      && out.sleep.value == RetryDelay(k, VerdictOf(env(k)).d.retryAfter, env(k).draw)
      && out.cursor == CandidateAt(env, k + 1, |req.hosts|)
    else out.cursor == cursor && !out.end.Running?
  }

  lemma {:induction false} TurnoutJustified(req: Request, env: nat -> Turn, k: nat, cursor: nat)
    requires req.hosts != [] && cursor == CandidateAt(env, k, |req.hosts|)
    ensures Justified(req, env, k, cursor, TurnoutOf(req, k, cursor, env(k)))
  {
  }

  lemma {:induction false} ExtendFacts(req: Request, env: nat -> Turn, t: Trace, t': Trace, out: Turnout)
    requires req.hosts != [] && WalkFacts(req, env, t) && t.end.Running?
    requires Justified(req, env, |t.used|, t.cursor, out)
    requires t'.used == t.used + [t.cursor] && t'.cursor == out.cursor && t'.end == out.end
    requires t'.sleeps == if out.sleep.Some? then t.sleeps + [out.sleep.value] else t.sleeps
    ensures WalkFacts(req, env, t')
  {
  }

  lemma {:induction false} StepFacts(req: Request, env: nat -> Turn, t: Trace)
    requires req.hosts != [] && WalkFacts(req, env, t) && t.end.Running?
    ensures WalkFacts(req, env, Step(req, t, env(|t.used|)))
  {
    var n := |t.used|;
    TurnoutJustified(req, env, n, t.cursor);
    ExtendFacts(req, env, t, Step(req, t, env(n)), TurnoutOf(req, n, t.cursor, env(n)));
  }

  lemma {:induction false} WalkKeepsFacts(req: Request, t: Trace, env: nat -> Turn)
    requires req.hosts != [] && WalkFacts(req, env, t) && t.end.Running? && |t.used| <= req.maxRetries
    ensures WalkFacts(req, env, Walk(req, t, env))
    ensures var w := Walk(req, t, env); 0 < |w.used| <= req.maxRetries + 1 && !w.end.Running?
    decreases req.maxRetries - |t.used|
  {
    var turn := env(|t.used|);
    StepFacts(req, env, t);
    StepBounds(req, t, turn);
    var t' := Step(req, t, turn);
    if t'.end.Running? {
      WalkKeepsFacts(req, t', env);
    }
  }

  // ---- What the recorder holds ----

  /** The attempt in flight is attempt `k`, at `host`. */
  predicate At(r: Rec, k: nat, host: Host) {
    WellKept(r) && !r.finished && r.currentIndex == Some(k) && r.currentHost == Some(host)
  }

  /** `r'` differs from `r` at most in having an unmoved record for attempt `k`. */
  predicate Extends(r: Rec, r': Rec, k: nat, host: Host) {
    && r'.failoverUsed == r.failoverUsed
    && |r.attempts| == k <= |r'.attempts| <= k + 1
    && r'.attempts[..k] == r.attempts
    && (|r'.attempts| == k + 1 ==> r'.attempts[k].host == host && !r'.attempts[k].moved)
  }

  lemma {:induction false} ResponseExtends(r: Rec, b: Rec, k: nat, host: Host, status: nat, h: Headers, now: nat)
    requires At(b, k, host) && Extends(r, b, k, host)
    ensures var o := OnResponse(b, status, h, now);
            At(o, k, host) && Extends(r, o, k, host) && |o.attempts| == k + 1
  {
    var o := OnResponse(b, status, h, now);
    assert o.attempts[..k] == b.attempts[..k];
  }

  lemma {:induction false} FailureExtends(
    r: Rec, b: Rec, k: nat, host: Host, c: ErrorClass, timedOut: bool, responseOpened: bool, now: nat)
    requires At(b, k, host) && Extends(r, b, k, host)
    ensures var o := OnTransportError(b, c, timedOut, responseOpened, false, now);
            At(o, k, host) && Extends(r, o, k, host) && |o.attempts| == k + 1
  {
    var o := OnTransportError(b, c, timedOut, responseOpened, false, now);
    assert o.attempts[..k] == b.attempts[..k];
  }

  lemma {:induction false} BodyExtends(r: Rec, b: Rec, k: nat, host: Host, source: Option<ErrorSource>, now: nat)
    requires At(b, k, host) && Extends(r, b, k, host) && |b.attempts| == k + 1
    ensures var o := OnBodyComplete(b, source, now);
            At(o, k, host) && Extends(r, o, k, host) && |o.attempts| == k + 1
  {
    var o := OnBodyComplete(b, source, now);
    assert o.attempts[..k] == b.attempts[..k];
  }

  lemma {:induction false} ObservedExtends(r: Rec, k: nat, host: Host, turn: Turn)
    requires WellKept(r) && !r.finished && |r.attempts| == k
    ensures var o := Observed(r, host, turn);
            && At(o, k, host) && Extends(r, o, k, host)
            && (|o.attempts| == k <==> turn.send.BadHeaders? || turn.send.SendCancelled?)
  {
    var b := BeginAttempt(r, host, turn.startedAt);
    assert b.attempts[..k] == r.attempts;
    match turn.send {
      case Failed(c, timedOut) => FailureExtends(r, b, k, host, c, timedOut, false, turn.answeredAt);
      case Responded(status, headers, drain) =>
        ResponseExtends(r, b, k, host, status, headers, turn.answeredAt);
        var o := OnResponse(b, status, headers, turn.answeredAt);
        match drain {
          case Drained(source) => BodyExtends(r, o, k, host, source, turn.endedAt);
          case DrainFailed(c, timedOut) => FailureExtends(r, o, k, host, c, timedOut, true, turn.endedAt);
          case DrainCancelled =>
        }
      case _ =>
    }
  }

  /** The recorder mirrors the walk: one record per attempt (a request that could
      not be assembled leaves none), at the host of the candidate actually used,
      marked as moved exactly where the cursor advanced. */
  predicate Mirrors(req: Request, t: Trace, r: Rec) {
    var n, m, path := |t.used|, |r.attempts|, Path(t);
    && WellKept(r) && FailoverAgrees(r)
    && m <= n <= m + 1
    && (m < n ==> n > 0 && path[n] == path[n - 1])
    && (forall k :: 0 <= k < n ==> t.used[k] < |req.hosts|)
    && (forall k :: 0 <= k < m ==>
          && r.attempts[k].host == req.hosts[t.used[k]]
          && (r.attempts[k].moved <==> path[k + 1] != path[k]))
  }

  lemma {:induction false} MirrorsFinish(req: Request, t: Trace, r: Rec, exhausted: bool, now: nat)
    requires Mirrors(req, t, r)
    ensures Mirrors(req, t, Finish(req.spec, r, exhausted, now))
  {
  }

  lemma {:induction false} DropKeepsMarks(r: Rec, k: nat, host: Host, now: nat)
    requires At(r, k, host) && k <= |r.attempts| <= k + 1
    ensures var a := OnAborted(r, now);
            && WellKept(a) && |a.attempts| == k + 1 && a.attempts[k].host == host
            && a.attempts[..k] == r.attempts[..k] && a.failoverUsed == r.failoverUsed
            && (a.attempts[k].moved <==> |r.attempts| == k + 1 && r.attempts[k].moved)
  {
  }

  lemma {:induction false} MarksAgree(r: Rec, a: Rec)
    requires FailoverAgrees(r) && a.failoverUsed == r.failoverUsed
    requires |r.attempts| <= |a.attempts|
    requires forall k :: 0 <= k < |a.attempts| ==> (a.attempts[k].moved <==> k < |r.attempts| && r.attempts[k].moved)
    ensures FailoverAgrees(a)
  {
    if SomeMoved(r.attempts) {
      var k :| 0 <= k < |r.attempts| && r.attempts[k].moved;
      assert a.attempts[k].moved;
    }
    if SomeMoved(a.attempts) {
      var k :| 0 <= k < |a.attempts| && a.attempts[k].moved;
      assert r.attempts[k].moved;
    }
  }

  /** An attempt in flight that left the cursor where it was. */
  lemma {:induction false} MirrorsStay(req: Request, t: Trace, t': Trace, o: Rec)
    requires Mirrors(req, t, t.rec) && |t.rec.attempts| == |t.used| && t.cursor < |req.hosts|
    requires At(o, |t.used|, req.hosts[t.cursor]) && Extends(t.rec, o, |t.used|, req.hosts[t.cursor])
    requires t'.used == t.used + [t.cursor] && t'.cursor == t.cursor
    ensures Mirrors(req, t', o)
  {
    var k, r := |t.used|, t.rec;
    assert forall i :: 0 <= i < k ==> o.attempts[i] == o.attempts[..k][i] == r.attempts[i];
    assert forall i :: 0 <= i <= k ==> Path(t')[i] == Path(t)[i];
    MarksAgree(r, o);
  }

  lemma {:induction false} MovedAgrees(o: Rec)
    requires o.attempts != []
    ensures FailoverAgrees(OnMoved(o))
  {
    assert OnMoved(o).attempts[|o.attempts| - 1].moved;
  }

  /** An attempt in flight after which the cursor advanced. */
  lemma {:induction false} MirrorsMove(req: Request, t: Trace, t': Trace, o: Rec)
    requires Mirrors(req, t, t.rec) && |t.rec.attempts| == |t.used| && t.cursor < |req.hosts|
    requires At(o, |t.used|, req.hosts[t.cursor]) && Extends(t.rec, o, |t.used|, req.hosts[t.cursor])
    requires |o.attempts| == |t.used| + 1
    requires t'.used == t.used + [t.cursor] && t'.cursor == t.cursor + 1
    ensures Mirrors(req, t', OnMoved(o)) && At(OnMoved(o), |t.used|, req.hosts[t.cursor])
  {
    var k, r := |t.used|, t.rec;
    assert forall i :: 0 <= i < k ==> o.attempts[i] == o.attempts[..k][i] == r.attempts[i];
    assert forall i :: 0 <= i <= k ==> Path(t')[i] == Path(t)[i];
    MovedAgrees(o);
  }

  /** Dropping the call records an abort without disturbing the mirror. */
  lemma {:induction false} MirrorsDropped(req: Request, t': Trace, r: Rec, k: nat, now: nat)
    requires Mirrors(req, t', r) && |t'.used| == k + 1 && At(r, k, req.hosts[t'.used[k]])
    ensures Mirrors(req, t', Dropped(req.spec, r, now))
    ensures |Dropped(req.spec, r, now).attempts| == k + 1
  {
    var host := req.hosts[t'.used[k]];
    var a := OnAborted(r, now);
    DropKeepsMarks(r, k, host, now);
    assert forall i :: 0 <= i < k ==> a.attempts[i] == a.attempts[..k][i] == r.attempts[i];
    MarksAgree(r, a);
    MirrorsFinish(req, t', a, false, now);
  }

  /** How a record is left once the attempt `o` observed is decided. */
  predicate Ending(spec: Spec, o: Rec, rec: Rec, end: End, now: nat) {
    match end
    case Running => rec == o
    case Opened(_) => rec == o
    case Refused => rec == Finish(spec, o, true, now) || rec == Finish(spec, o, false, now)
    case Cancelled => rec == Dropped(spec, o, now)
  }

  lemma {:induction false} RecordedEnding(req: Request, r: Rec, attempt: nat, cursor: nat, turn: Turn)
    requires cursor < |req.hosts|
    ensures var o := Observed(r, req.hosts[cursor], turn);
            var out := TurnoutOf(req, attempt, cursor, turn);
            Ending(req.spec, if out.cursor == cursor then o else OnMoved(o),
                   Recorded(req, r, attempt, cursor, turn), out.end, turn.endedAt)
    ensures TurnoutOf(req, attempt, cursor, turn).cursor == cursor
            || (TurnoutOf(req, attempt, cursor, turn).cursor == cursor + 1 && !turn.send.BadHeaders? && !turn.send.SendCancelled?)
    ensures turn.send.SendCancelled? ==> TurnoutOf(req, attempt, cursor, turn).end.Cancelled?
    ensures turn.send.BadHeaders? ==> TurnoutOf(req, attempt, cursor, turn).end.Refused?
  {
  }

  /** Whichever way a walk ends, finishing and dropping keep the mirror. */
  lemma {:induction false} MirrorsEnding(req: Request, t': Trace, o: Rec, k: nat, now: nat)
    requires Mirrors(req, t', o) && |t'.used| == k + 1 && At(o, k, req.hosts[t'.used[k]])
    requires Ending(req.spec, o, t'.rec, t'.end, now)
    ensures Mirrors(req, t', t'.rec)
    ensures |t'.rec.attempts| == if t'.end.Cancelled? then k + 1 else |o.attempts|
    ensures (t'.end.Refused? || t'.end.Cancelled?) <==> t'.rec.finished
  {
    match t'.end {
      case Refused =>
        MirrorsFinish(req, t', o, false, now);
        MirrorsFinish(req, t', o, true, now);
      case Cancelled => MirrorsDropped(req, t', o, k, now);
      case _ =>
    }
  }

  /** Every step keeps the mirror: a record per attempt unless the request could not
      be assembled, and the call finished exactly when the walk ended in failure. */
  lemma {:induction false} StepMirrors(req: Request, t: Trace, turn: Turn)
    requires Mirrors(req, t, t.rec) && |t.rec.attempts| == |t.used| && !t.rec.finished
    requires t.cursor < |req.hosts|
    ensures var t' := Step(req, t, turn);
            && Mirrors(req, t', t'.rec)
            && (|t'.rec.attempts| < |t'.used| <==> turn.send.BadHeaders?)
            && (t'.end.Refused? || t'.end.Cancelled? <==> t'.rec.finished)
  {
    var k, host := |t.used|, req.hosts[t.cursor];
    var o := Observed(t.rec, host, turn);
    var t' := Step(req, t, turn);
    ObservedExtends(t.rec, k, host, turn);
    RecordedEnding(req, t.rec, k, t.cursor, turn);
    if t'.cursor == t.cursor {
      MirrorsStay(req, t, t', o);
      MirrorsEnding(req, t', o, k, turn.endedAt);
    } else {
      MirrorsMove(req, t, t', o);
      MirrorsEnding(req, t', OnMoved(o), k, turn.endedAt);
    }
  }
}
