/** What the environment's answers make the engine do: which attempts are made, where
    they go, how long the call sleeps and how it ends, each exactly when. */
module EngineAnswers {
  import opened Basics
  import opened Vocabulary
  import opened RetryPolicy
  import opened EngineSpec
  import opened EngineTheorems

  // ---- Reading one answer ----

  /** A transport failure or timeout, or an answer outside 200-299 that the server
      asks to retry, or about which it says nothing and which is a 429 or at least
      500. */
  predicate Retryable(send: Send) {
    || send.Failed?
    || (send.Responded? && !(200 <= send.status <= 299)
        && match send.headers.shouldRetry
           case RetryTrue => true
           case RetryFalse => false
           case RetryAbsent => send.status == 429 || 500 <= send.status)
  }

  /** A failure that may move to another domain. */
  predicate Movable(send: Send) {
    || send.Failed?
    || (send.Responded? && send.status in {502, 503, 504} && send.headers.shouldRetry != RetryFalse)
  }

  /** The call was dropped while sending, or while reading a failure's body. */
  predicate CutOff(send: Send) {
    || send.SendCancelled?
    || (send.Responded? && !(200 <= send.status <= 299) && send.drain.DrainCancelled?)
  }

  /** The engine goes on to sleep before another attempt. */
  predicate Persists(req: Request, k: nat, turn: Turn) {
    req.replaySafe && k < req.maxRetries && Retryable(turn.send) && !CutOff(turn.send)
  }

  predicate Opens(send: Send, status: nat) {
    send.Responded? && send.status == status && 200 <= status <= 299
  }

  // ---- How often, and how it ends ----

  /** How attempt `k` leaves the call. */
  predicate Leaves(req: Request, k: nat, turn: Turn, end: End) {
    match end
    case Running => Persists(req, k, turn) && !turn.sleepCancelled
    case Opened(status) => Opens(turn.send, status)
    case Cancelled => CutOff(turn.send) || (Persists(req, k, turn) && turn.sleepCancelled)
    case Refused =>
      && !CutOff(turn.send) && !Persists(req, k, turn)
      && !(turn.send.Responded? && 200 <= turn.send.status <= 299)
  }

  /** The wait an answer asked for, in nanoseconds. */
  function AskedFor(send: Send): nat {
    if send.Responded? && Asked(send.headers).Some? then Asked(send.headers).value else 0
  }

  /** The jitter drawn for attempt `k`, in nanoseconds: at most half a second doubled
      `k` times, and at most 30 s. */
  function Jitter(k: nat, draw: nat): nat {
    draw % (Min(500 * Pow2(k), 30_000) + 1) * 1_000_000
  }

  lemma {:induction false} CeilingIs(k: nat)
    ensures CeilingMs(k) == Min(500 * Pow2(k), 30_000)
  {
    if k > 6 {
      SixDoublings(k);
    }
  }

  lemma {:induction false} SixDoublings(k: nat)
    requires k >= 6
    ensures Pow2(k) >= Pow2(6) == 64
  {
    assert Pow2(6) == 2 * Pow2(5) && Pow2(4) == 4 * Pow2(2);
    if k > 6 {
      SixDoublings(k - 1);
    }
  }

  /** The candidate after attempt `k` at `cursor`. */
  function NextCandidate(req: Request, k: nat, cursor: nat, turn: Turn): nat {
    if Persists(req, k, turn) && Movable(turn.send) && cursor + 1 < |req.hosts| then cursor + 1 else cursor
  }

  lemma {:induction false} TurnoutIs(req: Request, k: nat, cursor: nat, turn: Turn)
    ensures var out := TurnoutOf(req, k, cursor, turn);
            && Leaves(req, k, turn, out.end) && out.cursor == NextCandidate(req, k, cursor, turn)
            && out.sleep == if Persists(req, k, turn) then Some(Max(AskedFor(turn.send), Jitter(k, turn.draw))) else None
  {
    CeilingIs(k);
  }

  /** Each attempt but the last went on, and the last left the call as it ended. */
  predicate AllLeave(req: Request, env: nat -> Turn, t: Trace) {
    && (forall k :: 0 <= k < |t.used| - 1 ==> Leaves(req, k, env(k), Running))
    && (t.used != [] ==> Leaves(req, |t.used| - 1, env(|t.used| - 1), t.end))
  }

  lemma {:induction false} WalkLeaves(req: Request, t: Trace, env: nat -> Turn)
    requires t.cursor < |req.hosts| && |t.used| <= req.maxRetries && t.end.Running? && AllLeave(req, env, t)
    ensures AllLeave(req, env, Walk(req, t, env))
    decreases req.maxRetries - |t.used|
  {
    var n := |t.used|;
    TurnoutIs(req, n, t.cursor, env(n));
    StepBounds(req, t, env(n));
    var t' := Step(req, t, env(n));
    OneMoreLeaves(req, env, t, t');
    if t'.end.Running? {
      WalkLeaves(req, t', env);
    }
  }

  lemma {:induction false} OneMoreLeaves(req: Request, env: nat -> Turn, t: Trace, t': Trace)
    requires AllLeave(req, env, t) && t.end.Running? && |t'.used| == |t.used| + 1
    requires Leaves(req, |t.used|, env(|t.used|), t'.end)
    ensures AllLeave(req, env, t')
  {
  }

  /** Attempt `k` is followed by another iff the request is safe to replay, retries are
      left, it met a retryable failure and nothing was cancelled at it. */
  lemma {:induction false} RetriesExactly(req: Request, env: nat -> Turn, k: nat)
    requires req.hosts != [] && k < |Execute(req, env).used|
    ensures k + 1 < |Execute(req, env).used|
            <==> req.replaySafe && k < req.maxRetries && Retryable(env(k).send)
                 && !CutOff(env(k).send) && !env(k).sleepCancelled
  {
    ExecuteFacts(req, env);
    WalkLeaves(req, START, env);
  }

  /** The call ends with an open response iff its last attempt was answered with that
      2xx, as cancelled iff it was dropped there, and in failure otherwise. */
  lemma {:induction false} EndsExactly(req: Request, env: nat -> Turn)
    requires req.hosts != []
    ensures var w := Execute(req, env);
            && w.used != [] && !w.end.Running?
            && var k := |w.used| - 1;
               && (forall status :: w.end == Opened(status) <==> Opens(env(k).send, status))
               && (w.end.Cancelled? <==>
                     CutOff(env(k).send) || (Persists(req, k, env(k)) && env(k).sleepCancelled))
  {
    ExecuteFacts(req, env);
    WalkLeaves(req, START, env);
  }

  // ---- Where to ----

  predicate PathFollows(req: Request, env: nat -> Turn, path: seq<nat>) {
    && path != [] && path[0] == 0
    && forall k :: 0 <= k < |path| - 1 ==> path[k + 1] == NextCandidate(req, k, path[k], env(k))
  }

  lemma {:induction false} OneMoreFollows(req: Request, env: nat -> Turn, path: seq<nat>)
    requires PathFollows(req, env, path)
    ensures var k := |path| - 1; PathFollows(req, env, path + [NextCandidate(req, k, path[k], env(k))])
  {
    var k := |path| - 1;
    var longer := path + [NextCandidate(req, k, path[k], env(k))];
    assert forall i :: 0 <= i <= k ==> longer[i] == path[i];
  }

  lemma {:induction false} WalkFollows(req: Request, t: Trace, env: nat -> Turn)
    requires t.cursor < |req.hosts| && |t.used| <= req.maxRetries && PathFollows(req, env, Path(t))
    ensures PathFollows(req, env, Path(Walk(req, t, env)))
    decreases req.maxRetries - |t.used|
  {
    var n := |t.used|;
    TurnoutIs(req, n, t.cursor, env(n));
    StepBounds(req, t, env(n));
    var t' := Step(req, t, env(n));
    OneMoreFollows(req, env, Path(t));
    assert Path(t') == Path(t) + [t'.cursor];
    if t'.end.Running? {
      WalkFollows(req, t', env);
    }
  }

  /** The first attempt goes to the first candidate; the call moves one candidate on
      after attempt `k` iff it persists there after a failure that may move domains
      and a further candidate exists. */
  lemma {:induction false} MovesExactly(req: Request, env: nat -> Turn, k: nat)
    requires req.hosts != [] && k < |Execute(req, env).used|
    ensures var path := Path(Execute(req, env));
            && path[0] == 0
            && path[k + 1] == path[k] + if Persists(req, k, env(k)) && Movable(env(k).send) && path[k] + 1 < |req.hosts|
                                        then 1 else 0
  {
    WalkFollows(req, START, env);
  }

  // ---- How long ----

  /** The call sleeps once after each attempt it persists at, for the longer of the wait
      asked for and the jitter drawn. */
  lemma {:induction false} SleepsExactly(req: Request, env: nat -> Turn)
    requires req.hosts != []
    ensures var w := Execute(req, env);
            && w.used != []
            && |w.sleeps| == |w.used| - (if Persists(req, |w.used| - 1, env(|w.used| - 1)) then 0 else 1)
            && forall k :: 0 <= k < |w.sleeps| ==> w.sleeps[k] == Max(AskedFor(env(k).send), Jitter(k, env(k).draw))
  {
    WalkSleeps(req, env);
  }

  predicate SleepsKept(req: Request, env: nat -> Turn, sleeps: seq<nat>) {
    forall k :: 0 <= k < |sleeps| ==> sleeps[k] == Max(AskedFor(env(k).send), Jitter(k, env(k).draw))
  }

  /** One sleep after each attempt, while the call goes on. */
  predicate SleepsSoFar(req: Request, env: nat -> Turn, t: Trace) {
    |t.sleeps| == |t.used| && SleepsKept(req, env, t.sleeps)
  }

  predicate SleepsInAll(req: Request, env: nat -> Turn, t: Trace) {
    && t.used != [] && SleepsKept(req, env, t.sleeps)
    && |t.sleeps| == |t.used| - (if Persists(req, |t.used| - 1, env(|t.used| - 1)) then 0 else 1)
  }

  lemma {:induction false} StepSleeps(req: Request, t: Trace, env: nat -> Turn)
    requires MayStep(req, t) && SleepsSoFar(req, env, t)
    ensures var t' := Step(req, t, env(|t.used|));
            SleepsInAll(req, env, t') && (t'.end.Running? ==> SleepsSoFar(req, env, t'))
  {
    TurnoutIs(req, |t.used|, t.cursor, env(|t.used|));
  }

  lemma {:induction false} WalkSleeps(req: Request, env: nat -> Turn)
    requires req.hosts != []
    ensures SleepsInAll(req, env, Execute(req, env))
  {
    var kept, brought := (t: Trace) => SleepsSoFar(req, env, t), (t: Trace) => SleepsInAll(req, env, t);
    forall u | kept(u) && MayStep(req, u)
      ensures var u' := Step(req, u, env(|u.used|)); if u'.end.Running? then kept(u') else brought(u')
    {
      StepSleeps(req, u, env);
    }
    WalkBrings(req, START, env, kept, brought);
  }
}
