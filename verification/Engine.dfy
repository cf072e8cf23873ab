/** The recorder and the engine as the source runs them: objects updated in place
    by one retry loop. */
module Engine {
  import opened Basics
  import opened Vocabulary
  import opened FoldLadder
  import opened RetryPolicy
  import R = RecorderSpec
  import opened RecorderRuns
  import E = EngineSpec

  /** Builds the counter rows of a report, request row first. */
  method BuildCounters(spec: R.Spec, r: R.Rec, totalMs: nat) returns (counters: seq<Entry>)
    requires r.attempts != []
    ensures counters == [R.RequestEntry(spec, r, totalMs)] + R.AttemptEntries(spec, r.attempts)
  {
    var request := R.RequestEntry(spec, r, totalMs);
    counters := [request];
    for i := 0 to |r.attempts|
      invariant counters == [request] + R.AttemptEntries(spec, r.attempts)[..i]
    {
      counters := counters + [R.AttemptEntry(spec, r.attempts[i])];
    }
    assert R.AttemptEntries(spec, r.attempts)[..|r.attempts|] == R.AttemptEntries(spec, r.attempts);
  }

  class RequestRecorder {
    const spec: R.Spec
    var attempts: seq<R.AttemptRecord>
    var failoverUsed: bool
    var ttftMs: Option<nat>
    var firstStarted: Option<nat>
    var attemptStarted: Option<nat>
    var currentHost: Option<Host>
    var currentIndex: Option<nat>
    var finished: bool
    var emitted: seq<R.Report>

    function View(): R.Rec
      reads this
    {
      R.Rec(attempts, failoverUsed, ttftMs, firstStarted, attemptStarted, currentHost, currentIndex, finished, emitted)
    }

    constructor (spec: R.Spec)
      ensures View() == R.NEW_RECORDER && this.spec == spec
    {
      this.spec := spec;
      attempts, failoverUsed, ttftMs, finished, emitted := [], false, None, false, [];
      firstStarted, attemptStarted, currentHost, currentIndex := None, None, None, None;
    }

    method BeginAttempt(host: Host, now: nat)
      modifies `firstStarted, `attemptStarted, `currentHost, `currentIndex
      ensures View() == R.BeginAttempt(old(View()), host, now)
    {
      if firstStarted.None? {
        firstStarted := Some(now);
      }
      attemptStarted := Some(now);
      currentHost := Some(host);
      currentIndex := Some(|attempts|);
    }

    method StoreAttempt(record: R.AttemptRecord)
      modifies `attempts
      ensures View() == R.Store(old(View()), record)
    {
      if record.index < |attempts| {
        attempts := attempts[record.index := record];
      } else {
        attempts := attempts + [record];
      }
    }

    method OnResponse(status: nat, h: Headers, now: nat)
      modifies `attempts
      ensures View() == R.OnResponse(old(View()), status, h, now)
    {
      if attemptStarted.None? || currentHost.None? || currentIndex.None? {
        return;
      }
      var elapsed := R.DurationMs(attemptStarted.value, now);
      var delay := ParseRetryAfter(h);
      var retryAfterMs := if delay.Some? then Some(Min(delay.value / MS, R.MAX_DURATION_MS)) else None;
      StoreAttempt(R.AttemptRecord(
        currentIndex.value, currentHost.value, if status < 400 then Ok else HttpError, Some(status), None, None,
        h.shouldRetry, retryAfterMs, elapsed, Some(elapsed), h.requestId, false, NoPhase));
    }

    method OnResponseBodyComplete(source: Option<ErrorSource>, now: nat)
      modifies `attempts
      ensures View() == R.OnBodyComplete(old(View()), source, now)
    {
      if attemptStarted.None? || currentHost.None? || currentIndex.None? {
        return;
      }
      var i := currentIndex.value;
      if i < |attempts| {
        attempts := attempts[i := attempts[i].(elapsedMs := R.DurationMs(attemptStarted.value, now), errorSource := source)];
      }
    }

    method OnTransportError(k: ErrorClass, timedOut: bool, responseOpened: bool, bodyStarted: bool, now: nat)
      modifies `attempts
      ensures View() == R.OnTransportError(old(View()), k, timedOut, responseOpened, bodyStarted, now)
    {
      if attemptStarted.None? || currentHost.None? || currentIndex.None? {
        return;
      }
      var class_, phase := k, R.PhaseForClass(k);
      var outcome := TransportError;
      if timedOut {
        if bodyStarted {
          phase := Idle;
          if class_ == ReadTimeout {
            class_ := StreamStalled;
          }
        }
        outcome := Timeout;
      } else if bodyStarted {
        outcome := StreamBroken;
      }
      var previous := R.Previous(View());
      var response := if responseOpened then previous else None;
      StoreAttempt(R.AttemptRecord(
        currentIndex.value, currentHost.value, outcome,
        if response.Some? then response.value.httpStatus else None,
        Some(class_),
        if previous.Some? then previous.value.errorSource else None,
        if previous.Some? then previous.value.shouldRetry else RetryAbsent,
        if previous.Some? then previous.value.retryAfterMs else None,
        R.DurationMs(attemptStarted.value, now),
        if response.Some? then response.value.ttfbMs else None,
        if previous.Some? then previous.value.requestId else None,
        false, phase));
    }

    method OnMoved()
      modifies `attempts, `failoverUsed
      ensures View() == R.OnMoved(old(View()))
    {
      var n := |attempts|;
      if n > 0 {
        attempts := attempts[n - 1 := attempts[n - 1].(moved := true)];
        failoverUsed := true;
      }
    }

    method OnFirstEvent(now: nat)
      modifies `ttftMs
      ensures View() == R.OnFirstEvent(old(View()), now)
    {
      if ttftMs.None? && firstStarted.Some? {
        ttftMs := Some(R.DurationMs(firstStarted.value, now));
      }
    }

    method OnAborted(now: nat)
      modifies `attempts
      ensures View() == R.OnAborted(old(View()), now)
    {
      if attemptStarted.None? || currentHost.None? || currentIndex.None? {
        return;
      }
      var elapsed := R.DurationMs(attemptStarted.value, now);
      var record;
      match R.Previous(View()) {
        case Some(p) =>
          record := p.(index := currentIndex.value, host := currentHost.value, outcome := Aborted, elapsedMs := elapsed);
        case None =>
          record := R.AttemptRecord(
            currentIndex.value, currentHost.value, Aborted, None, None, None, RetryAbsent, None,
            elapsed, None, None, false, NoPhase);
      }
      StoreAttempt(record);
    }

    method Finish(exhausted: bool, now: nat)
      modifies `finished, `emitted
      ensures View() == R.Finish(spec, old(View()), exhausted, now)
    {
      if finished {
        return;
      }
      ghost var before := View();
      finished := true;
      if firstStarted.None? || attempts == [] || !spec.recordable {
        return;
      }
      var last := attempts[|attempts| - 1];
      var finalOutcome := if exhausted && |attempts| > 1 && last.outcome != Ok then Exhausted else Final(last.outcome);
      var totalMs := R.DurationMs(firstStarted.value, now);
      var event := R.RequestEvent(
        attempts, finalOutcome, last.httpStatus, totalMs, ttftMs, failoverUsed, last.phase,
        R.ConfiguredTimeoutMs(spec, last.phase));
      var counters := BuildCounters(spec, View(), totalMs);
      assert R.Report(event, counters) == R.MakeReport(spec, before, exhausted, now);
      emitted := emitted + [R.Report(event, counters)];
    }

    /** Runs when the owner goes away without finishing. */
    method Drop(now: nat)
      modifies `attempts, `finished, `emitted
      ensures View() == R.Dropped(spec, old(View()), now)
    {
      if !finished {
        OnAborted(now);
        Finish(false, now);
      }
    }
  }

  /** The recorder of an open stream, shared by the wire layer and the validators. */
  class StreamRecorder {
    const recorder: RequestRecorder
    var bodyStarted: bool

    constructor (recorder: RequestRecorder)
      ensures this.recorder == recorder && !bodyStarted
    {
      this.recorder := recorder;
      bodyStarted := false;
    }

    function View(): Call
      reads this, recorder
    {
      Call(recorder.View(), bodyStarted)
    }

    method OnEvent(now: nat)
      modifies this, recorder
      ensures View() == Apply(recorder.spec, old(View()), StreamEvent(now))
    {
      if !bodyStarted {
        bodyStarted := true;
        recorder.OnFirstEvent(now);
      }
    }

    method OnWireFailure(k: ErrorClass, timedOut: bool, now: nat)
      modifies recorder
      ensures View() == Apply(recorder.spec, old(View()), StreamFailure(k, timedOut, now))
    {
      recorder.OnTransportError(k, timedOut, true, bodyStarted, now);
      recorder.Finish(false, now);
    }

    method OnComplete(now: nat)
      modifies recorder
      ensures View() == Apply(recorder.spec, old(View()), StreamComplete(now))
    {
      recorder.Finish(false, now);
    }
  }

  /** Saturating cursor over the candidate list. */
  class CandidateCursor {
    var index: nat
    const len: nat

    constructor (len: nat)
      ensures index == 0 && this.len == len
    {
      index := 0;
      this.len := len;
    }

    method Advance() returns (moved: bool)
      modifies this
      ensures moved == (old(index) + 1 < len)
      ensures index == if moved then old(index) + 1 else old(index)
    {
      if index + 1 < len {
        index := index + 1;
        return true;
      }
      return false;
    }
  }

  /** One attempt: begin, send, and drain a failure body; what to do about it. */
  method Attempt(recorder: RequestRecorder, host: Host, turn: E.Turn) returns (verdict: E.Verdict)
    modifies recorder
    ensures recorder.View() == E.Observed(old(recorder.View()), host, turn)
    ensures verdict == E.VerdictOf(turn)
  {
    recorder.BeginAttempt(host, turn.startedAt);
    match turn.send {
      case BadHeaders => return E.Decide(FromTransport(false));
      case SendCancelled => return E.Cancel;
      case Failed(k, timedOut) =>
        recorder.OnTransportError(k, timedOut, false, false, turn.answeredAt);
        return E.Decide(FromTransport(true));
      case Responded(status, headers, drain) =>
        recorder.OnResponse(status, headers, turn.answeredAt);
        if E.IsSuccess(status) {
          return E.Open(status);
        }
        match drain {
          case DrainCancelled => return E.Cancel;
          case Drained(source) =>
            recorder.OnResponseBodyComplete(source, turn.endedAt);
            return E.Decide(FromHttp(status, headers));
          case DrainFailed(k, timedOut) =>
            recorder.OnTransportError(k, timedOut, true, false, turn.endedAt);
            var disposition := FromHttp(status, headers);
            return if disposition.retry then E.Decide(disposition) else E.Broken;
        }
    }
  }

  /** THE retry loop. Its whole trace, the recorder's included, is the walk of
      `EngineSpec`; dropping the future at an await drops the recorder there. */
  method Execute(recorder: RequestRecorder, req: E.Request, env: nat -> E.Turn)
    returns (used: seq<nat>, sleeps: seq<nat>, cursor: nat, end: E.End)
    requires req.hosts != [] && recorder.View() == R.NEW_RECORDER && recorder.spec == req.spec
    modifies recorder
    ensures E.Trace(used, cursor, sleeps, recorder.View(), end) == E.Execute(req, env)
  {
    var candidates := new CandidateCursor(|req.hosts|);
    used, sleeps, cursor, end := [], [], 0, E.Running;
    var attempt := 0;
    while true
      invariant fresh(candidates) && candidates.len == |req.hosts| && candidates.index == cursor < |req.hosts|
      invariant attempt == |used| <= req.maxRetries && end == E.Running
      invariant recorder.spec == req.spec
      invariant E.Walk(req, E.Trace(used, cursor, sleeps, recorder.View(), end), env) == E.Execute(req, env)
      decreases req.maxRetries - attempt
    {
      var turn := env(attempt);
      ghost var t := E.Trace(used, cursor, sleeps, recorder.View(), end);
      E.StepBounds(req, t, turn);
      var verdict := Attempt(recorder, req.hosts[cursor], turn);
      used := used + [cursor];
      match verdict {
        case Open(status) =>
          end := E.Opened(status);
          return;
        case Cancel =>
          recorder.Drop(turn.endedAt);
          end := E.Cancelled;
          return;
        case Broken =>
          recorder.Finish(false, turn.endedAt);
          end := E.Refused;
          return;
        case Decide(d) =>
          if attempt >= req.maxRetries || !d.retry || !req.replaySafe {
            recorder.Finish(attempt > 0 && d.retry, turn.endedAt);
            end := E.Refused;
            return;
          }
          if d.failover {
            var moved := candidates.Advance();
            if moved {
              recorder.OnMoved();
            }
            cursor := candidates.index;
          }
          sleeps := sleeps + [RetryDelay(attempt, d.retryAfter, turn.draw)];
          if turn.sleepCancelled {
            recorder.Drop(turn.endedAt);
            end := E.Cancelled;
            return;
          }
          attempt := attempt + 1;
      }
    }
  }
}
