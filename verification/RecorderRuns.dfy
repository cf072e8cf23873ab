/** Every order of recorder and stream calls, ending in a drop. */
module RecorderRuns {
  import opened Basics
  import opened Vocabulary
  import opened Counters
  import opened FoldLadder
  import opened RetryPolicy
  import opened RecorderSpec

  /** The recorder's calls, then those of the open stream that shares it. */
  datatype Op =
    | Begin(host: Host, now: nat)
    | Response(status: nat, headers: Headers, now: nat)
    | BodyComplete(source: Option<ErrorSource>, now: nat)
    | Failure(class_: ErrorClass, timedOut: bool, responseOpened: bool, started: bool, now: nat)
    | Moved
    | FirstEvent(now: nat)
    | Abort(now: nat)
    | FinishCall(exhausted: bool, now: nat)
    | StreamEvent(now: nat)
    | StreamFailure(class_: ErrorClass, timedOut: bool, now: nat)
    | StreamComplete(now: nat)

  datatype Call = Call(rec: Rec, bodyStarted: bool)

  function Apply(spec: Spec, c: Call, op: Op): Call {
    match op
    case Begin(host, now) => c.(rec := BeginAttempt(c.rec, host, now))
    case Response(status, headers, now) => c.(rec := OnResponse(c.rec, status, headers, now))
    case BodyComplete(source, now) => c.(rec := OnBodyComplete(c.rec, source, now))
    case Failure(k, timedOut, responseOpened, started, now) =>
      c.(rec := OnTransportError(c.rec, k, timedOut, responseOpened, started, now))
    case Moved => c.(rec := OnMoved(c.rec))
    case FirstEvent(now) => c.(rec := OnFirstEvent(c.rec, now))
    case Abort(now) => c.(rec := OnAborted(c.rec, now))
    case FinishCall(exhausted, now) => c.(rec := Finish(spec, c.rec, exhausted, now))
    case StreamEvent(now) => if c.bodyStarted then c else Call(OnFirstEvent(c.rec, now), true)
    case StreamFailure(k, timedOut, now) =>
      c.(rec := Finish(spec, OnTransportError(c.rec, k, timedOut, true, c.bodyStarted, now), false, now))
    case StreamComplete(now) => c.(rec := Finish(spec, c.rec, false, now))
  }

  function ApplyAll(spec: Spec, c: Call, ops: seq<Op>): Call
    decreases |ops|
  {
    if ops == [] then c else ApplyAll(spec, Apply(spec, c, ops[0]), ops[1..])
  }

  const NEW_CALL := Call(NEW_RECORDER, false)

  // ---- The invariant ----

  predicate WellKept(r: Rec) {
    && (forall k :: 0 <= k < |r.attempts| ==> r.attempts[k].index == k && r.attempts[k].elapsedMs <= MAX_DURATION_MS)
    && (r.currentIndex.Some? <==> r.attemptStarted.Some?)
    && (r.currentIndex.Some? <==> r.currentHost.Some?)
    && (r.currentIndex.Some? ==> r.firstStarted.Some? && r.currentIndex.value <= |r.attempts| <= r.currentIndex.value + 1)
    && (r.attempts != [] ==> r.currentIndex.Some?)
    && (if r.finished then |r.emitted| <= 1 else r.emitted == [])
  }

  lemma {:induction false} FinishKeeps(spec: Spec, r: Rec, exhausted: bool, now: nat)
    requires WellKept(r)
    ensures WellKept(Finish(spec, r, exhausted, now))
  {
  }

  lemma {:induction false} ApplyKeeps(spec: Spec, c: Call, op: Op)
    requires WellKept(c.rec)
    ensures WellKept(Apply(spec, c, op).rec)
  {
    match op {
      case Failure(k, timedOut, responseOpened, started, now) =>
        TransportErrorKeeps(c.rec, k, timedOut, responseOpened, started, now);
      case StreamFailure(k, timedOut, now) =>
        TransportErrorKeeps(c.rec, k, timedOut, true, c.bodyStarted, now);
        FinishKeeps(spec, OnTransportError(c.rec, k, timedOut, true, c.bodyStarted, now), false, now);
      case FinishCall(exhausted, now) => FinishKeeps(spec, c.rec, exhausted, now);
      case StreamComplete(now) => FinishKeeps(spec, c.rec, false, now);
      case _ => ObservationKeeps(spec, c, op);
    }
  }

  lemma {:induction false} TransportErrorKeeps(
    r: Rec, k: ErrorClass, timedOut: bool, responseOpened: bool, started: bool, now: nat)
    requires WellKept(r)
    ensures WellKept(OnTransportError(r, k, timedOut, responseOpened, started, now))
  {
  }

  predicate Observes(op: Op) {
    op.Begin? || op.Response? || op.BodyComplete? || op.Moved? || op.FirstEvent? || op.Abort? || op.StreamEvent?
  }

  lemma {:induction false} ObservationKeeps(spec: Spec, c: Call, op: Op)
    requires WellKept(c.rec) && Observes(op)
    ensures WellKept(Apply(spec, c, op).rec)
  {
  }

  /** For every order of calls: attempt `k` carries index `k`, and the sink has
      been called at most once. */
  lemma {:induction false} EveryOrderWellKept(spec: Spec, c: Call, ops: seq<Op>)
    requires WellKept(c.rec)
    ensures WellKept(ApplyAll(spec, c, ops).rec)
    decreases |ops|
  {
    if ops != [] {
      ApplyKeeps(spec, c, ops[0]);
      EveryOrderWellKept(spec, Apply(spec, c, ops[0]), ops[1..]);
    }
  }

  // ---- Exactly one report ----

  /** The call is finished by `op` while no attempt is stored. */
  predicate FinishesEmpty(c: Call, op: Op) {
    && !c.rec.finished && c.rec.attempts == []
    && (op.FinishCall? || op.StreamComplete? || (op.StreamFailure? && !InFlight(c.rec)))
  }

  predicate NeverFinishesEmpty(spec: Spec, c: Call, ops: seq<Op>)
    decreases |ops|
  {
    ops == [] || (!FinishesEmpty(c, ops[0]) && NeverFinishesEmpty(spec, Apply(spec, c, ops[0]), ops[1..]))
  }

  predicate ReportedWithAttempt(spec: Spec, r: Rec) {
    r.finished ==> r.attempts != [] && (|r.emitted| == 1 <==> spec.recordable)
  }

  lemma {:induction false} ApplySettles(spec: Spec, c: Call, op: Op)
    requires WellKept(c.rec) && ReportedWithAttempt(spec, c.rec) && !FinishesEmpty(c, op)
    ensures ReportedWithAttempt(spec, Apply(spec, c, op).rec)
  {
  }

  lemma {:induction false} RunSettles(spec: Spec, c: Call, ops: seq<Op>)
    requires WellKept(c.rec) && ReportedWithAttempt(spec, c.rec) && NeverFinishesEmpty(spec, c, ops)
    ensures ReportedWithAttempt(spec, ApplyAll(spec, c, ops).rec)
    decreases |ops|
  {
    if ops != [] {
      ApplyKeeps(spec, c, ops[0]);
      ApplySettles(spec, c, ops[0]);
      RunSettles(spec, Apply(spec, c, ops[0]), ops[1..]);
    }
  }

  predicate Silenced(r: Rec) {
    r.finished && r.emitted == []
  }

  lemma {:induction false} EmptyFinishSilences(spec: Spec, c: Call, op: Op)
    requires WellKept(c.rec) && (FinishesEmpty(c, op) || Silenced(c.rec))
    ensures Silenced(Apply(spec, c, op).rec)
  {
  }

  lemma {:induction false} SilencedStays(spec: Spec, c: Call, ops: seq<Op>)
    requires WellKept(c.rec) && (Silenced(c.rec) || !NeverFinishesEmpty(spec, c, ops))
    ensures Silenced(ApplyAll(spec, c, ops).rec)
    decreases |ops|
  {
    if ops != [] {
      ApplyKeeps(spec, c, ops[0]);
      if FinishesEmpty(c, ops[0]) || Silenced(c.rec) {
        EmptyFinishSilences(spec, c, ops[0]);
      }
      SilencedStays(spec, Apply(spec, c, ops[0]), ops[1..]);
    }
  }

  /** Any order of calls, then a drop: the sink is called at most once, and exactly
      once iff the call is recordable, an attempt is stored, and no call finished it
      before its first attempt. */
  lemma {:induction false} SinkCalledOnce(spec: Spec, ops: seq<Op>, now: nat)
    ensures var r := Dropped(spec, ApplyAll(spec, NEW_CALL, ops).rec, now);
            && |r.emitted| <= 1
            && (|r.emitted| == 1 <==>
                  spec.recordable && r.attempts != [] && NeverFinishesEmpty(spec, NEW_CALL, ops))
  {
    EveryOrderWellKept(spec, NEW_CALL, ops);
    if NeverFinishesEmpty(spec, NEW_CALL, ops) {
      RunSettles(spec, NEW_CALL, ops);
    } else {
      SilencedStays(spec, NEW_CALL, ops);
    }
  }

  /** The guard is needed: a call finished before its first attempt stays silent
      although an attempt is stored later. */
  lemma {:induction false} EarlyFinishStaysSilent(host: Host)
    ensures var spec := Spec(ChatCompletions, true, false, false, None);
            var ops := [FinishCall(false, 0), Begin(host, 1), Abort(2)];
            var r := Dropped(spec, ApplyAll(spec, NEW_CALL, ops).rec, 3);
            r.attempts != [] && r.emitted == []
  {
    var spec := Spec(ChatCompletions, true, false, false, None);
    var a, b, d := FinishCall(false, 0), Begin(host, 1), Abort(2);
    var c1 := Apply(spec, NEW_CALL, a);
    var c2 := Apply(spec, c1, b);
    assert [a, b, d][1..] == [b, d] && [b, d][1..] == [d] && [d][1..] == [];
    assert ApplyAll(spec, c2, [d]) == ApplyAll(spec, Apply(spec, c2, d), []);
    assert ApplyAll(spec, c1, [b, d]) == ApplyAll(spec, c2, [d]);
  }

  // ---- What a report says ----

  function Moves(attempts: seq<AttemptRecord>): nat {
    if attempts == [] then 0 else One(attempts[0].moved) + Moves(attempts[1..])
  }

  lemma {:induction false} AttemptTotals(spec: Spec, attempts: seq<AttemptRecord>)
    ensures var es := AttemptEntries(spec, attempts);
            && Total(es, Everything, FailoverUsed) == Moves(attempts)
            && Total(es, Everything, Requests) == |attempts|
            && Total(es, Everything, Attempts) == |attempts|
  {
    if attempts != [] {
      var es := AttemptEntries(spec, attempts);
      assert es[1..] == AttemptEntries(spec, attempts[1..]);
      AttemptTotals(spec, attempts[1..]);
    }
  }

  // ---- The failover bit ----

  predicate SomeMoved(attempts: seq<AttemptRecord>) {
    exists k :: 0 <= k < |attempts| && attempts[k].moved
  }

  predicate FailoverAgrees(r: Rec) {
    r.failoverUsed <==> SomeMoved(r.attempts)
  }

  /** The attempt in flight holds the only mark there is. */
  predicate LosesOnlyMark(r: Rec) {
    && InFlight(r) && Previous(r).Some? && Previous(r).value.moved
    && forall k :: 0 <= k < |r.attempts| && k != r.currentIndex.value ==> !r.attempts[k].moved
  }

  lemma {:induction false} StoreUnmoved(r: Rec, a: AttemptRecord)
    requires a.index <= |r.attempts| && !a.moved
    ensures SomeMoved(Store(r, a).attempts)
            <==> exists k :: 0 <= k < |r.attempts| && k != a.index && r.attempts[k].moved
  {
    var after := Store(r, a).attempts;
    if k :| 0 <= k < |r.attempts| && k != a.index && r.attempts[k].moved {
      assert after[k].moved;
    }
    if SomeMoved(after) {
      var k :| 0 <= k < |after| && after[k].moved;
      assert k != a.index && k < |r.attempts| && r.attempts[k].moved;
    }
  }

  lemma {:induction false} StoreSameMark(r: Rec, a: AttemptRecord)
    requires a.index <= |r.attempts|
    requires a.moved == (a.index < |r.attempts| && r.attempts[a.index].moved)
    ensures SomeMoved(Store(r, a).attempts) <==> SomeMoved(r.attempts)
  {
    var after := Store(r, a).attempts;
    if k :| 0 <= k < |r.attempts| && r.attempts[k].moved {
      assert after[k].moved;
    }
    if k :| 0 <= k < |after| && after[k].moved {
      assert r.attempts[k].moved;
    }
  }

  lemma {:induction false} OverwriteAgrees(r: Rec, a: AttemptRecord)
    requires WellKept(r) && FailoverAgrees(r) && InFlight(r) && a.index == r.currentIndex.value && !a.moved
    ensures FailoverAgrees(Store(r, a))
            <==> !LosesOnlyMark(r)
  {
    StoreUnmoved(r, a);
    if r.failoverUsed {
      var k :| 0 <= k < |r.attempts| && r.attempts[k].moved;
      assert k == a.index ==> Previous(r).Some? && Previous(r).value.moved;
    }
  }

  lemma {:induction false} ResponseAgreesIff(r: Rec, status: nat, headers: Headers, now: nat)
    requires WellKept(r) && FailoverAgrees(r)
    ensures FailoverAgrees(OnResponse(r, status, headers, now)) <==> !LosesOnlyMark(r)
  {
    if InFlight(r) {
      OverwriteAgrees(r, OnResponse(r, status, headers, now).attempts[r.currentIndex.value]);
    }
  }

  lemma {:induction false} FailureAgreesIff(
    r: Rec, k: ErrorClass, timedOut: bool, responseOpened: bool, started: bool, now: nat)
    requires WellKept(r) && FailoverAgrees(r)
    ensures FailoverAgrees(OnTransportError(r, k, timedOut, responseOpened, started, now)) <==> !LosesOnlyMark(r)
  {
    if InFlight(r) {
      OverwriteAgrees(r, OnTransportError(r, k, timedOut, responseOpened, started, now).attempts[r.currentIndex.value]);
    }
  }

  lemma {:induction false} OthersAgree(spec: Spec, c: Call, op: Op)
    requires WellKept(c.rec) && FailoverAgrees(c.rec)
    requires !op.Response? && !op.Failure? && !op.StreamFailure?
    ensures FailoverAgrees(Apply(spec, c, op).rec)
  {
    var r, n := c.rec, |c.rec.attempts|;
    if op.Abort? && InFlight(r) {
      StoreSameMark(r, OnAborted(r, op.now).attempts[r.currentIndex.value]);
    } else if op.BodyComplete? && InFlight(r) && Previous(r).Some? {
      StoreSameMark(r, OnBodyComplete(r, op.source, op.now).attempts[r.currentIndex.value]);
    } else if op.Moved? && n > 0 {
      assert OnMoved(r).attempts[n - 1].moved;
    }
  }

  /** `failover_used` agrees with the attempts' marks after a call iff the call does
      not overwrite the only marked attempt. */
  lemma {:induction false} FailoverBitKeptIff(spec: Spec, c: Call, op: Op)
    requires WellKept(c.rec) && FailoverAgrees(c.rec)
    ensures FailoverAgrees(Apply(spec, c, op).rec)
            <==> !((op.Response? || op.Failure? || op.StreamFailure?) && LosesOnlyMark(c.rec))
  {
    match op {
      case Response(status, headers, now) => ResponseAgreesIff(c.rec, status, headers, now);
      case Failure(k, timedOut, responseOpened, started, now) =>
        FailureAgreesIff(c.rec, k, timedOut, responseOpened, started, now);
      case StreamFailure(k, timedOut, now) => FailureAgreesIff(c.rec, k, timedOut, true, c.bodyStarted, now);
      case _ => OthersAgree(spec, c, op);
    }
  }

  /** A call order that loses the mark: a failure reported a second time after the
      move it caused. */
  lemma {:induction false} FailoverBitCanOutliveMark(spec: Spec, host: Host)
    ensures var failure := Failure(Dns, false, false, false, 1);
            var moved := ApplyAll(spec, NEW_CALL, [Begin(host, 0), failure, Moved]).rec;
            var again := ApplyAll(spec, NEW_CALL, [Begin(host, 0), failure, Moved, failure]).rec;
            && FailoverAgrees(moved) && LosesOnlyMark(moved)
            && again.failoverUsed && |again.attempts| == 1 && !again.attempts[0].moved
  {
    var failure := Failure(Dns, false, false, false, 1);
    var c1 := Apply(spec, NEW_CALL, Begin(host, 0));
    var c2 := Apply(spec, c1, failure);
    var c3 := Apply(spec, c2, Moved);
    var c4 := Apply(spec, c3, failure);
    var three, four := [Begin(host, 0), failure, Moved], [Begin(host, 0), failure, Moved, failure];
    assert |c2.rec.attempts| == 1 && c3.rec.attempts[0].moved;
    assert three[1..] == [failure, Moved] && three[1..][1..] == [Moved] && [Moved][1..] == [];
    assert four[1..] == [failure, Moved, failure] && four[1..][1..] == [Moved, failure];
    assert [Moved, failure][1..] == [failure] && [failure][1..] == [];
    assert ApplyAll(spec, c3, []) == c3 && ApplyAll(spec, c2, [Moved]) == c3;
    assert ApplyAll(spec, c1, [failure, Moved]) == c3;
    assert ApplyAll(spec, c4, []) == c4 && ApplyAll(spec, c3, [failure]) == c4;
    assert ApplyAll(spec, c2, [Moved, failure]) == c4 && ApplyAll(spec, c1, [failure, Moved, failure]) == c4;
  }
}
