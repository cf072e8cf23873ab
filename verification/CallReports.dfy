/** What calls of one attempt hand to the reporter, and how many of them add up. */
module CallReports {
  import opened Basics
  import opened Vocabulary
  import opened Counters
  import opened FoldLadder
  import opened RetryPolicy
  import opened RecorderSpec
  import opened RecorderRuns

  /** A 200, or a failure to connect or to keep the connection. */
  datatype Answer = Fine | Failing(class_: ErrorClass)

  const NO_HEADERS := Headers(RetryAbsent, None, None, None)

  /** The recorder's calls, all within its first millisecond. */
  function CallOps(host: Host, answer: Answer): seq<Op> {
    [Begin(host, 0),
     match answer
     case Fine => Response(200, NO_HEADERS, 0)
     case Failing(c) => Failure(c, false, false, false, 0),
     FinishCall(false, 0)]
  }

  /** What the sink receives. */
  function Emitted(spec: Spec, host: Host, answer: Answer): seq<Report> {
    ApplyAll(spec, NEW_CALL, CallOps(host, answer)).rec.emitted
  }

  function CallKey(level: Level, spec: Spec, host: Host, answer: Answer): CounterKey {
    CounterKey(level, spec.endpoint, spec.streaming, host,
               if answer.Fine? then Ok else TransportError,
               if answer.Fine? then None else Some(answer.class_),
               if answer.Fine? then Success else NoStatus,
               NoPhase, false, spec.providerPinned)
  }

  /** The request row and the attempt row of `n` such calls. */
  function RequestRow(n: u64, fine: bool): CounterRow {
    CounterRow(n, n, 0, if fine then n else 0, map[Lt100 := n], if fine then map[Lt100 := n] else map[])
  }

  function AttemptRow(n: u64): CounterRow {
    CounterRow(n, n, 0, 0, map[], map[])
  }

  function CallRows(n: u64, spec: Spec, host: Host, answer: Answer): seq<Entry> {
    [Entry(CallKey(RequestLevel, spec, host, answer), RequestRow(n, answer.Fine?)),
     Entry(CallKey(AttemptLevel, spec, host, answer), AttemptRow(n))]
  }

  /** The counters one call reports. */
  function CallCounters(spec: Spec, host: Host, answer: Answer): seq<Entry> {
    CallRows(1, spec, host, answer)
  }

  predicate Phaseless(answer: Answer) {
    answer.Fine? || PhaseForClass(answer.class_) == NoPhase
  }

  lemma {:induction false} ThreeOps(spec: Spec, a: Op, b: Op, c: Op)
    ensures ApplyAll(spec, NEW_CALL, [a, b, c]) == Apply(spec, Apply(spec, Apply(spec, NEW_CALL, a), b), c)
  {
    var c1 := Apply(spec, NEW_CALL, a);
    var c2 := Apply(spec, c1, b);
    assert [a, b, c][1..] == [b, c] && [b, c][1..] == [c] && [c][1..] == [];
    assert ApplyAll(spec, c2, [c]) == ApplyAll(spec, Apply(spec, c2, c), []);
    assert ApplyAll(spec, c1, [b, c]) == ApplyAll(spec, c2, [c]);
  }

  /** The record the recorder holds when the call finishes. */
  function Attempt(host: Host, answer: Answer): AttemptRecord {
    match answer
    case Fine => AttemptRecord(0, host, Ok, Some(200), None, None, RetryAbsent, None, 0, Some(0), None, false, NoPhase)
    case Failing(c) =>
      AttemptRecord(0, host, TransportError, None, Some(c), None, RetryAbsent, None, 0, None, None, false,
                    PhaseForClass(c))
  }

  lemma {:induction false} Recorded(spec: Spec, host: Host, answer: Answer)
    ensures var ops := CallOps(host, answer);
            var r := Apply(spec, Apply(spec, NEW_CALL, ops[0]), ops[1]).rec;
            && r.attempts == [Attempt(host, answer)] && !r.failoverUsed && r.ttftMs == None
            && r.firstStarted == Some(0) && !r.finished && r.emitted == []
  {
  }

  lemma {:induction false} OnlyClass(a: AttemptRecord)
    ensures FirstErrorClass([a]) == a.errorClass
  {
    assert [a][1..] == [];
    assert FirstErrorClass([]) == None;
  }

  /** A recordable call reports once, with these counters. */
  lemma {:induction false} OneReport(spec: Spec, host: Host, answer: Answer)
    requires spec.recordable && Phaseless(answer)
    ensures |Emitted(spec, host, answer)| == 1
    ensures Emitted(spec, host, answer)[0].counters == CallCounters(spec, host, answer)
  {
    var ops := CallOps(host, answer);
    ThreeOps(spec, ops[0], ops[1], ops[2]);
    Recorded(spec, host, answer);
    var r := Apply(spec, Apply(spec, NEW_CALL, ops[0]), ops[1]).rec;
    OnlyClass(Attempt(host, answer));
    assert AttemptEntries(spec, r.attempts) == [CallCounters(spec, host, answer)[1]];
    assert RequestEntry(spec, r, 0) == CallCounters(spec, host, answer)[0];
  }

  // ---- Many calls alike ----

  lemma {:induction false} RowsMerge(m: u64, fine: bool)
    requires m < U64_MAX
    ensures Merged(RequestRow(m, fine), RequestRow(1, fine)) == RequestRow(m + 1, fine)
    ensures Merged(AttemptRow(m), AttemptRow(1)) == AttemptRow(m + 1)
  {
    assert MergedHistogram(map[Lt100 := m], map[Lt100 := 1]) == map[Lt100 := m + 1];
    assert MergedHistogram(map[], map[]) == map[];
  }

  lemma {:induction false} RowsStart(fine: bool)
    ensures Merged(EMPTY_ROW, RequestRow(1, fine)) == RequestRow(1, fine)
    ensures Merged(EMPTY_ROW, AttemptRow(1)) == AttemptRow(1)
  {
    assert MergedHistogram(map[], map[Lt100 := 1]) == map[Lt100 := 1];
    assert MergedHistogram(map[], map[]) == map[];
  }

  lemma {:induction false} MergeAllConcat(rows: seq<Entry>, a: seq<Entry>, b: seq<Entry>)
    ensures MergeAll(rows, a + b) == MergeAll(MergeAll(rows, a), b)
    decreases |a|
  {
    if a == [] {
      assert a + b == b;
    } else {
      assert (a + b)[1..] == a[1..] + b;
      MergeAllConcat(MergeOne(rows, a[0]), a[1..], b);
    }
  }

  lemma {:induction false} MergeTwo(rows: seq<Entry>, a: Entry, b: Entry)
    ensures MergeAll(rows, [a, b]) == MergeOne(MergeOne(rows, a), b)
  {
    assert [a, b][1..] == [b] && [b][1..] == [];
    var rows' := MergeOne(rows, a);
    assert MergeAll(rows', [b]) == MergeAll(MergeOne(rows', b), []);
  }

  /** A key that is there keeps its place. */
  lemma {:induction false} KnownKeyMerges(rows: seq<Entry>, inc: Entry, i: nat)
    requires Unique(rows) && i < |rows| && rows[i].key == inc.key
    ensures MergeOne(rows, inc) == rows[i := Entry(inc.key, Merged(rows[i].row, inc.row))]
  {
    assert rows[i] in rows;
    assert Find(rows, inc.key) == i;
  }

  /** A key that is not is appended, while there is room. */
  lemma {:induction false} NewKeyAppends(rows: seq<Entry>, inc: Entry)
    requires |rows| < MAX_WINDOW_KEYS && forall i :: 0 <= i < |rows| ==> rows[i].key != inc.key
    ensures MergeOne(rows, inc) == rows + [Entry(inc.key, Merged(EMPTY_ROW, inc.row))]
  {
    assert Find(rows, inc.key) == |rows|;
  }

  lemma {:induction false} FirstCall(spec: Spec, host: Host, answer: Answer)
    ensures MergeAll([], CallCounters(spec, host, answer)) == CallRows(1, spec, host, answer)
  {
    var a, b := CallCounters(spec, host, answer)[0], CallCounters(spec, host, answer)[1];
    RowsStart(answer.Fine?);
    MergeTwo([], a, b);
    NewKeyAppends([], a);
    NewKeyAppends([a], b);
  }

  lemma {:induction false} AnotherCall(m: u64, spec: Spec, host: Host, answer: Answer)
    requires m < U64_MAX
    ensures MergeAll(CallRows(m, spec, host, answer), CallCounters(spec, host, answer)) == CallRows(m + 1, spec, host, answer)
  {
    var rows := CallRows(m, spec, host, answer);
    var a, b := CallCounters(spec, host, answer)[0], CallCounters(spec, host, answer)[1];
    RowsMerge(m, answer.Fine?);
    MergeTwo(rows, a, b);
    KnownKeyMerges(rows, a, 0);
    KnownKeyMerges(MergeOne(rows, a), b, 1);
  }

  lemma {:induction false} RequestsIn(n: u64, spec: Spec, host: Host, answer: Answer)
    ensures Total(CallRows(n, spec, host, answer), Everything, Requests) == 2 * n
  {
    var rows := CallRows(n, spec, host, answer);
    assert rows[1..][1..] == [];
    assert Total(rows[1..], Everything, Requests) == n + Total(rows[1..][1..], Everything, Requests);
  }
}
