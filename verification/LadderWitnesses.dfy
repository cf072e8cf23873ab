/** Calls that fill a minute's window and then show what folding gives up. */
module LadderWitnesses {
  import opened Basics
  import opened Vocabulary
  import opened Counters
  import opened FoldLadder
  import opened RecorderSpec
  import opened CallReports

  // ---- 128 kinds of failing calls, two keys each ----

  function EndpointAt(d: nat): Endpoint {
    match d % 8
    case 0 => ChatCompletions
    case 1 => Messages
    case 2 => Responses
    case 3 => Embeddings
    case 4 => Images
    case 5 => Videos
    case 6 => Models
    case _ => Fusion
  }

  function HostAt(d: nat): Host {
    match d % 4
    case 0 => Apex
    case 1 => Ally
    case 2 => Uptime
    case _ => UsCentral1
  }

  /** The digits of `j` choose endpoint, host, streaming and provider pin. */
  function SpecAt(j: nat): Spec {
    Spec(EndpointAt(j), true, j / 8 / 4 % 2 == 0, j / 8 / 4 / 2 % 2 == 0, None)
  }

  const CUT_OFF := Failing(Reset)

  function KeyAt(level: Level, j: nat): CounterKey {
    CallKey(level, SpecAt(j), HostAt(j / 8), CUT_OFF)
  }

  lemma {:induction false} KindsDistinct(level: Level, i: nat, level': Level, j: nat)
    requires i < 128 && j < 128 && KeyAt(level, i) == KeyAt(level', j)
    ensures level == level' && i == j
  {
    EndpointTells(i, j);
    HostTells(i / 8, j / 8);
    DigitsTell(i, j);
  }

  lemma {:induction false} EndpointTells(i: nat, j: nat)
    ensures EndpointAt(i) == EndpointAt(j) ==> i % 8 == j % 8
  {
  }

  lemma {:induction false} HostTells(i: nat, j: nat)
    ensures HostAt(i) == HostAt(j) ==> i % 4 == j % 4
  {
  }

  lemma {:induction false} DigitsTell(i: nat, j: nat)
    requires i < 128 && j < 128 && i % 8 == j % 8 && i / 8 % 4 == j / 8 % 4
    requires (i / 8 / 4 % 2 == 0) == (j / 8 / 4 % 2 == 0) && (i / 8 / 4 / 2 % 2 == 0) == (j / 8 / 4 / 2 % 2 == 0)
    ensures i == j
  {
    DigitsSpell(i);
    DigitsSpell(j);
  }

  lemma {:induction false} DigitsSpell(i: nat)
    requires i < 128
    ensures i == i % 8 + 8 * (i / 8 % 4) + 32 * (i / 8 / 4 % 2) + 64 * (i / 8 / 4 / 2 % 2)
  {
    var p := i / 8;
    var q := p / 4;
    assert q / 2 < 2 && q == 2 * (q / 2) + q % 2 && p == 4 * q + p % 4;
  }

  /** What call `j` reports. */
  function CallAt(j: nat): seq<Entry> {
    CallCounters(SpecAt(j), HostAt(j / 8), CUT_OFF)
  }

  /** Call 0 made `n` times, then calls `1 .. k - 1` once each. */
  function Calls(n: nat, k: nat): seq<Entry> {
    if k > 1 then Calls(n, k - 1) + CallAt(k - 1)
    else if n > 0 then Calls(n - 1, k) + CallAt(0)
    else []
  }

  function RowAt(n: u64, i: nat): Entry {
    var j, level := i / 2, if i % 2 == 0 then RequestLevel else AttemptLevel;
    var count := if j == 0 then n else 1;
    Entry(KeyAt(level, j), if i % 2 == 0 then RequestRow(count, false) else AttemptRow(count))
  }

  /** The window they leave. */
  function WindowOf(n: u64, k: nat): (rows: seq<Entry>)
    ensures |rows| == 2 * k
  {
    seq(2 * k, (i: nat) => RowAt(n, i))
  }

  lemma {:induction false} KeysDiffer(n: u64, i: nat, j: nat)
    requires i < 256 && j < 256 && RowAt(n, i).key == RowAt(n, j).key
    ensures i == j
  {
    var a, b := if i % 2 == 0 then RequestLevel else AttemptLevel, if j % 2 == 0 then RequestLevel else AttemptLevel;
    KindsDistinct(a, i / 2, b, j / 2);
  }

  lemma {:induction false} WindowIsUnique(n: u64, k: nat)
    requires k <= 128
    ensures Unique(WindowOf(n, k))
  {
    var rows := WindowOf(n, k);
    forall i, j | 0 <= i < j < |rows| ensures rows[i].key != rows[j].key {
      if rows[i].key == rows[j].key {
        KeysDiffer(n, i, j);
      }
    }
  }

  lemma {:induction false} SameCallAgain(n: u64)
    requires 0 < n
    ensures MergeAll([], Calls(n, 1)) == WindowOf(n, 1)
    decreases n
  {
    if n == 1 {
      assert Calls(1, 1) == Calls(0, 1) + CallAt(0) && Calls(0, 1) + CallAt(0) == CallAt(0);
      FirstCall(SpecAt(0), HostAt(0), CUT_OFF);
    } else {
      SameCallAgain(n - 1);
      MergeAllConcat([], Calls(n - 1, 1), CallAt(0));
      OneKind(n - 1);
      AnotherCall(n - 1, SpecAt(0), HostAt(0), CUT_OFF);
    }
    OneKind(n);
  }

  lemma {:induction false} OneKind(n: u64)
    ensures WindowOf(n, 1) == CallRows(n, SpecAt(0), HostAt(0), CUT_OFF)
  {
    assert RowAt(n, 0) == CallRows(n, SpecAt(0), HostAt(0), CUT_OFF)[0];
    assert RowAt(n, 1) == CallRows(n, SpecAt(0), HostAt(0), CUT_OFF)[1];
  }

  lemma {:induction false} TwoAppended(rows: seq<Entry>, a: Entry, b: Entry)
    requires |rows| + 2 <= MAX_WINDOW_KEYS && a.key != b.key
    requires forall i :: 0 <= i < |rows| ==> rows[i].key != a.key && rows[i].key != b.key
    requires Merged(EMPTY_ROW, a.row) == a.row && Merged(EMPTY_ROW, b.row) == b.row
    ensures MergeAll(rows, [a, b]) == rows + [a] + [b]
  {
    MergeTwo(rows, a, b);
    NewKeyAppends(rows, a);
    NewKeyAppends(rows + [a], b);
  }

  lemma {:induction false} NewRows(n: u64, k: nat)
    requires 0 < k < 128
    ensures var a, b := RowAt(n, 2 * k), RowAt(n, 2 * k + 1);
            && a.key != b.key && Merged(EMPTY_ROW, a.row) == a.row && Merged(EMPTY_ROW, b.row) == b.row
  {
    RowsStart(false);
  }

  lemma {:induction false} OneKindMore(n: u64, k: nat)
    requires 0 < k < 128
    ensures MergeAll(WindowOf(n, k), CallAt(k)) == WindowOf(n, k + 1)
  {
    var rows := WindowOf(n, k);
    CallIsRows(n, k);
    NewRows(n, k);
    NewHere(n, rows, 2 * k);
    NewHere(n, rows, 2 * k + 1);
    TwoAppended(rows, RowAt(n, 2 * k), RowAt(n, 2 * k + 1));
    WindowGrows(n, k);
  }

  lemma {:induction false} CallIsRows(n: u64, k: nat)
    requires 0 < k
    ensures CallAt(k) == [RowAt(n, 2 * k), RowAt(n, 2 * k + 1)]
  {
    assert 2 * k / 2 == k && (2 * k + 1) / 2 == k;
  }

  lemma {:induction false} WindowGrows(n: u64, k: nat)
    ensures WindowOf(n, k) + [RowAt(n, 2 * k)] + [RowAt(n, 2 * k + 1)] == WindowOf(n, k + 1)
  {
  }

  lemma {:induction false} NewHere(n: u64, rows: seq<Entry>, i: nat)
    requires |rows| <= i < 256 && forall j :: 0 <= j < |rows| ==> rows[j] == RowAt(n, j)
    ensures forall j :: 0 <= j < |rows| ==> rows[j].key != RowAt(n, i).key
  {
    forall j | 0 <= j < |rows| ensures rows[j].key != RowAt(n, i).key {
      assert rows[j] == RowAt(n, j);
      if RowAt(n, j).key == RowAt(n, i).key {
        KeysDiffer(n, j, i);
      }
    }
  }

  lemma {:induction false} CallsFill(n: u64, k: nat)
    requires 0 < n && 0 < k <= 128
    ensures MergeAll([], Calls(n, k)) == WindowOf(n, k)
    decreases k
  {
    if k == 1 {
      SameCallAgain(n);
    } else {
      CallsFill(n, k - 1);
      MergeAllConcat([], Calls(n, k - 1), CallAt(k - 1));
      OneKindMore(n, k - 1);
    }
  }

  // ---- A full window ----

  /** A full window of these keys whose first two rows count `n` each. */
  predicate Full(rows: seq<Entry>, n: u64) {
    && ValidWindow(rows) && |rows| == MAX_WINDOW_KEYS
    && forall i :: 0 <= i < |rows| ==> rows[i] == RowAt(n, i)
  }

  lemma {:induction false} FillsUp(n: u64)
    requires 0 < n
    ensures Full(MergeAll([], Calls(n, 128)), n)
  {
    CallsFill(n, 128);
    WindowIsUnique(n, 128);
  }

  lemma {:induction false} FirstRows(n: u64)
    ensures RowAt(n, 0) == Entry(KeyAt(RequestLevel, 0), RequestRow(n, false))
    ensures RowAt(n, 1) == Entry(KeyAt(AttemptLevel, 0), AttemptRow(n))
  {
  }

  // ---- Folding loses counts ----

  const LOOKUP_FAILED := Failing(Dns)

  /** Call 0 once more, failing in another way. */
  function FailedLookup(): seq<Entry> {
    CallCounters(SpecAt(0), HostAt(0), LOOKUP_FAILED)
  }

  /** No row of the window has this key or its folded form, and its first row differs
      from it in the error class alone. */
  predicate FoldsFirst(rows: seq<Entry>, key: CounterKey) {
    && |rows| == MAX_WINDOW_KEYS && !HasKey(rows, key) && !HasKey(rows, FoldedKey(key, false))
    && SameButErrorClass(rows[0].key, key)
  }

  lemma {:induction false} FoldLosesExcess(rows: seq<Entry>, inc: Entry, n: u64)
    requires ValidWindow(rows) && FoldsFirst(rows, inc.key) && inc.row.requests == 1
    requires rows[0].row.requests == n > MAX_COUNT
    ensures Choose(rows, inc.key) == Refold(0, false)
    ensures Loss(rows, inc, Choose(rows, inc.key), Requests) == n - MAX_COUNT
    ensures MergeOne(rows, inc)
            == rows[1..] + [Entry(FoldedKey(rows[0].key, false), Merged(Merged(EMPTY_ROW, rows[0].row), inc.row))]
  {
    assert FirstIndex(rows, (e: Entry) => SameButErrorClass(e.key, inc.key)) == 0;
    RefoldedValid(rows, 0, false);
    assert RemoveAt(rows, 0) == rows[1..];
  }

  lemma {:induction false} FirstFolds(rows: seq<Entry>, n: u64)
    requires Full(rows, n)
    ensures FoldsFirst(rows, FailedLookup()[0].key)
  {
    var key := FailedLookup()[0].key;
    forall e | e in rows ensures e.key != key && e.key != FoldedKey(key, false) {
      var i :| 0 <= i < |rows| && rows[i] == e;
      assert e.key.errorClass == Some(Reset);
    }
    assert rows[0] == RowAt(n, 0);
  }

  lemma {:induction false} ThenSecondFolds(rows: seq<Entry>, n: u64, folded: Entry)
    requires Full(rows, n) && folded.key == FoldedKey(KeyAt(RequestLevel, 0), false)
    ensures FoldsFirst(rows[1..] + [folded], FailedLookup()[1].key)
    ensures (rows[1..] + [folded])[0] == RowAt(n, 1)
  {
    var rows', key := rows[1..] + [folded], FailedLookup()[1].key;
    forall e | e in rows' ensures e.key != key && e.key != FoldedKey(key, false) {
      if e != folded {
        var i :| 0 <= i < |rows'| && rows'[i] == e;
        assert e == rows[i + 1] == RowAt(n, i + 1);
        assert e.key.errorClass == Some(Reset);
      }
    }
    assert rows'[0] == rows[1] == RowAt(n, 1);
  }

  lemma {:induction false} FullFolds(rows: seq<Entry>, n: u64)
    requires Full(rows, n) && n > MAX_COUNT
    ensures LossAll(rows, FailedLookup(), Requests) == 2 * (n - MAX_COUNT)
  {
    var a, b := FailedLookup()[0], FailedLookup()[1];
    FirstRows(n);
    FirstFolds(rows, n);
    assert rows[0] == RowAt(n, 0);
    FoldLosesExcess(rows, a, n);
    MergeOneExactly(rows, a, Everything, Requests);
    var rows' := MergeOne(rows, a);
    ThenSecondFolds(rows, n, rows'[|rows'| - 1]);
    FoldLosesExcess(rows', b, n);
    LossOfTwo(rows, a, b);
  }

  lemma {:induction false} LossOfTwo(rows: seq<Entry>, a: Entry, b: Entry)
    ensures var rows' := MergeOne(rows, a);
            LossAll(rows, [a, b], Requests)
            == Loss(rows, a, Choose(rows, a.key), Requests) + Loss(rows', b, Choose(rows', b.key), Requests)
  {
    var rows' := MergeOne(rows, a);
    assert [a, b][1..] == [b] && [b][1..] == [];
    assert LossAll(rows', [b], Requests)
           == Loss(rows', b, Choose(rows', b.key), Requests) + LossAll(MergeOne(rows', b), [], Requests);
  }

  /** "Counts stay exact", refuted: when one kind of call has failed more than ten
      million times in a minute and the window is full, one call more of that kind
      failing in another way folds both its rows, and takes away from each what it
      had over ten million. */
  lemma {:induction false} FoldingCanLoseCounts(n: u64)
    requires n > MAX_COUNT
    ensures var before, after := MergeAll([], Calls(n, 128)), MergeAll([], Calls(n, 128) + FailedLookup());
            Total(after, Everything, Requests) == Total(before, Everything, Requests) + 2 - 2 * (n - MAX_COUNT)
  {
    var before := MergeAll([], Calls(n, 128));
    FillsUp(n);
    MergeAllConcat([], Calls(n, 128), FailedLookup());
    FullFolds(before, n);
    MergeAllExactly(before, FailedLookup(), Requests);
    RequestsIn(1, SpecAt(0), HostAt(0), LOOKUP_FAILED);
  }

  // ---- The last rung crosses levels ----

  /** Call 0 succeeding. */
  function Succeeds(): seq<Entry> {
    CallCounters(SpecAt(0), HostAt(0), Fine)
  }

  lemma {:induction false} LastRungTakes(rows: seq<Entry>, inc: Entry, s: Scope)
    requires ValidWindow(rows) && |rows| == MAX_WINDOW_KEYS && inc.row.requests == 1
    requires forall e :: e in rows ==> e.key.outcome == TransportError
    requires inc.key.outcome == Ok && rows[0].row.requests < MAX_COUNT
    ensures var rows' := MergeOne(rows, inc);
            && ValidWindow(rows') && |rows'| == |rows|
            && rows' == rows[0 := Entry(rows[0].key, Merged(rows[0].row, inc.row))]
            && Total(rows', s, Requests)
               == Total(rows, s, Requests) + if s.Everything? || s.coarse == CoarseOf(rows[0].key) then 1 else 0
  {
    LastResortExactly(rows, inc.key);
    assert Choose(rows, inc.key).LastResort?;
    assert rows[0] in rows && Find(rows, rows[0].key) == 0;
    MergeOneExactly(rows, inc, s, Requests);
  }

  lemma {:induction false} FullCrosses(rows: seq<Entry>, s: Scope)
    requires Full(rows, 1)
    ensures Total(MergeAll(rows, Succeeds()), s, Requests)
            == Total(rows, s, Requests) + if s.Everything? || s.coarse == CoarseOf(KeyAt(RequestLevel, 0)) then 2 else 0
  {
    var a, b := Succeeds()[0], Succeeds()[1];
    forall e | e in rows ensures e.key.outcome == TransportError {
      var i :| 0 <= i < |rows| && rows[i] == e;
      assert e == RowAt(1, i);
    }
    FirstRows(1);
    assert rows[0] == RowAt(1, 0);
    LastRungTakes(rows, a, s);
    var rows' := MergeOne(rows, a);
    MergedField(rows[0].row, a.row, Requests);
    assert forall e :: e in rows' ==> e == rows'[0] || e in rows;
    LastRungTakes(rows', b, s);
    MergeTwo(rows, a, b);
  }

  /** In a window filled by 128 kinds of failing calls, a call that succeeds is filed
      under a failing request: its attempt row crosses into the request level, whose
      class gains both rows, and its own class gains nothing. */
  lemma {:induction false} LastRungCrossesLevels()
    ensures var before, after := MergeAll([], Calls(1, 128)), MergeAll([], Calls(1, 128) + Succeeds());
            var own, other := Class(CoarseOf(Succeeds()[1].key)), Class(CoarseOf(KeyAt(RequestLevel, 0)));
            && Succeeds()[1].key.level == AttemptLevel
            && Total(after, own, Requests) == Total(before, own, Requests)
            && Total(after, other, Requests) == Total(before, other, Requests) + 2
  {
    FillsUp(1);
    MergeAllConcat([], Calls(1, 128), Succeeds());
    FullCrosses(MergeAll([], Calls(1, 128)), Class(CoarseOf(Succeeds()[1].key)));
    FullCrosses(MergeAll([], Calls(1, 128)), Class(CoarseOf(KeyAt(RequestLevel, 0))));
  }

  /** All of these are counters a recorder hands over. */
  lemma {:induction false} TheseAreReports(j: nat)
    ensures |Emitted(SpecAt(j), HostAt(j / 8), CUT_OFF)| == 1
    ensures Emitted(SpecAt(j), HostAt(j / 8), CUT_OFF)[0].counters == CallAt(j)
    ensures |Emitted(SpecAt(0), HostAt(0), LOOKUP_FAILED)| == |Emitted(SpecAt(0), HostAt(0), Fine)| == 1
    ensures Emitted(SpecAt(0), HostAt(0), LOOKUP_FAILED)[0].counters == FailedLookup()
    ensures Emitted(SpecAt(0), HostAt(0), Fine)[0].counters == Succeeds()
  {
    OneReport(SpecAt(j), HostAt(j / 8), CUT_OFF);
    OneReport(SpecAt(0), HostAt(0), LOOKUP_FAILED);
    OneReport(SpecAt(0), HostAt(0), Fine);
  }
}
