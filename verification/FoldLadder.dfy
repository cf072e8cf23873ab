/** The 256-key fold ladder of one open minute window.

    `rows` is the insertion-ordered window. A new key past the cap is folded into
    a coarser existing row; the theorems below say exactly what folding keeps. */
module FoldLadder {
  import opened Basics
  import opened Vocabulary
  import opened Counters

  const MAX_WINDOW_KEYS: nat := 256

  datatype Entry = Entry(key: CounterKey, row: CounterRow)

  /** The eight key fields no regular fold step touches. */
  datatype Coarse = Coarse(
    level: Level,
    streaming: bool,
    host: Host,
    outcome: AttemptOutcome,
    httpStatusClass: HttpStatusClass,
    timeoutPhase: TimeoutPhase,
    timeoutFloorMet: bool,
    providerPinned: bool)

  function CoarseOf(k: CounterKey): Coarse {
    Coarse(k.level, k.streaming, k.host, k.outcome, k.httpStatusClass, k.timeoutPhase,
           k.timeoutFloorMet, k.providerPinned)
  }

  function FoldedKey(key: CounterKey, endpoint: bool): CounterKey {
    key.(endpoint := if endpoint then InferenceOther else key.endpoint,
         errorClass := Some(Unknown))
  }

  predicate SameButErrorClass(a: CounterKey, b: CounterKey) {
    a.endpoint == b.endpoint && CoarseOf(a) == CoarseOf(b)
  }

  predicate SameButErrorClassAndEndpoint(a: CounterKey, b: CounterKey) {
    CoarseOf(a) == CoarseOf(b)
  }

  function Find(rows: seq<Entry>, key: CounterKey): (i: nat)
    ensures i <= |rows|
    ensures i < |rows| <==> HasKey(rows, key)
    ensures i < |rows| ==> rows[i].key == key
  {
    FirstIndex(rows, (e: Entry) => e.key == key)
  }

  predicate HasKey(rows: seq<Entry>, key: CounterKey) {
    exists e :: e in rows && e.key == key
  }

  predicate Unique(rows: seq<Entry>) {
    forall i, j :: 0 <= i < j < |rows| ==> rows[i].key != rows[j].key
  }

  predicate ValidWindow(rows: seq<Entry>) {
    Unique(rows) && |rows| <= MAX_WINDOW_KEYS
  }

  /** Row `position` re-keyed to its folded key and re-merged at the back. */
  function Refolded(rows: seq<Entry>, position: nat, endpoint: bool): seq<Entry>
    requires position < |rows|
  {
    RemoveAt(rows, position)
    + [Entry(FoldedKey(rows[position].key, endpoint), Merged(EMPTY_ROW, rows[position].row))]
  }

  /** What the ladder decides for a key. */
  datatype Rung =
    | Direct                              // the key itself: present, or under the cap
    | Existing(target: CounterKey)        // an already folded key
    | Refold(position: nat, endpoint: bool)
    | LastResort                          // the first row, whatever its key

  function Choose(rows: seq<Entry>, key: CounterKey): (r: Rung)
    ensures Legal(rows, key, r)
  {
    if HasKey(rows, key) || |rows| < MAX_WINDOW_KEYS then Direct
    else if HasKey(rows, FoldedKey(key, false)) then Existing(FoldedKey(key, false))
    else
      var p := FirstIndex(rows, (e: Entry) => SameButErrorClass(e.key, key));
      if p < |rows| then Refold(p, false)
      else if HasKey(rows, FoldedKey(key, true)) then Existing(FoldedKey(key, true))
      else
        var q := FirstIndex(rows, (e: Entry) => SameButErrorClassAndEndpoint(e.key, key));
        if q < |rows| then Refold(q, true) else LastResort
  }

  /** What a rung must satisfy to be a legal choice for `key`. */
  predicate Legal(rows: seq<Entry>, key: CounterKey, r: Rung) {
    match r
    case Direct => HasKey(rows, key) || |rows| < MAX_WINDOW_KEYS
    case Existing(target) => HasKey(rows, target) && CoarseOf(target) == CoarseOf(key)
    case Refold(p, endpoint) =>
      p < |rows| && CoarseOf(rows[p].key) == CoarseOf(key) && !HasKey(rows, FoldedKey(rows[p].key, endpoint))
    case LastResort => rows != []
  }

  /** The rows after a possible refold. */
  function Prepared(rows: seq<Entry>, r: Rung): seq<Entry>
    requires r.Refold? ==> r.position < |rows|
  {
    if r.Refold? then Refolded(rows, r.position, r.endpoint) else rows
  }

  /** The key the increment goes to. */
  function Target(rows: seq<Entry>, key: CounterKey, r: Rung): CounterKey
    requires r.Refold? ==> r.position < |rows|
    requires r.LastResort? ==> rows != []
  {
    match r
    case Direct => key
    case Existing(target) => target
    case Refold(p, endpoint) => FoldedKey(rows[p].key, endpoint)
    case LastResort => rows[0].key
  }

  function AddTo(rows: seq<Entry>, key: CounterKey, increment: CounterRow): seq<Entry> {
    var i := Find(rows, key);
    if i < |rows| then rows[i := Entry(key, Merged(rows[i].row, increment))]
    else rows + [Entry(key, Merged(EMPTY_ROW, increment))]
  }

  function MergeOne(rows: seq<Entry>, inc: Entry): seq<Entry> {
    var r := Choose(rows, inc.key);
    AddTo(Prepared(rows, r), Target(rows, inc.key, r), inc.row)
  }

  function MergeAll(rows: seq<Entry>, incs: seq<Entry>): seq<Entry>
    decreases |incs|
  {
    if incs == [] then rows else MergeAll(MergeOne(rows, incs[0]), incs[1..])
  }

  // ---- Totals ----

  /** Which rows a total ranges over: all of them, or one coarse class. */
  datatype Scope = Everything | Class(coarse: Coarse)

  predicate InScope(s: Scope, key: CounterKey) {
    s.Everything? || s.coarse == CoarseOf(key)
  }

  function Part(e: Entry, s: Scope, f: Field): nat {
    if InScope(s, e.key) then Get(e.row, f) else 0
  }

  function Total(rows: seq<Entry>, s: Scope, f: Field): nat {
    if rows == [] then 0 else Part(rows[0], s, f) + Total(rows[1..], s, f)
  }

  lemma {:induction false} TotalConcat(a: seq<Entry>, b: seq<Entry>, s: Scope, f: Field)
    ensures Total(a + b, s, f) == Total(a, s, f) + Total(b, s, f)
  {
    if a == [] {
      assert a + b == b;
    } else {
      assert (a + b)[1..] == a[1..] + b;
      TotalConcat(a[1..], b, s, f);
    }
  }

  lemma {:induction false} TotalSplit(rows: seq<Entry>, i: nat, s: Scope, f: Field)
    requires i < |rows|
    ensures Total(rows, s, f) == Total(rows[..i], s, f) + Part(rows[i], s, f) + Total(rows[i + 1..], s, f)
  {
    assert rows == rows[..i] + ([rows[i]] + rows[i + 1..]);
    TotalConcat(rows[..i], [rows[i]] + rows[i + 1..], s, f);
    TotalConcat([rows[i]], rows[i + 1..], s, f);
  }

  lemma {:induction false} TotalUpdate(rows: seq<Entry>, i: nat, e: Entry, s: Scope, f: Field)
    requires i < |rows|
    ensures Total(rows[i := e], s, f) == Total(rows, s, f) - Part(rows[i], s, f) + Part(e, s, f)
  {
    TotalSplit(rows, i, s, f);
    TotalSplit(rows[i := e], i, s, f);
    assert rows[i := e][..i] == rows[..i];
    assert rows[i := e][i + 1..] == rows[i + 1..];
  }

  // ---- What one merge can lose ----

  function Excess(x: int, bound: int): nat {
    Max(x - bound, 0)
  }

  /** The amount of field `f` one merge does not carry over: the clamp of the
      increment, the clamp of a refolded row, and 64-bit saturation. */
  function Loss(rows: seq<Entry>, inc: Entry, r: Rung, f: Field): nat
    requires Legal(rows, inc.key, r)
  {
    var x := Get(inc.row, f);
    Excess(x, MAX_COUNT) +
    if r.Refold? then Excess(Get(rows[r.position].row, f), MAX_COUNT)
    else
      var i := Find(rows, Target(rows, inc.key, r));
      if i < |rows| then Excess(Get(rows[i].row, f) + Bounded(x), U64_MAX) else 0
  }

  /** A condition on the window and the increment, checkable before the merge. */
  predicate Exact(rows: seq<Entry>, inc: Entry, r: Rung, f: Field)
    requires Legal(rows, inc.key, r)
  {
    && Get(inc.row, f) <= MAX_COUNT
    && (r.Refold? ==> Get(rows[r.position].row, f) <= MAX_COUNT)
    && (!r.Refold? ==>
          var i := Find(rows, Target(rows, inc.key, r));
          i < |rows| ==> Get(rows[i].row, f) + Get(inc.row, f) <= U64_MAX)
  }

  /** The last rung fires exactly when a full window holds no row of the key's
      coarse class. */
  lemma {:induction false} LastResortExactly(rows: seq<Entry>, key: CounterKey)
    ensures Choose(rows, key).LastResort?
            <==> |rows| >= 256 && forall e :: e in rows ==> CoarseOf(e.key) != CoarseOf(key)
  {
    if Choose(rows, key).LastResort? {
      forall e | e in rows ensures CoarseOf(e.key) != CoarseOf(key) {
        var j :| 0 <= j < |rows| && rows[j] == e;
      }
    }
  }

  /** Where the increment is accounted: its own class, or the first row's. */
  function Landing(rows: seq<Entry>, key: CounterKey, r: Rung): Coarse
    requires r.LastResort? ==> rows != []
  {
    if r.LastResort? then CoarseOf(rows[0].key) else CoarseOf(key)
  }

  lemma {:induction false} RefoldedValid(rows: seq<Entry>, p: nat, endpoint: bool)
    requires ValidWindow(rows) && p < |rows|
    requires !HasKey(rows, FoldedKey(rows[p].key, endpoint))
    ensures var rows' := Refolded(rows, p, endpoint);
            && ValidWindow(rows')
            && Find(rows', FoldedKey(rows[p].key, endpoint)) == |rows'| - 1
  {
    var target := FoldedKey(rows[p].key, endpoint);
    var rows' := Refolded(rows, p, endpoint);
    var n := |rows'| - 1;
    forall i | 0 <= i < n
      ensures rows'[i] == rows[if i < p then i else i + 1] && rows'[i].key != target
    {
      assert rows[if i < p then i else i + 1] in rows;
    }
    assert rows'[n] in rows' && rows'[n].key == target;
  }

  lemma {:induction false} PreparedValid(rows: seq<Entry>, key: CounterKey, r: Rung)
    requires ValidWindow(rows) && Legal(rows, key, r)
    ensures var rows' := Prepared(rows, r);
            var target := Target(rows, key, r);
            && ValidWindow(rows')
            && CoarseOf(target) == Landing(rows, key, r)
            && (HasKey(rows', target) || |rows'| < MAX_WINDOW_KEYS)
            && (r.Refold? ==> Find(rows', target) == |rows'| - 1)
  {
    match r {
      case Refold(p, endpoint) => RefoldedValid(rows, p, endpoint);
      case LastResort => assert rows[0] in rows;
      case _ =>
    }
  }

  lemma {:induction false} AddToValid(rows: seq<Entry>, key: CounterKey, increment: CounterRow)
    requires ValidWindow(rows)
    requires HasKey(rows, key) || |rows| < MAX_WINDOW_KEYS
    ensures ValidWindow(AddTo(rows, key, increment))
  {
    if !HasKey(rows, key) {
      assert forall i :: 0 <= i < |rows| ==> rows[i] in rows;
    }
  }

  lemma {:induction false} AddToTotal(rows: seq<Entry>, key: CounterKey, increment: CounterRow, s: Scope, f: Field)
    ensures var i := Find(rows, key);
            var before := if i < |rows| then Get(rows[i].row, f) else 0;
            Total(AddTo(rows, key, increment), s, f)
            == Total(rows, s, f) + if InScope(s, key) then Kept(before, Get(increment, f)) else 0
  {
    var i := Find(rows, key);
    if i < |rows| {
      var e := Entry(key, Merged(rows[i].row, increment));
      TotalUpdate(rows, i, e, s, f);
      MergedField(rows[i].row, increment, f);
    } else {
      var e := Entry(key, Merged(EMPTY_ROW, increment));
      TotalConcat(rows, [e], s, f);
      MergedField(EMPTY_ROW, increment, f);
      assert Total([e], s, f) == Part(e, s, f);
    }
  }

  lemma {:induction false} RefoldTotal(rows: seq<Entry>, p: nat, endpoint: bool, s: Scope, f: Field)
    requires p < |rows|
    ensures Total(Refolded(rows, p, endpoint), s, f) +
            (if InScope(s, rows[p].key) then Excess(Get(rows[p].row, f), MAX_COUNT) else 0)
            == Total(rows, s, f)
  {
    var e := Entry(FoldedKey(rows[p].key, endpoint), Merged(EMPTY_ROW, rows[p].row));
    TotalSplit(rows, p, s, f);
    TotalConcat(RemoveAt(rows, p), [e], s, f);
    TotalConcat(rows[..p], rows[p + 1..], s, f);
    MergedField(EMPTY_ROW, rows[p].row, f);
    assert Total([e], s, f) == Part(e, s, f);
  }

  /** How much of an increment a row holding `before` takes up. */
  function Kept(before: u64, increment: u64): nat {
    SatAdd(before, Bounded(increment)) - before
  }

  lemma {:induction false} KeptAmount(before: u64, increment: u64)
    ensures Kept(before, increment) + Excess(before + Bounded(increment), U64_MAX) + Excess(increment, MAX_COUNT)
            == increment
    ensures before <= MAX_COUNT ==> Kept(before, increment) + Excess(increment, MAX_COUNT) == increment
  {
  }

  /** What the target row of the prepared window held for `f`. */
  function Before(rows: seq<Entry>, key: CounterKey, r: Rung, f: Field): u64
    requires Legal(rows, key, r)
  {
    var rows' := Prepared(rows, r);
    var i := Find(rows', Target(rows, key, r));
    if i < |rows'| then Get(rows'[i].row, f) else 0
  }

  lemma {:induction false} RefoldBefore(rows: seq<Entry>, key: CounterKey, r: Rung, f: Field)
    requires ValidWindow(rows) && Legal(rows, key, r) && r.Refold?
    ensures Before(rows, key, r, f) <= MAX_COUNT
  {
    RefoldedValid(rows, r.position, r.endpoint);
    MergedField(EMPTY_ROW, rows[r.position].row, f);
  }

  lemma {:induction false} PlainLoss(rows: seq<Entry>, inc: Entry, r: Rung, f: Field)
    requires Legal(rows, inc.key, r) && !r.Refold?
    ensures var x := Get(inc.row, f);
            Loss(rows, inc, r, f)
            == Excess(x, MAX_COUNT) + Excess(Before(rows, inc.key, r, f) + Bounded(x), U64_MAX)
  {
  }

  lemma {:induction false} KeptOrLost(rows: seq<Entry>, inc: Entry, r: Rung, f: Field)
    requires ValidWindow(rows) && Legal(rows, inc.key, r)
    ensures Kept(Before(rows, inc.key, r, f), Get(inc.row, f)) + Loss(rows, inc, r, f)
            == Get(inc.row, f) + if r.Refold? then Excess(Get(rows[r.position].row, f), MAX_COUNT) else 0
  {
    KeptAmount(Before(rows, inc.key, r, f), Get(inc.row, f));
    if r.Refold? {
      RefoldBefore(rows, inc.key, r, f);
    } else {
      PlainLoss(rows, inc, r, f);
    }
  }

  lemma {:induction false} PreparedTotal(rows: seq<Entry>, inc: Entry, r: Rung, s: Scope, f: Field)
    requires ValidWindow(rows) && Legal(rows, inc.key, r)
    ensures Total(Prepared(rows, r), s, f) +
            (if r.Refold? && InScope(s, inc.key) then Excess(Get(rows[r.position].row, f), MAX_COUNT) else 0)
            == Total(rows, s, f)
  {
    if r.Refold? {
      RefoldTotal(rows, r.position, r.endpoint, s, f);
    }
  }

  lemma {:induction false} MergeAtExactly(rows: seq<Entry>, inc: Entry, r: Rung, s: Scope, f: Field)
    requires ValidWindow(rows) && Legal(rows, inc.key, r)
    ensures var rows' := AddTo(Prepared(rows, r), Target(rows, inc.key, r), inc.row);
            var landed := s.Everything? || s.coarse == Landing(rows, inc.key, r);
            && ValidWindow(rows')
            && Total(rows', s, f) + (if landed then Loss(rows, inc, r, f) else 0)
               == Total(rows, s, f) + if landed then Get(inc.row, f) else 0
  {
    var rows' := Prepared(rows, r);
    var target := Target(rows, inc.key, r);
    PreparedValid(rows, inc.key, r);
    AddToValid(rows', target, inc.row);
    AddToTotal(rows', target, inc.row, s, f);
    PreparedTotal(rows, inc, r, s, f);
    KeptOrLost(rows, inc, r, f);
    assert InScope(s, target) <==> s.Everything? || s.coarse == Landing(rows, inc.key, r);
  }

  /** One merge, exactly: for every field and for every scope the total rises by
      the increment less `Loss`, in the class the increment landed in and in no
      other; keys stay unique and within the cap. */
  lemma {:induction false} MergeOneExactly(rows: seq<Entry>, inc: Entry, s: Scope, f: Field)
    requires ValidWindow(rows)
    ensures ValidWindow(MergeOne(rows, inc))
    ensures var r := Choose(rows, inc.key);
            var landed := s.Everything? || s.coarse == Landing(rows, inc.key, r);
            Total(MergeOne(rows, inc), s, f) + (if landed then Loss(rows, inc, r, f) else 0)
            == Total(rows, s, f) + if landed then Get(inc.row, f) else 0
  {
    MergeAtExactly(rows, inc, Choose(rows, inc.key), s, f);
  }

  lemma {:induction false} LosslessIffExact(rows: seq<Entry>, inc: Entry, r: Rung, f: Field)
    requires Legal(rows, inc.key, r)
    ensures Loss(rows, inc, r, f) == 0 <==> Exact(rows, inc, r, f)
  {
  }

  // ---- Whole windows ----

  function Increments(incs: seq<Entry>, f: Field): nat {
    Total(incs, Everything, f)
  }

  function LossAll(rows: seq<Entry>, incs: seq<Entry>, f: Field): nat
    decreases |incs|
  {
    if incs == [] then 0
    else Loss(rows, incs[0], Choose(rows, incs[0].key), f) + LossAll(MergeOne(rows, incs[0]), incs[1..], f)
  }

  predicate ExactAll(rows: seq<Entry>, incs: seq<Entry>, f: Field)
    decreases |incs|
  {
    incs == [] || (Exact(rows, incs[0], Choose(rows, incs[0].key), f) && ExactAll(MergeOne(rows, incs[0]), incs[1..], f))
  }

  /** Any sequence of increments: the window stays valid and every field's grand
      total accounts for every increment; nothing is lost iff every merge met the
      `Exact` guard. */
  lemma {:induction false} MergeAllExactly(rows: seq<Entry>, incs: seq<Entry>, f: Field)
    requires ValidWindow(rows)
    ensures ValidWindow(MergeAll(rows, incs)) && |MergeAll(rows, incs)| <= 256
    ensures Total(MergeAll(rows, incs), Everything, f) + LossAll(rows, incs, f)
            == Total(rows, Everything, f) + Increments(incs, f)
    ensures LossAll(rows, incs, f) == 0 <==> ExactAll(rows, incs, f)
    decreases |incs|
  {
    if incs != [] {
      MergeOneExactly(rows, incs[0], Everything, f);
      LosslessIffExact(rows, incs[0], Choose(rows, incs[0].key), f);
      MergeAllExactly(MergeOne(rows, incs[0]), incs[1..], f);
    }
  }

  lemma {:induction false} RowWithinTotal(rows: seq<Entry>, i: nat, f: Field)
    requires i < |rows|
    ensures Get(rows[i].row, f) <= Total(rows, Everything, f)
  {
    TotalSplit(rows, i, Everything, f);
  }

  lemma {:induction false} RoomForOne(rows: seq<Entry>, inc: Entry, r: Rung, f: Field)
    requires Legal(rows, inc.key, r)
    requires Total(rows, Everything, f) + Get(inc.row, f) <= MAX_COUNT
    ensures Exact(rows, inc, r, f)
  {
    if r.Refold? {
      RowWithinTotal(rows, r.position, f);
    } else {
      var i := Find(rows, Target(rows, inc.key, r));
      if i < |rows| {
        RowWithinTotal(rows, i, f);
      }
    }
  }

  /** Ten million counts in the window are enough room: below that, folding only
      makes counts coarser. */
  lemma {:induction false} ExactWithinMaxCount(rows: seq<Entry>, incs: seq<Entry>, f: Field)
    requires ValidWindow(rows)
    requires Total(rows, Everything, f) + Increments(incs, f) <= 10_000_000
    ensures ExactAll(rows, incs, f)
    ensures Total(MergeAll(rows, incs), Everything, f)
            == Total(rows, Everything, f) + Increments(incs, f)
    decreases |incs|
  {
    if incs != [] {
      RoomForOne(rows, incs[0], Choose(rows, incs[0].key), f);
      LosslessIffExact(rows, incs[0], Choose(rows, incs[0].key), f);
      MergeOneExactly(rows, incs[0], Everything, f);
      ExactWithinMaxCount(MergeOne(rows, incs[0]), incs[1..], f);
    }
    MergeAllExactly(rows, incs, f);
  }

  /** No merge of the sequence reaches the last rung. */
  predicate NeverLastResort(rows: seq<Entry>, incs: seq<Entry>)
    decreases |incs|
  {
    incs == [] || (!Choose(rows, incs[0].key).LastResort?
                   && NeverLastResort(MergeOne(rows, incs[0]), incs[1..]))
  }

  /** Unless the last rung fires, folding keeps the total of every coarse class. */
  lemma {:induction false} ClassTotalsKept(rows: seq<Entry>, incs: seq<Entry>, c: Coarse, f: Field)
    requires ValidWindow(rows)
    requires ExactAll(rows, incs, f) && NeverLastResort(rows, incs)
    ensures Total(MergeAll(rows, incs), Class(c), f)
            == Total(rows, Class(c), f) + Total(incs, Class(c), f)
    decreases |incs|
  {
    if incs != [] {
      MergeOneExactly(rows, incs[0], Class(c), f);
      LosslessIffExact(rows, incs[0], Choose(rows, incs[0].key), f);
      ClassTotalsKept(MergeOne(rows, incs[0]), incs[1..], c, f);
    }
  }

  /** For a single non-zero increment the converse holds too: its class gains it
      iff the merge is exact and the last rung does not fire. */
  lemma {:induction false} ClassGainsIff(rows: seq<Entry>, inc: Entry, f: Field)
    requires ValidWindow(rows) && Get(inc.row, f) > 0
    ensures Total(MergeOne(rows, inc), Class(CoarseOf(inc.key)), f)
            == Total(rows, Class(CoarseOf(inc.key)), f) + Get(inc.row, f)
            <==> Exact(rows, inc, Choose(rows, inc.key), f) && !Choose(rows, inc.key).LastResort?
  {
    LosslessIffExact(rows, inc, Choose(rows, inc.key), f);
    MergeOneExactly(rows, inc, Class(CoarseOf(inc.key)), f);
    LastResortExactly(rows, inc.key);
    if Choose(rows, inc.key).LastResort? {
      assert rows[0] in rows;
    }
  }
}
