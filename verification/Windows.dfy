/** Closed minute windows: retention, byte accounting and retirement by identity. */
module Windows {
  import opened Basics
  import opened Vocabulary
  import opened Counters
  import opened FoldLadder
  import opened EventBuffer

  /** Time is a natural number of nanoseconds on a monotonic clock. */
  const SECOND: nat := 1_000_000_000

  const RETENTION: nat := 86_400 * SECOND

  /** Serialised lengths, as functions of what is serialised: an event or a row at
      a given age, and the batch around them at a given sequence number and drop
      count. Nothing else is known about them. */
  datatype Sizes = Sizes(
    event: (WireEvent, nat) -> nat,
    row: (Entry, nat) -> nat,
    envelope: (nat, nat) -> nat)

  datatype Window = Window(id: nat, start: nat, rows: seq<Entry>, bytes: nat)

  function MinuteStart(now: nat): nat {
    now / SECOND / 60 * 60 * SECOND
  }

  function RowsBytes(sz: Sizes, rows: seq<Entry>): nat {
    if rows == [] then 0 else sz.row(rows[0], 0) + RowsBytes(sz, rows[1..])
  }

  /** Brackets, rows and separating commas. */
  function WindowBytes(sz: Sizes, rows: seq<Entry>): nat {
    2 + RowsBytes(sz, rows) + SatSub(|rows|, 1)
  }

  function Retained(ws: seq<Window>): nat {
    if ws == [] then 0 else ws[0].bytes + Retained(ws[1..])
  }

  function RowCount(ws: seq<Window>): nat {
    if ws == [] then 0 else |ws[0].rows| + RowCount(ws[1..])
  }

  /** One closed row with the identity a flush reports it under. */
  datatype ClosedRow = ClosedRow(window: nat, start: nat, entry: Entry)

  type Ref = (nat, CounterKey)

  function RefOf(r: ClosedRow): Ref {
    (r.window, r.entry.key)
  }

  function RowsOf(w: Window): (rows: seq<ClosedRow>) {
    seq(|w.rows|, i requires 0 <= i < |w.rows| => ClosedRow(w.id, w.start, w.rows[i]))
  }

  /** All closed rows, in window order. */
  function Flatten(ws: seq<Window>): seq<ClosedRow> {
    if ws == [] then [] else RowsOf(ws[0]) + Flatten(ws[1..])
  }

  // ---- Pruning ----

  predicate TooOld(w: Window, now: nat) {
    SatSub(now, w.start) > RETENTION
  }

  /** How many leading windows the age rule drops. */
  function ExpiredCount(ws: seq<Window>, now: nat): (k: nat)
    ensures k <= |ws|
  {
    if ws != [] && TooOld(ws[0], now) then 1 + ExpiredCount(ws[1..], now) else 0
  }

  /** How many leading windows the byte rule then drops. */
  function OverflowCount(ws: seq<Window>, cap: nat): (k: nat)
    ensures k <= |ws|
  {
    if ws != [] && Retained(ws) > cap then 1 + OverflowCount(ws[1..], cap) else 0
  }

  function PruneCount(ws: seq<Window>, now: nat, cap: nat): (k: nat)
    ensures k <= |ws|
  {
    var k := ExpiredCount(ws, now);
    k + OverflowCount(ws[k..], cap)
  }

  // ---- The invariant ----

  predicate Ordered(ws: seq<Window>) {
    forall i, j :: 0 <= i < j < |ws| ==> ws[i].id < ws[j].id && ws[i].start <= ws[j].start
  }

  predicate ValidWindows(sz: Sizes, ws: seq<Window>) {
    && Ordered(ws)
    && forall w :: w in ws ==> w.rows != [] && ValidWindow(w.rows) && w.bytes == WindowBytes(sz, w.rows)
  }

  lemma {:induction false} RetainedConcat(a: seq<Window>, b: seq<Window>)
    ensures Retained(a + b) == Retained(a) + Retained(b)
    ensures RowCount(a + b) == RowCount(a) + RowCount(b)
    ensures Flatten(a + b) == Flatten(a) + Flatten(b)
  {
    if a == [] {
      assert a + b == b;
    } else {
      assert (a + b)[1..] == a[1..] + b;
      RetainedConcat(a[1..], b);
    }
  }

  lemma {:induction false} RetainedSplit(ws: seq<Window>, k: nat)
    requires k <= |ws|
    ensures Retained(ws) == Retained(ws[..k]) + Retained(ws[k..])
    ensures RowCount(ws) == RowCount(ws[..k]) + RowCount(ws[k..])
    ensures Flatten(ws) == Flatten(ws[..k]) + Flatten(ws[k..])
  {
    assert ws == ws[..k] + ws[k..];
    RetainedConcat(ws[..k], ws[k..]);
  }

  lemma {:induction false} FlattenLength(ws: seq<Window>)
    ensures |Flatten(ws)| == RowCount(ws)
  {
    if ws != [] {
      FlattenLength(ws[1..]);
    }
  }

  lemma {:induction false} DropPrefixValid(sz: Sizes, ws: seq<Window>, k: nat)
    requires ValidWindows(sz, ws) && k <= |ws|
    ensures ValidWindows(sz, ws[k..])
  {
  }

  lemma {:induction false} AppendWindowValid(sz: Sizes, ws: seq<Window>, w: Window)
    requires ValidWindows(sz, ws)
    requires forall v :: v in ws ==> v.id < w.id && v.start <= w.start
    requires w.rows != [] && ValidWindow(w.rows) && w.bytes == WindowBytes(sz, w.rows)
    ensures ValidWindows(sz, ws + [w])
  {
    assert forall i :: 0 <= i < |ws| ==> ws[i] in ws;
  }

  predicate ExpiredBefore(ws: seq<Window>, k: nat, now: nat) {
    && k <= |ws|
    && (forall i :: 0 <= i < k ==> TooOld(ws[i], now))
    && (forall i :: k <= i < |ws| ==> !TooOld(ws[i], now))
  }

  lemma {:induction false} ExpiredExactly(ws: seq<Window>, now: nat)
    requires Ordered(ws)
    ensures ExpiredBefore(ws, ExpiredCount(ws, now), now)
  {
    if ws != [] && TooOld(ws[0], now) {
      ExpiredExactly(ws[1..], now);
    }
  }

  /** Dropping `k` windows is enough, and one fewer is not. */
  predicate JustFits(ws: seq<Window>, k: nat, cap: nat) {
    k <= |ws| && Retained(ws[k..]) <= cap && (k > 0 ==> Retained(ws[k - 1..]) > cap)
  }

  lemma {:induction false} OverflowFits(ws: seq<Window>, cap: nat)
    ensures JustFits(ws, OverflowCount(ws, cap), cap)
  {
    if ws != [] && Retained(ws) > cap {
      OverflowFits(ws[1..], cap);
      var k := OverflowCount(ws[1..], cap);
      assert ws[1..][k..] == ws[k + 1..];
      if k > 0 {
        assert ws[1..][k - 1..] == ws[k..];
      }
    }
  }

  predicate PrunedAt(ws: seq<Window>, k: nat, now: nat, cap: nat)
    requires k <= |ws|
  {
    && Retained(ws[k..]) <= cap
    && (forall i :: k <= i < |ws| ==> now <= ws[i].start + 86_400 * SECOND)
    && (k > 0 ==> now > ws[k - 1].start + 86_400 * SECOND || Retained(ws[k - 1..]) > cap)
  }

  lemma {:induction false} PruneParts(ws: seq<Window>, e: nat, k: nat, n: nat, now: nat, cap: nat)
    requires e + k == n && e <= |ws| && ExpiredBefore(ws, e, now) && JustFits(ws[e..], k, cap)
    ensures PrunedAt(ws, n, now, cap)
  {
    DropTwice(ws, e, k);
    if k > 0 {
      DropTwice(ws, e, k - 1);
    }
  }

  lemma {:induction false} DropTwice(ws: seq<Window>, e: nat, k: nat)
    requires e + k <= |ws|
    ensures ws[e..][k..] == ws[e + k..]
  {
  }

  /** After pruning nothing is over 24 hours old and the bytes fit; a window was
      dropped only for being too old, or because keeping it broke the byte cap. */
  lemma {:induction false} PruneExactly(ws: seq<Window>, now: nat, cap: nat)
    requires Ordered(ws)
    ensures PrunedAt(ws, PruneCount(ws, now, cap), now, cap)
  {
    var e := ExpiredCount(ws, now);
    ExpiredExactly(ws, now);
    OverflowFits(ws[e..], cap);
    PruneParts(ws, e, OverflowCount(ws[e..], cap), PruneCount(ws, now, cap), now, cap);
  }

  // ---- Retirement ----

  /** The rows of one window whose references were not sent. */
  function KeepRows(rows: seq<Entry>, window: nat, refs: set<Ref>): seq<Entry> {
    if rows == [] then []
    else (if (window, rows[0].key) in refs then [] else [rows[0]]) + KeepRows(rows[1..], window, refs)
  }

  /** The rows of one window that were. */
  function TakeRows(rows: seq<Entry>, window: nat, refs: set<Ref>): seq<Entry> {
    if rows == [] then []
    else (if (window, rows[0].key) in refs then [rows[0]] else []) + TakeRows(rows[1..], window, refs)
  }

  function RetireWindow(sz: Sizes, w: Window, refs: set<Ref>): Window {
    var rows := KeepRows(w.rows, w.id, refs);
    Window(w.id, w.start, rows, WindowBytes(sz, rows))
  }

  /** Every window without its sent rows; windows left empty disappear. */
  function RetireWindows(sz: Sizes, ws: seq<Window>, refs: set<Ref>): seq<Window> {
    if ws == [] then []
    else
      var w := RetireWindow(sz, ws[0], refs);
      (if w.rows == [] then [] else [w]) + RetireWindows(sz, ws[1..], refs)
  }

  /** The rows that retirement removes. */
  function RetiredRows(ws: seq<Window>, refs: set<Ref>): seq<Entry> {
    if ws == [] then []
    else TakeRows(ws[0].rows, ws[0].id, refs) + RetiredRows(ws[1..], refs)
  }

  function ClosedEntries(ws: seq<Window>): seq<Entry> {
    if ws == [] then [] else ws[0].rows + ClosedEntries(ws[1..])
  }

  lemma {:induction false} KeepRowsFacts(sz: Sizes, rows: seq<Entry>, window: nat, refs: set<Ref>)
    ensures forall e :: e in KeepRows(rows, window, refs) <==> e in rows && (window, e.key) !in refs
    ensures |KeepRows(rows, window, refs)| <= |rows|
    ensures Unique(rows) ==> Unique(KeepRows(rows, window, refs))
    ensures RowsBytes(sz, KeepRows(rows, window, refs)) <= RowsBytes(sz, rows)
  {
    if rows != [] {
      KeepRowsFacts(sz, rows[1..], window, refs);
      assert forall e :: e in rows <==> e == rows[0] || e in rows[1..];
      var rest := KeepRows(rows[1..], window, refs);
      var kept := KeepRows(rows, window, refs);
      if (window, rows[0].key) !in refs {
        assert kept[1..] == rest;
        if Unique(rows) {
          forall i | 0 <= i < |rest| ensures rest[i].key != rows[0].key {
            assert rest[i] in rows[1..];
          }
        }
      } else {
        assert kept == rest;
      }
    }
  }

  lemma {:induction false} KeepPlusTake(rows: seq<Entry>, window: nat, refs: set<Ref>, s: Scope, f: Field)
    ensures Total(KeepRows(rows, window, refs), s, f) + Total(TakeRows(rows, window, refs), s, f)
            == Total(rows, s, f)
    ensures |KeepRows(rows, window, refs)| + |TakeRows(rows, window, refs)| == |rows|
  {
    if rows != [] {
      KeepPlusTake(rows[1..], window, refs, s, f);
      TotalConcat([rows[0]], KeepRows(rows[1..], window, refs), s, f);
      TotalConcat([rows[0]], TakeRows(rows[1..], window, refs), s, f);
      assert [] + KeepRows(rows[1..], window, refs) == KeepRows(rows[1..], window, refs);
      assert [] + TakeRows(rows[1..], window, refs) == TakeRows(rows[1..], window, refs);
    }
  }

  /** Retirement splits the closed rows: every count stays closed or is retired. */
  lemma {:induction false} RetirementConserves(sz: Sizes, ws: seq<Window>, refs: set<Ref>, f: Field)
    ensures Total(ClosedEntries(RetireWindows(sz, ws, refs)), Everything, f)
            + Total(RetiredRows(ws, refs), Everything, f)
            == Total(ClosedEntries(ws), Everything, f)
    ensures RowCount(RetireWindows(sz, ws, refs)) + |RetiredRows(ws, refs)| == RowCount(ws)
  {
    if ws != [] {
      var w := RetireWindow(sz, ws[0], refs);
      var rest := RetireWindows(sz, ws[1..], refs);
      RetirementConserves(sz, ws[1..], refs, f);
      KeepPlusTake(ws[0].rows, ws[0].id, refs, Everything, f);
      TotalConcat(TakeRows(ws[0].rows, ws[0].id, refs), RetiredRows(ws[1..], refs), Everything, f);
      TotalConcat(ws[0].rows, ClosedEntries(ws[1..]), Everything, f);
      TotalConcat(w.rows, ClosedEntries(rest), Everything, f);
      assert ([w] + rest)[1..] == rest && [] + rest == rest && [] + ClosedEntries(rest) == ClosedEntries(rest);
    }
  }

  lemma {:induction false} RetireWindowsMembers(sz: Sizes, ws: seq<Window>, refs: set<Ref>)
    ensures forall w :: w in RetireWindows(sz, ws, refs) ==>
              w.rows != [] && exists v :: v in ws && w == RetireWindow(sz, v, refs)
  {
    if ws != [] {
      RetireWindowsMembers(sz, ws[1..], refs);
      var rest := RetireWindows(sz, ws[1..], refs);
      assert ws[0] in ws;
      forall w | w in RetireWindows(sz, ws, refs)
        ensures w.rows != [] && exists v :: v in ws && w == RetireWindow(sz, v, refs)
      {
        if w in rest {
          var v :| v in ws[1..] && w == RetireWindow(sz, v, refs);
          assert v in ws;
        }
      }
    }
  }

  lemma {:induction false} RetireWindowsOrdered(sz: Sizes, ws: seq<Window>, refs: set<Ref>)
    requires Ordered(ws)
    ensures Ordered(RetireWindows(sz, ws, refs))
  {
    if ws != [] {
      RetireWindowsOrdered(sz, ws[1..], refs);
      RetireWindowsMembers(sz, ws[1..], refs);
      var rest := RetireWindows(sz, ws[1..], refs);
      forall i | 0 <= i < |rest| ensures ws[0].id < rest[i].id && ws[0].start <= rest[i].start {
        assert rest[i] in rest;
        var v :| v in ws[1..] && rest[i] == RetireWindow(sz, v, refs);
      }
      OrderedFirst(RetireWindow(sz, ws[0], refs), rest);
      assert [] + rest == rest;
    }
  }

  lemma {:induction false} OrderedFirst(w: Window, ws: seq<Window>)
    requires Ordered(ws) && forall i :: 0 <= i < |ws| ==> w.id < ws[i].id && w.start <= ws[i].start
    ensures Ordered([w] + ws)
  {
    var all := [w] + ws;
    forall i, j | 0 <= i < j < |all| ensures all[i].id < all[j].id && all[i].start <= all[j].start {
      assert all[j] == ws[j - 1];
      if i > 0 {
        assert all[i] == ws[i - 1];
      }
    }
  }

  lemma {:induction false} RetireShrinksBytes(sz: Sizes, ws: seq<Window>, refs: set<Ref>)
    requires forall w :: w in ws ==> w.bytes == WindowBytes(sz, w.rows)
    ensures Retained(RetireWindows(sz, ws, refs)) <= Retained(ws)
  {
    if ws != [] {
      RetireShrinksBytes(sz, ws[1..], refs);
      KeepRowsFacts(sz, ws[0].rows, ws[0].id, refs);
      assert ws[0] in ws;
      var w := RetireWindow(sz, ws[0], refs);
      RetainedConcat([w], RetireWindows(sz, ws[1..], refs));
      assert [] + RetireWindows(sz, ws[1..], refs) == RetireWindows(sz, ws[1..], refs);
    }
  }

  lemma {:induction false} RetireValid(sz: Sizes, ws: seq<Window>, refs: set<Ref>)
    requires ValidWindows(sz, ws)
    ensures ValidWindows(sz, RetireWindows(sz, ws, refs))
    ensures Retained(RetireWindows(sz, ws, refs)) <= Retained(ws)
  {
    RetireWindowsMembers(sz, ws, refs);
    RetireWindowsOrdered(sz, ws, refs);
    RetireShrinksBytes(sz, ws, refs);
    forall w | w in RetireWindows(sz, ws, refs)
      ensures w.rows != [] && ValidWindow(w.rows) && w.bytes == WindowBytes(sz, w.rows)
    {
      var v :| v in ws && w == RetireWindow(sz, v, refs);
      KeepRowsFacts(sz, v.rows, v.id, refs);
    }
  }

  lemma {:induction false} TakenRowsWereSent(rows: seq<Entry>, window: nat, refs: set<Ref>)
    ensures forall e :: e in TakeRows(rows, window, refs) <==> e in rows && (window, e.key) in refs
  {
    if rows != [] {
      TakenRowsWereSent(rows[1..], window, refs);
      assert forall e :: e in rows <==> e == rows[0] || e in rows[1..];
    }
  }

  /** Exactly the closed rows under a sent reference are retired. */
  lemma {:induction false} RetiredExactly(ws: seq<Window>, refs: set<Ref>)
    ensures forall e :: e in RetiredRows(ws, refs) <==> exists w :: w in ws && e in w.rows && (w.id, e.key) in refs
  {
    if ws != [] {
      RetiredExactly(ws[1..], refs);
      TakenRowsWereSent(ws[0].rows, ws[0].id, refs);
      assert forall w :: w in ws <==> w == ws[0] || w in ws[1..];
    }
  }
}
