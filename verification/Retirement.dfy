/** Row-by-row retirement, as the source performs it, computes `RetireWindows`. */
module Retirement {
  import opened Basics
  import opened Vocabulary
  import opened FoldLadder
  import opened Windows

  /** The windows without the rows sent under `refs`, sizes not yet recomputed. */
  function Strip(ws: seq<Window>, refs: set<Ref>): (r: seq<Window>)
    ensures |r| == |ws|
  {
    seq(|ws|, i requires 0 <= i < |ws| => ws[i].(rows := KeepRows(ws[i].rows, ws[i].id, refs)))
  }

  function FindWindow(ws: seq<Window>, id: nat): nat {
    FirstIndex(ws, (w: Window) => w.id == id)
  }

  lemma {:induction false} KeepNothingSent(rows: seq<Entry>, window: nat)
    ensures KeepRows(rows, window, {}) == rows
  {
    if rows != [] {
      KeepNothingSent(rows[1..], window);
    }
  }

  lemma {:induction false} KeepOtherWindow(rows: seq<Entry>, window: nat, refs: set<Ref>, r: Ref)
    requires r.0 != window
    ensures KeepRows(rows, window, refs + {r}) == KeepRows(rows, window, refs)
  {
    if rows != [] {
      KeepOtherWindow(rows[1..], window, refs, r);
    }
  }

  lemma {:induction false} KeepAbsentKey(rows: seq<Entry>, window: nat, refs: set<Ref>, key: CounterKey)
    requires forall e :: e in rows ==> e.key != key || (window, e.key) in refs
    ensures KeepRows(rows, window, refs + {(window, key)}) == KeepRows(rows, window, refs)
  {
    if rows != [] {
      KeepAbsentKey(rows[1..], window, refs, key);
    }
  }

  /** The case of `KeepOneLess` where the key is that of the first row. */
  lemma {:induction false} KeepHeadGone(rows: seq<Entry>, window: nat, refs: set<Ref>)
    requires Unique(rows) && rows != []
    ensures var key := rows[0].key;
            var kept := KeepRows(rows, window, refs);
            var p := Find(kept, key);
            KeepRows(rows, window, refs + {(window, key)}) == if p < |kept| then RemoveAt(kept, p) else kept
  {
    var head, rest := rows[0], rows[1..];
    var kept := KeepRows(rest, window, refs);
    forall e | e in rest ensures e.key != head.key {
      var i :| 0 <= i < |rest| && rest[i] == e;
      assert rows[i + 1] == e;
    }
    KeepAbsentKey(rest, window, refs, head.key);
    if (window, head.key) !in refs {
      assert ([head] + kept)[1..] == kept;
      assert Find([head] + kept, head.key) == 0;
    } else {
      assert KeepRows(rows, window, refs) == kept;
      KeptAvoidsSent(rest, window, refs, head.key);
    }
  }

  /** Sending one more row takes exactly that row out of what was kept. */
  lemma {:induction false} KeepOneLess(rows: seq<Entry>, window: nat, refs: set<Ref>, key: CounterKey)
    requires Unique(rows)
    ensures var kept := KeepRows(rows, window, refs);
            var p := Find(kept, key);
            KeepRows(rows, window, refs + {(window, key)}) == if p < |kept| then RemoveAt(kept, p) else kept
  {
    if rows != [] {
      var head, rest := rows[0], rows[1..];
      var kept := KeepRows(rest, window, refs);
      KeepOneLess(rest, window, refs, key);
      if head.key == key {
        KeepHeadGone(rows, window, refs);
      } else if (window, head.key) !in refs {
        FindAfterHead(head, kept, key);
      } else {
        assert KeepRows(rows, window, refs) == kept;
      }
    }
  }

  lemma {:induction false} KeptAvoidsSent(rows: seq<Entry>, window: nat, refs: set<Ref>, key: CounterKey)
    requires (window, key) in refs
    ensures !HasKey(KeepRows(rows, window, refs), key)
  {
    if rows != [] {
      KeptAvoidsSent(rows[1..], window, refs, key);
    }
  }

  lemma {:induction false} FindAfterHead(head: Entry, rest: seq<Entry>, key: CounterKey)
    requires head.key != key
    ensures Find([head] + rest, key) == 1 + Find(rest, key)
    ensures Find(rest, key) < |rest| ==>
              RemoveAt([head] + rest, 1 + Find(rest, key)) == [head] + RemoveAt(rest, Find(rest, key))
  {
    assert ([head] + rest)[1..] == rest;
  }

  /** Strip one more reference: find its window, find its row, take it out. */
  function StripOne(ws: seq<Window>, r: Ref): (t: seq<Window>)
    ensures |t| == |ws|
  {
    var p := FindWindow(ws, r.0);
    if p < |ws| && Find(ws[p].rows, r.1) < |ws[p].rows|
    then ws[p := ws[p].(rows := RemoveAt(ws[p].rows, Find(ws[p].rows, r.1)))]
    else ws
  }

  lemma {:induction false} FindStripped(ws: seq<Window>, refs: set<Ref>, id: nat)
    ensures FindWindow(Strip(ws, refs), id) == FindWindow(ws, id)
  {
    var p, q := FindWindow(Strip(ws, refs), id), FindWindow(ws, id);
    assert p < q ==> Strip(ws, refs)[p].id == ws[p].id;
    assert q < p ==> Strip(ws, refs)[q].id == ws[q].id;
  }

  lemma {:induction false} StripStep(sz: Sizes, ws: seq<Window>, refs: set<Ref>, r: Ref)
    requires ValidWindows(sz, ws)
    ensures Strip(ws, refs + {r}) == StripOne(Strip(ws, refs), r)
  {
    FindStripped(ws, refs, r.0);
    var p := FindWindow(ws, r.0);
    forall i | 0 <= i < |ws|
      ensures Strip(ws, refs + {r})[i] == StripOne(Strip(ws, refs), r)[i]
    {
      if i == p {
        assert ws[i] in ws;
        KeepOneLess(ws[i].rows, ws[i].id, refs, r.1);
      } else {
        assert ws[i].id != r.0;
        KeepOtherWindow(ws[i].rows, ws[i].id, refs, r);
      }
    }
  }

  function Resized(sz: Sizes, w: Window): Window {
    w.(bytes := if w.rows == [] then 0 else WindowBytes(sz, w.rows))
  }

  function ResizeChanged(sz: Sizes, ws: seq<Window>, changed: set<nat>): (r: seq<Window>)
    ensures |r| == |ws|
  {
    seq(|ws|, i requires 0 <= i < |ws| => if ws[i].id in changed then Resized(sz, ws[i]) else ws[i])
  }

  function NonEmpty(ws: seq<Window>): seq<Window> {
    if ws == [] then [] else (if ws[0].rows == [] then [] else [ws[0]]) + NonEmpty(ws[1..])
  }

  /** What resizing makes of one stripped window. */
  function Finished(sz: Sizes, w: Window, refs: set<Ref>, changed: set<nat>): Window {
    var rows := KeepRows(w.rows, w.id, refs);
    if w.id in changed then Resized(sz, w.(rows := rows)) else w.(rows := rows)
  }

  lemma {:induction false} FinishedIsRetired(sz: Sizes, w: Window, refs: set<Ref>, changed: set<nat>)
    requires w.rows != [] && w.bytes == WindowBytes(sz, w.rows)
    requires w.id !in changed ==> KeepRows(w.rows, w.id, refs) == w.rows
    ensures var done, retired := Finished(sz, w, refs, changed), RetireWindow(sz, w, refs);
            && done.rows == retired.rows
            && (if retired.rows == [] then done.bytes == 0 else done == retired)
  {
  }

  lemma {:induction false} FinishHead(sz: Sizes, ws: seq<Window>, refs: set<Ref>, changed: set<nat>)
    requires ws != []
    ensures ResizeChanged(sz, Strip(ws, refs), changed)
            == [Finished(sz, ws[0], refs, changed)] + ResizeChanged(sz, Strip(ws[1..], refs), changed)
  {
  }

  lemma {:induction false} NonEmptyFirst(w: Window, ws: seq<Window>)
    ensures NonEmpty([w] + ws) == (if w.rows == [] then [] else [w]) + NonEmpty(ws)
    ensures Retained([w] + ws) == w.bytes + Retained(ws)
  {
    assert ([w] + ws)[1..] == ws;
  }

  lemma {:induction false} StripTail(ws: seq<Window>, refs: set<Ref>, changed: set<nat>)
    requires ws != []
    requires forall i :: 0 <= i < |ws| && ws[i].id !in changed ==> Strip(ws, refs)[i].rows == ws[i].rows
    ensures forall i :: 0 <= i < |ws[1..]| && ws[1..][i].id !in changed ==>
              Strip(ws[1..], refs)[i].rows == ws[1..][i].rows
    ensures ws[0].id !in changed ==> KeepRows(ws[0].rows, ws[0].id, refs) == ws[0].rows
  {
    forall i | 0 <= i < |ws[1..]| && ws[1..][i].id !in changed
      ensures Strip(ws[1..], refs)[i].rows == ws[1..][i].rows
    {
      assert Strip(ws[1..], refs)[i] == Strip(ws, refs)[i + 1];
    }
    assert Strip(ws, refs)[0].rows == KeepRows(ws[0].rows, ws[0].id, refs);
  }

  /** Once the changed windows are resized and the empty ones dropped, the windows
      and their byte total are those of `RetireWindows`. */
  lemma {:induction false} FinishRetirement(sz: Sizes, ws: seq<Window>, refs: set<Ref>, changed: set<nat>)
    requires forall w :: w in ws ==> w.rows != [] && w.bytes == WindowBytes(sz, w.rows)
    requires forall i :: 0 <= i < |ws| && ws[i].id !in changed ==> Strip(ws, refs)[i].rows == ws[i].rows
    ensures var done := ResizeChanged(sz, Strip(ws, refs), changed);
            && NonEmpty(done) == RetireWindows(sz, ws, refs)
            && Retained(done) == Retained(RetireWindows(sz, ws, refs))
  {
    if ws != [] {
      assert ws[0] in ws && forall w :: w in ws[1..] ==> w in ws;
      StripTail(ws, refs, changed);
      FinishRetirement(sz, ws[1..], refs, changed);
      FinishHead(sz, ws, refs, changed);
      FinishedIsRetired(sz, ws[0], refs, changed);
      FinishOne(Finished(sz, ws[0], refs, changed), ResizeChanged(sz, Strip(ws[1..], refs), changed),
                RetireWindow(sz, ws[0], refs), RetireWindows(sz, ws[1..], refs));
    }
  }

  lemma {:induction false} FinishOne(done: Window, rest: seq<Window>, retired: Window, kept: seq<Window>)
    requires done.rows == retired.rows && (if retired.rows == [] then done.bytes == 0 else done == retired)
    requires NonEmpty(rest) == kept && Retained(rest) == Retained(kept)
    ensures NonEmpty([done] + rest) == (if retired.rows == [] then [] else [retired]) + kept
    ensures Retained([done] + rest) == Retained((if retired.rows == [] then [] else [retired]) + kept)
  {
    NonEmptyFirst(done, rest);
    NonEmptyFirst(retired, kept);
    assert [] + kept == kept;
  }
}
