/** The byte counts against the text they are meant to measure. */
module WireSizes {
  import opened Basics
  import opened Text
  import opened FoldLadder
  import opened EventBuffer
  import opened Windows
  import opened Batch

  /** The length of parts joined by commas: theirs, and a comma between any two. */
  lemma {:induction false} JoinedLength(parts: seq<string>, last: string)
    ensures |Join(parts + [last], ',')| == |last| + if parts == [] then 0 else |Join(parts, ',')| + 1
  {
    if parts == [] {
      assert parts + [last] == [last];
    } else {
      JoinConcat(parts, [last], ',');
    }
  }

  lemma {:induction false} RowsBytesSnoc(sz: Sizes, rows: seq<Entry>, last: Entry)
    ensures RowsBytes(sz, rows + [last]) == RowsBytes(sz, rows) + sz.row(last, 0)
  {
    if rows == [] {
      assert rows + [last] == [last];
    } else {
      assert (rows + [last])[1..] == rows[1..] + [last];
      RowsBytesSnoc(sz, rows[1..], last);
    }
  }

  /** The bytes accounted for a closed window are those of its rows as a JSON array. */
  lemma {:induction false} WindowBytesSpelled(sz: Sizes, rows: seq<Entry>, texts: seq<string>)
    requires |texts| == |rows| && forall i :: 0 <= i < |rows| ==> |texts[i]| == sz.row(rows[i], 0)
    ensures WindowBytes(sz, rows) == |"[" + Join(texts, ',') + "]"|
  {
    if rows != [] {
      var n := |rows| - 1;
      WindowBytesSpelled(sz, rows[..n], texts[..n]);
      assert rows == rows[..n] + [rows[n]] && texts == texts[..n] + [texts[n]];
      RowsBytesSnoc(sz, rows[..n], rows[n]);
      JoinedLength(texts[..n], texts[n]);
    }
  }

  /** How old something is when a batch is made, in whole milliseconds up to a day. */
  function Age(now: nat, then_: nat): nat {
    Min(Max(now - then_, 0) / 1_000_000, 86_400_000)
  }

  lemma {:induction false} EventsSpelled(x: Context, events: seq<Buffered>, texts: seq<string>)
    requires |texts| == |events|
    requires forall i :: 0 <= i < |events| ==> |texts[i]| == x.sz.event(events[i].wire, Age(x.now, events[i].completedAt))
    ensures EventsBytes(x, events) + SatSub(|events|, 1) == |Join(texts, ',')|
  {
    if events != [] {
      var n := |events| - 1;
      EventsSpelled(x, events[..n], texts[..n]);
      assert texts == texts[..n] + [texts[n]];
      JoinedLength(texts[..n], texts[n]);
    }
  }

  lemma {:induction false} CountersSpelled(x: Context, rows: seq<ClosedRow>, texts: seq<string>)
    requires |texts| == |rows|
    requires forall i :: 0 <= i < |rows| ==> |texts[i]| == x.sz.row(rows[i].entry, Age(x.now, rows[i].start))
    ensures CountersBytes(x, rows) + SatSub(|rows|, 1) == |Join(texts, ',')|
  {
    if rows != [] {
      var n := |rows| - 1;
      CountersSpelled(x, rows[..n], texts[..n]);
      assert texts == texts[..n] + [texts[n]];
      JoinedLength(texts[..n], texts[n]);
    }
  }

  /** The bytes a batch is measured by are those of the body around its two lists, each
      item serialised at its age. */
  lemma {:induction false} BodyBytesSpelled(
    x: Context, events: seq<Buffered>, rows: seq<ClosedRow>, eventTexts: seq<string>, rowTexts: seq<string>,
    head: string, middle: string, tail: string)
    requires |eventTexts| == |events| && |rowTexts| == |rows| && x.envelope == |head| + |middle| + |tail|
    requires forall i :: 0 <= i < |events| ==>
               |eventTexts[i]| == x.sz.event(events[i].wire, Age(x.now, events[i].completedAt))
    requires forall i :: 0 <= i < |rows| ==> |rowTexts[i]| == x.sz.row(rows[i].entry, Age(x.now, rows[i].start))
    ensures BodyBytes(x, events, rows) == |head + Join(eventTexts, ',') + middle + Join(rowTexts, ',') + tail|
  {
    EventsSpelled(x, events, eventTexts);
    CountersSpelled(x, rows, rowTexts);
  }
}
