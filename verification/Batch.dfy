/** What one flush puts on the wire: prefixes of the buffer and of the closed rows,
    trimmed from the tail until the body fits. */
module Batch {
  import opened Basics
  import opened EventBuffer
  import opened Windows

  const MAX_BATCH_EVENTS: nat := 100
  const MAX_BATCH_COUNTERS: nat := 200
  const MAX_BATCH_BYTES: nat := 65_536
  const MAX_AGE_MS: nat := 86_400_000
  const MILLISECOND: nat := 1_000_000

  /** What body lengths depend on besides the items themselves. */
  datatype Context = Context(sz: Sizes, now: nat, envelope: nat)

  function AgeMs(now: nat, then_: nat): nat {
    Min(SatSub(now, then_) / MILLISECOND, MAX_AGE_MS)
  }

  function EventBytes(x: Context, b: Buffered): nat {
    x.sz.event(b.wire, AgeMs(x.now, b.completedAt))
  }

  function RowBytes(x: Context, r: ClosedRow): nat {
    x.sz.row(r.entry, AgeMs(x.now, r.start))
  }

  function EventsBytes(x: Context, events: seq<Buffered>): nat {
    if events == [] then 0 else EventsBytes(x, events[..|events| - 1]) + EventBytes(x, events[|events| - 1])
  }

  function CountersBytes(x: Context, rows: seq<ClosedRow>): nat {
    if rows == [] then 0 else CountersBytes(x, rows[..|rows| - 1]) + RowBytes(x, rows[|rows| - 1])
  }

  /** Envelope, both lists, and their separating commas. */
  function BodyBytes(x: Context, events: seq<Buffered>, rows: seq<ClosedRow>): nat {
    x.envelope + EventsBytes(x, events) + SatSub(|events|, 1) + CountersBytes(x, rows) + SatSub(|rows|, 1)
  }

  predicate Fits(x: Context, events: seq<Buffered>, rows: seq<ClosedRow>) {
    BodyBytes(x, events, rows) <= MAX_BATCH_BYTES
  }

  /** Pop the last event while there is one, then the last row, until the body
      fits; how many of each remain. */
  function Trim(x: Context, events: seq<Buffered>, rows: seq<ClosedRow>, e: nat, c: nat): (r: Option<(nat, nat)>)
    requires e <= |events| && c <= |rows|
    ensures r.Some? ==> r.value.0 <= e && r.value.1 <= c
    decreases e + c
  {
    if Fits(x, events[..e], rows[..c]) then Some((e, c))
    else if e > 0 then Trim(x, events, rows, e - 1, c)
    else if c > 0 then Trim(x, events, rows, e, c - 1)
    else None
  }

  /** The largest batch when events are given up before rows. */
  predicate BestFit(x: Context, events: seq<Buffered>, rows: seq<ClosedRow>, e: nat, c: nat) {
    && e <= |events| && c <= |rows|
    && Fits(x, events[..e], rows[..c])
    && (e < |events| ==> !Fits(x, events[..e + 1], rows))
    && (c < |rows| ==> e == 0 && !Fits(x, [], rows[..c + 1]))
  }

  lemma {:induction false} EventsMonotone(x: Context, events: seq<Buffered>, e: nat)
    requires e <= |events|
    ensures EventsBytes(x, events[..e]) <= EventsBytes(x, events)
  {
    if e == |events| {
      assert events[..e] == events;
    } else {
      EventsMonotone(x, events[..|events| - 1], e);
      assert events[..|events| - 1][..e] == events[..e];
    }
  }

  lemma {:induction false} CountersMonotone(x: Context, rows: seq<ClosedRow>, c: nat)
    requires c <= |rows|
    ensures CountersBytes(x, rows[..c]) <= CountersBytes(x, rows)
  {
    if c == |rows| {
      assert rows[..c] == rows;
    } else {
      CountersMonotone(x, rows[..|rows| - 1], c);
      assert rows[..|rows| - 1][..c] == rows[..c];
    }
  }

  /** Prefixes of a batch that fits fit as well. */
  lemma {:induction false} FitsMonotone(
    x: Context, events: seq<Buffered>, rows: seq<ClosedRow>, e: nat, c: nat, e': nat, c': nat)
    requires e <= e' <= |events| && c <= c' <= |rows|
    requires Fits(x, events[..e'], rows[..c'])
    ensures Fits(x, events[..e], rows[..c])
    ensures e == 0 ==> Fits(x, [], rows[..c])
    ensures c == 0 ==> Fits(x, events[..e], [])
  {
    EventsMonotone(x, events[..e'], e);
    CountersMonotone(x, rows[..c'], c);
    assert events[..e'][..e] == events[..e] && rows[..c'][..c] == rows[..c];
    assert events[..0] == [] && rows[..0] == [];
  }

  lemma {:induction false} TrimFindsBest(x: Context, events: seq<Buffered>, rows: seq<ClosedRow>, e: nat, c: nat)
    requires e <= |events| && c <= |rows|
    requires e < |events| ==> !Fits(x, events[..e + 1], rows)
    requires c < |rows| ==> e == 0 && !Fits(x, [], rows[..c + 1])
    ensures var r := Trim(x, events, rows, e, c);
            if r.Some? then BestFit(x, events, rows, r.value.0, r.value.1) else !Fits(x, [], [])
    decreases e + c
  {
    assert rows[..|rows|] == rows && events[..0] == [] && rows[..0] == [];
    if !Fits(x, events[..e], rows[..c]) {
      if e > 0 {
        TrimFindsBest(x, events, rows, e - 1, c);
      } else if c > 0 {
        TrimFindsBest(x, events, rows, 0, c - 1);
      }
    }
  }

  lemma {:induction false} BestFitUnique(
    x: Context, events: seq<Buffered>, rows: seq<ClosedRow>, e: nat, c: nat, e': nat, c': nat)
    requires BestFit(x, events, rows, e, c) && BestFit(x, events, rows, e', c')
    ensures e == e' && c == c'
  {
    assert rows[..|rows|] == rows;
    if c < c' {
      FitsMonotone(x, events, rows, 0, c + 1, e', c');
    } else if c' < c {
      FitsMonotone(x, events, rows, 0, c' + 1, e, c);
    } else if e < e' {
      FitsMonotone(x, events, rows, e + 1, c, e', c);
    } else if e' < e {
      FitsMonotone(x, events, rows, e' + 1, c, e, c);
    }
  }

  /** The trimming loop finds the maximal batch under events-first trimming, and
      gives up exactly when not even the empty batch fits. */
  lemma {:induction false} TrimExactly(x: Context, events: seq<Buffered>, rows: seq<ClosedRow>, e: nat, c: nat)
    ensures Trim(x, events, rows, |events|, |rows|) == Some((e, c)) <==> BestFit(x, events, rows, e, c)
    ensures Trim(x, events, rows, |events|, |rows|) == None <==> !Fits(x, [], [])
  {
    TrimFindsBest(x, events, rows, |events|, |rows|);
    assert rows[..0] == [];
    var r := Trim(x, events, rows, |events|, |rows|);
    if r.Some? {
      FitsMonotone(x, events, rows, 0, 0, r.value.0, r.value.1);
    }
    if BestFit(x, events, rows, e, c) {
      FitsMonotone(x, events, rows, 0, 0, e, c);
      BestFitUnique(x, events, rows, r.value.0, r.value.1, e, c);
    }
  }

  /** A batch makes progress iff one row fits alone or, without rows, one event. */
  lemma {:induction false} ProgressIff(x: Context, events: seq<Buffered>, rows: seq<ClosedRow>, e: nat, c: nat)
    requires BestFit(x, events, rows, e, c)
    requires events != [] || rows != []
    ensures e + c > 0 <==> if rows != [] then Fits(x, [], rows[..1]) else Fits(x, events[..1], [])
  {
    if rows != [] {
      if e + c > 0 {
        FitsMonotone(x, events, rows, 0, 1, e, c);
      }
    } else if e > 0 {
      FitsMonotone(x, events, rows, 1, 0, e, c);
    }
  }

  // ---- Selection ----

  /** One flush's batch: the items on the wire, their identities, and the drop
      count reported with them. */
  datatype Selected = Selected(
    events: seq<Buffered>,
    rows: seq<ClosedRow>,
    eventIds: seq<nat>,
    refs: seq<Ref>,
    dropped: u64)

  function SentIds(sel: Selected): set<nat> {
    Members(sel.eventIds)
  }

  function SentRefs(sel: Selected): set<Ref> {
    Members(sel.refs)
  }

  function IdsOf(events: seq<Buffered>): seq<nat> {
    seq(|events|, i requires 0 <= i < |events| => events[i].id)
  }

  function RefsOf(rows: seq<ClosedRow>): seq<Ref> {
    seq(|rows|, i requires 0 <= i < |rows| => RefOf(rows[i]))
  }

  function FirstEvents(events: seq<Buffered>): seq<Buffered> {
    events[..Min(|events|, MAX_BATCH_EVENTS)]
  }

  function FirstRows(ws: seq<Window>): seq<ClosedRow> {
    Flatten(ws)[..Min(|Flatten(ws)|, MAX_BATCH_COUNTERS)]
  }

  function Select(x: Context, events: seq<Buffered>, ws: seq<Window>, dropped: u64): Option<Selected> {
    var es, rs := FirstEvents(events), FirstRows(ws);
    if es == [] && rs == [] then None
    else
      match Trim(x, es, rs, |es|, |rs|)
      case None => None
      case Some((e, c)) => Some(Selected(es[..e], rs[..c], IdsOf(es[..e]), RefsOf(rs[..c]), dropped))
  }

  /** A selected batch is a prefix of the buffer and of the closed rows, within all
      three limits. */
  lemma {:induction false} SelectedWithinLimits(x: Context, events: seq<Buffered>, ws: seq<Window>, dropped: u64)
    ensures var r := Select(x, events, ws, dropped);
            r.Some? ==>
              && r.value.events <= events && |r.value.events| <= 100
              && r.value.rows <= Flatten(ws) && |r.value.rows| <= 200
              && BodyBytes(x, r.value.events, r.value.rows) <= 65_536
              && BestFit(x, FirstEvents(events), FirstRows(ws), |r.value.events|, |r.value.rows|)
  {
    var es, rs := FirstEvents(events), FirstRows(ws);
    match Trim(x, es, rs, |es|, |rs|) {
      case None =>
      case Some((e, c)) => TrimExactly(x, es, rs, e, c);
    }
  }
}
