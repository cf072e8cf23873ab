/** The bounded buffer of sampled events: eviction, append and retirement by id. */
module EventBuffer {
  import opened Basics

  const MAX_EVENTS: nat := 1000

  /** A sampled event on the wire: its content, and whether the call succeeded. */
  datatype WireEvent = WireEvent(content: nat, ok: bool)

  datatype Buffered = Buffered(id: nat, wire: WireEvent, completedAt: nat, bytes: nat, ok: bool)

  /** The oldest success, or the oldest event when every buffered event failed. */
  function VictimIndex(events: seq<Buffered>): (i: nat)
    ensures events != [] ==> i < |events|
  {
    var i := FirstIndex(events, (b: Buffered) => b.ok);
    if i < |events| then i else 0
  }

  function MakeRoom(events: seq<Buffered>): seq<Buffered> {
    if |events| >= MAX_EVENTS then RemoveAt(events, VictimIndex(events)) else events
  }

  function Appended(events: seq<Buffered>, b: Buffered): seq<Buffered> {
    MakeRoom(events) + [b]
  }

  /** Retirement by identity: everything but the given ids, in order. */
  function Retain(events: seq<Buffered>, ids: set<nat>): seq<Buffered> {
    if events == [] then []
    else (if events[0].id in ids then [] else [events[0]]) + Retain(events[1..], ids)
  }

  function SumBytes(events: seq<Buffered>): nat {
    if events == [] then 0 else events[0].bytes + SumBytes(events[1..])
  }

  // ---- The invariant, against the log of everything ever buffered ----

  function Ids(events: seq<Buffered>): set<nat> {
    set b | b in events :: b.id
  }

  predicate Sorted(events: seq<Buffered>) {
    forall i, j :: 0 <= i < j < |events| ==> events[i].id < events[j].id
  }

  /** Event ids are positions in the log. */
  predicate Logged(events: seq<Buffered>, log: seq<WireEvent>) {
    forall b :: b in events ==> b.id < |log| && log[b.id] == b.wire && b.ok == b.wire.ok
  }

  /** Once an event is buffered, so is every later one of its kind. */
  predicate UpClosed(ids: set<nat>, log: seq<WireEvent>) {
    forall i, j :: i in ids && i < j < |log| && log[i].ok == log[j].ok ==> j in ids
  }

  predicate ValidBuffer(events: seq<Buffered>, log: seq<WireEvent>) {
    && |events| <= MAX_EVENTS
    && Sorted(events)
    && Logged(events, log)
    && UpClosed(Ids(events), log)
  }

  lemma {:induction false} SumConcat(a: seq<Buffered>, b: seq<Buffered>)
    ensures SumBytes(a + b) == SumBytes(a) + SumBytes(b)
  {
    if a == [] {
      assert a + b == b;
    } else {
      assert (a + b)[1..] == a[1..] + b;
      SumConcat(a[1..], b);
    }
  }

  lemma {:induction false} SumRemoveAt(events: seq<Buffered>, i: nat)
    requires i < |events|
    ensures SumBytes(RemoveAt(events, i)) + events[i].bytes == SumBytes(events)
  {
    assert events == events[..i] + ([events[i]] + events[i + 1..]);
    SumConcat(events[..i], [events[i]] + events[i + 1..]);
    SumConcat([events[i]], events[i + 1..]);
    SumConcat(events[..i], events[i + 1..]);
  }

  /** Eviction takes the oldest success if there is one, else the oldest failure. */
  lemma {:induction false} VictimIsOldestOfItsKind(events: seq<Buffered>)
    requires events != []
    ensures var v := VictimIndex(events);
            && (forall j :: 0 <= j < v ==> events[j].ok != events[v].ok)
            && (!events[v].ok ==> forall b :: b in events ==> !b.ok)
  {
    var v := VictimIndex(events);
    if !events[v].ok {
      forall b | b in events ensures !b.ok {
        var j :| 0 <= j < |events| && events[j] == b;
      }
    }
  }

  lemma {:induction false} IdsRemoveAt(events: seq<Buffered>, v: nat)
    requires Sorted(events) && v < |events|
    ensures Sorted(RemoveAt(events, v))
    ensures Ids(RemoveAt(events, v)) == Ids(events) - {events[v].id}
    ensures forall b :: b in RemoveAt(events, v) ==> b in events
  {
    var rest := RemoveAt(events, v);
    assert forall i :: 0 <= i < |rest| ==> rest[i] == events[if i < v then i else i + 1];
    forall id | id in Ids(events) && id != events[v].id ensures id in Ids(rest) {
      var b :| b in events && b.id == id;
      var m :| 0 <= m < |events| && events[m] == b;
      assert rest[if m < v then m else m - 1] == b;
    }
  }

  lemma {:induction false} UpClosedWithout(ids: set<nat>, log: seq<WireEvent>, v: nat)
    requires UpClosed(ids, log) && v < |log| && forall i :: i in ids ==> i < |log|
    requires forall i :: i in ids && i < v ==> log[i].ok != log[v].ok
    ensures UpClosed(ids - {v}, log)
  {
  }

  lemma {:induction false} OldestOfItsKind(events: seq<Buffered>, log: seq<WireEvent>, v: nat, id: nat)
    requires Sorted(events) && Logged(events, log) && v < |events|
    requires forall j :: 0 <= j < v ==> events[j].ok != events[v].ok
    requires id in Ids(events) && id < events[v].id
    ensures events[v] in events && log[id].ok != log[events[v].id].ok
  {
    var b :| b in events && b.id == id;
    var n :| 0 <= n < |events| && events[n] == b;
    assert n < v;
  }

  lemma {:induction false} RemoveVictimValid(events: seq<Buffered>, log: seq<WireEvent>)
    requires ValidBuffer(events, log) && events != []
    ensures ValidBuffer(RemoveAt(events, VictimIndex(events)), log)
  {
    var v := VictimIndex(events);
    VictimIsOldestOfItsKind(events);
    IdsRemoveAt(events, v);
    forall i | i in Ids(events) && i < events[v].id ensures log[i].ok != log[events[v].id].ok {
      OldestOfItsKind(events, log, v, i);
    }
    UpClosedWithout(Ids(events), log, events[v].id);
  }

  lemma {:induction false} MakeRoomValid(events: seq<Buffered>, log: seq<WireEvent>)
    requires ValidBuffer(events, log)
    ensures ValidBuffer(MakeRoom(events), log) && |MakeRoom(events)| < MAX_EVENTS
  {
    if |events| >= MAX_EVENTS {
      RemoveVictimValid(events, log);
    }
  }

  lemma {:induction false} AppendValid(events: seq<Buffered>, log: seq<WireEvent>, b: Buffered)
    requires ValidBuffer(events, log)
    requires b.id == |log| && b.ok == b.wire.ok
    ensures ValidBuffer(Appended(events, b), log + [b.wire])
  {
    MakeRoomValid(events, log);
    var room := MakeRoom(events);
    NewestUpClosed(room, log, b);
    assert forall e :: e in room + [b] <==> e in room || e == b;
  }

  lemma {:induction false} NewestUpClosed(events: seq<Buffered>, log: seq<WireEvent>, b: Buffered)
    requires Logged(events, log) && UpClosed(Ids(events), log) && b.id == |log|
    ensures UpClosed(Ids(events + [b]), log + [b.wire])
  {
    var log' := log + [b.wire];
    assert Ids(events + [b]) == Ids(events) + {b.id} by {
      assert forall e :: e in events + [b] <==> e in events || e == b;
    }
    forall i, j | i in Ids(events) + {b.id} && i < j < |log'| && log'[i].ok == log'[j].ok
      ensures j in Ids(events) + {b.id}
    {
      if j < |log| {
        assert log'[i] == log[i] && log'[j] == log[j];
      }
    }
  }

  lemma {:induction false} RetainMembers(events: seq<Buffered>, ids: set<nat>)
    ensures forall b :: b in Retain(events, ids) <==> b in events && b.id !in ids
    ensures |Retain(events, ids)| <= |events|
    ensures SumBytes(Retain(events, ids)) <= SumBytes(events)
  {
    if events != [] {
      RetainMembers(events[1..], ids);
      var head := if events[0].id in ids then [] else [events[0]];
      SumConcat(head, Retain(events[1..], ids));
      assert forall b :: b in events <==> b == events[0] || b in events[1..];
    }
  }

  lemma {:induction false} RetainSorted(events: seq<Buffered>, ids: set<nat>)
    requires Sorted(events)
    ensures Sorted(Retain(events, ids))
  {
    if events != [] {
      RetainSorted(events[1..], ids);
      RetainMembers(events[1..], ids);
      var rest := Retain(events[1..], ids);
      forall i | 0 <= i < |rest| ensures events[0].id < rest[i].id {
        assert rest[i] in events[1..];
      }
    }
  }

  /** `ids` covers exactly the buffered events up to and including `high`. */
  predicate CoversUpTo(events: seq<Buffered>, ids: set<nat>, high: int) {
    forall b :: b in events ==> (b.id in ids <==> b.id <= high)
  }

  lemma {:induction false} RetainValid(events: seq<Buffered>, log: seq<WireEvent>, ids: set<nat>, high: int)
    requires ValidBuffer(events, log) && CoversUpTo(events, ids, high)
    ensures ValidBuffer(Retain(events, ids), log)
  {
    RetainMembers(events, ids);
    RetainSorted(events, ids);
    var rest := Retain(events, ids);
    forall i, j | i in Ids(rest) && i < j < |log| && log[i].ok == log[j].ok
      ensures j in Ids(rest)
    {
      var b :| b in rest && b.id == i;
      assert i in Ids(events) && j in Ids(events);
      var c :| c in events && c.id == j;
      assert c in rest;
    }
  }

  // ---- What the invariant says about order ----

  function OfKind(wires: seq<WireEvent>, ok: bool): seq<WireEvent> {
    if wires == [] then []
    else
      var last := wires[|wires| - 1];
      OfKind(wires[..|wires| - 1], ok) + if last.ok == ok then [last] else []
  }

  function Wires(events: seq<Buffered>): seq<WireEvent> {
    seq(|events|, i requires 0 <= i < |events| => events[i].wire)
  }

  predicate IsSuffix<T(==)>(s: seq<T>, t: seq<T>) {
    |s| <= |t| && s == t[|t| - |s|..]
  }

  lemma {:induction false} NoneOfKind(wires: seq<WireEvent>, ok: bool)
    requires forall w :: w in wires ==> w.ok != ok
    ensures OfKind(wires, ok) == []
  {
    if wires != [] {
      NoneOfKind(wires[..|wires| - 1], ok);
    }
  }

  /** The invariant without the size bound, as a shrinking log needs it. */
  predicate Consistent(events: seq<Buffered>, log: seq<WireEvent>) {
    Sorted(events) && Logged(events, log) && UpClosed(Ids(events), log)
  }

  lemma {:induction false} DropNewest(events: seq<Buffered>, log: seq<WireEvent>)
    requires Consistent(events, log) && events != [] && |log| > 0
    requires events[|events| - 1].id == |log| - 1
    ensures Consistent(events[..|events| - 1], log[..|log| - 1])
  {
    var k, n := |events|, |log|;
    var events', log' := events[..k - 1], log[..n - 1];
    forall b | b in events' ensures b in events && b.id < n - 1 {
      var i :| 0 <= i < k - 1 && events'[i] == b;
      assert events[i].id < events[k - 1].id;
    }
    forall i, j | i in Ids(events') && i < j < n - 1 && log'[i].ok == log'[j].ok
      ensures j in Ids(events')
    {
      assert i in Ids(events) && j in Ids(events);
      OlderStays(events, j);
    }
  }

  lemma {:induction false} OlderStays(events: seq<Buffered>, id: nat)
    requires events != [] && id in Ids(events) && id != events[|events| - 1].id
    ensures id in Ids(events[..|events| - 1])
  {
    var c :| c in events && c.id == id;
    var m :| 0 <= m < |events| && events[m] == c;
    assert events[..|events| - 1][m] == c;
  }

  /** If the newest event is gone, so is everything of its kind. */
  lemma {:induction false} NewestGone(events: seq<Buffered>, log: seq<WireEvent>)
    requires Consistent(events, log) && |log| > 0
    requires events == [] || events[|events| - 1].id != |log| - 1
    ensures forall b :: b in events ==> b.id < |log| - 1 && b.wire.ok != log[|log| - 1].ok
    ensures Consistent(events, log[..|log| - 1])
  {
    var n := |log|;
    forall b | b in events ensures b.id < n - 1 && b.wire.ok != log[n - 1].ok {
      var i :| 0 <= i < |events| && events[i] == b;
      var last := events[|events| - 1];
      assert last in events && b.id <= last.id < n - 1;
      assert b.id in Ids(events);
      assert n - 1 !in Ids(events) by {
        forall c | c in events ensures c.id < n - 1 {
          var m :| 0 <= m < |events| && events[m] == c;
        }
      }
    }
  }

  lemma {:induction false} SuffixGrows(wires: seq<WireEvent>, log: seq<WireEvent>, ok: bool)
    requires wires != [] && log != [] && wires[|wires| - 1] == log[|log| - 1]
    requires IsSuffix(OfKind(wires[..|wires| - 1], ok), OfKind(log[..|log| - 1], ok))
    ensures IsSuffix(OfKind(wires, ok), OfKind(log, ok))
  {
    var last := log[|log| - 1];
    SuffixPlus(OfKind(wires[..|wires| - 1], ok), OfKind(log[..|log| - 1], ok), if last.ok == ok then [last] else []);
  }

  lemma {:induction false} SuffixPlus<T>(s: seq<T>, t: seq<T>, more: seq<T>)
    requires IsSuffix(s, t)
    ensures IsSuffix(s + more, t + more)
  {
    var k := |t| - |s|;
    assert t == t[..k] + s;
    assert t + more == t[..k] + (s + more);
  }

  lemma {:induction false} SuffixStays(wires: seq<WireEvent>, log: seq<WireEvent>, ok: bool)
    requires log != [] && forall w :: w in wires ==> w.ok != log[|log| - 1].ok
    requires IsSuffix(OfKind(wires, ok), OfKind(log[..|log| - 1], ok))
    ensures IsSuffix(OfKind(wires, ok), OfKind(log, ok))
  {
    if log[|log| - 1].ok == ok {
      NoneOfKind(wires, ok);
    }
  }

  /** In a valid buffer the buffered successes are a suffix of all successes ever
      buffered, and the buffered failures a suffix of all failures. */
  lemma {:induction false} BufferedAreSuffixes(events: seq<Buffered>, log: seq<WireEvent>, ok: bool)
    requires Consistent(events, log)
    ensures IsSuffix(OfKind(Wires(events), ok), OfKind(log, ok))
    decreases |log|
  {
    var k, n := |events|, |log|;
    assert forall i :: 0 <= i < k ==> events[i] in events;
    if n == 0 {
    } else if k > 0 && events[k - 1].id == n - 1 {
      DropNewest(events, log);
      BufferedAreSuffixes(events[..k - 1], log[..n - 1], ok);
      assert Wires(events)[..k - 1] == Wires(events[..k - 1]);
      SuffixGrows(Wires(events), log, ok);
    } else {
      NewestGone(events, log);
      BufferedAreSuffixes(events, log[..n - 1], ok);
      SuffixStays(Wires(events), log, ok);
    }
  }
}
