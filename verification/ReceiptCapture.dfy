/** Incremental capture: every chunk is kept and the wire is searched again. */
module ReceiptCapture {
  import opened Basics
  import opened SseFraming
  import opened ReceiptDigest

  /** The receipt one complete frame carries, if any; undecodable frames and
      malformed receipts carry none. */
  function ReceiptIn<V>(probe: bytes -> Probe<V>, d: Decoding): Option<V> {
    match d
    case Bad(_) => None
    case Good(e) => if probe(e.payload).Receipt? then Some(probe(e.payload).value) else None
  }

  /** The last receipt among the frames, or `before` if there is none. */
  function Latest<V>(probe: bytes -> Probe<V>, before: Option<V>, ds: seq<Decoding>): Option<V> {
    if ds == [] then before
    else
      var last := ReceiptIn(probe, ds[|ds| - 1]);
      if last.Some? then last else Latest(probe, before, ds[..|ds| - 1])
  }

  /** The complete frames of a wire, decoded. */
  function Complete(wire: bytes): seq<Decoding> {
    Decodings(Frames(wire))
  }

  class Capture<V(==)> {
    const probe: bytes -> Probe<V>
    var wire: bytes
    var receipt: Option<V>

    /** The receipt held is the last one among the complete frames of the wire. */
    ghost predicate Valid()
      reads this
    {
      receipt == Latest(probe, None, Complete(wire))
    }

    constructor (probe: bytes -> Probe<V>)
      ensures Valid() && wire == [] && this.probe == probe
    {
      this.probe := probe;
      wire := [];
      receipt := None;
    }

    method RefreshReceipt()
      modifies `receipt
      ensures receipt == Latest(probe, old(receipt), Complete(wire))
    {
      var offset := 0;
      ghost var seen: seq<Decoding> := [];
      assert wire[0..] == wire;
      while offset < |wire|
        invariant offset <= |wire|
        invariant Complete(wire) == seen + Complete(wire[offset..])
        invariant receipt == Latest(probe, old(receipt), seen)
        decreases |wire| - offset
      {
        var found := NextSseEvent(wire, offset);
        if found.None? {
          NoNextNoFrame(wire, offset);
          NothingAfter(seen);
          return;
        }
        var (raw, next) := found.value;
        NextTakesFrame(wire, offset, raw, next);
        DecodingsOneMore(raw, Frames(wire[next..]));
        var event := DecodeSseEvent(raw);
        Assoc(seen, [event], Complete(wire[next..]));
        LatestOneMore(probe, old(receipt), seen, event);
        offset := next;
        var r := ReceiptIn(probe, event);
        if r.Some? {
          receipt := r;
        }
        seen := seen + [event];
      }
      assert wire[offset..] == [];
      NothingAfter(seen);
    }

    /** A chunk arrives. */
    method Push(chunk: bytes)
      requires Valid()
      modifies this
      ensures Valid() && wire == old(wire) + chunk
    {
      wire := wire + chunk;
      RefreshReceipt();
      Rescan(probe, old(wire), chunk);
    }
  }

  lemma {:induction false} NothingAfter(seen: seq<Decoding>)
    ensures Complete([]) == [] && seen + [] == seen
  {
  }

  lemma {:induction false} LatestOneMore<V>(probe: bytes -> Probe<V>, before: Option<V>, seen: seq<Decoding>, d: Decoding)
    ensures Latest(probe, before, seen + [d])
            == if ReceiptIn(probe, d).Some? then ReceiptIn(probe, d) else Latest(probe, before, seen)
  {
    assert (seen + [d])[..|seen|] == seen;
  }

  lemma {:induction false} LatestDefault<V>(probe: bytes -> Probe<V>, before: Option<V>, ds: seq<Decoding>)
    ensures Latest(probe, None, ds).Some? ==> Latest(probe, before, ds) == Latest(probe, None, ds)
    ensures Latest(probe, None, ds).None? ==> Latest(probe, before, ds) == before
  {
    if ds != [] {
      LatestDefault(probe, before, ds[..|ds| - 1]);
    }
  }

  lemma {:induction false} LatestConcat<V>(probe: bytes -> Probe<V>, before: Option<V>, a: seq<Decoding>, b: seq<Decoding>)
    ensures Latest(probe, before, a + b) == Latest(probe, Latest(probe, before, a), b)
  {
    if b == [] {
      assert a + b == a;
    } else {
      var n := |b| - 1;
      assert (a + b)[..|a| + n] == a + b[..n];
      LatestConcat(probe, before, a, b[..n]);
    }
  }

  /** Searching the grown wire again from the start, without forgetting the receipt
      held, finds the last receipt of the grown wire. */
  lemma {:induction false} Rescan<V>(probe: bytes -> Probe<V>, wire: bytes, chunk: bytes)
    ensures Latest(probe, Latest(probe, None, Complete(wire)), Complete(wire + chunk))
            == Latest(probe, None, Complete(wire + chunk))
  {
    FramesGrow(wire, chunk);
    MapConcat(Decode, Frames(wire), Frames(Tail(wire) + chunk));
    var fs, gs := Complete(wire), Complete(Tail(wire) + chunk);
    var held := Latest(probe, None, fs);
    LatestConcat(probe, None, fs, gs);
    LatestConcat(probe, held, fs, gs);
    LatestDefault(probe, held, fs);
  }

  /** What a capture holds after some chunks. */
  datatype Held<V> = Held(wire: bytes, receipt: Option<V>)

  function CaptureAll<V>(probe: bytes -> Probe<V>, chunks: seq<bytes>): Held<V> {
    if chunks == [] then Held([], None)
    else
      var before := CaptureAll(probe, chunks[..|chunks| - 1]);
      var wire := before.wire + chunks[|chunks| - 1];
      Held(wire, Latest(probe, before.receipt, Complete(wire)))
  }

  lemma {:induction false} ConcatLast(chunks: seq<bytes>)
    requires chunks != []
    ensures Concat(chunks) == Concat(chunks[..|chunks| - 1]) + chunks[|chunks| - 1]
  {
    var n := |chunks| - 1;
    if n == 0 {
      assert chunks[1..] == [];
      assert chunks[0] + [] == [] + chunks[0];
    } else {
      ConcatLast(chunks[1..]);
      assert chunks[1..][..n - 1] == chunks[..n][1..];
      assert chunks[0] + (Concat(chunks[..n][1..]) + chunks[n]) == chunks[0] + Concat(chunks[..n][1..]) + chunks[n];
    }
  }

  /** However the wire is split into chunks, the capture holds exactly the wire and
      the last receipt among its complete frames. */
  lemma {:induction false} ChunkingIndependent<V>(probe: bytes -> Probe<V>, chunks: seq<bytes>)
    ensures CaptureAll(probe, chunks) == Held(Concat(chunks), Latest(probe, None, Complete(Concat(chunks))))
  {
    if chunks == [] {
      assert Frames([]) == [];
    } else {
      var n := |chunks| - 1;
      ChunkingIndependent(probe, chunks[..n]);
      ConcatLast(chunks);
      Rescan(probe, Concat(chunks[..n]), chunks[n]);
    }
  }

  lemma {:induction false} DataHoldsNone<V>(rule: Rule<V>, ds: seq<Decoding>)
    requires forall i :: 0 <= i < |ds| ==> IsData(rule, ds[i])
    ensures Latest(rule.probe, None, ds) == None
  {
    if ds != [] {
      assert IsData(rule, ds[|ds| - 1]);
      DataHoldsNone(rule, ds[..|ds| - 1]);
    }
  }

  lemma {:induction false} LastTwo(ds: seq<Decoding>)
    requires |ds| >= 2
    ensures var n := |ds| - 2; ds[..n] + [ds[n]] + [ds[n + 1]] == ds
  {
  }

  lemma {:induction false} ReceiptedLatest<V>(rule: Rule<V>, ds: seq<Decoding>)
    requires Receipted(rule, ds) && ds[|ds| - 1].event.payload == DONE && !rule.probe(DONE).Receipt?
    ensures rule.expected.Some? && Latest(rule.probe, None, ds) == rule.expected
  {
    var n := |ds| - 2;
    DataHoldsNone(rule, ds[..n]);
    LatestOneMore(rule.probe, None, ds[..n], ds[n]);
    LatestOneMore(rule.probe, None, ds[..n] + [ds[n]], ds[n + 1]);
    LastTwo(ds);
  }

  /** If the digest accepts a wire against a receipt, the capture of that wire, in any
      chunks, has found exactly that receipt. `[DONE]` itself is not JSON. */
  lemma {:induction false} AcceptedReceiptIsCaptured<V>(rule: Rule<V>, chunks: seq<bytes>)
    requires DigestOf(rule, Concat(chunks)).Accepted? && !rule.probe(DONE).Receipt?
    ensures rule.expected.Some? && CaptureAll(rule.probe, chunks).receipt == rule.expected
  {
    var wire := Concat(chunks);
    var d := DigestOf(rule, wire);
    AcceptedByFrames(rule, wire, d.preimage, d.events);
    var fs := Frames(wire);
    DonePayload(fs[|fs| - 1]);
    ReceiptedLatest(rule, Complete(wire));
    ChunkingIndependent(rule.probe, chunks);
  }

  lemma {:induction false} DonePayload(raw: bytes)
    requires IsDone(Decode(raw))
    ensures Decode(raw).event.payload == DONE
  {
  }

  // ---- Which receipt ----

  predicate Carries<V(==)>(probe: bytes -> Probe<V>, d: Decoding, v: V) {
    d.Good? && probe(d.event.payload) == Receipt(v)
  }

  /** Decoding `k` is the last to carry a receipt, and carries `v`. */
  predicate LastCarries<V(==)>(probe: bytes -> Probe<V>, ds: seq<Decoding>, k: nat, v: V) {
    && k < |ds| && Carries(probe, ds[k], v)
    && forall j :: k < j < |ds| ==> !(ds[j].Good? && probe(ds[j].event.payload).Receipt?)
  }

  lemma {:induction false} LatestIff<V>(probe: bytes -> Probe<V>, ds: seq<Decoding>, v: V)
    ensures Latest(probe, None, ds) == Some(v) <==> exists k :: 0 <= k < |ds| && LastCarries(probe, ds, k, v)
  {
    if ds != [] {
      var n := |ds| - 1;
      var some := ds[..n];
      LatestIff(probe, some, v);
      if ReceiptIn(probe, ds[n]).Some? {
        if Carries(probe, ds[n], v) {
          assert LastCarries(probe, ds, n, v);
        }
      } else {
        if k :| 0 <= k < |some| && LastCarries(probe, some, k, v) {
          assert LastCarries(probe, ds, k, v);
        }
        if k :| 0 <= k < |ds| && LastCarries(probe, ds, k, v) {
          assert LastCarries(probe, some, k, v);
        }
      }
    }
  }

  /** A capture holds a receipt iff the last complete frame with a receipt carries it,
      however the wire came in chunks. */
  lemma {:induction false} CapturedIff<V>(probe: bytes -> Probe<V>, chunks: seq<bytes>, v: V)
    ensures var ds := Map(Decode, Frames(Concat(chunks)));
            CaptureAll(probe, chunks).receipt == Some(v)
            <==> exists k :: 0 <= k < |ds| && LastCarries(probe, ds, k, v)
  {
    ChunkingIndependent(probe, chunks);
    LatestIff(probe, Map(Decode, Frames(Concat(chunks))), v);
    CompleteIs(Concat(chunks));
  }

  lemma {:induction false} CompleteIs(wire: bytes)
    ensures Complete(wire) == Map(Decode, Frames(wire))
  {
  }
}
