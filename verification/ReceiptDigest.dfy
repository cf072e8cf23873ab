/** The receipted stream's acceptance automaton and the bytes it hashes. The hash
    itself is left abstract: a digest is its preimage. */
module ReceiptDigest {
  import opened Basics
  import opened Text
  import opened SseFraming

  datatype Domain = SseData | SseEvents | Unsupported

  /** What the JSON layer says of a payload: no receipt in it, a receipt, or a
      receipt member that is not an object. */
  datatype Probe<V> = NoReceipt | Receipt(value: V) | Malformed

  datatype Rule<!V> = Rule(domain: Domain, expected: Option<V>, probe: bytes -> Probe<V>)

  datatype DigestError =
    | Frame(error: FrameError) | IncompleteTail | AfterDone | MultipleReceipts | WrongReceipt
    | ReceiptNotLast | NamedEvent | BadDomain | BadReceipt | MissingReceipt | MissingDone

  datatype Scan = Scan(preimage: bytes, events: nat, sawReceipt: bool, sawDone: bool)

  datatype Scanning = On(scan: Scan) | Off(error: DigestError)

  const START := Scan([], 0, false, false)

  function Hashed(domain: Domain, e: Event): bytes {
    (if domain == SseEvents then e.name + [LF] else []) + e.payload + [LF]
  }

  /** One iteration of the digest loop. */
  function ScanFrame<V(==)>(rule: Rule<V>, s: Scan, d: Decoding): Scanning {
    match d
    case Bad(e) => Off(Frame(e))
    case Good(event) =>
      if s.sawDone then Off(AfterDone)
      else if event.done then On(s.(sawDone := true))
      else
        match rule.probe(event.payload)
        case Malformed => Off(BadReceipt)
        case Receipt(v) =>
          if s.sawReceipt then Off(MultipleReceipts)
          else if rule.expected != Some(v) then Off(WrongReceipt)
          else On(s.(sawReceipt := true))
        case NoReceipt =>
          if s.sawReceipt then Off(ReceiptNotLast)
          else if rule.domain == SseData && event.name != [] then Off(NamedEvent)
          else if rule.domain == Unsupported then Off(BadDomain)
          else On(s.(preimage := s.preimage + Hashed(rule.domain, event), events := s.events + 1))
  }

  function ScanFrames<V(==)>(rule: Rule<V>, s: Scan, ds: seq<Decoding>): Scanning
    decreases |ds|
  {
    if ds == [] then On(s)
    else
      match ScanFrame(rule, s, ds[0])
      case Off(e) => Off(e)
      case On(s') => ScanFrames(rule, s', ds[1..])
  }

  /** The frames as the strict event decoder reads them. */
  function Decodings(frames: seq<bytes>): (ds: seq<Decoding>)
    ensures |ds| == |frames|
  {
    Map(Decode, frames)
  }

  datatype Digest = Accepted(preimage: bytes, events: nat) | Rejected(error: DigestError)

  function Conclude(s: Scan): Digest {
    if !s.sawReceipt then Rejected(MissingReceipt)
    else if !s.sawDone then Rejected(MissingDone)
    else Accepted(s.preimage, s.events)
  }

  function DigestOf<V(==)>(rule: Rule<V>, stream: bytes): Digest {
    match ScanFrames(rule, START, Decodings(Frames(stream)))
    case Off(e) => Rejected(e)
    case On(s) => if Tail(stream) != [] then Rejected(IncompleteTail) else Conclude(s)
  }

  lemma {:induction false} DecodingsOneMore(raw: bytes, frames: seq<bytes>)
    ensures Decodings([raw] + frames) == [Decode(raw)] + Decodings(frames)
  {
    MapOneMore(Decode, raw, frames);
  }

  lemma {:induction false} ScanOneMore<V>(rule: Rule<V>, s: Scan, d: Decoding, ds: seq<Decoding>)
    ensures ScanFrames(rule, s, [d] + ds) ==
            match ScanFrame(rule, s, d)
            case Off(e) => Off(e)
            case On(s') => ScanFrames(rule, s', ds)
  {
    assert ([d] + ds)[1..] == ds;
  }

  /** The source's loop: the offset moves from delimiter to delimiter. */
  method StreamDigest<V(==)>(rule: Rule<V>, stream: bytes) returns (r: Digest)
    ensures r == DigestOf(rule, stream)
  {
    var s := START;
    var offset := 0;
    ghost var scanned := ScanFrames(rule, START, Decodings(Frames(stream)));
    assert stream[0..] == stream;
    while offset < |stream|
      invariant offset <= |stream|
      invariant scanned == ScanFrames(rule, s, Decodings(Frames(stream[offset..])))
      invariant Tail(stream) == Tail(stream[offset..])
      decreases |stream| - offset
    {
      var found := NextSseEvent(stream, offset);
      if found.None? {
        NoNextNoFrame(stream, offset);
        return Rejected(IncompleteTail);
      }
      var (raw, next) := found.value;
      NextTakesFrame(stream, offset, raw, next);
      DecodingsOneMore(raw, Frames(stream[next..]));
      offset := next;
      var event := DecodeSseEvent(raw);
      ScanOneMore(rule, s, event, Decodings(Frames(stream[next..])));
      var step := ScanFrame(rule, s, event);
      if step.Off? {
        return Rejected(step.error);
      }
      s := step.scan;
    }
    assert stream[offset..] == [];
    r := Conclude(s);
  }

  // ---- The language accepted ----

  predicate IsData<V(==)>(rule: Rule<V>, d: Decoding) {
    d.Good?
    && !d.event.done && rule.probe(d.event.payload).NoReceipt?
    && (rule.domain == SseEvents || (rule.domain == SseData && d.event.name == []))
  }

  predicate IsExpectedReceipt<V(==)>(rule: Rule<V>, d: Decoding) {
    && d.Good? && !d.event.done
    && rule.probe(d.event.payload).Receipt? && rule.expected == Some(rule.probe(d.event.payload).value)
  }

  predicate IsDone(d: Decoding) {
    d.Good? && d.event.done
  }

  /** Data events, then the receipt, then `[DONE]`, and nothing else. */
  predicate Receipted<V(==)>(rule: Rule<V>, ds: seq<Decoding>) {
    var n := |ds| - 2;
    && n >= 0
    && (forall i :: 0 <= i < n ==> IsData(rule, ds[i]))
    && IsExpectedReceipt(rule, ds[n])
    && IsDone(ds[n + 1])
  }

  /** The data events of a receipted stream. */
  function DataEvents<V(==)>(rule: Rule<V>, ds: seq<Decoding>): (events: seq<Event>)
    requires Receipted(rule, ds)
    ensures |events| == |ds| - 2
    ensures forall i :: 0 <= i < |events| ==> ds[i] == Good(events[i])
  {
    seq(|ds| - 2, i requires 0 <= i < |ds| - 2 => ds[i].event)
  }

  function Preimage(domain: Domain, events: seq<Event>): bytes {
    if events == [] then [] else Hashed(domain, events[0]) + Preimage(domain, events[1..])
  }

  lemma {:induction false} DoneEnds<V>(rule: Rule<V>, s: Scan, ds: seq<Decoding>)
    requires s.sawDone
    ensures ScanFrames(rule, s, ds).On? <==> ds == []
  {
  }

  lemma {:induction false} ReceiptThenDone<V>(rule: Rule<V>, s: Scan, ds: seq<Decoding>)
    requires s.sawReceipt && !s.sawDone
    ensures var r := ScanFrames(rule, s, ds);
            (r.On? && r.scan.sawDone <==> |ds| == 1 && IsDone(ds[0]))
            && (r.On? && r.scan.sawDone ==> r.scan == s.(sawDone := true))
  {
    if ds != [] {
      match ScanFrame(rule, s, ds[0]) {
        case On(s') => DoneEnds(rule, s', ds[1..]);
        case Off(_) =>
      }
      assert |ds| == 1 ==> ds[1..] == [];
    }
  }

  /** What one frame can be before any receipt or `[DONE]`. */
  lemma {:induction false} FirstStep<V>(rule: Rule<V>, s: Scan, d: Decoding)
    requires !s.sawReceipt && !s.sawDone
    ensures var r := ScanFrame(rule, s, d);
            if IsData(rule, d) then
              r == On(s.(preimage := s.preimage + Hashed(rule.domain, d.event), events := s.events + 1))
            else if IsExpectedReceipt(rule, d) then r == On(s.(sawReceipt := true))
            else if IsDone(d) then r == On(s.(sawDone := true))
            else r.Off?
    ensures IsExpectedReceipt(rule, d) ==> !IsData(rule, d) && !IsDone(d)
    ensures IsData(rule, d) ==> !IsDone(d)
  {
  }

  predicate AcceptsWith<V(==)>(rule: Rule<V>, s: Scan, ds: seq<Decoding>, r: Scanning) {
    && (r.On? && r.scan.sawReceipt && r.scan.sawDone <==> Receipted(rule, ds))
    && (Receipted(rule, ds) ==>
          && r.scan.events == s.events + |ds| - 2
          && r.scan.preimage == s.preimage + Preimage(rule.domain, DataEvents(rule, ds)))
  }

  lemma {:induction false} DataFirst<V>(rule: Rule<V>, s: Scan, s': Scan, ds: seq<Decoding>, r: Scanning)
    requires ds != [] && IsData(rule, ds[0])
    requires s'.events == s.events + 1 && s'.preimage == s.preimage + Hashed(rule.domain, ds[0].event)
    requires AcceptsWith(rule, s', ds[1..], r)
    ensures AcceptsWith(rule, s, ds, r)
  {
    ReceiptedHead(rule, ds);
    if Receipted(rule, ds) {
      FirstDataEvent(rule, ds);
      PreimageFirst(rule.domain, s.preimage, ds[0].event, DataEvents(rule, ds));
    }
  }

  lemma {:induction false} PreimageFirst(domain: Domain, before: bytes, first: Event, events: seq<Event>)
    requires events != [] && events[0] == first
    ensures before + Preimage(domain, events) == before + Hashed(domain, first) + Preimage(domain, events[1..])
  {
    var h, t := Hashed(domain, first), Preimage(domain, events[1..]);
    assert before + (h + t) == before + h + t;
  }

  /** A scan that ends accepted saw exactly data events, the receipt and `[DONE]`. */
  lemma {:induction false} ScanAccepts<V>(rule: Rule<V>, s: Scan, ds: seq<Decoding>)
    requires !s.sawReceipt && !s.sawDone
    ensures AcceptsWith(rule, s, ds, ScanFrames(rule, s, ds))
    decreases |ds|
  {
    if ds != [] {
      var d, rest := ds[0], ds[1..];
      var r := ScanFrame(rule, s, d);
      FirstStep(rule, s, d);
      if IsData(rule, d) {
        ScanAccepts(rule, r.scan, rest);
        DataFirst(rule, s, r.scan, ds, ScanFrames(rule, r.scan, rest));
      } else {
        NoDataFirst(rule, s, ds);
      }
    }
  }

  lemma {:induction false} NoDataFirst<V>(rule: Rule<V>, s: Scan, ds: seq<Decoding>)
    requires !s.sawReceipt && !s.sawDone && ds != [] && !IsData(rule, ds[0])
    ensures AcceptsWith(rule, s, ds, ScanFrames(rule, s, ds))
  {
    var d, rest := ds[0], ds[1..];
    FirstStep(rule, s, d);
    ReceiptedHead(rule, ds);
    var r := ScanFrame(rule, s, d);
    if r.On? {
      if r.scan.sawDone {
        DoneEnds(rule, r.scan, rest);
      } else {
        ReceiptThenDone(rule, r.scan, rest);
      }
    }
  }

  lemma {:induction false} ReceiptedHead<V>(rule: Rule<V>, ds: seq<Decoding>)
    requires ds != []
    ensures Receipted(rule, ds) <==>
              || (IsData(rule, ds[0]) && Receipted(rule, ds[1..]))
              || (IsExpectedReceipt(rule, ds[0]) && |ds| == 2 && IsDone(ds[1]))
  {
    var n := |ds| - 2;
    if IsData(rule, ds[0]) && Receipted(rule, ds[1..]) {
      assert forall i :: 1 <= i < n ==> ds[i] == ds[1..][i - 1];
    }
    if Receipted(rule, ds) && n > 0 {
      assert forall i :: 0 <= i < n - 1 ==> ds[1..][i] == ds[i + 1];
    }
  }

  lemma {:induction false} FirstDataEvent<V>(rule: Rule<V>, ds: seq<Decoding>)
    requires Receipted(rule, ds) && Receipted(rule, ds[1..]) && |ds| > 2
    ensures DataEvents(rule, ds)[0] == ds[0].event && DataEvents(rule, ds)[1..] == DataEvents(rule, ds[1..])
  {
  }

  lemma {:induction false} ConcludesExactly<V>(
    rule: Rule<V>, ds: seq<Decoding>, r: Scanning, preimage: bytes, events: nat)
    requires AcceptsWith(rule, START, ds, r)
    ensures r.On? && Conclude(r.scan) == Accepted(preimage, events)
            <==> Receipted(rule, ds) && events == |ds| - 2 && preimage == Preimage(rule.domain, DataEvents(rule, ds))
  {
    if Receipted(rule, ds) {
      var p := Preimage(rule.domain, DataEvents(rule, ds));
      assert [] + p == p;
    }
  }

  /** The partition, the grammar and the digest an accepted stream goes with. */
  predicate AcceptedBy<V(==)>(rule: Rule<V>, stream: bytes, frames: seq<bytes>, preimage: bytes, events: nat) {
    && Partitions(frames, stream) && Receipted(rule, Decodings(frames))
    && events == |frames| - 2
    && preimage == Preimage(rule.domain, DataEvents(rule, Decodings(frames)))
  }

  lemma {:induction false} AcceptedByFrames<V>(rule: Rule<V>, stream: bytes, preimage: bytes, events: nat)
    ensures DigestOf(rule, stream) == Accepted(preimage, events)
            <==> AcceptedBy(rule, stream, Frames(stream), preimage, events)
  {
    var ds := Decodings(Frames(stream));
    ScanAccepts(rule, START, ds);
    ConcludesExactly(rule, ds, ScanFrames(rule, START, ds), preimage, events);
    PartitionsIff(Frames(stream), stream);
  }

  /** `stream_digest` accepts a stream iff it partitions exactly into frames that are
      data events, then the expected receipt, then `[DONE]`; the digest is that of
      the data events alone, and the count is their number. */
  lemma {:induction false} AcceptsExactly<V>(rule: Rule<V>, stream: bytes, preimage: bytes, events: nat)
    ensures DigestOf(rule, stream) == Accepted(preimage, events)
            <==> exists frames :: AcceptedBy(rule, stream, frames, preimage, events)
  {
    AcceptedByFrames(rule, stream, preimage, events);
    if frames :| AcceptedBy(rule, stream, frames, preimage, events) {
      PartitionsIff(frames, stream);
    }
  }

  // ---- The preimage determines the events ----

  /** The LF-terminated lines hashed for the events. */
  function HashLines(domain: Domain, events: seq<Event>): seq<bytes> {
    if events == [] then []
    else
      (if domain == SseEvents then [events[0].name, events[0].payload] else [events[0].payload])
      + HashLines(domain, events[1..])
  }

  function Terminated(lines: seq<bytes>): bytes {
    if lines == [] then [] else lines[0] + [LF] + Terminated(lines[1..])
  }

  lemma {:induction false} TerminatedConcat(a: seq<bytes>, b: seq<bytes>)
    ensures Terminated(a + b) == Terminated(a) + Terminated(b)
  {
    if a == [] {
      assert a + b == b;
    } else {
      assert (a + b)[1..] == a[1..] + b;
      TerminatedConcat(a[1..], b);
    }
  }

  lemma {:induction false} HashedIsTerminated(domain: Domain, e: Event)
    ensures Hashed(domain, e) == Terminated(if domain == SseEvents then [e.name, e.payload] else [e.payload])
  {
    var one := [e.payload];
    assert one[1..] == [] && Terminated(one) == e.payload + [LF] + [];
    var two := [e.name, e.payload];
    assert two[1..] == one;
  }

  lemma {:induction false} PreimageIsTerminated(domain: Domain, events: seq<Event>)
    ensures Preimage(domain, events) == Terminated(HashLines(domain, events))
  {
    if events != [] {
      HashedIsTerminated(domain, events[0]);
      PreimageIsTerminated(domain, events[1..]);
      TerminatedConcat(if domain == SseEvents then [events[0].name, events[0].payload] else [events[0].payload],
                       HashLines(domain, events[1..]));
    }
  }

  lemma {:induction false} SplitTerminated(lines: seq<bytes>)
    requires forall l :: l in lines ==> Free(l, LF)
    ensures Split(Terminated(lines), LF) == lines + [[]]
  {
    if lines != [] {
      assert lines[0] in lines;
      SplitTerminated(lines[1..]);
      SplitFree(lines[0], LF);
      SplitConcat(lines[0], LF, Terminated(lines[1..]));
      assert [lines[0]] + (lines[1..] + [[]]) == lines + [[]];
    }
  }

  predicate LineFree(e: Event) {
    Free(e.name, LF) && Free(e.payload, LF)
  }

  lemma {:induction false} HashLinesFree(domain: Domain, events: seq<Event>)
    requires forall i :: 0 <= i < |events| ==> LineFree(events[i])
    ensures forall l :: l in HashLines(domain, events) ==> Free(l, LF)
  {
    if events != [] {
      assert LineFree(events[0]);
      HashLinesFree(domain, events[1..]);
    }
  }

  /** The events a preimage can stand for: not the terminator, and nameless unless
      names are hashed. */
  predicate Hashable(domain: Domain, e: Event) {
    LineFree(e) && !e.done && (domain == SseEvents || (domain == SseData && e.name == []))
  }

  lemma {:induction false} LinesDetermineEvents(domain: Domain, a: seq<Event>, b: seq<Event>)
    requires forall i :: 0 <= i < |a| ==> Hashable(domain, a[i])
    requires forall i :: 0 <= i < |b| ==> Hashable(domain, b[i])
    requires HashLines(domain, a) == HashLines(domain, b)
    ensures a == b
  {
    if a != [] && b != [] {
      var la, lb := HashLines(domain, a), HashLines(domain, b);
      var k := if domain == SseEvents then 2 else 1;
      assert la[0] == lb[0] && la[k - 1] == lb[k - 1];
      assert la[k..] == HashLines(domain, a[1..]) && lb[k..] == HashLines(domain, b[1..]);
      LinesDetermineEvents(domain, a[1..], b[1..]);
      assert a[0] == b[0];
      assert a == [a[0]] + a[1..] && b == [b[0]] + b[1..];
    }
  }

  lemma {:induction false} PreimageInjective(domain: Domain, a: seq<Event>, b: seq<Event>)
    requires forall i :: 0 <= i < |a| ==> Hashable(domain, a[i])
    requires forall i :: 0 <= i < |b| ==> Hashable(domain, b[i])
    requires Preimage(domain, a) == Preimage(domain, b)
    ensures a == b
  {
    PreimageIsTerminated(domain, a);
    PreimageIsTerminated(domain, b);
    HashLinesFree(domain, a);
    HashLinesFree(domain, b);
    SplitTerminated(HashLines(domain, a));
    SplitTerminated(HashLines(domain, b));
    DropLast(HashLines(domain, a), HashLines(domain, b));
    LinesDetermineEvents(domain, a, b);
  }

  lemma {:induction false} DropLast(a: seq<bytes>, b: seq<bytes>)
    requires a + [[]] == b + [[]]
    ensures a == b
  {
    assert a == (a + [[]])[..|a + [[]]| - 1] && b == (b + [[]])[..|b + [[]]| - 1];
  }

  lemma {:induction false} ReceiptedHashable<V>(rule: Rule<V>, frames: seq<bytes>)
    requires Receipted(rule, Decodings(frames))
    ensures var events := DataEvents(rule, Decodings(frames));
            forall i :: 0 <= i < |events| ==> Hashable(rule.domain, events[i])
  {
    var ds := Decodings(frames);
    forall i | 0 <= i < |ds| - 2 ensures Hashable(rule.domain, DataEvents(rule, ds)[i]) {
      assert IsData(rule, ds[i]);
      DecodedIsLineFree(frames[i]);
    }
  }

  lemma {:induction false} SameDecodings<V>(rule: Rule<V>, ds: seq<Decoding>, rule': Rule<V>, ds': seq<Decoding>)
    requires Receipted(rule, ds) && Receipted(rule', ds') && DataEvents(rule, ds) == DataEvents(rule', ds')
    ensures |ds| == |ds'| && forall i :: 0 <= i < |ds| - 2 ==> ds[i] == ds'[i]
  {
    assert |ds| - 2 == |DataEvents(rule, ds)| == |ds'| - 2;
    forall i | 0 <= i < |ds| - 2 ensures ds[i] == ds'[i] {
      assert ds[i] == Good(DataEvents(rule, ds)[i]);
    }
  }

  /** Two accepted streams of one domain with equal preimages carry the same number
      of events with the same names and payloads, whatever their receipts and their
      line endings. */
  lemma {:induction false} PreimageUniquelyDecodable<V>(
    rule: Rule<V>, stream: bytes, frames: seq<bytes>, rule': Rule<V>, stream': bytes, frames': seq<bytes>,
    preimage: bytes, n: nat, n': nat)
    requires rule.domain == rule'.domain
    requires AcceptedBy(rule, stream, frames, preimage, n) && AcceptedBy(rule', stream', frames', preimage, n')
    ensures n == n' && forall i :: 0 <= i < n ==> Decodings(frames)[i] == Decodings(frames')[i]
  {
    var ds, ds' := Decodings(frames), Decodings(frames');
    ReceiptedHashable(rule, frames);
    ReceiptedHashable(rule', frames');
    PreimageInjective(rule.domain, DataEvents(rule, ds), DataEvents(rule', ds'));
    SameDecodings(rule, ds, rule', ds');
  }
}
