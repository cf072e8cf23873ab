/** Why a receipted stream is refused: the first frame out of place, or what is missing
    at its end. */
module DigestRefusals {
  import opened Basics
  import opened SseFraming
  import opened ReceiptDigest

  predicate HasDone(ds: seq<Decoding>) {
    exists d :: d in ds && IsDone(d)
  }

  /** A frame that carries a receipt, expected or not. */
  predicate IsReceipt<V>(rule: Rule<V>, d: Decoding) {
    d.Good? && !d.event.done && rule.probe(d.event.payload).Receipt?
  }

  predicate HasReceipt<V>(rule: Rule<V>, ds: seq<Decoding>) {
    exists d :: d in ds && IsReceipt(rule, d)
  }

  /** After these frames, this one must be refused so. */
  predicate Refuses<V(==)>(rule: Rule<V>, before: seq<Decoding>, d: Decoding, e: DigestError) {
    match d
    case Bad(error) => e == Frame(error)
    case Good(event) =>
      if HasDone(before) then e == AfterDone
      else if event.done then false
      else
        match rule.probe(event.payload)
        case Malformed => e == BadReceipt
        case Receipt(v) =>
          if HasReceipt(rule, before) then e == MultipleReceipts else e == WrongReceipt && rule.expected != Some(v)
        case NoReceipt =>
          if HasReceipt(rule, before) then e == ReceiptNotLast
          else if rule.domain == Unsupported then e == BadDomain
          else e == NamedEvent && rule.domain == SseData && event.name != []
  }

  /** None of the first `n` frames is refused. */
  ghost predicate Allows<V>(rule: Rule<V>, ds: seq<Decoding>, n: nat)
    requires n <= |ds|
  {
    forall i, e :: 0 <= i < n ==> !Refuses(rule, ds[..i], ds[i], e)
  }

  /** Frame `k` is the first that is refused. */
  ghost predicate Offends<V>(rule: Rule<V>, ds: seq<Decoding>, k: nat, e: DigestError) {
    k < |ds| && Allows(rule, ds, k) && Refuses(rule, ds[..k], ds[k], e)
  }

  /** The scan knows what it has seen. */
  predicate Saw<V>(rule: Rule<V>, before: seq<Decoding>, s: Scan) {
    (s.sawDone <==> HasDone(before)) && (s.sawReceipt <==> HasReceipt(rule, before))
  }

  lemma {:induction false} SeenMore<V>(rule: Rule<V>, before: seq<Decoding>, d: Decoding)
    ensures HasDone(before + [d]) <==> HasDone(before) || IsDone(d)
    ensures HasReceipt(rule, before + [d]) <==> HasReceipt(rule, before) || IsReceipt(rule, d)
  {
    assert forall x :: x in before ==> x in before + [d];
    assert (before + [d])[|before|] == d;
  }

  lemma {:induction false} ScansOrRefuses<V>(rule: Rule<V>, before: seq<Decoding>, s: Scan, d: Decoding)
    requires Saw(rule, before, s)
    ensures var r := ScanFrame(rule, s, d);
            && (r.On? ==> Saw(rule, before + [d], r.scan))
            && forall e :: Refuses(rule, before, d, e) <==> r == Off(e)
  {
    SeenMore(rule, before, d);
  }

  lemma {:induction false} StopsIff<V>(rule: Rule<V>, ds: seq<Decoding>, n: nat, s: Scan, e: DigestError)
    requires n <= |ds| && Saw(rule, ds[..n], s) && Allows(rule, ds, n)
    ensures ScanFrames(rule, s, ds[n..]) == Off(e) <==> exists k :: n <= k < |ds| && Offends(rule, ds, k, e)
    ensures ScanFrames(rule, s, ds[n..]).On? ==> Allows(rule, ds, |ds|) && Saw(rule, ds, ScanFrames(rule, s, ds[n..]).scan)
    decreases |ds| - n
  {
    if n == |ds| {
      assert ds[..n] == ds;
    } else {
      assert ds[n..][0] == ds[n] && ds[n..][1..] == ds[n + 1..];
      ScansOrRefuses(rule, ds[..n], s, ds[n]);
      var r := ScanFrame(rule, s, ds[n]);
      if r.Off? {
        assert Refuses(rule, ds[..n], ds[n], r.error);
        assert Offends(rule, ds, n, r.error);
      } else {
        assert ds[..n + 1] == ds[..n] + [ds[n]];
        StopsIff(rule, ds, n + 1, r.scan, e);
      }
    }
  }

  /** What is wrong with frames none of which is refused, and what is left after them. */
  predicate Lacks<V>(rule: Rule<V>, ds: seq<Decoding>, tail: bytes, e: DigestError) {
    if tail != [] then e == IncompleteTail
    else if !HasReceipt(rule, ds) then e == MissingReceipt
    else e == MissingDone && !HasDone(ds)
  }

  /** A stream is refused with exactly the complaint it deserves: that of its first frame
      out of place; else that bytes are left over, or the receipt or the end is missing. */
  lemma {:induction false} RefusedIff<V>(rule: Rule<V>, stream: bytes, e: DigestError)
    ensures var ds := Map(Decode, Frames(stream));
            DigestOf(rule, stream) == Rejected(e)
            <==> || (exists k :: 0 <= k < |ds| && Offends(rule, ds, k, e))
                 || (Allows(rule, ds, |ds|) && Lacks(rule, ds, Tail(stream), e))
  {
    FramesRefusedIff(rule, Map(Decode, Frames(stream)), Tail(stream), e);
  }

  lemma {:induction false} FramesRefusedIff<V>(rule: Rule<V>, ds: seq<Decoding>, tail: bytes, e: DigestError)
    ensures (match ScanFrames(rule, START, ds)
             case Off(error) => error == e
             case On(s) => (if tail != [] then Rejected(IncompleteTail) else Conclude(s)) == Rejected(e))
            <==> || (exists k :: 0 <= k < |ds| && Offends(rule, ds, k, e))
                 || (Allows(rule, ds, |ds|) && Lacks(rule, ds, tail, e))
  {
    assert ds[..0] == [] && ds[0..] == ds;
    StopsIff(rule, ds, 0, START, e);
    var r := ScanFrames(rule, START, ds);
    if r.Off? {
      StopsIff(rule, ds, 0, START, r.error);
    }
  }
}
