/** Strict framing of a receipted stream: where a frame ends, and what it holds. */
module SseFraming {
  import opened Basics
  import opened Text

  type byte = x: int | 0 <= x < 256
  type bytes = seq<byte>

  const LF: byte := 10
  const CR: byte := 13
  const SPACE: byte := 32
  const LF_LF: bytes := [LF, LF]
  const CRLF_CRLF: bytes := [CR, LF, CR, LF]
  const DATA: bytes := [100, 97, 116, 97, 58]             // "data:"
  const EVENT: bytes := [101, 118, 101, 110, 116, 58]     // "event:"
  const DONE: bytes := [91, 68, 79, 78, 69, 93]           // "[DONE]"

  predicate EndsWith(s: bytes, suffix: bytes) {
    |suffix| <= |s| && s[|s| - |suffix|..] == suffix
  }

  predicate OccursAt(s: bytes, needle: bytes, i: nat) {
    i + |needle| <= |s| && s[i..i + |needle|] == needle
  }

  /** Position of the first window equal to a non-empty needle. */
  function FindSubslice(s: bytes, needle: bytes): (r: Option<nat>)
    requires needle != []
    ensures r.Some? ==> r.value + |needle| <= |s|
  {
    if |s| < |needle| then None
    else if s[..|needle|] == needle then Some(0)
    else
      var rest := FindSubslice(s[1..], needle);
      if rest.None? then None else Some(rest.value + 1)
  }

  /** The search returns the first occurrence, and nothing only if there is none. */
  lemma {:induction false} FindsFirst(s: bytes, needle: bytes)
    requires needle != []
    ensures var r := FindSubslice(s, needle);
            && (r.Some? ==> OccursAt(s, needle, r.value))
            && (forall i: nat :: OccursAt(s, needle, i) ==> r.Some? && r.value <= i)
  {
    if |s| >= |needle| && s[..|needle|] != needle {
      FindsFirst(s[1..], needle);
      ShiftOccurrence(s, needle);
    }
  }

  lemma {:induction false} ShiftOccurrence(s: bytes, needle: bytes)
    requires s != []
    ensures forall i: nat :: i > 0 && OccursAt(s, needle, i) ==> OccursAt(s[1..], needle, i - 1)
    ensures forall i: nat :: OccursAt(s[1..], needle, i) ==> OccursAt(s, needle, i + 1)
  {
    forall i: nat | i > 0 && OccursAt(s, needle, i) ensures OccursAt(s[1..], needle, i - 1) {
      assert s[1..][i - 1..i - 1 + |needle|] == s[i..i + |needle|];
    }
    forall i: nat | OccursAt(s[1..], needle, i) ensures OccursAt(s, needle, i + 1) {
      assert s[1..][i..i + |needle|] == s[i + 1..i + 1 + |needle|];
    }
  }

  /** Where the nearer of the two delimiters ends. */
  function FrameLength(rest: bytes): (r: Option<nat>)
    ensures r.Some? ==> 2 <= r.value <= |rest|
  {
    var lf := FindSubslice(rest, LF_LF);
    var crlf := FindSubslice(rest, CRLF_CRLF);
    if lf.Some? && crlf.Some? then Some(Min(lf.value + 2, crlf.value + 4))
    else if lf.Some? then Some(lf.value + 2)
    else if crlf.Some? then Some(crlf.value + 4)
    else None
  }

  /** The next frame from `offset`: its bytes and where it ends. */
  function NextSseEvent(stream: bytes, offset: nat): (r: Option<(bytes, nat)>)
    requires offset <= |stream|
    ensures r.Some? ==> offset < r.value.1 <= |stream| && r.value.0 == stream[offset..r.value.1]
  {
    match FrameLength(stream[offset..])
    case None => None
    case Some(n) => Some((stream[offset..offset + n], offset + n))
  }

  // ---- Frames, independently of the search ----

  predicate Delimited(s: bytes) {
    EndsWith(s, LF_LF) || EndsWith(s, CRLF_CRLF)
  }

  /** A frame ends in a delimiter and no shorter prefix of it does. */
  predicate IsFrame(s: bytes) {
    Delimited(s) && forall k :: 0 <= k < |s| ==> !Delimited(s[..k])
  }

  lemma {:induction false} DelimitedAt(rest: bytes, k: nat)
    requires k <= |rest|
    ensures Delimited(rest[..k])
            <==> (k >= 2 && OccursAt(rest, LF_LF, k - 2)) || (k >= 4 && OccursAt(rest, CRLF_CRLF, k - 4))
  {
    assert k >= 2 ==> rest[..k][k - 2..] == rest[k - 2..k];
    assert k >= 4 ==> rest[..k][k - 4..] == rest[k - 4..k];
  }

  /** The length of the shortest delimited prefix. */
  predicate Shortest(rest: bytes, n: nat) {
    n <= |rest| && Delimited(rest[..n]) && forall k :: 0 <= k < n ==> !Delimited(rest[..k])
  }

  lemma {:induction false} NoneShorter(rest: bytes, k: nat)
    requires k <= |rest| && Delimited(rest[..k])
    ensures FrameLength(rest).Some? && FrameLength(rest).value <= k
  {
    FindsFirst(rest, LF_LF);
    FindsFirst(rest, CRLF_CRLF);
    DelimitedAt(rest, k);
  }

  lemma {:induction false} FoundIsDelimited(rest: bytes)
    requires FrameLength(rest).Some?
    ensures Delimited(rest[..FrameLength(rest).value])
  {
    FindsFirst(rest, LF_LF);
    FindsFirst(rest, CRLF_CRLF);
    DelimitedAt(rest, FrameLength(rest).value);
  }

  /** The double search finds the shortest delimited prefix. */
  lemma {:induction false} FrameLengthExactly(rest: bytes, n: nat)
    ensures FrameLength(rest) == Some(n) <==> Shortest(rest, n)
  {
    var r := FrameLength(rest);
    if r.Some? {
      FoundIsDelimited(rest);
      forall k | 0 <= k < r.value ensures !Delimited(rest[..k]) {
        if Delimited(rest[..k]) {
          NoneShorter(rest, k);
        }
      }
    }
    if Shortest(rest, n) {
      NoneShorter(rest, n);
    }
  }

  lemma {:induction false} FrameIsShortest(rest: bytes, raw: bytes)
    requires raw <= rest
    ensures IsFrame(raw) <==> Shortest(rest, |raw|)
  {
    assert rest[..|raw|] == raw;
    assert forall k :: 0 <= k < |raw| ==> raw[..k] == rest[..k];
  }

  /** The frame found is the one frame the rest starts with; none found means it
      starts with none. */
  lemma {:induction false} FrameExactly(rest: bytes, raw: bytes)
    ensures raw <= rest && FrameLength(rest) == Some(|raw|) <==> raw <= rest && IsFrame(raw)
  {
    if raw <= rest {
      FrameLengthExactly(rest, |raw|);
      FrameIsShortest(rest, raw);
    }
  }

  // ---- A stream as frames ----

  /** The complete frames of a stream, in order. */
  function Frames(s: bytes): seq<bytes>
    decreases |s|
  {
    match FrameLength(s)
    case None => []
    case Some(n) => [s[..n]] + Frames(s[n..])
  }

  /** What is left after the last complete frame. */
  function Tail(s: bytes): bytes
    decreases |s|
  {
    match FrameLength(s)
    case None => s
    case Some(n) => Tail(s[n..])
  }

  function Concat(parts: seq<bytes>): bytes {
    if parts == [] then [] else parts[0] + Concat(parts[1..])
  }

  /** `frames` cut the stream exactly: nothing before, between or after them. */
  predicate Partitions(frames: seq<bytes>, s: bytes) {
    Concat(frames) == s && forall i :: 0 <= i < |frames| ==> IsFrame(frames[i])
  }

  lemma {:induction false} FramesAreFrames(s: bytes)
    ensures forall i :: 0 <= i < |Frames(s)| ==> IsFrame(Frames(s)[i])
    decreases |s|
  {
    var r := FrameLength(s);
    if r.Some? {
      FramesAreFrames(s[r.value..]);
      FrameExactly(s, s[..r.value]);
    }
  }

  lemma {:induction false} CoverStep(head: bytes, frames: seq<bytes>, tail: bytes, rest: bytes)
    requires Concat(frames) + tail == rest
    ensures Concat([head] + frames) + tail == head + rest
  {
    assert ([head] + frames)[1..] == frames;
    assert head + Concat(frames) + tail == head + (Concat(frames) + tail);
  }

  lemma {:induction false} SliceAt(s: bytes, n: nat)
    requires n <= |s|
    ensures s[..n] + s[n..] == s
  {
  }

  lemma {:induction false} FramesCover(s: bytes)
    ensures Concat(Frames(s)) + Tail(s) == s
    decreases |s|
  {
    match FrameLength(s)
    case None =>
    case Some(n) =>
      FramesCover(s[n..]);
      CoverStep(s[..n], Frames(s[n..]), Tail(s[n..]), s[n..]);
      SliceAt(s, n);
  }

  lemma {:induction false} UnfoldFrames(s: bytes, n: nat)
    requires FrameLength(s) == Some(n)
    ensures Frames(s) == [s[..n]] + Frames(s[n..]) && Tail(s) == Tail(s[n..])
  {
  }

  lemma {:induction false} FirstFrame(raw: bytes, rest: bytes)
    requires IsFrame(raw)
    ensures Frames(raw + rest) == [raw] + Frames(rest) && Tail(raw + rest) == Tail(rest)
  {
    var s := raw + rest;
    FrameExactly(s, raw);
    assert s[..|raw|] == raw && s[|raw|..] == rest;
  }

  /** No frame is a prefix of another, so a stream has at most one partition. */
  lemma {:induction false} PartitionUnique(frames: seq<bytes>, s: bytes)
    requires Partitions(frames, s)
    ensures Frames(s) == frames && Tail(s) == []
  {
    if frames == [] {
      assert FrameLength([]) == None;
    } else {
      var rest := Concat(frames[1..]);
      PartitionUnique(frames[1..], rest);
      FirstFrame(frames[0], rest);
      assert [frames[0]] + frames[1..] == frames;
    }
  }

  lemma {:induction false} PartitionsIff(frames: seq<bytes>, s: bytes)
    ensures Partitions(frames, s) <==> Frames(s) == frames && Tail(s) == []
  {
    FramesAreFrames(s);
    FramesCover(s);
    if Partitions(frames, s) {
      PartitionUnique(frames, s);
    }
  }

  /** Appending bytes keeps every frame already complete. */
  lemma {:induction false} FramesGrow(s: bytes, more: bytes)
    ensures Frames(s + more) == Frames(s) + Frames(Tail(s) + more)
    ensures Tail(s + more) == Tail(Tail(s) + more)
    decreases |s|
  {
    var r := FrameLength(s);
    if r.Some? {
      var n := r.value;
      FrameExactly(s, s[..n]);
      SliceAt(s, n);
      Assoc(s[..n], s[n..], more);
      FirstFrame(s[..n], s[n..] + more);
      UnfoldFrames(s, n);
      FramesGrow(s[n..], more);
      Assoc([s[..n]], Frames(s[n..]), Frames(Tail(s[n..]) + more));
    }
  }

  /** The search from an offset takes the first frame of the rest. */
  lemma {:induction false} NextTakesFrame(stream: bytes, offset: nat, raw: bytes, next: nat)
    requires offset <= |stream| && NextSseEvent(stream, offset) == Some((raw, next))
    ensures Frames(stream[offset..]) == [raw] + Frames(stream[next..])
    ensures Tail(stream[offset..]) == Tail(stream[next..])
  {
    var rest, n := stream[offset..], next - offset;
    SliceTwice(stream, offset, n);
    UnfoldFrames(rest, n);
  }

  lemma {:induction false} NoNextNoFrame(stream: bytes, offset: nat)
    requires offset <= |stream| && NextSseEvent(stream, offset) == None
    ensures Frames(stream[offset..]) == [] && Tail(stream[offset..]) == stream[offset..]
  {
  }

  lemma {:induction false} SliceTwice(s: bytes, offset: nat, n: nat)
    requires offset + n <= |s|
    ensures s[offset..][..n] == s[offset..offset + n] && s[offset..][n..] == s[offset + n..]
  {
  }

  // ---- Decoding one frame ----

  datatype Event = Event(name: bytes, payload: bytes, done: bool)

  datatype FrameError = Incomplete | MultipleData | MultipleEvent | UnsupportedField | NoData

  datatype Decoding = Good(event: Event) | Bad(error: FrameError)

  function Body(raw: bytes): Option<bytes> {
    if EndsWith(raw, CRLF_CRLF) then Some(raw[..|raw| - 4])
    else if EndsWith(raw, LF_LF) then Some(raw[..|raw| - 2])
    else None
  }

  function StripCr(line: bytes): bytes {
    if EndsWith(line, [CR]) then line[..|line| - 1] else line
  }

  /** The value after a field name, less one leading space. */
  function FieldValue(line: bytes, field: bytes): bytes
    requires field <= line
  {
    var value := line[|field|..];
    if [SPACE] <= value then value[1..] else value
  }

  /** The two fields seen so far. */
  datatype Fields = Fields(name: Option<bytes>, payload: Option<bytes>)

  datatype FieldStep = Next(fields: Fields) | Stop(error: FrameError)

  function TakeLine(fields: Fields, rawLine: bytes): FieldStep {
    var line := StripCr(rawLine);
    if DATA <= line then
      if fields.payload.Some? then Stop(MultipleData) else Next(fields.(payload := Some(FieldValue(line, DATA))))
    else if EVENT <= line then
      if fields.name.Some? then Stop(MultipleEvent) else Next(fields.(name := Some(FieldValue(line, EVENT))))
    else Stop(UnsupportedField)
  }

  function TakeLines(fields: Fields, lines: seq<bytes>): FieldStep
    decreases |lines|
  {
    if lines == [] then Next(fields)
    else
      match TakeLine(fields, lines[0])
      case Stop(e) => Stop(e)
      case Next(fields') => TakeLines(fields', lines[1..])
  }

  function Decode(raw: bytes): Decoding {
    match Body(raw)
    case None => Bad(Incomplete)
    case Some(body) =>
      match TakeLines(Fields(None, None), Split(body, LF))
      case Stop(e) => Bad(e)
      case Next(fields) =>
        if fields.payload.None? then Bad(NoData)
        else
          Good(Event(if fields.name.Some? then fields.name.value else [], fields.payload.value,
                     fields.payload.value == DONE))
  }

  method DecodeSseEvent(raw: bytes) returns (r: Decoding)
    ensures r == Decode(raw)
  {
    var body := Body(raw);
    if body.None? {
      return Bad(Incomplete);
    }
    var lines := Split(body.value, LF);
    var name: Option<bytes>, payload: Option<bytes> := None, None;
    for i := 0 to |lines|
      invariant TakeLines(Fields(None, None), lines) == TakeLines(Fields(name, payload), lines[i..])
    {
      var line := StripCr(lines[i]);
      assert lines[i..][1..] == lines[i + 1..];
      if DATA <= line {
        if payload.Some? {
          return Bad(MultipleData);
        }
        payload := Some(FieldValue(line, DATA));
      } else if EVENT <= line {
        if name.Some? {
          return Bad(MultipleEvent);
        }
        name := Some(FieldValue(line, EVENT));
      } else {
        return Bad(UnsupportedField);
      }
    }
    if payload.None? {
      return Bad(NoData);
    }
    r := Good(Event(if name.Some? then name.value else [], payload.value, payload.value == DONE));
  }

  predicate LinesFree(fields: Fields) {
    && (fields.name.Some? ==> Free(fields.name.value, LF))
    && (fields.payload.Some? ==> Free(fields.payload.value, LF))
  }

  lemma {:induction false} TakeLinesFree(fields: Fields, lines: seq<bytes>)
    requires LinesFree(fields) && forall l :: l in lines ==> Free(l, LF)
    ensures var r := TakeLines(fields, lines); r.Next? ==> LinesFree(r.fields)
    decreases |lines|
  {
    if lines != [] {
      assert lines[0] in lines;
      var r := TakeLine(fields, lines[0]);
      if r.Next? {
        TakeLinesFree(r.fields, lines[1..]);
      }
    }
  }

  /** Decoded names and payloads never contain a line feed. */
  lemma {:induction false} DecodedIsLineFree(raw: bytes)
    ensures Decode(raw).Good? ==> Free(Decode(raw).event.name, LF) && Free(Decode(raw).event.payload, LF)
  {
    var body := Body(raw);
    if body.Some? {
      SplitPartsFree(body.value, LF);
      TakeLinesFree(Fields(None, None), Split(body.value, LF));
    }
  }
}
