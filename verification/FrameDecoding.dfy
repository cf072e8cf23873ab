/** What a frame must look like to decode, and which complaint any other one gets,
    in terms of the bytes written. */
module FrameDecoding {
  import opened Basics
  import opened Text
  import opened SseFraming

  /** ASCII text as bytes. */
  function Ascii(s: string): (b: bytes)
    requires forall i :: 0 <= i < |s| ==> s[i] as int < 128
    ensures |b| == |s|
  {
    seq(|s|, i requires 0 <= i < |s| => s[i] as int)
  }

  /** `written` is the line `text`, with or without a carriage return after it. */
  predicate EndsLine(written: bytes, text: bytes) {
    written == text + [13] || (written == text && !EndsWith(text, [13]))
  }

  /** `written` gives `field` the value `value`, after at most one space. */
  predicate Gives(written: bytes, field: bytes, value: bytes) {
    || EndsLine(written, field + [32] + value)
    || (EndsLine(written, field + value) && !([32] <= value))
  }

  predicate GivesData(written: bytes, value: bytes) {
    Gives(written, Ascii("data:"), value)
  }

  predicate GivesName(written: bytes, value: bytes) {
    Gives(written, Ascii("event:"), value)
  }

  /** `raw` is these lines and a blank one, ended by LF or by CRLF. */
  predicate Lines(raw: bytes, lines: seq<bytes>) {
    && lines != [] && (forall l :: l in lines ==> Free(l, 10))
    && (raw == Join(lines, 10) + [10, 10] || raw == Join(lines, 10) + [13, 10, 13, 10])
  }

  // ---- Lines ----

  lemma {:induction false} Words()
    ensures Ascii("data:") == DATA && Ascii("event:") == EVENT && Ascii("[DONE]") == DONE
  {
  }

  lemma {:induction false} LinesIff(raw: bytes, lines: seq<bytes>)
    ensures Lines(raw, lines) <==> Body(raw).Some? && Split(Body(raw).value, LF) == lines
  {
    if Lines(raw, lines) {
      SplitJoin(lines, LF);
      var body := Join(lines, 10);
      if raw == body + [13, 10, 13, 10] {
        assert raw[..|raw| - 4] == body && raw[|raw| - 4..] == CRLF_CRLF;
      } else {
        assert raw[..|raw| - 2] == body && raw[|raw| - 2..] == LF_LF && raw[|raw| - 2] == LF;
      }
    }
    if Body(raw).Some? {
      var body := Body(raw).value;
      JoinSplit(body, LF);
      SplitPartsFree(body, LF);
      assert raw == body + raw[|body|..];
    }
  }

  lemma {:induction false} EndsLineIff(written: bytes, text: bytes)
    ensures EndsLine(written, text) <==> StripCr(written) == text
  {
    if EndsWith(written, [CR]) {
      assert written == written[..|written| - 1] + [CR];
    }
    if written == text + [13] {
      assert written[..|written| - 1] == text && written[|written| - 1..] == [CR];
    }
  }

  lemma {:induction false} GivesIff(written: bytes, field: bytes, value: bytes)
    ensures Gives(written, field, value)
            <==> field <= StripCr(written) && FieldValue(StripCr(written), field) == value
  {
    var line := StripCr(written);
    EndsLineIff(written, field + [32] + value);
    EndsLineIff(written, field + value);
    if line == field + [32] + value {
      assert line[|field|..] == [32] + value;
    }
    if line == field + value {
      assert line[|field|..] == value;
    }
    if field <= line {
      var rest := line[|field|..];
      assert line == field + rest;
      if [SPACE] <= rest {
        assert rest == [32] + rest[1..] && line == field + [32] + rest[1..];
      }
    }
  }

  // ---- Frames that decode ----

  /** One line gives the data, at most one other gives the name, and there is no
      other line. */
  predicate Writes(lines: seq<bytes>, name: bytes, payload: bytes) {
    || (|lines| == 1 && GivesData(lines[0], payload) && name == [])
    || (|lines| == 2 && GivesData(lines[0], payload) && GivesName(lines[1], name))
    || (|lines| == 2 && GivesName(lines[0], name) && GivesData(lines[1], payload))
  }

  const NOTHING := Fields(None, None)

  /** A line gives the data, gives the name, or is not allowed. */
  lemma {:induction false} TakeLineIs(fields: Fields, l: bytes)
    ensures var line := StripCr(l);
            TakeLine(fields, l) ==
              if DATA <= line then
                if fields.payload.Some? then Stop(MultipleData) else Next(fields.(payload := Some(FieldValue(line, DATA))))
              else if EVENT <= line then
                if fields.name.Some? then Stop(MultipleEvent) else Next(fields.(name := Some(FieldValue(line, EVENT))))
              else Stop(UnsupportedField)
    ensures !(DATA <= StripCr(l) && EVENT <= StripCr(l))
    ensures DATA <= StripCr(l) <==> DATA <= l
    ensures EVENT <= StripCr(l) <==> EVENT <= l
  {
    assert DATA[0] != EVENT[0];
    StripKeepsPrefix(l, DATA);
    StripKeepsPrefix(l, EVENT);
  }

  lemma {:induction false} StripKeepsPrefix(l: bytes, field: bytes)
    requires field != [] && field[|field| - 1] != CR
    ensures field <= StripCr(l) <==> field <= l
  {
    if field <= l && EndsWith(l, [CR]) {
      assert l[|l| - 1..][0] == l[|l| - 1];
      assert |l| > |field| by {
        assert l[|field| - 1] == field[|field| - 1];
      }
    }
  }

  /** Nothing is left to give once both are given. */
  lemma {:induction false} BothGiven(fields: Fields, lines: seq<bytes>)
    requires fields.name.Some? && fields.payload.Some?
    ensures TakeLines(fields, lines).Next? <==> lines == []
  {
    if lines != [] {
      TakeLineIs(fields, lines[0]);
    }
  }

  lemma {:induction false} OneGiven(fields: Fields, lines: seq<bytes>)
    requires fields.name.None? != fields.payload.None?
    ensures var r := TakeLines(fields, lines);
            r.Next? <==> lines == [] || (|lines| == 1 && TakeLine(fields, lines[0]).Next?)
    ensures |lines| == 1 && TakeLine(fields, lines[0]).Next? ==> TakeLines(fields, lines) == TakeLine(fields, lines[0])
  {
    if lines != [] {
      TakeLineIs(fields, lines[0]);
      var r := TakeLine(fields, lines[0]);
      if r.Next? {
        BothGiven(r.fields, lines[1..]);
      }
      assert |lines| == 1 <==> lines[1..] == [];
    }
  }

  /** The line loop succeeds with both facts exactly on such lines. */
  lemma {:induction false} TakesIff(lines: seq<bytes>, name: bytes, payload: bytes)
    requires lines != []
    ensures var r := TakeLines(NOTHING, lines);
            r.Next? && r.fields.payload == Some(payload)
            && name == (if r.fields.name.Some? then r.fields.name.value else [])
            <==> Writes(lines, name, payload)
  {
    Words();
    forall l, v ensures GivesData(l, v) <==> DATA <= StripCr(l) && FieldValue(StripCr(l), DATA) == v {
      GivesIff(l, DATA, v);
    }
    forall l, v ensures GivesName(l, v) <==> EVENT <= StripCr(l) && FieldValue(StripCr(l), EVENT) == v {
      GivesIff(l, EVENT, v);
    }
    TakeLineIs(NOTHING, lines[0]);
    var r := TakeLine(NOTHING, lines[0]);
    if r.Next? {
      var rest := lines[1..];
      OneGiven(r.fields, rest);
      if |lines| == 2 {
        assert rest[0] == lines[1];
        TakeLineIs(r.fields, lines[1]);
      }
    }
  }

  /** A frame decodes to an event iff it is a line with the data, at most one with the
      name, and a blank line; and the event is the end iff its data is `[DONE]`. */
  lemma {:induction false} DecodesIff(raw: bytes, name: bytes, payload: bytes, done: bool)
    ensures Decode(raw) == Good(Event(name, payload, done))
            <==> (exists lines :: Lines(raw, lines) && Writes(lines, name, payload))
                 && (done <==> payload == Ascii("[DONE]"))
  {
    Words();
    if Body(raw).Some? {
      var lines := Split(Body(raw).value, LF);
      LinesIff(raw, lines);
      TakesIff(lines, name, payload);
    }
    if lines :| Lines(raw, lines) && Writes(lines, name, payload) {
      LinesIff(raw, lines);
    }
  }

  // ---- Frames that do not ----

  predicate IsData(l: bytes) {
    Ascii("data:") <= l
  }

  predicate IsName(l: bytes) {
    Ascii("event:") <= l
  }

  predicate SomeData(lines: seq<bytes>) {
    exists l :: l in lines && IsData(l)
  }

  predicate SomeName(lines: seq<bytes>) {
    exists l :: l in lines && IsName(l)
  }

  /** After these lines, this one must be refused so. */
  predicate Refused(before: seq<bytes>, l: bytes, e: FrameError) {
    match e
    case MultipleData => IsData(l) && SomeData(before)
    case MultipleEvent => IsName(l) && SomeName(before)
    case UnsupportedField => !IsData(l) && !IsName(l)
    case _ => false
  }

  /** None of the first `n` lines is refused. */
  predicate Allowed(lines: seq<bytes>, n: nat)
    requires n <= |lines|
  {
    forall i, e :: 0 <= i < n ==> !Refused(lines[..i], lines[i], e)
  }

  /** Line `k` is the first that is refused. */
  predicate Offends(lines: seq<bytes>, k: nat, e: FrameError) {
    k < |lines| && Allowed(lines, k) && Refused(lines[..k], lines[k], e)
  }

  /** What is wrong with some lines and a blank one. */
  predicate Wrong(lines: seq<bytes>, e: FrameError) {
    || (exists k :: 0 <= k < |lines| && Offends(lines, k, e))
    || (e == NoData && |lines| == 1 && IsName(lines[0]))
  }

  /** The fields hold what the lines gave. */
  predicate Seen(before: seq<bytes>, fields: Fields) {
    (fields.payload.Some? <==> SomeData(before)) && (fields.name.Some? <==> SomeName(before))
  }

  lemma {:induction false} TakesOrRefuses(before: seq<bytes>, fields: Fields, l: bytes)
    requires Seen(before, fields)
    ensures var r := TakeLine(fields, l);
            && (r.Next? ==> Seen(before + [l], r.fields))
            && forall e :: Refused(before, l, e) <==> r == Stop(e)
  {
    Words();
    TakeLineIs(fields, l);
    SomeMore(before, l);
  }

  lemma {:induction false} SomeMore(before: seq<bytes>, l: bytes)
    ensures SomeData(before + [l]) <==> SomeData(before) || IsData(l)
    ensures SomeName(before + [l]) <==> SomeName(before) || IsName(l)
  {
    assert forall x :: x in before ==> x in before + [l];
    assert (before + [l])[|before|] == l;
  }

  lemma {:induction false} StopsIff(lines: seq<bytes>, n: nat, fields: Fields, e: FrameError)
    requires n <= |lines| && Seen(lines[..n], fields) && Allowed(lines, n)
    ensures TakeLines(fields, lines[n..]) == Stop(e) <==> exists k :: n <= k < |lines| && Offends(lines, k, e)
    decreases |lines| - n
  {
    if n < |lines| {
      assert lines[n..][0] == lines[n] && lines[n..][1..] == lines[n + 1..];
      TakesOrRefuses(lines[..n], fields, lines[n]);
      var r := TakeLine(fields, lines[n]);
      if r.Stop? {
        assert Refused(lines[..n], lines[n], r.error);
        assert Offends(lines, n, r.error);
      } else {
        assert lines[..n + 1] == lines[..n] + [lines[n]];
        StopsIff(lines, n + 1, r.fields, e);
      }
    }
  }

  lemma {:induction false} LoneName(lines: seq<bytes>)
    requires lines != []
    ensures var r := TakeLines(NOTHING, lines);
            r.Next? && r.fields.payload.None? <==> |lines| == 1 && IsName(lines[0])
  {
    Words();
    TakeLineIs(NOTHING, lines[0]);
    var r := TakeLine(NOTHING, lines[0]);
    if r.Next? {
      OneGiven(r.fields, lines[1..]);
      if |lines| == 2 {
        TakeLineIs(r.fields, lines[1]);
      }
    }
  }

  /** A frame is refused with exactly the complaint it deserves: it does not end in a
      blank line, its first refused line, or a name without data. */
  lemma {:induction false} RefusesIff(raw: bytes, e: FrameError)
    ensures Decode(raw) == Bad(e)
            <==> if e == Incomplete then forall lines :: !Lines(raw, lines)
                 else exists lines :: Lines(raw, lines) && Wrong(lines, e)
  {
    if Body(raw).Some? {
      var lines := Split(Body(raw).value, LF);
      LinesIff(raw, lines);
      assert lines[..0] == [] && lines[0..] == lines;
      StopsIff(lines, 0, NOTHING, e);
      LoneName(lines);
      if lines' :| Lines(raw, lines') && Wrong(lines', e) {
        LinesIff(raw, lines');
      }
    } else {
      forall lines ensures !Lines(raw, lines) {
        LinesIff(raw, lines);
      }
    }
  }
}
