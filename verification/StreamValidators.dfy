/** The four stream validators: chat and Responses streams, parsed and raw. */
module StreamValidators {
  import opened Basics

  datatype SseEvent = SseEvent(name: Option<string>, data: string, id: Option<string>)

  datatype Error = Wire(code: nat) | Invalid(code: nat) | EndedEarly(kind: Kind)

  datatype Kind = Chat | Responses

  /** What arrives: decoded events, or a failure of the wire below. */
  datatype Item = Arrived(event: SseEvent) | Broken(error: Error)

  datatype Out<T> = Yield(value: T) | Fail(error: Error)

  datatype Parsing<V> = Parsed(value: V) | Unparsable(error: Error)

  /** The JSON layer: strict event parsing, the `type` member, and whether trimmed
      data is the `[DONE]` marker. */
  datatype Json<!V> = Json(parse: string -> Parsing<V>, typeOf: V -> Option<string>, isDone: string -> bool)

  /** An event as the parsed streams yield it: chat streams drop the name. */
  datatype Value<V> = Value(name: Option<string>, data: V)

  function EventName<V>(json: Json<V>, e: SseEvent, v: V): string {
    if e.name.Some? && e.name.value != "" && e.name.value != "message" then e.name.value
    else if json.typeOf(v).Some? then json.typeOf(v).value
    else "message"
  }

  predicate TerminalName(name: string) {
    name == "response.completed" || name == "response.failed" || name == "response.incomplete" || name == "error"
  }

  // ---- What one item means ----

  datatype Meaning<V> = Done | Plain(value: V) | Terminal(value: V) | Fault(error: Error)

  function Classify<V>(json: Json<V>, kind: Kind, item: Item): Meaning<V> {
    match item
    case Broken(error) => Fault(error)
    case Arrived(e) =>
      if json.isDone(e.data) then Done
      else
        match json.parse(e.data)
        case Unparsable(error) => Fault(error)
        case Parsed(v) => if kind == Responses && TerminalName(EventName(json, e, v)) then Terminal(v) else Plain(v)
  }

  function Shape<V>(json: Json<V>, kind: Kind, e: SseEvent, v: V): Value<V> {
    Value(if kind == Responses then Some(EventName(json, e, v)) else None, v)
  }

  function RawOutput<V>(json: Json<V>, kind: Kind, items: seq<Item>): seq<Out<SseEvent>> {
    if items == [] then [Fail(EndedEarly(kind))]
    else
      match Classify(json, kind, items[0])
      case Fault(error) => [Fail(error)]
      case Done => [Yield(items[0].event)]
      case Terminal(_) => [Yield(items[0].event)]
      case Plain(_) => [Yield(items[0].event)] + RawOutput(json, kind, items[1..])
  }

  function ParsedOutput<V>(json: Json<V>, kind: Kind, items: seq<Item>): seq<Out<Value<V>>> {
    if items == [] then [Fail(EndedEarly(kind))]
    else
      match Classify(json, kind, items[0])
      case Fault(error) => [Fail(error)]
      case Done => []
      case Terminal(v) => [Yield(Shape(json, kind, items[0].event, v))]
      case Plain(v) => [Yield(Shape(json, kind, items[0].event, v))] + ParsedOutput(json, kind, items[1..])
  }

  // ---- The loops ----

  lemma {:induction false} From<T>(s: seq<T>, i: nat)
    requires i < |s|
    ensures s[i..] != [] && s[i..][0] == s[i] && s[i..][1..] == s[i + 1..]
  {
  }

  method ValidateChatStream<V>(json: Json<V>, items: seq<Item>) returns (out: seq<Out<Value<V>>>, completed: bool)
    ensures out == ParsedOutput(json, Chat, items)
    ensures completed <==> ReachesEnd(json, Chat, items)
  {
    var terminated := false;
    out, completed := [], false;
    var i := 0;
    while i < |items|
      invariant 0 <= i <= |items| && !terminated && !completed
      invariant out + ParsedOutput(json, Chat, items[i..]) == ParsedOutput(json, Chat, items)
      invariant ReachesEnd(json, Chat, items) == ReachesEnd(json, Chat, items[i..])
    {
      var item := items[i];
      From(items, i);
      if item.Broken? {
        out := out + [Fail(item.error)];
        return;
      } else if json.isDone(item.event.data) {
        terminated, completed := true, true;
        break;
      }
      match json.parse(item.event.data) {
        case Parsed(v) =>
          Assoc(out, [Yield(Value(None, v))], ParsedOutput(json, Chat, items[i + 1..]));
          out := out + [Yield(Value(None, v))];
        case Unparsable(error) =>
          out := out + [Fail(error)];
          return;
      }
      i := i + 1;
    }
    if !terminated {
      out := out + [Fail(EndedEarly(Chat))];
    }
  }

  method ValidateRawChatStream<V>(json: Json<V>, items: seq<Item>) returns (out: seq<Out<SseEvent>>, completed: bool)
    ensures out == RawOutput(json, Chat, items)
    ensures completed <==> ReachesEnd(json, Chat, items)
  {
    var terminated := false;
    out, completed := [], false;
    var i := 0;
    while i < |items|
      invariant 0 <= i <= |items| && !terminated && !completed
      invariant out + RawOutput(json, Chat, items[i..]) == RawOutput(json, Chat, items)
      invariant ReachesEnd(json, Chat, items) == ReachesEnd(json, Chat, items[i..])
    {
      var item := items[i];
      From(items, i);
      if item.Broken? {
        out := out + [Fail(item.error)];
        return;
      } else if json.isDone(item.event.data) {
        terminated, completed := true, true;
        out := out + [Yield(item.event)];
        break;
      }
      match json.parse(item.event.data) {
        case Parsed(v) =>
          Assoc(out, [Yield(item.event)], RawOutput(json, Chat, items[i + 1..]));
          out := out + [Yield(item.event)];
        case Unparsable(error) =>
          out := out + [Fail(error)];
          return;
      }
      i := i + 1;
    }
    if !terminated {
      out := out + [Fail(EndedEarly(Chat))];
    }
  }

  method ValidateResponsesStream<V>(json: Json<V>, items: seq<Item>)
    returns (out: seq<Out<Value<V>>>, completed: bool)
    ensures out == ParsedOutput(json, Responses, items)
    ensures completed <==> ReachesEnd(json, Responses, items)
  {
    var terminated := false;
    out, completed := [], false;
    var i := 0;
    while i < |items|
      invariant 0 <= i <= |items| && !terminated && !completed
      invariant out + ParsedOutput(json, Responses, items[i..]) == ParsedOutput(json, Responses, items)
      invariant ReachesEnd(json, Responses, items) == ReachesEnd(json, Responses, items[i..])
    {
      var item := items[i];
      From(items, i);
      if item.Broken? {
        out := out + [Fail(item.error)];
        return;
      }
      var event := item.event;
      if json.isDone(event.data) {
        terminated, completed := true, true;
        break;
      }
      match json.parse(event.data) {
        case Unparsable(error) =>
          out := out + [Fail(error)];
          return;
        case Parsed(v) =>
          var name := EventName(json, event, v);
          Assoc(out, [Yield(Value(Some(name), v))], ParsedOutput(json, Responses, items[i + 1..]));
          out := out + [Yield(Value(Some(name), v))];
          if TerminalName(name) {
            terminated, completed := true, true;
            break;
          }
      }
      i := i + 1;
    }
    if !terminated {
      out := out + [Fail(EndedEarly(Responses))];
    }
  }

  method ValidateRawResponsesStream<V>(json: Json<V>, items: seq<Item>)
    returns (out: seq<Out<SseEvent>>, completed: bool)
    ensures out == RawOutput(json, Responses, items)
    ensures completed <==> ReachesEnd(json, Responses, items)
  {
    var terminated := false;
    out, completed := [], false;
    var i := 0;
    while i < |items|
      invariant 0 <= i <= |items| && !terminated && !completed
      invariant out + RawOutput(json, Responses, items[i..]) == RawOutput(json, Responses, items)
      invariant ReachesEnd(json, Responses, items) == ReachesEnd(json, Responses, items[i..])
    {
      var item := items[i];
      From(items, i);
      if item.Broken? {
        out := out + [Fail(item.error)];
        return;
      }
      var event := item.event;
      if json.isDone(event.data) {
        terminated, completed := true, true;
        out := out + [Yield(event)];
        break;
      }
      match json.parse(event.data) {
        case Unparsable(error) =>
          out := out + [Fail(error)];
          return;
        case Parsed(v) =>
          Assoc(out, [Yield(event)], RawOutput(json, Responses, items[i + 1..]));
          out := out + [Yield(event)];
          if TerminalName(EventName(json, event, v)) {
            terminated, completed := true, true;
            break;
          }
      }
      i := i + 1;
    }
    if !terminated {
      out := out + [Fail(EndedEarly(Responses))];
    }
  }

  // ---- Parity ----

  /** The stream reaches `[DONE]` or a terminal event before anything goes wrong. */
  predicate ReachesEnd<V>(json: Json<V>, kind: Kind, items: seq<Item>) {
    items != [] &&
    match Classify(json, kind, items[0])
    case Fault(_) => false
    case Done => true
    case Terminal(_) => true
    case Plain(_) => ReachesEnd(json, kind, items[1..])
  }

  /** A raw output read through the parser, `[DONE]` left out. */
  function Project<V>(json: Json<V>, kind: Kind, out: seq<Out<SseEvent>>): seq<Out<Value<V>>> {
    if out == [] then []
    else
      (match out[0]
       case Fail(error) => [Fail(error)]
       case Yield(e) =>
         if json.isDone(e.data) then []
         else
           match json.parse(e.data)
           case Parsed(v) => [Yield(Shape(json, kind, e, v))]
           case Unparsable(error) => [Fail(error)])
      + Project(json, kind, out[1..])
  }

  lemma {:induction false} ProjectOne<V>(json: Json<V>, kind: Kind, o: Out<SseEvent>, rest: seq<Out<SseEvent>>)
    ensures Project(json, kind, [o] + rest) == Project(json, kind, [o]) + Project(json, kind, rest)
  {
    assert ([o] + rest)[1..] == rest && [o][1..] == [];
  }

  /** Each parsed validator yields exactly its raw twin's output, parsed, with the
      `[DONE]` event removed. */
  lemma {:induction false} ParsedMirrorsRaw<V>(json: Json<V>, kind: Kind, items: seq<Item>)
    ensures ParsedOutput(json, kind, items) == Project(json, kind, RawOutput(json, kind, items))
  {
    if items != [] {
      if Classify(json, kind, items[0]).Plain? {
        ParsedMirrorsRaw(json, kind, items[1..]);
        ProjectOne(json, kind, Yield(items[0].event), RawOutput(json, kind, items[1..]));
      }
    }
  }

  function Stop<V>(json: Json<V>, kind: Kind, items: seq<Item>): (i: nat)
    ensures i <= |items|
  {
    FirstIndex(items, (item: Item) => !Classify(json, kind, item).Plain?)
  }

  lemma {:induction false} StopStep<V>(json: Json<V>, kind: Kind, items: seq<Item>)
    requires items != []
    ensures Stop(json, kind, items)
            == if Classify(json, kind, items[0]).Plain? then 1 + Stop(json, kind, items[1..]) else 0
  {
    var i, j := Stop(json, kind, items), Stop(json, kind, items[1..]);
    if Classify(json, kind, items[0]).Plain? {
      assert i > 0;
      assert i - 1 < |items[1..]| ==> items[1..][i - 1] == items[i];
      assert j < |items[1..]| ==> items[1..][j] == items[j + 1];
    }
  }

  function Last<T>(s: seq<T>): T
    requires s != []
  {
    s[|s| - 1]
  }

  /** A stream ends without an error iff a terminal was reached, and then, as after
      an error, whatever follows in the input is never looked at. */
  lemma {:induction false} EndsCleanlyIff<V>(json: Json<V>, kind: Kind, items: seq<Item>, more: seq<Item>)
    ensures ReachesEnd(json, kind, items) <==> Last(RawOutput(json, kind, items)).Yield?
    ensures ReachesEnd(json, kind, items)
            <==> ParsedOutput(json, kind, items) == [] || Last(ParsedOutput(json, kind, items)).Yield?
    ensures Stop(json, kind, items) < |items| ==>
              && RawOutput(json, kind, items + more) == RawOutput(json, kind, items)
              && ParsedOutput(json, kind, items + more) == ParsedOutput(json, kind, items)
  {
    if items != [] {
      StopStep(json, kind, items);
      assert (items + more)[1..] == items[1..] + more;
      if Classify(json, kind, items[0]).Plain? {
        EndsCleanlyIff(json, kind, items[1..], more);
      }
    }
  }

  // ---- Against the items as they arrive ----

  /** The name an event goes by: its own unless that is missing, empty or "message"; else
      the type of its data; else "message". */
  predicate Named<V(==)>(json: Json<V>, e: SseEvent, v: V, name: string) {
    if e.name == None || e.name == Some("") || e.name == Some("message") then
      json.typeOf(v) == Some(name) || (json.typeOf(v) == None && name == "message")
    else e.name == Some(name)
  }

  /** A Responses event that ends its stream. */
  predicate EndsResponses<V(==)>(json: Json<V>, e: SseEvent, v: V) {
    exists name :: name in {"response.completed", "response.failed", "response.incomplete", "error"}
                   && Named(json, e, v, name)
  }

  /** An event that is passed on and followed by the next item. */
  predicate Passes<V(==)>(json: Json<V>, kind: Kind, item: Item) {
    && item.Arrived? && !json.isDone(item.event.data) && json.parse(item.event.data).Parsed?
    && !(kind == Responses && EndsResponses(json, item.event, json.parse(item.event.data).value))
  }

  /** An item that ends its stream as it should. */
  predicate Ends<V(==)>(json: Json<V>, kind: Kind, item: Item) {
    && item.Arrived?
    && (json.isDone(item.event.data)
        || (kind == Responses && json.parse(item.event.data).Parsed?
            && EndsResponses(json, item.event, json.parse(item.event.data).value)))
  }

  lemma {:induction false} NamedIff<V>(json: Json<V>, e: SseEvent, v: V, name: string)
    ensures Named(json, e, v, name) <==> EventName(json, e, v) == name
  {
  }

  lemma {:induction false} EndsResponsesIff<V>(json: Json<V>, e: SseEvent, v: V)
    ensures EndsResponses(json, e, v) <==> TerminalName(EventName(json, e, v))
  {
    forall name ensures Named(json, e, v, name) <==> EventName(json, e, v) == name {
      NamedIff(json, e, v, name);
    }
    var name := EventName(json, e, v);
    if TerminalName(name) {
      assert name in {"response.completed", "response.failed", "response.incomplete", "error"};
      assert Named(json, e, v, name);
    }
  }

  lemma {:induction false} ClassifyMeans<V>(json: Json<V>, kind: Kind, item: Item)
    ensures Classify(json, kind, item).Plain? <==> Passes(json, kind, item)
    ensures Classify(json, kind, item).Done? || Classify(json, kind, item).Terminal? <==> Ends(json, kind, item)
  {
    if item.Arrived? && json.parse(item.event.data).Parsed? {
      EndsResponsesIff(json, item.event, json.parse(item.event.data).value);
    }
  }

  /** A stream reaches its end iff some item ends it and every item before passes. */
  lemma {:induction false} ReachesEndIff<V>(json: Json<V>, kind: Kind, items: seq<Item>)
    ensures ReachesEnd(json, kind, items)
            <==> exists n :: 0 <= n < |items| && Ends(json, kind, items[n])
                             && forall i :: 0 <= i < n ==> Passes(json, kind, items[i])
  {
    if items != [] {
      ClassifyMeans(json, kind, items[0]);
      var rest := items[1..];
      ReachesEndIff(json, kind, rest);
      if n :| 0 <= n < |items| && Ends(json, kind, items[n]) && forall i :: 0 <= i < n ==> Passes(json, kind, items[i]) {
        if n > 0 {
          assert rest[n - 1] == items[n] && forall i :: 0 <= i < n - 1 ==> rest[i] == items[i + 1];
        }
      }
      if ReachesEnd(json, kind, items) && Passes(json, kind, items[0]) {
        var n :| 0 <= n < |rest| && Ends(json, kind, rest[n]) && forall i :: 0 <= i < n ==> Passes(json, kind, rest[i]);
        assert items[n + 1] == rest[n];
        forall i | 0 <= i < n + 1 ensures Passes(json, kind, items[i]) {
          if i > 0 {
            assert items[i] == rest[i - 1];
          }
        }
      }
    }
  }

  /** A raw stream passes each event that passes on unchanged; its first other item ends
      it, as an event or as an error, and without one it ended early. */
  lemma {:induction false} RawExactly<V>(json: Json<V>, kind: Kind, items: seq<Item>, n: nat)
    requires n <= |items| && (forall i :: 0 <= i < n ==> Passes(json, kind, items[i]))
    requires n < |items| ==> !Passes(json, kind, items[n])
    ensures var out := RawOutput(json, kind, items);
            && |out| == n + 1
            && (forall i :: 0 <= i < n ==> items[i].Arrived? && out[i] == Yield(items[i].event))
            && out[n] == if n == |items| then Fail(EndedEarly(kind))
                         else
                           match items[n]
                           case Broken(error) => Fail(error)
                           case Arrived(e) =>
                             if !json.isDone(e.data) && json.parse(e.data).Unparsable? then Fail(json.parse(e.data).error)
                             else Yield(e)
  {
    if items != [] {
      ClassifyMeans(json, kind, items[0]);
      if n > 0 {
        RawExactly(json, kind, items[1..], n - 1);
        assert forall i :: 1 <= i < n ==> items[i] == items[1..][i - 1];
      }
    }
  }

  /** The parsed form of an event: its data, named in a Responses stream only. */
  predicate ParsedAs<V(==)>(json: Json<V>, kind: Kind, e: SseEvent, out: Out<Value<V>>) {
    && out.Yield? && json.parse(e.data) == Parsed(out.value.data)
    && (if kind == Chat then out.value.name == None
        else out.value.name.Some? && Named(json, e, out.value.data, out.value.name.value))
  }

  /** What a parsed stream ends with once it comes to an item that does not pass. */
  predicate ParsedEnd<V(==)>(json: Json<V>, kind: Kind, item: Item, out: seq<Out<Value<V>>>) {
    match item
    case Broken(error) => out == [Fail(error)]
    case Arrived(e) =>
      if json.isDone(e.data) then out == []
      else
        match json.parse(e.data)
        case Unparsable(error) => out == [Fail(error)]
        case Parsed(_) => |out| == 1 && ParsedAs(json, kind, e, out[0])
  }

  lemma {:induction false} FirstIsNamed<V>(json: Json<V>, item: Item)
    ensures item.Arrived? && json.parse(item.event.data).Parsed? ==>
              var v := json.parse(item.event.data).value;
              Named(json, item.event, v, EventName(json, item.event, v))
  {
    if item.Arrived? && json.parse(item.event.data).Parsed? {
      var v := json.parse(item.event.data).value;
      NamedIff(json, item.event, v, EventName(json, item.event, v));
    }
  }

  /** A parsed stream yields each event that passes, parsed, and then what its first
      other item makes of it, or that it ended early. */
  lemma {:induction false} ParsedExactly<V>(json: Json<V>, kind: Kind, items: seq<Item>, n: nat)
    requires n <= |items| && (forall i :: 0 <= i < n ==> Passes(json, kind, items[i]))
    requires n < |items| ==> !Passes(json, kind, items[n])
    ensures var out := ParsedOutput(json, kind, items);
            && |out| >= n && (forall i :: 0 <= i < n ==> items[i].Arrived? && ParsedAs(json, kind, items[i].event, out[i]))
            && (if n == |items| then out[n..] == [Fail(EndedEarly(kind))] else ParsedEnd(json, kind, items[n], out[n..]))
  {
    var out := ParsedOutput(json, kind, items);
    if items == [] {
      assert out[0..] == out;
    } else {
      ClassifyMeans(json, kind, items[0]);
      FirstIsNamed(json, items[0]);
      if n == 0 {
        assert out[0..] == out;
      } else {
        ParsedExactly(json, kind, items[1..], n - 1);
        var rest := ParsedOutput(json, kind, items[1..]);
        assert out[1..] == rest && out[n..] == rest[n - 1..];
        assert forall i :: 1 <= i < n ==> out[i] == rest[i - 1] && items[i] == items[1..][i - 1];
      }
    }
  }
}
