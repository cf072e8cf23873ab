/** Route folding: percent escapes, ASCII case, repeated and trailing slashes.

    A path is the sequence of its bytes, each as the character of that code. */
module Routing {
  import opened Basics
  import opened Text

  // ---- Percent decoding ----

  function HexValue(c: char): Option<nat> {
    if '0' <= c <= '9' then Some(c as int - '0' as int)
    else if 'a' <= c <= 'f' then Some(c as int - 'a' as int + 10)
    else if 'A' <= c <= 'F' then Some(c as int - 'A' as int + 10)
    else None
  }

  /** The path starts with `%` and two hexadecimal digits. */
  predicate StartsWithEscape(s: string) {
    |s| >= 3 && s[0] == '%' && HexValue(s[1]).Some? && HexValue(s[2]).Some?
  }

  function EscapedChar(s: string): char
    requires StartsWithEscape(s)
  {
    (HexValue(s[1]).value * 16 + HexValue(s[2]).value) as char
  }

  /** One layer of escapes; malformed ones stay literal. */
  function PercentDecode(s: string): string {
    if s == [] then []
    else if StartsWithEscape(s) then [EscapedChar(s)] + PercentDecode(s[3..])
    else [s[0]] + PercentDecode(s[1..])
  }

  lemma {:induction false} DecodeAt(path: string, index: nat)
    requires index < |path|
    ensures var rest := path[index..];
            StartsWithEscape(rest) <==>
              path[index] == '%' && index + 2 < |path|
              && HexValue(path[index + 1]).Some? && HexValue(path[index + 2]).Some?
    ensures var rest := path[index..];
            PercentDecode(rest) == if StartsWithEscape(rest) then [EscapedChar(rest)] + PercentDecode(path[index + 3..])
                                   else [path[index]] + PercentDecode(path[index + 1..])
  {
    var rest := path[index..];
    assert rest[1..] == path[index + 1..];
    if StartsWithEscape(rest) {
      assert rest[3..] == path[index + 3..];
    }
  }

  method PercentDecodeAscii(path: string) returns (out: string)
    ensures out == PercentDecode(path)
  {
    out := [];
    var index := 0;
    assert path[0..] == path;
    while index < |path|
      invariant 0 <= index <= |path|
      invariant out + PercentDecode(path[index..]) == PercentDecode(path)
    {
      DecodeAt(path, index);
      var byte := path[index];
      if byte == '%' && index + 2 < |path| {
        var high, low := HexValue(path[index + 1]), HexValue(path[index + 2]);
        if high.Some? && low.Some? {
          var decoded := (high.value * 16 + low.value) as char;
          Assoc(out, [decoded], PercentDecode(path[index + 3..]));
          out := out + [decoded];
          index := index + 3;
          continue;
        }
      }
      Assoc(out, [byte], PercentDecode(path[index + 1..]));
      out := out + [byte];
      index := index + 1;
    }
  }

  // ---- Escapes as they are written ----

  /** `c` is how the digit `v` is written, in either case. */
  predicate Digit(c: char, v: nat) {
    v < 16 && (c == "0123456789abcdef"[v] || c == "0123456789ABCDEF"[v])
  }

  /** `s` begins with `%` and the two digits of `n`. */
  predicate Escapes(s: string, n: nat) {
    |s| >= 3 && s[0] == '%' && n < 256 && Digit(s[1], n / 16) && Digit(s[2], n % 16)
  }

  lemma {:induction false} HexValueIff(c: char, v: nat)
    ensures HexValue(c) == Some(v) <==> Digit(c, v)
  {
    if v < 10 {
      assert "0123456789abcdef"[v] as int == '0' as int + v == "0123456789ABCDEF"[v] as int;
    } else if v < 16 {
      assert "0123456789abcdef"[v] as int == 'a' as int + v - 10;
      assert "0123456789ABCDEF"[v] as int == 'A' as int + v - 10;
    }
  }

  lemma {:induction false} EscapesIff(s: string, n: nat)
    ensures Escapes(s, n) <==> StartsWithEscape(s) && EscapedChar(s) as int == n
  {
    if StartsWithEscape(s) {
      var high, low := HexValue(s[1]).value, HexValue(s[2]).value;
      HexValueIff(s[1], high);
      HexValueIff(s[2], low);
      TwoDigits(high, low);
    }
    if Escapes(s, n) {
      HexValueIff(s[1], n / 16);
      HexValueIff(s[2], n % 16);
    }
  }

  lemma {:induction false} TwoDigits(high: nat, low: nat)
    requires high < 16 && low < 16
    ensures var n := high * 16 + low; n < 256 && n / 16 == high && n % 16 == low
  {
  }

  /** `t` is `s` with each escape, taken from the left, replaced by the character it
      is the code of; a percent sign that begins no escape stands for itself. */
  predicate Reads(s: string, t: string) {
    if s == [] then t == []
    else
      t != [] &&
      if Escapes(s, t[0] as int) then Reads(s[3..], t[1..])
      else s[0] == t[0] && (forall n :: 0 <= n < 256 ==> !Escapes(s, n)) && Reads(s[1..], t[1..])
  }

  /** Decoding is exactly that. */
  lemma {:induction false} DecodeReads(s: string, t: string)
    ensures PercentDecode(s) == t <==> Reads(s, t)
  {
    if s != [] {
      forall n | 0 <= n ensures Escapes(s, n) <==> StartsWithEscape(s) && EscapedChar(s) as int == n {
        EscapesIff(s, n);
      }
      var n := if StartsWithEscape(s) then 3 else 1;
      if t != [] {
        DecodeReads(s[n..], t[1..]);
        assert t == [t[0]] + t[1..];
      }
      if StartsWithEscape(s) {
        assert Escapes(s, EscapedChar(s) as int);
        assert PercentDecode(s)[0] == EscapedChar(s) && PercentDecode(s)[1..] == PercentDecode(s[3..]);
      } else {
        assert PercentDecode(s)[0] == s[0] && PercentDecode(s)[1..] == PercentDecode(s[1..]);
      }
    }
  }

  /** `s` writes `t` with any of its characters escaped, in either hexadecimal case;
      a literal `%` must be. */
  predicate Spells(s: string, t: string) {
    if t == [] then s == []
    else
      || (s != [] && s[0] == t[0] && t[0] != '%' && Spells(s[1..], t[1..]))
      || (Escapes(s, t[0] as int) && Spells(s[3..], t[1..]))
  }

  lemma {:induction false} DecodeSpelled(s: string, t: string)
    requires Spells(s, t)
    ensures PercentDecode(s) == t
  {
    if t != [] {
      EscapesIff(s, t[0] as int);
      if Escapes(s, t[0] as int) {
        DecodeSpelled(s[3..], t[1..]);
      } else {
        DecodeSpelled(s[1..], t[1..]);
      }
      assert t == [t[0]] + t[1..];
    }
  }

  // ---- The normal form, by segments ----

  function Lower(c: char): char {
    if 'A' <= c <= 'Z' then (c as int + 32) as char else c
  }

  function LowerAll(s: string): (r: string)
    ensures |r| == |s|
  {
    seq(|s|, i requires 0 <= i < |s| => Lower(s[i]))
  }

  predicate Rooted(t: string) {
    t != [] && t[0] == '/'
  }

  function NonEmpty(parts: seq<string>): seq<string> {
    if parts == [] then [] else (if parts[0] == [] then [] else [parts[0]]) + NonEmpty(parts[1..])
  }

  /** The non-empty segments of a decoded path, in lower case. */
  function Segments(t: string): seq<string> {
    NonEmpty(Split(LowerAll(t), '/'))
  }

  function Spelled(rooted: bool, segments: seq<string>): string {
    (if rooted then "/" else "") + Join(segments, '/')
  }

  function NormalForm(t: string): string {
    Spelled(Rooted(t), Segments(t))
  }

  /** The route the gateway sees. */
  function SemanticRoute(path: string): string {
    NormalForm(PercentDecode(path))
  }

  // ---- The source's character loop computes it ----

  /** Lower case with repeated slashes collapsed, before trailing ones are dropped. */
  function Collapse(t: string): string {
    if t == [] then []
    else
      var route, c := Collapse(t[..|t| - 1]), Lower(t[|t| - 1]);
      if c == '/' && EndsInSlash(route) then route else route + [c]
  }

  predicate EndsInSlash(s: string) {
    s != [] && s[|s| - 1] == '/'
  }

  lemma {:induction false} NonEmptyConcat(a: seq<string>, b: seq<string>)
    ensures NonEmpty(a + b) == NonEmpty(a) + NonEmpty(b)
  {
    if a == [] {
      assert a + b == b;
    } else {
      assert (a + b)[1..] == a[1..] + b;
      NonEmptyConcat(a[1..], b);
    }
  }

  lemma {:induction false} NonEmptyMembers(parts: seq<string>)
    ensures forall p :: p in NonEmpty(parts) ==> p in parts && p != []
  {
    if parts != [] {
      NonEmptyMembers(parts[1..]);
    }
  }

  lemma {:induction false} NonEmptyKeepsAll(parts: seq<string>)
    requires forall i :: 0 <= i < |parts| ==> parts[i] != []
    ensures NonEmpty(parts) == parts
  {
    if parts != [] {
      NonEmptyKeepsAll(parts[1..]);
      assert [parts[0]] + parts[1..] == parts;
    }
  }

  lemma {:induction false} LowerAllConcat(a: string, b: string)
    ensures LowerAll(a + b) == LowerAll(a) + LowerAll(b)
  {
  }

  lemma {:induction false} LastPart(parts: seq<string>)
    requires parts != []
    ensures parts == parts[..|parts| - 1] + [parts[|parts| - 1]]
  {
  }

  /** Appending a slash opens an empty part; another character extends the last. */
  lemma {:induction false} SplitSnoc(s: string, c: char)
    ensures c == '/' ==> Split(s + [c], '/') == Split(s, '/') + [[]]
    ensures c != '/' ==>
              var parts := Split(s, '/');
              Split(s + [c], '/') == parts[..|parts| - 1] + [parts[|parts| - 1] + [c]]
  {
    if c == '/' {
      SplitConcat(s, '/', []);
      assert s + ['/'] + [] == s + [c];
    } else if s == [] {
      SplitFree([c], '/');
      assert s + [c] == [c] && Split(s, '/') == [s];
      assert [s][..0] + [s + [c]] == [[c]];
    } else {
      assert (s + [c])[1..] == s[1..] + [c];
      SplitSnoc(s[1..], c);
      var rest := Split(s[1..], '/');
      ExtendLast(s[0], rest, c);
    }
  }

  lemma {:induction false} ExtendLast(x: char, rest: seq<string>, c: char)
    requires rest != []
    ensures var longer := rest[..|rest| - 1] + [rest[|rest| - 1] + [c]];
            var n := |rest|;
            && [[]] + longer == ([[]] + rest)[..n] + [([[]] + rest)[n] + [c]]
            && [[x] + longer[0]] + longer[1..]
               == ([[x] + rest[0]] + rest[1..])[..n - 1] + [([[x] + rest[0]] + rest[1..])[n - 1] + [c]]
  {
    var longer := rest[..|rest| - 1] + [rest[|rest| - 1] + [c]];
    if |rest| == 1 {
      assert [x] + (rest[0] + [c]) == [x] + rest[0] + [c];
    }
  }

  /** The segments after one more character, given the parts before it. */
  lemma {:induction false} SegmentsSnoc(t: string, c: char)
    ensures var parts := Split(LowerAll(t), '/');
            var n := |parts| - 1;
            && Segments(t) == NonEmpty(parts[..n]) + NonEmpty([parts[n]])
            && Segments(t + [c]) == if Lower(c) == '/' then Segments(t)
                                    else NonEmpty(parts[..n]) + [parts[n] + [Lower(c)]]
  {
    var parts := Split(LowerAll(t), '/');
    var n := |parts| - 1;
    LowerAllConcat(t, [c]);
    assert LowerAll([c]) == [Lower(c)];
    SplitSnoc(LowerAll(t), Lower(c));
    LastPart(parts);
    NonEmptyConcat(parts[..n], [parts[n]]);
    if Lower(c) == '/' {
      NonEmptyConcat(parts, [[]]);
      NoneOfEmpty();
    } else {
      var last := parts[n] + [Lower(c)];
      NonEmptyConcat(parts[..n], [last]);
      OneNonEmpty(last);
    }
  }

  lemma {:induction false} NoneOfEmpty()
    ensures NonEmpty([[]]) == []
    ensures forall s: seq<string> :: s + [] == s
  {
    var one: seq<string> := [[]];
    assert one[1..] == [];
  }

  lemma {:induction false} OneNonEmpty(p: string)
    ensures p != [] ==> NonEmpty([p]) == [p]
    ensures p == [] ==> NonEmpty([p]) == []
  {
    assert [p][1..] == [];
  }

  lemma {:induction false} JoinSnoc(segments: seq<string>, last: string)
    ensures Join(segments + [last], '/') == if segments == [] then last else Join(segments, '/') + "/" + last
  {
    if segments == [] {
      assert segments + [last] == [last];
    } else if |segments| == 1 {
      assert (segments + [last])[1..] == [last];
    } else {
      assert (segments + [last])[1..] == segments[1..] + [last];
      JoinSnoc(segments[1..], last);
    }
  }

  /** Whether the last part of a text is empty: at the start, or after a slash. */
  lemma {:induction false} LastPartEmptyIff(t: string)
    ensures var parts := Split(LowerAll(t), '/');
            parts[|parts| - 1] == [] <==> t == [] || t[|t| - 1] == '/'
  {
    if t != [] {
      var n := |t| - 1;
      assert t == t[..n] + [t[n]];
      LowerAllConcat(t[..n], [t[n]]);
      assert LowerAll([t[n]]) == [Lower(t[n])];
      SplitSnoc(LowerAll(t[..n]), Lower(t[n]));
    }
  }

  /** What `Collapse` adds to the normal form: at most one trailing slash. */
  function Trailing(t: string): string {
    if t != [] && t[|t| - 1] == '/' && Segments(t) != [] then "/" else ""
  }

  /** Segments are what a normal form is made of. */
  predicate IsSegment(p: string) {
    p != [] && Free(p, '/') && forall i :: 0 <= i < |p| ==> Lower(p[i]) == p[i]
  }

  lemma {:induction false} SplitPartsLower(s: string)
    requires forall i :: 0 <= i < |s| ==> Lower(s[i]) == s[i]
    ensures forall p :: p in Split(s, '/') ==> forall i :: 0 <= i < |p| ==> Lower(p[i]) == p[i]
  {
    if s != [] {
      SplitPartsLower(s[1..]);
      var rest := Split(s[1..], '/');
      assert rest[0] in rest;
      forall p | p in Split(s, '/') ensures forall i :: 0 <= i < |p| ==> Lower(p[i]) == p[i] {
        assert p in rest || p == [] || p == [s[0]] + rest[0];
      }
    }
  }

  lemma {:induction false} SegmentsAreSegments(t: string)
    ensures forall k :: 0 <= k < |Segments(t)| ==> IsSegment(Segments(t)[k])
  {
    var s := LowerAll(t);
    SplitPartsFree(s, '/');
    SplitPartsLower(s);
    NonEmptyMembers(Split(s, '/'));
    forall k | 0 <= k < |Segments(t)| ensures IsSegment(Segments(t)[k]) {
      assert Segments(t)[k] in Segments(t);
    }
  }

  lemma {:induction false} JoinEnds(segments: seq<string>)
    requires segments != [] && forall k :: 0 <= k < |segments| ==> IsSegment(segments[k])
    ensures Join(segments, '/') != [] && !EndsInSlash(Join(segments, '/')) && Join(segments, '/')[0] != '/'
  {
    var first := segments[0];
    assert first[0] in first && first[|first| - 1] in first;
    if |segments| > 1 {
      JoinEnds(segments[1..]);
    }
  }

  lemma {:induction false} FirstLetterMakesSegment(t: string)
    requires t != [] && t[0] != '/'
    ensures Segments(t) != []
  {
    var s := LowerAll(t);
    var rest := Split(s[1..], '/');
    var parts := Split(s, '/');
    assert s[0] != '/' && parts == [[s[0]] + rest[0]] + rest[1..];
    assert NonEmpty(parts) == [parts[0]] + NonEmpty(parts[1..]);
  }

  lemma {:induction false} ExtendSegment(rooted: bool, before: seq<string>, last: string, c: char)
    ensures Spelled(rooted, before + [last]) + [c] == Spelled(rooted, before + [last + [c]])
  {
    JoinSnoc(before, last);
    JoinSnoc(before, last + [c]);
    var root, joined := if rooted then "/" else "", Join(before + [last], '/');
    assert root + joined + [c] == root + (joined + [c]);
    assert before != [] ==> Join(before, '/') + "/" + last + [c] == Join(before, '/') + "/" + (last + [c]);
  }

  lemma {:induction false} StartSegment(rooted: bool, before: seq<string>, c: char)
    ensures Spelled(rooted, before) + (if before == [] then "" else "/") + [c] == Spelled(rooted, before + [[c]])
  {
    JoinSnoc(before, [c]);
    var root, joined := if rooted then "/" else "", Join(before, '/');
    if before == [] {
      assert joined == "" && root + "" + "" + [c] == root + [c];
    } else {
      assert root + joined + "/" + [c] == root + (joined + "/" + [c]);
    }
  }

  lemma {:induction false} CollapseLetter(u: string, c: char)
    requires c != '/' && Collapse(u) == NormalForm(u) + Trailing(u)
    ensures Collapse(u) + [Lower(c)] == NormalForm(u + [c])
  {
    var parts := Split(LowerAll(u), '/');
    var n := |parts| - 1;
    var before, last := NonEmpty(parts[..n]), parts[n];
    SegmentsSnoc(u, c);
    LastPartEmptyIff(u);
    OneNonEmpty(last);
    assert Rooted(u + [c]) == Rooted(u);
    if last == [] {
      assert Segments(u) == before && Segments(u + [c]) == before + [[Lower(c)]] by {
        assert before + [] == before && last + [Lower(c)] == [Lower(c)];
      }
      StartSegment(Rooted(u), before, Lower(c));
    } else {
      ExtendSegment(Rooted(u), before, last, Lower(c));
      assert Trailing(u) == "" && NormalForm(u) + "" == NormalForm(u);
    }
  }

  lemma {:induction false} CollapseSlash(u: string)
    requires Collapse(u) == NormalForm(u) + Trailing(u)
    ensures (if EndsInSlash(Collapse(u)) then Collapse(u) else Collapse(u) + "/")
            == NormalForm(u + "/") + Trailing(u + "/")
  {
    SegmentsSnoc(u, '/');
    var segments := Segments(u);
    assert segments == Segments(u + "/");
    if segments == [] {
      assert Join(segments, '/') == "";
      if u != [] && u[0] != '/' {
        FirstLetterMakesSegment(u);
      }
    } else {
      SegmentsAreSegments(u);
      JoinEnds(segments);
    }
  }

  /** Collapsing yields the normal form and at most one slash more. */
  lemma {:induction false} CollapseIsNormal(t: string)
    ensures Collapse(t) == NormalForm(t) + Trailing(t)
  {
    if t == [] {
      assert LowerAll(t) == [] && Split(LowerAll(t), '/') == [[]];
      NoneOfEmpty();
    } else {
      var u, c := t[..|t| - 1], t[|t| - 1];
      assert t == u + [c];
      CollapseIsNormal(u);
      if c == '/' {
        CollapseSlash(u);
      } else {
        CollapseLetter(u, c);
        assert Trailing(t) == "";
      }
    }
  }

  /** The source's two loops: collapse while decoding, then pop trailing slashes. */
  method FoldRoute(path: string) returns (route: string)
    ensures route == SemanticRoute(path)
  {
    var decoded := PercentDecodeAscii(path);
    route := [];
    for i := 0 to |decoded|
      invariant route == Collapse(decoded[..i])
    {
      assert decoded[..i + 1][..i] == decoded[..i];
      var character := Lower(decoded[i]);
      if character == '/' && EndsInSlash(route) {
        continue;
      }
      route := route + [character];
    }
    assert decoded[..|decoded|] == decoded;
    CollapseIsNormal(decoded);
    NormalFormEnds(decoded);
    while |route| > 1 && EndsInSlash(route)
      invariant route == NormalForm(decoded) || route == NormalForm(decoded) + "/"
      invariant |route| > 1 || route == NormalForm(decoded)
    {
      route := route[..|route| - 1];
    }
  }

  lemma {:induction false} NormalFormEnds(t: string)
    ensures var r := NormalForm(t); r == "" || r == "/" || !EndsInSlash(r)
    ensures Trailing(t) != "" ==> NormalForm(t) != ""
  {
    if Segments(t) != [] {
      SegmentsAreSegments(t);
      JoinEnds(Segments(t));
    }
  }
}
