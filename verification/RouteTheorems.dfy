/** What route folding identifies, what it excludes, and routes relative to a base. */
module RouteTheorems {
  import opened Basics
  import opened Text
  import opened Routing

  // ---- Normal forms ----

  lemma {:induction false} LowerSegment(p: string)
    requires forall i :: 0 <= i < |p| ==> Lower(p[i]) == p[i]
    ensures LowerAll(p) == p
  {
  }

  lemma {:induction false} JoinLower(segments: seq<string>)
    requires forall k :: 0 <= k < |segments| ==> IsSegment(segments[k])
    ensures LowerAll(Join(segments, '/')) == Join(segments, '/')
  {
    if segments != [] {
      LowerSegment(segments[0]);
      if |segments| > 1 {
        JoinLower(segments[1..]);
        LowerAllConcat(segments[0] + ['/'], Join(segments[1..], '/'));
        LowerAllConcat(segments[0], ['/']);
        assert LowerAll(['/']) == ['/'];
      }
    }
  }

  /** A spelled list of segments has those segments. */
  lemma {:induction false} SegmentsOfSpelled(rooted: bool, segments: seq<string>)
    requires forall k :: 0 <= k < |segments| ==> IsSegment(segments[k])
    ensures Segments(Spelled(rooted, segments)) == segments
    ensures Rooted(Spelled(rooted, segments)) == rooted
  {
    var joined := Join(segments, '/');
    JoinLower(segments);
    NonEmptyKeepsAll(segments);
    if segments == [] {
      SegmentsOfNothing();
    } else {
      SplitJoin(segments, '/');
      JoinEnds(segments);
    }
    if rooted {
      LowerAllConcat("/", joined);
      assert LowerAll("/") == "/";
      SplitSlashFirst(joined);
      assert Spelled(rooted, segments) == "/" + joined;
    } else {
      assert Spelled(rooted, segments) == joined;
    }
  }

  lemma {:induction false} SegmentsOfNothing()
    ensures Segments("") == [] && Join([], '/') == "" && NonEmpty(Split("", '/')) == []
  {
    assert LowerAll("") == "" && Split("", '/') == [""];
    OneNonEmpty("");
  }

  lemma {:induction false} SplitSlashFirst(s: string)
    ensures NonEmpty(Split("/" + s, '/')) == NonEmpty(Split(s, '/'))
  {
    assert ("/" + s)[1..] == s;
    var parts := Split(s, '/');
    assert ([[]] + parts)[1..] == parts;
    assert [] + NonEmpty(parts) == NonEmpty(parts);
  }

  lemma {:induction false} NormalFormFaithful(t: string)
    ensures Segments(NormalForm(t)) == Segments(t) && Rooted(NormalForm(t)) == Rooted(t)
  {
    SegmentsAreSegments(t);
    SegmentsOfSpelled(Rooted(t), Segments(t));
  }

  /** Folding the decoded text is idempotent. */
  lemma {:induction false} NormalFormIdempotent(t: string)
    ensures NormalForm(NormalForm(t)) == NormalForm(t)
  {
    NormalFormFaithful(t);
  }

  // ---- Up to case ----

  /** `capital` is the upper case of the ASCII letter `small`: 32 codes below it. */
  predicate CapitalOf(capital: char, small: char) {
    'a' <= small <= 'z' && capital as int + 32 == small as int
  }

  /** The same character, or the two cases of one ASCII letter. */
  predicate SameLetter(c: char, d: char) {
    c == d || CapitalOf(c, d) || CapitalOf(d, c)
  }

  predicate SameText(s: string, t: string) {
    |s| == |t| && forall i :: 0 <= i < |s| ==> SameLetter(s[i], t[i])
  }

  predicate SameTexts(a: seq<string>, b: seq<string>) {
    |a| == |b| && forall k :: 0 <= k < |a| ==> SameText(a[k], b[k])
  }

  /** The non-empty parts of a text between slashes, as they are written. */
  function Parts(t: string): seq<string> {
    NonEmpty(Split(t, '/'))
  }

  lemma {:induction false} LowerIff(c: char, d: char)
    ensures Lower(c) == Lower(d) <==> SameLetter(c, d)
  {
  }

  lemma {:induction false} LowerAllIff(s: string, t: string)
    ensures LowerAll(s) == LowerAll(t) <==> SameText(s, t)
  {
    forall i | 0 <= i < |s| && i < |t| ensures LowerAll(s)[i] == LowerAll(t)[i] <==> SameLetter(s[i], t[i]) {
      LowerIff(s[i], t[i]);
    }
  }

  lemma {:induction false} SplitLower(s: string)
    ensures Split(LowerAll(s), '/') == Map(LowerAll, Split(s, '/'))
  {
    if s == [] {
      assert LowerAll(s) == [] && Split(s, '/') == [[]];
    } else {
      SplitLower(s[1..]);
      assert LowerAll(s)[1..] == LowerAll(s[1..]);
      var rest := Split(s[1..], '/');
      var first := [s[0]] + rest[0];
      assert LowerAll(first) == [Lower(s[0])] + LowerAll(rest[0]);
      MapOneMore(LowerAll, [], rest);
      MapOneMore(LowerAll, first, rest[1..]);
      assert Map(LowerAll, rest)[1..] == Map(LowerAll, rest[1..]);
      assert LowerAll([]) == [];
    }
  }

  lemma {:induction false} NonEmptyLower(parts: seq<string>)
    ensures NonEmpty(Map(LowerAll, parts)) == Map(LowerAll, NonEmpty(parts))
  {
    if parts != [] {
      NonEmptyLower(parts[1..]);
      assert Map(LowerAll, parts)[1..] == Map(LowerAll, parts[1..]);
      MapOneMore(LowerAll, parts[0], NonEmpty(parts[1..]));
    }
  }

  lemma {:induction false} SegmentsAreParts(t: string)
    ensures Segments(t) == Map(LowerAll, Parts(t))
  {
    SplitLower(t);
    NonEmptyLower(Split(t, '/'));
  }

  lemma {:induction false} SameSegmentsIff(t: string, u: string)
    ensures Segments(t) == Segments(u) <==> SameTexts(Parts(t), Parts(u))
  {
    SegmentsAreParts(t);
    SegmentsAreParts(u);
    LowerTextsIff(Parts(t), Parts(u));
  }

  lemma {:induction false} LowerTextsIff(a: seq<string>, b: seq<string>)
    ensures Map(LowerAll, a) == Map(LowerAll, b) <==> SameTexts(a, b)
  {
    forall k | 0 <= k < |a| && k < |b| ensures LowerAll(a[k]) == LowerAll(b[k]) <==> SameText(a[k], b[k]) {
      LowerAllIff(a[k], b[k]);
    }
    if Map(LowerAll, a) == Map(LowerAll, b) {
      assert |a| == |Map(LowerAll, b)|;
      assert forall k :: 0 <= k < |a| ==> LowerAll(a[k]) == Map(LowerAll, b)[k];
    }
  }

  /** Two paths fold to the same route iff, read once, both or neither start with a
      slash and they have the same parts between slashes up to ASCII case. */
  lemma {:induction false} SameRouteIff(p: string, t: string, q: string, u: string)
    requires Reads(p, t) && Reads(q, u)
    ensures SemanticRoute(p) == SemanticRoute(q) <==> Rooted(t) == Rooted(u) && SameTexts(Parts(t), Parts(u))
  {
    DecodeReads(p, t);
    DecodeReads(q, u);
    NormalFormFaithful(t);
    NormalFormFaithful(u);
    SameSegmentsIff(t, u);
  }

  /** Spelling does not matter: escape any characters of a text (always a literal
      percent sign), change case, repeat slashes or end with them. */
  lemma {:induction false} SpellingInvariant(s: string, t: string, s': string, t': string)
    requires Spells(s, t) && Spells(s', t') && Rooted(t) == Rooted(t') && SameTexts(Parts(t), Parts(t'))
    ensures SemanticRoute(s) == SemanticRoute(s') == NormalForm(t)
  {
    DecodeSpelled(s, t);
    DecodeSpelled(s', t');
    SameSegmentsIff(t, t');
  }

  /** A route says what its path does, up to case, with no empty part, no trailing
      slash and no upper case. */
  lemma {:induction false} RouteShape(p: string, t: string)
    requires Reads(p, t)
    ensures var r := SemanticRoute(p);
            && Rooted(r) == Rooted(t) && SameTexts(Parts(r), Parts(t))
            && (r == "" || r == "/" || !EndsInSlash(r))
            && (forall i :: 0 <= i < |r| - 1 ==> !(r[i] == '/' && r[i + 1] == '/'))
            && (forall i :: 0 <= i < |r| ==> !('A' <= r[i] <= 'Z'))
  {
    DecodeReads(p, t);
    NormalFormFaithful(t);
    SameSegmentsIff(NormalForm(t), t);
    RouteIsNormal(t);
    assert forall i :: 0 <= i < |NormalForm(t)| ==> LowerAll(NormalForm(t))[i] == NormalForm(t)[i];
  }

  lemma {:induction false} RouteIsNormal(t: string)
    ensures var r := NormalForm(t);
            (r == "" || r == "/" || !EndsInSlash(r)) && NoDouble(r) && LowerAll(r) == r
  {
    var segments := Segments(t);
    NormalFormEnds(t);
    SegmentsAreSegments(t);
    JoinLower(segments);
    JoinNoDouble(segments);
    if Rooted(t) {
      LowerAllConcat("/", Join(segments, '/'));
      assert LowerAll("/") == "/";
      if segments != [] {
        JoinEnds(segments);
      }
    } else {
      assert "" + Join(segments, '/') == Join(segments, '/');
    }
  }

  predicate NoDouble(s: string) {
    forall i :: 0 <= i < |s| - 1 ==> !(s[i] == '/' && s[i + 1] == '/')
  }

  lemma {:induction false} FreeNoDouble(a: string, b: string)
    requires a != [] && Free(a, '/') && NoDouble(b) && (b == [] || b[0] != '/')
    ensures NoDouble(a + "/" + b)
  {
    var s := a + "/" + b;
    forall i | 0 <= i < |s| - 1 ensures !(s[i] == '/' && s[i + 1] == '/') {
      if i < |a| {
        assert s[i] == a[i] && a[i] in a;
      } else if i > |a| {
        assert s[i] == b[i - |a| - 1] && s[i + 1] == b[i - |a|];
      }
    }
  }

  lemma {:induction false} JoinNoDouble(segments: seq<string>)
    requires forall k :: 0 <= k < |segments| ==> IsSegment(segments[k])
    ensures NoDouble(Join(segments, '/'))
  {
    if segments != [] {
      var first := segments[0];
      assert IsSegment(first);
      if |segments| == 1 {
        assert forall i :: 0 <= i < |first| ==> first[i] in first;
      } else {
        JoinNoDouble(segments[1..]);
        JoinEnds(segments[1..]);
        FreeNoDouble(first, Join(segments[1..], '/'));
      }
    }
  }

  predicate HasEscape(s: string) {
    s != [] && (StartsWithEscape(s) || HasEscape(s[1..]))
  }

  lemma {:induction false} DecodeWithoutEscape(s: string)
    requires !HasEscape(s)
    ensures PercentDecode(s) == s
  {
    if s != [] {
      DecodeWithoutEscape(s[1..]);
    }
  }

  lemma {:induction false} DecodeShortens(s: string)
    ensures |PercentDecode(s)| <= |s|
    ensures HasEscape(s) ==> |PercentDecode(s)| < |s|
    decreases |s|
  {
    if s != [] {
      DecodeShortens(if StartsWithEscape(s) then s[3..] else s[1..]);
    }
  }

  lemma {:induction false} CollapseShortens(t: string)
    ensures |Collapse(t)| <= |t|
  {
    if t != [] {
      CollapseShortens(t[..|t| - 1]);
    }
  }

  /** Folding a folded route again leaves it alone iff it spells no escape. */
  lemma {:induction false} RefoldingStableIff(p: string)
    ensures var r := SemanticRoute(p); SemanticRoute(r) == r <==> !HasEscape(r)
  {
    var t, r := PercentDecode(p), SemanticRoute(p);
    if HasEscape(r) {
      DecodeShortens(r);
      CollapseShortens(PercentDecode(r));
      CollapseIsNormal(PercentDecode(r));
    } else {
      DecodeWithoutEscape(r);
      NormalFormIdempotent(t);
    }
  }

  /** Only one layer of escapes is removed, so folding a route again can change it. */
  lemma {:induction false} FoldingDecodesOneLayer()
    ensures SemanticRoute("%2561") != SemanticRoute(SemanticRoute("%2561"))
    ensures HasEscape(SemanticRoute("%2561"))
  {
    var s := "%2561";
    assert s[3..] == "61" && StartsWithEscape(s) && EscapedChar(s) == '%';
    assert "61"[1..] == "1" && "1"[1..] == "";
    assert PercentDecode("61") == "61" && PercentDecode(s) == "%61";
    LowerLetters();
    assert SemanticRoute(s) == "%61";
    assert "%61"[3..] == "" && PercentDecode("%61") == "a";
    assert SemanticRoute("%61") == "a";
  }

  lemma {:induction false} LowerLetters()
    ensures NormalForm("%61") == "%61" && NormalForm("a") == "a"
  {
    PlainSegment("%61");
    PlainSegment("a");
  }

  lemma {:induction false} PlainSegment(p: string)
    requires IsSegment(p)
    ensures NormalForm(p) == p
  {
    assert p[0] in p;
    LowerSegment(p);
    SplitFree(p, '/');
    OneNonEmpty(p);
  }

  // ---- Excluded routes ----

  predicate IsSuffixOf(suffix: string, s: string) {
    |suffix| <= |s| && s[|s| - |suffix|..] == suffix
  }

  predicate OccursAt(needle: string, s: string, i: nat) {
    i + |needle| <= |s| && s[i..i + |needle|] == needle
  }

  predicate Contains(s: string, needle: string) {
    exists i :: 0 <= i <= |s| && OccursAt(needle, s, i)
  }

  /** The source's textual test: the route ends with the name or continues it. */
  predicate Excluded(route: string, name: string) {
    IsSuffixOf(name, route) || Contains(route, name + "/")
  }

  /** Everything before the query and the fragment. */
  function CleanPath(path: string): string {
    if path == [] || path[0] == '?' || path[0] == '#' then [] else [path[0]] + CleanPath(path[1..])
  }

  predicate TrackedInferencePath(path: string) {
    var route := SemanticRoute(CleanPath(path));
    !Excluded(route, "/attestation") && !Excluded(route, "/internal/gateway/authorize")
  }

  /** `names` appear among the segments, one after the other. */
  predicate HasRun(segments: seq<string>, names: seq<string>) {
    exists i :: 0 <= i <= |segments| && RunAt(segments, names, i)
  }

  predicate RunAt(segments: seq<string>, names: seq<string>, i: nat) {
    i + |names| <= |segments| && segments[i..i + |names|] == names
  }

  /** Ending with the name or continuing it is one condition on the slashed route. */
  lemma {:induction false} ExcludedIsContained(route: string, name: string)
    ensures Excluded(route, name) <==> Contains(route + "/", name + "/")
  {
    var slashed, needle := route + "/", name + "/";
    if IsSuffixOf(name, route) {
      var i := |route| - |name|;
      assert route[i..] == name;
      assert slashed[i..i + |needle|] == needle;
      assert OccursAt(needle, slashed, i);
    }
    if Contains(route, needle) {
      var i :| 0 <= i <= |route| && OccursAt(needle, route, i);
      assert slashed[i..i + |needle|] == route[i..i + |needle|];
      assert OccursAt(needle, slashed, i);
    }
    if Contains(slashed, needle) {
      var i :| 0 <= i <= |slashed| && OccursAt(needle, slashed, i);
      OccurrenceInSlashed(route, name, i);
    }
  }

  lemma {:induction false} OccurrenceInSlashed(route: string, name: string, i: nat)
    requires OccursAt(name + "/", route + "/", i)
    ensures Excluded(route, name)
  {
    var slashed, needle := route + "/", name + "/";
    if i + |needle| <= |route| {
      assert route[i..i + |needle|] == slashed[i..i + |needle|];
      assert OccursAt(needle, route, i);
    } else {
      assert slashed[i..i + |needle|][..|name|] == needle[..|name|] == name;
      assert route[i..] == slashed[i..i + |needle|][..|name|];
    }
  }

  function Framed(segments: seq<string>): seq<string> {
    [""] + segments + [""]
  }

  lemma {:induction false} JoinFramed(segments: seq<string>)
    requires segments != []
    ensures Join(Framed(segments), '/') == Spelled(true, segments) + "/"
  {
    JoinConcat([""], segments, '/');
    JoinConcat([""] + segments, [""], '/');
    assert Join([""], '/') == "";
    assert "" + "/" + Join(segments, '/') == "/" + Join(segments, '/');
    assert "/" + Join(segments, '/') + "/" + "" == "/" + Join(segments, '/') + "/";
  }

  lemma {:induction false} SplitFramed(segments: seq<string>)
    requires segments != [] && forall k :: 0 <= k < |segments| ==> IsSegment(segments[k])
    ensures Split(Spelled(true, segments) + "/", '/') == Framed(segments)
  {
    JoinFramed(segments);
    SplitJoin(Framed(segments), '/');
  }

  lemma {:induction false} RunIsContained(segments: seq<string>, names: seq<string>)
    requires names != [] && HasRun(segments, names)
    ensures Contains(Spelled(true, segments) + "/", Spelled(true, names) + "/")
  {
    var i :| 0 <= i <= |segments| && RunAt(segments, names, i);
    var before, after := [""] + segments[..i], segments[i + |names|..] + [""];
    assert Framed(segments) == (before + names) + after;
    JoinConcat(before, names, '/');
    JoinConcat(before + names, after, '/');
    JoinFramed(segments);
    var a, b := Join(before, '/'), Join(after, '/');
    var slashed, needle := Spelled(true, segments) + "/", Spelled(true, names) + "/";
    assert slashed == a + "/" + Join(names, '/') + "/" + b == a + needle + b;
    assert slashed[|a|..|a| + |needle|] == needle;
    assert OccursAt(needle, slashed, |a|);
  }

  lemma {:induction false} SplitAround(a: string, names: seq<string>, b: string)
    requires names != [] && forall k :: 0 <= k < |names| ==> IsSegment(names[k])
    ensures Split(a + Spelled(true, names) + "/" + b, '/') == Split(a, '/') + names + Split(b, '/')
  {
    var inner := Join(names, '/');
    SplitJoin(names, '/');
    SplitConcat(a, '/', inner);
    SplitConcat(a + ['/'] + inner, '/', b);
    assert a + Spelled(true, names) + "/" + b == a + ['/'] + inner + ['/'] + b;
  }

  lemma {:induction false} CutAround(needle: string, s: string, i: nat)
    requires OccursAt(needle, s, i)
    ensures s == s[..i] + needle + s[i + |needle|..]
  {
  }

  lemma {:induction false} ContainedIsRun(segments: seq<string>, names: seq<string>)
    requires names != [] && forall k :: 0 <= k < |names| ==> IsSegment(names[k])
    requires segments != [] && forall k :: 0 <= k < |segments| ==> IsSegment(segments[k])
    requires Contains(Spelled(true, segments) + "/", Spelled(true, names) + "/")
    ensures HasRun(segments, names)
  {
    var slashed, needle := Spelled(true, segments) + "/", Spelled(true, names) + "/";
    var i :| 0 <= i <= |slashed| && OccursAt(needle, slashed, i);
    var a, b := slashed[..i], slashed[i + |needle|..];
    CutAround(needle, slashed, i);
    Assoc(a, Spelled(true, names), "/");
    SplitAround(a, names, b);
    SplitFramed(segments);
    RunInFramed(segments, names, Split(a, '/'), Split(b, '/'));
  }

  lemma {:induction false} RunInFramed(
    segments: seq<string>, names: seq<string>, before: seq<string>, after: seq<string>)
    requires Framed(segments) == before + names + after && before != [] && after != []
    ensures HasRun(segments, names)
  {
    var k := |before| - 1;
    assert segments == Framed(segments)[1..|segments| + 1];
    assert segments[k..k + |names|] == Framed(segments)[k + 1..k + 1 + |names|] == names;
    assert RunAt(segments, names, k);
  }

  /** On rooted routes the textual test is exactly: the names occur as consecutive
      whole segments. */
  lemma {:induction false} RootedExcludedIff(segments: seq<string>, names: seq<string>)
    requires names != [] && forall k :: 0 <= k < |names| ==> IsSegment(names[k])
    requires forall k :: 0 <= k < |segments| ==> IsSegment(segments[k])
    ensures Excluded(Spelled(true, segments), Spelled(true, names)) <==> HasRun(segments, names)
  {
    var route, name := Spelled(true, segments), Spelled(true, names);
    ExcludedIsContained(route, name);
    if HasRun(segments, names) {
      RunIsContained(segments, names);
    }
    if segments == [] {
      JoinEnds(names);
      assert |route + "/"| == 2 && |name + "/"| >= 3;
    } else if Contains(route + "/", name + "/") {
      ContainedIsRun(segments, names);
    }
  }

  /** The segments that follow a slash: all of them, or all but the first. */
  function AfterSlash(rooted: bool, segments: seq<string>): seq<string> {
    if rooted || segments == [] then segments else segments[1..]
  }

  lemma {:induction false} FreePrefixContains(a: string, s: string, needle: string)
    requires Free(a, '/') && needle != [] && needle[0] == '/'
    ensures Contains(a + s, needle) <==> Contains(s, needle)
  {
    if Contains(a + s, needle) {
      var i :| 0 <= i <= |a + s| && OccursAt(needle, a + s, i);
      assert (a + s)[i] == (a + s)[i..i + |needle|][0] == '/';
      assert i >= |a| by {
        assert forall k :: 0 <= k < |a| ==> (a + s)[k] in a;
      }
      assert (a + s)[i..i + |needle|] == s[i - |a|..i - |a| + |needle|];
      assert OccursAt(needle, s, i - |a|);
    }
    if Contains(s, needle) {
      var i :| 0 <= i <= |s| && OccursAt(needle, s, i);
      assert (a + s)[|a| + i..|a| + i + |needle|] == s[i..i + |needle|];
      assert OccursAt(needle, a + s, |a| + i);
    }
  }

  lemma {:induction false} FreePrefixExcluded(a: string, s: string, name: string)
    requires Free(a, '/') && name != [] && name[0] == '/'
    ensures Excluded(a + s, name) <==> Excluded(s, name)
  {
    ExcludedIsContained(a + s, name);
    ExcludedIsContained(s, name);
    Assoc(a, s, "/");
    FreePrefixContains(a, s + "/", name + "/");
  }

  lemma {:induction false} NothingExcluded(names: seq<string>)
    requires names != [] && forall k :: 0 <= k < |names| ==> IsSegment(names[k])
    ensures !Excluded("", Spelled(true, names)) && !HasRun([], names)
  {
    JoinEnds(names);
  }

  /** The textual test is exactly: the names occur as consecutive whole segments,
      each after a slash. */
  lemma {:induction false} ExcludedIff(rooted: bool, segments: seq<string>, names: seq<string>)
    requires names != [] && forall k :: 0 <= k < |names| ==> IsSegment(names[k])
    requires forall k :: 0 <= k < |segments| ==> IsSegment(segments[k])
    ensures Excluded(Spelled(rooted, segments), Spelled(true, names)) <==> HasRun(AfterSlash(rooted, segments), names)
  {
    var name := Spelled(true, names);
    if rooted {
      RootedExcludedIff(segments, names);
    } else if segments == [] {
      NothingExcluded(names);
      assert Spelled(false, segments) == "";
    } else {
      var a, rest := segments[0], segments[1..];
      if rest == [] {
        NothingExcluded(names);
        FreePrefixExcluded(a, "", name);
        assert Spelled(false, segments) == a + "";
      } else {
        RootedExcludedIff(rest, names);
        FreePrefixExcluded(a, Spelled(true, rest), name);
        UnrootedSplits(segments);
      }
    }
  }

  lemma {:induction false} UnrootedSplits(segments: seq<string>)
    requires |segments| > 1
    ensures Spelled(false, segments) == segments[0] + Spelled(true, segments[1..])
  {
    Assoc(segments[0], "/", Join(segments[1..], '/'));
    assert "" + Join(segments, '/') == Join(segments, '/');
  }

  lemma {:induction false} AuthorizeSpelled()
    ensures Spelled(true, ["internal", "gateway", "authorize"]) == "/internal/gateway/authorize"
  {
    JoinThree("internal", "gateway", "authorize");
    assert ['/'] + "internal" + ['/'] + "gateway" + ['/'] + "authorize" == "/internal/gateway/authorize";
  }

  lemma {:induction false} JoinThree(a: string, b: string, c: string)
    ensures Spelled(true, [a, b, c]) == ['/'] + a + ['/'] + b + ['/'] + c
  {
    assert [a, b, c][1..] == [b, c] && [b, c][1..] == [c];
    assert Join([b, c], '/') == b + ['/'] + c;
    assert ['/'] + (a + ['/'] + (b + ['/'] + c)) == ['/'] + a + ['/'] + b + ['/'] + c;
  }

  lemma {:induction false} AttestationNamed()
    ensures Spelled(true, ["attestation"]) == "/attestation" && IsSegment("attestation")
  {
  }

  lemma {:induction false} AuthorizeNamed()
    ensures IsSegment("internal") && IsSegment("gateway") && IsSegment("authorize")
  {
  }

  lemma {:induction false} CleanPathIs(clean: string, rest: string)
    requires '?' !in clean && '#' !in clean && (rest == [] || rest[0] == '?' || rest[0] == '#')
    ensures CleanPath(clean + rest) == clean
  {
    if clean == [] {
      assert clean + rest == rest;
    } else {
      assert (clean + rest)[1..] == clean[1..] + rest;
      CleanPathIs(clean[1..], rest);
    }
  }

  /** `names` are written among the parts, one after the other, in any case. */
  predicate Written(parts: seq<string>, names: seq<string>) {
    exists i :: 0 <= i <= |parts| && WrittenAt(parts, names, i)
  }

  predicate WrittenAt(parts: seq<string>, names: seq<string>, i: nat) {
    i + |names| <= |parts| && SameTexts(parts[i..i + |names|], names)
  }

  lemma {:induction false} RunIsWrittenAt(parts: seq<string>, names: seq<string>, i: nat)
    requires Map(LowerAll, names) == names
    ensures RunAt(Map(LowerAll, parts), names, i) <==> WrittenAt(parts, names, i)
  {
    if i + |names| <= |parts| {
      var some := parts[i..i + |names|];
      assert Map(LowerAll, parts)[i..i + |names|] == Map(LowerAll, some);
      LowerTextsIff(some, names);
    }
  }

  lemma {:induction false} RunIsWritten(parts: seq<string>, names: seq<string>)
    requires forall k :: 0 <= k < |names| ==> IsSegment(names[k])
    ensures HasRun(Map(LowerAll, parts), names) <==> Written(parts, names)
  {
    forall k | 0 <= k < |names| ensures LowerAll(names[k]) == names[k] {
      LowerSegment(names[k]);
    }
    forall i | 0 <= i <= |parts| ensures RunAt(Map(LowerAll, parts), names, i) <==> WrittenAt(parts, names, i) {
      RunIsWrittenAt(parts, names, i);
    }
  }

  lemma {:induction false} RunAfterSlash(rooted: bool, t: string, names: seq<string>)
    requires forall k :: 0 <= k < |names| ==> IsSegment(names[k])
    ensures HasRun(AfterSlash(rooted, Segments(t)), names) <==> Written(AfterSlash(rooted, Parts(t)), names)
  {
    SegmentsAreParts(t);
    assert AfterSlash(rooted, Segments(t)) == Map(LowerAll, AfterSlash(rooted, Parts(t)));
    RunIsWritten(AfterSlash(rooted, Parts(t)), names);
  }

  /** A path, up to its query or fragment and read once, is tracked iff no part after
      a slash is `attestation` and no three such in a row are the authorize route, in
      any case: no spelling of an excluded route is tracked, and no other is lost. */
  lemma {:induction false} TrackedIff(clean: string, rest: string, t: string)
    requires '?' !in clean && '#' !in clean && (rest == [] || rest[0] == '?' || rest[0] == '#')
    requires Reads(clean, t)
    ensures var parts := AfterSlash(Rooted(t), Parts(t));
            TrackedInferencePath(clean + rest) <==>
              !Written(parts, ["attestation"]) && !Written(parts, ["internal", "gateway", "authorize"])
  {
    CleanPathIs(clean, rest);
    DecodeReads(clean, t);
    TrackedBySegments(clean + rest);
    AttestationNamed();
    AuthorizeNamed();
    RunAfterSlash(Rooted(t), t, ["attestation"]);
    RunAfterSlash(Rooted(t), t, ["internal", "gateway", "authorize"]);
  }

  lemma {:induction false} TrackedBySegments(path: string)
    ensures var t := PercentDecode(CleanPath(path));
            var segments := AfterSlash(Rooted(t), Segments(t));
            TrackedInferencePath(path) <==>
              !HasRun(segments, ["attestation"]) && !HasRun(segments, ["internal", "gateway", "authorize"])
  {
    var t := PercentDecode(CleanPath(path));
    var segments := Segments(t);
    SegmentsAreSegments(t);
    AttestationNamed();
    AuthorizeNamed();
    AuthorizeSpelled();
    ExcludedIff(Rooted(t), segments, ["attestation"]);
    ExcludedIff(Rooted(t), segments, ["internal", "gateway", "authorize"]);
  }

  // ---- Routes relative to a base ----

  function RelativeToBase(sameOrigin: bool, base: string, response: string): Option<string> {
    if !sameOrigin then None
    else
      var basePath, responsePath := SemanticRoute(base), SemanticRoute(response);
      if basePath == "/" then Some(responsePath)
      else if responsePath == basePath then Some("/")
      else if basePath + "/" <= responsePath then Some("/" + responsePath[|basePath| + 1..])
      else None
  }

  lemma {:induction false} SpelledPrefix(b: seq<string>, r: seq<string>)
    requires b != [] && r != b
    requires forall k :: 0 <= k < |b| ==> IsSegment(b[k])
    requires forall k :: 0 <= k < |r| ==> IsSegment(r[k])
    ensures Spelled(true, b) + "/" <= Spelled(true, r) <==> b <= r
    ensures b <= r ==> Spelled(true, r) == Spelled(true, b) + "/" + Join(r[|b|..], '/')
  {
    if b <= r {
      var rest := r[|b|..];
      assert r == b + rest;
      JoinConcat(b, rest, '/');
      assert "/" + (Join(b, '/') + "/" + Join(rest, '/')) == "/" + Join(b, '/') + "/" + Join(rest, '/');
    }
    if Spelled(true, b) + "/" <= Spelled(true, r) {
      PrefixSegments(b, r);
    }
  }

  lemma {:induction false} PrefixSegments(b: seq<string>, r: seq<string>)
    requires b != [] && Spelled(true, b) + "/" <= Spelled(true, r)
    requires forall k :: 0 <= k < |b| ==> IsSegment(b[k])
    requires forall k :: 0 <= k < |r| ==> IsSegment(r[k])
    ensures b <= r
  {
    var jb, jr := Join(b, '/'), Join(r, '/');
    var rest := Spelled(true, r)[|Spelled(true, b)| + 1..];
    assert jr == Spelled(true, r)[1..] && Spelled(true, r) == Spelled(true, b) + "/" + rest;
    assert jr == jb + ['/'] + rest;
    SplitJoin(b, '/');
    SplitConcat(jb, '/', rest);
    if r != [] {
      SplitJoin(r, '/');
    }
  }

  lemma {:induction false} RootSpelled()
    ensures Spelled(true, []) == "/"
  {
    var none: seq<string> := [];
    assert Join(none, '/') == "";
  }

  /** The relative route exists iff the base's segments are a prefix of the
      response's, whole segments only, and it spells exactly the remaining ones. */
  lemma {:induction false} RelativeIff(sameOrigin: bool, base: string, response: string)
    requires Rooted(PercentDecode(base)) && Rooted(PercentDecode(response))
    ensures var b, r := Segments(PercentDecode(base)), Segments(PercentDecode(response));
            RelativeToBase(sameOrigin, base, response)
            == if sameOrigin && b <= r then Some(Spelled(true, r[|b|..])) else None
  {
    var b, r := Segments(PercentDecode(base)), Segments(PercentDecode(response));
    SegmentsAreSegments(PercentDecode(base));
    SegmentsAreSegments(PercentDecode(response));
    SegmentsOfSpelled(true, b);
    SegmentsOfSpelled(true, r);
    SegmentsOfSpelled(true, []);
    RootSpelled();
    if b == [] {
      assert r[0..] == r;
    } else if r != b {
      SpelledPrefix(b, r);
    } else {
      assert r[|b|..] == [];
    }
  }
}
