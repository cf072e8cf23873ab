/** Splitting on a separator and joining with it, over any alphabet. */
module Text {

  function Split<T(==)>(s: seq<T>, sep: T): (parts: seq<seq<T>>)
    ensures parts != []
  {
    if s == [] then [[]]
    else
      var rest := Split(s[1..], sep);
      if s[0] == sep then [[]] + rest else [[s[0]] + rest[0]] + rest[1..]
  }

  function Join<T>(parts: seq<seq<T>>, sep: T): seq<T> {
    if parts == [] then []
    else if |parts| == 1 then parts[0]
    else parts[0] + [sep] + Join(parts[1..], sep)
  }

  predicate Free<T(==)>(part: seq<T>, sep: T) {
    sep !in part
  }

  lemma {:induction false} SplitFree<T>(s: seq<T>, sep: T)
    requires Free(s, sep)
    ensures Split(s, sep) == [s]
  {
    if s != [] {
      SplitFree(s[1..], sep);
      assert [s[0]] + s[1..] == s;
    }
  }

  lemma {:induction false} SplitPartsFree<T>(s: seq<T>, sep: T)
    ensures forall p :: p in Split(s, sep) ==> Free(p, sep)
  {
    if s != [] {
      SplitPartsFree(s[1..], sep);
      var rest := Split(s[1..], sep);
      assert rest[0] in rest;
      forall p | p in Split(s, sep) ensures Free(p, sep) {
        assert p in rest || p == [] || p == [s[0]] + rest[0];
      }
    }
  }

  lemma {:induction false} PrependPart<T>(x: T, parts: seq<seq<T>>, more: seq<seq<T>>)
    requires parts != []
    ensures [[x] + (parts + more)[0]] + (parts + more)[1..] == ([[x] + parts[0]] + parts[1..]) + more
  {
    assert (parts + more)[1..] == parts[1..] + more;
  }

  /** A separator splits what is before it from what is after it. */
  lemma {:induction false} SplitConcat<T>(a: seq<T>, sep: T, b: seq<T>)
    ensures Split(a + [sep] + b, sep) == Split(a, sep) + Split(b, sep)
  {
    var s := a + [sep] + b;
    if a == [] {
      assert s[1..] == b;
    } else {
      assert s[0] == a[0] && s[1..] == a[1..] + [sep] + b;
      SplitConcat(a[1..], sep, b);
      if a[0] != sep {
        PrependPart(a[0], Split(a[1..], sep), Split(b, sep));
      }
    }
  }

  /** Splitting undoes joining for separator-free parts. */
  lemma {:induction false} SplitJoin<T>(parts: seq<seq<T>>, sep: T)
    requires parts != [] && forall p :: p in parts ==> Free(p, sep)
    ensures Split(Join(parts, sep), sep) == parts
  {
    assert parts[0] in parts;
    SplitFree(parts[0], sep);
    if |parts| == 1 {
      assert parts == [parts[0]];
    } else {
      SplitJoin(parts[1..], sep);
      SplitConcat(parts[0], sep, Join(parts[1..], sep));
      assert parts == [parts[0]] + parts[1..];
    }
  }

  /** Joining undoes splitting. */
  lemma {:induction false} JoinSplit<T>(s: seq<T>, sep: T)
    ensures Join(Split(s, sep), sep) == s
  {
    if s != [] {
      JoinSplit(s[1..], sep);
      var rest := Split(s[1..], sep);
      if s[0] == sep {
        assert ([[]] + rest)[1..] == rest;
        assert [] + [sep] + s[1..] == s;
      } else {
        JoinFirst(s[0], rest, sep);
        assert [s[0]] + s[1..] == s;
      }
    }
  }

  lemma {:induction false} JoinFirst<T>(x: T, parts: seq<seq<T>>, sep: T)
    requires parts != []
    ensures Join([[x] + parts[0]] + parts[1..], sep) == [x] + Join(parts, sep)
  {
    var longer := [[x] + parts[0]] + parts[1..];
    assert longer[1..] == parts[1..];
    if |parts| > 1 {
      assert [x] + parts[0] + [sep] + Join(parts[1..], sep) == [x] + (parts[0] + [sep] + Join(parts[1..], sep));
    }
  }

  lemma {:induction false} JoinConcat<T>(a: seq<seq<T>>, b: seq<seq<T>>, sep: T)
    requires a != [] && b != []
    ensures Join(a + b, sep) == Join(a, sep) + [sep] + Join(b, sep)
  {
    if |a| == 1 {
      assert (a + b)[1..] == b;
    } else {
      assert (a + b)[1..] == a[1..] + b;
      JoinConcat(a[1..], b, sep);
    }
  }
}
