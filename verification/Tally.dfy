/** How many members of a sequence lie in a set. */
module Tally {
  import opened Basics

  function CountIn<T(==)>(s: seq<T>, b: set<T>): nat {
    if s == [] then 0 else (if s[0] in b then 1 else 0) + CountIn(s[1..], b)
  }

  lemma {:induction false} CountConcat<T>(s: seq<T>, t: seq<T>, b: set<T>)
    ensures CountIn(s + t, b) == CountIn(s, b) + CountIn(t, b)
  {
    if s == [] {
      assert s + t == t;
    } else {
      assert (s + t)[1..] == s[1..] + t;
      CountConcat(s[1..], t, b);
    }
  }

  lemma {:induction false} MembersHead<T>(s: seq<T>)
    requires s != [] && Distinct(s)
    ensures Members(s) == {s[0]} + Members(s[1..]) && s[0] !in Members(s[1..]) && Distinct(s[1..])
  {
    assert forall x :: x in s <==> x == s[0] || x in s[1..];
    forall x | x in s[1..] ensures x != s[0] {
      var i :| 0 <= i < |s[1..]| && s[1..][i] == x;
      assert s[i + 1] == x;
    }
    assert forall i, j :: 0 <= i < j < |s[1..]| ==> s[1..][i] == s[i + 1] && s[1..][j] == s[j + 1];
  }

  lemma {:induction false} CountIsIntersection<T>(s: seq<T>, b: set<T>)
    requires Distinct(s)
    ensures CountIn(s, b) == |Members(s) * b|
  {
    if s == [] {
      assert Members(s) * b == {};
    } else {
      MembersHead(s);
      CountIsIntersection(s[1..], b);
      var rest := Members(s[1..]) * b;
      if s[0] in b {
        assert Members(s) * b == {s[0]} + rest;
      } else {
        assert Members(s) * b == rest;
      }
    }
  }

  lemma {:induction false} DistinctSize<T>(s: seq<T>)
    requires Distinct(s)
    ensures |Members(s)| == |s|
  {
    if s == [] {
      assert Members(s) == {};
    } else {
      MembersHead(s);
      DistinctSize(s[1..]);
    }
  }

  lemma {:induction false} SubsetSize<T>(a: set<T>, b: set<T>)
    requires a <= b
    ensures |a| <= |b| && (|a| == |b| <==> a == b)
  {
    assert b == a + (b - a);
  }

  /** Of the things held, as many are among those sent as were sent, iff all those
      sent are still held. */
  lemma {:induction false} AllHeldIff<T>(held: seq<T>, sent: seq<T>)
    requires Distinct(held) && Distinct(sent)
    ensures CountIn(held, Members(sent)) <= |sent|
    ensures CountIn(held, Members(sent)) == |sent| <==> forall x :: x in sent ==> x in held
  {
    CountIsIntersection(held, Members(sent));
    DistinctSize(sent);
    SubsetSize(Members(held) * Members(sent), Members(sent));
    assert Members(held) * Members(sent) == Members(sent) <==> Members(sent) <= Members(held);
    assert Members(sent) <= Members(held) <==> forall x :: x in sent ==> x in held by {
      if Members(sent) <= Members(held) {
        forall x | x in sent ensures x in held {
          assert x in Members(sent);
        }
      }
    }
  }
}
