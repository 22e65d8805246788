/** Sequences without repeated elements. */
module Sequences {
  ghost predicate NoDup<T>(s: seq<T>) {
    forall i, j :: 0 <= i < j < |s| ==> s[i] != s[j]
  }

  lemma NoDupParts<T>(s: seq<T>, t: seq<T>)
    requires NoDup(s + t)
    ensures NoDup(s) && NoDup(t)
    ensures forall x :: x in s ==> x !in t
  {
    forall i, j | 0 <= i < |s| && 0 <= j < |t|
      ensures s[i] != t[j]
    {
      assert (s + t)[i] != (s + t)[|s| + j];
    }
    forall i, j | 0 <= i < j < |t|
      ensures t[i] != t[j]
    {
      assert (s + t)[|s| + i] != (s + t)[|s| + j];
    }
    forall i, j | 0 <= i < j < |s|
      ensures s[i] != s[j]
    {
      assert (s + t)[i] != (s + t)[j];
    }
  }

  lemma NoDupJoin<T>(s: seq<T>, t: seq<T>)
    requires NoDup(s) && NoDup(t) && forall x :: x in s ==> x !in t
    ensures NoDup(s + t)
  {
    forall i, j | 0 <= i < j < |s + t|
      ensures (s + t)[i] != (s + t)[j]
    {
      if i < |s| <= j {
        assert (s + t)[i] in s && (s + t)[j] in t;
      }
    }
  }

  lemma {:induction false} MultisetOnce<T>(s: seq<T>, x: T)
    requires NoDup(s)
    ensures multiset(s)[x] <= 1
  {
    if |s| > 0 {
      assert s == s[..|s| - 1] + [s[|s| - 1]];
      MultisetOnce(s[..|s| - 1], x);
      if x == s[|s| - 1] {
        assert x !in s[..|s| - 1];
      }
    }
  }

  lemma {:induction false} NoDupFromMultiset<T>(s: seq<T>)
    requires forall x :: multiset(s)[x] <= 1
    ensures NoDup(s)
  {
    if |s| > 0 {
      var t, y := s[..|s| - 1], s[|s| - 1];
      assert s == t + [y];
      assert forall x :: multiset(t)[x] <= multiset(s)[x];
      NoDupFromMultiset(t);
      assert multiset(s)[y] == multiset(t)[y] + 1;
      forall i, j | 0 <= i < j < |s|
        ensures s[i] != s[j]
      {
        if j == |s| - 1 {
          assert s[i] == t[i] && t[i] in t;
        } else {
          assert t[i] != t[j];
        }
      }
    }
  }

  lemma NoDupPerm<T>(s: seq<T>, t: seq<T>)
    requires multiset(s) == multiset(t) && NoDup(s)
    ensures NoDup(t)
  {
    forall x
      ensures multiset(t)[x] <= 1
    {
      MultisetOnce(s, x);
    }
    NoDupFromMultiset(t);
  }

  lemma NoDupInsert<T>(a: seq<T>, x: T, b: seq<T>)
    requires NoDup(a + b) && x !in a + b
    ensures NoDup(a + [x] + b)
  {
    NoDupJoin(a + b, [x]);
    NoDupPerm(a + b + [x], a + [x] + b);
  }

  lemma NoDupRemove<T>(a: seq<T>, x: T, b: seq<T>)
    requires NoDup(a + [x] + b)
    ensures NoDup(a + b) && x !in a + b
  {
    NoDupPerm(a + [x] + b, a + b + [x]);
    NoDupParts(a + b, [x]);
    assert x in [x];
  }

  function Reversed<T>(s: seq<T>): (r: seq<T>)
    ensures |r| == |s| && forall i :: 0 <= i < |s| ==> r[i] == s[|s| - 1 - i]
  {
    seq(|s|, i requires 0 <= i < |s| => s[|s| - 1 - i])
  }
}
