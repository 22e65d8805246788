/** Intrusive doubly linked lists with header elements at both ends (list.c). */
module Lists {
  import opened Sequences
  import opened Orders

  // struct list_elem
  class Elem {
    var prev: Elem?
    var next: Elem?

    constructor ()
      ensures prev == null && next == null
    {
      prev, next := null, null;
    }
  }

  // Neighbours in C point at each other.
  ghost predicate Joined(c: seq<Elem>)
    reads c
  {
    forall i :: 0 <= i < |c| - 1 ==> c[i].next == c[i + 1] && c[i + 1].prev == c[i]
  }

  ghost predicate Link(x: Elem, y: Elem)
    reads x, y
  {
    x.next == y && y.prev == x
  }

  lemma JoinedConcat(a: seq<Elem>, b: seq<Elem>)
    requires a != [] && b != []
    ensures Joined(a + b) <==> Joined(a) && Joined(b) && Link(a[|a| - 1], b[0])
  {
    var c := a + b;
    if Joined(c) {
      forall i | 0 <= i < |a| - 1
        ensures a[i].next == a[i + 1] && a[i + 1].prev == a[i]
      {
        assert c[i].next == c[i + 1] && c[i + 1].prev == c[i];
      }
      forall i | 0 <= i < |b| - 1
        ensures b[i].next == b[i + 1] && b[i + 1].prev == b[i]
      {
        assert c[|a| + i].next == c[|a| + i + 1] && c[|a| + i + 1].prev == c[|a| + i];
      }
      assert c[|a| - 1].next == c[|a| - 1 + 1];
    }
    if Joined(a) && Joined(b) && Link(a[|a| - 1], b[0]) {
      forall i | 0 <= i < |c| - 1
        ensures c[i].next == c[i + 1] && c[i + 1].prev == c[i]
      {
        assert i < |a| - 1 ==> a[i].next == a[i + 1] && a[i + 1].prev == a[i];
        assert i >= |a| ==> b[i - |a|].next == b[i - |a| + 1] && b[i - |a| + 1].prev == b[i - |a|];
      }
    }
  }

  ghost predicate Forward(c: seq<Elem>, m: nat)
    requires 0 < m < |c| - 1
    reads c[m]
  {
    c[m].next == c[m + 1] && c[m].prev == c[m - 1]
  }

  ghost predicate Backward(c: seq<Elem>, m: nat)
    requires 0 < m < |c| - 1
    reads c[m]
  {
    c[m].next == c[m - 1] && c[m].prev == c[m + 1]
  }

  lemma OthersApart(c: seq<Elem>, i: nat)
    requires NoDup(c) && i < |c|
    ensures forall m :: 0 <= m < |c| && m != i ==> c[m] != c[i]
  {}

  lemma EndsApart(c: seq<Elem>)
    requires NoDup(c) && |c| >= 2
    ensures forall m :: 0 < m < |c| - 1 ==> c[m] != c[0] && c[m] != c[|c| - 1]
  {}

  // How list_reverse leaves the links of an interior element.
  ghost predicate Turned(c: seq<Elem>, m: nat)
    requires 0 < m < |c| - 1
    reads c[m]
  {
    c[m].next == (if m == 1 then c[|c| - 1] else c[m - 1]) && c[m].prev == (if m == |c| - 2 then c[0] else c[m + 1])
  }

  // Where element I of a chain of N goes when the interior is turned round.
  function Mirror(n: nat, i: nat): (j: nat)
    requires i < n
    ensures j < n && (0 < i < n - 1 <==> 0 < j < n - 1)
  {
    if 0 < i < n - 1 then n - 1 - i else i
  }

  ghost predicate Turning<T>(c: seq<T>, c1: seq<T>) {
    |c1| == |c| >= 2 && forall i :: 0 <= i < |c| ==> c1[i] == c[Mirror(|c|, i)]
  }

  lemma ReversedTurning<T>(head: T, s: seq<T>, tail: T)
    ensures Turning(Full(head, s, tail), Full(head, Reversed(s), tail))
  {
    hide Full, Reversed;
    var c, c1 := Full(head, s, tail), Full(head, Reversed(s), tail);
    forall i | 0 <= i < |c|
      ensures c1[i] == c[Mirror(|c|, i)]
    {
      if 0 < i < |c| - 1 {
        assert c1[i - 1 + 1] == Reversed(s)[i - 1] == s[|s| - i] == c[|s| - i + 1];
      }
    }
  }

  lemma TurningNoDup<T>(c: seq<T>, c1: seq<T>)
    requires NoDup(c) && Turning(c, c1)
    ensures NoDup(c1)
  {
    forall i, j | 0 <= i < j < |c1|
      ensures c1[i] != c1[j]
    {
      assert c[Mirror(|c|, i)] != c[Mirror(|c|, j)];
    }
  }

  lemma TurningNodes(c: seq<Elem>, c1: seq<Elem>)
    requires Turning(c, c1)
    ensures (set x: object | x in c) == (set x: object | x in c1)
  {
    forall x: object
      ensures x in c1 <==> x in c
    {
      if x in c {
        var i :| 0 <= i < |c| && c[i] == x;
        assert Mirror(|c|, Mirror(|c|, i)) == i;
        assert c1[Mirror(|c|, i)] == x;
      }
    }
  }

  lemma TurningJoined(c: seq<Elem>, c1: seq<Elem>)
    requires Turning(c, c1) && |c| > 2
    requires forall m :: 0 < m < |c| - 1 ==> Turned(c, m)
    requires c[0].next == c[|c| - 2] && c[|c| - 1].prev == c[1]
    ensures Joined(c1)
  {
    var n := |c|;
    forall i | 0 <= i < n - 1
      ensures c1[i].next == c1[i + 1] && c1[i + 1].prev == c1[i]
    {
      assert 0 < i ==> Turned(c, n - 1 - i);
      assert i < n - 2 ==> Turned(c, n - 2 - i);
    }
  }

  // Links inside a piece of a chain survive changes at its ends.
  twostate lemma JoinedStill(s: seq<Elem>)
    requires NoDup(s) && old(Joined(s))
    requires s != []
    requires forall x :: x in s && x != s[|s| - 1] ==> x.next == old(x.next)
    requires forall x :: x in s && x != s[0] ==> x.prev == old(x.prev)
    ensures Joined(s)
  {
    forall i | 0 <= i < |s| - 1
      ensures s[i].next == s[i + 1] && s[i + 1].prev == s[i]
    {
      assert s[i] in s && s[i + 1] in s;
      assert old(s[i].next) == s[i + 1];
    }
  }

  lemma JoinedOne(x: Elem)
    ensures Joined([x])
  {}

  lemma Ends<T>(c: seq<T>, a: seq<T>, b: seq<T>)
    requires c == a + b && a != [] && b != []
    ensures c[0] == a[0] && c[0] in a && c[|c| - 1] == b[|b| - 1] && c[|c| - 1] in b
    ensures a[|a| - 1] in a && b[0] in b && forall x :: x in a || x in b <==> x in c
  {}

  lemma NoneBetween<T>(a: seq<T>, s: seq<T>, d: seq<T>)
    requires NoDup(a + s + d) && d != [] && (s + d)[0] == d[0]
    ensures s == []
  {
    var c := a + s + d;
    assert c[|a|] == (s + d)[0] && c[|a| + |s|] == d[0];
  }

  // Four pieces of a chain have no element in common.
  lemma FourPieces<T>(a: seq<T>, b: seq<T>, s: seq<T>, d: seq<T>)
    requires NoDup(a + b + s + d)
    ensures NoDup(a) && NoDup(b) && NoDup(s) && NoDup(d) && NoDup(a + s + b + d)
    ensures forall x :: x in a ==> x !in b && x !in s && x !in d
    ensures forall x :: x in b ==> x !in s && x !in d
    ensures forall x :: x in s ==> x !in d
  {
    NoDupParts(a + b + s, d);
    NoDupParts(a + b, s);
    NoDupParts(a, b);
    NoDupPerm(a + b + s + d, a + s + b + d);
  }

  lemma FourEnds<T>(c: seq<T>, a: seq<T>, b: seq<T>, s: seq<T>, d: seq<T>)
    requires c == a + b + s + d && a != [] && b != [] && s != [] && d != []
    ensures c[0] == a[0] && a[0] in a && c[|c| - 1] == d[|d| - 1] && d[|d| - 1] in d
    ensures a[|a| - 1] in a && b[0] in b && b[|b| - 1] in b && s[0] in s && s[|s| - 1] in s && d[0] in d
    ensures (s + d)[0] == s[0]
    ensures forall x :: x in a || x in b || x in s || x in d <==> x in c
  {}

  lemma JoinedFour(a: seq<Elem>, b: seq<Elem>, s: seq<Elem>, d: seq<Elem>)
    requires a != [] && b != [] && s != [] && d != []
    ensures Joined(a + b + s + d) <==>
              && Joined(a) && Joined(b) && Joined(s) && Joined(d)
              && Link(a[|a| - 1], b[0]) && Link(b[|b| - 1], s[0]) && Link(s[|s| - 1], d[0])
  {
    hide Joined;
    JoinedConcat(a, b);
    JoinedConcat(a + b, s);
    JoinedConcat(a + b + s, d);
  }

  // The whole chain of a list with elements S.
  function Full<T>(head: T, s: seq<T>, tail: T): (c: seq<T>)
    ensures |c| == |s| + 2 && c[0] == head && c[|s| + 1] == tail && forall i :: 0 <= i < |s| ==> c[i + 1] == s[i]
  {
    [head] + s + [tail]
  }

  // The element after X, in pieces, and the chain without it.
  lemma WalkPieces<T>(head: T, k: seq<T>, x: T, r: seq<T>, tail: T)
    requires r != []
    ensures var c, a, b := Full(head, k + [x] + r, tail), [head] + k + [x], r[1..] + [tail];
            && c == a + [r[0]] + b && Full(head, k + [x] + r[1..], tail) == a + b
            && c[|k| + 2] == r[0] && (a + b)[|k| + 1] == x
            && c == Full(head, (k + [x]) + [r[0]] + r[1..], tail)
  {
    assert r == [r[0]] + r[1..];
    assert k + [x] + r == (k + [x]) + [r[0]] + r[1..];
  }

  lemma AppendPieces<T>(head: T, s: seq<T>, tail: T, x: T)
    ensures Full(head, s, tail) == ([head] + s) + [tail] && Full(head, s + [x], tail) == ([head] + s) + [x] + [tail]
  {}

  lemma InsertPieces<T>(head: T, s: seq<T>, tail: T, k: nat, x: T)
    requires k <= |s|
    ensures var a, b := [head] + s[..k], s[k..] + [tail];
            && Full(head, s, tail) == a + b && Full(head, s[..k] + [x] + s[k..], tail) == a + [x] + b
            && b[0] == Full(head, s, tail)[k + 1]
  {
    assert s == s[..k] + s[k..];
  }

  // One element of a list moved forward, in pieces of its chain.
  lemma MovePieces<T>(head: T, s: seq<T>, tail: T, q: nat, p: nat)
    requires p < q < |s|
    ensures var a, b, d := [head] + s[..p], s[p..q], s[q + 1..] + [tail];
            Full(head, s, tail) == a + b + [s[q]] + d && Full(head, Moved(s, q, p), tail) == a + [s[q]] + b + d
    ensures (s[q + 1..] + [tail])[0] == Full(head, s, tail)[q + 2]
  {
    assert s == s[..p] + s[p..q] + [s[q]] + s[q + 1..];
  }

  lemma MovedAt<T>(head: T, s: seq<T>, tail: T, q: nat, p: nat)
    requires p < q < |s|
    ensures |Moved(s, q, p)| == |s|
    ensures Full(head, Moved(s, q, p), tail)[p + 2] == Full(head, s, tail)[p + 1]
    ensures forall i :: q + 2 <= i < |s| + 2 ==> Full(head, Moved(s, q, p), tail)[i] == Full(head, s, tail)[i]
  {
    var t := Moved(s, q, p);
    assert t[p + 1] == s[p];
    forall i | q + 2 <= i < |s| + 2
      ensures Full(head, t, tail)[i] == Full(head, s, tail)[i]
    {
      assert i < |s| + 1 ==> t[i - 1] == s[i - 1];
    }
  }

  /** A list and, as a ghost, all its elements in order with the header elements. */
  class List {
    const head: Elem
    const tail: Elem
    ghost var chain: seq<Elem>
    ghost var passes: nat   // how often list_sort has gone over the list

    ghost function Nodes(): set<object>
      reads this
    {
      set x: object | x in chain
    }

    ghost predicate Valid()
      reads this, chain, head, tail
    {
      && |chain| >= 2 && chain[0] == head && chain[|chain| - 1] == tail
      && NoDup(chain) && Joined(chain) && head.prev == null && tail.next == null
    }

    // llist_init
    constructor ()
      ensures Valid() && chain == [head, tail] && passes == 0 && fresh(head) && fresh(tail)
    {
      var h := new Elem();
      var t := new Elem();
      h.next, t.prev := t, h;
      head, tail, chain, passes := h, t, [h, t], 0;
    }

    // ----- insertion, removal, splicing -----

    // list_insert.  BEFORE is the first element of B.
    method Insert(before: Elem, elem: Elem, ghost a: seq<Elem>, ghost b: seq<Elem>)
      requires Valid() && chain == a + b && a != [] && b != [] && b[0] == before && elem !in chain
      modifies `chain, Nodes(), elem
      ensures Valid() && chain == a + [elem] + b && Nodes() == old(Nodes()) + {elem}
    {
      hide Joined, NoDup;
      JoinedConcat(a, b);
      NoDupParts(a, b);
      Ends(chain, a, b);
      elem.prev := before.prev;
      elem.next := before;
      before.prev.next := elem;
      before.prev := elem;
      chain := a + [elem] + b;
      JoinedStill(a);
      JoinedStill(b);
      JoinedOne(elem);
      JoinedConcat(a, [elem]);
      JoinedConcat(a + [elem], b);
      NoDupInsert(a, elem, b);
    }

    // list_push_back
    method PushBack(elem: Elem, ghost s: seq<Elem>)
      requires Valid() && chain == Full(head, s, tail) && elem !in chain
      modifies `chain, Nodes(), elem
      ensures Valid() && chain == Full(head, s + [elem], tail) && Nodes() == old(Nodes()) + {elem}
    {
      hide Joined, NoDup;
      AppendPieces(head, s, tail, elem);
      Insert(tail, elem, [head] + s, [tail]);
    }

    // list_remove of the element between A and B.
    method Remove(elem: Elem, ghost a: seq<Elem>, ghost b: seq<Elem>) returns (next: Elem)
      requires Valid() && chain == a + [elem] + b && a != [] && b != []
      modifies `chain, Nodes()
      ensures Valid() && chain == a + b && next == b[0]
      ensures elem !in chain && Nodes() == old(Nodes()) - {elem}
    {
      hide Joined, NoDup;
      JoinedOne(elem);
      JoinedConcat(a, [elem]);
      JoinedConcat(a + [elem], b);
      NoDupRemove(a, elem, b);
      NoDupParts(a, b);
      Ends(a + b, a, b);
      Ends(chain, a + [elem], b);
      Ends(a + [elem], a, [elem]);
      elem.prev.next := elem.next;
      elem.next.prev := elem.prev;
      next := elem.next;
      chain := a + b;
      JoinedStill(a);
      JoinedStill(b);
      JoinedConcat(a, b);
    }

    // list_splice within one list: the elements S, which come after B, go before it.
    method Splice(before: Elem, first: Elem, last: Elem, ghost a: seq<Elem>, ghost b: seq<Elem>, ghost s: seq<Elem>, ghost d: seq<Elem>)
      requires Valid() && chain == a + b + s + d && a != [] && b != [] && d != []
      requires before == b[0] && first == (s + d)[0] && last == d[0]
      modifies `chain, Nodes()
      ensures Valid() && chain == a + s + b + d
      ensures Nodes() == old(Nodes())
    {
      hide Joined, NoDup;
      if first == last {
        NoneBetween(a + b, s, d);
        return;
      }
      FourPieces(a, b, s, d);
      JoinedFour(a, b, s, d);
      FourEnds(chain, a, b, s, d);
      var last' := last.prev;
      first.prev.next := last'.next;
      last'.next.prev := first.prev;
      first.prev := before.prev;
      last'.next := before;
      before.prev.next := first;
      before.prev := last';
      chain := a + s + b + d;
      JoinedStill(a);
      JoinedStill(b);
      JoinedStill(s);
      JoinedStill(d);
      JoinedFour(a, s, b, d);
    }

    // ----- runs and merging -----

    lemma NextOf(i: nat)
      requires Valid() && i + 1 < |chain|
      ensures chain[i].next == chain[i + 1] && chain[i + 1].prev == chain[i]
    {}

    lemma Different(i: nat, j: nat)
      requires Valid() && i < |chain| && j < |chain|
      ensures chain[i] == chain[j] <==> i == j
    {}

    // find_end_of_run: A is element I, B element E of S or the tail.
    method FindEndOfRun(a: Elem, b: Elem, less: Less<Elem>, ghost s: seq<Elem>, ghost i: nat, ghost e: nat)
        returns (r: Elem, ghost k: nat)
      requires Valid() && chain == Full(head, s, tail) && i < e <= |s| && chain[i + 1] == a && chain[e + 1] == b
      ensures i < k <= e && chain[k + 1] == r
      ensures Steps(less, s[i..k]) && (k < e ==> less(s[k], s[k - 1]))
    {
      hide Joined, NoDup, Full;
      NextOf(i + 1);
      r, k := a.next, i + 1;
      while r != b && !less(r, r.prev)
        invariant i < k <= e && chain[k + 1] == r && Steps(less, s[i..k])
        invariant r.prev == chain[k]
        decreases e - k
      {
        Different(k + 1, e + 1);
        NextOf(k + 1);
        assert s[i..k + 1] == s[i..k] + [s[k]];
        r, k := r.next, k + 1;
      }
      Different(k + 1, e + 1);
    }

    // The moving step of inplace_merge: element Q goes before element P.
    method MoveForward(x: Elem, y: Elem, ghost t: seq<Elem>, ghost p: nat, ghost q: nat) returns (y': Elem)
      requires Valid() && p < q < |t| && chain == Full(head, t, tail) && chain[p + 1] == x && chain[q + 1] == y
      modifies `chain, Nodes()
      ensures Valid() && |Moved(t, q, p)| == |t| && chain == Full(head, Moved(t, q, p), tail)
      ensures y' == chain[q + 2] && chain[p + 2] == x
      ensures forall i :: q + 2 <= i < |chain| ==> chain[i] == old(chain)[i]
      ensures Nodes() == old(Nodes())
    {
      hide Joined, NoDup, Moved, Full;
      NextOf(q + 1);
      y' := y.next;
      MovePieces(head, t, tail, q, p);
      MovedAt(head, t, tail, q, p);
      Splice(x, y'.prev, y', [head] + t[..p], t[p..q], [t[q]], t[q + 1..] + [tail]);
    }

    // inplace_merge: A0, A1B0 and B1 are elements LO, M and HI of S.
    method InplaceMerge(a0: Elem, a1b0: Elem, b1: Elem, less: Less<Elem>, ghost s: seq<Elem>, ghost lo: nat, ghost m: nat,
                        ghost hi: nat) returns (ghost t: seq<Elem>)
      requires Valid() && chain == Full(head, s, tail) && lo < m < hi <= |s|
      requires chain[lo + 1] == a0 && chain[m + 1] == a1b0 && chain[hi + 1] == b1
      requires StrictWeak(less, Members(s)) && Sorted(less, s[lo..m]) && Sorted(less, s[m..hi])
      modifies `chain, Nodes()
      ensures Valid() && chain == Full(head, t, tail) && Merged(less, s, t, lo, hi)
      ensures Nodes() == old(Nodes()) && |t| == |s| && chain[hi + 1] == b1
    {
      hide Joined, NoDup, Merging, Merged, Moved, Full, StrictWeak, Sorted;
      t := s;
      var x, y := a0, a1b0;
      ghost var p, q := lo, m;
      MergeStart(less, s, lo, m, hi);
      while x != y && y != b1
        invariant lo <= p <= q <= hi <= |t|
        invariant Valid() && chain == Full(head, t, tail) && Merging(less, s, t, lo, p, q, hi)
        invariant chain[p + 1] == x && chain[q + 1] == y && chain[hi + 1] == b1
        invariant Nodes() == old(Nodes())
        decreases hi - p
      {
        MergingFacts(less, s, t, lo, p, q, hi);
        NextOf(p + 1);
        NextOf(q + 1);
        if !less(y, x) {
          MergeStay(less, s, t, lo, p, q, hi);
          x, p := x.next, p + 1;
        } else {
          MergeMove(less, s, t, lo, p, q, hi);
          y := MoveForward(x, y, t, p, q);
          t, p, q := Moved(t, q, p), p + 1, q + 1;
        }
      }
      MergingFacts(less, s, t, lo, p, q, hi);
      Different(p + 1, q + 1);
      Different(q + 1, hi + 1);
      MergeEnd(less, s, t, lo, p, q, hi);
    }

    // ----- sorting -----

    // One round of list_sort's outer loop: every two neighbouring runs become one.
    method Pass(less: Less<Elem>, ghost s: seq<Elem>) returns (out: nat, ghost t: seq<Elem>)
      requires Valid() && chain == Full(head, s, tail) && StrictWeak(less, Members(s))
      modifies this, Nodes()
      ensures Valid() && chain == Full(head, t, tail) && Nodes() == old(Nodes())
      ensures passes == old(passes) + 1
      ensures Stable(less, s, t) && RunCount(less, t) <= out == (RunCount(less, s) + 1) / 2
      ensures out <= 1 ==> Sorted(less, t)
    {
      hide Joined, NoDup, Full, Passing, Merged, Stable, StrictWeak, Sorted, Steps, RunCount;
      passes := passes + 1;
      out, t := 0, s;
      NextOf(0);
      var a0 := head.next;
      ghost var a := 0;
      PassStart(less, s);
      while a0 != tail
        invariant a <= |t| && chain == Full(head, t, tail) && chain[a + 1] == a0
        invariant Valid() && Nodes() == old(Nodes()) && passes == old(passes) + 1 && Passing(less, s, t, a, out)
        decreases |s| - a
      {
        PassingFacts(less, s, t, a, out);
        Different(a + 1, |t| + 1);
        out := out + 1;
        var a1b0, b1;
        ghost var m, b;
        a1b0, m := FindEndOfRun(a0, tail, less, t, a, |t|);
        Different(m + 1, |t| + 1);
        if a1b0 == tail {
          assert t[a..|t|] == t[a..];
          PassLast(less, s, t, a, out - 1);
          a := |t|;
          break;
        }
        b1, b := FindEndOfRun(a1b0, tail, less, t, m, |t|);
        RunSorted(less, t, a, m);
        RunSorted(less, t, m, b);
        ghost var t' := InplaceMerge(a0, a1b0, b1, less, t, a, m, b);
        PassStep(less, s, t, a, out - 1, m, b, t');
        a0, a, t := b1, b, t';
      }
      PassingFacts(less, s, t, a, out);
      Different(a + 1, |t| + 1);
      PassEnd(less, s, t, out);
    }

    /** list_sort.  The elements end up as insertion sort would have them, which is
        the only sorted and stable way, after at most the binary logarithm of the
        number of runs in passes. */
    method Sort(less: Less<Elem>, ghost s: seq<Elem>)
      requires Valid() && chain == Full(head, s, tail) && StrictWeak(less, Members(s))
      modifies this, Nodes()
      ensures Valid() && Nodes() == old(Nodes())
      ensures chain == Full(head, InsertionSort(less, s), tail)
      ensures Sorted(less, InsertionSort(less, s)) && Stable(less, s, InsertionSort(less, s))
      ensures old(passes) < passes <= old(passes) + Passes(RunCount(less, s))
    {
      hide Joined, NoDup, Full, Stable, StrictWeak, Sorted, RunCount;
      ghost var t := s;
      var out;
      StableSelf(less, s);
      NoDupInner(s);
      while true
        invariant Valid() && Nodes() == old(Nodes()) && chain == Full(head, t, tail) && Stable(less, s, t)
        invariant old(passes) <= passes && passes + Passes(RunCount(less, t)) <= old(passes) + Passes(RunCount(less, s))
        decreases RunCount(less, t)
      {
        SameMembersStable(less, s, t);
        ghost var t';
        out, t' := Pass(less, t);
        StableTrans(less, s, t, t');
        PassesGrow(RunCount(less, t'), out);
        t := t';
        if out <= 1 {
          break;
        }
      }
      InsertionSortRight(less, s);
      SortedStableUnique(less, s, t, InsertionSort(less, s));
    }

    lemma NoDupInner(s: seq<Elem>)
      requires Valid() && chain == Full(head, s, tail)
      ensures NoDup(s)
    {
      NoDupParts([head] + s, [tail]);
      NoDupParts([head], s);
    }

    // ----- ordered insertion, repeats, reversal -----

    // list_insert_ordered
    method InsertOrdered(elem: Elem, less: Less<Elem>, ghost s: seq<Elem>)
      requires Valid() && chain == Full(head, s, tail) && elem !in chain
      modifies `chain, Nodes(), elem
      ensures Valid() && chain == Full(head, Inserted(less, s, elem), tail)
    {
      hide Joined, NoDup, Place, Full, Inserted;
      NextOf(0);
      var e := head.next;
      ghost var k := 0;
      while e != tail
        invariant Valid() && chain == Full(head, s, tail) && Nodes() == old(Nodes()) && elem !in chain
        invariant k <= Place(less, s, elem) && chain[k + 1] == e
        decreases |s| - k
      {
        Different(k + 1, |s| + 1);
        if less(elem, e) {
          break;
        }
        NextOf(k + 1);
        e, k := e.next, k + 1;
      }
      Different(k + 1, |s| + 1);
      InsertedAt(less, s, elem, k);
      InsertPieces(head, s, tail, k, elem);
      Insert(e, elem, [head] + s[..k], s[k..] + [tail]);
    }

    // A repeat leaves this list for the end of DUPLICATES.
    method MoveRepeat(duplicates: List?, elem: Elem, ghost a: seq<Elem>, ghost b: seq<Elem>, ghost ds: seq<Elem>)
      requires Valid() && chain == a + [elem] + b && a != [] && b != []
      requires duplicates != null ==>
                 && duplicates.Valid() && duplicates.chain == Full(duplicates.head, ds, duplicates.tail)
                 && duplicates != this && Nodes() !! duplicates.Nodes()
      modifies `chain, Nodes(), duplicates, if duplicates == null then {} else duplicates.Nodes()
      ensures Valid() && chain == a + b && Nodes() == old(Nodes()) - {elem}
      ensures duplicates != null ==>
                && duplicates.Valid() && duplicates.chain == Full(duplicates.head, ds + [elem], duplicates.tail)
                && duplicates.Nodes() == old(duplicates.Nodes()) + {elem}
    {
      hide Joined, NoDup, Full;
      assert elem == chain[|a|] && elem in Nodes();
      var after := Remove(elem, a, b);
      if duplicates != null {
        duplicates.PushBack(elem, ds);
      }
    }

    /** list_unique: of neighbours that are the same the first is kept, the others
        go to the end of DUPLICATES if there is such a list. */
    method Unique(duplicates: List?, less: Less<Elem>, ghost s: seq<Elem>, ghost ds: seq<Elem>)
      requires Valid() && chain == Full(head, s, tail)
      requires duplicates != null ==>
                 && duplicates.Valid() && duplicates.chain == Full(duplicates.head, ds, duplicates.tail)
                 && duplicates != this && Nodes() !! duplicates.Nodes()
      modifies `chain, Nodes(), duplicates, if duplicates == null then {} else duplicates.Nodes()
      ensures Valid() && chain == Full(head, Kept(less, s), tail)
      ensures duplicates != null ==>
                duplicates.Valid() && duplicates.chain == Full(duplicates.head, ds + Dropped(less, s), duplicates.tail)
    {
      hide Joined, NoDup, Full, Kept, Dropped, Walking;
      NextOf(0);
      Different(1, |s| + 1);
      if head.next == tail {
        KeptNothing(less);
        assert s == [] && ds + Dropped(less, s) == ds;
        return;
      }
      var elem: Elem := head.next;
      ghost var k: seq<Elem>, r, dr: seq<Elem> := [], s[1..], [];
      WalkStart(less, s);
      assert s == k + [elem] + r && ds + dr == ds;
      NextOf(1);
      var next: Elem := elem.next;
      while next != tail
        invariant Valid() && chain == Full(head, k + [elem] + r, tail) && chain[|k| + 1] == elem && chain[|k| + 2] == next
        invariant Walking(less, s, k, elem, r, dr)
        invariant duplicates != null ==>
                    && duplicates.Valid() && duplicates.chain == Full(duplicates.head, ds + dr, duplicates.tail)
                    && Nodes() !! duplicates.Nodes() && Nodes() + duplicates.Nodes() == old(Nodes() + duplicates.Nodes())
        invariant Nodes() <= old(Nodes())
        decreases |r|
      {
        Different(|k| + 2, |chain| - 1);
        WalkStep(less, s, k, elem, r, dr);
        WalkPieces(head, k, elem, r, tail);
        if !less(elem, next) && !less(next, elem) {
          MoveRepeat(duplicates, next, [head] + k + [elem], r[1..] + [tail], ds + dr);
          assert ds + dr + [next] == ds + (dr + [next]);
          r, dr := r[1..], dr + [next];
        } else {
          k, elem, r := k + [elem], next, r[1..];
        }
        NextOf(|k| + 1);
        next := elem.next;
      }
      Different(|k| + 2, |chain| - 1);
      WalkEnd(less, s, k, elem, dr);
      assert k + [elem] + r == k + [elem];
    }

    lemma AllForward()
      requires Valid()
      ensures forall m :: 0 < m < |chain| - 1 ==> Forward(chain, m)
      ensures head.next == chain[1] && tail.prev == chain[|chain| - 2]
    {}

    /** list_reverse, which swaps the links of each element on its way. */
    method Reverse(ghost s: seq<Elem>)
      requires Valid() && chain == Full(head, s, tail)
      modifies `chain, Nodes()
      ensures Valid() && Nodes() == old(Nodes()) && chain == Full(head, Reversed(s), tail)
    {
      hide NoDup, Joined, Full;
      ghost var c, n := chain, |chain|;
      AllForward();
      if head.next != tail {
        var e := head.next;
        ghost var i := 1;
        EndsApart(c);
        while e != tail
          invariant 1 <= i <= n - 1 && e == c[i] && chain == c
          invariant forall m :: 0 < m < i ==> Backward(c, m)
          invariant forall m :: i <= m < n - 1 ==> Forward(c, m)
          invariant head.next == c[1] && head.prev == null && tail.prev == c[n - 2] && tail.next == null
          decreases n - i
        {
          OthersApart(c, i);
          assert Forward(c, i);
          e.prev, e.next := e.next, e.prev;
          assert Backward(c, i);
          e := e.prev;
          i := i + 1;
        }
        assert i == n - 1 by {
          OthersApart(c, n - 1);
        }
        SwapEnds(s);
      } else {
        OthersApart(c, n - 1);
        assert s == [] == Reversed(s);
      }
      chain := Full(head, Reversed(s), tail);
    }

    // Its last two swaps, at the header elements.
    method SwapEnds(ghost s: seq<Elem>)
      requires NoDup(chain) && chain == Full(head, s, tail) && s != []
      requires forall m :: 0 < m <= |s| ==> Backward(chain, m)
      requires head.next == chain[1] && head.prev == null && tail.prev == chain[|s|] && tail.next == null
      modifies Nodes()
      ensures var c1 := Full(head, Reversed(s), tail);
              Joined(c1) && NoDup(c1) && Nodes() == (set x: object | x in c1) && head.prev == null && tail.next == null
    {
      hide NoDup, Joined, Full;
      ghost var c, n := chain, |chain|;
      EndsApart(c);
      OthersApart(c, 1);
      OthersApart(c, n - 2);
      assert Backward(c, 1) && Backward(c, n - 2);
      head.next, tail.prev := tail.prev, head.next;
      var x, y := head.next, tail.prev;
      x.prev, y.next := y.next, x.prev;
      forall m | 0 < m < n - 1
        ensures Turned(c, m)
      {
        assert old(Backward(c, m));
      }
      ReversedTurning(head, s, tail);
      TurningNoDup(c, Full(head, Reversed(s), tail));
      TurningNodes(c, Full(head, Reversed(s), tail));
      TurningJoined(c, Full(head, Reversed(s), tail));
    }
  }
}
