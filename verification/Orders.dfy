/** Sequences under a strict weak order: sorted, stable, runs, and what the
    steps of a natural merge sort do to them. */
module Orders {
  import opened Sequences

  type Less<!T> = (T, T) -> bool

  // LESS is a strict weak order of the elements of S.
  ghost predicate StrictWeak<T>(less: Less<T>, s: set<T>) {
    && (forall x, y :: x in s && y in s && less(x, y) ==> !less(y, x))
    && (forall x, y, z :: x in s && y in s && z in s && less(x, z) ==> less(x, y) || less(y, z))
  }

  ghost predicate Sorted<T>(less: Less<T>, s: seq<T>) {
    forall i, j :: 0 <= i < j < |s| ==> !less(s[j], s[i])
  }

  ghost predicate Precedes<T>(s: seq<T>, x: T, y: T) {
    exists i, j :: 0 <= i < j < |s| && s[i] == x && s[j] == y
  }

  /** T is S with elements moved forward only past elements they are less than. */
  ghost predicate Stable<T>(less: Less<T>, s: seq<T>, t: seq<T>) {
    && multiset(s) == multiset(t)
    && forall i, j :: 0 <= i < j < |t| ==> Precedes(s, t[i], t[j]) || less(t[i], t[j])
  }

  ghost function Members<T>(s: seq<T>): set<T> {
    set x | x in s
  }

  lemma StableSelf<T>(less: Less<T>, s: seq<T>)
    ensures Stable(less, s, s)
  {}

  lemma StableTrans<T>(less: Less<T>, s: seq<T>, t: seq<T>, u: seq<T>)
    requires Stable(less, s, t) && Stable(less, t, u)
    ensures Stable(less, s, u)
  {
    forall i, j | 0 <= i < j < |u|
      ensures Precedes(s, u[i], u[j]) || less(u[i], u[j])
    {
      if !less(u[i], u[j]) {
        var k, l :| 0 <= k < l < |t| && t[k] == u[i] && t[l] == u[j];
      }
    }
  }

  lemma SameMembers<T>(s: seq<T>, t: seq<T>)
    requires multiset(s) == multiset(t)
    ensures |s| == |t| && Members(s) == Members(t)
  {
    assert |multiset(s)| == |multiset(t)|;
    forall x
      ensures x in s <==> x in t
    {
      assert x in s <==> x in multiset(s);
      assert x in t <==> x in multiset(t);
    }
  }

  // ----- moving one element forward -----

  // Element Q moved to just before element P.
  function Moved<T>(s: seq<T>, q: nat, p: nat): seq<T>
    requires p <= q < |s|
  {
    s[..p] + [s[q]] + s[p..q] + s[q + 1..]
  }

  lemma MovedPerm<T>(s: seq<T>, q: nat, p: nat)
    requires p <= q < |s|
    ensures multiset(Moved(s, q, p)) == multiset(s) && |Moved(s, q, p)| == |s|
  {
    assert s == s[..p] + s[p..q] + [s[q]] + s[q + 1..];
  }

  lemma MovedPlaces<T>(s: seq<T>, q: nat, p: nat)
    requires p <= q < |s|
    ensures |Moved(s, q, p)| == |s| && Moved(s, q, p)[p] == s[q]
    ensures forall i :: 0 <= i < p || q < i < |s| ==> Moved(s, q, p)[i] == s[i]
  {}

  lemma MovedStable<T>(less: Less<T>, s: seq<T>, q: nat, p: nat)
    requires p <= q < |s| && forall i :: p <= i < q ==> less(s[q], s[i])
    ensures Stable(less, s, Moved(s, q, p))
  {
    MovedPerm(s, q, p);
    var t := Moved(s, q, p);
    forall i, j | 0 <= i < j < |t|
      ensures Precedes(s, t[i], t[j]) || less(t[i], t[j])
    {
      var i', j' := if i < p || i > q then i else if i == p then q else i - 1, if j < p || j > q then j else if j == p then q else j - 1;
      assert s[i'] == t[i] && s[j'] == t[j];
    }
  }

  // ----- merging -----

  /** Halfway through a merge of C0[lo..] and what follows it up to HI: C[lo..p] is
      placed, C[p..q] is left of the first run, C[q..hi] of the second. */
  ghost predicate Merging<T>(less: Less<T>, c0: seq<T>, c: seq<T>, lo: nat, p: nat, q: nat, hi: nat) {
    && lo <= p <= q <= hi <= |c| == |c0|
    && Stable(less, c0, c) && c[..lo] == c0[..lo] && c[hi..] == c0[hi..]
    && Sorted(less, c[lo..q]) && Sorted(less, c[q..hi])
    && forall i, j :: lo <= i < p && q <= j < hi ==> !less(c[j], c[i])
  }

  lemma MergingFacts<T>(less: Less<T>, c0: seq<T>, c: seq<T>, lo: nat, p: nat, q: nat, hi: nat)
    requires Merging(less, c0, c, lo, p, q, hi)
    ensures lo <= p <= q <= hi <= |c| == |c0| && Members(c) == Members(c0)
  {
    SameMembers(c0, c);
  }

  lemma MergeStart<T>(less: Less<T>, c: seq<T>, lo: nat, q: nat, hi: nat)
    requires lo <= q <= hi <= |c| && Sorted(less, c[lo..q]) && Sorted(less, c[q..hi])
    ensures Merging(less, c, c, lo, lo, q, hi)
  {
    StableSelf(less, c);
  }

  lemma MergeStay<T>(less: Less<T>, c0: seq<T>, c: seq<T>, lo: nat, p: nat, q: nat, hi: nat)
    requires Merging(less, c0, c, lo, p, q, hi) && p < q < hi && StrictWeak(less, Members(c))
    requires !less(c[q], c[p])
    ensures Merging(less, c0, c, lo, p + 1, q, hi)
  {
    forall j | q <= j < hi
      ensures !less(c[j], c[p])
    {
      assert c[q..hi][0] == c[q] && c[q..hi][j - q] == c[j];
    }
  }

  lemma MergeMove<T>(less: Less<T>, c0: seq<T>, c: seq<T>, lo: nat, p: nat, q: nat, hi: nat)
    requires Merging(less, c0, c, lo, p, q, hi) && p < q < hi && StrictWeak(less, Members(c))
    requires less(c[q], c[p])
    ensures Merging(less, c0, Moved(c, q, p), lo, p + 1, q + 1, hi)
  {
    hide Stable, Moved;
    var d := Moved(c, q, p);
    MovedPerm(c, q, p);
    MovedPlaces(c, q, p);
    forall i | p <= i < q
      ensures less(c[q], c[i])
    {
      assert c[lo..q][p - lo] == c[p] && c[lo..q][i - lo] == c[i];
    }
    MovedStable(less, c, q, p);
    StableTrans(less, c0, c, d);
    MovedSorted(less, c, lo, p, q, hi);
    assert d[..lo] == c[..lo] && d[hi..] == c[hi..];
    forall i, j | lo <= i < p + 1 && q + 1 <= j < hi
      ensures !less(d[j], d[i])
    {
      assert c[q..hi][0] == c[q] && c[q..hi][j - q] == c[j];
    }
  }

  lemma MovedSorted<T>(less: Less<T>, c: seq<T>, lo: nat, p: nat, q: nat, hi: nat)
    requires lo <= p <= q < hi <= |c| && StrictWeak(less, Members(c))
    requires Sorted(less, c[lo..q]) && Sorted(less, c[q..hi])
    requires forall i, j :: lo <= i < p && q <= j < hi ==> !less(c[j], c[i])
    requires forall i :: p <= i < q ==> less(c[q], c[i])
    ensures Sorted(less, Moved(c, q, p)[lo..q + 1]) && Sorted(less, Moved(c, q, p)[q + 1..hi])
  {
    var d := Moved(c, q, p);
    assert d[q + 1..hi] == c[q..hi][1..];
    forall i, j | lo <= i < j < q + 1
      ensures !less(d[j], d[i])
    {
      var i', j' := if i < p then i else if i == p then q else i - 1, if j < p then j else if j == p then q else j - 1;
      assert c[i'] == d[i] && c[j'] == d[j];
      assert i' < q ==> c[lo..q][i' - lo] == c[i'];
      assert j' < q ==> c[lo..q][j' - lo] == c[j'];
    }
  }

  /** C0 with what is between LO and HI sorted, stably. */
  ghost predicate Merged<T>(less: Less<T>, c0: seq<T>, c: seq<T>, lo: nat, hi: nat) {
    && lo <= hi <= |c| == |c0|
    && Stable(less, c0, c) && c[..lo] == c0[..lo] && c[hi..] == c0[hi..] && Sorted(less, c[lo..hi])
  }

  lemma MergeEnd<T>(less: Less<T>, c0: seq<T>, c: seq<T>, lo: nat, p: nat, q: nat, hi: nat)
    requires Merging(less, c0, c, lo, p, q, hi) && (p == q || q == hi)
    ensures Merged(less, c0, c, lo, hi)
  {
    forall i, j | lo <= i < j < hi
      ensures !less(c[j], c[i])
    {
      assert j < q ==> c[lo..q][i - lo] == c[i] && c[lo..q][j - lo] == c[j];
      assert q <= i ==> c[q..hi][i - q] == c[i] && c[q..hi][j - q] == c[j];
    }
  }

  // ----- runs -----

  // The number of maximal nondecreasing runs.
  function RunCount<T>(less: Less<T>, s: seq<T>): nat {
    if |s| <= 1 then |s| else (if less(s[1], s[0]) then 1 else 0) + RunCount(less, s[1..])
  }

  // Neighbours are in order.
  ghost predicate Steps<T>(less: Less<T>, s: seq<T>) {
    forall i :: 0 < i < |s| ==> !less(s[i], s[i - 1])
  }

  lemma {:induction false} StepsSorted<T>(less: Less<T>, s: seq<T>)
    requires Steps(less, s) && StrictWeak(less, Members(s))
    ensures Sorted(less, s)
    decreases |s|
  {
    if |s| > 1 {
      var t, y := s[..|s| - 1], s[|s| - 1];
      assert Members(t) <= Members(s);
      StepsSorted(less, t);
      forall i | 0 <= i < |t|
        ensures !less(y, t[i])
      {
        assert t[i] in s && t[|t| - 1] in s && y in s;
        assert !less(y, t[|t| - 1]) && (i < |t| - 1 ==> !less(t[|t| - 1], t[i]));
      }
    }
  }

  // Both runs found by a pass are sorted.
  lemma RunSorted<T>(less: Less<T>, c: seq<T>, i: nat, k: nat)
    requires i <= k <= |c| && Steps(less, c[i..k]) && StrictWeak(less, Members(c))
    ensures Sorted(less, c[i..k])
  {
    assert Members(c[i..k]) <= Members(c);
    StepsSorted(less, c[i..k]);
  }

  // A first run of E elements that ends where the order does.
  lemma {:induction false} FirstRunCount<T>(less: Less<T>, s: seq<T>, e: nat)
    requires 0 < e <= |s| && Steps(less, s[..e]) && (e < |s| ==> less(s[e], s[e - 1]))
    ensures RunCount(less, s) == 1 + RunCount(less, s[e..])
    decreases e
  {
    if e > 1 {
      assert s[1..][..e - 1] == s[..e][1..];
      assert !less(s[..e][1], s[..e][0]);
      FirstRunCount(less, s[1..], e - 1);
      assert s[1..][e - 1..] == s[e..];
    }
  }

  lemma {:induction false} RunsJoin<T>(less: Less<T>, a: seq<T>, b: seq<T>)
    ensures RunCount(less, a + b) <= RunCount(less, a) + RunCount(less, b)
    decreases |a|
  {
    if a == [] {
      assert a + b == b;
    } else {
      assert (a + b)[1..] == a[1..] + b;
      RunsJoin(less, a[1..], b);
    }
  }

  lemma SortedOneRun<T>(less: Less<T>, s: seq<T>)
    requires Sorted(less, s) && s != []
    ensures RunCount(less, s) == 1
  {
    assert s[..|s|] == s && s[|s|..] == [];
    FirstRunCount(less, s, |s|);
  }

  lemma {:induction false} OneRunSteps<T>(less: Less<T>, s: seq<T>)
    requires RunCount(less, s) <= 1
    ensures Steps(less, s)
    decreases |s|
  {
    if |s| > 1 {
      RunsPositive(less, s[1..]);
      OneRunSteps(less, s[1..]);
      assert forall i :: 0 < i < |s| ==> s[i] == s[1..][i - 1];
    }
  }

  lemma {:induction false} RunsPositive<T>(less: Less<T>, s: seq<T>)
    ensures RunCount(less, s) == 0 <==> s == []
    decreases |s|
  {
    if |s| > 1 {
      RunsPositive(less, s[1..]);
    }
  }

  // ----- passes -----

  // How many passes a merge sort needs for R runs.
  function Passes(r: nat): nat {
    if r <= 2 then 1 else 1 + Passes((r + 1) / 2)
  }

  function Pow2(k: nat): nat {
    if k == 0 then 1 else 2 * Pow2(k - 1)
  }

  lemma {:induction false} PassesGrow(r: nat, r': nat)
    requires r <= r'
    ensures Passes(r) <= Passes(r')
    decreases r'
  {
    if r' > 2 {
      PassesGrow(if r <= 2 then 1 else (r + 1) / 2, (r' + 1) / 2);
    }
  }

  /** Passes is the logarithm of the number of runs to base two, rounded up, and at least one. */
  lemma {:induction false} PassesLog(r: nat, k: nat)
    requires k >= 1
    ensures Passes(r) <= k <==> r <= Pow2(k)
    decreases k
  {
    if k == 1 {
      assert Pow2(1) == 2 * Pow2(0) == 2;
      if r > 2 {
        PassesGrow(1, (r + 1) / 2);
      }
    } else if r > 2 {
      PassesLog((r + 1) / 2, k - 1);
    } else {
      PassesLog(r, k - 1);
    }
  }

  /** Halfway through a pass over C0: C[..a] holds the OUT runs written so far, and
      the runs from A on are still those of C0. */
  ghost predicate Passing<T>(less: Less<T>, c0: seq<T>, c: seq<T>, a: nat, out: nat) {
    && a <= |c| && Stable(less, c0, c)
    && RunCount(less, c[..a]) <= out
    && out + (RunCount(less, c[a..]) + 1) / 2 == (RunCount(less, c0) + 1) / 2
  }

  lemma PassingFacts<T>(less: Less<T>, c0: seq<T>, c: seq<T>, a: nat, out: nat)
    requires Passing(less, c0, c, a, out)
    ensures a <= |c| == |c0| && Members(c) == Members(c0)
  {
    SameMembers(c0, c);
  }

  lemma PassStart<T>(less: Less<T>, c: seq<T>)
    ensures Passing(less, c, c, 0, 0)
  {
    StableSelf(less, c);
    assert c[0..] == c;
  }

  // Two runs merged into one.
  lemma PassStep<T>(less: Less<T>, c0: seq<T>, c: seq<T>, a: nat, out: nat, m: nat, b: nat, d: seq<T>)
    requires Passing(less, c0, c, a, out) && a < m < b <= |c| == |d|
    requires Steps(less, c[a..m]) && less(c[m], c[m - 1])
    requires Steps(less, c[m..b]) && (b < |c| ==> less(c[b], c[b - 1]))
    requires Merged(less, c, d, a, b)
    ensures Passing(less, c0, d, b, out + 1)
  {
    hide Stable, RunCount;
    StableTrans(less, c0, c, d);
    SortedOneRun(less, d[a..b]);
    RunsJoin(less, c[..a], d[a..b]);
    assert d[..b] == c[..a] + d[a..b];
    assert c[a..][..m - a] == c[a..m] && c[a..][m - a..] == c[m..];
    FirstRunCount(less, c[a..], m - a);
    assert c[m..][..b - m] == c[m..b] && c[m..][b - m..] == c[b..];
    FirstRunCount(less, c[m..], b - m);
    assert d[b..] == c[b..];
  }

  // A last run on its own.
  lemma PassLast<T>(less: Less<T>, c0: seq<T>, c: seq<T>, a: nat, out: nat)
    requires Passing(less, c0, c, a, out) && a < |c| && Steps(less, c[a..])
    ensures Passing(less, c0, c, |c|, out + 1)
  {
    hide Stable, RunCount;
    assert c[a..][..|c| - a] == c[a..] && c[a..][|c| - a..] == [] == c[|c|..];
    FirstRunCount(less, c[a..], |c| - a);
    RunsPositive(less, c[|c|..]);
    RunsJoin(less, c[..a], c[a..]);
    assert c[..a] + c[a..] == c == c[..|c|];
  }

  // The order given by a whole pass.
  lemma PassEnd<T>(less: Less<T>, c0: seq<T>, c: seq<T>, out: nat)
    requires Passing(less, c0, c, |c|, out) && StrictWeak(less, Members(c0))
    ensures Stable(less, c0, c) && RunCount(less, c) <= out == (RunCount(less, c0) + 1) / 2
    ensures out <= 1 ==> Sorted(less, c)
  {
    assert c[..|c|] == c && c[|c|..] == [];
    SameMembers(c0, c);
    if out <= 1 {
      OneRunSteps(less, c);
      StepsSorted(less, c);
    }
  }

  // ----- the only sorted and stable arrangement -----

  // An element of A from place K on is in B from place K on, too.
  lemma Later<T>(a: seq<T>, b: seq<T>, k: nat) returns (j: nat)
    requires multiset(a) == multiset(b) && NoDup(a) && k < |a| && k <= |b| && a[..k] == b[..k]
    ensures k <= j < |b| && b[j] == a[k]
  {
    assert a[k] in multiset(b);
    j :| 0 <= j < |b| && b[j] == a[k];
    assert forall i :: 0 <= i < k ==> a[..k][i] == b[..k][i];
  }

  lemma PrecedesOnce<T>(c: seq<T>, x: T, y: T)
    requires NoDup(c) && Precedes(c, x, y)
    ensures !Precedes(c, y, x)
  {}

  // Neither of two elements can come first in one arrangement and last in the other.
  lemma SameNext<T>(less: Less<T>, c: seq<T>, a: seq<T>, b: seq<T>, k: nat, i: nat, j: nat)
    requires NoDup(c) && Stable(less, c, a) && Stable(less, c, b) && Sorted(less, a) && Sorted(less, b)
    requires k <= i < |a| && k <= j < |b| && b[j] == a[k] && a[i] == b[k]
    ensures a[k] == b[k]
  {
    if Precedes(c, a[k], b[k]) {
      PrecedesOnce(c, a[k], b[k]);
    }
  }

  lemma {:induction false} AgreeUpTo<T>(less: Less<T>, c: seq<T>, a: seq<T>, b: seq<T>, k: nat)
    requires NoDup(c) && Stable(less, c, a) && Stable(less, c, b) && Sorted(less, a) && Sorted(less, b)
    requires k <= |a| == |b|
    ensures a[..k] == b[..k]
    decreases k
  {
    if k > 0 {
      AgreeUpTo(less, c, a, b, k - 1);
      NoDupPerm(c, a);
      NoDupPerm(c, b);
      var j := Later(a, b, k - 1);
      var i := Later(b, a, k - 1);
      SameNext(less, c, a, b, k - 1, i, j);
    }
  }

  /** Sorted and stable leaves no choice. */
  lemma SortedStableUnique<T>(less: Less<T>, c: seq<T>, a: seq<T>, b: seq<T>)
    requires NoDup(c) && Stable(less, c, a) && Stable(less, c, b) && Sorted(less, a) && Sorted(less, b)
    ensures a == b
  {
    SameMembers(c, a);
    SameMembers(c, b);
    AgreeUpTo(less, c, a, b, |a|);
    assert a[..|a|] == a && b[..|b|] == b;
  }

  // ----- insertion -----

  // Where an ordered insertion puts X: before the first element it is less than.
  function Place<T>(less: Less<T>, s: seq<T>, x: T): (i: nat)
    ensures i <= |s| && (forall j :: 0 <= j < i ==> !less(x, s[j])) && (i < |s| ==> less(x, s[i]))
  {
    if s == [] || less(x, s[0]) then 0 else 1 + Place(less, s[1..], x)
  }

  function Inserted<T>(less: Less<T>, s: seq<T>, x: T): seq<T> {
    s[..Place(less, s, x)] + [x] + s[Place(less, s, x)..]
  }

  lemma InsertedAt<T>(less: Less<T>, s: seq<T>, x: T, k: nat)
    requires k <= Place(less, s, x) && (k < |s| ==> less(x, s[k]))
    ensures k <= |s| && Inserted(less, s, x) == s[..k] + [x] + s[k..]
  {
    assert k == Place(less, s, x);
  }

  // The same as appending X and moving it forward.
  lemma InsertedMoved<T>(less: Less<T>, s: seq<T>, x: T)
    ensures Inserted(less, s, x) == Moved(s + [x], |s|, Place(less, s, x))
  {
    hide Place;
    AppendedMoved(s, x, Place(less, s, x));
  }

  lemma AppendedMoved<T>(s: seq<T>, x: T, p: nat)
    requires p <= |s|
    ensures Moved(s + [x], |s|, p) == s[..p] + [x] + s[p..]
  {
    assert (s + [x])[..p] == s[..p] && (s + [x])[p..|s|] == s[p..] && (s + [x])[|s| + 1..] == [];
  }

  lemma PlaceAfter<T>(less: Less<T>, s: seq<T>, x: T)
    requires Sorted(less, s) && StrictWeak(less, Members(s) + {x})
    ensures forall j :: Place(less, s, x) <= j < |s| ==> less(x, s[j])
  {
    var p := Place(less, s, x);
    forall j | p <= j < |s|
      ensures less(x, s[j])
    {
      assert s[j] in s && s[p] in s;
    }
  }

  lemma SingleSorted<T>(less: Less<T>, x: T)
    ensures Sorted(less, [x])
  {}

  lemma InsertedSorted<T>(less: Less<T>, s: seq<T>, x: T)
    requires Sorted(less, s) && StrictWeak(less, Members(s) + {x})
    ensures Sorted(less, Inserted(less, s, x))
    ensures forall j :: Place(less, s, x) <= j < |s| ==> less(x, s[j])
  {
    hide Sorted, Inserted, Moved, StrictWeak;
    var p, c := Place(less, s, x), s + [x];
    PlaceAfter(less, s, x);
    InsertedMoved(less, s, x);
    MovedPerm(c, |s|, p);
    assert Members(c) == Members(s) + {x} && c[0..|s|] == s;
    assert c[|s|..|c|] == [x];
    SingleSorted(less, x);
    MovedSorted(less, c, 0, p, |s|, |c|);
    assert Moved(c, |s|, p)[0..|s| + 1] == Moved(c, |s|, p);
  }

  // One ordered insertion after the other.
  function InsertionSort<T>(less: Less<T>, s: seq<T>): seq<T> {
    if s == [] then [] else Inserted(less, InsertionSort(less, s[..|s| - 1]), s[|s| - 1])
  }

  lemma InsertedStable<T>(less: Less<T>, s: seq<T>, t: seq<T>, x: T)
    requires Stable(less, s, t) && forall j :: Place(less, t, x) <= j < |t| ==> less(x, t[j])
    ensures Stable(less, s + [x], Inserted(less, t, x))
  {
    hide Stable;
    StableSnoc(less, s, t, x);
    InsertedMoved(less, t, x);
    MovedStable(less, t + [x], |t|, Place(less, t, x));
    StableTrans(less, s + [x], t + [x], Inserted(less, t, x));
  }

  lemma StableSnoc<T>(less: Less<T>, s: seq<T>, t: seq<T>, x: T)
    requires Stable(less, s, t)
    ensures Stable(less, s + [x], t + [x])
  {
    var u := t + [x];
    forall i, j | 0 <= i < j < |u|
      ensures Precedes(s + [x], u[i], u[j]) || less(u[i], u[j])
    {
      if j == |t| {
        assert t[i] in multiset(s);
        var k :| 0 <= k < |s| && s[k] == t[i];
        assert (s + [x])[k] == u[i] && (s + [x])[|s|] == u[j];
      } else if !less(t[i], t[j]) {
        var k, l :| 0 <= k < l < |s| && s[k] == t[i] && s[l] == t[j];
        assert (s + [x])[k] == u[i] && (s + [x])[l] == u[j];
      }
    }
  }

  lemma {:induction false} InsertionSortRight<T>(less: Less<T>, s: seq<T>)
    requires StrictWeak(less, Members(s))
    ensures Sorted(less, InsertionSort(less, s)) && Stable(less, s, InsertionSort(less, s))
    decreases |s|
  {
    hide Stable, Sorted, Inserted;
    if s == [] {
      EmptySorted(less);
    } else {
      var a, x := s[..|s| - 1], s[|s| - 1];
      assert s == a + [x] && Members(a) <= Members(s);
      InsertionSortRight(less, a);
      SameMembersStable(less, a, InsertionSort(less, a));
      assert Members(InsertionSort(less, a)) + {x} <= Members(s);
      InsertedSorted(less, InsertionSort(less, a), x);
      InsertedStable(less, a, InsertionSort(less, a), x);
    }
  }

  lemma EmptySorted<T>(less: Less<T>)
    ensures Sorted(less, []) && Stable(less, [], [])
  {}

  lemma SameMembersStable<T>(less: Less<T>, s: seq<T>, t: seq<T>)
    requires Stable(less, s, t)
    ensures |s| == |t| && Members(s) == Members(t)
  {
    SameMembers(s, t);
  }

  // ----- dropping repeats -----

  predicate Same<T>(less: Less<T>, x: T, y: T) {
    !less(x, y) && !less(y, x)
  }

  // The first of each set of neighbours that are the same, and the others.
  function Kept<T>(less: Less<T>, s: seq<T>): seq<T>
    decreases |s|
  {
    if |s| <= 1 then s
    else if Same(less, s[0], s[1]) then Kept(less, [s[0]] + s[2..])
    else [s[0]] + Kept(less, s[1..])
  }

  function Dropped<T>(less: Less<T>, s: seq<T>): seq<T>
    decreases |s|
  {
    if |s| <= 1 then []
    else if Same(less, s[0], s[1]) then [s[1]] + Dropped(less, [s[0]] + s[2..])
    else Dropped(less, s[1..])
  }

  /** Halfway through the walk over S: K is settled and DR dropped, X is the
      element reached and R what comes after it. */
  ghost predicate Walking<T>(less: Less<T>, s: seq<T>, k: seq<T>, x: T, r: seq<T>, dr: seq<T>) {
    Kept(less, s) == k + Kept(less, [x] + r) && Dropped(less, s) == dr + Dropped(less, [x] + r)
  }

  lemma WalkStart<T>(less: Less<T>, s: seq<T>)
    requires s != []
    ensures Walking(less, s, [], s[0], s[1..], [])
  {
    assert [s[0]] + s[1..] == s;
  }

  lemma WalkStep<T>(less: Less<T>, s: seq<T>, k: seq<T>, x: T, r: seq<T>, dr: seq<T>)
    requires Walking(less, s, k, x, r, dr) && r != []
    ensures if Same(less, x, r[0]) then Walking(less, s, k, x, r[1..], dr + [r[0]])
            else Walking(less, s, k + [x], r[0], r[1..], dr)
  {
    var c, t := [x] + r, [x] + r[1..];
    assert c[1] == r[0] && c[2..] == r[1..] && c[1..] == r == [r[0]] + r[1..];
    if Same(less, x, r[0]) {
      assert dr + Dropped(less, c) == (dr + [r[0]]) + Dropped(less, t);
    } else {
      assert k + Kept(less, c) == (k + [x]) + Kept(less, r);
    }
  }

  lemma WalkEnd<T>(less: Less<T>, s: seq<T>, k: seq<T>, x: T, dr: seq<T>)
    requires Walking(less, s, k, x, [], dr)
    ensures Kept(less, s) == k + [x] && Dropped(less, s) == dr
  {
    assert [x] + [] == [x];
  }

  lemma KeptNothing<T>(less: Less<T>)
    ensures Kept(less, []) == [] && Dropped(less, []) == []
  {}

  ghost predicate Strict<T>(less: Less<T>, s: seq<T>) {
    forall i, j :: 0 <= i < j < |s| ==> less(s[i], s[j])
  }

  /** No element is lost. */
  lemma {:induction false} KeptPerm<T>(less: Less<T>, s: seq<T>)
    ensures multiset(Kept(less, s)) + multiset(Dropped(less, s)) == multiset(s)
    decreases |s|
  {
    if |s| > 1 {
      var x, y, t := s[0], s[1], [s[0]] + s[2..];
      if Same(less, x, y) {
        assert s == [x] + [y] + s[2..];
        assert multiset(s) == multiset(t) + multiset{y};
        KeptPerm(less, t);
        assert multiset(Dropped(less, s)) == multiset{y} + multiset(Dropped(less, t));
      } else {
        assert s == [x] + s[1..];
        KeptPerm(less, s[1..]);
        assert multiset(Kept(less, s)) == multiset{x} + multiset(Kept(less, s[1..]));
      }
    }
  }

  lemma {:induction false} KeptFirst<T>(less: Less<T>, s: seq<T>)
    ensures s != [] ==> Kept(less, s) != [] && Kept(less, s)[0] == s[0]
    ensures forall x :: x in Kept(less, s) ==> x in s
    decreases |s|
  {
    if |s| > 1 {
      assert s == [s[0]] + [s[1]] + s[2..] && s == [s[0]] + s[1..];
      KeptFirst(less, if Same(less, s[0], s[1]) then [s[0]] + s[2..] else s[1..]);
    }
  }

  /** Of a sorted sequence a strictly increasing one is kept. */
  lemma {:induction false} KeptStrict<T>(less: Less<T>, s: seq<T>)
    requires Sorted(less, s) && StrictWeak(less, Members(s))
    ensures Strict(less, Kept(less, s))
    decreases |s|
  {
    if |s| > 1 {
      assert s == [s[0]] + [s[1]] + s[2..] && s == [s[0]] + s[1..];
      if Same(less, s[0], s[1]) {
        assert Members([s[0]] + s[2..]) <= Members(s);
        KeptStrict(less, [s[0]] + s[2..]);
      } else {
        assert Members(s[1..]) <= Members(s);
        KeptStrict(less, s[1..]);
        KeptFirst(less, s[1..]);
        forall x | x in s[1..]
          ensures less(s[0], x)
        {
          assert less(s[0], s[1]) && s[0] in s && s[1] in s && x in s;
          assert !less(x, s[1]);
        }
      }
    }
  }

  /** And every element dropped is the same as one that is kept. */
  lemma {:induction false} DroppedSame<T>(less: Less<T>, s: seq<T>, y: T)
    requires y in Dropped(less, s)
    ensures exists x :: x in Kept(less, s) && Same(less, x, y)
    decreases |s|
  {
    if |s| > 1 {
      if Same(less, s[0], s[1]) {
        KeptFirst(less, [s[0]] + s[2..]);
        if y != s[1] {
          DroppedSame(less, [s[0]] + s[2..], y);
        } else {
          assert Kept(less, s)[0] == s[0];
        }
      } else {
        DroppedSame(less, s[1..], y);
        var x :| x in Kept(less, s[1..]) && Same(less, x, y);
        assert x in Kept(less, s);
      }
    }
  }
}
