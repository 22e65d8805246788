/** What it means for a growth step to be right, and why growing siblings one
    after the other, or a block's children and then the block, is right again.

    A step goes from disk and free map (D0, B0) to (D1, B1).  T0/T1 list the
    sectors of the part that grew, before and after; I0 its index blocks before,
    L1 its data sectors after.  OTHER holds the sectors the step may rewrite
    besides: those the allocator uses to persist the free map. */
module Growth {
  import opened Sequences
  import opened Sectors
  import opened FirstFit
  import opened Layout

  ghost function Elems(s: seq<nat>): set<nat> {
    set x | x in s
  }

  // Sectors marked in B0 and not in W keep their contents.
  ghost predicate Frame(D0: Disk, D1: Disk, B0: seq<bool>, W: set<nat>) {
    && |D1| == |D0|
    && forall s :: 0 <= s < |D0| && s !in W && (s < |B0| ==> B0[s]) ==> D1[s] == D0[s]
  }

  /** The growth contract: the sectors after are the sectors before followed by
      the first K free ones, exactly those are newly marked, data sectors among
      them are zero, and no other sector in use is touched. */
  ghost predicate Grow(D0: Disk, B0: seq<bool>, T0: seq<nat>, I0: seq<nat>,
                       D1: Disk, B1: seq<bool>, T1: seq<nat>, L1: seq<nat>, k: nat, other: set<nat>) {
    && T1 == T0 + TakeFree(B0, k)
    && B1 == After(B0, k)
    && Frame(D0, D1, B0, other + Elems(I0))
    && forall s :: s in L1 && s < |B0| && !B0[s] && s < |D1| ==> D1[s] == Zeros()
  }

  // What the part that is about to grow must look like.
  ghost predicate Owned(B: seq<bool>, T: seq<nat>, other: set<nat>) {
    NoDup(T) && AllAre(B, T, true) && forall x :: x in T ==> x !in other
  }

  lemma FrameTrans(D0: Disk, D1: Disk, D2: Disk, B0: seq<bool>, k: nat, W1: set<nat>, W2: set<nat>, W: set<nat>)
    requires Frame(D0, D1, B0, W1) && Frame(D1, D2, After(B0, k), W2)
    requires forall s :: s in W1 || s in W2 ==> s in W || (s < |B0| && !B0[s])
    ensures Frame(D0, D2, B0, W)
  {
    TakeFacts(B0, k);
  }

  lemma IndexInTree(disk: Disk, e: nat, n: nat, level: nat)
    ensures forall x :: x in Index(disk, e, n, level) ==> x in Tree(disk, e, n, level)
    ensures forall x :: x in Data(disk, e, n, level) ==> x in Tree(disk, e, n, level)
  {
    hide Tree, Data, Index;
    TreeParts(disk, e, n, level);
    forall x | x in Index(disk, e, n, level) || x in Data(disk, e, n, level)
      ensures x in multiset(Tree(disk, e, n, level))
    {}
  }

  lemma IndexInKids(disk: Disk, p: seq<Word>, n: nat, level: nat)
    requires level > 0
    ensures forall x :: x in IndexKids(disk, p, n, level) ==> x in Kids(disk, p, n, level)
    ensures forall x :: x in DataKids(disk, p, n, level) ==> x in Kids(disk, p, n, level)
  {
    hide Kids, DataKids, IndexKids;
    KidsParts(disk, p, n, level);
    forall x | x in IndexKids(disk, p, n, level) || x in DataKids(disk, p, n, level)
      ensures x in multiset(Kids(disk, p, n, level))
    {}
  }

  // One more sibling at the end.
  lemma KidsSnoc(disk: Disk, a: seq<Word>, c: Word, na: nat, nc: nat, level: nat)
    requires 0 < level <= 2 && na <= Cap(|a|, level) && nc <= Unit(level)
    requires nc > 0 ==> na == Cap(|a|, level)
    ensures Kids(disk, a + [c], na + nc, level) == Kids(disk, a, na, level) + Tree(disk, c, nc, level - 1)
    ensures DataKids(disk, a + [c], na + nc, level) == DataKids(disk, a, na, level) + Data(disk, c, nc, level - 1)
    ensures IndexKids(disk, a + [c], na + nc, level) == IndexKids(disk, a, na, level) + Index(disk, c, nc, level - 1)
    ensures WfKids(disk, a + [c], na + nc, level) <==> WfKids(disk, a, na, level) && WfTree(disk, c, nc, level - 1)
  {
    hide Tree, Data, Index, WfTree;
    KidsSplit(disk, a, [c], na + nc, level);
    DataSplit(disk, a, [c], na + nc, level);
    IndexSplit(disk, a, [c], na + nc, level);
    WfSplit(disk, a, [c], na + nc, level);
    assert [c][1..] == [];
  }

  // A part whose sectors are in use is untouched by growing another part.
  lemma Undisturbed(D0: Disk, B0: seq<bool>, T0: seq<nat>, I0: seq<nat>, D1: Disk, B1: seq<bool>, T1: seq<nat>,
                    L1: seq<nat>, k: nat, other: set<nat>, S: seq<nat>, I: seq<nat>)
    requires Grow(D0, B0, T0, I0, D1, B1, T1, L1, k, other)
    requires Owned(B0, S, other) && (forall x :: x in I ==> x in S)
    requires forall x :: x in S ==> x !in I0
    ensures SameOn(D0, D1, I) && Owned(B1, S, other)
  {
    TakeFacts(B0, k);
  }

  // The next sibling still looks as it did when its turn comes.
  lemma NextKid(D0: Disk, B0: seq<bool>, a0: seq<Word>, na0: nat, D1: Disk, B1: seq<bool>, a1: seq<Word>, na1: nat,
                c: Word, nc: nat, level: nat, k: nat, other: set<nat>)
    requires 0 < level <= 2
    requires Owned(B0, Kids(D0, a0, na0, level) + Tree(D0, c, nc, level - 1), other)
    requires Grow(D0, B0, Kids(D0, a0, na0, level), IndexKids(D0, a0, na0, level),
                  D1, B1, Kids(D1, a1, na1, level), DataKids(D1, a1, na1, level), k, other)
    ensures Tree(D1, c, nc, level - 1) == Tree(D0, c, nc, level - 1)
    ensures Index(D1, c, nc, level - 1) == Index(D0, c, nc, level - 1)
    ensures Data(D1, c, nc, level - 1) == Data(D0, c, nc, level - 1)
    ensures WfTree(D1, c, nc, level - 1) == WfTree(D0, c, nc, level - 1)
    ensures Owned(B1, Tree(D1, c, nc, level - 1), other)
  {
    hide Tree, Data, Index, WfTree, Kids, DataKids, IndexKids, Grow;
    var K, T, I := Kids(D0, a0, na0, level), Tree(D0, c, nc, level - 1), Index(D0, c, nc, level - 1);
    IndexInKids(D0, a0, na0, level);
    IndexInTree(D0, c, nc, level - 1);
    OwnedParts(B0, K, T, other);
    Undisturbed(D0, B0, K, IndexKids(D0, a0, na0, level),
                D1, B1, Kids(D1, a1, na1, level), DataKids(D1, a1, na1, level), k, other, T, I);
    TreeFrame(D0, D1, c, nc, level - 1);
  }

  lemma OwnedParts(B: seq<bool>, s: seq<nat>, t: seq<nat>, other: set<nat>)
    requires Owned(B, s + t, other)
    ensures Owned(B, s, other) && Owned(B, t, other)
    ensures forall x :: x in s ==> x !in t
  {
    NoDupParts(s, t);
    assert forall x :: x in s ==> x in s + t;
    assert forall x :: x in t ==> x in s + t;
  }

  lemma AppendTwice(T0: seq<nat>, U: seq<nat>, S0: seq<nat>, V: seq<nat>)
    requires U == [] || S0 == []
    ensures (T0 + U) + (S0 + V) == (T0 + S0) + (U + V)
  {}

  // Two growth steps on neighbouring parts make one; the second part was empty
  // if the first grew at all.
  lemma GrowTwice(D0: Disk, B0: seq<bool>, T0: seq<nat>, I0: seq<nat>, D1: Disk, B1: seq<bool>, T1: seq<nat>, L1: seq<nat>,
                  k: nat, S0: seq<nat>, J0: seq<nat>, D2: Disk, B2: seq<bool>, S1: seq<nat>, M1: seq<nat>, l: nat,
                  other: set<nat>)
    requires Grow(D0, B0, T0, I0, D1, B1, T1, L1, k, other)
    requires Grow(D1, B1, S0, J0, D2, B2, S1, M1, l, other)
    requires k == 0 || S0 == []
    requires Owned(B0, T0 + S0, other)
    requires forall x :: x in other ==> x < |B0| && B0[x]
    requires (forall x :: x in I0 ==> x in T0) && (forall x :: x in J0 ==> x in S0)
    requires (forall x :: x in L1 ==> x in T1) && (forall x :: x in M1 ==> x in S1)
    ensures Grow(D0, B0, T0 + S0, I0 + J0, D2, B2, T1 + S1, L1 + M1, k + l, other)
  {
    OwnedParts(B0, T0, S0, other);
    TakeSplit(B0, k, l);
    AppendTwice(T0, TakeFree(B0, k), S0, TakeFree(B1, l));
    FrameTrans(D0, D1, D2, B0, k, other + Elems(I0), other + Elems(J0), other + Elems(I0 + J0));
    forall s | s in L1 + M1 && s < |B0| && !B0[s] && s < |D2|
      ensures D2[s] == Zeros()
    {
      ZeroEither(D0, B0, T0, I0, D1, B1, T1, L1, k, S0, J0, D2, B2, S1, M1, l, other, s);
    }
  }

  // A sector new in either step is zero after both.
  lemma ZeroEither(D0: Disk, B0: seq<bool>, T0: seq<nat>, I0: seq<nat>, D1: Disk, B1: seq<bool>, T1: seq<nat>, L1: seq<nat>,
                   k: nat, S0: seq<nat>, J0: seq<nat>, D2: Disk, B2: seq<bool>, S1: seq<nat>, M1: seq<nat>, l: nat,
                   other: set<nat>, s: nat)
    requires Grow(D0, B0, T0, I0, D1, B1, T1, L1, k, other)
    requires Grow(D1, B1, S0, J0, D2, B2, S1, M1, l, other)
    requires AllAre(B0, T0, true) && AllAre(B0, S0, true)
    requires forall x :: x in other ==> x < |B0| && B0[x]
    requires forall x :: x in J0 ==> x in S0
    requires (forall x :: x in L1 ==> x in T1) && (forall x :: x in M1 ==> x in S1)
    requires (s in L1 || s in M1) && s < |B0| && !B0[s] && s < |D2|
    ensures D2[s] == Zeros()
  {
    TakeFacts(B0, k);
    TakeFacts(B1, l);
    if s in L1 {
      assert s in T1 && s !in T0;
      assert s in TakeFree(B0, k);
    } else {
      assert s in S1 && s !in S0;
      assert s in TakeFree(B1, l);
    }
  }

  // What has grown is in use afterwards, and apart from what is still to grow.
  lemma OwnedAfter(D0: Disk, B0: seq<bool>, T0: seq<nat>, I0: seq<nat>, D1: Disk, B1: seq<bool>, T1: seq<nat>, L1: seq<nat>,
                   k: nat, S0: seq<nat>, other: set<nat>)
    requires Grow(D0, B0, T0, I0, D1, B1, T1, L1, k, other)
    requires Owned(B0, T0 + S0, other)
    requires forall x :: x in other ==> x < |B0| && B0[x]
    ensures Owned(B1, T1 + S0, other)
  {
    OwnedParts(B0, T0, S0, other);
    TakeFacts(B0, k);
    NoDupJoin(T0, TakeFree(B0, k));
    NoDupJoin(T1, S0);
  }

  // The loop step of inode_reserve_indirect: siblings A have grown from NA0 to
  // NA1 data sectors, now C grows from NC0 to NC1.
  lemma KidStep(D0: Disk, B0: seq<bool>, a0: seq<Word>, na0: nat, c0: Word, nc0: nat,
                D1: Disk, B1: seq<bool>, a1: seq<Word>, na1: nat, D2: Disk, B2: seq<bool>, c1: Word, nc1: nat,
                level: nat, k: nat, l: nat, other: set<nat>)
    requires 0 < level <= 2 && |a0| == |a1|
    requires na0 <= Cap(|a0|, level) && nc0 <= Unit(level) && (nc0 > 0 ==> na0 == Cap(|a0|, level))
    requires na1 == Cap(|a1|, level) && nc1 <= Unit(level) && (k == 0 || nc0 == 0)
    requires forall x :: x in other ==> x < |B0| && B0[x]
    requires Owned(B0, Kids(D0, a0 + [c0], na0 + nc0, level), other)
    requires WfKids(D1, a1, na1, level) && WfTree(D2, c1, nc1, level - 1)
    requires Grow(D0, B0, Kids(D0, a0, na0, level), IndexKids(D0, a0, na0, level),
                  D1, B1, Kids(D1, a1, na1, level), DataKids(D1, a1, na1, level), k, other)
    requires Grow(D1, B1, Tree(D1, c0, nc0, level - 1), Index(D1, c0, nc0, level - 1),
                  D2, B2, Tree(D2, c1, nc1, level - 1), Data(D2, c1, nc1, level - 1), l, other)
    ensures WfKids(D2, a1 + [c1], na1 + nc1, level)
    ensures Grow(D0, B0, Kids(D0, a0 + [c0], na0 + nc0, level), IndexKids(D0, a0 + [c0], na0 + nc0, level),
                 D2, B2, Kids(D2, a1 + [c1], na1 + nc1, level), DataKids(D2, a1 + [c1], na1 + nc1, level), k + l, other)
  {
    hide Data, Index, WfTree, Kids, DataKids, IndexKids, WfKids, Grow, Owned;
    var T0, T1, S := Kids(D0, a0, na0, level), Kids(D1, a1, na1, level), Tree(D0, c0, nc0, level - 1);
    KidsSnoc(D0, a0, c0, na0, nc0, level);
    NextKid(D0, B0, a0, na0, D1, B1, a1, na1, c0, nc0, level, k, other);
    OwnedAfter(D0, B0, T0, IndexKids(D0, a0, na0, level), D1, B1, T1, DataKids(D1, a1, na1, level), k, S, other);
    OwnedParts(B1, T1, S, other);
    IndexInKids(D0, a0, na0, level);
    IndexInKids(D1, a1, na1, level);
    IndexInTree(D1, c0, nc0, level - 1);
    IndexInTree(D2, c1, nc1, level - 1);
    Undisturbed(D1, B1, S, Index(D1, c0, nc0, level - 1), D2, B2, Tree(D2, c1, nc1, level - 1),
                Data(D2, c1, nc1, level - 1), l, other, T1, IndexKids(D1, a1, na1, level));
    KidsFrame(D1, D2, a1, na1, level);
    KidsSnoc(D2, a1, c1, na1, nc1, level);
    GrowTwice(D0, B0, T0, IndexKids(D0, a0, na0, level), D1, B1, T1, DataKids(D1, a1, na1, level), k,
              S, Index(D0, c0, nc0, level - 1), D2, B2, Tree(D2, c1, nc1, level - 1), Data(D2, c1, nc1, level - 1), l, other);
  }

  // Siblings A unchanged in count keep their order; none of them has grown.
  lemma NoKids(disk: Disk, level: nat, len: nat)
    requires 0 < level && len <= PTRS
    ensures WfKids(disk, NoWords()[..len], 0, level) && Kids(disk, NoWords()[..len], 0, level) == []
    ensures IndexKids(disk, NoWords()[..len], 0, level) == [] && DataKids(disk, NoWords()[..len], 0, level) == []
    decreases len
  {
    if len > 0 {
      assert NoWords()[..len][1..] == NoWords()[..len - 1];
      NoKids(disk, level, len - 1);
    }
  }

  // Writing an own index block back to its sector.
  lemma GrowWrite(D0: Disk, B0: seq<bool>, T0: seq<nat>, I0: seq<nat>, D1: Disk, B1: seq<bool>, T1: seq<nat>, L1: seq<nat>,
                  k: nat, other: set<nat>, e: nat, x: Sector)
    requires Grow(D0, B0, T0, I0, D1, B1, T1, L1, k, other)
    requires e < |D1| && e !in L1 && (e in I0 || (e < |B0| && !B0[e]))
    ensures Grow(D0, B0, T0, I0, D1[e := x], B1, T1, L1, k, other)
  {}

  // Siblings without data sectors are all 0, whatever the disk.
  lemma {:induction false} EmptyKids(disk: Disk, disk': Disk, p: seq<Word>, level: nat)
    requires level > 0
    ensures Kids(disk, p, 0, level) == [] && DataKids(disk, p, 0, level) == [] && IndexKids(disk, p, 0, level) == []
    ensures WfKids(disk, p, 0, level) == WfKids(disk', p, 0, level)
    decreases |p|
  {
    if |p| > 0 {
      EmptyKids(disk, disk', p[1..], level);
    }
  }

  lemma CapNext(n: nat, i: nat, level: nat)
    requires 0 < level <= 2
    ensures var na := Min(n, Cap(i, level)); var nc := Min(n - na, Unit(level));
            na + nc == Min(n, Cap(i + 1, level)) && na <= Cap(i, level) && nc <= Unit(level)
            && (nc > 0 ==> na == Cap(i, level))
  {}

  // The first I siblings, the next one, and the rest.
  lemma KidsAt(disk: Disk, p: seq<Word>, n: nat, i: nat, level: nat)
    requires 0 < level <= 2 && i < |p| && WfKids(disk, p, n, level)
    ensures var na := Min(n, Cap(i, level)); var nc := Min(n - na, Unit(level));
            && WfKids(disk, p[..i], na, level) && WfTree(disk, p[i], nc, level - 1)
            && Kids(disk, p, n, level) == Kids(disk, p[..i], na, level) + Tree(disk, p[i], nc, level - 1)
                                          + Kids(disk, p[i + 1..], n - na - nc, level)
            && IndexKids(disk, p, n, level) == IndexKids(disk, p[..i], na, level) + Index(disk, p[i], nc, level - 1)
                                               + IndexKids(disk, p[i + 1..], n - na - nc, level)
  {
    hide Tree, Index, WfTree, Kids, IndexKids, WfKids, DataKids, Data, Cap, Unit;
    var na := Min(n, Cap(i, level));
    var nc := Min(n - na, Unit(level));
    CapNext(n, i, level);
    var b, c := p[..i + 1], p[i + 1..];
    assert p == b + c && b == p[..i] + [p[i]];
    WfSplit(disk, b, c, n, level);
    KidsSplit(disk, b, c, n, level);
    IndexSplit(disk, b, c, n, level);
    KidsSnoc(disk, p[..i], p[i], na, nc, level);
  }

  // ----- the loop over siblings -----

  ghost predicate TreeGrown(D0: Disk, B0: seq<bool>, e0: nat, n0: nat, D1: Disk, B1: seq<bool>, e1: nat, n1: nat,
                            level: nat, other: set<nat>) {
    && WfTree(D1, e1, n1, level) && Size(n0, level) <= Size(n1, level)
    && Grow(D0, B0, Tree(D0, e0, n0, level), Index(D0, e0, n0, level),
            D1, B1, Tree(D1, e1, n1, level), Data(D1, e1, n1, level), Size(n1, level) - Size(n0, level), other)
  }

  ghost predicate KidsGrown(D0: Disk, B0: seq<bool>, p0: seq<Word>, n0: nat, D1: Disk, B1: seq<bool>, p1: seq<Word>, n1: nat,
                            level: nat, other: set<nat>)
    requires level > 0
  {
    && WfKids(D1, p1, n1, level) && SizeKids(n0, level) <= SizeKids(n1, level)
    && Grow(D0, B0, Kids(D0, p0, n0, level), IndexKids(D0, p0, n0, level),
            D1, B1, Kids(D1, p1, n1, level), DataKids(D1, p1, n1, level), SizeKids(n1, level) - SizeKids(n0, level), other)
  }

  // Shares of the first I siblings and of the next one.
  function Before(n: nat, i: nat, level: nat): nat { Min(n, Cap(i, level)) }

  function Share(n: nat, i: nat, level: nat): nat { Min(n - Before(n, i, level), Unit(level)) }

  lemma Shares(n0: nat, num: nat, i: nat, level: nat)
    requires 0 < level <= 2 && n0 <= num && Cap(i, level) < num
    ensures Before(n0, i, level) + Share(n0, i, level) == Before(n0, i + 1, level)
    ensures Before(num, i, level) + Share(num, i, level) == Before(num, i + 1, level)
    ensures Before(n0, i, level) <= Cap(i, level) == Before(num, i, level)
    ensures Share(n0, i, level) <= Share(num, i, level) <= Unit(level) == Span(level - 1) && 0 < Share(num, i, level)
    ensures Share(n0, i, level) == 0 || Before(n0, i, level) == Cap(i, level)
    ensures SizeKids(Before(n0, i, level), level) <= SizeKids(Before(num, i, level), level)
    ensures SizeKids(Before(n0, i + 1, level), level)
         == SizeKids(Before(n0, i, level), level) + Size(Share(n0, i, level), level - 1)
    ensures SizeKids(Before(num, i + 1, level), level)
         == SizeKids(Before(num, i, level), level) + Size(Share(num, i, level), level - 1)
  {}

  // What sibling I looks like when its turn comes.
  lemma LoopReady(D0: Disk, B0: seq<bool>, p0: seq<Word>, n0: nat, num: nat, i: nat, D1: Disk, B1: seq<bool>, p1: seq<Word>,
                  level: nat, other: set<nat>)
    requires 0 < level <= 2 && i < |p0| == |p1| && n0 <= num && Cap(i, level) < num
    requires WfKids(D0, p0, n0, level) && Owned(B0, Kids(D0, p0, n0, level), other)
    requires KidsGrown(D0, B0, p0[..i], Before(n0, i, level), D1, B1, p1[..i], Before(num, i, level), level, other)
    ensures WfTree(D1, p0[i], Share(n0, i, level), level - 1)
    ensures Owned(B1, Tree(D1, p0[i], Share(n0, i, level), level - 1), other)
    ensures Index(D1, p0[i], Share(n0, i, level), level - 1) == Index(D0, p0[i], Share(n0, i, level), level - 1)
    ensures forall x :: x in Index(D0, p0[i], Share(n0, i, level), level - 1) ==> x in IndexKids(D0, p0, n0, level)
    ensures forall x :: x in IndexKids(D0, p0[..i], Before(n0, i, level), level) ==> x in IndexKids(D0, p0, n0, level)
  {
    hide Tree, Index, WfTree, Kids, IndexKids, WfKids, DataKids, Data, Cap, Unit, Grow, Owned, SizeKids;
    KidsAt(D0, p0, n0, i, level);
    var na, nc := Before(n0, i, level), Share(n0, i, level);
    OwnedParts(B0, Kids(D0, p0[..i], na, level) + Tree(D0, p0[i], nc, level - 1), Kids(D0, p0[i + 1..], n0 - na - nc, level), other);
    NextKid(D0, B0, p0[..i], na, D1, B1, p1[..i], Before(num, i, level), p0[i], nc, level,
            SizeKids(Before(num, i, level), level) - SizeKids(na, level), other);
  }

  lemma LoopStep(D0: Disk, B0: seq<bool>, p0: seq<Word>, n0: nat, num: nat, i: nat, D1: Disk, B1: seq<bool>, p1: seq<Word>,
                 D2: Disk, B2: seq<bool>, c: Word, level: nat, other: set<nat>)
    requires 0 < level <= 2 && i < |p0| == |p1| && n0 <= num && Cap(i, level) < num
    requires WfKids(D0, p0, n0, level) && Owned(B0, Kids(D0, p0, n0, level), other)
    requires forall x :: x in other ==> x < |B0| && B0[x]
    requires KidsGrown(D0, B0, p0[..i], Before(n0, i, level), D1, B1, p1[..i], Before(num, i, level), level, other)
    requires TreeGrown(D1, B1, p0[i], Share(n0, i, level), D2, B2, c, Share(num, i, level), level - 1, other)
    ensures KidsGrown(D0, B0, p0[..i + 1], Before(n0, i + 1, level),
                      D2, B2, p1[i := c][..i + 1], Before(num, i + 1, level), level, other)
  {
    hide Tree, Index, WfTree, Kids, IndexKids, WfKids, DataKids, Data, Cap, Unit, Grow, Owned, SizeKids, Size, Before, Share;
    Shares(n0, num, i, level);
    var na0, nc0, na1, nc1 := Before(n0, i, level), Share(n0, i, level), Before(num, i, level), Share(num, i, level);
    LoopOwned(D0, B0, p0, n0, i, level, other);
    assert p0[..i + 1] == p0[..i] + [p0[i]];
    assert p1[i := c][..i + 1] == p1[..i] + [c];
    KidStep(D0, B0, p0[..i], na0, p0[i], nc0, D1, B1, p1[..i], na1, D2, B2, c, nc1, level,
            SizeKids(na1, level) - SizeKids(na0, level), Size(nc1, level - 1) - Size(nc0, level - 1), other);
  }

  lemma LoopOwned(D0: Disk, B0: seq<bool>, p0: seq<Word>, n0: nat, i: nat, level: nat, other: set<nat>)
    requires 0 < level <= 2 && i < |p0|
    requires WfKids(D0, p0, n0, level) && Owned(B0, Kids(D0, p0, n0, level), other)
    ensures Owned(B0, Kids(D0, p0[..i] + [p0[i]], Before(n0, i, level) + Share(n0, i, level), level), other)
  {
    hide Tree, Index, WfTree, Kids, IndexKids, WfKids, DataKids, Data, Owned;
    KidsAt(D0, p0, n0, i, level);
    CapNext(n0, i, level);
    var na, nc := Before(n0, i, level), Share(n0, i, level);
    KidsSnoc(D0, p0[..i], p0[i], na, nc, level);
    OwnedParts(B0, Kids(D0, p0[..i], na, level) + Tree(D0, p0[i], nc, level - 1), Kids(D0, p0[i + 1..], n0 - na - nc, level), other);
  }

  // At the start nothing has grown.
  lemma LoopStart(D: Disk, B: seq<bool>, p: seq<Word>, n0: nat, num: nat, level: nat, other: set<nat>)
    requires 0 < level
    ensures KidsGrown(D, B, p[..0], Before(n0, 0, level), D, B, p[..0], Before(num, 0, level), level, other)
  {}

  // At the end the siblings not visited are still empty.
  lemma LoopEnd(D0: Disk, B0: seq<bool>, p0: seq<Word>, n0: nat, num: nat, i: nat, D1: Disk, B1: seq<bool>, p1: seq<Word>,
                level: nat, other: set<nat>)
    requires 0 < level <= 2 && i <= |p0| == |p1| && n0 <= num <= Cap(i, level)
    requires WfKids(D0, p0, n0, level) && p1[i..] == p0[i..]
    requires KidsGrown(D0, B0, p0[..i], n0, D1, B1, p1[..i], num, level, other)
    ensures KidsGrown(D0, B0, p0, n0, D1, B1, p1, num, level, other)
  {
    hide Tree, Index, WfTree, Kids, IndexKids, WfKids, DataKids, Data, Grow, SizeKids;
    assert p0 == p0[..i] + p0[i..] && p1 == p1[..i] + p1[i..];
    KidsSplit(D0, p0[..i], p0[i..], n0, level);
    IndexSplit(D0, p0[..i], p0[i..], n0, level);
    WfSplit(D0, p0[..i], p0[i..], n0, level);
    KidsSplit(D1, p1[..i], p1[i..], num, level);
    DataSplit(D1, p1[..i], p1[i..], num, level);
    WfSplit(D1, p1[..i], p1[i..], num, level);
    EmptyKids(D0, D1, p0[i..], level);
    EmptyKids(D1, D0, p0[i..], level);
    assert Kids(D0, p0, n0, level) == Kids(D0, p0[..i], n0, level);
    assert IndexKids(D0, p0, n0, level) == IndexKids(D0, p0[..i], n0, level);
    assert Kids(D1, p1, num, level) == Kids(D1, p1[..i], num, level);
    assert DataKids(D1, p1, num, level) == DataKids(D1, p1[..i], num, level);
  }

  // ----- running out of room -----

  // Whether place P of a subtree, or of a run of siblings, in allocation order is an index block.
  predicate IndexPlace(p: nat, level: nat) {
    (level == 1 && p == 0) || (level == 2 && (p == 0 || (p - 1) % (PTRS + 1) == 0))
  }

  predicate IndexPlaceKids(p: nat, level: nat) {
    level == 2 && p % (PTRS + 1) == 0
  }

  // With F free sectors the growth runs out exactly at an index block.
  predicate Clobbers(n0: nat, n1: nat, level: nat, F: nat) {
    Size(n0, level) + F < Size(n1, level) && IndexPlace(Size(n0, level) + F, level)
  }

  predicate KidsClobbers(n0: nat, n1: nat, level: nat, F: nat) {
    SizeKids(n0, level) + F < SizeKids(n1, level) && IndexPlaceKids(SizeKids(n0, level) + F, level)
  }

  // Sector 0 is lost if and only if CLOBBERED; otherwise a failed growth is framed like a successful one.
  ghost predicate Failed(D0: Disk, B0: seq<bool>, I0: seq<nat>, D1: Disk, B1: seq<bool>, k: nat, clobbered: bool, other: set<nat>) {
    && B1 == After(B0, k)
    && Frame(D0, D1, B0, other + Elems(I0) + {0})
    && 0 < |D0| && D1[0] == if clobbered then Zeros() else D0[0]
  }

  lemma ClobberStep(n0: nat, num: nat, i: nat, level: nat, F: nat, kd: nat)
    requires 0 < level <= 2 && n0 <= num && Cap(i, level) < num
    requires kd + SizeKids(Before(n0, i, level), level) == SizeKids(Before(num, i, level), level)
    requires kd <= F && F - kd + Size(Share(n0, i, level), level - 1) < Size(Share(num, i, level), level - 1)
    ensures Clobbers(Share(n0, i, level), Share(num, i, level), level - 1, F - kd) == KidsClobbers(n0, num, level, F)
    ensures SizeKids(n0, level) + F < SizeKids(num, level)
  {
    var c0, c1 := Share(n0, i, level), Share(num, i, level);
    var q := F - kd + Size(c0, level - 1);
    Shares(n0, num, i, level);
    SmallerSize(c0, c1, level - 1);
    assert c0 < c1 <= Unit(level);
    assert n0 == Before(n0, i + 1, level);
    assert SizeKids(n0, level) + F == SizeKids(Cap(i, level), level) + q;
    SizeMonotone(Before(num, i + 1, level), num, level);
    PlaceInside(i, level, q, c1);
    hide Share, Before, Size, SizeKids, Cap, IndexPlace, IndexPlaceKids, Unit;
  }

  // Place Q of child I is an index block's in the child if and only if it is among the siblings.
  lemma PlaceInside(i: nat, level: nat, q: nat, c1: nat)
    requires 0 < level <= 2 && q < Size(c1, level - 1) && c1 <= Unit(level)
    ensures IndexPlace(q, level - 1) == IndexPlaceKids(SizeKids(Cap(i, level), level) + q, level)
  {
    if level == 2 {
      assert SizeKids(Cap(i, level), level) == (PTRS + 1) * i;
      Remainder(i, q);
    }
  }

  lemma SmallerSize(a: nat, b: nat, level: nat)
    requires level <= 1 && Size(a, level) < Size(b, level)
    ensures a < b && (b <= Span(level) ==> Size(b, level) <= Span(level) + level)
  {}

  lemma SizeMonotone(a: nat, b: nat, level: nat)
    requires a <= b
    ensures SizeKids(a, level) <= SizeKids(b, level) && Size(a, level) <= Size(b, level)
  {}

  lemma Remainder(i: nat, q: nat)
    requires q <= PTRS
    ensures ((PTRS + 1) * i + q) % (PTRS + 1) == q
  {}

  lemma LoopFails(D0: Disk, B0: seq<bool>, p0: seq<Word>, n0: nat, num: nat, i: nat, D1: Disk, B1: seq<bool>, p1: seq<Word>,
                  D2: Disk, B2: seq<bool>, level: nat, other: set<nat>)
    requires 0 < level <= 2 && i < |p0| == |p1| && n0 <= num && Cap(i, level) < num
    requires WfKids(D0, p0, n0, level) && Owned(B0, Kids(D0, p0, n0, level), other)
    requires 0 < |D0| && 0 < |B0| && B0[0] && 0 !in other && 0 !in IndexKids(D0, p0, n0, level)
    requires KidsGrown(D0, B0, p0[..i], Before(n0, i, level), D1, B1, p1[..i], Before(num, i, level), level, other)
    requires SizeKids(n0, level) <= SizeKids(num, level)
    requires Size(Share(n0, i, level), level - 1) <= Size(Share(num, i, level), level - 1)
    requires var l := Size(Share(num, i, level), level - 1) - Size(Share(n0, i, level), level - 1);
             && FreeCount(B1) < l
             && SizeKids(Before(num, i, level), level) - SizeKids(Before(n0, i, level), level) <= FreeCount(B0)
             && Failed(D1, B1, Index(D1, p0[i], Share(n0, i, level), level - 1), D2, B2, l,
                       Clobbers(Share(n0, i, level), Share(num, i, level), level - 1, FreeCount(B1)), other)
    ensures Failed(D0, B0, IndexKids(D0, p0, n0, level), D2, B2, SizeKids(num, level) - SizeKids(n0, level),
                   KidsClobbers(n0, num, level, FreeCount(B0)), other)
    ensures FreeCount(B0) < SizeKids(num, level) - SizeKids(n0, level)
  {
    hide Tree, Index, WfTree, Kids, IndexKids, WfKids, DataKids, Data, Owned, Clobbers, KidsClobbers, SizeKids, Size, Before, Share, Failed, Grow, Cap;
    Shares(n0, num, i, level);
    var kd := SizeKids(Before(num, i, level), level) - SizeKids(Before(n0, i, level), level);
    var l := Size(Share(num, i, level), level - 1) - Size(Share(n0, i, level), level - 1);
    LoopReady(D0, B0, p0, n0, num, i, D1, B1, p1, level, other);
    GrowBits(D0, B0, Kids(D0, p0[..i], Before(n0, i, level), level), IndexKids(D0, p0[..i], Before(n0, i, level), level),
             D1, B1, Kids(D1, p1[..i], Before(num, i, level), level), DataKids(D1, p1[..i], Before(num, i, level), level), kd, other);
    TakeAll(B0, kd);
    ClobberStep(n0, num, i, level, FreeCount(B0), kd);
    TakeSplit(B0, kd, l);
    AfterFull(B0, kd + l, SizeKids(num, level) - SizeKids(n0, level));
    FailedAfter(D0, B0, Kids(D0, p0[..i], Before(n0, i, level), level), IndexKids(D0, p0[..i], Before(n0, i, level), level),
                D1, B1, Kids(D1, p1[..i], Before(num, i, level), level), DataKids(D1, p1[..i], Before(num, i, level), level), kd,
                Index(D1, p0[i], Share(n0, i, level), level - 1), D2, B2, l,
                KidsClobbers(n0, num, level, FreeCount(B0)), SizeKids(num, level) - SizeKids(n0, level),
                IndexKids(D0, p0, n0, level), other);
  }

  lemma GrowBits(D0: Disk, B0: seq<bool>, T0: seq<nat>, I0: seq<nat>, D1: Disk, B1: seq<bool>, T1: seq<nat>, L1: seq<nat>,
                 k: nat, other: set<nat>)
    requires Grow(D0, B0, T0, I0, D1, B1, T1, L1, k, other)
    ensures B1 == After(B0, k)
  {}

  // A step that succeeds and then one that runs out of room, as one failed step.
  lemma FailedAfter(D0: Disk, B0: seq<bool>, T0: seq<nat>, I0: seq<nat>, D1: Disk, B1: seq<bool>, T1: seq<nat>, L1: seq<nat>,
                    k: nat, J0: seq<nat>, D2: Disk, B2: seq<bool>, l: nat, clobbered: bool, all: nat, I: seq<nat>,
                    other: set<nat>)
    requires Grow(D0, B0, T0, I0, D1, B1, T1, L1, k, other)
    requires Failed(D1, B1, J0, D2, B2, l, clobbered, other)
    requires 0 < |B0| && B0[0] && 0 !in other && 0 !in I
    requires (forall x :: x in I0 ==> x in I) && (forall x :: x in J0 ==> x in I)
    requires After(B0, k + l) == After(B0, all)
    ensures Failed(D0, B0, I, D2, B2, all, clobbered, other)
  {
    TakeSplit(B0, k, l);
    FrameTrans(D0, D1, D2, B0, k, other + Elems(I0), other + Elems(J0) + {0}, other + Elems(I) + {0});
  }

  // ----- an index block and what is below it -----

  // The block goes back to its sector once the siblings have grown.
  lemma WriteBack(D0: Disk, B0: seq<bool>, entry: nat, n0: nat, D1: Disk, B1: seq<bool>, e: nat, p: seq<Word>, num: nat,
                  level: nat, other: set<nat>)
    requires 0 < level <= 2 && |p| == PTRS && 0 < num && n0 <= num && 0 < e < |D1|
    requires WfKids(D1, p, num, level) && NoDup([e] + Kids(D1, p, num, level))
    requires e in Index(D0, entry, n0, level) || (e < |B0| && !B0[e])
    requires Size(n0, level) <= Size(num, level)
    requires Grow(D0, B0, Tree(D0, entry, n0, level), Index(D0, entry, n0, level), D1, B1, [e] + Kids(D1, p, num, level),
                  DataKids(D1, p, num, level), Size(num, level) - Size(n0, level), other)
    ensures TreeGrown(D0, B0, entry, n0, D1[e := FromWords(p)], B1, e, num, level, other)
  {
    hide Kids, IndexKids, DataKids, WfKids, FromWords, Tree, Data, Index, WfTree, Grow, Ptrs, SizeKids, Size, Words;
    var D2 := D1[e := FromWords(p)];
    WordsRoundTrip(p);
    NodeIs(D2, e, p, num, level);
    NoDupParts([e], Kids(D1, p, num, level));
    assert e in [e];
    IndexInKids(D1, p, num, level);
    KidsFrame(D1, D2, p, num, level);
    GrowWrite(D0, B0, Tree(D0, entry, n0, level), Index(D0, entry, n0, level), D1, B1, [e] + Kids(D1, p, num, level),
              DataKids(D1, p, num, level), Size(num, level) - Size(n0, level), other, e, FromWords(p));
  }

  // The tree of an index block that holds the pointers P.
  lemma NodeIs(D: Disk, e: nat, p: seq<Word>, num: nat, level: nat)
    requires 0 < level && 0 < num && 0 < e < |D| && Words(D[e]) == p
    ensures Tree(D, e, num, level) == [e] + Kids(D, p, num, level)
    ensures Data(D, e, num, level) == DataKids(D, p, num, level)
    ensures WfTree(D, e, num, level) == WfKids(D, p, num, level)
  {
    hide Kids, DataKids, WfKids, Words;
  }

  // The block was there before.
  lemma OldBlock(D0: Disk, B0: seq<bool>, entry: nat, n0: nat, D1: Disk, B1: seq<bool>, p: seq<Word>, num: nat, level: nat,
                 other: set<nat>)
    requires 0 < level <= 2 && |p| == PTRS && 0 < n0 <= num
    requires WfTree(D0, entry, n0, level) && Owned(B0, Tree(D0, entry, n0, level), other)
    requires forall x :: x in other ==> x < |B0| && B0[x]
    requires KidsGrown(D0, B0, Ptrs(D0, entry), n0, D1, B1, p, num, level, other)
    ensures TreeGrown(D0, B0, entry, n0, D1[entry := FromWords(p)], B1, entry, num, level, other)
  {
    hide Kids, IndexKids, DataKids, WfKids, FromWords, Owned, Grow, Words;
    var K0, K1 := Kids(D0, Ptrs(D0, entry), n0, level), Kids(D1, p, num, level);
    var I0, L1 := IndexKids(D0, Ptrs(D0, entry), n0, level), DataKids(D1, p, num, level);
    var k := SizeKids(num, level) - SizeKids(n0, level);
    GrowNothing(D0, B0, [entry], other);
    IndexInKids(D0, Ptrs(D0, entry), n0, level);
    IndexInKids(D1, p, num, level);
    GrowTwice(D0, B0, [entry], [entry], D0, B0, [entry], [], 0, K0, I0, D1, B1, K1, L1, k, other);
    OwnedAfter(D0, B0, [entry] + K0, [entry] + I0, D1, B1, [entry] + K1, [] + L1, k, [], other) by {
      assert [entry] + K0 + [] == [entry] + K0;
    }
    assert [] + L1 == L1;
    assert [entry] + K1 + [] == [entry] + K1;
    OwnedNoDup(B1, [entry] + K1, other);
    WriteBackSize(D0, B0, [entry] + K0, [entry] + I0, D1, B1, [entry] + K1, L1, k, other);
    WriteBack(D0, B0, entry, n0, D1, B1, entry, p, num, level, other);
  }

  lemma GrowNothing(D: Disk, B: seq<bool>, T: seq<nat>, other: set<nat>)
    ensures Grow(D, B, T, T, D, B, T, [], 0, other)
  {}

  lemma OwnedNoDup(B: seq<bool>, T: seq<nat>, other: set<nat>)
    requires Owned(B, T, other)
    ensures NoDup(T)
  {}

  lemma WriteBackSize(D0: Disk, B0: seq<bool>, T0: seq<nat>, I0: seq<nat>, D1: Disk, B1: seq<bool>, T1: seq<nat>, L1: seq<nat>,
                      k: nat, other: set<nat>)
    requires Grow(D0, B0, T0, I0, D1, B1, T1, L1, k, other)
    ensures |D1| == |D0|
  {}

  // A new sector E and the siblings K1 behind it.
  lemma NewThenKids(D0: Disk, B0: seq<bool>, e: nat, D1: Disk, B1: seq<bool>, D2: Disk, B2: seq<bool>, K1: seq<nat>, L1: seq<nat>,
                    k: nat, other: set<nat>)
    requires TakeFree(B0, 1) == [e] && B1 == After(B0, 1) && Frame(D0, D1, B0, other)
    requires forall x :: x in other ==> x < |B0| && B0[x]
    requires forall x :: x in L1 ==> x in K1
    requires Grow(D1, B1, [], [], D2, B2, K1, L1, k, other)
    ensures Grow(D0, B0, [], [], D2, B2, [e] + K1, L1, 1 + k, other)
    ensures NoDup([e] + K1) && |D2| == |D0| && e < |B0| && !B0[e]
  {
    hide Grow, TakeFree, After, Elems, Owned;
    GrowOne(D0, B0, e, D1, B1, other);
    TakeMarks(B0, 1);
    assert e in TakeFree(B0, 1);
    NothingOwned(B0, other);
    assert L1 == [] + L1;
    GrowTwice(D0, B0, [], [], D1, B1, [e], [], 1, [], [], D2, B2, K1, L1, k, other);
    NewNoDup(D0, B0, D2, B2, [e] + K1, L1, 1 + k, other);
  }

  lemma NothingOwned(B: seq<bool>, other: set<nat>)
    ensures Owned(B, [] + [], other)
  {}

  lemma NewNoDup(D0: Disk, B0: seq<bool>, D1: Disk, B1: seq<bool>, T1: seq<nat>, L1: seq<nat>, k: nat, other: set<nat>)
    requires Grow(D0, B0, [], [], D1, B1, T1, L1, k, other)
    ensures NoDup(T1) && |D1| == |D0|
  {
    TakeFacts(B0, k);
    assert T1 == TakeFree(B0, k);
  }

  // The block was just allocated as sector E and zeroed.
  lemma NewBlock(D0: Disk, B0: seq<bool>, e: nat, D1: Disk, B1: seq<bool>, D2: Disk, B2: seq<bool>, p: seq<Word>, num: nat,
                 level: nat, other: set<nat>)
    requires 0 < level <= 2 && |p| == PTRS && 0 < num && 0 < e < |D0|
    requires TakeFree(B0, 1) == [e] && B1 == After(B0, 1) && Frame(D0, D1, B0, other)
    requires forall x :: x in other ==> x < |B0| && B0[x]
    requires KidsGrown(D1, B1, NoWords(), 0, D2, B2, p, num, level, other)
    ensures TreeGrown(D0, B0, 0, 0, D2[e := FromWords(p)], B2, e, num, level, other)
  {
    hide Tree, Index, Kids, IndexKids, DataKids, WfKids, FromWords, Grow, Words, TakeFree, After, NoWords, Elems;
    EmptyTree(D0, 0, 0, level);
    NoChildren(D1, level);
    IndexInKids(D2, p, num, level);
    NewThenKids(D0, B0, e, D1, B1, D2, B2, Kids(D2, p, num, level), DataKids(D2, p, num, level), SizeKids(num, level), other);
    WriteBack(D0, B0, 0, 0, D2, B2, e, p, num, level, other);
  }

  lemma EmptyTree(D: Disk, e: nat, n: nat, level: nat)
    ensures n == 0 ==> Tree(D, e, n, level) == [] && Index(D, e, n, level) == [] && Data(D, e, n, level) == []
  {}

  lemma NoChildren(disk: Disk, level: nat)
    requires 0 < level
    ensures Kids(disk, NoWords(), 0, level) == [] && IndexKids(disk, NoWords(), 0, level) == []
    ensures WfKids(disk, NoWords(), 0, level)
  {
    hide Kids, IndexKids, WfKids;
    assert NoWords()[..PTRS] == NoWords();
    NoKids(disk, level, PTRS);
  }

  lemma GrowOne(D0: Disk, B0: seq<bool>, e: nat, D1: Disk, B1: seq<bool>, other: set<nat>)
    requires TakeFree(B0, 1) == [e] && B1 == After(B0, 1) && Frame(D0, D1, B0, other)
    ensures Grow(D0, B0, [], [], D1, B1, [e], [], 1, other)
  {
    hide TakeFree, After;
    assert other + Elems([]) == other;
  }


  lemma FailOld(D0: Disk, B0: seq<bool>, entry: nat, n0: nat, D1: Disk, B1: seq<bool>, num: nat, level: nat, other: set<nat>)
    requires 0 < level <= 2 && 0 < n0 <= num && SizeKids(n0, level) <= SizeKids(num, level)
    requires Failed(D0, B0, IndexKids(D0, Ptrs(D0, entry), n0, level), D1, B1, SizeKids(num, level) - SizeKids(n0, level),
                    KidsClobbers(n0, num, level, FreeCount(B0)), other)
    ensures Failed(D0, B0, Index(D0, entry, n0, level), D1, B1, Size(num, level) - Size(n0, level),
                   Clobbers(n0, num, level, FreeCount(B0)), other)
  {
    hide IndexKids, After, FreeCount;
  }

  // Not even the block could be allocated: it is written to, and read from, sector 0.
  lemma FailFull(D0: Disk, B0: seq<bool>, D1: Disk, B1: seq<bool>, num: nat, level: nat, other: set<nat>)
    requires 0 < level <= 2 && 0 < num && FreeCount(B0) == 0 && 0 < |D0|
    requires Failed(D0[0 := Zeros()], B0, [], D1, B1, SizeKids(num, level), KidsClobbers(0, num, level, 0), other)
    ensures Failed(D0, B0, Index(D0, 0, 0, level), D1, B1, Size(num, level), Clobbers(0, num, level, 0), other)
  {
    hide After, FreeCount;
    AfterFull(B0, SizeKids(num, level), Size(num, level));
  }

  lemma FailNew(D0: Disk, B0: seq<bool>, e: nat, D1: Disk, B1: seq<bool>, D2: Disk, B2: seq<bool>, num: nat, level: nat,
                other: set<nat>)
    requires 0 < level <= 2 && 0 < num && 0 < FreeCount(B0) && 0 < |B0| && B0[0] && 0 !in other && 0 < |D0|
    requires TakeFree(B0, 1) == [e] && B1 == After(B0, 1) && Frame(D0, D1, B0, other)
    requires FreeCount(B1) < SizeKids(num, level)
    requires Failed(D1, B1, [], D2, B2, SizeKids(num, level), KidsClobbers(0, num, level, FreeCount(B1)), other)
    ensures Failed(D0, B0, Index(D0, 0, 0, level), D2, B2, Size(num, level), Clobbers(0, num, level, FreeCount(B0)), other)
    ensures FreeCount(B0) < Size(num, level)
  {
    hide After, FreeCount, TakeFree, Elems, Failed, Index, KidsClobbers, Clobbers;
    TakeAll(B0, 1);
    EmptyTree(D0, 0, 0, level);
    NewPlace(num, level, FreeCount(B0));
    GrowOne(D0, B0, e, D1, B1, other);
    assert 1 + SizeKids(num, level) == Size(num, level);
    FailedAfter(D0, B0, [], [], D1, B1, [e], [], 1, [], D2, B2, SizeKids(num, level), Clobbers(0, num, level, FreeCount(B0)),
                Size(num, level), [], other);
  }

  lemma NewPlace(num: nat, level: nat, F: nat)
    requires 0 < level <= 2 && 0 < num && 0 < F
    ensures Clobbers(0, num, level, F) == KidsClobbers(0, num, level, F - 1)
  {}

  // A data sector: kept, or allocated and zeroed, or not to be had.
  lemma Leaf(D0: Disk, B0: seq<bool>, entry: nat, n0: nat, other: set<nat>)
    requires WfTree(D0, entry, n0, 0) && 0 < n0 && Owned(B0, Tree(D0, entry, n0, 0), other)
    ensures n0 == 1 && TreeGrown(D0, B0, entry, n0, D0, B0, entry, 1, 0, other)
  {}

  lemma NewLeaf(D0: Disk, B0: seq<bool>, e: nat, D1: Disk, B1: seq<bool>, other: set<nat>)
    requires TakeFree(B0, 1) == [e] && B1 == After(B0, 1) && Frame(D0, D1, B0, other) && 0 < e < |D0|
    requires D1[e] == Zeros()
    ensures TreeGrown(D0, B0, 0, 0, D1, B1, e, 1, 0, other)
  {
    hide TakeFree, After;
    assert other + Elems([]) == other;
  }

  lemma NoLeaf(D0: Disk, B0: seq<bool>, other: set<nat>)
    requires FreeCount(B0) == 0 && 0 < |D0|
    ensures Failed(D0, B0, Index(D0, 0, 0, 0), D0, B0, 1, Clobbers(0, 1, 0, 0), other)
  {
    AfterFull(B0, 0, 1);
  }
}
