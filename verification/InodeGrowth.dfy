/** Growing a whole inode: its direct pointers, then the level-1 subtree, then
    the level-2 subtree, seen as one growth step. */
module InodeGrowth {
  import opened Sectors
  import opened FirstFit
  import opened Layout
  import opened Growth
  import opened Inodes

  /** The inode has grown from N0 to N1 data sectors: its sectors, in allocation
      order, are the old ones followed by the first free ones. */
  ghost predicate InodeGrown(D0: Disk, B0: seq<bool>, d0: InodeDisk, n0: nat, D1: Disk, B1: seq<bool>, d1: InodeDisk, n1: nat,
                             other: set<nat>) {
    && WfInode(D1, d1, n1) && Total(n0) <= Total(n1)
    && Grow(D0, B0, AllSectors(D0, d0, n0), IndexSectors(D0, d0, n0),
            D1, B1, AllSectors(D1, d1, n1), DataSectors(D1, d1, n1), Total(n1) - Total(n0), other)
  }

  lemma GrownShape(D0: Disk, B0: seq<bool>, d0: InodeDisk, n0: nat, D1: Disk, B1: seq<bool>, d1: InodeDisk, n1: nat,
                   other: set<nat>)
    requires InodeGrown(D0, B0, d0, n0, D1, B1, d1, n1, other)
    ensures |d1.direct| == DIRECT && |D1| == |D0|
  {
    hide AllSectors, DataSectors, IndexSectors, Total;
  }

  // Whether place P in allocation order is an index block.
  predicate InodeIndexPlace(p: nat) {
    || p == DIRECT
    || (p > DIRECT + PTRS && IndexPlace(p - DIRECT - PTRS - 1, 2))
  }

  predicate InodeClobbers(n0: nat, n1: nat, F: nat) {
    Total(n0) + F < Total(n1) && InodeIndexPlace(Total(n0) + F)
  }

  // A part whose turn comes after X has grown.
  lemma NextPart(D0: Disk, B0: seq<bool>, X0: seq<nat>, I0: seq<nat>, D1: Disk, B1: seq<bool>, X1: seq<nat>, L1: seq<nat>,
                 k: nat, other: set<nat>, e: nat, n: nat, level: nat)
    requires Grow(D0, B0, X0, I0, D1, B1, X1, L1, k, other)
    requires Owned(B0, X0 + Tree(D0, e, n, level), other)
    requires (forall x :: x in I0 ==> x in X0) && (forall x :: x in other ==> x < |B0| && B0[x])
    ensures Tree(D1, e, n, level) == Tree(D0, e, n, level) && Index(D1, e, n, level) == Index(D0, e, n, level)
    ensures Data(D1, e, n, level) == Data(D0, e, n, level) && WfTree(D1, e, n, level) == WfTree(D0, e, n, level)
    ensures Owned(B1, X1 + Tree(D1, e, n, level), other)
  {
    hide Tree, Index, Data, WfTree, Grow, Owned;
    var S := Tree(D0, e, n, level);
    OwnedParts(B0, X0, S, other);
    IndexInTree(D0, e, n, level);
    Undisturbed(D0, B0, X0, I0, D1, B1, X1, L1, k, other, S, Index(D0, e, n, level));
    TreeFrame(D0, D1, e, n, level);
    OwnedAfter(D0, B0, X0, I0, D1, B1, X1, L1, k, S, other);
  }

  // A part that has grown before the step on S.
  lemma PrevPart(D1: Disk, B1: seq<bool>, S0: seq<nat>, J0: seq<nat>, D2: Disk, B2: seq<bool>, S1: seq<nat>, M1: seq<nat>,
                 l: nat, other: set<nat>, e: nat, n: nat, level: nat)
    requires Grow(D1, B1, S0, J0, D2, B2, S1, M1, l, other)
    requires Owned(B1, Tree(D1, e, n, level), other)
    requires forall x :: x in Tree(D1, e, n, level) ==> x !in J0
    ensures Tree(D2, e, n, level) == Tree(D1, e, n, level) && Data(D2, e, n, level) == Data(D1, e, n, level)
    ensures WfTree(D2, e, n, level) == WfTree(D1, e, n, level)
  {
    hide Tree, Index, Data, WfTree, Grow, Owned;
    IndexInTree(D1, e, n, level);
    Undisturbed(D1, B1, S0, J0, D2, B2, S1, M1, l, other, Tree(D1, e, n, level), Index(D1, e, n, level));
    TreeFrame(D1, D2, e, n, level);
  }

  // Siblings that are data sectors do not depend on the disk's contents.
  lemma {:induction false} FlatSame(D: Disk, D': Disk, p: seq<Word>, n: nat)
    requires |D'| == |D|
    ensures Kids(D', p, n, 1) == Kids(D, p, n, 1) && DataKids(D', p, n, 1) == DataKids(D, p, n, 1)
    ensures WfKids(D', p, n, 1) == WfKids(D, p, n, 1) && IndexKids(D, p, n, 1) == []
    decreases |p|
  {
    if |p| > 0 {
      FlatSame(D, D', p[1..], n - Min(n, 1));
    }
  }

  // ----- the three stages of inode_reserve -----

  // After the direct pointers.
  ghost predicate Stage1(D0: Disk, B0: seq<bool>, d: InodeDisk, n0: nat, D1: Disk, B1: seq<bool>, direct: seq<Word>, need: nat,
                         other: set<nat>) {
    KidsGrown(D0, B0, d.direct, InDirect(n0), D1, B1, direct, InDirect(need), 1, other)
  }

  lemma InodeOwned(D0: Disk, B0: seq<bool>, d: InodeDisk, n0: nat, other: set<nat>)
    requires Owned(B0, AllSectors(D0, d, n0), other)
    ensures Owned(B0, Kids(D0, d.direct, InDirect(n0), 1) + Tree(D0, d.indirect, InIndirect(n0), 1), other)
  {
    hide Tree, Kids, Owned;
    OwnedParts(B0, Kids(D0, d.direct, InDirect(n0), 1) + Tree(D0, d.indirect, InIndirect(n0), 1), Tree(D0, d.doubly, InDoubly(n0), 2), other);
  }

  lemma AfterStage1(D0: Disk, B0: seq<bool>, d: InodeDisk, n0: nat, D1: Disk, B1: seq<bool>, direct: seq<Word>, need: nat,
                    other: set<nat>)
    requires WfInode(D0, d, n0) && n0 <= need && Owned(B0, AllSectors(D0, d, n0), other)
    requires forall x :: x in other ==> x < |B0| && B0[x]
    requires |direct| == DIRECT && Stage1(D0, B0, d, n0, D1, B1, direct, need, other)
    ensures B1 == After(B0, InDirect(need) - InDirect(n0)) && |D1| == |D0|
    ensures WfTree(D1, d.indirect, InIndirect(n0), 1)
    ensures Tree(D1, d.indirect, InIndirect(n0), 1) == Tree(D0, d.indirect, InIndirect(n0), 1)
    ensures Index(D1, d.indirect, InIndirect(n0), 1) == Index(D0, d.indirect, InIndirect(n0), 1)
    ensures Owned(B1, Kids(D1, direct, InDirect(need), 1) + Tree(D1, d.indirect, InIndirect(n0), 1), other)
  {
    hide Tree, Index, Data, Kids, DataKids, IndexKids, WfKids, WfTree, Grow, Owned, AllSectors, After, TakeFree, SizeKids, Min;
    var k := SizeKids(InDirect(need), 1) - SizeKids(InDirect(n0), 1);
    DirectSize(n0, need);
    InodeOwned(D0, B0, d, n0, other);
    IndexInKids(D0, d.direct, InDirect(n0), 1);
    NextPart(D0, B0, Kids(D0, d.direct, InDirect(n0), 1), IndexKids(D0, d.direct, InDirect(n0), 1),
             D1, B1, Kids(D1, direct, InDirect(need), 1), DataKids(D1, direct, InDirect(need), 1),
             k, other, d.indirect, InIndirect(n0), 1);
    GrowLength(D0, B0, Kids(D0, d.direct, InDirect(n0), 1), IndexKids(D0, d.direct, InDirect(n0), 1),
               D1, B1, Kids(D1, direct, InDirect(need), 1), DataKids(D1, direct, InDirect(need), 1), k, other);
  }

  lemma DirectSize(n0: nat, need: nat)
    requires n0 <= need
    ensures SizeKids(InDirect(need), 1) - SizeKids(InDirect(n0), 1) == InDirect(need) - InDirect(n0) >= 0
  {}

  lemma ExitStage1(D0: Disk, B0: seq<bool>, d: InodeDisk, n0: nat, D1: Disk, B1: seq<bool>, direct: seq<Word>, need: nat,
                   other: set<nat>)
    requires WfInode(D0, d, n0) && n0 <= need <= DIRECT
    requires |direct| == DIRECT && Stage1(D0, B0, d, n0, D1, B1, direct, need, other)
    ensures InodeGrown(D0, B0, d, n0, D1, B1, d.(direct := direct), need, other)
  {
    hide Tree, Index, Data, Kids, DataKids, IndexKids, WfKids, Grow, Owned;
    Empty(D0, d, n0);
    Empty(D1, d, n0);
    OnlyDirect(D0, d, n0);
    OnlyDirect(D1, d.(direct := direct), need);
  }

  lemma Empty(D: Disk, d: InodeDisk, n: nat)
    requires n <= DIRECT
    ensures Tree(D, d.indirect, InIndirect(n), 1) == [] && Tree(D, d.doubly, InDoubly(n), 2) == []
    ensures WfTree(D, d.indirect, 0, 1) == (d.indirect == 0) && WfTree(D, d.doubly, 0, 2) == (d.doubly == 0)
  {}

  lemma OnlyDirect(D: Disk, d: InodeDisk, n: nat)
    requires n <= DIRECT
    ensures AllSectors(D, d, n) == Kids(D, d.direct, n, 1) && DataSectors(D, d, n) == DataKids(D, d.direct, n, 1)
    ensures IndexSectors(D, d, n) == IndexKids(D, d.direct, n, 1)
    ensures Total(n) == n
  {}

  lemma DirectAndIndirect(D: Disk, d: InodeDisk, n: nat)
    requires n <= DIRECT + PTRS
    ensures AllSectors(D, d, n) == Kids(D, d.direct, InDirect(n), 1) + Tree(D, d.indirect, InIndirect(n), 1)
    ensures DataSectors(D, d, n) == DataKids(D, d.direct, InDirect(n), 1) + Data(D, d.indirect, InIndirect(n), 1)
    ensures IndexSectors(D, d, n) == IndexKids(D, d.direct, InDirect(n), 1) + Index(D, d.indirect, InIndirect(n), 1)
    ensures WfTree(D, d.doubly, InDoubly(n), 2) == (d.doubly == 0)
  {
    hide Tree, Data, Index, Kids, DataKids, IndexKids, WfTree;
    EmptyTree(D, d.doubly, InDoubly(n), 2);
    EmptyWf(D, d.doubly, 2);
  }

  lemma EmptyWf(D: Disk, e: nat, level: nat)
    ensures WfTree(D, e, 0, level) == (e == 0)
  {}

  // The state after the level-1 subtree: direct pointers and it as one part.
  lemma AfterStage2(D0: Disk, B0: seq<bool>, d: InodeDisk, n0: nat, D1: Disk, B1: seq<bool>, direct: seq<Word>,
                    D2: Disk, B2: seq<bool>, e: Word, need: nat, other: set<nat>)
    requires WfInode(D0, d, n0) && n0 <= need && DIRECT < need && Owned(B0, AllSectors(D0, d, n0), other)
    requires forall x :: x in other ==> x < |B0| && B0[x]
    requires |direct| == DIRECT && Stage1(D0, B0, d, n0, D1, B1, direct, need, other)
    requires TreeGrown(D1, B1, d.indirect, InIndirect(n0), D2, B2, e, InIndirect(need), 1, other)
    ensures var k := Total(Min(need, DIRECT + PTRS)) - Total(Min(n0, DIRECT + PTRS));
            && k >= 0
            && Grow(D0, B0, Kids(D0, d.direct, InDirect(n0), 1) + Tree(D0, d.indirect, InIndirect(n0), 1),
                    IndexKids(D0, d.direct, InDirect(n0), 1) + Index(D0, d.indirect, InIndirect(n0), 1), D2, B2,
                    Kids(D2, direct, InDirect(need), 1) + Tree(D2, e, InIndirect(need), 1),
                    DataKids(D2, direct, InDirect(need), 1) + Data(D2, e, InIndirect(need), 1), k, other)
            && (k == 0 || n0 <= DIRECT + PTRS)
    ensures WfKids(D2, direct, InDirect(need), 1)
  {
    hide Tree, Index, Data, Kids, DataKids, IndexKids, WfKids, Grow, Owned, WfTree;
    AfterStage1(D0, B0, d, n0, D1, B1, direct, need, other);
    var K0, T0 := Kids(D0, d.direct, InDirect(n0), 1), Tree(D0, d.indirect, InIndirect(n0), 1);
    InodeOwned(D0, B0, d, n0, other);
    IndexInKids(D0, d.direct, InDirect(n0), 1);
    IndexInTree(D0, d.indirect, InIndirect(n0), 1);
    IndexInKids(D1, direct, InDirect(need), 1);
    IndexInTree(D2, e, InIndirect(need), 1);
    SameSize(D0, B0, d, n0, D1, B1, direct, need, other);
    FlatSame(D1, D2, direct, InDirect(need)) by {
      GrowLength(D1, B1, Tree(D1, d.indirect, InIndirect(n0), 1), Index(D1, d.indirect, InIndirect(n0), 1), D2, B2,
                 Tree(D2, e, InIndirect(need), 1), Data(D2, e, InIndirect(need), 1),
                 Size(InIndirect(need), 1) - Size(InIndirect(n0), 1), other);
    }
    var k, l := InDirect(need) - InDirect(n0), Size(InIndirect(need), 1) - Size(InIndirect(n0), 1);
    EmptyTree(D0, d.indirect, InIndirect(n0), 1);
    assert k == 0 || InIndirect(n0) == 0;
    GrowTwice(D0, B0, K0, IndexKids(D0, d.direct, InDirect(n0), 1), D1, B1, Kids(D1, direct, InDirect(need), 1),
              DataKids(D1, direct, InDirect(need), 1), k, T0, Index(D0, d.indirect, InIndirect(n0), 1), D2, B2,
              Tree(D2, e, InIndirect(need), 1), Data(D2, e, InIndirect(need), 1), l, other);
  }

  lemma ExitStage2(D0: Disk, B0: seq<bool>, d: InodeDisk, n0: nat, D1: Disk, B1: seq<bool>, direct: seq<Word>,
                   D2: Disk, B2: seq<bool>, e: Word, need: nat, other: set<nat>)
    requires WfInode(D0, d, n0) && n0 <= need && DIRECT < need <= DIRECT + PTRS && Owned(B0, AllSectors(D0, d, n0), other)
    requires forall x :: x in other ==> x < |B0| && B0[x]
    requires |direct| == DIRECT && Stage1(D0, B0, d, n0, D1, B1, direct, need, other)
    requires TreeGrown(D1, B1, d.indirect, InIndirect(n0), D2, B2, e, InIndirect(need), 1, other)
    ensures InodeGrown(D0, B0, d, n0, D2, B2, d.(direct := direct, indirect := e), need, other)
  {
    hide Tree, Index, Data, Kids, DataKids, IndexKids, WfKids, Grow, Owned, WfTree;
    AfterStage2(D0, B0, d, n0, D1, B1, direct, D2, B2, e, need, other);
    DirectAndIndirect(D0, d, n0);
    DirectAndIndirect(D2, d.(direct := direct, indirect := e), need);
  }

  lemma SameSize(D0: Disk, B0: seq<bool>, d: InodeDisk, n0: nat, D1: Disk, B1: seq<bool>, direct: seq<Word>, need: nat,
                 other: set<nat>)
    requires Stage1(D0, B0, d, n0, D1, B1, direct, need, other)
    ensures |D1| == |D0|
  {}

  lemma GrowLength(D0: Disk, B0: seq<bool>, T0: seq<nat>, I0: seq<nat>, D1: Disk, B1: seq<bool>, T1: seq<nat>, L1: seq<nat>,
                   k: nat, other: set<nat>)
    requires Grow(D0, B0, T0, I0, D1, B1, T1, L1, k, other)
    ensures |D1| == |D0| && B1 == After(B0, k)
  {}

  // Direct pointers and level-1 subtree together, grown from (D0, B0) to (D2, B2).
  ghost predicate Stage2(D0: Disk, B0: seq<bool>, d: InodeDisk, n0: nat, D2: Disk, B2: seq<bool>, direct: seq<Word>, e: Word,
                         need: nat, k: nat, other: set<nat>) {
    && WfKids(D2, direct, InDirect(need), 1) && WfTree(D2, e, InIndirect(need), 1)
    && Grow(D0, B0, Kids(D0, d.direct, InDirect(n0), 1) + Tree(D0, d.indirect, InIndirect(n0), 1),
            IndexKids(D0, d.direct, InDirect(n0), 1) + Index(D0, d.indirect, InIndirect(n0), 1), D2, B2,
            Kids(D2, direct, InDirect(need), 1) + Tree(D2, e, InIndirect(need), 1),
            DataKids(D2, direct, InDirect(need), 1) + Data(D2, e, InIndirect(need), 1), k, other)
  }

  lemma BeforeStage3(D0: Disk, B0: seq<bool>, d: InodeDisk, n0: nat, D2: Disk, B2: seq<bool>, direct: seq<Word>, e: Word,
                     need: nat, k: nat, other: set<nat>)
    requires WfInode(D0, d, n0) && Owned(B0, AllSectors(D0, d, n0), other)
    requires forall x :: x in other ==> x < |B0| && B0[x]
    requires Stage2(D0, B0, d, n0, D2, B2, direct, e, need, k, other)
    ensures B2 == After(B0, k) && |D2| == |D0|
    ensures WfTree(D2, d.doubly, InDoubly(n0), 2)
    ensures Tree(D2, d.doubly, InDoubly(n0), 2) == Tree(D0, d.doubly, InDoubly(n0), 2)
    ensures Index(D2, d.doubly, InDoubly(n0), 2) == Index(D0, d.doubly, InDoubly(n0), 2)
    ensures Owned(B2, Kids(D2, direct, InDirect(need), 1) + Tree(D2, e, InIndirect(need), 1)
                      + Tree(D2, d.doubly, InDoubly(n0), 2), other)
  {
    hide Tree, Index, Data, Kids, DataKids, IndexKids, WfKids, WfTree, Grow, Owned, After, TakeFree, Min;
    var X0 := Kids(D0, d.direct, InDirect(n0), 1) + Tree(D0, d.indirect, InIndirect(n0), 1);
    var I0 := IndexKids(D0, d.direct, InDirect(n0), 1) + Index(D0, d.indirect, InIndirect(n0), 1);
    var X1 := Kids(D2, direct, InDirect(need), 1) + Tree(D2, e, InIndirect(need), 1);
    var L1 := DataKids(D2, direct, InDirect(need), 1) + Data(D2, e, InIndirect(need), 1);
    IndexInKids(D0, d.direct, InDirect(n0), 1);
    IndexInTree(D0, d.indirect, InIndirect(n0), 1);
    NextPart(D0, B0, X0, I0, D2, B2, X1, L1, k, other, d.doubly, InDoubly(n0), 2);
    GrowLength(D0, B0, X0, I0, D2, B2, X1, L1, k, other);
  }

  lemma ExitStage3(D0: Disk, B0: seq<bool>, d: InodeDisk, n0: nat, D2: Disk, B2: seq<bool>, direct: seq<Word>, e: Word,
                   D3: Disk, B3: seq<bool>, f: Word, need: nat, k: nat, other: set<nat>)
    requires WfInode(D0, d, n0) && Owned(B0, AllSectors(D0, d, n0), other) && n0 <= need && DIRECT + PTRS < need
    requires forall x :: x in other ==> x < |B0| && B0[x]
    requires |direct| == DIRECT && Stage2(D0, B0, d, n0, D2, B2, direct, e, need, k, other)
    requires k == Total(Min(need, DIRECT + PTRS)) - Total(Min(n0, DIRECT + PTRS))
    requires TreeGrown(D2, B2, d.doubly, InDoubly(n0), D3, B3, f, InDoubly(need), 2, other)
    ensures InodeGrown(D0, B0, d, n0, D3, B3, d.(direct := direct, indirect := e, doubly := f), need, other)
  {
    hide Tree, Index, Data, Kids, DataKids, IndexKids, WfKids, WfTree, Grow, Owned, After, TakeFree, Min, Size, Total,
      InDirect, InIndirect, InDoubly, Elems;
    var K1, T1, U0 := Kids(D2, direct, InDirect(need), 1), Tree(D2, e, InIndirect(need), 1), Tree(D0, d.doubly, InDoubly(n0), 2);
    var I0 := IndexKids(D0, d.direct, InDirect(n0), 1) + Index(D0, d.indirect, InIndirect(n0), 1);
    var J0, U1, M1 := Index(D0, d.doubly, InDoubly(n0), 2), Tree(D3, f, InDoubly(need), 2), Data(D3, f, InDoubly(need), 2);
    var L1 := DataKids(D2, direct, InDirect(need), 1) + Data(D2, e, InIndirect(need), 1);
    var l := Size(InDoubly(need), 2) - Size(InDoubly(n0), 2);
    BeforeStage3(D0, B0, d, n0, D2, B2, direct, e, need, k, other);
    IndexInKids(D0, d.direct, InDirect(n0), 1);
    IndexInTree(D0, d.indirect, InIndirect(n0), 1);
    IndexInTree(D0, d.doubly, InDoubly(n0), 2);
    IndexInKids(D2, direct, InDirect(need), 1);
    IndexInTree(D2, e, InIndirect(need), 1);
    IndexInTree(D3, f, InDoubly(need), 2);
    GrowLength(D2, B2, U0, J0, D3, B3, U1, M1, l, other);
    FlatSame(D2, D3, direct, InDirect(need));
    OwnedParts(B2, K1 + T1, U0, other);
    OwnedParts(B2, K1, T1, other);
    PrevPart(D2, B2, U0, J0, D3, B3, U1, M1, l, other, e, InIndirect(need), 1);
    EmptyTree(D0, d.doubly, InDoubly(n0), 2);
    StageSizes(n0, need, k, l);
    GrowTwice(D0, B0, Kids(D0, d.direct, InDirect(n0), 1) + Tree(D0, d.indirect, InIndirect(n0), 1), I0, D2, B2, K1 + T1, L1, k,
              U0, J0, D3, B3, U1, M1, l, other);
  }

  lemma StageSizes(n0: nat, need: nat, k: nat, l: nat)
    requires n0 <= need && DIRECT + PTRS < need
    requires k == Total(Min(need, DIRECT + PTRS)) - Total(Min(n0, DIRECT + PTRS))
    requires l == Size(InDoubly(need), 2) - Size(InDoubly(n0), 2)
    ensures k + l == Total(need) - Total(n0)
    ensures k == 0 || InDoubly(n0) == 0
  {}

  // ----- running out of room -----

  lemma FailPlace1(n0: nat, m: nat, F: nat)
    requires n0 <= m && F < InDirect(m) - InDirect(n0)
    ensures !InodeClobbers(n0, m, F) && Total(n0) + F < Total(m)
    ensures !KidsClobbers(InDirect(n0), InDirect(m), 1, F)
  {}

  lemma FailPlace2(n0: nat, m: nat, F: nat, k: nat)
    requires n0 <= m && k == InDirect(m) - InDirect(n0) && k <= F
    requires F - k + Size(InIndirect(n0), 1) < Size(InIndirect(m), 1)
    ensures InodeClobbers(n0, m, F) == Clobbers(InIndirect(n0), InIndirect(m), 1, F - k)
    ensures Total(n0) + F < Total(m)
  {
    assert InDoubly(n0) == 0;
    assert InDirect(m) == DIRECT && (k == 0 || InIndirect(n0) == 0);
    assert Total(n0) + F == DIRECT + Size(InIndirect(n0), 1) + F - k;
  }

  lemma FailPlace3(n0: nat, m: nat, F: nat, k: nat)
    requires n0 <= m && k == Total(Min(m, DIRECT + PTRS)) - Total(Min(n0, DIRECT + PTRS)) && k <= F
    requires F - k + Size(InDoubly(n0), 2) < Size(InDoubly(m), 2)
    ensures InodeClobbers(n0, m, F) == Clobbers(InDoubly(n0), InDoubly(m), 2, F - k)
    ensures Total(n0) + F < Total(m)
  {
    assert DIRECT + PTRS < m;
    StageSizes(n0, m, k, Size(InDoubly(m), 2) - Size(InDoubly(n0), 2));
    assert Total(n0) + F == DIRECT + PTRS + 1 + Size(InDoubly(n0), 2) + F - k;
  }

  lemma FailStage1(D0: Disk, B0: seq<bool>, d: InodeDisk, n0: nat, D1: Disk, B1: seq<bool>, m: nat, other: set<nat>)
    requires n0 <= m && FreeCount(B0) < InDirect(m) - InDirect(n0)
    requires Failed(D0, B0, IndexKids(D0, d.direct, InDirect(n0), 1), D1, B1, InDirect(m) - InDirect(n0),
                    KidsClobbers(InDirect(n0), InDirect(m), 1, FreeCount(B0)), other)
    ensures Total(n0) + FreeCount(B0) < Total(m)
    ensures Failed(D0, B0, IndexSectors(D0, d, n0), D1, B1, Total(m) - Total(n0), InodeClobbers(n0, m, FreeCount(B0)), other)
  {
    hide Tree, Index, Kids, IndexKids, After, TakeFree, InodeClobbers, KidsClobbers, FreeCount;
    FailPlace1(n0, m, FreeCount(B0));
    AfterFull(B0, InDirect(m) - InDirect(n0), Total(m) - Total(n0));
  }

  lemma FailStage2(D0: Disk, B0: seq<bool>, d: InodeDisk, n0: nat, D1: Disk, B1: seq<bool>, direct: seq<Word>,
                   D2: Disk, B2: seq<bool>, m: nat, other: set<nat>)
    requires WfInode(D0, d, n0) && n0 <= m && Owned(B0, AllSectors(D0, d, n0), other)
    requires (forall x :: x in other ==> x < |B0| && B0[x]) && 0 < |B0| && B0[0] && 0 !in other
    requires |direct| == DIRECT && Stage1(D0, B0, d, n0, D1, B1, direct, m, other)
    requires Size(InIndirect(n0), 1) <= Size(InIndirect(m), 1) && InDirect(m) - InDirect(n0) <= FreeCount(B0)
    requires FreeCount(B1) < Size(InIndirect(m), 1) - Size(InIndirect(n0), 1)
    requires Failed(D1, B1, Index(D1, d.indirect, InIndirect(n0), 1), D2, B2, Size(InIndirect(m), 1) - Size(InIndirect(n0), 1),
                    Clobbers(InIndirect(n0), InIndirect(m), 1, FreeCount(B1)), other)
    ensures Total(n0) + FreeCount(B0) < Total(m)
    ensures Failed(D0, B0, IndexSectors(D0, d, n0), D2, B2, Total(m) - Total(n0), InodeClobbers(n0, m, FreeCount(B0)), other)
  {
    hide Tree, Index, Data, Kids, DataKids, IndexKids, WfKids, WfTree, Grow, Owned, After, TakeFree, FreeCount, Failed,
      AllSectors, InodeClobbers, Clobbers, KidsClobbers, WfInode;
    var k, l := InDirect(m) - InDirect(n0), Size(InIndirect(m), 1) - Size(InIndirect(n0), 1);
    AfterStage1(D0, B0, d, n0, D1, B1, direct, m, other);
    TakeAll(B0, k);
    FailPlace2(n0, m, FreeCount(B0), k);
    AfterFull(B0, k + l, Total(m) - Total(n0));
    NotZero(D0, d, n0);
    FailedAfter(D0, B0, Kids(D0, d.direct, InDirect(n0), 1), IndexKids(D0, d.direct, InDirect(n0), 1),
                D1, B1, Kids(D1, direct, InDirect(m), 1), DataKids(D1, direct, InDirect(m), 1), k,
                Index(D1, d.indirect, InIndirect(n0), 1), D2, B2, l,
                InodeClobbers(n0, m, FreeCount(B0)), Total(m) - Total(n0), IndexSectors(D0, d, n0), other);
  }

  lemma NotZero(disk: Disk, d: InodeDisk, n: nat)
    requires WfInode(disk, d, n)
    ensures 0 !in IndexSectors(disk, d, n)
  {
    hide WfInode, AllSectors, IndexSectors, DataSectors;
    InodeRange(disk, d, n);
    InodeParts(disk, d, n);
  }

  lemma FailStage3(D0: Disk, B0: seq<bool>, d: InodeDisk, n0: nat, D2: Disk, B2: seq<bool>, direct: seq<Word>, e: Word,
                   D3: Disk, B3: seq<bool>, m: nat, k: nat, other: set<nat>)
    requires WfInode(D0, d, n0) && Owned(B0, AllSectors(D0, d, n0), other) && n0 <= m
    requires (forall x :: x in other ==> x < |B0| && B0[x]) && 0 < |B0| && B0[0] && 0 !in other
    requires |direct| == DIRECT && Stage2(D0, B0, d, n0, D2, B2, direct, e, m, k, other)
    requires k == Total(Min(m, DIRECT + PTRS)) - Total(Min(n0, DIRECT + PTRS)) && k <= FreeCount(B0)
    requires Size(InDoubly(n0), 2) <= Size(InDoubly(m), 2)
    requires FreeCount(B2) < Size(InDoubly(m), 2) - Size(InDoubly(n0), 2)
    requires Failed(D2, B2, Index(D2, d.doubly, InDoubly(n0), 2), D3, B3, Size(InDoubly(m), 2) - Size(InDoubly(n0), 2),
                    Clobbers(InDoubly(n0), InDoubly(m), 2, FreeCount(B2)), other)
    ensures Total(n0) + FreeCount(B0) < Total(m)
    ensures Failed(D0, B0, IndexSectors(D0, d, n0), D3, B3, Total(m) - Total(n0), InodeClobbers(n0, m, FreeCount(B0)), other)
  {
    hide Tree, Index, Data, Kids, DataKids, IndexKids, WfKids, WfTree, Grow, Owned, After, TakeFree, FreeCount, Failed,
      AllSectors, InodeClobbers, Clobbers, KidsClobbers, WfInode, Total, Size, Min, InDirect, InIndirect, InDoubly;
    var l := Size(InDoubly(m), 2) - Size(InDoubly(n0), 2);
    BeforeStage3(D0, B0, d, n0, D2, B2, direct, e, m, k, other);
    TakeAll(B0, k);
    MinLe(k, FreeCount(B0));
    FailPlace3(n0, m, FreeCount(B0), k);
    AfterFull(B0, k + l, Total(m) - Total(n0));
    NotZero(D0, d, n0);
    FailedAfter(D0, B0, Kids(D0, d.direct, InDirect(n0), 1) + Tree(D0, d.indirect, InIndirect(n0), 1),
                IndexKids(D0, d.direct, InDirect(n0), 1) + Index(D0, d.indirect, InIndirect(n0), 1),
                D2, B2, Kids(D2, direct, InDirect(m), 1) + Tree(D2, e, InIndirect(m), 1),
                DataKids(D2, direct, InDirect(m), 1) + Data(D2, e, InIndirect(m), 1), k,
                Index(D2, d.doubly, InDoubly(n0), 2), D3, B3, l,
                InodeClobbers(n0, m, FreeCount(B0)), Total(m) - Total(n0), IndexSectors(D0, d, n0), other);
  }

  lemma MinLe(a: nat, b: nat)
    requires a <= b
    ensures Min(a, b) == a
  {}
}
