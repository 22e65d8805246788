/** Where each data sector sits: among the sectors in allocation order, and
    behind which pointers. */
module Positions {
  import opened Sectors
  import opened FirstFit
  import opened Layout
  import opened Growth
  import opened Inodes

  // ----- siblings that are data sectors -----

  lemma {:induction false} FlatKids(disk: Disk, ptrs: seq<Word>, n: nat)
    requires n <= |ptrs|
    ensures DataKids(disk, ptrs, n, 1) == ptrs[..n] == Kids(disk, ptrs, n, 1)
    ensures IndexKids(disk, ptrs, n, 1) == []
    decreases |ptrs|
  {
    if |ptrs| > 0 {
      FlatKids(disk, ptrs[1..], n - Min(n, 1));
      if n > 0 {
        assert ptrs[..n] == [ptrs[0]] + ptrs[1..][..n - 1];
      }
    }
  }

  // ----- siblings that are blocks of data pointers -----

  // The first block of several and the others.
  lemma FirstChild(disk: Disk, ptrs: seq<Word>, n: nat)
    requires WfKids(disk, ptrs, n, 2) && 0 < n
    ensures var m := Min(n, PTRS);
            && ptrs != [] && WfTree(disk, ptrs[0], m, 1) && WfKids(disk, ptrs[1..], n - m, 2)
            && DataKids(disk, ptrs, n, 2) == Data(disk, ptrs[0], m, 1) + DataKids(disk, ptrs[1..], n - m, 2)
            && Kids(disk, ptrs, n, 2) == Tree(disk, ptrs[0], m, 1) + Kids(disk, ptrs[1..], n - m, 2)
  {
    hide WfTree, Data, Tree;
  }

  lemma NextBlock(i: nat)
    requires i >= PTRS
    ensures (i - PTRS) / PTRS == i / PTRS - 1 && (i - PTRS) % PTRS == i % PTRS && i / PTRS >= 1
    ensures SizeKids(i + 1, 2) == SizeKids(i - PTRS + 1, 2) + PTRS + 1
  {}

  lemma {:induction false} DeepKids(disk: Disk, ptrs: seq<Word>, n: nat, i: nat)
    requires WfKids(disk, ptrs, n, 2) && i < n
    ensures |DataKids(disk, ptrs, n, 2)| == n
    ensures i / PTRS < |ptrs| && 0 < ptrs[i / PTRS] < |disk|
    ensures DataKids(disk, ptrs, n, 2)[i] == Ptrs(disk, ptrs[i / PTRS])[i % PTRS]
    decreases |ptrs|
  {
    hide WfTree, Data, WfKids, DataKids, Kids, Tree, Ptrs, SizeKids;
    KidsSize(disk, ptrs, n, 2);
    FirstChild(disk, ptrs, n);
    var m := Min(n, PTRS);
    ChildBlock(disk, ptrs[0], m);
    if i >= PTRS {
      NextBlock(i);
      DeepKids(disk, ptrs[1..], n - m, i - PTRS);
      assert ptrs[1..][i / PTRS - 1] == ptrs[i / PTRS];
    }
  }

  lemma {:induction false} DeepPlace(disk: Disk, ptrs: seq<Word>, n: nat, i: nat)
    requires WfKids(disk, ptrs, n, 2) && i < n
    ensures |DataKids(disk, ptrs, n, 2)| == n && |Kids(disk, ptrs, n, 2)| == SizeKids(n, 2)
    ensures 0 < SizeKids(i + 1, 2) <= SizeKids(n, 2)
    ensures DataKids(disk, ptrs, n, 2)[i] == Kids(disk, ptrs, n, 2)[SizeKids(i + 1, 2) - 1]
    decreases |ptrs|
  {
    hide WfTree, Data, WfKids, DataKids, Kids, Tree, Ptrs;
    KidsSize(disk, ptrs, n, 2);
    FirstChild(disk, ptrs, n);
    var m := Min(n, PTRS);
    ChildBlock(disk, ptrs[0], m);
    if i >= PTRS {
      NextBlock(i);
      DeepPlace(disk, ptrs[1..], n - m, i - PTRS);
    } else {
      assert SizeKids(i + 1, 2) == i + 2;
    }
  }

  lemma ChildBlock(disk: Disk, e: nat, m: nat)
    requires WfTree(disk, e, m, 1) && 0 < m
    ensures m <= PTRS && 0 < e < |disk|
    ensures Data(disk, e, m, 1) == Ptrs(disk, e)[..m]
    ensures Tree(disk, e, m, 1) == [e] + Ptrs(disk, e)[..m]
  {
    TreeSize(disk, e, m, 1);
    FlatKids(disk, Ptrs(disk, e), m);
  }

  // ----- inside an inode -----

  lemma ThreeParts(disk: Disk, d: InodeDisk, n: nat)
    requires WfInode(disk, d, n)
    ensures DataKids(disk, d.direct, InDirect(n), 1) == d.direct[..InDirect(n)] == Kids(disk, d.direct, InDirect(n), 1)
    ensures |Data(disk, d.indirect, InIndirect(n), 1)| == InIndirect(n)
    ensures |Tree(disk, d.indirect, InIndirect(n), 1)| == Size(InIndirect(n), 1)
    ensures |Data(disk, d.doubly, InDoubly(n), 2)| == InDoubly(n)
  {
    hide Tree, Data, WfTree;
    FlatKids(disk, d.direct, InDirect(n));
    TreeSize(disk, d.indirect, InIndirect(n), 1);
    TreeSize(disk, d.doubly, InDoubly(n), 2);
  }

  // Pointer number J behind a block of blocks is in this block.
  function Child(disk: Disk, e: nat, j: nat): nat {
    if j / PTRS < PTRS then Ptrs(disk, e)[j / PTRS] else 0
  }

  // Following the pointers for data sector I leads to sector S.
  ghost predicate Leads(disk: Disk, d: InodeDisk, i: nat, s: nat) {
    && |d.direct| == DIRECT && i < MAX_SECTORS && 0 < s < |disk|
    && if i < DIRECT then s == d.direct[i]
       else if i < DIRECT + PTRS then d.indirect < |disk| && s == Ptrs(disk, d.indirect)[i - DIRECT]
       else
         var j := i - DIRECT - PTRS;
         && d.doubly < |disk| && Child(disk, d.doubly, j) < |disk|
         && s == Ptrs(disk, Child(disk, d.doubly, j))[j % PTRS]
  }

  /** Data sector I is found behind a direct pointer, one block or two. */
  lemma BehindPointers(disk: Disk, d: InodeDisk, n: nat, i: nat)
    requires WfInode(disk, d, n) && i < n
    ensures |DataSectors(disk, d, n)| == n <= MAX_SECTORS
    ensures Leads(disk, d, i, DataSectors(disk, d, n)[i])
  {
    hide Tree, Data, WfTree, WfKids, DataKids, Kids, Ptrs, Child;
    InRange(disk, d, n, i);
    InodeSize(disk, d, n);
    ThreeParts(disk, d, n);
    InParts(DataKids(disk, d.direct, InDirect(n), 1), Data(disk, d.indirect, InIndirect(n), 1), Data(disk, d.doubly, InDoubly(n), 2), i);
    if DIRECT <= i < DIRECT + PTRS {
      ChildBlock(disk, d.indirect, InIndirect(n));
    } else if DIRECT + PTRS <= i {
      DoublyBlock(disk, d.doubly, InDoubly(n), i - DIRECT - PTRS);
    }
  }

  lemma DoublyBlock(disk: Disk, e: nat, n: nat, j: nat)
    requires WfTree(disk, e, n, 2) && j < n
    ensures 0 < e < |disk| && n <= PTRS * PTRS && j / PTRS < PTRS && Child(disk, e, j) < |disk|
    ensures |Data(disk, e, n, 2)| == n && |Tree(disk, e, n, 2)| == Size(n, 2) && SizeKids(j + 1, 2) < Size(n, 2)
    ensures Data(disk, e, n, 2)[j] == Ptrs(disk, Child(disk, e, j))[j % PTRS]
    ensures Data(disk, e, n, 2)[j] == Tree(disk, e, n, 2)[SizeKids(j + 1, 2)]
  {
    hide WfKids, Kids, DataKids, Ptrs, SizeKids;
    TreeSize(disk, e, n, 2);
    DeepKids(disk, Ptrs(disk, e), n, j);
    DeepPlace(disk, Ptrs(disk, e), n, j);
  }

  /** In allocation order data sector I is number Total(I + 1), counting from one. */
  lemma PlaceOf(disk: Disk, d: InodeDisk, n: nat, i: nat)
    requires WfInode(disk, d, n) && i < n
    ensures |DataSectors(disk, d, n)| == n && |AllSectors(disk, d, n)| == Total(n)
    ensures 0 < Total(i + 1) <= Total(n)
    ensures DataSectors(disk, d, n)[i] == AllSectors(disk, d, n)[Total(i + 1) - 1]
  {
    hide Tree, Data, Kids, DataKids, WfTree, WfKids, Ptrs, SizeKids, Total;
    InodeSize(disk, d, n);
    ThreeParts(disk, d, n);
    PlaceTotal(n, i);
    var K, T, U := Kids(disk, d.direct, InDirect(n), 1), Tree(disk, d.indirect, InIndirect(n), 1), Tree(disk, d.doubly, InDoubly(n), 2);
    var L, M, N := DataKids(disk, d.direct, InDirect(n), 1), Data(disk, d.indirect, InIndirect(n), 1), Data(disk, d.doubly, InDoubly(n), 2);
    OneBlock(n);
    if i < DIRECT {
      InParts(K, T, U, i);
      InParts(L, M, N, i);
    } else if i < DIRECT + PTRS {
      ChildBlock(disk, d.indirect, InIndirect(n));
      InParts(K, T, U, i + 1);
      InParts(L, M, N, i);
    } else {
      var j := i - DIRECT - PTRS;
      DoublyBlock(disk, d.doubly, InDoubly(n), j);
      InParts(K, T, U, DIRECT + PTRS + 1 + SizeKids(j + 1, 2));
      InParts(L, M, N, i);
    }
  }

  lemma OneBlock(n: nat)
    ensures DIRECT + PTRS <= n ==> Size(InIndirect(n), 1) == PTRS + 1
    ensures DIRECT < n ==> Size(InIndirect(n), 1) == InIndirect(n) + 1
  {}

  lemma InParts<T>(a: seq<T>, b: seq<T>, c: seq<T>, i: nat)
    requires i < |a| + |b| + |c|
    ensures (a + b + c)[i] == if i < |a| then a[i] else if i < |a| + |b| then b[i - |a|] else c[i - |a| - |b|]
  {}

  lemma PlaceTotal(n: nat, i: nat)
    requires i < n
    ensures 0 < Total(i + 1) <= Total(n)
    ensures Total(i + 1) - 1 == if i < DIRECT then i else if i < DIRECT + PTRS then i + 1
                                else DIRECT + PTRS + 1 + SizeKids(i - DIRECT - PTRS + 1, 2)
  {}

  // The count in closed form: nothing, one block, or two and one per 128.
  lemma TotalClosed(n: nat)
    ensures Total(n) == if n <= DIRECT then n
                        else if n <= DIRECT + PTRS then n + 1
                        else n + 2 + DivRoundUp(n - DIRECT - PTRS, PTRS)
  {}

  lemma TotalGrows(m: nat, n: nat)
    requires m <= n
    ensures Total(m) <= Total(n) && Total(n) - Total(m) >= n - m
  {}

  // Data sector I of the longer inode is new exactly if I is.
  lemma SplitAtOld(m: nat, n: nat, i: nat)
    requires i < n
    ensures i < m ==> Total(i + 1) <= Total(m)
    ensures i >= m ==> Total(i + 1) > Total(m)
  {}

  lemma InRange(disk: Disk, d: InodeDisk, n: nat, i: nat)
    requires WfInode(disk, d, n) && i < n
    ensures |DataSectors(disk, d, n)| == n && 0 < DataSectors(disk, d, n)[i] < |disk|
  {
    hide WfInode, DataSectors, AllSectors;
    InodeSize(disk, d, n);
    InodeParts(disk, d, n);
    InodeRange(disk, d, n);
    assert DataSectors(disk, d, n)[i] in DataSectors(disk, d, n);
  }

  /** The data sectors are found by their pointers: all that reading asks for. */
  ghost predicate Routed(disk: Disk, d: InodeDisk, n: nat) {
    && |d.direct| == DIRECT && n <= MAX_SECTORS && |DataSectors(disk, d, n)| == n
    && forall i :: 0 <= i < n ==> Leads(disk, d, i, DataSectors(disk, d, n)[i])
  }

  lemma WfRouted(disk: Disk, d: InodeDisk, n: nat)
    requires WfInode(disk, d, n)
    ensures Routed(disk, d, n)
  {
    assert |d.direct| == DIRECT;
    hide WfInode, DataSectors;
    InodeSize(disk, d, n);
    forall i | 0 <= i < n
      ensures Leads(disk, d, i, DataSectors(disk, d, n)[i])
    {
      BehindPointers(disk, d, n, i);
    }
  }

  lemma InBlock(i: nat, k: nat)
    requires k < PTRS
    ensures (PTRS * i + k) / PTRS == i && (PTRS * i + k) % PTRS == k
  {}

  // The pointers to every data sector, as the list is built.
  lemma AllRoutes(disk: Disk, d: InodeDisk, n: nat, data: seq<nat>)
    requires Routed(disk, d, n) && data == DataSectors(disk, d, n)
    ensures |data| == n == InDirect(n) + InIndirect(n) + InDoubly(n) <= MAX_SECTORS && |d.direct| == DIRECT
    ensures forall i :: 0 <= i < InDirect(n) ==> data[0 + i] == d.direct[i]
    ensures InIndirect(n) > 0 ==> d.indirect < |disk|
    ensures forall i :: 0 <= i < InIndirect(n) ==> data[DIRECT + i] == Words(disk[d.indirect])[i]
    ensures InDoubly(n) > 0 ==> d.doubly < |disk|
    ensures forall i :: 0 <= i < InDoubly(n) ==>
              && Words(disk[d.doubly])[i / PTRS] < |disk|
              && data[DIRECT + PTRS + i] == Words(disk[Words(disk[d.doubly])[i / PTRS]])[i % PTRS]
  {
    hide DataSectors, Words;
    assert n > DIRECT ==> Leads(disk, d, DIRECT, data[DIRECT]);
    assert n > DIRECT + PTRS ==> Leads(disk, d, DIRECT + PTRS, data[DIRECT + PTRS]);
    forall i | 0 <= i < InDirect(n)
      ensures data[0 + i] == d.direct[i]
    {
      assert Leads(disk, d, i, data[i]);
    }
    forall i | 0 <= i < InIndirect(n)
      ensures data[DIRECT + i] == Words(disk[d.indirect])[i]
    {
      assert Leads(disk, d, DIRECT + i, data[DIRECT + i]);
    }
    forall i | 0 <= i < InDoubly(n)
      ensures Words(disk[d.doubly])[i / PTRS] < |disk|
      ensures data[DIRECT + PTRS + i] == Words(disk[Words(disk[d.doubly])[i / PTRS]])[i % PTRS]
    {
      assert Leads(disk, d, DIRECT + PTRS + i, data[DIRECT + PTRS + i]);
    }
  }

  // The blocks on the way are index blocks.
  lemma {:induction false} DeepIndex(disk: Disk, ptrs: seq<Word>, n: nat, i: nat)
    requires WfKids(disk, ptrs, n, 2) && i < n
    ensures i / PTRS < |ptrs| && ptrs[i / PTRS] in IndexKids(disk, ptrs, n, 2)
    decreases |ptrs|
  {
    hide WfTree, Data, WfKids, DataKids, Kids, Tree, Ptrs, SizeKids;
    FirstChild(disk, ptrs, n);
    var m := Min(n, PTRS);
    if i >= PTRS {
      NextBlock(i);
      DeepIndex(disk, ptrs[1..], n - m, i - PTRS);
      assert ptrs[1..][i / PTRS - 1] == ptrs[i / PTRS];
    }
  }

  lemma OnTheWay(disk: Disk, d: InodeDisk, n: nat, i: nat)
    requires WfInode(disk, d, n) && i < n
    ensures DIRECT <= i < DIRECT + PTRS ==> d.indirect in IndexSectors(disk, d, n)
    ensures DIRECT + PTRS <= i ==>
              && d.doubly in IndexSectors(disk, d, n) && (i - DIRECT - PTRS) / PTRS < PTRS
              && Child(disk, d.doubly, i - DIRECT - PTRS) in IndexSectors(disk, d, n)
  {
    hide WfKids, IndexKids, Ptrs;
    InodeSize(disk, d, n);
    if DIRECT <= i < DIRECT + PTRS {
      assert d.indirect in Index(disk, d.indirect, InIndirect(n), 1);
    } else if DIRECT + PTRS <= i {
      DeepIndex(disk, Ptrs(disk, d.doubly), InDoubly(n), i - DIRECT - PTRS);
      assert d.doubly in Index(disk, d.doubly, InDoubly(n), 2);
      assert Child(disk, d.doubly, i - DIRECT - PTRS) in Index(disk, d.doubly, InDoubly(n), 2);
    }
  }
}
