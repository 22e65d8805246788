/** The pointer tree of an inode, as the sectors hold it.

    A subtree is given by a pointer ENTRY, the number N of data sectors mapped
    below it and its LEVEL: a data sector at level 0, a block of 128 data
    pointers at level 1, a block of 128 level-1 pointers at level 2.  N == 0
    means the pointer is 0, the code's mark for "not allocated".

    Tree lists every sector of the subtree, each index block before what it
    points to; Data lists the data sectors in file order, Index the index
    blocks.  The *Kids versions are about a run of sibling pointers. */
module Layout {
  import opened Sectors
  import opened FirstFit

  const DIRECT := 123
  const PTRS := WORDS_PER_SECTOR
  const MAX_SECTORS := DIRECT + PTRS + PTRS * PTRS

  // Data sectors below one pointer held by a block of level LEVEL.
  function Unit(level: nat): nat {
    if level <= 1 then 1 else PTRS
  }

  // Data sectors below LEN such pointers.
  function Cap(len: nat, level: nat): nat {
    if level <= 1 then len else PTRS * len
  }

  // Data sectors below a pointer to a subtree of level LEVEL.
  function Span(level: nat): nat {
    if level == 0 then 1 else Cap(PTRS, level)
  }

  function Ptrs(disk: Disk, s: nat): (ws: seq<Word>)
    ensures |ws| == PTRS
  {
    if s < |disk| then Words(disk[s]) else NoWords()
  }

  ghost predicate WfTree(disk: Disk, entry: nat, n: nat, level: nat)
    decreases level, 1, 0
  {
    if n == 0 then entry == 0
    else
      && 0 < entry < |disk|
      && if level == 0 then n == 1 else WfKids(disk, Ptrs(disk, entry), n, level)
  }

  ghost predicate WfKids(disk: Disk, ptrs: seq<Word>, n: nat, level: nat)
    requires level > 0
    decreases level, 0, |ptrs|
  {
    if |ptrs| == 0 then n == 0
    else
      var m := Min(n, Unit(level));
      WfTree(disk, ptrs[0], m, level - 1) && WfKids(disk, ptrs[1..], n - m, level)
  }

  ghost function Tree(disk: Disk, entry: nat, n: nat, level: nat): seq<nat>
    decreases level, 1, 0
  {
    if n == 0 then []
    else if level == 0 then [entry]
    else [entry] + Kids(disk, Ptrs(disk, entry), n, level)
  }

  ghost function Kids(disk: Disk, ptrs: seq<Word>, n: nat, level: nat): seq<nat>
    requires level > 0
    decreases level, 0, |ptrs|
  {
    if |ptrs| == 0 then []
    else
      var m := Min(n, Unit(level));
      Tree(disk, ptrs[0], m, level - 1) + Kids(disk, ptrs[1..], n - m, level)
  }

  ghost function Data(disk: Disk, entry: nat, n: nat, level: nat): seq<nat>
    decreases level, 1, 0
  {
    if n == 0 then []
    else if level == 0 then [entry]
    else DataKids(disk, Ptrs(disk, entry), n, level)
  }

  ghost function DataKids(disk: Disk, ptrs: seq<Word>, n: nat, level: nat): seq<nat>
    requires level > 0
    decreases level, 0, |ptrs|
  {
    if |ptrs| == 0 then []
    else
      var m := Min(n, Unit(level));
      Data(disk, ptrs[0], m, level - 1) + DataKids(disk, ptrs[1..], n - m, level)
  }

  ghost function Index(disk: Disk, entry: nat, n: nat, level: nat): seq<nat>
    decreases level, 1, 0
  {
    if n == 0 || level == 0 then []
    else [entry] + IndexKids(disk, Ptrs(disk, entry), n, level)
  }

  ghost function IndexKids(disk: Disk, ptrs: seq<Word>, n: nat, level: nat): seq<nat>
    requires level > 0
    decreases level, 0, |ptrs|
  {
    if |ptrs| == 0 then []
    else
      var m := Min(n, Unit(level));
      Index(disk, ptrs[0], m, level - 1) + IndexKids(disk, ptrs[1..], n - m, level)
  }

  // Number of sectors of a subtree, and of N data sectors' worth of siblings.
  function Size(n: nat, level: nat): nat {
    if n == 0 then 0 else if level == 0 then 1 else 1 + SizeKids(n, level)
  }

  function SizeKids(n: nat, level: nat): nat {
    if level <= 1 then n else n + DivRoundUp(n, PTRS)
  }

  // ----- siblings A followed by siblings B -----

  // The first pointer's share is cut off the same way before and after the split.
  lemma CutShare(n: nat, len: nat, level: nat)
    requires len > 0 && level > 0
    ensures var m := Min(n, Cap(len, level)); var u := Min(n, Unit(level));
            Min(m, Unit(level)) == u && m - u == Min(n - u, Cap(len - 1, level)) && n - u - (m - u) == n - m
  {}

  lemma {:induction false} KidsSplit(disk: Disk, a: seq<Word>, b: seq<Word>, n: nat, level: nat)
    requires level > 0
    ensures var m := Min(n, Cap(|a|, level));
            Kids(disk, a + b, n, level) == Kids(disk, a, m, level) + Kids(disk, b, n - m, level)
    decreases |a|
  {
    hide Tree;
    if |a| == 0 {
      assert a + b == b;
    } else {
      CutShare(n, |a|, level);
      assert (a + b)[1..] == a[1..] + b;
      KidsSplit(disk, a[1..], b, n - Min(n, Unit(level)), level);
    }
  }

  lemma {:induction false} DataSplit(disk: Disk, a: seq<Word>, b: seq<Word>, n: nat, level: nat)
    requires level > 0
    ensures var m := Min(n, Cap(|a|, level));
            DataKids(disk, a + b, n, level) == DataKids(disk, a, m, level) + DataKids(disk, b, n - m, level)
    decreases |a|
  {
    hide Data;
    if |a| == 0 {
      assert a + b == b;
    } else {
      CutShare(n, |a|, level);
      assert (a + b)[1..] == a[1..] + b;
      DataSplit(disk, a[1..], b, n - Min(n, Unit(level)), level);
    }
  }

  lemma {:induction false} IndexSplit(disk: Disk, a: seq<Word>, b: seq<Word>, n: nat, level: nat)
    requires level > 0
    ensures var m := Min(n, Cap(|a|, level));
            IndexKids(disk, a + b, n, level) == IndexKids(disk, a, m, level) + IndexKids(disk, b, n - m, level)
    decreases |a|
  {
    hide Index;
    if |a| == 0 {
      assert a + b == b;
    } else {
      CutShare(n, |a|, level);
      assert (a + b)[1..] == a[1..] + b;
      IndexSplit(disk, a[1..], b, n - Min(n, Unit(level)), level);
    }
  }

  lemma {:induction false} WfSplit(disk: Disk, a: seq<Word>, b: seq<Word>, n: nat, level: nat)
    requires level > 0
    ensures var m := Min(n, Cap(|a|, level));
            WfKids(disk, a + b, n, level) <==> WfKids(disk, a, m, level) && WfKids(disk, b, n - m, level)
    decreases |a|
  {
    hide WfTree;
    if |a| == 0 {
      assert a + b == b;
    } else {
      CutShare(n, |a|, level);
      assert (a + b)[1..] == a[1..] + b;
      WfSplit(disk, a[1..], b, n - Min(n, Unit(level)), level);
    }
  }

  // ----- only the index blocks determine the tree -----

  ghost predicate SameOn(disk: Disk, disk': Disk, s: seq<nat>) {
    |disk'| == |disk| && forall x :: x in s && x < |disk| ==> disk'[x] == disk[x]
  }

  lemma {:induction false} TreeFrame(disk: Disk, disk': Disk, entry: nat, n: nat, level: nat)
    requires SameOn(disk, disk', Index(disk, entry, n, level))
    ensures Tree(disk', entry, n, level) == Tree(disk, entry, n, level)
    ensures Data(disk', entry, n, level) == Data(disk, entry, n, level)
    ensures Index(disk', entry, n, level) == Index(disk, entry, n, level)
    ensures WfTree(disk', entry, n, level) == WfTree(disk, entry, n, level)
    decreases level, 1, 0
  {
    hide Kids, DataKids, IndexKids, WfKids;
    if n > 0 && level > 0 {
      KidsFrame(disk, disk', Ptrs(disk, entry), n, level);
    }
  }

  lemma {:induction false} KidsFrame(disk: Disk, disk': Disk, ptrs: seq<Word>, n: nat, level: nat)
    requires level > 0
    requires SameOn(disk, disk', IndexKids(disk, ptrs, n, level))
    ensures Kids(disk', ptrs, n, level) == Kids(disk, ptrs, n, level)
    ensures DataKids(disk', ptrs, n, level) == DataKids(disk, ptrs, n, level)
    ensures IndexKids(disk', ptrs, n, level) == IndexKids(disk, ptrs, n, level)
    ensures WfKids(disk', ptrs, n, level) == WfKids(disk, ptrs, n, level)
    decreases level, 0, |ptrs|
  {
    hide Tree, Data, Index, WfTree;
    if |ptrs| > 0 {
      var m := Min(n, Unit(level));
      TreeFrame(disk, disk', ptrs[0], m, level - 1);
      KidsFrame(disk, disk', ptrs[1..], n - m, level);
    }
  }

  // ----- a tree is its data sectors plus its index blocks -----

  lemma {:induction false} TreeParts(disk: Disk, entry: nat, n: nat, level: nat)
    ensures multiset(Tree(disk, entry, n, level))
         == multiset(Data(disk, entry, n, level)) + multiset(Index(disk, entry, n, level))
    decreases level, 1, 0
  {
    hide Kids, DataKids, IndexKids;
    if n > 0 && level > 0 {
      KidsParts(disk, Ptrs(disk, entry), n, level);
    }
  }

  lemma {:induction false} KidsParts(disk: Disk, ptrs: seq<Word>, n: nat, level: nat)
    requires level > 0
    ensures multiset(Kids(disk, ptrs, n, level))
         == multiset(DataKids(disk, ptrs, n, level)) + multiset(IndexKids(disk, ptrs, n, level))
    decreases level, 0, |ptrs|
  {
    hide Tree, Data, Index;
    if |ptrs| > 0 {
      var m := Min(n, Unit(level));
      TreeParts(disk, ptrs[0], m, level - 1);
      KidsParts(disk, ptrs[1..], n - m, level);
    }
  }

  // ----- how many -----

  lemma {:induction false} TreeSize(disk: Disk, entry: nat, n: nat, level: nat)
    requires WfTree(disk, entry, n, level) && level <= 2
    ensures n <= Span(level)
    ensures |Data(disk, entry, n, level)| == n
    ensures |Tree(disk, entry, n, level)| == Size(n, level)
    decreases level, 1, 0
  {
    hide Kids, DataKids, WfKids;
    if n > 0 && level > 0 {
      KidsSize(disk, Ptrs(disk, entry), n, level);
    }
  }

  lemma {:induction false} KidsSize(disk: Disk, ptrs: seq<Word>, n: nat, level: nat)
    requires 0 < level <= 2 && WfKids(disk, ptrs, n, level)
    ensures n <= Cap(|ptrs|, level)
    ensures |DataKids(disk, ptrs, n, level)| == n
    ensures |Kids(disk, ptrs, n, level)| == SizeKids(n, level)
    decreases level, 0, |ptrs|
  {
    hide Tree, Data, Index, WfTree;
    if |ptrs| > 0 {
      var m := Min(n, Unit(level));
      TreeSize(disk, ptrs[0], m, level - 1);
      KidsSize(disk, ptrs[1..], n - m, level);
    }
  }

  // ----- every sector of a tree is a real one, and not sector 0 -----

  lemma {:induction false} TreeRange(disk: Disk, entry: nat, n: nat, level: nat)
    requires WfTree(disk, entry, n, level)
    ensures forall x :: x in Tree(disk, entry, n, level) ==> 0 < x < |disk|
    decreases level, 1, 0
  {
    hide Kids, WfKids;
    if n > 0 && level > 0 {
      KidsRange(disk, Ptrs(disk, entry), n, level);
    }
  }

  lemma {:induction false} KidsRange(disk: Disk, ptrs: seq<Word>, n: nat, level: nat)
    requires level > 0 && WfKids(disk, ptrs, n, level)
    ensures forall x :: x in Kids(disk, ptrs, n, level) ==> 0 < x < |disk|
    decreases level, 0, |ptrs|
  {
    hide Tree, WfTree;
    if |ptrs| > 0 {
      var m := Min(n, Unit(level));
      TreeRange(disk, ptrs[0], m, level - 1);
      KidsRange(disk, ptrs[1..], n - m, level);
    }
  }
}
