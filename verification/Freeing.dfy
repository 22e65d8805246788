/** Giving sectors back: releasing a subtree clears exactly its sectors, children
    before the block that points to them. */
module Freeing {
  import opened Sectors
  import opened FirstFit
  import opened Layout
  import opened Growth
  import opened Inodes
  import opened Contents
  import opened Bitmaps

  /** The bits of S are clear, no other; what is still marked keeps its contents,
      apart from the free map's own sectors. */
  ghost predicate Freed(D0: Disk, B0: seq<bool>, S: seq<nat>, D1: Disk, B1: seq<bool>, other: set<nat>) {
    B1 == ClearAll(B0, S) && Frame(D0, D1, B1, other)
  }

  lemma FreedNothing(D: Disk, B: seq<bool>, other: set<nat>)
    ensures Freed(D, B, [], D, B, other)
  {
    assert ClearAll(B, []) == B;
  }

  lemma FreedTwice(D0: Disk, B0: seq<bool>, S: seq<nat>, D1: Disk, B1: seq<bool>, T: seq<nat>, D2: Disk, B2: seq<bool>, other: set<nat>)
    requires Freed(D0, B0, S, D1, B1, other) && Freed(D1, B1, T, D2, B2, other)
    ensures Freed(D0, B0, S + T, D2, B2, other)
  {
    assert B2 == ClearAll(B0, S + T);
  }

  // Only the set of sectors counts, not the order they are released in.
  lemma FreedSame(D0: Disk, B0: seq<bool>, S: seq<nat>, T: seq<nat>, D1: Disk, B1: seq<bool>, other: set<nat>)
    requires Freed(D0, B0, S, D1, B1, other) && forall x :: x in S <==> x in T
    ensures Freed(D0, B0, T, D1, B1, other)
  {
    assert ClearAll(B0, S) == ClearAll(B0, T);
  }

  // One sector, as free_map_release clears it.
  lemma OneFreed(B: seq<bool>, s: nat)
    ensures SetRange(B, s, 1, false) == ClearAll(B, [s])
  {}

  // What is released later is untouched so far.
  lemma StillThere(D0: Disk, B0: seq<bool>, S: seq<nat>, D1: Disk, B1: seq<bool>, other: set<nat>, T: seq<nat>)
    requires Freed(D0, B0, S, D1, B1, other) && Owned(B0, S + T, other)
    ensures SameOn(D0, D1, T) && Owned(B1, T, other)
  {
    OwnedParts(B0, S, T, other);
  }

  // The sibling whose turn it is, after the ones before it have been released.
  lemma KidStillThere(D0: Disk, B0: seq<bool>, p: seq<Word>, num: nat, i: nat, D1: Disk, B1: seq<bool>, level: nat, other: set<nat>)
    requires 0 < level <= 2 && i < |p| && WfKids(D0, p, num, level) && Owned(B0, Kids(D0, p, num, level), other)
    requires Freed(D0, B0, Kids(D0, p[..i], Before(num, i, level), level), D1, B1, other)
    ensures WfTree(D1, p[i], Share(num, i, level), level - 1)
    ensures Tree(D1, p[i], Share(num, i, level), level - 1) == Tree(D0, p[i], Share(num, i, level), level - 1)
    ensures Owned(B1, Tree(D1, p[i], Share(num, i, level), level - 1), other)
    ensures Kids(D0, p[..i + 1], Before(num, i + 1, level), level)
         == Kids(D0, p[..i], Before(num, i, level), level) + Tree(D0, p[i], Share(num, i, level), level - 1)
  {
    hide Tree, Kids, WfTree, WfKids, Index, IndexKids, Data, DataKids, Freed, Owned;
    KidsAt(D0, p, num, i, level);
    CapNext(num, i, level);
    var na, nc := Before(num, i, level), Share(num, i, level);
    var K, T, rest := Kids(D0, p[..i], na, level), Tree(D0, p[i], nc, level - 1), Kids(D0, p[i + 1..], num - na - nc, level);
    OwnedParts(B0, K + T, rest, other);
    StillThere(D0, B0, K, D1, B1, other, T);
    IndexInTree(D0, p[i], nc, level - 1);
    TreeFrame(D0, D1, p[i], nc, level - 1);
    KidsSnoc(D0, p[..i], p[i], na, nc, level);
    assert p[..i + 1] == p[..i] + [p[i]];
  }

  // Siblings past the last one with data sectors have no sectors.
  lemma KidsCut(D: Disk, p: seq<Word>, num: nat, i: nat, level: nat)
    requires 0 < level <= 2 && i <= |p| && num <= Cap(i, level)
    ensures Kids(D, p[..i], num, level) == Kids(D, p, num, level)
  {
    hide Kids;
    assert p == p[..i] + p[i..];
    KidsSplit(D, p[..i], p[i..], num, level);
    EmptyKids(D, D, p[i..], level);
  }

  lemma OneReleased(D0: Disk, B0: seq<bool>, s: nat, D1: Disk, B1: seq<bool>, other: set<nat>)
    requires B1 == SetRange(B0, s, 1, false) && Frame(D0, D1, B1, other)
    ensures Freed(D0, B0, [s], D1, B1, other)
  {
    OneFreed(B0, s);
  }

  // An index block is released after its children.
  lemma BlockLast(D: Disk, B: seq<bool>, e: nat, K: seq<nat>, D1: Disk, B1: seq<bool>, other: set<nat>)
    requires Owned(B, [e] + K, other) && Freed(D, B, K, D1, B1, other)
    ensures Owned(B, K, other) && Owned(B1, [e], other)
  {
    OwnedParts(B, [e], K, other);
    assert e in [e];
  }

  lemma BlockFreed(D: Disk, B: seq<bool>, e: nat, K: seq<nat>, D1: Disk, B1: seq<bool>, D2: Disk, B2: seq<bool>, other: set<nat>)
    requires Freed(D, B, K, D1, B1, other) && Freed(D1, B1, [e], D2, B2, other)
    ensures Freed(D, B, [e] + K, D2, B2, other)
  {
    FreedTwice(D, B, K, D1, B1, [e], D2, B2, other);
    FreedSame(D, B, K + [e], [e] + K, D2, B2, other);
  }

  lemma FreedStart(D: Disk, B: seq<bool>, p: seq<Word>, num: nat, level: nat, other: set<nat>)
    requires 0 < level
    ensures Freed(D, B, Kids(D, p[..0], Before(num, 0, level), level), D, B, other)
  {
    FreedNothing(D, B, other);
  }

  // A subtree released after S.
  lemma PartStillThere(D0: Disk, B0: seq<bool>, S: seq<nat>, D1: Disk, B1: seq<bool>, other: set<nat>, e: nat, n: nat, level: nat)
    requires Freed(D0, B0, S, D1, B1, other) && Owned(B0, S + Tree(D0, e, n, level), other)
    ensures Tree(D1, e, n, level) == Tree(D0, e, n, level) && WfTree(D1, e, n, level) == WfTree(D0, e, n, level)
    ensures Owned(B1, Tree(D1, e, n, level), other)
  {
    hide Tree, WfTree, Index, Data, Freed, Owned;
    StillThere(D0, B0, S, D1, B1, other, Tree(D0, e, n, level));
    IndexInTree(D0, e, n, level);
    TreeFrame(D0, D1, e, n, level);
  }

  // The three parts of an inode, each owned with what comes before it.
  lemma ThreeOwned(D: Disk, B: seq<bool>, d: InodeDisk, n: nat, other: set<nat>)
    requires WfInode(D, d, n) && Owned(B, AllSectors(D, d, n), other)
    ensures var K, T, U := Kids(D, d.direct, InDirect(n), 1), Tree(D, d.indirect, InIndirect(n), 1), Tree(D, d.doubly, InDoubly(n), 2);
            AllSectors(D, d, n) == K + T + U && Owned(B, K, other) && Owned(B, K + T, other) && Owned(B, K + T + U, other)
    ensures n <= MAX_SECTORS
    ensures InIndirect(n) == 0 ==> Tree(D, d.indirect, InIndirect(n), 1) == []
    ensures InDoubly(n) == 0 ==> Tree(D, d.doubly, InDoubly(n), 2) == []
  {
    InodeSize(D, d, n);
    EmptyTree(D, d.indirect, InIndirect(n), 1);
    EmptyTree(D, d.doubly, InDoubly(n), 2);
    hide Tree, WfTree, Kids, WfKids, Owned;
    var K, T, U := Kids(D, d.direct, InDirect(n), 1), Tree(D, d.indirect, InIndirect(n), 1), Tree(D, d.doubly, InDoubly(n), 2);
    OwnedParts(B, K + T, U, other);
    OwnedParts(B, K, T, other);
  }
}
