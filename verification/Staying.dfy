/** What a reservation leaves alone even if it fails: it never replaces a pointer,
    so the data sectors an inode had are found where they were. */
module Staying {
  import opened Sequences
  import opened Sectors
  import opened FirstFit
  import opened Layout
  import opened Growth
  import opened Inodes
  import opened Positions

  // Pointers in Q are those of P, except where P had none.
  ghost predicate Keeps(p: seq<Word>, q: seq<Word>) {
    |q| == |p| && forall k :: 0 <= k < |p| && p[k] != 0 ==> q[k] == p[k]
  }

  ghost predicate MoreMarks(B0: seq<bool>, B1: seq<bool>) {
    |B1| == |B0| && forall i :: 0 <= i < |B0| && B0[i] ==> B1[i]
  }

  /** From (D0, B0) to (D1, B1) no sector has been released, and no sector in use,
      seen as a block of pointers, has lost or changed one.  Sector 0 and the
      sectors in OTHER are not meant. */
  ghost predicate Stays(D0: Disk, B0: seq<bool>, D1: Disk, B1: seq<bool>, other: set<nat>) {
    && |D1| == |D0| && MoreMarks(B0, B1)
    && forall x :: 0 < x < |D0| && (x < |B0| ==> B0[x]) && x !in other ==> Keeps(Ptrs(D0, x), Ptrs(D1, x))
  }

  lemma KeepsTrans(p: seq<Word>, q: seq<Word>, r: seq<Word>)
    requires Keeps(p, q) && Keeps(q, r)
    ensures Keeps(p, r)
  {}

  lemma StaysSelf(D: Disk, B: seq<bool>, other: set<nat>)
    ensures Stays(D, B, D, B, other)
  {}

  lemma StaysTrans(D0: Disk, B0: seq<bool>, D1: Disk, B1: seq<bool>, D2: Disk, B2: seq<bool>, other: set<nat>)
    requires Stays(D0, B0, D1, B1, other) && Stays(D1, B1, D2, B2, other)
    ensures Stays(D0, B0, D2, B2, other)
  {
    hide Ptrs, Keeps;
    forall x | 0 < x < |D0| && (x < |B0| ==> B0[x]) && x !in other
      ensures Keeps(Ptrs(D0, x), Ptrs(D2, x))
    {
      KeepsTrans(Ptrs(D0, x), Ptrs(D1, x), Ptrs(D2, x));
    }
  }

  // An allocation.
  lemma StaysAllocated(D0: Disk, B0: seq<bool>, D1: Disk, B1: seq<bool>, k: nat, other: set<nat>)
    requires B1 == After(B0, k) && Frame(D0, D1, B0, other)
    ensures Stays(D0, B0, D1, B1, other)
  {
    hide After, TakeFree, Words;
    TakeMarks(B0, k);
  }

  // A sector that was not in use, or sector 0, is written.
  lemma StaysFresh(D0: Disk, B0: seq<bool>, D1: Disk, B1: seq<bool>, s: nat, x: Sector, other: set<nat>)
    requires Stays(D0, B0, D1, B1, other) && s < |D1| && (s == 0 || (s < |B0| && !B0[s]))
    ensures Stays(D0, B0, D1[s := x], B1, other)
  {
    hide Words, Keeps;
  }

  // A block of pointers is written back.
  lemma StaysBlock(D0: Disk, B0: seq<bool>, D1: Disk, B1: seq<bool>, e: nat, p: seq<Word>, other: set<nat>)
    requires Stays(D0, B0, D1, B1, other) && e < |D1| && |p| == PTRS && Keeps(Ptrs(D0, e), p)
    ensures Stays(D0, B0, D1[e := FromWords(p)], B1, other)
  {
    hide Words, Keeps, FromWords;
    WordsRoundTrip(p);
  }

  // An index block, old or new, is written back with pointers Q for P.
  lemma StaysWrittenBack(D0: Disk, B0: seq<bool>, entry: nat, D1: Disk, B1: seq<bool>, e: nat, p: seq<Word>, q: seq<Word>, other: set<nat>)
    requires Stays(D0, B0, D1, B1, other) && e < |D1| && |p| == |q| == PTRS && Keeps(p, q)
    requires if entry != 0 then e == entry && p == Ptrs(D0, e) else e == 0 || (e < |B0| && !B0[e])
    ensures Stays(D0, B0, D1[e := FromWords(q)], B1, other)
  {
    hide Stays, Keeps, FromWords, Ptrs;
    if entry != 0 {
      StaysBlock(D0, B0, D1, B1, e, q, other);
    } else {
      StaysFresh(D0, B0, D1, B1, e, FromWords(q), other);
    }
  }

  // ----- pointers in memory -----

  // Pointer F is E, or it is new where E was none: its sector was free and is taken now.
  ghost predicate Gains(e: nat, f: nat, B0: seq<bool>, B1: seq<bool>) {
    f == e || (e == 0 && f < |B0| && f < |B1| && !B0[f] && B1[f])
  }

  ghost predicate AllGain(p: seq<Word>, q: seq<Word>, B0: seq<bool>, B1: seq<bool>) {
    |q| == |p| && forall k :: 0 <= k < |p| ==> Gains(p[k], q[k], B0, B1)
  }

  lemma GainsLater(D1: Disk, B1: seq<bool>, D2: Disk, B2: seq<bool>, other: set<nat>, e: nat, f: nat, B0: seq<bool>)
    requires Stays(D1, B1, D2, B2, other) && Gains(e, f, B0, B1)
    ensures Gains(e, f, B0, B2)
  {}

  lemma AllGainSelf(p: seq<Word>, B: seq<bool>)
    ensures AllGain(p, p, B, B)
  {}

  lemma AllGainKeeps(p: seq<Word>, q: seq<Word>, B0: seq<bool>, B1: seq<bool>)
    requires AllGain(p, q, B0, B1)
    ensures Keeps(p, q)
  {}

  lemma AllGainLater(D1: Disk, B1: seq<bool>, D2: Disk, B2: seq<bool>, other: set<nat>, p: seq<Word>, q: seq<Word>, B0: seq<bool>)
    requires Stays(D1, B1, D2, B2, other) && AllGain(p, q, B0, B1)
    ensures AllGain(p, q, B0, B2)
  {
    hide Ptrs, Keeps;
  }

  // The turn of pointer I, which had not changed so far.
  lemma AllGainUpdate(D0: Disk, B0: seq<bool>, D1: Disk, B1: seq<bool>, D2: Disk, B2: seq<bool>, other: set<nat>,
                      p: seq<Word>, q: seq<Word>, i: nat, e: Word)
    requires Stays(D0, B0, D1, B1, other) && Stays(D1, B1, D2, B2, other)
    requires AllGain(p, q, B0, B1) && i < |q| && q[i] == p[i] && Gains(q[i], e, B1, B2)
    ensures AllGain(p, q[i := e], B0, B2)
  {
    hide Ptrs, Keeps;
  }

  // ----- trees -----

  // What is in use for a tree's index blocks.
  ghost predicate InPlace(B: seq<bool>, s: seq<nat>, other: set<nat>) {
    forall x :: x in s ==> 0 < x < |B| && B[x] && x !in other
  }

  lemma InPlaceParts(B: seq<bool>, s: seq<nat>, t: seq<nat>, other: set<nat>)
    requires InPlace(B, s + t, other)
    ensures InPlace(B, s, other) && InPlace(B, t, other)
  {
    assert forall x :: x in s || x in t ==> x in s + t;
  }

  lemma {:induction false} TreeStays(D0: Disk, B0: seq<bool>, D1: Disk, B1: seq<bool>, e: nat, n: nat, level: nat, other: set<nat>)
    requires Stays(D0, B0, D1, B1, other) && WfTree(D0, e, n, level) && InPlace(B0, Index(D0, e, n, level), other)
    ensures Data(D1, e, n, level) == Data(D0, e, n, level)
    decreases level, 1, 0
  {
    hide Kids, DataKids, IndexKids, WfKids, Ptrs, Keeps;
    if n > 0 && level > 0 {
      assert e in Index(D0, e, n, level);
      KidsStay(D0, B0, D1, B1, Ptrs(D0, e), Ptrs(D1, e), n, level, other);
    }
  }

  lemma {:induction false} KidsStay(D0: Disk, B0: seq<bool>, D1: Disk, B1: seq<bool>, p: seq<Word>, q: seq<Word>, n: nat, level: nat,
                                    other: set<nat>)
    requires level > 0 && Stays(D0, B0, D1, B1, other) && Keeps(p, q)
    requires WfKids(D0, p, n, level) && InPlace(B0, IndexKids(D0, p, n, level), other)
    ensures DataKids(D1, q, n, level) == DataKids(D0, p, n, level)
    decreases level, 0, |p|
  {
    hide Tree, Data, Index, WfTree, Stays;
    if |p| > 0 {
      var m := Min(n, Unit(level));
      KeepsTail(p, q);
      InPlaceParts(B0, Index(D0, p[0], m, level - 1), IndexKids(D0, p[1..], n - m, level), other);
      FirstPointer(D0, p, n, level);
      NoData(D1, q[0], p[0], m, level - 1);
      TreeStays(D0, B0, D1, B1, p[0], m, level - 1, other);
      KidsStay(D0, B0, D1, B1, p[1..], q[1..], n - m, level, other);
    }
  }

  lemma KeepsTail(p: seq<Word>, q: seq<Word>)
    requires Keeps(p, q) && p != []
    ensures Keeps(p[1..], q[1..]) && (p[0] != 0 ==> q[0] == p[0])
  {}

  lemma FirstPointer(D: Disk, p: seq<Word>, n: nat, level: nat)
    requires level > 0 && WfKids(D, p, n, level) && p != []
    ensures p[0] == 0 <==> Min(n, Unit(level)) == 0
  {}

  lemma NoData(D: Disk, e: nat, f: nat, n: nat, level: nat)
    ensures n == 0 ==> Data(D, e, n, level) == Data(D, f, n, level)
  {}

  // ----- inodes -----

  /** D1 is D0 with pointers added. */
  ghost predicate Longer(d0: InodeDisk, d1: InodeDisk) {
    && Keeps(d0.direct, d1.direct)
    && (d0.indirect != 0 ==> d1.indirect == d0.indirect) && (d0.doubly != 0 ==> d1.doubly == d0.doubly)
    && d1.length == d0.length && d1.isDir == d0.isDir
  }

  /** And each added one is to a sector that was free and is taken now. */
  ghost predicate Gained(d0: InodeDisk, d1: InodeDisk, B0: seq<bool>, B1: seq<bool>) {
    && AllGain(d0.direct, d1.direct, B0, B1) && Gains(d0.indirect, d1.indirect, B0, B1) && Gains(d0.doubly, d1.doubly, B0, B1)
    && d1.length == d0.length && d1.isDir == d0.isDir
  }

  lemma GainedLonger(d0: InodeDisk, d1: InodeDisk, B0: seq<bool>, B1: seq<bool>)
    requires Gained(d0, d1, B0, B1)
    ensures Longer(d0, d1)
  {
    hide AllGain, Keeps;
    AllGainKeeps(d0.direct, d1.direct, B0, B1);
  }

  lemma LongerSelf(d: InodeDisk)
    ensures Longer(d, d)
  {}

  lemma GainedSelf(d: InodeDisk, B: seq<bool>)
    ensures Gained(d, d, B, B)
  {}

  // The direct pointers first.
  lemma GainedDirect(d: InodeDisk, direct: seq<Word>, B0: seq<bool>, B1: seq<bool>)
    requires AllGain(d.direct, direct, B0, B1)
    ensures Gained(d, d.(direct := direct), B0, B1)
  {}

  // Then the two others.
  lemma GainedTrees(D0: Disk, B0: seq<bool>, D1: Disk, B1: seq<bool>, D2: Disk, B2: seq<bool>, other: set<nat>,
                    d0: InodeDisk, d1: InodeDisk, d2: InodeDisk)
    requires Stays(D0, B0, D1, B1, other) && Stays(D1, B1, D2, B2, other)
    requires Gained(d0, d1, B0, B1) && Gained(d1, d2, B1, B2) && d2.direct == d1.direct
    requires d1.indirect == d0.indirect && d1.doubly == d0.doubly
    ensures Gained(d0, d2, B0, B2)
  {
    hide AllGain, Ptrs, Keeps;
    AllGainLater(D1, B1, D2, B2, other, d0.direct, d1.direct, B0);
  }

  lemma GainedIndirect(d: InodeDisk, e: Word, B0: seq<bool>, B1: seq<bool>)
    requires Gains(d.indirect, e, B0, B1)
    ensures Gained(d, d.(indirect := e), B0, B1)
  {}

  lemma GainedDoubly(D0: Disk, B0: seq<bool>, D1: Disk, B1: seq<bool>, D2: Disk, B2: seq<bool>, other: set<nat>,
                     d: InodeDisk, e: Word, f: Word)
    requires Stays(D0, B0, D1, B1, other) && Stays(D1, B1, D2, B2, other)
    requires Gains(d.indirect, e, B0, B1) && Gains(d.doubly, f, B1, B2)
    ensures Gained(d, d.(indirect := e, doubly := f), B0, B2)
  {
    hide Ptrs, Keeps;
  }

  /** The data sectors of an inode are where they were. */
  lemma InodeStays(D0: Disk, B0: seq<bool>, D1: Disk, B1: seq<bool>, d0: InodeDisk, d1: InodeDisk, n: nat, other: set<nat>)
    requires Stays(D0, B0, D1, B1, other) && Longer(d0, d1)
    requires WfInode(D0, d0, n) && InPlace(B0, IndexSectors(D0, d0, n), other)
    ensures DataSectors(D1, d1, n) == DataSectors(D0, d0, n)
  {
    hide Stays, Data, DataKids, Index, IndexKids, WfTree, WfKids, Keeps;
    KidsStay(D0, B0, D1, B1, d0.direct, d1.direct, InDirect(n), 1, other);
    TreeStays(D0, B0, D1, B1, d0.indirect, InIndirect(n), 1, other);
    TreeStays(D0, B0, D1, B1, d0.doubly, InDoubly(n), 2, other);
    EntryZero(D0, d0.indirect, InIndirect(n), 1);
    EntryZero(D0, d0.doubly, InDoubly(n), 2);
    NoData(D1, d1.indirect, d0.indirect, InIndirect(n), 1);
    NoData(D1, d1.doubly, d0.doubly, InDoubly(n), 2);
  }

  lemma EntryZero(D: Disk, e: nat, n: nat, level: nat)
    requires WfTree(D, e, n, level)
    ensures e == 0 <==> n == 0
  {}

  /** So an inode that reading could find its way through still is one. */
  lemma RoutedStays(D0: Disk, B0: seq<bool>, D1: Disk, B1: seq<bool>, d0: InodeDisk, d1: InodeDisk, n: nat, other: set<nat>)
    requires Stays(D0, B0, D1, B1, other) && Longer(d0, d1)
    requires WfInode(D0, d0, n) && InPlace(B0, IndexSectors(D0, d0, n), other)
    ensures Routed(D1, d1, n)
  {
    hide Stays, WfInode, DataSectors, IndexSectors, Leads;
    WfRouted(D0, d0, n);
    InodeStays(D0, B0, D1, B1, d0, d1, n, other);
    StaysLength(D0, B0, D1, B1, other);
    forall i | 0 <= i < n
      ensures Leads(D1, d1, i, DataSectors(D1, d1, n)[i])
    {
      OnTheWay(D0, d0, n, i);
      LeadsStill(D0, B0, D1, B1, d0, d1, IndexSectors(D0, d0, n), i, DataSectors(D0, d0, n)[i], other);
    }
  }

  lemma StaysLength(D0: Disk, B0: seq<bool>, D1: Disk, B1: seq<bool>, other: set<nat>)
    requires Stays(D0, B0, D1, B1, other)
    ensures |D1| == |D0| && |B1| == |B0|
  {}

  lemma LeadsStill(D0: Disk, B0: seq<bool>, D1: Disk, B1: seq<bool>, d0: InodeDisk, d1: InodeDisk, index: seq<nat>, i: nat, s: nat,
                   other: set<nat>)
    requires Stays(D0, B0, D1, B1, other) && Longer(d0, d1) && InPlace(B0, index, other) && Leads(D0, d0, i, s)
    requires DIRECT <= i < DIRECT + PTRS ==> d0.indirect in index
    requires DIRECT + PTRS <= i ==> d0.doubly in index && Child(D0, d0.doubly, i - DIRECT - PTRS) in index
    ensures Leads(D1, d1, i, s)
  {
    hide Ptrs;
  }
}
