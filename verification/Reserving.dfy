/** The steps of inode_reserve in terms of states before and after: what its
    loops and branches establish, and when the free sectors run out. */
module Reserving {
  import opened Sectors
  import opened FirstFit
  import opened Layout
  import opened Growth
  import opened Staying
  import opened Inodes
  import opened Positions
  import opened Contents
  import opened InodeGrowth
  import opened Writes
  import opened Bitmaps

  // The number of sectors growth from N0 to N1 data sectors takes.
  function Extra(n0: nat, n1: nat, level: nat): nat {
    if Size(n0, level) <= Size(n1, level) then Size(n1, level) - Size(n0, level) else 0
  }

  function ExtraKids(n0: nat, n1: nat, level: nat): nat {
    if SizeKids(n0, level) <= SizeKids(n1, level) then SizeKids(n1, level) - SizeKids(n0, level) else 0
  }

  // The data sectors an inode of LENGTH bytes gets: as many as it needs, at most the most there can be.
  function Target(length: nat): nat { Min(BytesToSectors(length), MAX_SECTORS) }

  function TreeTarget(num: nat): nat { Min(DIRECT + num, MAX_SECTORS) }

  // An inode can come to hold LEN bytes: it does already, or the sectors exist and are free.
  ghost predicate Fits(bits: seq<bool>, d: InodeDisk, len: nat) {
    len <= d.length || (BytesToSectors(len) <= MAX_SECTORS && Enough(bits, Num(d), BytesToSectors(len)))
  }

  // An empty write at the start of a file.
  predicate Shrinks(buffer: seq<Byte>, offset: nat) {
    |buffer| == 0 && offset == 0
  }

  /** What a refused extension leaves behind.  Too few free sectors: all of them
      are gone, and sector 0 is zeroed exactly if they ran out at an index block.
      More sectors than an inode can have: it has got all it can have.  In both
      cases no pointer that was there is lost. */
  ghost predicate Refused(D0: Disk, B0: seq<bool>, d0: InodeDisk, len: nat, D1: Disk, B1: seq<bool>, other: set<nat>) {
    && Stays(D0, B0, D1, B1, other)
    && if Enough(B0, Num(d0), Target(len))
       then exists d1 :: InodeGrown(D0, B0, d0, Num(d0), D1, B1, d1, MAX_SECTORS, other)
       else Failed(D0, B0, IndexSectors(D0, d0, Num(d0)), D1, B1, ExtraTotal(Num(d0), Target(len)),
                   InodeClobbers(Num(d0), Target(len), FreeCount(B0)), other)
  }

  // The free map after a refused growth, and what that growth may have touched.
  lemma RefusedFrame(D0: Disk, B0: seq<bool>, d0: InodeDisk, len: nat, D1: Disk, B1: seq<bool>, other: set<nat>) returns (k: nat)
    requires Refused(D0, B0, d0, len, D1, B1, other)
    ensures B1 == After(B0, k) && Frame(D0, D1, B0, other + Elems(IndexSectors(D0, d0, Num(d0))) + {0})
  {
    hide AllSectors, IndexSectors, DataSectors, TakeFree, After, Total, WfInode, Stays;
    k := ExtraTotal(Num(d0), Target(len));
    if Enough(B0, Num(d0), Target(len)) {
      var d1 :| InodeGrown(D0, B0, d0, Num(d0), D1, B1, d1, MAX_SECTORS, other);
      k := Total(MAX_SECTORS) - Total(Num(d0));
    }
  }

  /** A refused file is not damaged: with the pointers it has now, D1, it can be
      read and has the bytes it had; its header's sector H is as it was. */
  lemma RefusedSame(D0: Disk, B0: seq<bool>, d0: InodeDisk, h: nat, len: nat, D1: Disk, B1: seq<bool>, d1: InodeDisk, other: set<nat>)
    requires Mapped(D0, B0, d0) && |B0| <= |D0| && (forall x :: x in All(D0, d0) ==> x !in other)
    requires h < |B0| && B0[h] && h !in All(D0, d0) && h !in other
    requires Refused(D0, B0, d0, len, D1, B1, other) && Longer(d0, d1)
    ensures |D1| == |D0| && (h != 0 ==> D1[h] == D0[h])
    ensures Readable(D1, d1) && Datas(D1, d1) == Datas(D0, d0) && Content(D1, d1) == Content(D0, d0)
  {
    hide AllSectors, IndexSectors, DataSectors, WfInode, Stays, Refused, Flat, Routed, ZeroFrom, Content, Keeps;
    var k := RefusedFrame(D0, B0, d0, len, D1, B1, other);
    MappedFacts(D0, B0, d0);
    InodeRange(D0, d0, Num(d0));
    RefusedStays(D0, B0, d0, len, D1, B1, other);
    InodeStays(D0, B0, D1, B1, d0, d1, Num(d0), other);
    RoutedStays(D0, B0, D1, B1, d0, d1, Num(d0), other);
    SameBytes(D0, d0, D1, d1);
  }

  lemma RefusedStays(D0: Disk, B0: seq<bool>, d0: InodeDisk, len: nat, D1: Disk, B1: seq<bool>, other: set<nat>)
    requires Refused(D0, B0, d0, len, D1, B1, other)
    ensures Stays(D0, B0, D1, B1, other)
  {}

  lemma SameBytes(D0: Disk, d0: InodeDisk, D1: Disk, d1: InodeDisk)
    requires d1.length == d0.length && |D1| == |D0| && Datas(D1, d1) == Datas(D0, d0)
    requires forall x :: x in Datas(D0, d0) && x < |D0| ==> D1[x] == D0[x]
    ensures Content(D1, d1) == Content(D0, d0)
  {
    hide DataSectors;
    var data := Datas(D0, d0);
    forall i | 0 <= i < SECTOR_SIZE * |data|
      ensures ByteAt(D1, data, i) == ByteAt(D0, data, i)
    {
      assert data[i / SECTOR_SIZE] in data;
    }
    assert Flat(D1, data) == Flat(D0, data);
  }

  // ----- one sector -----

  lemma OneTaken(bits: seq<bool>, s: nat, ok: bool)
    requires ok ==> FirstRun(bits, 0, 1, false, s)
    requires !ok ==> NoRun(bits, 0, 1, false)
    ensures ok <==> 0 < FreeCount(bits)
    ensures ok ==> s < |bits| && !bits[s] && TakeFree(bits, 1) == [s] && After(bits, 1) == SetRange(bits, s, 1, true)
  {
    SingleRun(bits, s);
    FreeCountZero(bits);
  }

  lemma FreshSector(B: seq<bool>, s: nat, other: set<nat>)
    requires TakeFree(B, 1) == [s] && forall x :: x in other ==> x < |B| && B[x]
    ensures s < |B| && !B[s] && s !in other && After(B, 1)[s]
  {
    TakeMarks(B, 1);
    assert s in TakeFree(B, 1);
  }

  // The sector for a new index block, or 0 if there is none.
  lemma BlockGained(B: seq<bool>, e: nat, B1: seq<bool>, other: set<nat>)
    requires if FreeCount(B) == 0 then e == 0 else TakeFree(B, 1) == [e] && B1 == After(B, 1)
    requires forall x :: x in other ==> x < |B| && B[x]
    ensures Gains(0, e, B, B1)
    ensures e == 0 || (e < |B| && !B[e])
  {
    hide TakeFree, After, FreeCount;
    if FreeCount(B) != 0 {
      FreshSector(B, e, other);
    }
  }

  lemma SameGain(e: nat, B: seq<bool>)
    ensures Gains(e, e, B, B)
  {}

  // A sector outside the free map's file is rewritten.
  lemma MapUntouched(disk: Disk, bits: seq<bool>, d: InodeDisk, sector: nat, x: Sector)
    requires Mapped(disk, bits, d) && sector < |disk| && sector !in All(disk, d)
    ensures var disk' := disk[sector := x];
            Mapped(disk', bits, d) && All(disk', d) == All(disk, d) && Content(disk', d) == Content(disk, d)
  {
    hide WfInode, Content, AllSectors, DataSectors, IndexSectors, Flat;
    Untouched(disk, disk[sector := x], bits, bits, d);
  }

  // Only data sectors of another inode are rewritten.
  lemma MapSteady(D0: Disk, D1: Disk, bits: seq<bool>, d: InodeDisk, data: seq<nat>)
    requires Mapped(D0, bits, d) && OnlyIn(D0, D1, data) && forall x :: x in data ==> x !in All(D0, d)
    ensures Mapped(D1, bits, d) && All(D1, d) == All(D0, d) && Content(D1, d) == Content(D0, d)
  {
    hide WfInode, Content, AllSectors, DataSectors, IndexSectors, Flat;
    Untouched(D0, D1, bits, bits, d);
  }

  // ----- an index block -----

  // The pointers of an index block, new or old, before anything below it grows.
  lemma BlockReady(D: Disk, B: seq<bool>, entry: nat, n0: nat, D1: Disk, B1: seq<bool>, e: nat, level: nat, other: set<nat>)
    requires 0 < level <= 2 && WfTree(D, entry, n0, level) && Owned(B, Tree(D, entry, n0, level), other)
    requires if entry == 0 then e < |D1| && D1[e] == Zeros() else e == entry && D1 == D && B1 == B
    ensures e < |D1|
    ensures n0 == 0 <==> entry == 0
    ensures entry == 0 ==> Words(D1[e]) == NoWords()
    ensures WfKids(D1, Words(D1[e]), n0, level) && Owned(B1, Kids(D1, Words(D1[e]), n0, level), other)
    ensures entry != 0 ==> entry !in other
  {
    hide Kids, WfKids, Words;
    assert entry != 0 ==> entry in Tree(D, entry, n0, level);
    ZeroWords();
    NoChildren(D1, level);
    NothingOwned(B1, other);
    var none: seq<nat> := [];
    assert none + none == none;
    if entry != 0 {
      OwnedParts(B, [entry], Kids(D, Ptrs(D, entry), n0, level), other);
    }
  }

  // How the state changes when the block itself is got hold of.
  ghost predicate BlockTaken(D: Disk, B: seq<bool>, entry: nat, D1: Disk, B1: seq<bool>, e: nat, other: set<nat>) {
    if entry != 0 then e == entry && D1 == D && B1 == B
    else if FreeCount(B) == 0 then e == 0 && B1 == B && 0 < |D| && D1 == D[0 := Zeros()]
    else TakeFree(B, 1) == [e] && 0 < e < |B| && B1 == After(B, 1) && Frame(D, D1, B, other)
  }

  // There is room for block and children together iff there is for the children once the block is taken.
  lemma BlockRoom(B: seq<bool>, B1: seq<bool>, entry: nat, n0: nat, num: nat, level: nat)
    requires 0 < level <= 2 && n0 <= num && 0 < num && (n0 == 0 <==> entry == 0)
    requires B1 == if entry != 0 || FreeCount(B) == 0 then B else After(B, 1)
    ensures Extra(n0, num, level) <= FreeCount(B) <==> ExtraKids(n0, num, level) <= FreeCount(B1)
    ensures FreeCount(B) == 0 && entry == 0 ==> FreeCount(B1) < ExtraKids(n0, num, level)
  {
    SizeMonotone(n0, num, level);
    TakeAll(B, 1);
  }

  lemma BlockDone(D: Disk, B: seq<bool>, entry: nat, n0: nat, D1: Disk, B1: seq<bool>, e: nat, D2: Disk, B2: seq<bool>,
                  p: seq<Word>, num: nat, level: nat, other: set<nat>)
    requires 0 < level <= 2 && |p| == PTRS && n0 <= num && 0 < num && |B| <= |D|
    requires WfTree(D, entry, n0, level) && Owned(B, Tree(D, entry, n0, level), other)
    requires forall x :: x in other ==> x < |B| && B[x]
    requires BlockTaken(D, B, entry, D1, B1, e, other) && (entry == 0 ==> 0 < FreeCount(B)) && e < |D1|
    requires entry == 0 ==> Words(D1[e]) == NoWords()
    requires KidsGrown(D1, B1, Words(D1[e]), n0, D2, B2, p, num, level, other) && e < |D2|
    ensures TreeGrown(D, B, entry, n0, D2[e := FromWords(p)], B2, e, num, level, other)
  {
    hide Kids, IndexKids, DataKids, WfKids, FromWords, Words, Owned, Grow, TakeFree, After, NoWords, FreeCount, Elems, Tree;
    if entry == 0 {
      NewBlock(D, B, e, D1, B1, D2, B2, p, num, level, other);
    } else {
      OldBlock(D, B, entry, n0, D2, B2, p, num, level, other);
    }
  }

  // A block below which sectors run out is not written back.
  lemma BlockNotWritten(D: Disk, B: seq<bool>, entry: nat, n0: nat, D2: Disk, B2: seq<bool>, ptrs: seq<Word>, num: nat, level: nat,
                        other: set<nat>)
    requires 0 < level && 0 < n0 && WfTree(D, entry, n0, level) && Owned(B, Tree(D, entry, n0, level), other)
    requires ptrs == Ptrs(D, entry)
    requires Failed(D, B, IndexKids(D, ptrs, n0, level), D2, B2, ExtraKids(n0, num, level),
                    KidsClobbers(n0, num, level, FreeCount(B)), other)
    ensures entry < |D2| == |D| && D2[entry] == D[entry]
  {
    hide Kids, IndexKids, DataKids, WfKids, Ptrs, After, KidsClobbers, FreeCount;
    OwnedParts(B, [entry], Kids(D, ptrs, n0, level), other);
    assert entry in [entry];
    IndexInKids(D, ptrs, n0, level);
  }

  lemma BlockFailed(D: Disk, B: seq<bool>, entry: nat, n0: nat, D1: Disk, B1: seq<bool>, e: nat, D2: Disk, B2: seq<bool>,
                    num: nat, level: nat, other: set<nat>)
    requires 0 < level <= 2 && n0 <= num && 0 < num && |B| <= |D| && 0 < |B| && B[0] && 0 !in other
    requires WfTree(D, entry, n0, level)
    requires BlockTaken(D, B, entry, D1, B1, e, other) && e < |D1|
    requires entry == 0 ==> Words(D1[e]) == NoWords()
    requires FreeCount(B1) < ExtraKids(n0, num, level)
    requires Failed(D1, B1, IndexKids(D1, Words(D1[e]), n0, level), D2, B2, ExtraKids(n0, num, level),
                    KidsClobbers(n0, num, level, FreeCount(B1)), other)
    ensures Failed(D, B, Index(D, entry, n0, level), D2, B2, Extra(n0, num, level), Clobbers(n0, num, level, FreeCount(B)), other)
  {
    hide Kids, IndexKids, DataKids, WfKids, FromWords, Words, Grow, TakeFree, After, NoWords, FreeCount, Elems, Failed, Index,
      Clobbers, KidsClobbers;
    SizeMonotone(n0, num, level);
    if entry != 0 {
      FailOld(D, B, entry, n0, D2, B2, num, level, other);
    } else {
      NoChildren(D1, level);
      if FreeCount(B) == 0 {
        FailFull(D, B, D2, B2, num, level, other);
      } else {
        FailNew(D, B, e, D1, B1, D2, B2, num, level, other);
      }
    }
  }

  // ----- siblings -----

  // Sectors taken by the first I siblings.
  function Room(n0: nat, num: nat, i: nat, level: nat): nat {
    ExtraKids(Before(n0, i, level), Before(num, i, level), level)
  }

  lemma CountBounds(num: nat, level: nat, len: nat)
    requires 0 < level <= 2 && 0 < num <= Cap(len, level)
    ensures DivRoundUp(num, Unit(level)) <= len && num <= Cap(DivRoundUp(num, Unit(level)), level)
    ensures forall i :: 0 <= i < DivRoundUp(num, Unit(level)) ==> Cap(i, level) < num
  {}

  lemma LoopRoom(D0: Disk, B0: seq<bool>, p0: seq<Word>, n0: nat, num: nat, i: nat, D1: Disk, B1: seq<bool>, p1: seq<Word>,
                 level: nat, other: set<nat>)
    requires 0 < level <= 2 && i < |p0| == |p1| && n0 <= num && Cap(i, level) < num
    requires KidsGrown(D0, B0, p0[..i], Before(n0, i, level), D1, B1, p1[..i], Before(num, i, level), level, other)
    requires Room(n0, num, i, level) <= FreeCount(B0)
    ensures FreeCount(B1) == FreeCount(B0) - Room(n0, num, i, level)
    ensures Room(n0, num, i + 1, level)
         == Room(n0, num, i, level) + Extra(Share(n0, i, level), Share(num, i, level), level - 1)
  {
    hide Kids, IndexKids, DataKids, WfKids, Grow, FreeCount, TakeFree, After, Cap, Unit, SizeKids, Size, Before, Share;
    Shares(n0, num, i, level);
    SizeMonotone(Share(n0, i, level), Share(num, i, level), level - 1);
    GrowBits(D0, B0, Kids(D0, p0[..i], Before(n0, i, level), level), IndexKids(D0, p0[..i], Before(n0, i, level), level),
             D1, B1, Kids(D1, p1[..i], Before(num, i, level), level), DataKids(D1, p1[..i], Before(num, i, level), level),
             Room(n0, num, i, level), other);
    TakeAll(B0, Room(n0, num, i, level));
  }

  lemma LoopFailed(D0: Disk, B0: seq<bool>, p0: seq<Word>, n0: nat, num: nat, i: nat, D1: Disk, B1: seq<bool>, p1: seq<Word>,
                   D2: Disk, B2: seq<bool>, level: nat, other: set<nat>)
    requires 0 < level <= 2 && i < |p0| == |p1| && n0 <= num && Cap(i, level) < num
    requires WfKids(D0, p0, n0, level) && Owned(B0, Kids(D0, p0, n0, level), other)
    requires 0 < |D0| && 0 < |B0| && B0[0] && 0 !in other
    requires KidsGrown(D0, B0, p0[..i], Before(n0, i, level), D1, B1, p1[..i], Before(num, i, level), level, other)
    requires Room(n0, num, i, level) <= FreeCount(B0)
    requires FreeCount(B1) < Extra(Share(n0, i, level), Share(num, i, level), level - 1)
    requires Failed(D1, B1, Index(D1, p0[i], Share(n0, i, level), level - 1), D2, B2,
                    Extra(Share(n0, i, level), Share(num, i, level), level - 1),
                    Clobbers(Share(n0, i, level), Share(num, i, level), level - 1, FreeCount(B1)), other)
    ensures Failed(D0, B0, IndexKids(D0, p0, n0, level), D2, B2, ExtraKids(n0, num, level),
                   KidsClobbers(n0, num, level, FreeCount(B0)), other)
    ensures FreeCount(B0) < ExtraKids(n0, num, level)
  {
    hide Kids, IndexKids, DataKids, WfKids, Grow, FreeCount, TakeFree, After, Cap, Unit, SizeKids, Size, Before, Share, Owned,
      KidsGrown, Failed, KidsClobbers, Clobbers, Index;
    Shares(n0, num, i, level);
    SizeMonotone(n0, num, level);
    KidsRange(D0, p0, n0, level);
    IndexInKids(D0, p0, n0, level);
    LoopFails(D0, B0, p0, n0, num, i, D1, B1, p1, D2, B2, level, other);
  }

  // ----- the three stages -----

  lemma ReserveReady(D: Disk, B: seq<bool>, d: InodeDisk, other: set<nat>)
    requires Mapped(D, B, d) && forall x :: x in All(D, d) ==> x !in other
    ensures WfInode(D, d, Num(d)) && Owned(B, All(D, d), other) && Num(d) <= MAX_SECTORS && |d.direct| == DIRECT
    ensures 0 <= d.length < LENGTH_LIMIT
  {
    InodeSize(D, d, Num(d));
  }

  lemma DirectReady(D: Disk, B: seq<bool>, d: InodeDisk, n0: nat, m: nat, other: set<nat>)
    requires WfInode(D, d, n0) && Owned(B, AllSectors(D, d, n0), other) && n0 <= m
    ensures Owned(B, Kids(D, d.direct, InDirect(n0), 1), other)
    ensures ExtraKids(InDirect(n0), InDirect(m), 1) == InDirect(m) - InDirect(n0)
  {
    hide Kids, Tree, Owned;
    InodeOwned(D, B, d, n0, other);
    OwnedParts(B, Kids(D, d.direct, InDirect(n0), 1), Tree(D, d.indirect, InIndirect(n0), 1), other);
  }

  lemma Stage1Done(D0: Disk, B0: seq<bool>, d: InodeDisk, n0: nat, D1: Disk, B1: seq<bool>, direct: seq<Word>, m: nat,
                   other: set<nat>)
    requires WfInode(D0, d, n0) && n0 <= m && Owned(B0, AllSectors(D0, d, n0), other)
    requires forall x :: x in other ==> x < |B0| && B0[x]
    requires |direct| == DIRECT && InDirect(m) - InDirect(n0) <= FreeCount(B0)
    requires KidsGrown(D0, B0, d.direct, InDirect(n0), D1, B1, direct, InDirect(m), 1, other)
    ensures Stage1(D0, B0, d, n0, D1, B1, direct, m, other)
    ensures WfTree(D1, d.indirect, InIndirect(n0), 1) && Owned(B1, Tree(D1, d.indirect, InIndirect(n0), 1), other)
    ensures FreeCount(B1) == FreeCount(B0) - (InDirect(m) - InDirect(n0))
    ensures m <= DIRECT ==> Enough(B0, n0, m)
    ensures Size(InIndirect(n0), 1) <= Size(InIndirect(m), 1)
  {
    hide Kids, Tree, Owned, WfTree, Index, FreeCount, After, TakeFree, KidsGrown, AllSectors;
    AfterStage1(D0, B0, d, n0, D1, B1, direct, m, other);
    OwnedParts(B1, Kids(D1, direct, InDirect(m), 1), Tree(D1, d.indirect, InIndirect(n0), 1), other);
    TakeAll(B0, InDirect(m) - InDirect(n0));
    SizeMonotone(InIndirect(n0), InIndirect(m), 1);
  }

  // Sectors of an inode without its level-2 subtree.
  function UpToIndirect(n0: nat, m: nat): nat {
    ExtraTotal(Min(n0, DIRECT + PTRS), Min(m, DIRECT + PTRS))
  }

  lemma Stage2Done(D0: Disk, B0: seq<bool>, d: InodeDisk, n0: nat, D1: Disk, B1: seq<bool>, direct: seq<Word>,
                   D2: Disk, B2: seq<bool>, e: Word, m: nat, other: set<nat>)
    requires WfInode(D0, d, n0) && n0 <= m && DIRECT < m && Owned(B0, AllSectors(D0, d, n0), other)
    requires forall x :: x in other ==> x < |B0| && B0[x]
    requires |direct| == DIRECT && Stage1(D0, B0, d, n0, D1, B1, direct, m, other)
    requires InDirect(m) - InDirect(n0) <= FreeCount(B0) && Extra(InIndirect(n0), InIndirect(m), 1) <= FreeCount(B1)
    requires FreeCount(B1) == FreeCount(B0) - (InDirect(m) - InDirect(n0))
    requires TreeGrown(D1, B1, d.indirect, InIndirect(n0), D2, B2, e, InIndirect(m), 1, other)
    ensures Stage2(D0, B0, d, n0, D2, B2, direct, e, m, UpToIndirect(n0, m), other)
    ensures UpToIndirect(n0, m) == Total(Min(m, DIRECT + PTRS)) - Total(Min(n0, DIRECT + PTRS))
    ensures UpToIndirect(n0, m) <= FreeCount(B0) && FreeCount(B2) == FreeCount(B0) - UpToIndirect(n0, m)
    ensures WfTree(D2, d.doubly, InDoubly(n0), 2) && Owned(B2, Tree(D2, d.doubly, InDoubly(n0), 2), other)
    ensures m <= DIRECT + PTRS ==> Enough(B0, n0, m)
    ensures ExtraTotal(n0, m) == UpToIndirect(n0, m) + Extra(InDoubly(n0), InDoubly(m), 2)
    ensures Size(InDoubly(n0), 2) <= Size(InDoubly(m), 2)
  {
    hide Kids, Tree, Owned, WfTree, Index, FreeCount, After, TakeFree, AllSectors, WfKids, Data, DataKids, IndexKids, Grow, Stage1;
    AfterStage2(D0, B0, d, n0, D1, B1, direct, D2, B2, e, m, other);
    UpTo(n0, m);
    var k := UpToIndirect(n0, m);
    BeforeStage3(D0, B0, d, n0, D2, B2, direct, e, m, k, other);
    OwnedParts(B2, Kids(D2, direct, InDirect(m), 1) + Tree(D2, e, InIndirect(m), 1), Tree(D2, d.doubly, InDoubly(n0), 2), other);
    TakeAll(B0, k);
  }

  lemma UpTo(n0: nat, m: nat)
    requires n0 <= m && DIRECT < m
    ensures UpToIndirect(n0, m) == Total(Min(m, DIRECT + PTRS)) - Total(Min(n0, DIRECT + PTRS))
         == InDirect(m) - InDirect(n0) + Extra(InIndirect(n0), InIndirect(m), 1)
    ensures ExtraTotal(n0, m) == UpToIndirect(n0, m) + Extra(InDoubly(n0), InDoubly(m), 2)
    ensures Size(InDoubly(n0), 2) <= Size(InDoubly(m), 2)
  {
    SizeMonotone(InIndirect(n0), InIndirect(m), 1);
    SizeMonotone(InDoubly(n0), InDoubly(m), 2);
  }
}
