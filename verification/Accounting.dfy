/** What the operations cost in sectors: the exact number of free sectors after
    every step, and files that come and go leaving no trace in the free map. */
module Accounting {
  import opened Sequences
  import opened Sectors
  import opened FirstFit
  import opened Layout
  import opened Growth
  import opened Inodes
  import opened Positions
  import opened Contents
  import opened InodeGrowth
  import opened Writes
  import opened Reserving
  import opened Freeing
  import opened Files
  import opened Runs

  // ----- counting -----

  lemma OneCleared(bits: seq<bool>, x: nat)
    requires x < |bits| && bits[x]
    ensures FreeCount(bits[x := false]) == FreeCount(bits) + 1
  {
    assert bits == bits[..x] + [true] + bits[x + 1..];
    assert bits[x := false] == bits[..x] + [false] + bits[x + 1..];
  }

  // Releasing taken sectors, each once, frees as many.
  lemma {:induction false} ClearedCount(bits: seq<bool>, s: seq<nat>)
    requires NoDup(s) && AllAre(bits, s, true)
    ensures FreeCount(ClearAll(bits, s)) == FreeCount(bits) + |s|
    decreases |s|
  {
    hide FreeCount;
    if s == [] {
      assert ClearAll(bits, s) == bits;
    } else {
      var t, x := s[..|s| - 1], s[|s| - 1];
      assert s == t + [x];
      assert forall y :: y in t || y == x ==> y in s;
      NoDupParts(t, [x]);
      assert x in [x];
      ClearedCount(bits, t);
      OneCleared(ClearAll(bits, t), x);
      assert ClearAll(bits, s) == ClearAll(bits, t)[x := false];
    }
  }

  // Data sectors of the file with header H.
  ghost function Blocks(s: State, h: nat): nat {
    Num(Ino(s.disk, h))
  }

  /** The number of sectors an operation takes, negative if it gives some back. */
  ghost function Cost(s: State, op: Op): int {
    match op
    case Take(_) => 1
    case Make(_, length, _) => Total(BytesToSectors(length))
    case Put(h, ofs, data) => Total(BytesToSectors(|Splice(Bytes(s.disk, h), ofs, data)|)) - Total(Blocks(s, h))
    case Remove(h) => -(1 + Total(Blocks(s, h)))
    case Return(_) => -1
    case Abandon(_) => -1
    case Refuse(h, length, isDir) => RefusalCost(s.bits, Num(Subject(s, h, isDir)), length)
  }

  // All an inode of N data sectors can still have, or all there is.
  ghost function RefusalCost(bits: seq<bool>, n: nat, length: nat): int {
    if Enough(bits, n, Target(length)) then Total(MAX_SECTORS) - Total(n) else FreeCount(bits)
  }

  // Growth from N0 to N1 data sectors takes exactly the difference in sectors.
  lemma GrowthCount(D0: Disk, B0: seq<bool>, d0: InodeDisk, n0: nat, D1: Disk, d1: InodeDisk, n1: nat)
    requires WfInode(D0, d0, n0) && WfInode(D1, d1, n1) && n0 <= n1
    requires AllSectors(D1, d1, n1) == AllSectors(D0, d0, n0) + TakeFree(B0, ExtraTotal(n0, n1))
    ensures FreeCount(After(B0, ExtraTotal(n0, n1))) == FreeCount(B0) - (Total(n1) - Total(n0))
  {
    hide WfInode, AllSectors, DataSectors, TakeFree, After, FreeCount, Total;
    InodeSize(D0, d0, n0);
    InodeSize(D1, d1, n1);
    TotalGrows(n0, n1);
    TakeAll(B0, ExtraTotal(n0, n1));
  }

  lemma MakeCost(s: State, op: Op, t: State)
    requires Good(s) && op.Make? && Step(s, op, t)
    ensures FreeCount(t.bits) == FreeCount(s.bits) - Cost(s, op)
  {
    hide Good, Ino, WfInode, AllSectors, DataSectors, TakeFree, After, FreeCount, Total, Content, Blank, Encode, MapFine, Frame;
    BlankMapped(s.disk, s.bits, op.isDir);
    TotalClosed(0);
    GrowthCount(s.disk, s.bits, Blank(op.isDir), 0, t.disk, Ino(t.disk, op.h), BytesToSectors(op.length));
  }

  lemma PutCost(s: State, op: Op, t: State)
    requires Good(s) && op.Put? && Step(s, op, t)
    ensures FreeCount(t.bits) == FreeCount(s.bits) - Cost(s, op)
  {
    hide Good, Ino, WfInode, AllSectors, DataSectors, TakeFree, After, FreeCount, Total, Content, Splice, Encode, MapFine, Frame;
    var d0, d1 := Ino(s.disk, op.h), Ino(t.disk, op.h);
    HeadMapped(s, op.h);
    MappedFacts(s.disk, s.bits, d0);
    GrowthCount(s.disk, s.bits, d0, Num(d0), t.disk, d1, Num(d1));
  }

  lemma HeadMapped(s: State, h: nat)
    requires Good(s) && h in s.heads
    ensures Mapped(s.disk, s.bits, Ino(s.disk, h)) && WfInode(s.disk, Ino(s.disk, h), Blocks(s, h))
    ensures NoDup(Own(s.disk, h)) && AllAre(s.bits, Own(s.disk, h), true)
    ensures |Own(s.disk, h)| == 1 + Total(Blocks(s, h))
  {
    hide Ino, WfInode, AllSectors, DataSectors, Content, Encode, MapFine, Total;
    InodeSize(s.disk, Ino(s.disk, h), Blocks(s, h));
  }

  lemma RefuseCost(D0: Disk, B0: seq<bool>, d0: InodeDisk, len: nat, D1: Disk, B1: seq<bool>, other: set<nat>)
    requires Refused(D0, B0, d0, len, D1, B1, other) && WfInode(D0, d0, Num(d0))
    ensures FreeCount(B1) == if Enough(B0, Num(d0), Target(len)) then FreeCount(B0) - (Total(MAX_SECTORS) - Total(Num(d0))) else 0
  {
    hide WfInode, AllSectors, DataSectors, IndexSectors, TakeFree, After, FreeCount, Total, Frame, Num, Target, InodeClobbers, Zeros;
    if Enough(B0, Num(d0), Target(len)) {
      InodeSize(D0, d0, Num(d0));
      var d1 :| InodeGrown(D0, B0, d0, Num(d0), D1, B1, d1, MAX_SECTORS, other);
      GrowthCount(D0, B0, d0, Num(d0), D1, d1, MAX_SECTORS);
    } else {
      TakeAll(B0, ExtraTotal(Num(d0), Target(len)));
    }
  }

  /** Every step changes the number of free sectors by exactly its cost. */
  lemma StepCost(s: State, op: Op, t: State)
    requires Good(s) && Step(s, op, t)
    ensures FreeCount(t.bits) == FreeCount(s.bits) - Cost(s, op)
  {
    hide Good, Ino, WfInode, All, TakeFree, After, FreeCount, Total, Mapped, Refused, Own, MapFine, Frame, Extended, Written, Blank,
      Num;
    match op
    case Take(_) => TakeAll(s.bits, 1);
    case Make(_, _, _) => MakeCost(s, op, t);
    case Put(_, _, _) => PutCost(s, op, t);
    case Remove(h) =>
      HeadMapped(s, h);
      ClearedCount(s.bits, Own(s.disk, h));
    case Return(h) =>
      LooseMarked(s, h);
      ClearedCount(s.bits, [h]);
    case Abandon(h) =>
      HeaderAside(s, h);
      ClearedCount(s.bits, [h]);
    case Refuse(h, length, isDir) =>
      SubjectWf(s, h, isDir);
      RefuseCost(s.disk, s.bits, Subject(s, h, isDir), length, t.disk, t.bits, Elems(All(s.disk, s.inode)));
  }

  lemma LooseMarked(s: State, h: nat)
    requires Good(s) && h in s.loose
    ensures AllAre(s.bits, [h], true)
  {
    hide Consistent, All;
  }

  lemma SubjectWf(s: State, h: nat, isDir: bool)
    requires Good(s)
    ensures WfInode(s.disk, Subject(s, h, isDir), Num(Subject(s, h, isDir)))
  {
    hide Good, Ino, WfInode, AllSectors, DataSectors, Blank;
    BlankMapped(s.disk, s.bits, isDir);
    if h in s.heads {
      HeadMapped(s, h);
    }
  }

  // ----- leaving no trace -----

  // The sectors of file H are the first J that were free in BITS, and no others have been taken.
  ghost predicate TookFirst(s: State, h: nat, bits: seq<bool>, j: nat) {
    Own(s.disk, h) == TakeFree(bits, j) && s.bits == After(bits, j)
  }

  lemma MadeFirst(s0: State, s1: State, s2: State, make: Op) returns (j: nat)
    requires make.Make? && Step(s0, Take(make.h), s1) && Step(s1, make, s2)
    ensures TookFirst(s2, make.h, s0.bits, j)
  {
    hide Good, Ino, AllSectors, TakeFree, After, FreeCount, Total, Content, Blank, Encode, MapFine, Frame, Mapped;
    BlankMapped(s1.disk, s1.bits, make.isDir);
    var k := ExtraTotal(0, Num(Ino(s2.disk, make.h)));
    TakeSplit(s0.bits, 1, k);
    j := 1 + k;
  }

  lemma PutFirst(s: State, op: Op, t: State, bits: seq<bool>, j: nat) returns (l: nat)
    requires op.Put? && Step(s, op, t) && TookFirst(s, op.h, bits, j)
    ensures TookFirst(t, op.h, bits, l)
  {
    hide Good, Ino, AllSectors, TakeFree, After, FreeCount, Total, Content, Blank, Encode, MapFine, Frame, Mapped, Splice;
    var k := ExtraTotal(Num(Ino(s.disk, op.h)), Num(Ino(t.disk, op.h)));
    TakeSplit(bits, j, k);
    l := j + k;
    assert [op.h] + (All(s.disk, Ino(s.disk, op.h)) + TakeFree(s.bits, k)) == Own(s.disk, op.h) + TakeFree(s.bits, k);
  }

  lemma RemovedFirst(s: State, h: nat, t: State, bits: seq<bool>, j: nat)
    requires Step(s, Remove(h), t) && TookFirst(s, h, bits, j)
    ensures t.bits == bits
  {
    hide Ino, All, TakeFree, After, MapFine, Frame;
    ReleaseUndoesTake(bits, j);
  }

  lemma {:induction false} PutsFirst(ss: seq<State>, ops: seq<Op>, h: nat, bits: seq<bool>, j: nat) returns (l: nat)
    requires IsRun(ss, ops) && TookFirst(ss[0], h, bits, j)
    requires forall i :: 0 <= i < |ops| ==> ops[i].Put? && ops[i].h == h
    ensures TookFirst(ss[|ops|], h, bits, l)
    decreases |ops|
  {
    hide Step, TookFirst;
    l := j;
    if ops != [] {
      var n := |ops| - 1;
      l := PutsFirst(ss[..n + 1], ops[..n], h, bits, j);
      l := PutFirst(ss[n], ops[n], ss[n + 1], bits, l);
    }
  }

  /** A file created, written any number of times and removed leaves the free map
      bit for bit as it was. */
  lemma NoTrace(ss: seq<State>, ops: seq<Op>, h: nat)
    requires IsRun(ss, ops) && |ops| >= 3
    requires ops[0] == Take(h) && ops[1].Make? && ops[1].h == h && ops[|ops| - 1] == Remove(h)
    requires forall i :: 2 <= i < |ops| - 1 ==> ops[i].Put? && ops[i].h == h
    ensures ss[|ops|].bits == ss[0].bits
  {
    hide Step, TookFirst;
    var n := |ops| - 1;
    var j := MadeFirst(ss[0], ss[1], ss[2], ops[1]);
    j := PutsFirst(ss[2..n + 1], ops[2..n], h, ss[0].bits, j);
    RemovedFirst(ss[n], h, ss[n + 1], ss[0].bits, j);
  }

  // ----- an empty write at the start of a file -----

  /** It leaves a file that is still in order if and only if the file was empty:
      the length is gone, the pointers and their sectors are not. */
  lemma ShrinkBreaks(D: Disk, B: seq<bool>, d: InodeDisk, h: nat, x: Sector)
    requires Mapped(D, B, d) && h < |D| && h !in All(D, d)
    ensures Mapped(D[h := x], B, d.(length := 0)) <==> d.length == 0
  {
    hide AllSectors, DataSectors, ZeroFrom;
    if d.length == 0 {
      hide WfInode, AllSectors, DataSectors;
      HeaderUntouched(D, B, d, h, x);
    } else {
      FirstPointer(D, d, Num(d));
      FirstPointer(D[h := x], d.(length := 0), 0);
    }
  }

  lemma FirstPointer(D: Disk, d: InodeDisk, n: nat)
    requires |d.direct| == DIRECT
    ensures WfInode(D, d, n) ==> (d.direct[0] == 0 <==> n == 0)
  {
    assert WfInode(D, d, n) ==> WfTree(D, d.direct[0], Min(InDirect(n), 1), 0);
  }

  // A device of four sectors with one file of one byte in sector 2.
  function SmallDisk(): Disk { [Zeros(), Zeros(), Zeros(), Zeros()] }

  function SmallInode(): InodeDisk {
    InodeDisk([2] + NoWords()[..DIRECT - 1], 0, 0, false, 1)
  }

  lemma SmallMapped()
    ensures Mapped(SmallDisk(), [true, true, true], SmallInode())
    ensures All(SmallDisk(), SmallInode()) == [2]
  {
    hide Kids, WfKids, DataKids, Tree, Data, WfTree, NoWords, Zeros;
    var D, d := SmallDisk(), SmallInode();
    SmallDirect(D, d.direct);
    EmptyTree(D, 0, 0, 1);
    EmptyTree(D, 0, 0, 2);
    EmptyWf(D, 0, 1);
    EmptyWf(D, 0, 2);
    AllZero(D, [2]);
  }

  lemma SmallDirect(D: Disk, p: seq<Word>)
    requires |D| == 4 && p == [2] + NoWords()[..DIRECT - 1]
    ensures WfKids(D, p, 1, 1) && Kids(D, p, 1, 1) == [2] && DataKids(D, p, 1, 1) == [2]
  {
    hide NoWords;
    assert p[1..] == NoWords()[..DIRECT - 1];
    NoKids(D, 1, DIRECT - 1);
  }

  lemma AllZero(D: Disk, data: seq<nat>)
    requires D == SmallDisk() && data == [2]
    ensures ZeroFrom(D, data, 1)
  {}

  /** So the file is broken by writing nothing at its start. */
  lemma ShrinkExample()
    ensures Mapped(SmallDisk(), [true, true, true], SmallInode())
    ensures !Mapped(SmallDisk()[1 := Encode(SmallInode().(length := 0))], [true, true, true], SmallInode().(length := 0))
  {
    hide Mapped, All, SmallDisk;
    SmallMapped();
    SmallSize();
    ShrinkBreaks(SmallDisk(), [true, true, true], SmallInode(), 1, Encode(SmallInode().(length := 0)));
  }

  lemma SmallSize()
    ensures |SmallDisk()| == 4 && Encodable(SmallInode())
  {}

  /** With 123 free sectors a new file of 124 data sectors runs out of them where
      its indirect block is due, and the free map's header in sector 0 is lost. */
  lemma ClobberExample(bits: seq<bool>)
    requires FreeCount(bits) == DIRECT
    ensures !Enough(bits, 0, Target(SECTOR_SIZE * (DIRECT + 1)))
    ensures InodeClobbers(0, Target(SECTOR_SIZE * (DIRECT + 1)), FreeCount(bits))
  {
    hide FreeCount, Total, Target;
    LongTarget();
    TotalClosed(0);
    TotalClosed(DIRECT + 1);
  }

  lemma LongTarget()
    ensures Target(SECTOR_SIZE * (DIRECT + 1)) == DIRECT + 1
  {}
}
