/** One inode_write_at as a relation between states, put together from growing
    the inode, writing its header and overwriting bytes. */
module Writes {
  import opened Sequences
  import opened Sectors
  import opened FirstFit
  import opened Layout
  import opened Growth
  import opened Inodes
  import opened Positions
  import opened Contents
  import opened InodeGrowth

  function ExtraTotal(n0: nat, n1: nat): nat {
    if Total(n0) <= Total(n1) then Total(n1) - Total(n0) else 0
  }

  ghost predicate Enough(bits: seq<bool>, n0: nat, n1: nat) {
    ExtraTotal(n0, n1) <= FreeCount(bits)
  }

  /** The inode with header sector H has grown to LEN bytes and its header says
      so: new sectors come from the free list, the bytes are zero-extended. */
  ghost predicate Extended(D0: Disk, B0: seq<bool>, d0: InodeDisk, h: nat, D1: Disk, B1: seq<bool>, d1: InodeDisk, len: nat,
                           other: set<nat>) {
    && d1.length == len && d1.isDir == d0.isDir && Mapped(D1, B1, d1)
    && All(D1, d1) == All(D0, d0) + TakeFree(B0, ExtraTotal(Num(d0), Num(d1)))
    && B1 == After(B0, ExtraTotal(Num(d0), Num(d1)))
    && Content(D1, d1) == Splice(Content(D0, d0), len, [])
    && Frame(D0, D1, B0, other + Elems(All(D0, d0)) + {h})
    && h < |D1| && D1[h] == Encode(d1)
  }

  /** DATA written at OFS into the inode with header sector H. */
  ghost predicate Written(D0: Disk, B0: seq<bool>, d0: InodeDisk, h: nat, D1: Disk, B1: seq<bool>, d1: InodeDisk, ofs: nat,
                          data: seq<Byte>, other: set<nat>) {
    && d1.length == Max(d0.length, ofs + |data|) && d1.isDir == d0.isDir && Mapped(D1, B1, d1)
    && All(D1, d1) == All(D0, d0) + TakeFree(B0, ExtraTotal(Num(d0), Num(d1)))
    && B1 == After(B0, ExtraTotal(Num(d0), Num(d1)))
    && Content(D1, d1) == Splice(Content(D0, d0), ofs, data)
    && Frame(D0, D1, B0, other + Elems(All(D0, d0)) + {h})
    && h < |D1| && D1[h] == (if d1.length > d0.length then Encode(d1) else D0[h])
    && (d1.length == d0.length ==> d1 == d0)
  }

  // Growth alone: the bytes, the tree, what is left alone.
  lemma GrownContent(D0: Disk, B0: seq<bool>, d0: InodeDisk, D1: Disk, B1: seq<bool>, d: InodeDisk, len: nat, other: set<nat>)
    requires Mapped(D0, B0, d0) && |B0| <= |D0| && d0.length <= len < LENGTH_LIMIT
    requires Owned(B0, All(D0, d0), other) && forall x :: x in other ==> x < |B0| && B0[x]
    requires InodeGrown(D0, B0, d0, Num(d0), D1, B1, d, BytesToSectors(len), other)
    ensures var d1 := d.(length := len);
            && Mapped(D1, B1, d1)
            && All(D1, d1) == All(D0, d0) + TakeFree(B0, ExtraTotal(Num(d0), Num(d1)))
            && B1 == After(B0, ExtraTotal(Num(d0), Num(d1)))
            && Content(D1, d1) == Splice(Content(D0, d0), len, [])
            && Frame(D0, D1, B0, other + Elems(All(D0, d0)))
            && Owned(B1, All(D1, d1), other)
  {
    hide WfInode, AllSectors, DataSectors, IndexSectors, TakeFree, After, Total, Content, Owned, Frame, ByteAt, Splice;
    var d1 := d.(length := len);
    SameTree(D1, d, d1, Num(d1));
    GrownTree(D0, B0, d0, D1, B1, d1, other);
    GrownFlat(D0, B0, d0, D1, B1, d1, other);
    GrownZero(D0, d0, D1, d1);
  }

  // The sectors of an inode that has grown.
  lemma GrownTree(D0: Disk, B0: seq<bool>, d0: InodeDisk, D1: Disk, B1: seq<bool>, d1: InodeDisk, other: set<nat>)
    requires Mapped(D0, B0, d0) && Owned(B0, All(D0, d0), other) && forall x :: x in other ==> x < |B0| && B0[x]
    requires InodeGrown(D0, B0, d0, Num(d0), D1, B1, d1, Num(d1), other)
    ensures All(D1, d1) == All(D0, d0) + TakeFree(B0, ExtraTotal(Num(d0), Num(d1)))
    ensures B1 == After(B0, ExtraTotal(Num(d0), Num(d1)))
    ensures Frame(D0, D1, B0, other + Elems(All(D0, d0))) && Owned(B1, All(D1, d1), other)
    ensures NoDup(All(D1, d1)) && AllAre(B1, All(D1, d1), true)
  {
    hide WfInode, AllSectors, DataSectors, IndexSectors, TakeFree, After, Total, Mapped, Num;
    InodeParts(D0, d0, Num(d0));
    GrownOwned(D0, B0, All(D0, d0), IndexSectors(D0, d0, Num(d0)), D1, B1, All(D1, d1), Datas(D1, d1),
               ExtraTotal(Num(d0), Num(d1)), other);
  }

  // Its bytes up to the last sector's end.
  lemma GrownFlat(D0: Disk, B0: seq<bool>, d0: InodeDisk, D1: Disk, B1: seq<bool>, d1: InodeDisk, other: set<nat>)
    requires Mapped(D0, B0, d0) && |B0| <= |D0| && 0 <= d0.length <= d1.length
    requires Owned(B0, All(D0, d0), other)
    requires InodeGrown(D0, B0, d0, Num(d0), D1, B1, d1, Num(d1), other)
    ensures |Datas(D0, d0)| == Num(d0) <= |Datas(D1, d1)| == Num(d1)
    ensures forall j :: 0 <= j < SECTOR_SIZE * Num(d1) ==>
              ByteAt(D1, Datas(D1, d1), j) == if j < SECTOR_SIZE * Num(d0) then ByteAt(D0, Datas(D0, d0), j) else 0
    ensures ZeroFrom(D0, Datas(D0, d0), d0.length)
  {
    hide AllSectors, DataSectors, IndexSectors, TakeFree, After, Total, Owned, ByteAt, WfInode, Grow;
    InodeSize(D0, d0, Num(d0));
    InodeSize(D1, d1, Num(d1));
    forall j | 0 <= j < SECTOR_SIZE * Num(d1)
      ensures ByteAt(D1, Datas(D1, d1), j) == if j < SECTOR_SIZE * Num(d0) then ByteAt(D0, Datas(D0, d0), j) else 0
    {
      GrowBytes(D0, B0, d0, Num(d0), D1, B1, d1, Num(d1), Total(Num(d1)) - Total(Num(d0)), other, j);
    }
  }

  // So its contents have been extended with zeros, and what is past them is zero.
  lemma GrownZero(D0: Disk, d0: InodeDisk, D1: Disk, d1: InodeDisk)
    requires 0 <= d0.length <= d1.length
    requires |Datas(D0, d0)| == Num(d0) <= |Datas(D1, d1)| == Num(d1)
    requires forall j :: 0 <= j < SECTOR_SIZE * Num(d1) ==>
               ByteAt(D1, Datas(D1, d1), j) == if j < SECTOR_SIZE * Num(d0) then ByteAt(D0, Datas(D0, d0), j) else 0
    requires ZeroFrom(D0, Datas(D0, d0), d0.length)
    ensures ZeroFrom(D1, Datas(D1, d1), d1.length)
    ensures Content(D1, d1) == Splice(Content(D0, d0), d1.length, [])
  {
    hide DataSectors, ByteAt;
    assert d0.length <= SECTOR_SIZE * Num(d0) && d1.length <= SECTOR_SIZE * Num(d1);
    assert |Content(D1, d1)| == d1.length && |Content(D0, d0)| == d0.length;
  }

  // The length field is no part of the tree.
  lemma SameTree(disk: Disk, d: InodeDisk, d': InodeDisk, n: nat)
    requires d'.direct == d.direct && d'.indirect == d.indirect && d'.doubly == d.doubly
    ensures AllSectors(disk, d', n) == AllSectors(disk, d, n) && DataSectors(disk, d', n) == DataSectors(disk, d, n)
    ensures IndexSectors(disk, d', n) == IndexSectors(disk, d, n) && WfInode(disk, d', n) == WfInode(disk, d, n)
  {}

  lemma GrownOwned(D0: Disk, B0: seq<bool>, T0: seq<nat>, I0: seq<nat>, D1: Disk, B1: seq<bool>, T1: seq<nat>, L1: seq<nat>,
                   k: nat, other: set<nat>)
    requires Grow(D0, B0, T0, I0, D1, B1, T1, L1, k, other) && Owned(B0, T0, other)
    requires forall x :: x in other ==> x < |B0| && B0[x]
    requires forall x :: x in I0 ==> x in T0
    ensures Owned(B1, T1, other) && Frame(D0, D1, B0, other + Elems(T0))
  {
    assert T0 + [] == T0 && T1 + [] == T1;
    OwnedAfter(D0, B0, T0, I0, D1, B1, T1, L1, k, [], other);
  }

  /** Growth followed by writing the header is an extension. */
  lemma ExtendDone(D0: Disk, B0: seq<bool>, d0: InodeDisk, h: nat, D1: Disk, B1: seq<bool>, d: InodeDisk, len: nat, other: set<nat>)
    requires Mapped(D0, B0, d0) && |B0| <= |D0| == |D1| && d0.length <= len < LENGTH_LIMIT && d.isDir == d0.isDir
    requires Owned(B0, All(D0, d0), other) && forall x :: x in other ==> x < |B0| && B0[x]
    requires InodeGrown(D0, B0, d0, Num(d0), D1, B1, d, BytesToSectors(len), other)
    requires h < |B0| && B0[h] && h !in All(D0, d0) && h !in other && |d.direct| == DIRECT
    ensures var d1 := d.(length := len);
            && Extended(D0, B0, d0, h, D1[h := Encode(d1)], B1, d1, len, other)
            && Mapped(D1[h := Encode(d1)], B1, d1)
            && h !in All(D1[h := Encode(d1)], d1) && h < |B1| && B1[h]
            && (forall x :: x in All(D1[h := Encode(d1)], d1) ==> x !in other)
  {
    hide WfInode, AllSectors, DataSectors, IndexSectors, TakeFree, After, Total, Mapped, Owned, Encode, Content;
    var d1 := d.(length := len);
    GrownContent(D0, B0, d0, D1, B1, d, len, other);
    TakeFacts(B0, ExtraTotal(Num(d0), Num(d1)));
    assert h !in All(D1, d1);
    HeaderUntouched(D1, B1, d1, h, Encode(d1));
    OwnedApart(B1, All(D1, d1), other);
  }

  lemma ExtendedShape(D0: Disk, B0: seq<bool>, d0: InodeDisk, h: nat, D1: Disk, B1: seq<bool>, d1: InodeDisk, len: nat,
                      other: set<nat>)
    ensures Extended(D0, B0, d0, h, D1, B1, d1, len, other) ==> d1.length == len
  {}

  lemma OwnedApart(B: seq<bool>, T: seq<nat>, other: set<nat>)
    requires Owned(B, T, other)
    ensures forall x :: x in T ==> x !in other
  {}

  // A write that does not extend the inode leaves the header alone.
  lemma WithoutHeader(D0: Disk, D1: Disk, B0: seq<bool>, A: set<nat>, h: nat)
    requires Frame(D0, D1, B0, {} + A + {h}) && h < |D1| && D1[h] == D0[h]
    ensures Frame(D0, D1, B0, A)
  {}

  // Replacing all bytes.
  lemma SpliceAll(c: seq<Byte>, data: seq<Byte>)
    requires |c| == |data|
    ensures Splice(c, 0, data) == data
  {}

  lemma HeaderUntouched(D: Disk, B: seq<bool>, d: InodeDisk, h: nat, x: Sector)
    requires Mapped(D, B, d) && h < |D| && h !in All(D, d)
    ensures Mapped(D[h := x], B, d) && All(D[h := x], d) == All(D, d) && Content(D[h := x], d) == Content(D, d)
  {
    hide WfInode, AllSectors, DataSectors, IndexSectors, Content;
    Untouched(D, D[h := x], B, B, d);
  }

  /** Overwriting bytes before the end, after an extension or without one. */
  lemma WriteDone(D0: Disk, B0: seq<bool>, d0: InodeDisk, h: nat, D1: Disk, B1: seq<bool>, d1: InodeDisk, D2: Disk,
                  ofs: nat, data: seq<Byte>, other: set<nat>)
    requires Mapped(D0, B0, d0) && h < |B0| <= |D0| && B0[h] && h !in All(D0, d0)
    requires if ofs + |data| > d0.length then Extended(D0, B0, d0, h, D1, B1, d1, ofs + |data|, other) && h !in All(D1, d1)
             else D1 == D0 && B1 == B0 && d1 == d0
    requires Mapped(D2, B1, d1) && All(D2, d1) == All(D1, d1) && Datas(D2, d1) == Datas(D1, d1)
    requires OnlyIn(D1, D2, Datas(D1, d1))
    requires Flat(D2, Datas(D1, d1)) == Splice(Flat(D1, Datas(D1, d1)), ofs, data)
    ensures Written(D0, B0, d0, h, D2, B1, d1, ofs, data, other)
  {
    hide WfInode, AllSectors, DataSectors, IndexSectors, TakeFree, After, Total, Flat, Encode, Frame, OnlyIn;
    MappedFacts(D0, B0, d0);
    MappedFacts(D1, B1, d1) by { hide Mapped; }
    SplicePrefix(Flat(D1, Datas(D1, d1)), d1.length, ofs, data);
    NoExtra(Num(d0), B0);
    WriteFrame(D0, B0, All(D0, d0), D1, B1, All(D1, d1), Datas(D1, d1), ExtraTotal(Num(d0), Num(d1)), D2, h, other);
  }

  lemma NoExtra(n: nat, B: seq<bool>)
    ensures ExtraTotal(n, n) == 0 && TakeFree(B, 0) == [] && After(B, 0) == B
  {}

  lemma WriteFrame(D0: Disk, B0: seq<bool>, A0: seq<nat>, D1: Disk, B1: seq<bool>, A1: seq<nat>, L1: seq<nat>, k: nat, D2: Disk,
                   h: nat, other: set<nat>)
    requires A1 == A0 + TakeFree(B0, k) && (forall x :: x in L1 ==> x in A1)
    requires Frame(D0, D1, B0, other + Elems(A0) + {h}) && OnlyIn(D1, D2, L1)
    requires h < |D1| && h !in A1
    ensures Frame(D0, D2, B0, other + Elems(A0) + {h}) && h < |D2| && D2[h] == D1[h]
  {
    TakeMarks(B0, k);
  }

  lemma BlankTree(D: Disk, isDir: bool)
    ensures var d := Blank(isDir);
            WfInode(D, d, 0) && AllSectors(D, d, 0) == [] && DataSectors(D, d, 0) == []
  {
    hide Kids, DataKids, WfKids, NoWords;
    BlankPointers(isDir);
    NoKids(D, 1, DIRECT);
    EmptyTree(D, 0, 0, 1);
    EmptyTree(D, 0, 0, 2);
  }

  lemma BlankPointers(isDir: bool)
    ensures Blank(isDir).direct == NoWords()[..DIRECT] && |Blank(isDir).direct| == DIRECT
  {}

  /** A blank inode is mapped and has no sectors. */
  lemma BlankMapped(D: Disk, B: seq<bool>, isDir: bool)
    ensures Mapped(D, B, Blank(isDir)) && All(D, Blank(isDir)) == [] && Content(D, Blank(isDir)) == []
    ensures Num(Blank(isDir)) == 0
  {
    hide WfInode, AllSectors, DataSectors;
    BlankTree(D, isDir);
  }

  // Growth by nothing.
  lemma NothingGrown(D: Disk, B: seq<bool>, d: InodeDisk, n: nat, other: set<nat>)
    requires WfInode(D, d, n) && forall x :: x in DataSectors(D, d, n) ==> x < |B| && B[x]
    ensures InodeGrown(D, B, d, n, D, B, d, n, other)
  {
    hide WfInode, AllSectors, DataSectors, IndexSectors;
    assert AllSectors(D, d, n) + TakeFree(B, 0) == AllSectors(D, d, n);
  }

  lemma BlankGrown(D: Disk, B: seq<bool>, isDir: bool, other: set<nat>)
    ensures InodeGrown(D, B, Blank(isDir), 0, D, B, Blank(isDir), 0, other)
  {
    hide WfInode, AllSectors, DataSectors, IndexSectors;
    BlankMapped(D, B, isDir);
    InodeParts(D, Blank(isDir), 0);
    NothingGrown(D, B, Blank(isDir), 0, other);
  }

  // What creation leaves behind, in particular the header that a later inode_open reads.
  lemma CreatedHeader(D0: Disk, B0: seq<bool>, isDir: bool, h: nat, D1: Disk, B1: seq<bool>, d1: InodeDisk, len: nat, other: set<nat>)
    requires Extended(D0, B0, Blank(isDir), h, D1, B1, d1, len, other)
    ensures h < |D1| && Encodable(d1) && D1[h] == Encode(d1) && Mapped(D1, B1, d1) && d1.length == len
    ensures All(D1, d1) == TakeFree(B0, ExtraTotal(0, Num(d1))) && B1 == After(B0, ExtraTotal(0, Num(d1)))
  {
    hide All, Num, Blank, Mapped, TakeFree, After, ExtraTotal, Content, Frame, Encode, Splice;
    BlankMapped(D0, B0, isDir);
    MappedEncodable(D1, B1, d1);
  }

  lemma FrameAt(D0: Disk, D1: Disk, B: seq<bool>, W: set<nat>, s: nat)
    requires Frame(D0, D1, B, W) && s < |B| && B[s] && s !in W && s < |D0|
    ensures D1[s] == D0[s]
  {}
}
