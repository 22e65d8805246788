/** Runs of the file system: whatever is created, written, removed or refused,
    in any order and on any number of files, each file behaves as a byte
    sequence of its own and no sector ever has two owners. */
module Runs {
  import opened Sequences
  import opened Sectors
  import opened FirstFit
  import opened Layout
  import opened Growth
  import opened Staying
  import opened Inodes
  import opened Positions
  import opened Contents
  import opened InodeGrowth
  import opened Writes
  import opened Reserving
  import opened Freeing
  import opened Files

  // INODE is the free map's inode, HEADS the headers of files, LOOSE allocated sectors without a header yet.
  datatype State = State(disk: Disk, bits: seq<bool>, inode: InodeDisk, heads: set<nat>, loose: set<nat>)

  datatype Op =
    | Take(h: nat)                              // free_map_allocate(1, &h)
    | Make(h: nat, length: nat, isDir: bool)    // inode_create
    | Put(h: nat, ofs: nat, data: seq<Byte>)    // inode_write_at
    | Remove(h: nat)                            // inode_remove and the last inode_close
    | Return(h: nat)                            // free_map_release(h, 1) of a sector without a header
    | Abandon(h: nat)                           // free_map_release(h, 1) of a header, when its file gets no name
    | Refuse(h: nat, length: nat, isDir: bool)  // inode_create or inode_write_at without room

  /** The global invariant. */
  ghost predicate Good(s: State) {
    && Consistent(s.disk, s.bits, s.inode, s.heads)
    && forall x :: x in s.loose ==>
         && 0 < x < |s.bits| && s.bits[x] && x !in All(s.disk, s.inode)
         && forall h :: h in s.heads ==> x !in Own(s.disk, h)
  }

  ghost predicate Tight(s: State) {
    NoLeak(s.disk, s.bits, s.inode, s.heads, s.loose)
  }

  // The inode a refused operation was about.
  ghost function Subject(s: State, h: nat, isDir: bool): InodeDisk {
    if h in s.heads then Ino(s.disk, h) else Blank(isDir)
  }

  /** One operation, in terms of what the methods promise. */
  ghost predicate Step(s: State, op: Op, t: State) {
    var map_ := Elems(All(s.disk, s.inode));
    && t.inode == s.inode && MapKept(s.disk, s.bits, t.disk, t.bits, s.inode)
    && match op
       case Take(h) =>
         && TakeFree(s.bits, 1) == [h] && t.bits == After(s.bits, 1) && Frame(s.disk, t.disk, s.bits, map_)
         && t.heads == s.heads && t.loose == s.loose + {h}
       case Make(h, length, isDir) =>
         && h in s.loose && h !in s.heads
         && Extended(s.disk, s.bits, Blank(isDir), h, t.disk, t.bits, Ino(t.disk, h), length, map_)
         && t.heads == s.heads + {h} && t.loose == s.loose - {h}
       case Put(h, ofs, data) =>
         && h in s.heads
         && Written(s.disk, s.bits, Ino(s.disk, h), h, t.disk, t.bits, Ino(t.disk, h), ofs, data, map_)
         && t.heads == s.heads && t.loose == s.loose
       case Remove(h) =>
         && h in s.heads
         && Freed(s.disk, s.bits, Own(s.disk, h), t.disk, t.bits, map_)
         && t.heads == s.heads - {h} && t.loose == s.loose
       case Return(h) =>
         && h in s.loose
         && Freed(s.disk, s.bits, [h], t.disk, t.bits, map_)
         && t.heads == s.heads && t.loose == s.loose - {h}
       case Abandon(h) =>
         && h in s.heads
         && Freed(s.disk, s.bits, [h], t.disk, t.bits, map_)
         && t.heads == s.heads - {h} && t.loose == s.loose
       case Refuse(h, length, isDir) =>
         && h in s.heads + s.loose
         && Refused(s.disk, s.bits, Subject(s, h, isDir), length, t.disk, t.bits, map_)
         && t.heads == s.heads - {h} && t.loose == s.loose
  }

  /** What the operation means for the files. */
  ghost function Effect(op: Op, files: map<nat, seq<Byte>>): map<nat, seq<Byte>> {
    match op
    case Make(h, length, _) => files[h := seq(length, _ => 0)]
    case Put(h, ofs, data) => if h in files then files[h := Splice(files[h], ofs, data)] else files
    case Remove(h) => files - {h}
    case Abandon(h) => files - {h}
    case Refuse(h, _, _) => files - {h}
    case _ => files
  }

  ghost function Effects(ops: seq<Op>, files: map<nat, seq<Byte>>): map<nat, seq<Byte>> {
    if ops == [] then files else Effect(ops[|ops| - 1], Effects(ops[..|ops| - 1], files))
  }

  ghost predicate Meaning(s: State, op: Op, t: State) {
    && Good(t) && AllFiles(t.disk, t.heads) == Effect(op, AllFiles(s.disk, s.heads))
    && (Tight(s) && !op.Refuse? && !op.Abandon? ==> Tight(t))
  }

  // ----- the single operations -----

  // Sectors without a header stay so.
  ghost predicate LooseKept(s: State, t: State) {
    forall x :: x in t.loose ==>
      && 0 < x < |t.bits| && t.bits[x] && x !in All(s.disk, s.inode) && forall h :: h in t.heads ==> x !in Own(t.disk, h)
  }

  lemma Concluded(s: State, t: State)
    requires Good(s) && t.inode == s.inode && MapKept(s.disk, s.bits, t.disk, t.bits, s.inode)
    requires Consistent(t.disk, t.bits, t.inode, t.heads)
    requires LooseKept(s, t)
    ensures Good(t)
  {
    hide MapFine, All, Own, Fine, Consistent;
    forall x | x in t.loose
      ensures x !in All(t.disk, t.inode)
    {
      assert x !in Elems(All(s.disk, s.inode));
    }
  }

  // Nothing happens to any file.
  lemma NoFileTouched(s: State, t: State, h: nat)
    requires Good(s) && t.inode == s.inode && t.heads == s.heads && MapKept(s.disk, s.bits, t.disk, t.bits, s.inode)
    requires h !in s.heads
    requires forall g :: g in s.heads ==> SameOn(s.disk, t.disk, Own(s.disk, g)) && AllAre(t.bits, Own(s.disk, g), true)
    ensures Consistent(t.disk, t.bits, t.inode, t.heads)
    ensures forall g :: g in s.heads ==> Own(t.disk, g) == Own(s.disk, g)
    ensures AllFiles(t.disk, t.heads) == AllFiles(s.disk, s.heads)
  {
    hide MapFine, All, Own, Fine, Consistent, Bytes, SameOn, AllAre;
    Kept(s.disk, s.bits, t.disk, t.bits, s.inode, s.heads, h);
    assert s.heads - {h} == s.heads;
  }

  lemma HeadsMarked(s: State)
    requires Good(s)
    ensures forall g :: g in s.heads ==> AllAre(s.bits, Own(s.disk, g), true) && g in Own(s.disk, g)
    ensures forall g :: g in s.heads ==> Apart(Own(s.disk, g), All(s.disk, s.inode))
    ensures 0 < |s.bits| < |s.disk| && s.bits[0] && forall x :: x in All(s.disk, s.inode) ==> x < |s.bits| && s.bits[x]
  {
    hide All, Ino, Mapped;
    MapRange(s.disk, s.bits, s.inode);
  }

  lemma TakeKeeps(s: State, op: Op, t: State)
    requires Good(s) && op.Take? && Step(s, op, t)
    ensures Meaning(s, op, t)
  {
    hide MapFine, All, Own, After, TakeFree, Mapped, Fine, Consistent, Bytes, MapKept;
    HeadsMarked(s);
    TakeFacts(s.bits, 1);
    assert op.h in TakeFree(s.bits, 1);
    NoFileTouched(s, t, op.h);
    Concluded(s, t);
    if Tight(s) {
      TightAfter(s, t);
    }
  }

  lemma ReturnKeeps(s: State, op: Op, t: State)
    requires Good(s) && op.Return? && Step(s, op, t)
    ensures Meaning(s, op, t)
  {
    hide MapFine, All, Own, Mapped, Fine, Consistent, Bytes, MapKept;
    HeadsMarked(s);
    NoFileTouched(s, t, op.h);
    Concluded(s, t);
    if Tight(s) {
      TightAfter(s, t);
    }
  }

  lemma TightAfter(s: State, t: State)
    requires Tight(s) && t.inode == s.inode && t.heads == s.heads && MapKept(s.disk, s.bits, t.disk, t.bits, s.inode)
    requires forall g :: g in s.heads ==> Own(t.disk, g) == Own(s.disk, g)
    requires forall x :: 0 <= x < |s.bits| && t.bits[x] ==> if s.bits[x] then x in s.loose ==> x in t.loose else x in t.loose
    ensures Tight(t)
  {
    hide MapFine, All, Own;
    forall x | 0 <= x < |t.bits| && t.bits[x]
      ensures x == 0 || x in t.loose || x in All(t.disk, t.inode) || exists h :: h in t.heads && x in Own(t.disk, h)
    {
      if x in All(s.disk, s.inode) {
        assert x in Elems(All(s.disk, s.inode));
        assert x in Elems(All(t.disk, t.inode));
      } else if s.bits[x] && x != 0 && x !in s.loose {
        var g :| g in s.heads && x in Own(s.disk, g);
        assert x in Own(t.disk, g);
      }
    }
  }

  // ----- creating and writing -----

  // The file of an operation that succeeds is as the ownership rules want it.
  lemma HeadSeparate(s: State, h: nat)
    requires Good(s) && h in s.heads
    ensures Separate(s.disk, s.bits, s.inode, s.heads, h, Ino(s.disk, h))
    ensures h < |s.disk| && Encodable(Ino(s.disk, h)) && s.disk[h] == Encode(Ino(s.disk, h))
  {
    hide MapFine, All, Ino, Mapped, Encode, Decode;
    assert Own(s.disk, h) == [h] + All(s.disk, Ino(s.disk, h));
  }

  lemma LooseSeparate(s: State, h: nat, isDir: bool)
    requires Good(s) && h in s.loose
    ensures Separate(s.disk, s.bits, s.inode, s.heads, h, Blank(isDir)) && All(s.disk, Blank(isDir)) == []
  {
    hide MapFine, All, Mapped, Consistent, Own, Blank, Num, Separate;
    BlankMapped(s.disk, s.bits, isDir);
    BareSeparate(s.disk, s.bits, s.inode, s.heads, h, Blank(isDir));
  }

  lemma BareSeparate(D: Disk, B: seq<bool>, m: InodeDisk, heads: set<nat>, h: nat, d: InodeDisk)
    requires 0 < h < |B| && B[h] && Mapped(D, B, d) && All(D, d) == [] && h !in All(D, m)
    requires forall g :: g in heads ==> h !in Own(D, g)
    ensures Separate(D, B, m, heads, h, d)
  {
    hide All, Mapped, Own;
    assert [h] + All(D, d) == [h];
  }

  lemma LooseAfter(s: State, t: State, h: nat, T0: seq<nat>, k: nat)
    requires Good(s) && t.bits == After(s.bits, k) && t.heads == s.heads + {h} && t.loose == s.loose - {h}
    requires forall g :: g in s.heads && g != h ==> Own(t.disk, g) == Own(s.disk, g)
    requires Own(t.disk, h) == [h] + T0 + TakeFree(s.bits, k)
    requires forall x :: x in t.loose ==> x !in T0
    ensures LooseKept(s, t)
  {
    hide Consistent, All, Own, TakeFree, After;
    TakeFacts(s.bits, k);
  }

  // Both kinds of growth in one form.
  lemma MadeLarger(s: State, h: nat, length: nat, isDir: bool, t: State) returns (k: nat)
    requires Extended(s.disk, s.bits, Blank(isDir), h, t.disk, t.bits, Ino(t.disk, h), length, Elems(All(s.disk, s.inode)))
    ensures Larger(s.disk, s.bits, s.inode, h, Blank(isDir), k, t.disk, t.bits, Ino(t.disk, h))
    ensures Mapped(t.disk, t.bits, Ino(t.disk, h))
    ensures Content(t.disk, Ino(t.disk, h)) == seq(length, _ => 0)
  {
    hide All, Ino, Mapped, Content, After, TakeFree, Frame, Encode, Blank, Num, ExtraTotal;
    var d0, d1 := Blank(isDir), Ino(t.disk, h);
    k := ExtraTotal(Num(d0), Num(d1));
    BlankMapped(s.disk, s.bits, isDir);
  }

  lemma PutLarger(s: State, h: nat, ofs: nat, data: seq<Byte>, t: State) returns (k: nat)
    requires h < |s.disk| && Encodable(Ino(s.disk, h)) && s.disk[h] == Encode(Ino(s.disk, h))
    requires Written(s.disk, s.bits, Ino(s.disk, h), h, t.disk, t.bits, Ino(t.disk, h), ofs, data, Elems(All(s.disk, s.inode)))
    ensures Larger(s.disk, s.bits, s.inode, h, Ino(s.disk, h), k, t.disk, t.bits, Ino(t.disk, h))
    ensures Mapped(t.disk, t.bits, Ino(t.disk, h))
    ensures Content(t.disk, Ino(t.disk, h)) == Splice(Bytes(s.disk, h), ofs, data)
  {
    hide All, Ino, Mapped, Content, After, TakeFree, Frame, Encode;
    k := ExtraTotal(Num(Ino(s.disk, h)), Num(Ino(t.disk, h)));
  }

  lemma MakeKeeps(s: State, op: Op, t: State)
    requires Good(s) && op.Make? && Step(s, op, t)
    ensures Meaning(s, op, t)
  {
    hide MapFine, All, Own, Mapped, Fine, Consistent, Extended, Separate, Larger, Ino, After, TakeFree, Content;
    var h, d0 := op.h, Blank(op.isDir);
    LooseSeparate(s, h, op.isDir);
    var k := MadeLarger(s, h, op.length, op.isDir, t);
    LargerKeeps(s.disk, s.bits, s.inode, s.heads, h, d0, k, t.disk, t.bits, Ino(t.disk, h), s.loose);
    LargerBits(s, h, d0, k, t);
    LooseAfter(s, t, h, All(s.disk, d0), k);
    Concluded(s, t);
  }

  lemma LargerBits(s: State, h: nat, d0: InodeDisk, k: nat, t: State)
    requires Larger(s.disk, s.bits, s.inode, h, d0, k, t.disk, t.bits, Ino(t.disk, h))
    ensures t.bits == After(s.bits, k)
  {}

  lemma PutKeeps(s: State, op: Op, t: State)
    requires Good(s) && op.Put? && Step(s, op, t)
    ensures Meaning(s, op, t)
  {
    hide MapFine, All, Mapped, Fine, Consistent, Written, Separate, Larger, Ino, After, TakeFree, Content, Splice;
    var h, d0 := op.h, Ino(s.disk, op.h);
    HeadSeparate(s, h);
    var k := PutLarger(s, h, op.ofs, op.data, t);
    LargerKeeps(s.disk, s.bits, s.inode, s.heads, h, d0, k, t.disk, t.bits, Ino(t.disk, h), s.loose);
    LargerBits(s, h, d0, k, t);
    assert s.heads + {h} == s.heads;
    OwnTree(s.disk, h);
    assert s.loose - {h} == s.loose;
    LooseAfter(s, t, h, All(s.disk, d0), k);
    Concluded(s, t);
  }

  // ----- removing and refusing -----

  lemma HeaderAside(s: State, g: nat)
    requires Good(s) && g in s.heads
    ensures 0 < g < |s.bits| < |s.disk| && s.bits[g] && g !in Elems(All(s.disk, s.inode)) && g !in s.loose
    ensures forall h :: h in s.heads && h != g ==> g !in Own(s.disk, h) && g !in Elems(All(s.disk, Ino(s.disk, h)))
  {
    hide All, Mapped, Ino, MapFine;
    HeadsMarked(s);
    FileHoldings(s.disk, s.bits, g);
    assert g in Own(s.disk, g);
    forall h | h in s.heads && h != g
      ensures g !in Own(s.disk, h) && g !in Elems(All(s.disk, Ino(s.disk, h)))
    {
      assert Apart(Own(s.disk, g), Own(s.disk, h));
      OwnTree(s.disk, h);
    }
  }

  lemma RemoveKeeps(s: State, op: Op, t: State)
    requires Good(s) && op.Remove? && Step(s, op, t)
    ensures Meaning(s, op, t)
  {
    hide MapFine, All, Own, Mapped, Fine, Consistent, Freed, Bytes, LooseKept, MapKept;
    RemovalKeeps(s.disk, s.bits, s.inode, s.heads, op.h, t.disk, t.bits, s.loose);
    RemovedLoose(s, op.h, t);
    Concluded(s, t);
  }

  lemma RemovedLoose(s: State, h: nat, t: State)
    requires Good(s) && h in s.heads && t.heads == s.heads - {h} && t.loose == s.loose
    requires Freed(s.disk, s.bits, Own(s.disk, h), t.disk, t.bits, Elems(All(s.disk, s.inode)))
    requires forall g :: g in s.heads && g != h ==> Own(t.disk, g) == Own(s.disk, g)
    ensures LooseKept(s, t)
  {
    hide Consistent, All, Own, Frame;
  }

  lemma AbandonKeeps(s: State, op: Op, t: State)
    requires Good(s) && op.Abandon? && Step(s, op, t)
    ensures Meaning(s, op, t)
    ensures forall g :: g in t.heads ==> Own(t.disk, g) == Own(s.disk, g)
  {
    hide MapFine, All, Own, Mapped, Fine, Consistent, Bytes, MapKept, Ino;
    var h := op.h;
    HeadsMarked(s);
    forall g | g in s.heads && g != h
      ensures SameOn(s.disk, t.disk, Own(s.disk, g)) && AllAre(t.bits, Own(s.disk, g), true)
    {
      HeaderAside(s, h);
    }
    Kept(s.disk, s.bits, t.disk, t.bits, s.inode, s.heads, h);
    HeaderAside(s, h);
    Concluded(s, t);
  }

  lemma AbandonBits(s: State, h: nat, t: State)
    requires Step(s, Abandon(h), t)
    ensures t.bits == ClearAll(s.bits, [h]) && h in s.heads && t.heads == s.heads - {h} && t.loose == s.loose
    ensures t.inode == s.inode && Elems(All(t.disk, t.inode)) == Elems(All(s.disk, s.inode))
  {
    hide All, MapFine;
  }

  lemma EmptyTreeIf(s: State, h: nat)
    requires Good(s) && h in s.heads
    ensures All(s.disk, Ino(s.disk, h)) == [] <==> |Bytes(s.disk, h)| == 0
  {
    hide MapFine, Ino, AllSectors, WfInode, DataSectors, ZeroFrom, Encode, Total, Content;
    var d := Ino(s.disk, h);
    MappedFacts(s.disk, s.bits, d);
    InodeSize(s.disk, d, Num(d));
    TotalGrows(0, Num(d));
    TotalClosed(0);
  }

  // A sector of the abandoned tree has no owner any more.
  lemma Orphan(s: State, h: nat, t: State, x: nat)
    requires Good(s) && h in s.heads && x in All(s.disk, Ino(s.disk, h))
    requires t.bits == ClearAll(s.bits, [h]) && t.heads == s.heads - {h} && t.loose == s.loose && t.inode == s.inode
    requires Elems(All(t.disk, t.inode)) == Elems(All(s.disk, s.inode))
    requires forall g :: g in t.heads ==> Own(t.disk, g) == Own(s.disk, g)
    ensures !Tight(t)
  {
    hide MapFine, Mapped, Ino, All;
    OwnTree(s.disk, h);
    HeadSeparate(s, h);
    FileHoldings(s.disk, s.bits, h);
    NoDupParts([h], All(s.disk, Ino(s.disk, h)));
    assert h in [h];
    assert x < |t.bits| && t.bits[x] && x != 0;
    assert x !in Elems(All(t.disk, t.inode)) && x !in t.loose;
    forall g | g in t.heads
      ensures x !in Own(t.disk, g)
    {
      assert Apart(Own(s.disk, h), Own(s.disk, g));
    }
  }

  lemma NoOrphan(s: State, h: nat, t: State)
    requires Good(s) && Tight(s) && h in s.heads && All(s.disk, Ino(s.disk, h)) == []
    requires t.bits == ClearAll(s.bits, [h]) && t.heads == s.heads - {h} && t.loose == s.loose && t.inode == s.inode
    requires Elems(All(t.disk, t.inode)) == Elems(All(s.disk, s.inode))
    requires forall g :: g in t.heads ==> Own(t.disk, g) == Own(s.disk, g)
    ensures Tight(t)
  {
    hide Good, All, Ino;
    forall x | 0 <= x < |t.bits| && t.bits[x]
      ensures x == 0 || x in t.loose || x in All(t.disk, t.inode) || exists g :: g in t.heads && x in Own(t.disk, g)
    {
      if x in All(s.disk, s.inode) {
        assert x in Elems(All(s.disk, s.inode));
        assert x in Elems(All(t.disk, t.inode));
      } else if x != 0 && x !in s.loose {
        var g :| g in s.heads && x in Own(s.disk, g);
        assert x != h;
        assert g != h ==> x in Own(t.disk, g);
      }
    }
  }

  /** Abandoning a file loses its tree's sectors: none if and only if it has none,
      that is, if it is empty. */
  lemma AbandonLeaks(s: State, h: nat, t: State)
    requires Good(s) && Tight(s) && Step(s, Abandon(h), t)
    ensures Tight(t) <==> |Bytes(s.disk, h)| == 0
  {
    hide Good, Tight, Step, Ino, All, Bytes, Own;
    AbandonKeeps(s, Abandon(h), t);
    AbandonBits(s, h, t);
    EmptyTreeIf(s, h);
    var tree := All(s.disk, Ino(s.disk, h));
    if tree != [] {
      Orphan(s, h, t, tree[0]);
    } else {
      NoOrphan(s, h, t);
    }
  }

  lemma RefuseKeeps(s: State, op: Op, t: State)
    requires Good(s) && op.Refuse? && Step(s, op, t)
    ensures Meaning(s, op, t)
  {
    hide MapFine, All, Own, Mapped, Fine, Consistent, Refused, Ino, Blank, Num, Content;
    BlankMapped(s.disk, s.bits, op.isDir);
    RefusalKeeps(s.disk, s.bits, s.inode, s.heads, op.h, Subject(s, op.h, op.isDir), op.length, t.disk, t.bits);
    Concluded(s, t);
  }

  // ----- sector 0 -----

  // The free map's header is in sector 0, so the device can be opened again.
  ghost predicate Bootable(s: State) {
    0 < |s.disk| && Encodable(s.inode) && s.disk[0] == Encode(s.inode)
  }

  // A refused operation that ran out of sectors where an index block was due.
  ghost predicate Clobbers0(s: State, op: Op) {
    && op.Refuse?
    && var n := Num(Subject(s, op.h, op.isDir));
       !Enough(s.bits, n, Target(op.length)) && InodeClobbers(n, Target(op.length), FreeCount(s.bits))
  }

  lemma ZeroAside(s: State)
    requires Good(s)
    ensures 0 < |s.bits| < |s.disk| && s.bits[0] && 0 !in Elems(All(s.disk, s.inode))
    ensures forall g :: g in s.heads ==> 0 !in Own(s.disk, g) && 0 !in Elems(All(s.disk, Ino(s.disk, g)))
    ensures 0 !in s.loose && 0 !in s.heads
  {
    hide All, Mapped, Ino;
    MapRange(s.disk, s.bits, s.inode);
    forall g | g in s.heads
      ensures 0 !in Own(s.disk, g) && 0 !in Elems(All(s.disk, Ino(s.disk, g)))
    {
      FileHoldings(s.disk, s.bits, g);
      OwnTree(s.disk, g);
    }
  }

  lemma NotZeros(d: InodeDisk)
    requires Encodable(d)
    ensures Encode(d) != Zeros()
  {
    WordsRoundTrip(HeaderWords(d));
    ZeroWords();
    assert HeaderWords(d)[PTRS - 1] == INODE_MAGIC;
  }

  lemma RefusedZero(D0: Disk, B0: seq<bool>, d0: InodeDisk, len: nat, D1: Disk, B1: seq<bool>, other: set<nat>)
    requires Refused(D0, B0, d0, len, D1, B1, other)
    requires 0 < |B0| <= |D0| && B0[0] && 0 !in other && 0 !in Elems(All(D0, d0))
    ensures |D1| == |D0|
    ensures D1[0] == if !Enough(B0, Num(d0), Target(len)) && InodeClobbers(Num(d0), Target(len), FreeCount(B0)) then Zeros() else D0[0]
  {
    hide WfInode, AllSectors, IndexSectors, DataSectors, After, TakeFree, Total, InodeClobbers, FreeCount, Target, ExtraTotal, Num;
    InodeParts(D0, d0, Num(d0));
  }

  /** Only such an operation touches sector 0, and it fills it with zeros: the
      device stays bootable if and only if no operation was of that kind. */
  lemma SectorZero(s: State, op: Op, t: State)
    requires Good(s) && Step(s, op, t)
    ensures 0 < |s.disk| == |t.disk| && t.disk[0] == if Clobbers0(s, op) then Zeros() else s.disk[0]
    ensures Bootable(t) <==> Bootable(s) && !Clobbers0(s, op)
  {
    hide Good, All, Own, Mapped, Fine, Consistent, Ino, Blank, Num, Content, After, TakeFree, Target, Total, InodeClobbers,
      FreeCount, ExtraTotal, Encode, InodeGrown, Refused, InodeClobbers;
    ZeroAside(s);
    match op
    case Take(_) =>
    case Make(h, length, isDir) => BlankMapped(s.disk, s.bits, isDir);
    case Put(h, ofs, data) =>
    case Remove(h) =>
    case Return(h) =>
    case Abandon(h) =>
    case Refuse(h, length, isDir) => 
      BlankMapped(s.disk, s.bits, isDir);
      RefusedZero(s.disk, s.bits, Subject(s, h, isDir), length, t.disk, t.bits, Elems(All(s.disk, s.inode)));
    if Encodable(s.inode) {
      NotZeros(s.inode);
    }
  }

  // ----- headers of other files -----

  // A file's header is in use and no other sector of anybody.
  lemma OpenedSound(s: State, h: nat)
    requires Good(s) && h in s.heads
    ensures Mapped(s.disk, s.bits, Ino(s.disk, h)) && 0 < h < |s.bits| && s.bits[h] && h !in All(s.disk, Ino(s.disk, h))
    ensures h !in Elems(All(s.disk, s.inode)) && forall x :: x in All(s.disk, Ino(s.disk, h)) ==> x !in Elems(All(s.disk, s.inode))
  {
    hide MapFine, All, Ino, Mapped, Encode;
    HeadSeparate(s, h);
    assert h in [h] + All(s.disk, Ino(s.disk, h));
    assert forall x :: x in All(s.disk, Ino(s.disk, h)) ==> x in [h] + All(s.disk, Ino(s.disk, h));
    NoDupParts([h], All(s.disk, Ino(s.disk, h)));
    assert h in [h];
  }

  /** The header of a file that an operation is not about is as it was. */
  lemma HeaderKept(s: State, op: Op, t: State, g: nat)
    requires Good(s) && Step(s, op, t) && g in s.heads && g != op.h
    ensures Ino(t.disk, g) == Ino(s.disk, g)
  {
    hide Good, All, Own, Mapped, Fine, Consistent, Blank, Num, Content, After, TakeFree, Total, Decode, Encode, Refused;
    HeaderAside(s, g);
    match op
    case Take(_) =>
    case Make(h, length, isDir) => BlankMapped(s.disk, s.bits, isDir);
    case Put(h, ofs, data) =>
    case Remove(h) =>
    case Return(h) =>
    case Abandon(h) =>
    case Refuse(h, length, isDir) =>
      BlankMapped(s.disk, s.bits, isDir);
      var k := RefusedFrame(s.disk, s.bits, Subject(s, h, isDir), length, t.disk, t.bits, Elems(All(s.disk, s.inode)));
      WithinFile(s.disk, Subject(s, h, isDir), t.disk, s.bits, Elems(All(s.disk, s.inode)));
  }

  // ----- runs -----

  lemma StepKeeps(s: State, op: Op, t: State)
    requires Good(s) && Step(s, op, t)
    ensures Meaning(s, op, t)
  {
    hide Good, Step, Meaning;
    match op
    case Take(_) => TakeKeeps(s, op, t);
    case Make(_, _, _) => MakeKeeps(s, op, t);
    case Put(_, _, _) => PutKeeps(s, op, t);
    case Remove(_) => RemoveKeeps(s, op, t);
    case Return(_) => ReturnKeeps(s, op, t);
    case Abandon(_) => AbandonKeeps(s, op, t);
    case Refuse(_, _, _) => RefuseKeeps(s, op, t);
  }

  // Headers and loose sectors after an operation.
  function HeadsAfter(heads: set<nat>, op: Op): set<nat> {
    match op
    case Make(h, _, _) => heads + {h}
    case Remove(h) => heads - {h}
    case Abandon(h) => heads - {h}
    case Refuse(h, _, _) => heads - {h}
    case _ => heads
  }

  function LooseAfterOp(loose: set<nat>, op: Op): set<nat> {
    match op
    case Take(h) => loose + {h}
    case Make(h, _, _) => loose - {h}
    case Return(h) => loose - {h}
    case _ => loose
  }

  lemma StepShape(s: State, op: Op, t: State)
    requires Step(s, op, t)
    ensures t.heads == HeadsAfter(s.heads, op) && t.loose == LooseAfterOp(s.loose, op)
    ensures op.Take? ==> t.bits == After(s.bits, 1)
    ensures op.Put? || op.Remove? || op.Abandon? ==> op.h in s.heads
    ensures op.Make? || op.Return? ==> op.h in s.loose
  {
    hide MapKept, Extended, Written, Freed, Refused, Ino, All, Own, TakeFree, After, Frame;
  }

  /** A refused write leaves the file it was meant for as it was, header and bytes. */
  lemma RefusedStill(s: State, op: Op, t: State)
    requires Good(s) && op.Refuse? && op.h in s.heads && Step(s, op, t)
    ensures Ino(t.disk, op.h) == Ino(s.disk, op.h) && Bytes(t.disk, op.h) == Bytes(s.disk, op.h)
  {
    hide Good, MapKept, Ino, All, Refused, Mapped, Content, Readable, Keeps, Blank;
    var h := op.h;
    OpenedSound(s, h);
    HeaderAside(s, h);
    LongerSelf(Ino(s.disk, h));
    RefusedSame(s.disk, s.bits, Ino(s.disk, h), h, op.length, t.disk, t.bits, Ino(s.disk, h), Elems(All(s.disk, s.inode)));
    SameSector(s.disk, t.disk, h);
  }

  lemma SameSector(D0: Disk, D1: Disk, h: nat)
    requires h < |D0| == |D1| && D1[h] == D0[h]
    ensures Ino(D1, h) == Ino(D0, h)
  {
    hide Decode;
  }

  // A file stays what it was made as.
  lemma StepKind(s: State, op: Op, t: State)
    requires Step(s, op, t)
    ensures op.Make? ==> Ino(t.disk, op.h).isDir == op.isDir
    ensures op.Put? ==> Ino(t.disk, op.h).isDir == Ino(s.disk, op.h).isDir
  {
    hide MapKept, Freed, Refused, Ino, All, Own, TakeFree, After, Frame, Mapped, Content, Encode, Splice, Blank, Num, ExtraTotal, Elems;
    if op.Make? {
      BlankKind(op.isDir);
    }
  }

  lemma BlankKind(isDir: bool)
    ensures Blank(isDir).isDir == isDir
  {}

  /** The same from the point of view of the single files: what the operation does
      to its own file, and that it does nothing to the others. */
  lemma StepMeans(s: State, op: Op, t: State)
    requires Good(s) && Step(s, op, t)
    ensures Good(t) && t.heads == HeadsAfter(s.heads, op) && t.loose == LooseAfterOp(s.loose, op)
    ensures forall g :: g in s.heads && g != op.h ==> g in t.heads && Bytes(t.disk, g) == Bytes(s.disk, g) && Ino(t.disk, g) == Ino(s.disk, g)
    ensures op.Put? || op.Remove? || op.Abandon? ==> op.h in s.heads
    ensures op.Make? ==> Bytes(t.disk, op.h) == seq(op.length, _ => 0) && Ino(t.disk, op.h).isDir == op.isDir
    ensures op.Refuse? && op.h in s.heads ==> Ino(t.disk, op.h) == Ino(s.disk, op.h) && Bytes(t.disk, op.h) == Bytes(s.disk, op.h)
    ensures op.Put? ==> Ino(t.disk, op.h).isDir == Ino(s.disk, op.h).isDir
    ensures op.Put? ==> Bytes(t.disk, op.h) == Splice(Bytes(s.disk, op.h), op.ofs, op.data)
  {
    hide Good, Step, Tight, Bytes, Ino, Splice;
    StepShape(s, op, t);
    StepKind(s, op, t);
    StepKeeps(s, op, t);
    var files, files' := AllFiles(s.disk, s.heads), AllFiles(t.disk, t.heads);
    forall g | g in s.heads && g != op.h
      ensures g in t.heads && Bytes(t.disk, g) == Bytes(s.disk, g) && Ino(t.disk, g) == Ino(s.disk, g)
    {
      HeaderKept(s, op, t, g);
      assert files'[g] == Effect(op, files)[g] == files[g];
    }
    if op.Refuse? && op.h in s.heads {
      RefusedStill(s, op, t);
    }
    if op.Make? || op.Put? {
      assert files'[op.h] == Effect(op, files)[op.h];
    }
  }

  ghost predicate IsRun(ss: seq<State>, ops: seq<Op>) {
    |ss| == |ops| + 1 && forall i :: 0 <= i < |ops| ==> Step(ss[i], ops[i], ss[i + 1])
  }

  /** Every run keeps the invariant, and its files are what its operations mean,
      one after the other; if nothing was refused, no sector has been lost. */
  lemma {:induction false} RunKeeps(ss: seq<State>, ops: seq<Op>)
    requires IsRun(ss, ops) && Good(ss[0])
    ensures var s, t := ss[0], ss[|ops|];
            && Good(t) && AllFiles(t.disk, t.heads) == Effects(ops, AllFiles(s.disk, s.heads))
            && (Tight(s) && (forall i :: 0 <= i < |ops| ==> !ops[i].Refuse? && !ops[i].Abandon?) ==> Tight(t))
    decreases |ops|
  {
    hide Good, Step, Tight, AllFiles, Effect;
    if ops != [] {
      var n := |ops| - 1;
      RunKeeps(ss[..n + 1], ops[..n]);
      StepKeeps(ss[n], ops[n], ss[n + 1]);
    }
  }
}
