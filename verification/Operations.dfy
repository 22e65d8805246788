/** The operations on whole files (inode.c, and the sector a file gets in
    filesys.c), each shown to be a step of the runs that RunKeeps is about. */
module Operations {
  import opened Sequences
  import opened Sectors
  import opened FirstFit
  import opened Layout
  import opened Growth
  import opened Staying
  import opened Inodes
  import opened Positions
  import opened Contents
  import opened Writes
  import opened Bitmaps
  import opened Reserving
  import opened Freeing
  import opened Files
  import opened Runs
  import opened FileSystems

  // The file system FS, with its free map's file open, is in state S.
  ghost predicate Shows(fs: FileSystem, s: State)
    reads fs, fs.Foot(), fs.fm
  {
    && fs.Core() && fs.Persisted() && fs.fm != null
    && s.disk == fs.Disk() && s.bits == fs.Bits() && s.inode == fs.fm.data
  }

  // INODE is an open inode of file INODE.sector.
  ghost predicate Opened(fs: FileSystem, s: State, inode: Inode)
    reads fs, inode
  {
    && inode as object !in fs.Foot() && inode != fs.fm
    && inode.sector in s.heads && inode.data == Ino(s.disk, inode.sector)
  }

  // inode_open of a file.
  method OpenFile(fs: FileSystem, h: nat, ghost s: State) returns (inode: Inode)
    requires Shows(fs, s) && Good(s) && h in s.heads
    modifies fs.cache`clock, fs.cache.cache, fs.cache.device
    ensures Shows(fs, s) && fresh(inode) && inode.sector == h && Opened(fs, s, inode)
  {
    hide Mapped, All, Content, Stores, Good, Packs, Decode;
    HeaderAside(s, h);
    inode := fs.Open(h);
  }

  /** inode_read_at on an open file: exactly the file's bytes, clipped to its length. */
  method ReadFile(fs: FileSystem, inode: Inode, size: nat, offset: nat, ghost s: State) returns (buffer: seq<Byte>)
    requires Shows(fs, s) && Good(s) && Opened(fs, s, inode)
    modifies fs.cache`clock, fs.cache.cache, fs.cache.device
    ensures Shows(fs, s)
    ensures var bytes := AllFiles(s.disk, s.heads)[inode.sector];
            buffer == if offset < |bytes| then bytes[offset..Min(offset + size, |bytes|)] else []
  {
    hide Readable, All, DataSectors, Flat, Mapped, Ino, Content, Stores, Good;
    OpenedSound(s, inode.sector);
    MappedReadable(s.disk, s.bits, inode.data);
    buffer := fs.ReadAt(inode, size, offset);
  }

  /** inode_write_at on an open file.  It writes all or nothing: all if and only if
      the sectors for the new length exist and are free. */
  method WriteFile(fs: FileSystem, inode: Inode, buffer: seq<Byte>, offset: nat, ghost s: State)
      returns (written: nat, ghost t: State)
    requires Shows(fs, s) && Good(s) && Opened(fs, s, inode)
    requires offset + |buffer| < LENGTH_LIMIT && !Shrinks(buffer, offset)
    modifies fs.Foot(), inode
    ensures Shows(fs, t) && Good(t) && (Fits(s.bits, Ino(s.disk, inode.sector), offset + |buffer|) ==> Opened(fs, t, inode))
    ensures if Fits(s.bits, Ino(s.disk, inode.sector), offset + |buffer|)
            then written == |buffer| && Step(s, Op.Put(inode.sector, offset, buffer), t)
            else && written == 0 && Step(s, Refuse(inode.sector, offset + |buffer|, false), t)
                 && Readable(t.disk, inode.data) && Content(t.disk, inode.data) == AllFiles(s.disk, s.heads)[inode.sector]
  {
    hide Readable, Longer, Mapped, All, Ino, Content, Stores, Good, Fits, Written, Refused, MapKept, Packs;
    ghost var h, d := inode.sector, inode.data;
    OpenedSound(s, h);
    written := fs.WriteAt(inode, buffer, offset);
    MapKeptAfter(s.disk, s.bits, fs, s.inode);
    if Fits(s.bits, d, offset + |buffer|) {
      t := State(fs.Disk(), fs.Bits(), s.inode, s.heads, s.loose);
      WrittenHeader(s, h, t.disk, t.bits, inode.data, offset, buffer, fs.Other());
      StepKeeps(s, Op.Put(h, offset, buffer), t);
    } else {
      t := State(fs.Disk(), fs.Bits(), s.inode, s.heads - {h}, s.loose);
      StepKeeps(s, Refuse(h, offset + |buffer|, false), t);
    }
  }

  /** free_map_allocate(1, ...) for the header of a file to come. */
  method TakeHeader(fs: FileSystem, ghost s: State) returns (ok: bool, h: Word, ghost t: State)
    requires Shows(fs, s) && Good(s)
    modifies fs.Foot()
    ensures Shows(fs, t) && Good(t)
    ensures ok <==> 0 < FreeCount(s.bits)
    ensures if ok then Step(s, Take(h), t) && h !in s.heads + s.loose else h == 0 && t == s
  {
    hide Mapped, All, Content, Stores, Good, MapKept, Packs, Own, TakeFree, After, FreeCount;
    ok, h := fs.AllocateOne();
    t := s;
    if ok {
      MapKeptAfter(s.disk, s.bits, fs, s.inode);
      t := State(fs.Disk(), fs.Bits(), s.inode, s.heads, s.loose + {h});
      StepKeeps(s, Take(h), t);
      TakenNew(s, h);
    }
  }

  lemma TakenNew(s: State, h: nat)
    requires Good(s) && TakeFree(s.bits, 1) == [h]
    ensures h !in s.heads + s.loose
  {
    hide All, Own, Mapped, Fine, Consistent, TakeFree;
    TakeMarks(s.bits, 1);
    assert h in TakeFree(s.bits, 1);
    HeadsMarked(s);
  }

  /** inode_create in such a sector. */
  method MakeFile(fs: FileSystem, h: nat, length: nat, isDir: bool, ghost s: State) returns (ok: bool, ghost t: State)
    requires Shows(fs, s) && Good(s) && h in s.loose && h !in s.heads && length < LENGTH_LIMIT
    modifies fs.Foot()
    ensures Shows(fs, t) && Good(t)
    ensures ok == Fits(s.bits, Blank(isDir), length)
    ensures Step(s, if ok then Make(h, length, isDir) else Refuse(h, length, isDir), t)
  {
    hide Mapped, All, Content, Stores, Good, MapKept, Packs, Own, Fits, Extended, Refused, Blank, Decode, Encode;
    LooseApart(s, h);
    ok := fs.Create(h, length, isDir);
    MapKeptAfter(s.disk, s.bits, fs, s.inode);
    if ok {
      t := State(fs.Disk(), fs.Bits(), s.inode, s.heads + {h}, s.loose - {h});
      StepKeeps(s, Make(h, length, isDir), t);
    } else {
      t := State(fs.Disk(), fs.Bits(), s.inode, s.heads, s.loose);
      assert s.heads - {h} == s.heads;
      StepKeeps(s, Refuse(h, length, isDir), t);
    }
  }

  lemma LooseApart(s: State, h: nat)
    requires Good(s) && h in s.loose
    ensures 0 < h < |s.bits| && s.bits[h] && h !in Elems(All(s.disk, s.inode))
  {
    hide All, Consistent;
  }

  /** free_map_release of a header's sector: one taken in vain, or one of a file
      that exists by now and is abandoned. */
  method ReleaseHeader(fs: FileSystem, h: nat, ghost s: State) returns (ghost t: State)
    requires Shows(fs, s) && Good(s) && h in s.loose + s.heads
    modifies fs.Foot()
    ensures Shows(fs, t) && Good(t) && Step(s, if h in s.heads then Abandon(h) else Return(h), t)
  {
    hide Mapped, All, Content, Stores, Good, MapKept, Packs, Own, Freed;
    if h in s.heads {
      HeaderAside(s, h);
    } else {
      LooseApart(s, h);
    }
    fs.FreeMapRelease(h, 1);
    MapKeptAfter(s.disk, s.bits, fs, s.inode);
    OneReleased(s.disk, s.bits, h, fs.Disk(), fs.Bits(), fs.Other());
    t := State(fs.Disk(), fs.Bits(), s.inode, s.heads - {h}, if h in s.heads then s.loose else s.loose - {h});
    assert h !in s.heads ==> s.heads - {h} == s.heads;
    StepKeeps(s, if h in s.heads then Abandon(h) else Return(h), t);
  }

  /** inode_remove and the last inode_close: the header's sector and then the tree's. */
  method RemoveFile(fs: FileSystem, inode: Inode, ghost s: State) returns (ghost t: State)
    requires Shows(fs, s) && Good(s) && Opened(fs, s, inode)
    modifies fs.Foot()
    ensures Shows(fs, t) && Good(t) && Step(s, Remove(inode.sector), t)
  {
    hide Mapped, All, Content, Stores, Good, MapKept, Packs, Freed, SetRange, Frame;
    ghost var h, d, other := inode.sector, inode.data, fs.Other();
    OpenedSound(s, h);
    fs.FreeMapRelease(inode.sector, 1);
    ghost var D1, B1 := fs.Disk(), fs.Bits();
    OneReleased(s.disk, s.bits, h, D1, B1, other);
    HeaderFreed(s.disk, s.bits, h, d, D1, B1, other);
    fs.Deallocate(inode.data);
    FreedTwice(s.disk, s.bits, [h], D1, B1, All(s.disk, d), fs.Disk(), fs.Bits(), other);
    MapKeptAfter(s.disk, s.bits, fs, s.inode);
    t := State(fs.Disk(), fs.Bits(), s.inode, s.heads - {h}, s.loose);
    StepKeeps(s, Remove(h), t);
  }

  // Its tree is still there when the header's sector has been released.
  lemma HeaderFreed(D: Disk, B: seq<bool>, h: nat, d: InodeDisk, D1: Disk, B1: seq<bool>, other: set<nat>)
    requires Mapped(D, B, d) && |B| <= |D| && h !in All(D, d) && Freed(D, B, [h], D1, B1, other)
    requires forall x :: x in All(D, d) ==> x !in other
    ensures Mapped(D1, B1, d) && All(D1, d) == All(D, d)
  {
    hide Mapped, All, Content;
    MappedSectors(D, B, d);
    Untouched(D, D1, B, B1, d);
  }

  // ----- formatting, shutting down, starting again -----

  /** filesys_init(true) as far as the free map goes.  A device of four sectors or
      more has room for the free map's file, unless the file would be too long. */
  method Format(dev: array<Sector>) returns (fs: FileSystem, ghost s: State)
    requires 4 <= dev.Length < NO_SECTOR && BytesToSectors(ByteCnt(dev.Length - 1)) <= MAX_SECTORS
    modifies dev
    ensures fresh(fs) && fresh(fs.Foot() - {dev}) && fs.cache.device == dev
    ensures Shows(fs, s) && Good(s) && Tight(s) && Bootable(s)
    ensures s.heads == {} && s.loose == {ROOT_DIR_SECTOR}
    ensures FreeCount(s.bits) == dev.Length - 3 - Total(BytesToSectors(ByteCnt(dev.Length - 1)))
  {
    hide Mapped, All, Content, Stores, Good, Packs, Encode, Frame, TakeFree, After, FreeCount, Fits, Tight, Bootable, MapFine,
      ExtraTotal, ByteCnt, BytesToSectors, Blank, Total;
    fs := new FileSystem(dev);
    ghost var B := fs.Bits();
    RoomForMap(B);
    fs.FreeMapCreate();
    MapKeptAfter(fs.Disk(), fs.Bits(), fs, fs.fm.data);
    s := State(fs.Disk(), fs.Bits(), fs.fm.data, {}, {ROOT_DIR_SECTOR});
    MappedEncodable(s.disk, s.bits, s.inode);
    FormatGood(B, s, ExtraTotal(0, Num(fs.fm.data)));
    FormatCount(B, Num(fs.fm.data));
  }

  lemma {:induction false} FirstBitsFree(bits: seq<bool>)
    requires |bits| >= 2 && forall i :: 0 <= i < |bits| ==> bits[i] == (i < 2)
    ensures FreeCount(bits) == |bits| - 2
    decreases |bits|
  {
    if |bits| > 2 {
      var b := bits[..|bits| - 1];
      assert bits == b + [false];
      FirstBitsFree(b);
    } else {
      assert bits == [true, true];
    }
  }

  lemma RoomForMap(bits: seq<bool>)
    requires |bits| >= 3 && forall i :: 0 <= i < |bits| ==> bits[i] == (i < 2)
    requires BytesToSectors(ByteCnt(|bits|)) <= MAX_SECTORS
    ensures Fits(bits, Blank(false), ByteCnt(|bits|))
  {
    hide FreeCount, Total, Blank, Num, ByteCnt, BytesToSectors;
    FirstBitsFree(bits);
    MapSize(|bits|);
    TotalClosed(0);
    BlankMapped([], bits, false);
  }

  // The free map's file takes less than what it describes.
  lemma MapSize(bitCnt: nat)
    requires bitCnt >= 3
    ensures Total(BytesToSectors(ByteCnt(bitCnt))) <= bitCnt - 2
  {
    TotalClosed(BytesToSectors(ByteCnt(bitCnt)));
  }

  lemma FormatCount(bits: seq<bool>, n: nat)
    requires |bits| >= 3 && forall i :: 0 <= i < |bits| ==> bits[i] == (i < 2)
    requires n == BytesToSectors(ByteCnt(|bits|))
    ensures FreeCount(After(bits, ExtraTotal(0, n))) == |bits| - 2 - Total(n)
  {
    hide FreeCount, Total, After, ByteCnt, BytesToSectors;
    FirstBitsFree(bits);
    MapSize(|bits|);
    TotalClosed(0);
    TakeAll(bits, ExtraTotal(0, n));
  }

  lemma FormatGood(B0: seq<bool>, s: State, k: nat)
    requires MapFine(s.disk, s.bits, s.inode) && s.heads == {} && s.loose == {ROOT_DIR_SECTOR}
    requires |B0| >= 3 && forall i :: 0 <= i < |B0| ==> B0[i] == (i < 2)
    requires s.bits == After(B0, k) && Elems(All(s.disk, s.inode)) == Elems(TakeFree(B0, k))
    requires 0 < |s.disk| && Encodable(s.inode) && s.disk[0] == Encode(s.inode)
    ensures Good(s) && Tight(s) && Bootable(s)
  {
    hide MapFine, All, Encode, TakeFree, After;
    TakeFacts(B0, k);
    forall x | x in All(s.disk, s.inode)
      ensures x in TakeFree(B0, k)
    {
      assert x in Elems(All(s.disk, s.inode));
    }
    forall x | x in TakeFree(B0, k)
      ensures x in All(s.disk, s.inode)
    {
      assert x in Elems(TakeFree(B0, k));
    }
    forall x | 0 <= x < |s.bits| && s.bits[x]
      ensures x == 0 || x in s.loose || x in All(s.disk, s.inode)
    {}
  }

  /** filesys_done followed by filesys_init(false) on the same device: the state of
      the file system is exactly what it was. */
  method Restart(fs: FileSystem, ghost s: State) returns (fs': FileSystem)
    requires Shows(fs, s) && Good(s) && Bootable(s)
    modifies fs.Foot()
    ensures fresh(fs') && fs'.cache.device == fs.cache.device && Shows(fs', s)
  {
    hide Mapped, All, Content, Stores, Good, Packs, Encode, Decode;
    HeaderRoundTrip(s.inode);
    DeviceSize(s);
    fs.cache.Close();
    fs' := new FileSystem(fs.cache.device);
    fs'.FreeMapOpen(s.bits);
  }

  lemma DeviceSize(s: State)
    requires Good(s)
    ensures 2 < |s.disk| && MapFine(s.disk, s.bits, s.inode)
  {
    hide AllSectors, DataSectors, WfInode, Stores, Content;
    var m := s.inode;
    MappedFacts(s.disk, s.bits, m);
    MappedSectors(s.disk, s.bits, m);
    assert Datas(s.disk, m)[0] in Datas(s.disk, m);
  }

  // What the free map's file has become, from what every method promises.
  lemma MapKeptAfter(D0: Disk, B0: seq<bool>, fs: FileSystem, m: InodeDisk)
    requires fs.Core() && fs.Persisted() && fs.fm != null && fs.fm.data == m
    requires |B0| == |fs.Bits()| && fs.Other() == Elems(All(D0, m))
    ensures MapKept(D0, B0, fs.Disk(), fs.Bits(), m)
  {
    hide Mapped, All, Content, Stores, Packs;
  }

  // The header on the disk is the inode in memory after a write too.
  lemma WrittenHeader(s: State, h: nat, D: Disk, B: seq<bool>, d: InodeDisk, ofs: nat, data: seq<Byte>, other: set<nat>)
    requires Good(s) && h in s.heads
    requires Written(s.disk, s.bits, Ino(s.disk, h), h, D, B, d, ofs, data, other)
    ensures Ino(D, h) == d
  {
    hide MapFine, All, Mapped, Content, After, TakeFree, Frame, Encode, Decode, Consistent;
    HeadSeparate(s, h);
    MappedEncodable(D, B, d);
    HeaderRoundTrip(d);
    HeaderRoundTrip(Ino(s.disk, h));
  }
}
