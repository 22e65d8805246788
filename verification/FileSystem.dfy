/** The free map and the inodes over the buffer cache (free-map.c, inode.c).

    The two files call each other: allocating a sector writes the free map to its
    own file, and writing to a file may allocate.  The methods are therefore in
    one class, with the free map's inode as FM. */
module FileSystems {
  import opened Sectors
  import opened FirstFit
  import opened Layout
  import opened Growth
  import opened Staying
  import opened Inodes
  import opened Positions
  import opened Contents
  import opened InodeGrowth
  import opened Writes
  import opened Reserving
  import opened Freeing
  import opened Bitmaps
  import opened Cache

  const FREE_MAP_SECTOR := 0
  const ROOT_DIR_SECTOR := 1
  const NO_SECTOR: nat := 0xFFFF_FFFF

  // struct inode: where it lives and its in-memory contents.
  class Inode {
    const sector: nat
    var data: InodeDisk

    constructor (s: nat, d: InodeDisk)
      ensures sector == s && data == d
    {
      sector, data := s, d;
    }
  }

  class FileSystem {
    const cache: BufferCache
    const freeMap: Bitmap
    var fm: Inode?   // the inode behind free_map_file

    ghost function Foot(): set<object> {
      {cache, cache.cache, cache.device, freeMap, freeMap.elems}
    }

    // Nothing shares storage.
    ghost predicate Separate()
      reads this
    {
      && this as object !in Foot() && (fm != null ==> fm as object !in Foot())
      && cache as object != cache.cache && cache as object != cache.device
      && cache as object != freeMap && cache as object != freeMap.elems
      && freeMap as object != cache.cache && freeMap as object != cache.device && freeMap as object != freeMap.elems
      && cache.cache as object != cache.device && cache.cache as object != freeMap.elems
      && cache.device as object != freeMap.elems
    }

    ghost function Disk(): Disk
      reads cache
    {
      cache.view
    }

    ghost function Bits(): seq<bool>
      reads freeMap
    {
      freeMap.bits
    }

    /** Disk and free map are in order, sector 0 is taken for good, and the free
        map's file, once open, is mapped and exactly as long as the bitmap. */
    ghost predicate Core()
      reads this, Foot(), fm
    {
      && Separate()
      && cache.Valid() && freeMap.Valid()
      && |Bits()| + 1 == |Disk()| < NO_SECTOR
      && 0 < |Bits()| && Bits()[FREE_MAP_SECTOR]
      && (fm != null ==>
            && fm.sector == FREE_MAP_SECTOR
            && Mapped(Disk(), Bits(), fm.data) && fm.data.length == ByteCnt(|Bits()|))
    }

    /** What is readable through the free map's inode is the free map. */
    ghost predicate Persisted()
      reads this, Foot(), fm
    {
      fm != null ==> Stores(Content(Disk(), fm.data), Bits())
    }

    // The sectors of the free map's file, which an allocation may rewrite.
    ghost function Other(): set<nat>
      reads this, cache, fm
    {
      if fm == null then {} else Elems(All(Disk(), fm.data))
    }

    // buffer_cache_init and free_map_init: only the two system inodes' sectors are taken.
    constructor (dev: array<Sector>)
      requires 2 < dev.Length < NO_SECTOR
      ensures Core() && fm == null && fresh(Foot() - {cache.device}) && cache.device == dev
      ensures Disk() == dev[..] && Bits() == seq(dev.Length - 1, i => i == FREE_MAP_SECTOR || i == ROOT_DIR_SECTOR)
    {
      var c := new BufferCache(dev);
      var b := new Bitmap(dev.Length - 1);
      b.Set(FREE_MAP_SECTOR, true);
      b.Set(ROOT_DIR_SECTOR, true);
      cache, freeMap, fm := c, b, null;
    }

    // INODE is mapped, and its header sector is taken but not one of its own sectors.
    ghost predicate Sound(inode: Inode)
      reads cache, freeMap, inode
    {
      && inode as object !in Foot()
      && Mapped(Disk(), Bits(), inode.data)
      && inode.sector < |Bits()| && Bits()[inode.sector]
      && inode.sector !in All(Disk(), inode.data)
    }

    // No sector of the free map's file belongs to INODE.
    ghost predicate ApartFromMap(inode: Inode)
      reads this, cache, fm, inode
    {
      inode.sector !in Other() && forall x :: x in All(Disk(), inode.data) ==> x !in Other()
    }

    // ----- finding sectors -----

    // index_to_sector
    method IndexToSector(d: InodeDisk, index: nat, ghost n: nat) returns (sector: nat)
      requires cache.Valid() && |Disk()| < NO_SECTOR && Routed(Disk(), d, n)
      requires index < n || index >= MAX_SECTORS
      modifies cache`clock, cache.cache, cache.device
      ensures cache.Valid()
      ensures sector == if index < n then DataSectors(Disk(), d, n)[index] else NO_SECTOR
      ensures index < n ==> sector < |Disk()|
    {
      hide ReadUses, WritesBack, DataSectors;
      assert index < n ==> Leads(Disk(), d, index, DataSectors(Disk(), d, n)[index]);
      if index < DIRECT {
        return d.direct[index];
      }
      if index < DIRECT + PTRS {
        var block := cache.Read(d.indirect);
        return Words(block)[index - DIRECT];
      }
      if index < DIRECT + PTRS + PTRS * PTRS {
        var first, second := (index - DIRECT - PTRS) / PTRS, (index - DIRECT - PTRS) % PTRS;
        var block := cache.Read(d.doubly);
        block := cache.Read(Words(block)[first]);
        return Words(block)[second];
      }
      return NO_SECTOR;
    }

    // byte_to_sector
    method ByteToSector(inode: Inode, pos: int) returns (sector: nat)
      requires cache.Valid() && |Disk()| < NO_SECTOR && Readable(Disk(), inode.data)
      modifies cache`clock, cache.cache, cache.device
      ensures cache.Valid()
      ensures sector == NO_SECTOR <==> !(0 <= pos < inode.data.length)
      ensures 0 <= pos < inode.data.length ==>
                && pos / SECTOR_SIZE < |Datas(Disk(), inode.data)|
                && sector == Datas(Disk(), inode.data)[pos / SECTOR_SIZE] < |Disk()|
    {
      hide DataSectors;
      if 0 <= pos < inode.data.length {
        sector := IndexToSector(inode.data, pos / SECTOR_SIZE, Num(inode.data));
      } else {
        sector := NO_SECTOR;
      }
    }

    // ----- inode_read_at -----

    // One round of inode_read_at: the part of the request that lies in one sector.
    method ReadChunk(inode: Inode, size: nat, offset: nat) returns (piece: seq<Byte>)
      requires cache.Valid() && |Disk()| < NO_SECTOR && Readable(Disk(), inode.data)
      modifies cache`clock, cache.cache, cache.device
      ensures cache.Valid()
      ensures |Content(Disk(), inode.data)| == inode.data.length
      ensures piece == [] <==> size == 0 || offset >= inode.data.length
      ensures |piece| <= size && (piece != [] ==> offset + |piece| <= inode.data.length)
      ensures piece != [] ==> piece == Content(Disk(), inode.data)[offset..offset + |piece|]
    {
      hide ReadUses, WriteUses, WritesBack, Readable, Content, DataSectors, Flat, AllSectors, IndexSectors;
      ReadableFacts(Disk(), inode.data);
      var sector := ByteToSector(inode, offset);
      var sectorOfs := offset % SECTOR_SIZE;
      var inodeLeft, sectorLeft := inode.data.length - offset, SECTOR_SIZE - sectorOfs;
      var minLeft := if inodeLeft < sectorLeft then inodeLeft else sectorLeft;
      var chunk := if size < minLeft then size else minLeft;
      if chunk <= 0 {
        return [];
      }
      SectorBytes(Disk(), inode.data, offset, chunk);
      var bounce := cache.Read(sector);
      if sectorOfs == 0 && chunk == SECTOR_SIZE {
        piece := bounce;
      } else {
        piece := bounce[sectorOfs..sectorOfs + chunk];
      }
    }

    // inode_read_at.
    method ReadAt(inode: Inode, size: nat, offset: nat) returns (buffer: seq<Byte>)
      requires cache.Valid() && |Disk()| < NO_SECTOR && Readable(Disk(), inode.data)
      modifies cache`clock, cache.cache, cache.device
      ensures cache.Valid()
      ensures |Content(Disk(), inode.data)| == inode.data.length
      ensures buffer == if offset < inode.data.length
                        then Content(Disk(), inode.data)[offset..Min(offset + size, inode.data.length)] else []
    {
      hide Readable, Content, DataSectors, Flat, AllSectors, IndexSectors;
      ReadableFacts(Disk(), inode.data);
      ghost var content := Content(Disk(), inode.data);
      buffer := [];
      var left, ofs := size, offset;
      while left > 0
        invariant cache.Valid() && 0 <= left && left + |buffer| == size && ofs == offset + |buffer|
        invariant |buffer| > 0 ==> ofs <= |content| && buffer == content[offset..ofs]
        decreases left
      {
        var piece := ReadChunk(inode, left, ofs);
        if piece == [] {
          break;
        }
        buffer := buffer + piece;
        left, ofs := left - |piece|, ofs + |piece|;
      }
      assert offset < |content| ==> content[offset..offset] == [];
    }

    // ----- the writing loop of inode_write_at -----

    // One round: the part of the request that lies in one sector.  The request
    // ends before the end of the file, so a round always writes something.
    method WriteChunk(inode: Inode, buffer: seq<Byte>, offset: nat) returns (chunk: nat)
      requires cache.Valid() && |Disk()| < NO_SECTOR && Mapped(Disk(), Bits(), inode.data)
      requires |buffer| > 0 && offset + |buffer| <= inode.data.length
      modifies cache, cache.cache, cache.device
      ensures cache.Valid() && 0 < chunk <= |buffer|
      ensures Mapped(Disk(), Bits(), inode.data)
      ensures Datas(Disk(), inode.data) == old(Datas(Disk(), inode.data))
      ensures All(Disk(), inode.data) == old(All(Disk(), inode.data))
      ensures OnlyIn(old(Disk()), Disk(), old(Datas(Disk(), inode.data)))
      ensures Flat(Disk(), Datas(Disk(), inode.data))
           == Splice(old(Flat(Disk(), Datas(Disk(), inode.data))), offset, buffer[..chunk])
    {
      hide ReadUses, WriteUses, WritesBack, Mapped, Content, WfInode, DataSectors, Flat, AllSectors, IndexSectors, OnlyIn;
      MappedFacts(Disk(), Bits(), inode.data);
      MappedReadable(Disk(), Bits(), inode.data);
      var sector := ByteToSector(inode, offset);
      var sectorOfs := offset % SECTOR_SIZE;
      var inodeLeft, sectorLeft := inode.data.length - offset, SECTOR_SIZE - sectorOfs;
      var minLeft := if inodeLeft < sectorLeft then inodeLeft else sectorLeft;
      chunk := if |buffer| < minLeft then |buffer| else minLeft;
      ghost var was := Disk()[sector];
      if sectorOfs == 0 && chunk == SECTOR_SIZE {
        PieceWritten(Disk(), Bits(), inode.data, offset, buffer[..chunk], buffer[..chunk]) by {
          assert buffer[..chunk] == was[..0] + buffer[..chunk] + was[SECTOR_SIZE..];
        }
        cache.Write(sector, buffer[..chunk]);
      } else {
        var bounce := Zeros();
        if sectorOfs > 0 || chunk < sectorLeft {
          bounce := cache.Read(sector);
        }
        bounce := bounce[..sectorOfs] + buffer[..chunk] + bounce[sectorOfs + chunk..];
        PieceWritten(Disk(), Bits(), inode.data, offset, buffer[..chunk], bounce);
        cache.Write(sector, bounce);
      }
    }

    // The loop of inode_write_at.
    method WriteBytes(inode: Inode, buffer: seq<Byte>, offset: nat)
      requires cache.Valid() && |Disk()| < NO_SECTOR && Mapped(Disk(), Bits(), inode.data)
      requires offset + |buffer| <= inode.data.length
      modifies cache, cache.cache, cache.device
      ensures cache.Valid()
      ensures Mapped(Disk(), Bits(), inode.data)
      ensures Datas(Disk(), inode.data) == old(Datas(Disk(), inode.data))
      ensures All(Disk(), inode.data) == old(All(Disk(), inode.data))
      ensures OnlyIn(old(Disk()), Disk(), old(Datas(Disk(), inode.data)))
      ensures Flat(Disk(), Datas(Disk(), inode.data))
           == Splice(old(Flat(Disk(), Datas(Disk(), inode.data))), offset, buffer)
    {
      hide Readable, Mapped, Content, WfInode, DataSectors, Flat, AllSectors, IndexSectors, Splice;
      MappedFacts(Disk(), Bits(), inode.data);
      ghost var flat, data := Flat(Disk(), Datas(Disk(), inode.data)), Datas(Disk(), inode.data);
      var written := 0;
      SpliceNothing(flat, offset);
      while written < |buffer|
        invariant 0 <= written <= |buffer|
        invariant cache.Valid() && |Disk()| == |old(Disk())| && Mapped(Disk(), Bits(), inode.data)
        invariant Datas(Disk(), inode.data) == data
        invariant All(Disk(), inode.data) == old(All(Disk(), inode.data))
        invariant OnlyIn(old(Disk()), Disk(), data)
        invariant Flat(Disk(), data) == Splice(flat, offset, buffer[..written])
      {
        var chunk := WriteChunk(inode, buffer[written..], offset + written);
        SpliceTwice(flat, offset, buffer[..written], buffer[written..][..chunk]);
        assert buffer[..written + chunk] == buffer[..written] + buffer[written..][..chunk];
        written := written + chunk;
      }
      assert buffer[..written] == buffer;
    }

    // ----- the free map and the inodes -----

    // Writing a sector that is not the free map's.
    method Put(sector: nat, x: Sector)
      requires Core() && Persisted() && sector < |Disk()| && sector !in Other()
      modifies cache, cache.cache, cache.device
      ensures Core() && Persisted() && Other() == old(Other())
      ensures Disk() == old(Disk())[sector := x]
    {
      hide ReadUses, WriteUses, WritesBack, Mapped, Content, AllSectors, DataSectors, IndexSectors, Flat;
      if fm != null {
        MapUntouched(Disk(), Bits(), fm.data, sector, x);
      }
      cache.Write(sector, x);
    }

    // bitmap_write on free_map_file.  Its request never passes the end of the
    // file, so it is never short: the rollback in free_map_allocate is dead code.
    method WriteFreeMap() returns (ok: bool)
      requires Core() && fm != null
      modifies Foot()
      ensures Core() && Persisted() && Other() == old(Other()) && fm.data == old(fm.data)
      ensures ok && Bits() == old(Bits())
      ensures Frame(old(Disk()), Disk(), Bits(), Other())
      decreases 2, 0
    {
      hide Mapped, Content, AllSectors, IndexSectors, DataSectors, Packs, TakeFree, After, Total, WfInode, Encode, Frame,
        Splice, Elems, Words;
      ghost var D, B, d := Disk(), Bits(), fm.data;
      ReserveReady(D, B, d, {});
      MappedFacts(D, B, d);
      InodeRange(D, d, Num(d));
      NoExtra(Num(d), B);
      var bytes := freeMap.Image();
      SpliceAll(Content(D, d), bytes);
      var written := WriteAt(fm, bytes, 0);
      ok := written == |bytes|;
      WithoutHeader(D, Disk(), B, Elems(All(D, d)), FREE_MAP_SECTOR);
    }

    // free_map_allocate
    method FreeMapAllocate(cnt: nat) returns (ok: bool, sector: nat)
      requires Core() && Persisted()
      modifies Foot()
      ensures Core() && Persisted() && Other() == old(Other())
      ensures ok ==> FirstRun(old(Bits()), 0, cnt, false, sector) && Bits() == SetRange(old(Bits()), sector, cnt, true)
      ensures !ok ==> NoRun(old(Bits()), 0, cnt, false) && Bits() == old(Bits()) && Disk() == old(Disk())
      ensures Frame(old(Disk()), Disk(), old(Bits()), Other())
      decreases 2, 1
    {
      hide Mapped, Content, AllSectors, IndexSectors, DataSectors, Stores, Packs, WfInode, Elems;
      ghost var B := Bits();
      sector := freeMap.ScanAndFlip(0, cnt, false);
      if fm != null {
        MoreMarked(Disk(), B, Bits(), fm.data);
      }
      ok := sector != BITMAP_ERROR;
      if ok && fm != null {
        ok := WriteFreeMap();
      }
    }

    // num_free_sectors
    method NumFreeSectors() returns (n: nat)
      requires Core()
      ensures n == FreeCount(Bits())
    {
      hide Mapped, All, Packs, Content;
      n := freeMap.Count(0, freeMap.bitCnt, false);
      assert Bits()[0..|Bits()|] == Bits();
    }

    // The free map's own sectors are taken; sector 0 holds its header and is not one of them.
    lemma OtherTaken()
      requires Core()
      ensures forall x :: x in Other() ==> 0 < x < |Bits()| && Bits()[x]
    {
      if fm != null {
        InodeRange(Disk(), fm.data, Num(fm.data));
      }
    }

    // free_map_allocate(1, ...)
    method AllocateOne() returns (ok: bool, sector: Word)
      requires Core() && Persisted()
      modifies Foot()
      ensures Core() && Persisted() && Other() == old(Other())
      ensures ok <==> 0 < FreeCount(old(Bits()))
      ensures ok ==> TakeFree(old(Bits()), 1) == [sector] && 0 < sector < |Bits()|
      ensures ok ==> Bits() == After(old(Bits()), 1) && Frame(old(Disk()), Disk(), old(Bits()), Other())
      ensures !ok ==> sector == 0 && Bits() == old(Bits()) && Disk() == old(Disk())
      ensures Stays(old(Disk()), old(Bits()), Disk(), Bits(), Other())
      decreases 2, 2
    {
      hide Mapped, Content, All, Stores, Packs, Stays, After, Frame;
      ghost var D := Disk();
      ghost var was := Bits();
      var s;
      ok, s := FreeMapAllocate(1);
      OneTaken(was, s, ok);
      if ok {
        StaysAllocated(D, was, Disk(), Bits(), 1, Other());
      } else {
        StaysSelf(D, was, Other());
      }
      sector := if ok then s else 0;
    }

    // inode_reserve_indirect.  N0 data sectors are mapped below ENTRY already.
    method ReserveIndirect(entry: Word, num: nat, level: nat, ghost n0: nat) returns (ok: bool, entry': Word)
      requires Core() && Persisted() && level <= 2 && 0 < num <= Span(level) && n0 <= num
      requires WfTree(Disk(), entry, n0, level) && Owned(Bits(), Tree(Disk(), entry, n0, level), Other())
      modifies Foot()
      ensures Core() && Persisted() && Other() == old(Other())
      ensures ok <==> Extra(n0, num, level) <= FreeCount(old(Bits()))
      ensures ok ==> TreeGrown(old(Disk()), old(Bits()), entry, n0, Disk(), Bits(), entry', num, level, Other())
      ensures !ok ==> Failed(old(Disk()), old(Bits()), old(Index(Disk(), entry, n0, level)), Disk(), Bits(),
                             Extra(n0, num, level), Clobbers(n0, num, level, FreeCount(old(Bits()))), Other())
      ensures entry != 0 && !ok ==> entry < |Disk()| == |old(Disk())| && Disk()[entry] == old(Disk()[entry])
      ensures Gains(entry, entry', old(Bits()), Bits())
      ensures Stays(old(Disk()), old(Bits()), Disk(), Bits(), Other())
      decreases 3, level, 1
    {
      if level == 0 {
        ok, entry' := ReserveLeaf(entry, n0);
      } else {
        ok, entry' := ReserveBlock(entry, num, level, n0);
      }
    }

    // Level 0: a data sector.
    method ReserveLeaf(entry: Word, ghost n0: nat) returns (ok: bool, entry': Word)
      requires Core() && Persisted() && n0 <= 1
      requires WfTree(Disk(), entry, n0, 0) && Owned(Bits(), Tree(Disk(), entry, n0, 0), Other())
      modifies Foot()
      ensures Core() && Persisted() && Other() == old(Other())
      ensures ok <==> Extra(n0, 1, 0) <= FreeCount(old(Bits()))
      ensures ok ==> TreeGrown(old(Disk()), old(Bits()), entry, n0, Disk(), Bits(), entry', 1, 0, Other())
      ensures !ok ==> Failed(old(Disk()), old(Bits()), old(Index(Disk(), entry, n0, 0)), Disk(), Bits(),
                             Extra(n0, 1, 0), Clobbers(n0, 1, 0, FreeCount(old(Bits()))), Other())
      ensures entry != 0 ==> ok
      ensures Gains(entry, entry', old(Bits()), Bits())
      ensures Stays(old(Disk()), old(Bits()), Disk(), Bits(), Other())
      decreases 2, 3
    {
      hide Stays, Mapped, Content, All, Stores, Packs, Owned, Grow, Failed, TakeFree, After, FreeCount;
      OtherTaken();
      entry' := entry;
      ghost var D, B := Disk(), Bits();
      if entry == 0 {
        ok, entry' := AllocateOne();
        if !ok {
          NoLeaf(D, B, Other());
          return;
        }
        FreshSector(B, entry', Other());
        StaysFresh(D, B, Disk(), Bits(), entry', Zeros(), Other());
        Put(entry', Zeros());
        NewLeaf(D, B, entry', Disk(), Bits(), Other());
      } else {
        ok := true;
        StaysSelf(D, B, Other());
        Leaf(D, B, entry, n0, Other());
      }
    }

    // A new index block.  The result of the allocation is ignored: with no
    // sector left the zeros go to sector 0.
    method AllocateBlock() returns (entry: Word)
      requires Core() && Persisted()
      modifies Foot()
      ensures Core() && Persisted() && Other() == old(Other())
      ensures 0 < FreeCount(old(Bits())) ==>
                && TakeFree(old(Bits()), 1) == [entry] && 0 < entry < |Bits()| && entry !in Other()
                && Bits() == After(old(Bits()), 1) && Frame(old(Disk()), Disk(), old(Bits()), Other())
                && Disk()[entry] == Zeros()
      ensures FreeCount(old(Bits())) == 0 ==>
                entry == 0 && Bits() == old(Bits()) && Disk() == old(Disk())[0 := Zeros()]
      ensures Stays(old(Disk()), old(Bits()), Disk(), Bits(), Other())
      decreases 2, 3
    {
      hide Stays, Mapped, Content, All, Stores, Packs, TakeFree, After, FreeCount;
      ghost var D, B := Disk(), Bits();
      OtherTaken();
      var ok;
      ok, entry := AllocateOne();
      OtherTaken();
      if ok {
        FreshSector(B, entry, Other());
      }
      StaysFresh(D, B, Disk(), Bits(), entry, Zeros(), Other());
      Put(entry, Zeros());
    }

    // Levels 1 and 2: the index block, what is below it, and the block again.
    method ReserveBlock(entry: Word, num: nat, level: nat, ghost n0: nat) returns (ok: bool, entry': Word)
      requires Core() && Persisted() && 0 < level <= 2 && 0 < num <= Span(level) && n0 <= num
      requires WfTree(Disk(), entry, n0, level) && Owned(Bits(), Tree(Disk(), entry, n0, level), Other())
      modifies Foot()
      ensures Core() && Persisted() && Other() == old(Other())
      ensures ok <==> Extra(n0, num, level) <= FreeCount(old(Bits()))
      ensures ok ==> TreeGrown(old(Disk()), old(Bits()), entry, n0, Disk(), Bits(), entry', num, level, Other())
      ensures !ok ==> Failed(old(Disk()), old(Bits()), old(Index(Disk(), entry, n0, level)), Disk(), Bits(),
                             Extra(n0, num, level), Clobbers(n0, num, level, FreeCount(old(Bits()))), Other())
      ensures entry != 0 && !ok ==> entry < |Disk()| == |old(Disk())| && Disk()[entry] == old(Disk()[entry])
      ensures Gains(entry, entry', old(Bits()), Bits())
      ensures Stays(old(Disk()), old(Bits()), Disk(), Bits(), Other())
      decreases 3, level, 0
    {
      hide Stays, Keeps, AllGain, Gains, ReadUses, WriteUses, WritesBack, Mapped, Content, All, Stores, Packs, Owned, Grow,
        Failed, TakeFree, After, FreeCount, Words, FromWords, Kids, IndexKids, DataKids, WfKids, KidsGrown, TreeGrown, Clobbers,
        KidsClobbers, Frame;
      OtherTaken();
      ghost var D, B := Disk(), Bits();
      entry' := entry;
      if entry == 0 {
        entry' := AllocateBlock();
        BlockGained(B, entry', Bits(), Other());
      } else {
        StaysSelf(D, B, Other());
        SameGain(entry, B);
      }
      ghost var D1, B1 := Disk(), Bits();
      var block := cache.Read(entry');
      var ptrs := Words(block);
      BlockReady(D, B, entry, n0, D1, B1, entry', level, Other());
      BlockRoom(B, B1, entry, n0, num, level);
      ghost var was := ptrs;
      ok, ptrs := ReserveKids(ptrs, num, level, n0);
      ghost var D2, B2 := Disk(), Bits();
      AllGainKeeps(was, ptrs, B1, B2);
      GainsLater(D1, B1, D2, B2, Other(), entry, entry', B);
      StaysTrans(D, B, D1, B1, D2, B2, Other());
      if !ok {
        BlockFailed(D, B, entry, n0, D1, B1, entry', D2, B2, num, level, Other());
        if entry != 0 {
          BlockNotWritten(D, B, entry, n0, D2, B2, was, num, level, Other());
        }
        return;
      }
      StaysWrittenBack(D, B, entry, D2, B2, entry', was, ptrs, Other());
      Put(entry', FromWords(ptrs));
      BlockDone(D, B, entry, n0, D1, B1, entry', D2, B2, ptrs, num, level, Other());
    }

    // The loop of inode_reserve_indirect, and of inode_reserve over the direct pointers.
    method ReserveKids(ptrs: seq<Word>, num: nat, level: nat, ghost n0: nat) returns (ok: bool, ptrs': seq<Word>)
      requires Core() && Persisted() && 0 < level <= 2 && 0 < num <= Cap(|ptrs|, level) && n0 <= num
      requires WfKids(Disk(), ptrs, n0, level) && Owned(Bits(), Kids(Disk(), ptrs, n0, level), Other())
      modifies Foot()
      ensures Core() && Persisted() && Other() == old(Other()) && |ptrs'| == |ptrs|
      ensures ok <==> ExtraKids(n0, num, level) <= FreeCount(old(Bits()))
      ensures ok ==> KidsGrown(old(Disk()), old(Bits()), ptrs, n0, Disk(), Bits(), ptrs', num, level, Other())
      ensures !ok ==> Failed(old(Disk()), old(Bits()), old(IndexKids(Disk(), ptrs, n0, level)), Disk(), Bits(),
                             ExtraKids(n0, num, level), KidsClobbers(n0, num, level, FreeCount(old(Bits()))), Other())
      ensures AllGain(ptrs, ptrs', old(Bits()), Bits())
      ensures Stays(old(Disk()), old(Bits()), Disk(), Bits(), Other())
      decreases 3, level, -1
    {
      hide Stays, Keeps, AllGain, Gains, Persisted, Mapped, Content, All, Stores, Packs, Owned, Grow, Failed, TakeFree, After,
        FreeCount, Words, FromWords, Kids, IndexKids, DataKids, WfKids, KidsGrown, TreeGrown, Clobbers, KidsClobbers, Frame,
        Tree, Index, Data, WfTree, SizeKids, Size;
      OtherTaken();
      ghost var D, B, other := Disk(), Bits(), Other();
      LoopStart(D, B, ptrs, n0, num, level, other);
      ptrs' := ptrs;
      AllGainSelf(ptrs, B);
      StaysSelf(D, B, other);
      var unit := Unit(level);
      var count, left, i := DivRoundUp(num, unit), num, 0;
      CountBounds(num, level, |ptrs|);
      while i < count
        invariant 0 <= i <= count && left == num - Before(num, i, level)
        invariant Core() && Persisted() && Other() == other
        invariant |ptrs'| == |ptrs| && ptrs'[i..] == ptrs[i..] && AllGain(ptrs, ptrs', B, Bits())
        invariant Stays(D, B, Disk(), Bits(), other)
        invariant KidsGrown(D, B, ptrs[..i], Before(n0, i, level), Disk(), Bits(), ptrs'[..i], Before(num, i, level), level, other)
        invariant Room(n0, num, i, level) <= FreeCount(B)
        decreases count - i
      {
        ghost var D1, B1 := Disk(), Bits();
        Shares(n0, num, i, level);
        LoopReady(D, B, ptrs, n0, num, i, D1, B1, ptrs', level, other);
        var subsize := Min(left, unit);
        var e;
        ok, e := ReserveIndirect(ptrs'[i], subsize, level - 1, Share(n0, i, level));
        assert ptrs'[i] == ptrs'[i..][0] == ptrs[i];
        AllGainUpdate(D, B, D1, B1, Disk(), Bits(), other, ptrs, ptrs', i, e);
        StaysTrans(D, B, D1, B1, Disk(), Bits(), other);
        LoopRoom(D, B, ptrs, n0, num, i, D1, B1, ptrs', level, other);
        if !ok {
          LoopFailed(D, B, ptrs, n0, num, i, D1, B1, ptrs', Disk(), Bits(), level, other);
          return false, ptrs'[i := e];
        }
        LoopStep(D, B, ptrs, n0, num, i, D1, B1, ptrs', Disk(), Bits(), e, level, other);
        ptrs' := ptrs'[i := e];
        left, i := left - subsize, i + 1;
      }
      ok := true;
      LoopEnd(D, B, ptrs, n0, num, i, Disk(), Bits(), ptrs', level, other);
    }

    /** inode_reserve: room for LENGTH bytes.  Every outcome is settled by the
        number F of free sectors: with enough of them the inode has grown to the
        sectors it needs or to the most it can have, which alone is a failure;
        with too few, all of them are gone. */
    method Reserve(d: InodeDisk, length: nat, ghost n0: nat) returns (ok: bool, d': InodeDisk)
      requires Core() && Persisted()
      requires WfInode(Disk(), d, n0) && Owned(Bits(), AllSectors(Disk(), d, n0), Other())
      requires n0 <= BytesToSectors(length) || BytesToSectors(length) == 0
      modifies Foot()
      ensures Core() && Persisted() && Other() == old(Other())
      ensures d'.length == d.length && d'.isDir == d.isDir
      ensures BytesToSectors(length) == 0 ==> ok && d' == d && Disk() == old(Disk()) && Bits() == old(Bits())
      ensures BytesToSectors(length) > 0 && Enough(old(Bits()), n0, Target(length)) ==>
                && InodeGrown(old(Disk()), old(Bits()), d, n0, Disk(), Bits(), d', Target(length), Other())
                && ok == (BytesToSectors(length) <= MAX_SECTORS)
      ensures BytesToSectors(length) > 0 && !Enough(old(Bits()), n0, Target(length)) ==>
                && !ok
                && Failed(old(Disk()), old(Bits()), old(IndexSectors(Disk(), d, n0)), Disk(), Bits(), ExtraTotal(n0, Target(length)),
                          InodeClobbers(n0, Target(length), FreeCount(old(Bits()))), Other())
      ensures Gained(d, d', old(Bits()), Bits())
      ensures Stays(old(Disk()), old(Bits()), Disk(), Bits(), Other())
      decreases 4, 1
    {
      hide Stays, Keeps, AllGain, Gained, Mapped, Content, All, Stores, Packs, Owned, Grow, Failed, TakeFree, After, FreeCount,
        Words, FromWords, Kids, IndexKids, DataKids, WfKids, KidsGrown, TreeGrown, Clobbers, KidsClobbers, InodeClobbers, Frame,
        Tree, Index, Data, WfTree, InodeGrown, AllSectors, IndexSectors, Stage1, Stage2, Total;
      OtherTaken();
      InodeSize(Disk(), d, n0);
      var num := BytesToSectors(length);
      d' := d;
      GainedSelf(d, Bits());
      StaysSelf(Disk(), Bits(), Other());
      if num == 0 {
        return true, d;
      }
      ghost var D, B, other, m := Disk(), Bits(), Other(), Target(length);
      // direct pointers
      var l := Min(num, DIRECT);
      var direct;
      DirectReady(D, B, d, n0, m, other);
      ok, direct := ReserveKids(d.direct, l, 1, InDirect(n0));
      ghost var D1, B1 := Disk(), Bits();
      GainedDirect(d, direct, B, B1);
      d' := d'.(direct := direct);
      if !ok {
        FailStage1(D, B, d, n0, D1, B1, m, other);
        return;
      }
      Stage1Done(D, B, d, n0, D1, B1, direct, m, other);
      num := num - l;
      if num == 0 {
        ExitStage1(D, B, d, n0, D1, B1, direct, m, other);
        return;
      }
      ghost var longer := d';
      ok, d' := ReserveTrees(d', num, D, B, d, n0);
      GainedTrees(D, B, D1, B1, Disk(), Bits(), other, d, longer, d');
      StaysTrans(D, B, D1, B1, Disk(), Bits(), other);
    }

    // The part of inode_reserve behind the direct pointers: NUM more data sectors.
    // D, B, D0 and N0 are the state before inode_reserve.
    method ReserveTrees(d: InodeDisk, num: nat, ghost D: Disk, ghost B: seq<bool>, ghost d0: InodeDisk, ghost n0: nat)
        returns (ok: bool, d': InodeDisk)
      requires Core() && Persisted() && 0 < num && n0 <= TreeTarget(num)
      requires WfInode(D, d0, n0) && Owned(B, AllSectors(D, d0, n0), Other()) && 0 < |D| && 0 < |B| && B[0]
      requires forall x :: x in Other() ==> x < |B| && B[x]
      requires |d.direct| == DIRECT && d == d0.(direct := d.direct)
      requires Stage1(D, B, d0, n0, Disk(), Bits(), d.direct, TreeTarget(num), Other())
      requires InDirect(TreeTarget(num)) - InDirect(n0) <= FreeCount(B)
      requires FreeCount(Bits()) == FreeCount(B) - (InDirect(TreeTarget(num)) - InDirect(n0))
      requires WfTree(Disk(), d.indirect, InIndirect(n0), 1) && Owned(Bits(), Tree(Disk(), d.indirect, InIndirect(n0), 1), Other())
      requires Size(InIndirect(n0), 1) <= Size(InIndirect(TreeTarget(num)), 1)
      modifies Foot()
      ensures Core() && Persisted() && Other() == old(Other())
      ensures d'.length == d.length && d'.isDir == d.isDir
      ensures Enough(B, n0, TreeTarget(num)) ==>
                InodeGrown(D, B, d0, n0, Disk(), Bits(), d', TreeTarget(num), Other()) && ok == (DIRECT + num <= MAX_SECTORS)
      ensures !Enough(B, n0, TreeTarget(num)) ==>
                !ok && Failed(D, B, IndexSectors(D, d0, n0), Disk(), Bits(), ExtraTotal(n0, TreeTarget(num)),
                              InodeClobbers(n0, TreeTarget(num), FreeCount(B)), Other())
      ensures d'.direct == d.direct && Gained(d, d', old(Bits()), Bits())
      ensures Stays(old(Disk()), old(Bits()), Disk(), Bits(), Other())
      decreases 4, 0
    {
      hide Stays, Keeps, AllGain, Gained, Mapped, Content, All, Stores, Packs, Owned, Grow, Failed, TakeFree, After, FreeCount,
        Words, FromWords, Kids, IndexKids, DataKids, WfKids, KidsGrown, TreeGrown, Clobbers, KidsClobbers, InodeClobbers, Frame,
        Tree, Index, Data, WfTree, InodeGrown, AllSectors, IndexSectors, Stage1, Stage2, Total, WfInode, Size, Persisted, Core;
      OtherTaken();
      ghost var other, m := Other(), TreeTarget(num);
      ghost var D1, B1 := Disk(), Bits();
      // a single indirect block
      var l := Min(num, PTRS);
      var left := num - l;
      var e, f;
      d' := d;
      ok, e := ReserveIndirect(d.indirect, l, 1, InIndirect(n0));
      ghost var D2, B2 := Disk(), Bits();
      GainedIndirect(d, e, B1, B2);
      d' := d'.(indirect := e);
      if !ok {
        FailStage2(D, B, d0, n0, D1, B1, d.direct, D2, B2, m, other);
        return;
      }
      Stage2Done(D, B, d0, n0, D1, B1, d.direct, D2, B2, e, m, other);
      if left == 0 {
        ExitStage2(D, B, d0, n0, D1, B1, d.direct, D2, B2, e, m, other);
        return;
      }
      // a single doubly indirect block
      l := Min(left, PTRS * PTRS);
      ok, f := ReserveIndirect(d.doubly, l, 2, InDoubly(n0));
      GainedDoubly(D1, B1, D2, B2, Disk(), Bits(), other, d, e, f);
      StaysTrans(D1, B1, D2, B2, Disk(), Bits(), other);
      d' := d'.(doubly := f);
      if !ok {
        FailStage3(D, B, d0, n0, D2, B2, d.direct, e, Disk(), Bits(), m, UpToIndirect(n0, m), other);
        return;
      }
      ExitStage3(D, B, d0, n0, D2, B2, d.direct, e, Disk(), Bits(), f, m, UpToIndirect(n0, m), other);
      left := left - l;
      ok := left == 0;
    }

    // The extending branch of inode_write_at.
    method Extend(inode: Inode, length: nat) returns (ok: bool)
      requires Core() && Persisted() && Sound(inode) && ApartFromMap(inode) && inode != fm
      requires (inode.data.length < length || length == 0) && length < LENGTH_LIMIT
      modifies Foot(), inode
      ensures Core() && Persisted() && Other() == old(Other())
      ensures length > 0 ==> ok == Fits(old(Bits()), old(inode.data), length)
      ensures length > 0 && ok ==>
                && Extended(old(Disk()), old(Bits()), old(inode.data), inode.sector, Disk(), Bits(), inode.data, length, Other())
                && Sound(inode) && ApartFromMap(inode)
      ensures !ok ==> inode.data.length == old(inode.data.length)
                      && Refused(old(Disk()), old(Bits()), old(inode.data), length, Disk(), Bits(), Other())
      ensures !ok ==> Gained(old(inode.data), inode.data, old(Bits()), Bits())
      ensures length == 0 ==>
                && ok && inode.data == old(inode.data).(length := 0) && Bits() == old(Bits())
                && Disk() == old(Disk())[inode.sector := Encode(inode.data)]
      decreases 4, 2
    {
      hide Stays, Longer, Gained, Mapped, Content, AllSectors, IndexSectors, DataSectors, Stores, Packs, Owned, TakeFree, After,
        FreeCount, Extended, Failed, InodeGrown, InodeClobbers, Total, WfInode, Encode, ExtraTotal;
      OtherTaken();
      ghost var D, B, d0, other := Disk(), Bits(), inode.data, Other();
      ReserveReady(D, B, d0, other);
      var d;
      ok, d := Reserve(inode.data, length, Num(inode.data));
      inode.data := d;
      if !ok {
        return;
      }
      inode.data := d.(length := length);
      if length > 0 {
        GrownShape(D, B, d0, Num(d0), Disk(), Bits(), d, Target(length), other);
        ExtendDone(D, B, d0, inode.sector, Disk(), Bits(), d, length, other);
      }
      Put(inode.sector, Encode(inode.data));
    }

    // inode_write_at
    method WriteAt(inode: Inode, buffer: seq<Byte>, offset: nat) returns (written: nat)
      requires Core() && Sound(inode) && offset + |buffer| < LENGTH_LIMIT
      requires inode == fm ==> 0 < |buffer| && offset + |buffer| <= inode.data.length
      requires inode != fm ==> Persisted() && ApartFromMap(inode)
      modifies Foot(), if inode == fm then {} else {inode}
      ensures Core() && Other() == old(Other())
      ensures inode != fm ==> Persisted()
      ensures inode == fm ==> Bits() == old(Bits())
      ensures !Shrinks(buffer, offset) && Fits(old(Bits()), old(inode.data), offset + |buffer|) ==>
                && written == |buffer|
                && Written(old(Disk()), old(Bits()), old(inode.data), inode.sector, Disk(), Bits(), inode.data, offset, buffer,
                           if inode == fm then {} else Other())
                && Sound(inode) && (inode != fm ==> ApartFromMap(inode))
      ensures !Shrinks(buffer, offset) && !Fits(old(Bits()), old(inode.data), offset + |buffer|) ==>
                && written == 0 && inode.data.length == old(inode.data.length)
                && Refused(old(Disk()), old(Bits()), old(inode.data), offset + |buffer|, Disk(), Bits(), Other())
      ensures !Shrinks(buffer, offset) && !Fits(old(Bits()), old(inode.data), offset + |buffer|) ==>
                && Readable(Disk(), inode.data) && Content(Disk(), inode.data) == old(Content(Disk(), inode.data))
                && (inode.sector != FREE_MAP_SECTOR ==> Disk()[inode.sector] == old(Disk()[inode.sector]))
                && Gained(old(inode.data), inode.data, old(Bits()), Bits())
      ensures Shrinks(buffer, offset) ==>
                && written == 0 && inode.data == old(inode.data).(length := 0) && Bits() == old(Bits())
                && Disk() == old(Disk())[inode.sector := Encode(inode.data)]
      decreases if inode == fm then 1 else 5, 0
    {
      hide Stays, Longer, Gained, Readable, Mapped, Content, AllSectors, IndexSectors, DataSectors, Stores, Packs, TakeFree,
        After, FreeCount, Flat, Splice, Extended, Written, Refused, Total, WfInode, Encode, OnlyIn, Frame;
      ghost var D, B, d, other := Disk(), Bits(), inode.data, Other();
      MappedFacts(D, B, d);
      MappedReadable(D, B, d);
      var at := ByteToSector(inode, offset + |buffer| - 1);
      if at == NO_SECTOR {
        // beyond the end of the file: extend it
        var ok := Extend(inode, offset + |buffer|);
        if !ok {
          GainedLonger(d, inode.data, B, Bits());
          RefusedSame(D, B, d, inode.sector, offset + |buffer|, Disk(), Bits(), inode.data, other);
          return 0;
        }
      }
      written := |buffer|;
      if offset + |buffer| > 0 {
        ghost var D1 := Disk();
        ExtendedShape(D, B, d, inode.sector, D1, Bits(), inode.data, offset + |buffer|, other);
        WriteBytes(inode, buffer, offset);
        MappedFacts(D1, Bits(), inode.data);
        if inode != fm && fm != null {
          MapSteady(D1, Disk(), Bits(), fm.data, Datas(D1, inode.data));
        }
        WriteDone(D, B, d, inode.sector, D1, Bits(), inode.data, Disk(), offset, buffer, if inode == fm then {} else other);
      }
    }

    // ----- giving sectors back -----

    // free_map_release
    method FreeMapRelease(sector: nat, cnt: nat)
      requires Core() && fm != null && 0 < sector && sector + cnt <= |Bits()|
      requires forall s :: sector <= s < sector + cnt ==> Bits()[s] && s !in Other()
      modifies Foot()
      ensures Core() && Persisted() && Other() == old(Other())
      ensures Bits() == SetRange(old(Bits()), sector, cnt, false)
      ensures Frame(old(Disk()), Disk(), Bits(), Other())
    {
      hide Content, AllSectors, IndexSectors, DataSectors, Stores, Packs, Flat, WfInode, Splice;
      Untouched(Disk(), Disk(), Bits(), SetRange(Bits(), sector, cnt, false), fm.data);
      freeMap.SetMultiple(sector, cnt, false);
      var ok := WriteFreeMap();
    }

    // inode_deallocate_indirect
    method DeallocateIndirect(entry: Word, num: nat, level: nat)
      requires Core() && Persisted() && fm != null && level <= 2 && 0 < num <= Span(level)
      requires WfTree(Disk(), entry, num, level) && Owned(Bits(), Tree(Disk(), entry, num, level), Other())
      modifies Foot()
      ensures Core() && Persisted() && Other() == old(Other())
      ensures Freed(old(Disk()), old(Bits()), old(Tree(Disk(), entry, num, level)), Disk(), Bits(), Other())
      decreases level, 1
    {
      hide ReadUses, WriteUses, WritesBack, Mapped, Content, AllSectors, DataSectors, IndexSectors, Stores, Packs, Words, Kids,
        WfKids, Freed, SetRange, Elems;
      ghost var D, B, other := Disk(), Bits(), Other();
      if level == 0 {
        assert entry in Tree(D, entry, num, level);
        FreeMapRelease(entry, 1);
        OneReleased(D, B, entry, Disk(), Bits(), other);
        return;
      }
      var block := cache.Read(entry);
      var ptrs := Words(block);
      ghost var K := Kids(D, ptrs, num, level);
      assert Tree(D, entry, num, level) == [entry] + K;
      OwnedParts(B, [entry], K, other);
      DeallocateKids(ptrs, num, level);
      ghost var D1, B1 := Disk(), Bits();
      BlockLast(D, B, entry, K, D1, B1, other);
      assert entry in [entry];
      FreeMapRelease(entry, 1);
      OneReleased(D1, B1, entry, Disk(), Bits(), other);
      BlockFreed(D, B, entry, K, D1, B1, Disk(), Bits(), other);
    }

    // The loops of inode_deallocate_indirect and inode_deallocate.
    method DeallocateKids(ptrs: seq<Word>, num: nat, level: nat)
      requires Core() && Persisted() && fm != null && 0 < level <= 2 && num <= Cap(|ptrs|, level)
      requires WfKids(Disk(), ptrs, num, level) && Owned(Bits(), Kids(Disk(), ptrs, num, level), Other())
      modifies Foot()
      ensures Core() && Persisted() && Other() == old(Other())
      ensures Freed(old(Disk()), old(Bits()), old(Kids(Disk(), ptrs, num, level)), Disk(), Bits(), Other())
      decreases level, 0
    {
      hide Mapped, Content, AllSectors, DataSectors, IndexSectors, Stores, Packs, Words, Kids, WfKids, Tree, WfTree, Freed,
        Owned, Elems;
      ghost var D, B, other := Disk(), Bits(), Other();
      FreedStart(D, B, ptrs, num, level, other);
      var unit := Unit(level);
      var count, left, i := DivRoundUp(num, unit), num, 0;
      if num > 0 {
        CountBounds(num, level, |ptrs|);
      }
      while i < count
        invariant 0 <= i <= count <= |ptrs| && left == num - Before(num, i, level)
        invariant Core() && Persisted() && fm != null && Other() == other
        invariant Freed(D, B, Kids(D, ptrs[..i], Before(num, i, level), level), Disk(), Bits(), other)
        decreases count - i
      {
        ghost var D1, B1 := Disk(), Bits();
        KidStillThere(D, B, ptrs, num, i, D1, B1, level, other);
        Shares(0, num, i, level);
        var subsize := Min(left, unit);
        DeallocateIndirect(ptrs[i], subsize, level - 1);
        FreedTwice(D, B, Kids(D, ptrs[..i], Before(num, i, level), level), D1, B1,
                   Tree(D, ptrs[i], Share(num, i, level), level - 1), Disk(), Bits(), other);
        left, i := left - subsize, i + 1;
      }
      KidsCut(D, ptrs, num, i, level);
    }

    // inode_deallocate
    method Deallocate(d: InodeDisk)
      requires Core() && Persisted() && fm != null && Mapped(Disk(), Bits(), d)
      requires forall x :: x in All(Disk(), d) ==> x !in Other()
      modifies Foot()
      ensures Core() && Persisted() && Other() == old(Other())
      ensures Freed(old(Disk()), old(Bits()), old(All(Disk(), d)), Disk(), Bits(), Other())
    {
      hide Mapped, Content, AllSectors, DataSectors, IndexSectors, Stores, Packs, Words, Kids, WfKids, Tree, WfTree, Freed,
        Owned, Elems;
      ghost var D, B, other, n := Disk(), Bits(), Other(), Num(d);
      ghost var K := Kids(D, d.direct, InDirect(n), 1);
      ghost var T, U := Tree(D, d.indirect, InIndirect(n), 1), Tree(D, d.doubly, InDoubly(n), 2);
      ReserveReady(D, B, d, other);
      ThreeOwned(D, B, d, n, other);
      var left := BytesToSectors(d.length);
      // direct blocks
      var l := Min(left, DIRECT);
      DeallocateKids(d.direct, l, 1);
      ghost var D1, B1 := Disk(), Bits();
      PartStillThere(D, B, K, D1, B1, other, d.indirect, InIndirect(n), 1);
      left := left - l;
      // a single indirect block
      l := Min(left, PTRS);
      if l > 0 {
        DeallocateIndirect(d.indirect, l, 1);
        left := left - l;
      } else {
        FreedNothing(D1, B1, other);
      }
      ghost var D2, B2 := Disk(), Bits();
      FreedTwice(D, B, K, D1, B1, T, D2, B2, other);
      PartStillThere(D, B, K + T, D2, B2, other, d.doubly, InDoubly(n), 2);
      // a single doubly indirect block
      l := Min(left, PTRS * PTRS);
      if l > 0 {
        DeallocateIndirect(d.doubly, l, 2);
        left := left - l;
      } else {
        FreedNothing(D2, B2, other);
      }
      FreedTwice(D, B, K + T, D2, B2, U, Disk(), Bits(), other);
    }

    // ----- creating and opening inodes -----

    /** inode_create in sector SECTOR, which the caller has allocated. */
    method Create(sector: nat, length: nat, isDir: bool) returns (ok: bool)
      requires Core() && Persisted() && length < LENGTH_LIMIT
      requires sector < |Bits()| && Bits()[sector] && sector !in Other()
      modifies Foot()
      ensures Core() && Persisted() && Other() == old(Other())
      ensures ok == Fits(old(Bits()), Blank(isDir), length)
      ensures ok ==> Extended(old(Disk()), old(Bits()), Blank(isDir), sector, Disk(), Bits(), Decode(Disk()[sector]), length, Other())
                     && sector !in All(Disk(), Decode(Disk()[sector]))
                     && (forall x :: x in All(Disk(), Decode(Disk()[sector])) ==> x !in Other())
      ensures !ok ==> Refused(old(Disk()), old(Bits()), Blank(isDir), length, Disk(), Bits(), Other())
    {
      hide Stays, Longer, Gained, Mapped, Content, AllSectors, IndexSectors, DataSectors, Stores, Packs, Owned, TakeFree, After,
        FreeCount, Extended, Failed, InodeGrown, InodeClobbers, Total, WfInode, Encode, Decode, ExtraTotal;
      OtherTaken();
      ghost var D, B, other := Disk(), Bits(), Other();
      var d := Blank(isDir);
      BlankMapped(D, B, isDir);
      BlankGrown(D, B, isDir, other);
      ReserveReady(D, B, d, other);
      ok, d := Reserve(d, length, 0);
      if ok {
        GrownShape(D, B, Blank(isDir), 0, Disk(), Bits(), d, Target(length), other);
        ExtendDone(D, B, Blank(isDir), sector, Disk(), Bits(), d, length, other);
        d := d.(length := length);
        HeaderRoundTrip(d);
        Put(sector, Encode(d));
      }
    }

    // inode_open of an inode that is not open yet.
    method Open(sector: nat) returns (inode: Inode)
      requires cache.Valid() && sector < |Disk()|
      modifies cache`clock, cache.cache, cache.device
      ensures cache.Valid() && fresh(inode)
      ensures inode.sector == sector && inode.data == Decode(Disk()[sector])
    {
      var block := cache.Read(sector);
      inode := new Inode(sector, Decode(block));
    }

    // ----- the free map's file -----

    // free_map_create
    method FreeMapCreate()
      requires Core() && fm == null && Fits(Bits(), Blank(false), ByteCnt(|Bits()|))
      modifies Foot(), this
      ensures Core() && Persisted() && fm != null && fresh(fm)
      ensures fm.data.length == ByteCnt(|Bits()|) && Disk()[FREE_MAP_SECTOR] == Encode(fm.data)
      ensures Other() == Elems(TakeFree(old(Bits()), ExtraTotal(0, Num(fm.data))))
      ensures Bits() == After(old(Bits()), ExtraTotal(0, Num(fm.data)))
    {
      hide Mapped, Content, AllSectors, IndexSectors, DataSectors, Stores, Packs, TakeFree, After, FreeCount, Total, WfInode,
        Encode, Decode, Frame, Elems;
      ghost var D, B := Disk(), Bits();
      var ok := Create(FREE_MAP_SECTOR, ByteCnt(freeMap.bitCnt), false);
      fm := Open(FREE_MAP_SECTOR);
      BlankMapped(D, B, false);
      CreatedHeader(D, B, false, FREE_MAP_SECTOR, Disk(), Bits(), fm.data, ByteCnt(|Bits()|), {});
      ghost var h := Disk()[FREE_MAP_SECTOR];
      ghost var D1, B1 := Disk(), Bits();
      OtherTaken();
      var written := WriteFreeMap();
      FrameAt(D1, Disk(), B1, Other(), FREE_MAP_SECTOR);
    }

    // free_map_open, as filesys_init calls it, after formatting too.  STORED is the
    // free map that was in memory when the device was last used.
    method FreeMapOpen(ghost stored: seq<bool>)
      requires Core() && |stored| == |Bits()| && stored[FREE_MAP_SECTOR]
      requires var d := Decode(Disk()[FREE_MAP_SECTOR]);
               Mapped(Disk(), stored, d) && d.length == ByteCnt(|stored|) && Stores(Content(Disk(), d), stored)
      modifies Foot(), this
      ensures Core() && Persisted() && fm != null && fresh(fm) && fm.data == Decode(Disk()[FREE_MAP_SECTOR])
      ensures Bits() == stored && Disk() == old(Disk())
    {
      hide Mapped, Content, AllSectors, IndexSectors, DataSectors, Stores, Packs, WfInode, Decode;
      fm := Open(FREE_MAP_SECTOR);
      MappedFacts(Disk(), stored, fm.data);
      MappedReadable(Disk(), stored, fm.data);
      var bytes := ReadAt(fm, ByteCnt(freeMap.bitCnt), 0);
      assert bytes == Content(Disk(), fm.data);
      freeMap.Load(bytes, stored);
    }

    // ----- listing the sectors of an inode -----

    // One innermost loop of get_inode_data_sectors: COUNT pointers of a block to the list.
    static method CopyPointers(block: seq<Word>, count: nat, sectors: array<nat>, cur: nat, ghost data: seq<nat>)
      requires count <= |block| && cur + count <= sectors.Length == |data|
      requires sectors[..cur] == data[..cur]
      requires forall i :: 0 <= i < count ==> data[cur + i] == block[i]
      modifies sectors
      ensures sectors[..cur + count] == data[..cur + count]
    {
      for i := 0 to count
        invariant sectors[..cur + i] == data[..cur + i]
      {
        sectors[cur + i] := block[i];
        assert data[cur + i] == block[i];
        assert sectors[..cur + i + 1] == sectors[..cur + i] + [block[i]];
        assert data[..cur + i + 1] == data[..cur + i] + [data[cur + i]];
      }
    }

    /** get_inode_data_sectors: the list its nested loops build is the data
        sectors in file order, which are also what index_to_sector finds. */
    method GetDataSectors(inode: Inode) returns (sectors: array<nat>)
      requires cache.Valid() && Readable(Disk(), inode.data)
      modifies cache`clock, cache.cache, cache.device
      ensures cache.Valid() && fresh(sectors)
      ensures sectors[..] == Datas(Disk(), inode.data)
    {
      hide ReadUses, WriteUses, WritesBack, Routed, Content, DataSectors, Words;
      ghost var D, d, n, data := Disk(), inode.data, Num(inode.data), Datas(Disk(), inode.data);
      ReadableFacts(D, d);
      AllRoutes(D, d, n, data);
      var left := BytesToSectors(inode.data.length);
      sectors := new nat[left];
      // direct blocks
      var l := Min(left, DIRECT);
      CopyPointers(inode.data.direct, l, sectors, 0, data);
      left := left - l;
      // a single indirect block
      l := Min(left, PTRS);
      if l > 0 {
        var block := cache.Read(inode.data.indirect);
        CopyPointers(Words(block), l, sectors, DIRECT, data);
        left := left - l;
      }
      // a single doubly indirect block
      l := Min(left, PTRS * PTRS);
      if l > 0 {
        ListDoubly(inode, l, sectors, data);
      }
    }

    // Its part for the doubly indirect block.
    method ListDoubly(inode: Inode, l: nat, sectors: array<nat>, ghost data: seq<nat>)
      requires cache.Valid() && sectors.Length == |data| == DIRECT + PTRS + l && l <= PTRS * PTRS
      requires sectors as object !in Foot() && inode.data.doubly < |Disk()|
      requires sectors[..DIRECT + PTRS] == data[..DIRECT + PTRS]
      requires forall i :: 0 <= i < l ==>
                 && Words(Disk()[inode.data.doubly])[i / PTRS] < |Disk()|
                 && data[DIRECT + PTRS + i] == Words(Disk()[Words(Disk()[inode.data.doubly])[i / PTRS]])[i % PTRS]
      modifies cache`clock, cache.cache, cache.device, sectors
      ensures cache.Valid()
      ensures sectors[..] == data
    {
      hide ReadUses, WriteUses, WritesBack, Words;
      var block := cache.Read(inode.data.doubly);
      var blocks, left := DivRoundUp(l, PTRS), l;
      for i := 0 to blocks
        invariant left == l - Min(l, PTRS * i) && cache.Valid()
        invariant sectors[..DIRECT + PTRS + Min(l, PTRS * i)] == data[..DIRECT + PTRS + Min(l, PTRS * i)]
      {
        var subsize := Min(left, PTRS);
        InBlock(i, 0);
        var block2 := cache.Read(Words(block)[i]);
        forall i2 | 0 <= i2 < subsize
          ensures data[DIRECT + PTRS + PTRS * i + i2] == Words(block2)[i2]
        {
          InBlock(i, i2);
        }
        CopyPointers(Words(block2), subsize, sectors, DIRECT + PTRS + PTRS * i, data);
        left := left - subsize;
      }
      assert sectors[..] == sectors[..|data|] && data[..|data|] == data;
    }
  }
}
