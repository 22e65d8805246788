/** How the bytes of an inode change: one data sector rewritten, and the inode
    grown by zeroed sectors. */
module Contents {
  import opened Sequences
  import opened Sectors
  import opened FirstFit
  import opened Layout
  import opened Growth
  import opened Inodes
  import opened Positions

  function Num(d: InodeDisk): nat {
    BytesToSectors(Max(d.length, 0))
  }

  ghost function All(disk: Disk, d: InodeDisk): seq<nat> { AllSectors(disk, d, Num(d)) }

  ghost function Datas(disk: Disk, d: InodeDisk): seq<nat> { DataSectors(disk, d, Num(d)) }

  // Only sectors listed in S differ.
  ghost predicate OnlyIn(D0: Disk, D1: Disk, S: seq<nat>) {
    |D1| == |D0| && forall s :: 0 <= s < |D0| && s !in S ==> D1[s] == D0[s]
  }

  lemma MappedFacts(disk: Disk, bits: seq<bool>, d: InodeDisk)
    requires Mapped(disk, bits, d)
    ensures |Datas(disk, d)| == Num(d) && d.length <= SECTOR_SIZE * Num(d)
    ensures NoDup(Datas(disk, d))
    ensures forall x :: x in Datas(disk, d) ==> x in All(disk, d) && x !in IndexSectors(disk, d, Num(d))
    ensures forall x :: x in IndexSectors(disk, d, Num(d)) ==> x in All(disk, d)
    ensures |Content(disk, d)| == d.length
  {
    hide WfInode, AllSectors, DataSectors, IndexSectors;
    InodeSize(disk, d, Num(d));
    InodeParts(disk, d, Num(d));
    DataApart(disk, d, Num(d));
  }

  lemma MappedEncodable(D: Disk, B: seq<bool>, d: InodeDisk)
    requires Mapped(D, B, d)
    ensures Encodable(d)
  {
    hide AllSectors, DataSectors, ZeroFrom, WfTree, WfKids;
  }

  /** An inode whose bytes can be read.  A mapped one is; so is one with pointers
      past its end, which a refused write may leave. */
  ghost predicate Readable(disk: Disk, d: InodeDisk) {
    0 <= d.length < LENGTH_LIMIT && Routed(disk, d, Num(d))
  }

  lemma MappedReadable(disk: Disk, bits: seq<bool>, d: InodeDisk)
    requires Mapped(disk, bits, d)
    ensures Readable(disk, d)
  {
    hide WfInode, AllSectors, DataSectors, ZeroFrom;
    WfRouted(disk, d, Num(d));
  }

  lemma ReadableFacts(disk: Disk, d: InodeDisk)
    requires Readable(disk, d)
    ensures 0 <= d.length <= SECTOR_SIZE * Num(d) && |Datas(disk, d)| == Num(d) && |Content(disk, d)| == d.length
    ensures forall i :: 0 <= i < Num(d) ==> Datas(disk, d)[i] < |disk|
  {
    hide DataSectors;
    forall i | 0 <= i < Num(d)
      ensures Datas(disk, d)[i] < |disk|
    {
      assert Leads(disk, d, i, Datas(disk, d)[i]);
    }
  }

  // Changing data sectors only leaves the inode's tree as it is.
  lemma TreeSteady(D0: Disk, D1: Disk, bits: seq<bool>, d: InodeDisk)
    requires Mapped(D0, bits, d) && OnlyIn(D0, D1, Datas(D0, d))
    ensures All(D1, d) == All(D0, d) && Datas(D1, d) == Datas(D0, d)
    ensures IndexSectors(D1, d, Num(d)) == IndexSectors(D0, d, Num(d))
    ensures WfInode(D1, d, Num(d))
    ensures ZeroFrom(D1, Datas(D0, d), d.length) ==> Mapped(D1, bits, d)
  {
    hide WfInode, AllSectors, DataSectors, IndexSectors;
    MappedFacts(D0, bits, d);
    InodeFrame(D0, D1, d, Num(d));
  }

  // Changing sectors the inode does not have leaves it and its bytes alone.
  lemma Untouched(D0: Disk, D1: Disk, B0: seq<bool>, B1: seq<bool>, d: InodeDisk)
    requires Mapped(D0, B0, d) && AllAre(B1, All(D0, d), true)
    requires SameOn(D0, D1, All(D0, d))
    ensures Mapped(D1, B1, d)
    ensures All(D1, d) == All(D0, d) && Datas(D1, d) == Datas(D0, d)
    ensures IndexSectors(D1, d, Num(d)) == IndexSectors(D0, d, Num(d))
    ensures Flat(D1, Datas(D1, d)) == Flat(D0, Datas(D0, d)) && Content(D1, d) == Content(D0, d)
  {
    hide WfInode, AllSectors, DataSectors, IndexSectors;
    MappedFacts(D0, B0, d);
    InodeFrame(D0, D1, d, Num(d));
    var data := Datas(D0, d);
    forall i | 0 <= i < SECTOR_SIZE * |data|
      ensures ByteAt(D1, data, i) == ByteAt(D0, data, i)
    {
      assert data[i / SECTOR_SIZE] in data;
    }
    assert Flat(D1, data) == Flat(D0, data);
  }

  // Sector Q of the file overwritten from position OFS on with CHUNK.
  lemma SectorWritten(D: Disk, data: seq<nat>, q: nat, ofs: nat, chunk: seq<Byte>)
    requires NoDup(data) && q < |data| && data[q] < |D| && ofs + |chunk| <= SECTOR_SIZE
    ensures var old_ := D[data[q]];
            var x: Sector := old_[..ofs] + chunk + old_[ofs + |chunk|..];
            Flat(D[data[q] := x], data) == Splice(Flat(D, data), SECTOR_SIZE * q + ofs, chunk)
  {
    var old_ := D[data[q]];
    var x: Sector := old_[..ofs] + chunk + old_[ofs + |chunk|..];
    var D' := D[data[q] := x];
    var o := SECTOR_SIZE * q + ofs;
    forall i | 0 <= i < SECTOR_SIZE * |data|
      ensures Flat(D', data)[i] == Splice(Flat(D, data), o, chunk)[i]
    {
      var p := i / SECTOR_SIZE;
      if p == q {
        assert i == SECTOR_SIZE * q + i % SECTOR_SIZE;
        if ofs <= i % SECTOR_SIZE < ofs + |chunk| {
          assert x[i % SECTOR_SIZE] == chunk[i - o];
        } else {
          assert x[i % SECTOR_SIZE] == old_[i % SECTOR_SIZE];
        }
      } else {
        assert data[p] != data[q];
        assert i < SECTOR_SIZE * q || SECTOR_SIZE * q + SECTOR_SIZE <= i;
      }
    }
  }

  /** Overwriting PIECE at OFS, inside one sector and before the end of the file,
      keeps the inode mapped with the same sectors and replaces just those bytes. */
  lemma PieceWritten(D: Disk, bits: seq<bool>, d: InodeDisk, ofs: nat, piece: seq<Byte>, x: Sector)
    requires Mapped(D, bits, d) && ofs + |piece| <= d.length && |piece| > 0
    requires ofs / SECTOR_SIZE < |Datas(D, d)| && Datas(D, d)[ofs / SECTOR_SIZE] < |D|
    requires var r := ofs % SECTOR_SIZE; var old_ := D[Datas(D, d)[ofs / SECTOR_SIZE]];
             r + |piece| <= SECTOR_SIZE && x == old_[..r] + piece + old_[r + |piece|..]
    ensures var D' := D[Datas(D, d)[ofs / SECTOR_SIZE] := x];
            && Mapped(D', bits, d) && All(D', d) == All(D, d) && Datas(D', d) == Datas(D, d)
            && OnlyIn(D, D', Datas(D, d))
            && Flat(D', Datas(D, d)) == Splice(Flat(D, Datas(D, d)), ofs, piece)
  {
    hide WfInode, AllSectors, DataSectors, IndexSectors;
    MappedFacts(D, bits, d);
    var data, q := Datas(D, d), ofs / SECTOR_SIZE;
    var D' := D[data[q] := x];
    assert data[q] in data;
    SectorWritten(D, data, q, ofs % SECTOR_SIZE, piece);
    assert SECTOR_SIZE * q + ofs % SECTOR_SIZE == ofs;
    TreeSteady(D, D', bits, d);
    forall i | d.length <= i < SECTOR_SIZE * |data|
      ensures ByteAt(D', data, i) == 0
    {
      assert Flat(D', data)[i] == Flat(D, data)[i];
    }
  }

  // Writing A and then B right after it is writing A + B.
  lemma SpliceTwice(f: seq<Byte>, ofs: nat, a: seq<Byte>, b: seq<Byte>)
    ensures Splice(Splice(f, ofs, a), ofs + |a|, b) == Splice(f, ofs, a + b)
  {}

  // Cutting after the end of the write commutes with it.
  lemma SplicePrefix(f: seq<Byte>, len: nat, ofs: nat, a: seq<Byte>)
    requires ofs + |a| <= len <= |f|
    ensures Splice(f, ofs, a)[..len] == Splice(f[..len], ofs, a)
    ensures Splice(f, ofs, a)[len..] == f[len..]
  {}

  /** After growth the old data sectors are where they were; the new ones come
      from the free list. */
  lemma DataKept(D0: Disk, B0: seq<bool>, d0: InodeDisk, n0: nat, D1: Disk, d1: InodeDisk, n1: nat, k: nat, i: nat)
    requires WfInode(D0, d0, n0) && WfInode(D1, d1, n1) && i < n1
    requires n0 <= n1 && AllSectors(D1, d1, n1) == AllSectors(D0, d0, n0) + TakeFree(B0, k)
    ensures |DataSectors(D0, d0, n0)| == n0 && |DataSectors(D1, d1, n1)| == n1
    ensures i < n0 ==> DataSectors(D1, d1, n1)[i] == DataSectors(D0, d0, n0)[i]
    ensures i >= n0 ==> DataSectors(D1, d1, n1)[i] in TakeFree(B0, k)
  {
    hide WfInode, AllSectors, DataSectors, TakeFree;
    InodeSize(D0, d0, n0);
    PlaceOf(D1, d1, n1, i);
    SplitAtOld(n0, n1, i);
    if i < n0 {
      PlaceOf(D0, d0, n0, i);
    }
  }

  /** Growth extends the bytes with zeros. */
  lemma GrowBytes(D0: Disk, B0: seq<bool>, d0: InodeDisk, n0: nat, D1: Disk, B1: seq<bool>, d1: InodeDisk, n1: nat, k: nat,
                  other: set<nat>, j: nat)
    requires WfInode(D0, d0, n0) && WfInode(D1, d1, n1) && n0 <= n1 && |B0| <= |D0|
    requires Owned(B0, AllSectors(D0, d0, n0), other)
    requires Grow(D0, B0, AllSectors(D0, d0, n0), IndexSectors(D0, d0, n0),
                  D1, B1, AllSectors(D1, d1, n1), DataSectors(D1, d1, n1), k, other)
    requires j < SECTOR_SIZE * n1
    ensures |DataSectors(D0, d0, n0)| == n0 && |DataSectors(D1, d1, n1)| == n1
    ensures ByteAt(D1, DataSectors(D1, d1, n1), j)
         == if j < SECTOR_SIZE * n0 then ByteAt(D0, DataSectors(D0, d0, n0), j) else 0
  {
    hide WfInode, AllSectors, DataSectors, IndexSectors, TakeFree;
    var i := j / SECTOR_SIZE;
    DataKept(D0, B0, d0, n0, D1, d1, n1, k, i);
    InodeParts(D0, d0, n0);
    DataApart(D0, d0, n0);
    TakeFacts(B0, k);
    var s := DataSectors(D1, d1, n1)[i];
    if i < n0 {
      assert s in DataSectors(D0, d0, n0);
    } else {
      assert s in DataSectors(D1, d1, n1);
      assert D1[s] == Zeros();
    }
  }

  lemma SpliceNothing(f: seq<Byte>, ofs: nat)
    requires ofs <= |f|
    ensures Splice(f, ofs, []) == f
  {}

  // Bytes OFS.. of an inode, up to the end of their sector, are bytes of that sector.
  lemma SectorBytes(disk: Disk, d: InodeDisk, ofs: nat, len: nat)
    requires |Datas(disk, d)| == Num(d) && 0 <= d.length <= SECTOR_SIZE * Num(d)
    requires ofs + len <= d.length && ofs % SECTOR_SIZE + len <= SECTOR_SIZE && len > 0
    requires Datas(disk, d)[ofs / SECTOR_SIZE] < |disk|
    ensures |Content(disk, d)| == d.length
    ensures Content(disk, d)[ofs..ofs + len]
         == disk[Datas(disk, d)[ofs / SECTOR_SIZE]][ofs % SECTOR_SIZE..ofs % SECTOR_SIZE + len]
  {
    hide DataSectors;
    var q, r := ofs / SECTOR_SIZE, ofs % SECTOR_SIZE;
    var c, s := Content(disk, d), disk[Datas(disk, d)[q]];
    forall j | ofs <= j < ofs + len
      ensures c[j] == s[j - ofs + r]
    {
      assert j / SECTOR_SIZE == q && j % SECTOR_SIZE == j - ofs + r;
    }
    assert c[ofs..ofs + len] == s[r..r + len];
  }

  // Marking more sectors does not disturb an inode.
  lemma MoreMarked(disk: Disk, B0: seq<bool>, B1: seq<bool>, d: InodeDisk)
    requires Mapped(disk, B0, d) && |B1| == |B0| && forall i :: 0 <= i < |B0| && B0[i] ==> B1[i]
    ensures Mapped(disk, B1, d)
  {
    hide WfInode, AllSectors, DataSectors, ZeroFrom;
  }
}
