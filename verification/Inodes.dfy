/** The on-disk inode: 123 direct pointers, one level-1 and one level-2 subtree,
    its encoding as a sector, and the bytes a mapped inode stands for. */
module Inodes {
  import opened Sequences
  import opened Sectors
  import opened FirstFit
  import opened Layout
  import opened Growth

  const INODE_MAGIC := 0x494e_4f44
  const LENGTH_LIMIT := 0x8000_0000

  datatype InodeDisk = InodeDisk(direct: seq<Word>, indirect: Word, doubly: Word, isDir: bool, length: int)

  // bytes_to_sectors
  function BytesToSectors(length: nat): nat {
    DivRoundUp(length, SECTOR_SIZE)
  }

  // How N data sectors divide over the three kinds of pointer.
  function InDirect(n: nat): nat { Min(n, DIRECT) }

  function InIndirect(n: nat): nat {
    if n <= DIRECT then 0 else if n <= DIRECT + PTRS then n - DIRECT else PTRS
  }

  function InDoubly(n: nat): nat {
    if n <= DIRECT + PTRS then 0 else n - DIRECT - PTRS
  }

  // All sectors of an inode with N data sectors, in the order the code allocates them.
  ghost function AllSectors(disk: Disk, d: InodeDisk, n: nat): seq<nat> {
    Kids(disk, d.direct, InDirect(n), 1) + Tree(disk, d.indirect, InIndirect(n), 1) + Tree(disk, d.doubly, InDoubly(n), 2)
  }

  // Its data sectors in file order.
  ghost function DataSectors(disk: Disk, d: InodeDisk, n: nat): seq<nat> {
    DataKids(disk, d.direct, InDirect(n), 1) + Data(disk, d.indirect, InIndirect(n), 1) + Data(disk, d.doubly, InDoubly(n), 2)
  }

  // Its index blocks.
  ghost function IndexSectors(disk: Disk, d: InodeDisk, n: nat): seq<nat> {
    IndexKids(disk, d.direct, InDirect(n), 1) + Index(disk, d.indirect, InIndirect(n), 1) + Index(disk, d.doubly, InDoubly(n), 2)
  }

  ghost predicate WfInode(disk: Disk, d: InodeDisk, n: nat) {
    && |d.direct| == DIRECT
    && WfKids(disk, d.direct, InDirect(n), 1)
    && WfTree(disk, d.indirect, InIndirect(n), 1)
    && WfTree(disk, d.doubly, InDoubly(n), 2)
  }

  // Number of sectors, data and index, of an inode with N data sectors.
  function Total(n: nat): nat {
    InDirect(n) + Size(InIndirect(n), 1) + Size(InDoubly(n), 2)
  }

  // The inode inode_create starts from (calloc).
  function Blank(isDir: bool): InodeDisk {
    InodeDisk(seq(DIRECT, _ => 0), 0, 0, isDir, 0)
  }

  // ----- encoding -----

  ghost predicate Encodable(d: InodeDisk) {
    |d.direct| == DIRECT && 0 <= d.length < LENGTH_LIMIT
  }

  function HeaderWords(d: InodeDisk): (ws: seq<Word>)
    requires Encodable(d)
    ensures |ws| == WORDS_PER_SECTOR
  {
    d.direct + [d.indirect, d.doubly, if d.isDir then 1 else 0, d.length, INODE_MAGIC]
  }

  function Encode(d: InodeDisk): Sector
    requires Encodable(d)
  {
    FromWords(HeaderWords(d))
  }

  function Decode(s: Sector): InodeDisk {
    var ws := Words(s);
    InodeDisk(ws[..DIRECT], ws[DIRECT], ws[DIRECT + 1], ws[DIRECT + 2] != 0,
              if ws[DIRECT + 3] < LENGTH_LIMIT then ws[DIRECT + 3] else ws[DIRECT + 3] - WORD_LIMIT)
  }

  /** An inode written to its sector and read back is the same inode. */
  lemma HeaderRoundTrip(d: InodeDisk)
    requires Encodable(d)
    ensures Decode(Encode(d)) == d
  {
    WordsRoundTrip(HeaderWords(d));
  }

  /** Where the fields of an inode lie in its sector: 32-bit words in this order. */
  lemma HeaderLayout(d: InodeDisk)
    requires Encodable(d)
    ensures var ws := Words(Encode(d));
            && (forall k :: 0 <= k < 123 ==> ws[k] == d.direct[k])
            && ws[123] == d.indirect && ws[124] == d.doubly && ws[125] == (if d.isDir then 1 else 0)
            && ws[126] == d.length && ws[127] == 0x494e_4f44
  {
    WordsRoundTrip(HeaderWords(d));
  }

  // ----- bytes -----

  // Byte I of the data sectors laid end to end.
  ghost function ByteAt(disk: Disk, data: seq<nat>, i: nat): Byte
    requires i < SECTOR_SIZE * |data|
  {
    var s := data[i / SECTOR_SIZE];
    if s < |disk| then disk[s][i % SECTOR_SIZE] else 0
  }

  ghost function Flat(disk: Disk, data: seq<nat>): (b: seq<Byte>)
    ensures |b| == SECTOR_SIZE * |data|
  {
    seq(SECTOR_SIZE * |data|, i requires 0 <= i < SECTOR_SIZE * |data| => ByteAt(disk, data, i))
  }

  // The bytes of an inode.
  ghost function Content(disk: Disk, d: InodeDisk): seq<Byte> {
    var f := Flat(disk, DataSectors(disk, d, BytesToSectors(Max(d.length, 0))));
    if 0 <= d.length <= |f| then f[..d.length] else f
  }

  /** A mapped inode: exactly the sectors its length needs are allocated, each of
      them marked and in one place only, and what is past the end reads as zero. */
  ghost predicate Mapped(disk: Disk, bits: seq<bool>, d: InodeDisk) {
    && 0 <= d.length < LENGTH_LIMIT
    && var n := BytesToSectors(d.length);
    && WfInode(disk, d, n)
    && NoDup(AllSectors(disk, d, n))
    && AllAre(bits, AllSectors(disk, d, n), true)
    && ZeroFrom(disk, DataSectors(disk, d, n), d.length)
  }

  ghost predicate ZeroFrom(disk: Disk, data: seq<nat>, from: nat) {
    forall i :: from <= i < SECTOR_SIZE * |data| ==> ByteAt(disk, data, i) == 0
  }

  // DATA written at OFS: everything else stays, a gap past the old end is zero.
  function Splice(old_: seq<Byte>, ofs: nat, data: seq<Byte>): (r: seq<Byte>)
    ensures |r| == Max(|old_|, ofs + |data|)
  {
    seq(Max(|old_|, ofs + |data|), i requires 0 <= i < Max(|old_|, ofs + |data|) =>
      if ofs <= i < ofs + |data| then data[i - ofs] else if i < |old_| then old_[i] else 0)
  }

  // ----- the sectors of an inode -----

  lemma InodeSize(disk: Disk, d: InodeDisk, n: nat)
    requires WfInode(disk, d, n)
    ensures n <= MAX_SECTORS
    ensures |DataSectors(disk, d, n)| == n && |AllSectors(disk, d, n)| == Total(n)
  {
    hide WfTree, WfKids, Tree, Kids, Data, DataKids;
    KidsSize(disk, d.direct, InDirect(n), 1);
    TreeSize(disk, d.indirect, InIndirect(n), 1);
    TreeSize(disk, d.doubly, InDoubly(n), 2);
  }

  lemma InodeParts(disk: Disk, d: InodeDisk, n: nat)
    ensures multiset(AllSectors(disk, d, n)) == multiset(DataSectors(disk, d, n)) + multiset(IndexSectors(disk, d, n))
    ensures forall x :: x in DataSectors(disk, d, n) ==> x in AllSectors(disk, d, n)
    ensures forall x :: x in IndexSectors(disk, d, n) ==> x in AllSectors(disk, d, n)
  {
    hide Tree, Kids, Data, DataKids, Index, IndexKids;
    KidsParts(disk, d.direct, InDirect(n), 1);
    TreeParts(disk, d.indirect, InIndirect(n), 1);
    TreeParts(disk, d.doubly, InDoubly(n), 2);
    forall x | x in DataSectors(disk, d, n) || x in IndexSectors(disk, d, n)
      ensures x in multiset(AllSectors(disk, d, n))
    {}
  }

  lemma InodeRange(disk: Disk, d: InodeDisk, n: nat)
    requires WfInode(disk, d, n)
    ensures forall x :: x in AllSectors(disk, d, n) ==> 0 < x < |disk|
  {
    hide Tree, Kids, WfTree, WfKids;
    KidsRange(disk, d.direct, InDirect(n), 1);
    TreeRange(disk, d.indirect, InIndirect(n), 1);
    TreeRange(disk, d.doubly, InDoubly(n), 2);
  }

  lemma InodeFrame(disk: Disk, disk': Disk, d: InodeDisk, n: nat)
    requires SameOn(disk, disk', IndexSectors(disk, d, n))
    ensures AllSectors(disk', d, n) == AllSectors(disk, d, n)
    ensures DataSectors(disk', d, n) == DataSectors(disk, d, n)
    ensures IndexSectors(disk', d, n) == IndexSectors(disk, d, n)
    ensures WfInode(disk', d, n) == WfInode(disk, d, n)
  {
    hide Tree, Kids, Data, DataKids, Index, IndexKids, WfTree, WfKids;
    KidsFrame(disk, disk', d.direct, InDirect(n), 1);
    TreeFrame(disk, disk', d.indirect, InIndirect(n), 1);
    TreeFrame(disk, disk', d.doubly, InDoubly(n), 2);
  }

  /** In a tree without repeats no data sector is an index block. */
  lemma DataApart(disk: Disk, d: InodeDisk, n: nat)
    requires NoDup(AllSectors(disk, d, n))
    ensures NoDup(DataSectors(disk, d, n))
    ensures forall x :: x in DataSectors(disk, d, n) ==> x !in IndexSectors(disk, d, n)
  {
    hide AllSectors, DataSectors, IndexSectors;
    var A, S, I := AllSectors(disk, d, n), DataSectors(disk, d, n), IndexSectors(disk, d, n);
    InodeParts(disk, d, n);
    forall x
      ensures multiset(S)[x] + multiset(I)[x] <= 1
    {
      MultisetOnce(A, x);
    }
    NoDupFromMultiset(S);
    forall x | x in S
      ensures x !in I
    {
      assert x in multiset(S) && (x in I ==> x in multiset(I));
    }
  }
}
