/** The gap test of fragmentation_degree (fsutil2.c), and why it never fires for
    a file that was written while the free sectors were in one piece. */
module Fragmentation {
  import opened Sectors
  import opened FirstFit
  import opened Layout
  import opened Growth
  import opened Inodes
  import opened Positions
  import opened Contents
  import opened Writes
  import opened Bitmaps
  import opened Files
  import opened Runs
  import opened Accounting
  import opened FileSystems
  import opened Operations

  const MAX_GAP := 3

  // Subtraction of two 32-bit sector numbers, which wraps around.
  function Distance(a: Word, b: Word): Word {
    (a - b) % WORD_LIMIT
  }

  // Some sector does not come right after the one before it, give or take index blocks.
  ghost predicate HasGap(blocks: seq<nat>) {
    exists i :: 0 < i < |blocks| && !(blocks[i - 1] <= blocks[i] <= blocks[i - 1] + MAX_GAP)
  }

  // The loop over the sectors.
  method GapTest(blocks: array<nat>) returns (fragmented: bool)
    requires forall i :: 0 <= i < blocks.Length ==> 0 < blocks[i] < NO_SECTOR - 1
    ensures fragmented <==> HasGap(blocks[..])
  {
    for i := 0 to blocks.Length
      invariant forall j :: 0 < j < i ==> blocks[..][j - 1] <= blocks[..][j] <= blocks[..][j - 1] + MAX_GAP
    {
      var place := if i == 0 then blocks[0] else blocks[i - 1];
      if Distance(blocks[i], place) > MAX_GAP && blocks[i] != 0 {
        assert !(blocks[..][i - 1] <= blocks[..][i] <= blocks[..][i - 1] + MAX_GAP);
        return true;
      }
    }
    return false;
  }

  /** The test for one open file: it is counted as fragmented exactly if its data
      sectors, in file order, somewhere go back or ahead by more than three. */
  method IsFragmented(fs: FileSystem, inode: Inode, ghost s: State) returns (fragmented: bool)
    requires Shows(fs, s) && Good(s) && Opened(fs, s, inode)
    modifies fs.cache`clock, fs.cache.cache, fs.cache.device
    ensures Shows(fs, s)
    ensures fragmented <==> HasGap(Datas(s.disk, Ino(s.disk, inode.sector)))
  {
    hide Mapped, All, Ino, DataSectors, Stores, Good, Content, Packs, HasGap, Readable;
    OpenedSound(s, inode.sector);
    DataInRange(s, inode.data);
    var toRead := inode.data.length / SECTOR_SIZE;
    if inode.data.length % SECTOR_SIZE != 0 {
      toRead := toRead + 1;
    }
    if toRead > 1 {
      MappedReadable(s.disk, s.bits, inode.data);
      var blocks := fs.GetDataSectors(inode);
      assert forall i :: 0 <= i < blocks.Length ==> blocks[i] == blocks[..][i] && blocks[..][i] in blocks[..];
      fragmented := GapTest(blocks);
    } else {
      SingleHasNoGap(Datas(s.disk, inode.data));
      fragmented := false;
    }
  }

  lemma SingleHasNoGap(blocks: seq<nat>)
    ensures |blocks| <= 1 ==> !HasGap(blocks)
  {}

  lemma DataInRange(s: State, d: InodeDisk)
    requires Good(s) && Mapped(s.disk, s.bits, d)
    ensures |Datas(s.disk, d)| == Num(d) && 0 <= d.length
    ensures forall x :: x in Datas(s.disk, d) ==> 0 < x < |s.bits|
  {
    hide WfInode, All, Datas, Good, Content;
    MappedFacts(s.disk, s.bits, d);
    MappedSectors(s.disk, s.bits, d);
  }

  // ----- free sectors in one piece -----

  // Everything below FROM is taken, everything else free.
  ghost predicate Tail(bits: seq<bool>, from: nat) {
    from <= |bits| && forall i :: 0 <= i < |bits| ==> bits[i] == (i < from)
  }

  lemma {:induction false} TakeTail(bits: seq<bool>, from: nat, k: nat)
    requires Tail(bits, from)
    ensures |TakeFree(bits, k)| == Min(k, |bits| - from)
    ensures forall i :: 0 <= i < |TakeFree(bits, k)| ==> TakeFree(bits, k)[i] == from + i
    decreases k
  {
    assert from < |bits| ==> !bits[from];
    if k > 0 && from < |bits| {
      TakeTail(bits[from := true], from + 1, k - 1);
    }
  }

  // From one data sector to the next there is room for two index blocks at most.
  lemma NextPlace(i: nat)
    ensures Total(i) < Total(i + 1) <= Total(i) + MAX_GAP
    ensures Total(i + 1) == Total(i) + MAX_GAP <==> i == DIRECT + PTRS
  {}

  lemma NoGapFromTail(D: Disk, B: seq<bool>, d: InodeDisk, bits: seq<bool>, from: nat, k: nat)
    requires Mapped(D, B, d) && All(D, d) == TakeFree(bits, k) && Tail(bits, from)
    ensures !HasGap(Datas(D, d))
    ensures Ascending(Datas(D, d))
  {
    hide WfInode, AllSectors, DataSectors, Total, TakeFree;
    var n, data := Num(d), Datas(D, d);
    InodeSize(D, d, n);
    TakeTail(bits, from, k);
    forall i | 0 <= i < n
      ensures data[i] == from + Total(i + 1) - 1
    {
      PlaceOf(D, d, n, i);
    }
    forall i, j | 0 <= i < j < n
      ensures data[i] < data[j]
    {
      TotalGrows(i + 1, j + 1);
    }
    forall i | 0 < i < n
      ensures data[i - 1] <= data[i] <= data[i - 1] + MAX_GAP
    {
      NextPlace(i);
    }
  }

  /** Free sectors in one piece: a new file's data sectors ascend with gaps of at
      most three, so it is not counted. */
  lemma FreshInOnePiece(s: State, op: Op, t: State, from: nat)
    requires Good(s) && op.Make? && Step(s, op, t) && Tail(s.bits, from)
    ensures !HasGap(Datas(t.disk, Ino(t.disk, op.h))) && Ascending(Datas(t.disk, Ino(t.disk, op.h)))
  {
    hide Good, Ino, WfInode, AllSectors, DataSectors, TakeFree, After, Total, Content, Blank, Encode, MapFine, Frame, Mapped, HasGap;
    BlankMapped(s.disk, s.bits, op.isDir);
    var d := Ino(t.disk, op.h);
    NoGapFromTail(t.disk, t.bits, d, s.bits, from, ExtraTotal(0, Num(d)));
  }

  /** Nor is it when it has been written any number of times since, if nothing
      else has taken sectors. */
  lemma WrittenInOnePiece(s: State, h: nat, bits: seq<bool>, from: nat, j: nat)
    requires Good(s) && h in s.heads && TookFirst(s, h, bits, j) && Tail(bits, from)
    ensures !HasGap(Datas(s.disk, Ino(s.disk, h)))
  {
    hide Ino, WfInode, AllSectors, DataSectors, Total, After, Good, HasGap, Mapped;
    var d := Ino(s.disk, h);
    HeadMapped(s, h);
    TakeTail(bits, from, j);
    assert |Own(s.disk, h)| > 0 && !bits[from];
    assert FirstFree(bits, 0) == from;
    assert All(s.disk, d) == Own(s.disk, h)[1..] == TakeFree(bits[from := true], j - 1);
    NoGapFromTail(s.disk, s.bits, d, bits[from := true], from + 1, j - 1);
  }
}
