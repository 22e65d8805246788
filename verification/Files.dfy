/** All files of a device at once: who owns which sector, and what one step on
    one file does to every other file. */
module Files {
  import opened Sequences
  import opened Sectors
  import opened FirstFit
  import opened Layout
  import opened Growth
  import opened Staying
  import opened Inodes
  import opened Contents
  import opened InodeGrowth
  import opened Writes
  import opened Reserving
  import opened Freeing
  import opened Bitmaps

  // The inode stored in sector H, its bytes, and its sectors: the header and then the tree.
  ghost function Ino(D: Disk, h: nat): InodeDisk {
    if h < |D| then Decode(D[h]) else Blank(false)
  }

  ghost function Bytes(D: Disk, h: nat): seq<Byte> {
    Content(D, Ino(D, h))
  }

  ghost function Own(D: Disk, h: nat): seq<nat> {
    [h] + All(D, Ino(D, h))
  }

  ghost predicate Apart(s: seq<nat>, t: seq<nat>) {
    forall x :: x in s ==> x !in t
  }

  /** Sector H holds the header of a mapped file, all of whose sectors are taken. */
  ghost predicate Fine(D: Disk, B: seq<bool>, h: nat) {
    && 0 < h < |B| <= |D|
    && Encodable(Ino(D, h)) && D[h] == Encode(Ino(D, h))
    && Mapped(D, B, Ino(D, h))
    && NoDup(Own(D, h)) && AllAre(B, Own(D, h), true)
  }

  /** The free map's file, with in-memory inode M, stores the free map. */
  ghost predicate MapFine(D: Disk, B: seq<bool>, m: InodeDisk) {
    && |B| + 1 == |D| && 0 < |B| && B[0]
    && Mapped(D, B, m) && m.length == ByteCnt(|B|) && Stores(Content(D, m), B)
  }

  /** The whole device: every file in HEADS is fine, and no two of them, nor one
      of them and the free map's file, have a sector in common. */
  ghost predicate Consistent(D: Disk, B: seq<bool>, m: InodeDisk, heads: set<nat>) {
    && MapFine(D, B, m)
    && (forall h :: h in heads ==> Fine(D, B, h) && Apart(Own(D, h), All(D, m)))
    && (forall h, k :: h in heads && k in heads && h != k ==> Apart(Own(D, h), Own(D, k)))
  }

  /** Every taken sector is somebody's, apart from those in LOOSE, which were
      allocated for a header that is not there yet. */
  ghost predicate NoLeak(D: Disk, B: seq<bool>, m: InodeDisk, heads: set<nat>, loose: set<nat>) {
    forall s :: 0 <= s < |B| && B[s] ==> s == 0 || s in loose || s in All(D, m) || exists h :: h in heads && s in Own(D, h)
  }

  // The files as byte sequences.
  ghost function AllFiles(D: Disk, heads: set<nat>): map<nat, seq<Byte>> {
    map h | h in heads :: Bytes(D, h)
  }

  // The sectors of owner H, the free map's file being owner 0.
  ghost function Holdings(D: Disk, m: InodeDisk, h: nat): seq<nat> {
    if h == 0 then [0] + All(D, m) else Own(D, h)
  }

  /** One owner and one position: a sector occurs once among all the sectors of all
      files, is marked, and is sector 0 only as the header of the free map's file. */
  lemma OneOwner(D: Disk, B: seq<bool>, m: InodeDisk, heads: set<nat>, h: nat, i: nat, k: nat, j: nat)
    requires Consistent(D, B, m, heads) && h in heads + {0} && k in heads + {0}
    requires i < |Holdings(D, m, h)| && j < |Holdings(D, m, k)|
    ensures Holdings(D, m, h)[i] == Holdings(D, m, k)[j] ==> h == k && i == j
    ensures Holdings(D, m, h)[i] < |B| && B[Holdings(D, m, h)[i]]
    ensures Holdings(D, m, h)[i] == 0 ==> h == 0 && i == 0
  {
    hide Mapped, AllSectors, WfInode, Encode, Decode, Stores, Content;
    MapHoldings(D, B, m);
    if h != 0 {
      FileHoldings(D, B, h);
    }
    if k != 0 {
      FileHoldings(D, B, k);
    }
    assert Holdings(D, m, h)[i] in Holdings(D, m, h);
    assert Holdings(D, m, k)[j] in Holdings(D, m, k);
  }

  lemma MappedSectors(D: Disk, B: seq<bool>, d: InodeDisk)
    requires Mapped(D, B, d)
    ensures NoDup(All(D, d)) && AllAre(B, All(D, d), true)
    ensures forall x :: x in All(D, d) ==> 0 < x < |D|
  {
    hide WfInode, AllSectors, DataSectors;
    InodeRange(D, d, Num(d));
  }

  lemma MapHoldings(D: Disk, B: seq<bool>, m: InodeDisk)
    requires MapFine(D, B, m)
    ensures NoDup([0] + All(D, m)) && AllAre(B, [0] + All(D, m), true)
    ensures forall i :: 0 < i < |[0] + All(D, m)| ==> 0 < ([0] + All(D, m))[i]
  {
    hide All, Content, Stores, Mapped;
    MappedSectors(D, B, m);
    NoDupJoin([0], All(D, m));
    assert forall i :: 0 < i < |[0] + All(D, m)| ==> ([0] + All(D, m))[i] in All(D, m);
  }

  lemma FileHoldings(D: Disk, B: seq<bool>, h: nat)
    requires Fine(D, B, h)
    ensures NoDup(Own(D, h)) && AllAre(B, Own(D, h), true)
    ensures forall x :: x in Own(D, h) ==> 0 < x < |D|
  {
    hide All, Content, Mapped, Ino;
    MappedSectors(D, B, Ino(D, h));
  }

  // ----- one file among others -----

  // A file none of whose sectors is rewritten or released.
  lemma Bystander(D0: Disk, B0: seq<bool>, D1: Disk, B1: seq<bool>, k: nat)
    requires Fine(D0, B0, k) && SameOn(D0, D1, Own(D0, k)) && AllAre(B1, Own(D0, k), true) && |B1| == |B0|
    ensures Fine(D1, B1, k) && Own(D1, k) == Own(D0, k) && Bytes(D1, k) == Bytes(D0, k) && Ino(D1, k) == Ino(D0, k)
  {
    hide Mapped, AllSectors, WfInode, Encode, Decode, Content;
    var d := Ino(D0, k);
    assert k in Own(D0, k);
    Untouched(D0, D1, B0, B1, d) by {
      assert forall x :: x in All(D0, d) ==> x in Own(D0, k);
    }
  }

  // What the free map's file looks like after a step: the same sectors, and still the free map.
  ghost predicate MapKept(D0: Disk, B0: seq<bool>, D1: Disk, B1: seq<bool>, m: InodeDisk) {
    MapFine(D1, B1, m) && |B1| == |B0| && Elems(All(D1, m)) == Elems(All(D0, m))
  }

  // All files but H are bystanders.
  lemma Kept(D0: Disk, B0: seq<bool>, D1: Disk, B1: seq<bool>, m: InodeDisk, heads: set<nat>, h: nat)
    requires Consistent(D0, B0, m, heads) && MapKept(D0, B0, D1, B1, m)
    requires forall k :: k in heads && k != h ==> SameOn(D0, D1, Own(D0, k)) && AllAre(B1, Own(D0, k), true)
    ensures Consistent(D1, B1, m, heads - {h})
    ensures forall k :: k in heads && k != h ==> Own(D1, k) == Own(D0, k) && Bytes(D1, k) == Bytes(D0, k)
  {
    hide MapFine, Fine, All, Encode, Decode, Content, AllAre, Ino, Bytes, SameOn, Own;
    forall k | k in heads && k != h
      ensures Fine(D1, B1, k) && Own(D1, k) == Own(D0, k) && Bytes(D1, k) == Bytes(D0, k)
    {
      Bystander(D0, B0, D1, B1, k);
    }
    forall k | k in heads && k != h
      ensures Apart(Own(D1, k), All(D1, m))
    {
      forall x | x in Own(D1, k)
        ensures x !in All(D1, m)
      {
        assert x !in All(D0, m);
        assert x !in Elems(All(D0, m));
      }
    }
  }

  // One more file.
  lemma Joined(D: Disk, B: seq<bool>, m: InodeDisk, heads: set<nat>, h: nat)
    requires Consistent(D, B, m, heads) && Fine(D, B, h) && Apart(Own(D, h), All(D, m))
    requires forall k :: k in heads ==> Apart(Own(D, h), Own(D, k))
    ensures Consistent(D, B, m, heads + {h})
  {
    hide MapFine, Fine, All, Own;
  }

  // ----- a file that grows or is written -----

  // The step changes the file with header H and tree T0; its new sectors come from the free list.
  lemma OthersKept(D0: Disk, B0: seq<bool>, D1: Disk, k: nat, m: InodeDisk, heads: set<nat>, h: nat, T0: seq<nat>)
    requires Consistent(D0, B0, m, heads)
    requires Frame(D0, D1, B0, Elems(All(D0, m)) + Elems(T0) + {h})
    requires forall g :: g in heads && g != h ==> h !in Own(D0, g) && Apart(T0, Own(D0, g))
    ensures forall g :: g in heads && g != h ==> SameOn(D0, D1, Own(D0, g)) && AllAre(After(B0, k), Own(D0, g), true)
    ensures forall g, x :: g in heads && x in TakeFree(B0, k) ==> x !in Own(D0, g)
  {
    hide MapFine, All, Own, Ino, Mapped, TakeFree, After;
    TakeFacts(B0, k);
  }

  // What the code needs of the file H, with inode D0, that is about to grow: nobody else has its sectors.
  ghost predicate Separate(D: Disk, B: seq<bool>, m: InodeDisk, heads: set<nat>, h: nat, d: InodeDisk) {
    && 0 < h < |B| && B[h]
    && Mapped(D, B, d) && NoDup([h] + All(D, d)) && Apart([h] + All(D, d), All(D, m))
    && forall g :: g in heads && g != h ==> Apart([h] + All(D, d), Own(D, g))
  }

  // It has grown: K sectors from the free list, and a header that says so.
  ghost predicate Larger(D0: Disk, B0: seq<bool>, m: InodeDisk, h: nat, d0: InodeDisk, k: nat, D1: Disk, B1: seq<bool>,
                         d1: InodeDisk) {
    && B1 == After(B0, k) && Mapped(D1, B1, d1) && All(D1, d1) == All(D0, d0) + TakeFree(B0, k)
    && Frame(D0, D1, B0, Elems(All(D0, m)) + Elems(All(D0, d0)) + {h})
    && h < |D1| && D1[h] == Encode(d1)
  }

  // The file itself, after growing.
  lemma LargerFine(D0: Disk, B0: seq<bool>, m: InodeDisk, heads: set<nat>, h: nat, d0: InodeDisk, k: nat, D1: Disk,
                   B1: seq<bool>, d1: InodeDisk)
    requires Separate(D0, B0, m, heads, h, d0) && |B0| <= |D0| && (forall x :: x in All(D0, m) ==> x < |B0| && B0[x])
    requires Mapped(D1, B1, d1) && Larger(D0, B0, m, h, d0, k, D1, B1, d1)
    ensures Fine(D1, B1, h) && Ino(D1, h) == d1 && Own(D1, h) == [h] + All(D0, d0) + TakeFree(B0, k)
    ensures Apart(Own(D1, h), All(D0, m))
  {
    hide Mapped, All, Encode, Decode, TakeFree, After;
    MappedEncodable(D1, B1, d1);
    HeaderRoundTrip(d1);
    MappedSectors(D0, B0, d0);
    TakeFacts(B0, k);
    assert AllAre(B1, [h] + All(D0, d0), true);
    NoDupJoin([h] + All(D0, d0), TakeFree(B0, k));
    assert [h] + (All(D0, d0) + TakeFree(B0, k)) == ([h] + All(D0, d0)) + TakeFree(B0, k);
  }

  /** Growing or creating one file keeps the device consistent, gives every other
      file the same sectors and bytes, and loses no sector. */
  lemma LargerKeeps(D0: Disk, B0: seq<bool>, m: InodeDisk, heads: set<nat>, h: nat, d0: InodeDisk, k: nat, D1: Disk,
                    B1: seq<bool>, d1: InodeDisk, loose: set<nat>)
    requires Consistent(D0, B0, m, heads) && Separate(D0, B0, m, heads, h, d0) && MapKept(D0, B0, D1, B1, m)
    requires Mapped(D1, B1, d1) && Larger(D0, B0, m, h, d0, k, D1, B1, d1)
    requires h !in heads ==> All(D0, d0) == []
    requires h in heads ==> d0 == Ino(D0, h)
    ensures Consistent(D1, B1, m, heads + {h}) && Ino(D1, h) == d1
    ensures AllFiles(D1, heads + {h}) == AllFiles(D0, heads)[h := Content(D1, d1)]
    ensures Own(D1, h) == [h] + All(D0, d0) + TakeFree(B0, k)
    ensures forall g :: g in heads && g != h ==> Own(D1, g) == Own(D0, g)
    ensures NoLeak(D0, B0, m, heads, loose) ==> NoLeak(D1, B1, m, heads + {h}, loose - {h})
  {
    hide MapFine, Mapped, All, Encode, Decode, TakeFree, After, Content, Ino, Own, Fine, Frame;
    MapRange(D0, B0, m);
    LargerFine(D0, B0, m, heads, h, d0, k, D1, B1, d1);
    forall g | g in heads && g != h
      ensures h !in Own(D0, g) && Apart(All(D0, d0), Own(D0, g))
    {
      assert h in [h] + All(D0, d0);
      assert forall x :: x in All(D0, d0) ==> x in [h] + All(D0, d0);
    }
    OthersKept(D0, B0, D1, k, m, heads, h, All(D0, d0));
    Kept(D0, B0, D1, B1, m, heads, h);
    forall x | x in Own(D1, h)
      ensures x !in All(D1, m)
    {
      assert x !in Elems(All(D0, m));
    }
    forall g | g in heads - {h}
      ensures Apart(Own(D1, h), Own(D1, g))
    {}
    Joined(D1, B1, m, heads - {h}, h);
    assert heads - {h} + {h} == heads + {h};
    if NoLeak(D0, B0, m, heads, loose) {
      LargerLeaks(D0, B0, m, heads, h, d0, k, D1, B1, loose);
    }
  }

  lemma MapRange(D: Disk, B: seq<bool>, m: InodeDisk)
    requires MapFine(D, B, m)
    ensures |B| + 1 == |D| && B[0]
    ensures forall x :: x in All(D, m) ==> 0 < x < |B| && B[x]
  {
    hide Mapped, All, Stores, Content;
    MappedSectors(D, B, m);
  }

  lemma LargerLeaks(D0: Disk, B0: seq<bool>, m: InodeDisk, heads: set<nat>, h: nat, d0: InodeDisk, k: nat, D1: Disk,
                    B1: seq<bool>, loose: set<nat>)
    requires NoLeak(D0, B0, m, heads, loose) && B1 == After(B0, k)
    requires Elems(All(D1, m)) == Elems(All(D0, m)) && Own(D1, h) == [h] + All(D0, d0) + TakeFree(B0, k)
    requires forall g :: g in heads && g != h ==> Own(D1, g) == Own(D0, g)
    requires h in heads ==> d0 == Ino(D0, h)
    ensures NoLeak(D1, B1, m, heads + {h}, loose - {h})
  {
    hide All, TakeFree, After, Ino;
    TakeFacts(B0, k);
    forall s | 0 <= s < |B1| && B1[s]
      ensures s == 0 || s in loose - {h} || s in All(D1, m) || exists g :: g in heads + {h} && s in Own(D1, g)
    {
      if s == h || s in TakeFree(B0, k) {
        assert h in heads + {h} && s in Own(D1, h);
      } else if s in All(D0, m) {
        assert s in Elems(All(D0, m));
        assert s in Elems(All(D1, m));
      } else if s != 0 && s !in loose {
        var g :| g in heads && s in Own(D0, g);
        assert s in Own(D1, g);
      }
    }
  }

  // ----- a file that is removed -----

  /** Removal keeps the device consistent and every other file as it is; exactly
      the removed file's sectors are free again. */
  lemma RemovalKeeps(D0: Disk, B0: seq<bool>, m: InodeDisk, heads: set<nat>, h: nat, D1: Disk, B1: seq<bool>, loose: set<nat>)
    requires Consistent(D0, B0, m, heads) && h in heads && MapKept(D0, B0, D1, B1, m)
    requires Freed(D0, B0, Own(D0, h), D1, B1, Elems(All(D0, m)))
    ensures Consistent(D1, B1, m, heads - {h})
    ensures AllFiles(D1, heads - {h}) == AllFiles(D0, heads) - {h}
    ensures forall g :: g in heads && g != h ==> Own(D1, g) == Own(D0, g)
    ensures NoLeak(D0, B0, m, heads, loose) ==> NoLeak(D1, B1, m, heads - {h}, loose)
  {
    hide MapFine, Mapped, All, Encode, Decode, Content, Ino, Own;
    forall g | g in heads && g != h
      ensures SameOn(D0, D1, Own(D0, g)) && AllAre(B1, Own(D0, g), true)
    {
      FileHoldings(D0, B0, g);
      assert Apart(Own(D0, g), Own(D0, h));
    }
    Kept(D0, B0, D1, B1, m, heads, h) by { hide Fine, Freed; }
    if NoLeak(D0, B0, m, heads, loose) {
      forall s | 0 <= s < |B1| && B1[s]
        ensures s == 0 || s in loose || s in All(D1, m) || exists g :: g in heads - {h} && s in Own(D1, g)
      {
        if s in All(D0, m) {
          assert s in Elems(All(D0, m));
          assert s in Elems(All(D1, m));
        } else if s != 0 && s !in loose {
          var g :| g in heads && s in Own(D0, g);
          assert g != h && s in Own(D1, g);
        }
      }
    }
  }

  // ----- a file whose growth is refused -----

  // Index blocks are sectors of the file.
  lemma WithinFile(D0: Disk, d0: InodeDisk, D1: Disk, B0: seq<bool>, other: set<nat>)
    requires Frame(D0, D1, B0, other + Elems(IndexSectors(D0, d0, Num(d0))) + {0})
    ensures Frame(D0, D1, B0, other + Elems(All(D0, d0)) + {0})
  {
    hide AllSectors, DataSectors, IndexSectors;
    InodeParts(D0, d0, Num(d0));
  }

  /** Every file but the one concerned is as it was. */
  lemma RefusalKeeps(D0: Disk, B0: seq<bool>, m: InodeDisk, heads: set<nat>, h: nat, d0: InodeDisk, len: nat, D1: Disk, B1: seq<bool>)
    requires Consistent(D0, B0, m, heads) && MapKept(D0, B0, D1, B1, m)
    requires if h in heads then d0 == Ino(D0, h) else All(D0, d0) == []
    requires Refused(D0, B0, d0, len, D1, B1, Elems(All(D0, m)))
    ensures Consistent(D1, B1, m, heads - {h})
    ensures AllFiles(D1, heads - {h}) == AllFiles(D0, heads) - {h}
    ensures forall g :: g in heads && g != h ==> Own(D1, g) == Own(D0, g)
    ensures forall s :: 0 <= s < |B0| && B0[s] ==> B1[s]
  {
    hide IndexSectors, Num, Stays, MapFine, Mapped, All, Encode, Decode, Content, Ino, Own, Refused, After;
    var k := RefusedFrame(D0, B0, d0, len, D1, B1, Elems(All(D0, m)));
    WithinFile(D0, d0, D1, B0, Elems(All(D0, m)));
    TakeMarks(B0, k);
    forall g | g in heads && g != h
      ensures SameOn(D0, D1, Own(D0, g)) && AllAre(B1, Own(D0, g), true)
    {
      FileHoldings(D0, B0, g);
      OwnTree(D0, h);
      assert h in heads ==> Apart(Own(D0, g), Own(D0, h));
    }
    Kept(D0, B0, D1, B1, m, heads, h) by { hide Fine, Frame; }
  }

  lemma OwnTree(D: Disk, h: nat)
    ensures forall x :: x in All(D, Ino(D, h)) ==> x in Own(D, h)
    ensures h in Own(D, h)
  {
    hide All, Ino;
  }
}
