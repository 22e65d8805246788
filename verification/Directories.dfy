/** Directories: tables of entries in a file, read and written entry by entry
    (directory.c).  Subdirectories are not part of this model. */
module Directories {
  import opened Sequences
  import opened Sectors
  import opened FirstFit
  import opened Layout
  import opened Growth
  import opened Inodes
  import opened Contents
  import opened Writes
  import opened Bitmaps
  import opened Reserving
  import opened Freeing
  import opened Files
  import opened Runs
  import opened FileSystems
  import opened Operations
  import opened Records

  // struct dir, with one opener
  class Dir {
    const inode: Inode
    var pos: nat

    // dir_open
    constructor (i: Inode)
      ensures inode == i && pos == RECORD_SIZE
    {
      inode, pos := i, RECORD_SIZE;
    }
  }

  // The entries in file H, and what they mean.
  ghost function EntriesOf(s: State, h: nat): seq<Record> {
    Entries(Bytes(s.disk, h))
  }

  ghost predicate IsDirectory(s: State, h: nat) {
    h in s.heads && |Bytes(s.disk, h)| % RECORD_SIZE == 0 && TableOk(EntriesOf(s, h))
  }

  ghost function TableOf(s: State, h: nat): map<Name, Word> {
    Table(EntriesOf(s, h))
  }

  // inode_read_at of one entry, and whether it was all there.
  method ReadEntry(fs: FileSystem, inode: Inode, ofs: nat, ghost k: nat, ghost s: State) returns (ok: bool, e: Record)
    requires Shows(fs, s) && Good(s) && Opened(fs, s, inode) && ofs == RECORD_SIZE * k
    modifies fs.cache`clock, fs.cache.cache, fs.cache.device
    ensures Shows(fs, s) && |e.name| == NAME_MAX + 1
    ensures ok <==> k < |EntriesOf(s, inode.sector)|
    ensures ok ==> e == EntriesOf(s, inode.sector)[k]
  {
    hide Good, Ino, Content, Mapped, Packs;
    var bytes := ReadFile(fs, inode, RECORD_SIZE, ofs, s);
    ok := |bytes| == RECORD_SIZE;
    e := if ok then DecodeRecord(bytes) else Record(0, Padded([], NAME_MAX + 1), false);
  }

  /** lookup: the binding of NAME, and where it is. */
  method Lookup(fs: FileSystem, inode: Inode, name: Name, ghost s: State) returns (found: bool, e: Record, ofs: nat)
    requires Shows(fs, s) && Good(s) && Opened(fs, s, inode) && IsDirectory(s, inode.sector)
    modifies fs.cache`clock, fs.cache.cache, fs.cache.device
    ensures Shows(fs, s)
    ensures found <==> name in TableOf(s, inode.sector)
    ensures found ==>
              && ofs % RECORD_SIZE == 0 && Binds(EntriesOf(s, inode.sector), ofs / RECORD_SIZE)
              && ofs / RECORD_SIZE == Find(EntriesOf(s, inode.sector), name, 0)
              && e == EntriesOf(s, inode.sector)[ofs / RECORD_SIZE] && CStr(e.name) == name
              && e.sector == TableOf(s, inode.sector)[name]
  {
    hide Good, Ino, Content, Mapped, Packs, TableOk, Table, Entries, CStr, Find;
    ghost var es, k := EntriesOf(s, inode.sector), 1;
    var more;
    FirstEntry(es);
    ofs := RECORD_SIZE;
    more, e := ReadEntry(fs, inode, ofs, k, s);
    while more
      invariant Shows(fs, s) && 0 < k <= |es| && ofs == RECORD_SIZE * k
      invariant more <==> k < |es|
      invariant more ==> e == es[k]
      invariant forall j: nat :: j < k ==> !(Binds(es, j) && NameAt(es, j) == name)
      decreases |es| - k
    {
      if e.inUse && CStr(e.name) == name {
        TableAt(es, k);
        return true, e, ofs;
      }
      ofs, k := ofs + RECORD_SIZE, k + 1;
      more, e := ReadEntry(fs, inode, ofs, k, s);
    }
    found := false;
    if name in Table(es) {
      var j := TableFrom(es, name);
    }
  }

  lemma FirstEntry(es: seq<Record>)
    requires TableOk(es)
    ensures |es| > 0 && es[0].inUse
  {}

  // ----- changing entries -----

  lemma LengthBound(s: State, h: nat)
    requires Good(s) && h in s.heads
    ensures |Bytes(s.disk, h)| == Ino(s.disk, h).length <= SECTOR_SIZE * MAX_SECTORS
    ensures AllFiles(s.disk, s.heads)[h] == Bytes(s.disk, h)
  {
    hide Good, Ino, WfInode, AllSectors, DataSectors, Content, ZeroFrom;
    OpenedSound(s, h);
    var d := Ino(s.disk, h);
    MappedFacts(s.disk, s.bits, d);
    InodeSize(s.disk, d, Num(d));
  }

  // What a step on file H leaves of the others.
  ghost predicate OthersSame(s: State, t: State, h: nat) {
    forall g :: g in s.heads && g != h ==> g in t.heads && Bytes(t.disk, g) == Bytes(s.disk, g)
  }

  // A file stays a directory or a regular file.
  ghost predicate KindsSame(s: State, t: State) {
    forall g :: g in s.heads && g in t.heads ==> Ino(t.disk, g).isDir == Ino(s.disk, g).isDir
  }

  // There is room for entry K, if need be after growing the directory.
  ghost predicate RoomFor(s: State, h: nat, k: nat) {
    Fits(s.bits, Ino(s.disk, h), RECORD_SIZE * k + RECORD_SIZE)
  }

  // inode_write_at of one entry.
  method WriteEntry(fs: FileSystem, inode: Inode, ofs: nat, e: Record, ghost k: nat, ghost s: State)
      returns (ok: bool, ghost t: State)
    requires Shows(fs, s) && Good(s) && Opened(fs, s, inode) && |Bytes(s.disk, inode.sector)| % RECORD_SIZE == 0
    requires ofs == RECORD_SIZE * k && k <= |EntriesOf(s, inode.sector)| && |e.name| == NAME_MAX + 1
    modifies fs.Foot(), inode
    ensures Shows(fs, t) && Good(t) && ok == RoomFor(s, inode.sector, k)
    ensures ok ==>
              && Step(s, Op.Put(inode.sector, ofs, EncodeRecord(e)), t) && Opened(fs, t, inode)
              && |Bytes(t.disk, inode.sector)| % RECORD_SIZE == 0
              && EntriesOf(t, inode.sector) == WithEntry(EntriesOf(s, inode.sector), k, e)
              && t.heads == s.heads && OthersSame(s, t, inode.sector) && KindsSame(s, t)
    ensures !ok ==> Step(s, Refuse(inode.sector, ofs + RECORD_SIZE, false), t)
  {
    hide Good, Ino, Content, Mapped, Packs, Step, Fits, Splice, Entries, EncodeRecord;
    ghost var h := inode.sector;
    LengthBound(s, h);
    var bytes := EncodeRecord(e);
    var written;
    written, t := WriteFile(fs, inode, bytes, ofs, s);
    ok := written == RECORD_SIZE;
    if ok {
      StepMeans(s, Op.Put(h, ofs, bytes), t);
      EntryWritten(Bytes(s.disk, h), k, e);
    }
  }

  // The slot search of dir_add: the first entry not in use, or the end of the file.
  method FindFree(fs: FileSystem, inode: Inode, ghost s: State) returns (ofs: nat, ghost k: nat)
    requires Shows(fs, s) && Good(s) && Opened(fs, s, inode)
    modifies fs.cache`clock, fs.cache.cache, fs.cache.device
    ensures Shows(fs, s) && ofs == RECORD_SIZE * k && k == FreeSlot(EntriesOf(s, inode.sector))
  {
    hide Good, Ino, Content, Mapped, Packs, Entries, FreeSlot;
    ghost var es := EntriesOf(s, inode.sector);
    ofs, k := 0, 0;
    var more, e := ReadEntry(fs, inode, ofs, k, s);
    while more && e.inUse
      invariant Shows(fs, s) && k <= |es| && ofs == RECORD_SIZE * k
      invariant more <==> k < |es|
      invariant more ==> e == es[k]
      invariant forall j :: 0 <= j < k ==> es[j].inUse
      decreases |es| - k
    {
      ofs, k := ofs + RECORD_SIZE, k + 1;
      more, e := ReadEntry(fs, inode, ofs, k, s);
    }
  }

  /** dir_add of a regular file: a valid new name is bound, in the first free entry
      or in one more, if there is room; otherwise nothing is bound. */
  method Add(fs: FileSystem, inode: Inode, name: Name, sector: Word, ghost s: State) returns (ok: bool, ghost t: State)
    requires Shows(fs, s) && Good(s) && Opened(fs, s, inode) && IsDirectory(s, inode.sector)
    modifies fs.Foot(), inode
    ensures Shows(fs, t) && Good(t)
    ensures !ValidName(name) || name in TableOf(s, inode.sector) ==> !ok && t == s
    ensures ok ==>
              && Opened(fs, t, inode) && IsDirectory(t, inode.sector)
              && TableOf(t, inode.sector) == TableOf(s, inode.sector)[name := sector]
              && EntriesOf(t, inode.sector)
                 == WithEntry(EntriesOf(s, inode.sector), FreeSlot(EntriesOf(s, inode.sector)), NewEntry(name, sector))
              && t.heads == s.heads && t.loose == s.loose && OthersSame(s, t, inode.sector) && KindsSame(s, t)
    ensures ok ==> exists data, ofs :: Step(s, Op.Put(inode.sector, ofs, data), t)
    ensures ok <==> ValidName(name) && name !in TableOf(s, inode.sector)
                    && RoomFor(s, inode.sector, FreeSlot(EntriesOf(s, inode.sector)))
    ensures !ok && ValidName(name) && name !in TableOf(s, inode.sector) ==>
              exists len :: Step(s, Refuse(inode.sector, len, false), t)
  {
    hide Good, Ino, Content, Mapped, Packs, TableOk, Table, Entries, Step, Fits, EncodeRecord, FreeSlot, WithEntry;
    ghost var h, es := inode.sector, EntriesOf(s, inode.sector);
    ok, t := false, s;
    FirstEntry(es);
    if |name| == 0 || |name| > NAME_MAX {
      return;
    }
    var found, e, ofs := Lookup(fs, inode, name, s);
    if found {
      return;
    }
    ghost var k;
    ofs, k := FindFree(fs, inode, s);
    e := NewEntry(name, sector);
    AddedBinding(es, k, name, sector);
    ok, t := WriteEntry(fs, inode, ofs, e, k, s);
    if ok {
      StepMeans(s, Op.Put(h, ofs, EncodeRecord(e)), t);
    }
  }

  // ----- removing -----

  ghost predicate NoneInUse(es: seq<Record>) {
    forall k :: 0 < k < |es| ==> !es[k].inUse
  }

  // dir_is_empty
  method IsEmpty(fs: FileSystem, inode: Inode, ghost s: State) returns (empty: bool)
    requires Shows(fs, s) && Good(s) && Opened(fs, s, inode)
    modifies fs.cache`clock, fs.cache.cache, fs.cache.device
    ensures Shows(fs, s) && empty == NoneInUse(EntriesOf(s, inode.sector))
  {
    hide Good, Ino, Content, Mapped, Packs, Entries;
    ghost var es, k := EntriesOf(s, inode.sector), 1;
    var ofs := RECORD_SIZE;
    var more, e := ReadEntry(fs, inode, ofs, k, s);
    while more
      invariant Shows(fs, s) && 0 < k && ofs == RECORD_SIZE * k
      invariant more <==> k < |es|
      invariant more ==> e == es[k]
      invariant forall j :: 0 < j < k && j < |es| ==> !es[j].inUse
      decreases |es| - k
    {
      if e.inUse {
        return false;
      }
      ofs, k := ofs + RECORD_SIZE, k + 1;
      more, e := ReadEntry(fs, inode, ofs, k, s);
    }
    empty := true;
  }

  // Removal is refused for a directory with entries.
  ghost predicate Removable(s: State, h: nat) {
    Ino(s.disk, h).isDir ==> NoneInUse(EntriesOf(s, h))
  }

  // The part of dir_remove that erases entry E at OFS.
  method Erase(fs: FileSystem, inode: Inode, ofs: nat, e: Record, ghost s: State) returns (ghost t: State)
    requires Shows(fs, s) && Good(s) && Opened(fs, s, inode) && IsDirectory(s, inode.sector)
    requires ofs % RECORD_SIZE == 0 && Binds(EntriesOf(s, inode.sector), ofs / RECORD_SIZE)
    requires e == EntriesOf(s, inode.sector)[ofs / RECORD_SIZE]
    modifies fs.Foot(), inode
    ensures Shows(fs, t) && Good(t) && Opened(fs, t, inode) && IsDirectory(t, inode.sector)
    ensures TableOf(t, inode.sector) == TableOf(s, inode.sector) - {CStr(e.name)}
    ensures EntriesOf(t, inode.sector) == WithEntry(EntriesOf(s, inode.sector), ofs / RECORD_SIZE, e.(inUse := false))
    ensures t.heads == s.heads && t.loose == s.loose && OthersSame(s, t, inode.sector) && KindsSame(s, t)
    ensures forall g :: g in s.heads && g != inode.sector ==> Ino(t.disk, g) == Ino(s.disk, g)
    ensures t.bits == s.bits && exists k, data :: Step(s, Op.Put(inode.sector, k, data), t)
  {
    hide Good, Ino, Content, Mapped, Packs, TableOk, Table, Entries, Step, Fits, EncodeRecord, CStr;
    ghost var h, es, k := inode.sector, EntriesOf(s, inode.sector), ofs / RECORD_SIZE;
    FirstEntry(es);
    RemovedBinding(es, k);
    EntryFits(s, h, k);
    var ok;
    ok, t := WriteEntry(fs, inode, ofs, e.(inUse := false), k, s);
    ghost var data := EncodeRecord(e.(inUse := false));
    StepMeans(s, Op.Put(h, ofs, data), t);
    PutInside(s, h, ofs, data, t);
  }

  // Overwriting takes no sectors.
  lemma PutInside(s: State, h: nat, ofs: nat, data: seq<Byte>, t: State)
    requires Good(s) && Step(s, Op.Put(h, ofs, data), t) && ofs + |data| <= |Bytes(s.disk, h)|
    ensures t.bits == s.bits
  {
    hide Good, MapKept, Ino, All, Mapped, Content, Splice, Frame, TakeFree, Encode;
    LengthBound(s, h);
    NoExtra(Num(Ino(s.disk, h)), s.bits);
  }

  // An entry of directory DIR erased, then file H removed.
  ghost predicate TwoSteps(s: State, dir: nat, h: nat, t: State) {
    exists u: State, k, data :: u.bits == s.bits && Step(s, Op.Put(dir, k, data), u) && Step(u, Remove(h), t)
  }

  // The entries without the binding of NAME.
  ghost function Without(es: seq<Record>, name: Name): seq<Record> {
    var k := Find(es, name, 0);
    if k < |es| then es[k := es[k].(inUse := false)] else es
  }

  /** dir_remove: exactly the binding of NAME goes, and with it the file it names. */
  method RemoveNamed(fs: FileSystem, inode: Inode, name: Name, ghost s: State) returns (ok: bool, ghost t: State)
    requires Shows(fs, s) && Good(s) && Opened(fs, s, inode) && IsDirectory(s, inode.sector)
    requires name in TableOf(s, inode.sector) ==>
               TableOf(s, inode.sector)[name] in s.heads && TableOf(s, inode.sector)[name] != inode.sector
    modifies fs.Foot(), inode
    ensures Shows(fs, t) && Good(t) && Opened(fs, t, inode)
    ensures ok <==> name in TableOf(s, inode.sector) && Removable(s, TableOf(s, inode.sector)[name])
    ensures !ok ==> t == s
    ensures ok ==> TwoSteps(s, inode.sector, TableOf(s, inode.sector)[name], t)
    ensures ok ==>
              && t.heads == s.heads - {TableOf(s, inode.sector)[name] as nat} && t.loose == s.loose
              && IsDirectory(t, inode.sector)
              && TableOf(t, inode.sector) == TableOf(s, inode.sector) - {name}
              && EntriesOf(t, inode.sector) == Without(EntriesOf(s, inode.sector), name)
              && KindsSame(s, t)
              && forall g :: g in t.heads && g != inode.sector ==> Bytes(t.disk, g) == Bytes(s.disk, g)
  {
    hide Good, Ino, Content, Mapped, Packs, TableOk, Table, Entries, Step, Fits, EncodeRecord, CStr;
    ghost var h, es := inode.sector, EntriesOf(s, inode.sector);
    FirstEntry(es);
    t := s;
    var found, e, ofs := Lookup(fs, inode, name, s);
    if !found {
      return false, s;
    }
    var target := OpenFile(fs, e.sector, s);
    if target.data.isDir {
      var empty := IsEmpty(fs, target, s);
      if !empty {
        return false, s;
      }
    }
    ghost var u := Erase(fs, inode, ofs, e, s);
    ok := true;
    t := RemoveFile(fs, target, u);
    StepMeans(u, Remove(e.sector), t);
  }

  lemma EntryFits(s: State, h: nat, k: nat)
    requires Good(s) && h in s.heads && k < |EntriesOf(s, h)|
    ensures RoomFor(s, h, k)
  {
    hide Good, Ino, Content, Entries;
    LengthBound(s, h);
  }

  // ----- listing -----

  // dir_readdir
  method ReadDir(fs: FileSystem, dir: Dir, ghost s: State) returns (found: bool, name: Name)
    requires Shows(fs, s) && Good(s) && Opened(fs, s, dir.inode) && dir as object !in fs.Foot() && dir.pos % RECORD_SIZE == 0
    modifies dir, fs.cache`clock, fs.cache.cache, fs.cache.device
    ensures Shows(fs, s) && dir.pos % RECORD_SIZE == 0 && dir.pos >= old(dir.pos)
    ensures var es, k0, k := EntriesOf(s, dir.inode.sector), old(dir.pos) / RECORD_SIZE, dir.pos / RECORD_SIZE;
            && (forall j :: k0 <= j < k - 1 && j < |es| ==> !es[j].inUse)
            && if found then k0 < k <= |es| && es[k - 1].inUse && name == CStr(es[k - 1].name)
               else k == Max(k0, |es|) && forall j :: k0 <= j < |es| ==> !es[j].inUse
  {
    hide Good, Ino, Content, Mapped, Packs, Entries, CStr;
    ghost var es, k := EntriesOf(s, dir.inode.sector), dir.pos / RECORD_SIZE;
    ghost var k0 := k;
    var more, e := ReadEntry(fs, dir.inode, dir.pos, k, s);
    while more
      invariant Shows(fs, s) && k0 <= k && (k <= |es| || k == k0) && dir.pos == RECORD_SIZE * k
      invariant more <==> k < |es|
      invariant more ==> e == es[k]
      invariant forall j :: k0 <= j < k && j < |es| ==> !es[j].inUse
      decreases |es| - k
    {
      dir.pos := dir.pos + RECORD_SIZE;
      if e.inUse {
        return true, CStr(e.name);
      }
      k := k + 1;
      more, e := ReadEntry(fs, dir.inode, dir.pos, k, s);
    }
    found, name := false, [];
  }

  /** The loop over dir_readdir that lists a directory meets every name in the
      table exactly once, in the order of the entries. */
  method ListNames(fs: FileSystem, inode: Inode, ghost s: State) returns (names: seq<Name>)
    requires Shows(fs, s) && Good(s) && Opened(fs, s, inode) && IsDirectory(s, inode.sector)
    modifies fs.cache`clock, fs.cache.cache, fs.cache.device
    ensures Shows(fs, s) && EntriesOf(s, inode.sector) != []
    ensures names == BoundNames(EntriesOf(s, inode.sector), 1) && NoDup(names)
    ensures forall n :: n in names <==> n in TableOf(s, inode.sector)
  {
    hide Good, Ino, Content, Mapped, Packs, Entries, CStr, TableOk, Table, NoDup, BoundNames, Find;
    ghost var es, k := EntriesOf(s, inode.sector), 1;
    FirstEntry(es);
    var dir := new Dir(inode);
    names := [];
    var found, name := ReadDir(fs, dir, s);
    while found
      invariant Shows(fs, s) && dir.pos % RECORD_SIZE == 0 && dir as object !in fs.Foot()
      invariant 0 < k <= dir.pos / RECORD_SIZE && k <= |es|
      invariant names + BoundNames(es, k) == BoundNames(es, 1)
      invariant found ==>
                  && k < dir.pos / RECORD_SIZE <= |es| && es[dir.pos / RECORD_SIZE - 1].inUse
                  && name == CStr(es[dir.pos / RECORD_SIZE - 1].name)
                  && forall i :: k <= i < dir.pos / RECORD_SIZE - 1 ==> !es[i].inUse
      invariant !found ==> forall i :: k <= i < |es| ==> !es[i].inUse
      decreases |es| - k
    {
      NextBound(es, k, dir.pos / RECORD_SIZE - 1);
      names, k := names + [name], dir.pos / RECORD_SIZE;
      found, name := ReadDir(fs, dir, s);
    }
    NoMoreBound(es, k);
    BoundOnce(es, 1);
    BoundInTable(es);
  }

  // The next entry in use, J, holds the next name bound.
  lemma NextBound(es: seq<Record>, k: nat, j: nat)
    requires 0 < k <= j < |es| && es[j].inUse && forall i :: k <= i < j ==> !es[i].inUse
    ensures BoundNames(es, k) == [NameAt(es, j)] + BoundNames(es, j + 1)
  {
    SkipFree(es, k, j);
  }

  lemma NoMoreBound(es: seq<Record>, k: nat)
    requires 0 < k <= |es| && forall i :: k <= i < |es| ==> !es[i].inUse
    ensures BoundNames(es, k) == []
  {
    SkipFree(es, k, |es|);
  }

  lemma BoundInTable(es: seq<Record>)
    requires TableOk(es)
    ensures forall n: Name :: Find(es, n, 1) < |es| <==> n in Table(es)
  {
    hide CStr;
    forall n: Name
      ensures Find(es, n, 1) < |es| <==> n in Table(es)
    {
      if Find(es, n, 1) < |es| {
        TableAt(es, Find(es, n, 1));
      }
      if n in Table(es) {
        var j := TableFrom(es, n);
      }
    }
  }

  // ----- creating -----

  /** dir_create in sector H, which the caller has allocated: an empty directory
      with room for COUNT entries, of which the first one names the directory. */
  method CreateDirectory(fs: FileSystem, h: Word, count: nat, ghost s: State) returns (ok: bool, ghost t: State)
    requires Shows(fs, s) && Good(s) && h in s.loose && h !in s.heads && 0 < count && RECORD_SIZE * count < LENGTH_LIMIT
    modifies fs.Foot()
    ensures Shows(fs, t) && Good(t) && ok == Fits(s.bits, Blank(true), RECORD_SIZE * count)
    ensures ok ==>
              && t.heads == s.heads + {h as nat} && t.loose == s.loose - {h as nat}
              && IsDirectory(t, h) && TableOf(t, h) == map[] && |EntriesOf(t, h)| == count && EntriesOf(t, h)[0].sector == h
              && KindsSame(s, t) && Ino(t.disk, h).isDir
              && forall g :: g in s.heads ==> Bytes(t.disk, g) == Bytes(s.disk, g)
    ensures ok ==> exists u, data :: Step(s, Make(h, RECORD_SIZE * count, true), u) && Step(u, Op.Put(h, 0, data), t)
  {
    hide Good, Ino, Content, Mapped, Packs, TableOk, Table, Entries, Step, Fits, EncodeRecord, CStr;
    ok, t := MakeFile(fs, h, RECORD_SIZE * count, true, s);
    if !ok {
      return;
    }
    ghost var u := t;
    StepMeans(s, Make(h, RECORD_SIZE * count, true), u);
    var inode := OpenFile(fs, h, u);
    FreshTable(count, h);
    var e := NewEntry([], h);
    ZeroEntries(count);
    EntryFits(u, h, 0);
    ok, t := WriteEntry(fs, inode, 0, e, 0, u);
    StepMeans(u, Op.Put(h, 0, EncodeRecord(e)), t);
  }

  lemma ZeroEntries(count: nat)
    ensures |Entries(seq(RECORD_SIZE * count, _ => 0))| == count
  {}
}
