/** The file system as its users see it: a finite map from names to byte
    sequences, kept in the root directory (filesys.c). */
module Volumes {
  import opened Sectors
  import opened FirstFit
  import opened Layout
  import opened Inodes
  import opened Positions
  import opened Contents
  import opened Writes
  import opened Bitmaps
  import opened Reserving
  import opened Files
  import opened Runs
  import opened Accounting
  import opened FileSystems
  import opened Operations
  import opened Records
  import opened Directories
  import opened Paths

  const MAX_FILES_IN_DIRECTORY := 1000

  ghost function RootTable(s: State): map<Name, Word> {
    TableOf(s, ROOT_DIR_SECTOR)
  }

  /** The invariant: the root directory is in order, its first entry is itself, its
      names and the other files belong together one to one, and those are regular files. */
  ghost predicate Volume(s: State) {
    && Good(s) && s.loose == {}
    && IsDirectory(s, ROOT_DIR_SECTOR) && EntriesOf(s, ROOT_DIR_SECTOR)[0].sector == ROOT_DIR_SECTOR
    && (forall n :: n in RootTable(s) ==> RootTable(s)[n] in s.heads && RootTable(s)[n] != ROOT_DIR_SECTOR)
    && (forall h :: h in s.heads ==> (Ino(s.disk, h).isDir <==> h == ROOT_DIR_SECTOR))
    && (forall n, m :: n in RootTable(s) && m in RootTable(s) && RootTable(s)[n] == RootTable(s)[m] ==> n == m)
    && (forall h :: h in s.heads && h != ROOT_DIR_SECTOR ==> exists n :: n in RootTable(s) && RootTable(s)[n] == h)
  }

  /** What the volume holds. */
  ghost function Named(s: State): map<Name, seq<Byte>> {
    map n | n in RootTable(s) :: Bytes(s.disk, RootTable(s)[n])
  }

  // ----- what changes of a volume -----

  lemma VolumeSame(s: State, t: State)
    requires Volume(s) && Good(t) && t.heads == s.heads && t.loose == {}
    requires KindsSame(s, t) && forall h :: h in s.heads ==> Bytes(t.disk, h) == Bytes(s.disk, h)
    ensures Volume(t) && Named(t) == Named(s)
  {
    hide Good, Bytes, TableOk, Table, Entries, Ino;
    assert RootTable(t) == RootTable(s);
  }

  lemma VolumeAdded(s: State, t: State, n: Name, h: Word)
    requires Volume(s) && Good(t) && t.heads == s.heads + {h as nat} && h !in s.heads && t.loose == {}
    requires IsDirectory(t, ROOT_DIR_SECTOR) && EntriesOf(t, ROOT_DIR_SECTOR)[0] == EntriesOf(s, ROOT_DIR_SECTOR)[0]
    requires n !in RootTable(s) && RootTable(t) == RootTable(s)[n := h]
    requires KindsSame(s, t) && !Ino(t.disk, h).isDir
    requires forall g :: g in s.heads && g != ROOT_DIR_SECTOR ==> Bytes(t.disk, g) == Bytes(s.disk, g)
    ensures Volume(t) && Named(t) == Named(s)[n := Bytes(t.disk, h)]
  {
    hide Good, Bytes, TableOk, Table, Entries, TableOf, Ino;
    assert h != ROOT_DIR_SECTOR;
    forall g | g in t.heads && g != ROOT_DIR_SECTOR
      ensures exists m :: m in RootTable(t) && RootTable(t)[m] == g
    {
      if g == h {
        assert RootTable(t)[n] == g;
      } else {
        var m :| m in RootTable(s) && RootTable(s)[m] == g;
        assert RootTable(t)[m] == g;
      }
    }
  }

  lemma VolumeRemoved(s: State, t: State, n: Name)
    requires Volume(s) && Good(t) && n in RootTable(s) && t.loose == {}
    requires t.heads == s.heads - {RootTable(s)[n] as nat}
    requires IsDirectory(t, ROOT_DIR_SECTOR) && EntriesOf(t, ROOT_DIR_SECTOR)[0] == EntriesOf(s, ROOT_DIR_SECTOR)[0]
    requires RootTable(t) == RootTable(s) - {n}
    requires KindsSame(s, t)
    requires forall g :: g in t.heads && g != ROOT_DIR_SECTOR ==> Bytes(t.disk, g) == Bytes(s.disk, g)
    ensures Volume(t) && Named(t) == Named(s) - {n}
  {
    hide Good, Bytes, TableOk, Table, Entries, TableOf, Ino;
    forall g | g in t.heads && g != ROOT_DIR_SECTOR
      ensures exists m :: m in RootTable(t) && RootTable(t)[m] == g
    {
      var m :| m in RootTable(s) && RootTable(s)[m] == g;
      assert m in RootTable(t) && RootTable(t)[m] == g;
    }
  }

  lemma VolumeWritten(s: State, t: State, n: Name)
    requires Volume(s) && Good(t) && n in RootTable(s) && t.heads == s.heads && t.loose == {}
    requires KindsSame(s, t)
    requires forall g :: g in s.heads && g != RootTable(s)[n] ==> Bytes(t.disk, g) == Bytes(s.disk, g)
    ensures Volume(t) && Named(t) == Named(s)[n := Bytes(t.disk, RootTable(s)[n])]
  {
    hide Good, Bytes, TableOk, Table, Entries, Ino;
    assert RootTable(t) == RootTable(s);
  }

  // ----- creating a file -----

  // The name a path gives to a file in the root directory.
  function NameIn(path: Name): Name {
    FileNameWithin(path, 0);
    FileNameOf(path)
  }

  // The root directory has an entry not in use.
  ghost predicate FreeEntry(s: State) {
    FreeSlot(EntriesOf(s, ROOT_DIR_SECTOR)) < |EntriesOf(s, ROOT_DIR_SECTOR)|
  }

  // Sectors enough for the header and SIZE bytes.
  ghost predicate RoomForFile(s: State, size: nat) {
    0 < FreeCount(s.bits) && Fits(After(s.bits, 1), Blank(false), size)
  }

  // The steps of filesys_create up to dir_add: the header H is taken, and the file made or refused.
  ghost predicate Made(s: State, h: nat, size: nat, made: bool, u: State, v: State) {
    && Step(s, Take(h), u) && h !in s.heads + s.loose
    && Step(u, if made then Make(h, size, false) else Refuse(h, size, false), v)
  }

  // The volume has not changed yet; the new file, if it was made, has no name.
  lemma MadeApart(s: State, h: nat, size: nat, made: bool, u: State, v: State)
    requires Volume(s) && Good(u) && Made(s, h, size, made, u, v)
    ensures Good(v) && v.heads == (if made then s.heads + {h} else s.heads) && v.loose == if made then {} else {h}
    ensures made ==> Bytes(v.disk, h) == seq(size, _ => 0) && !Ino(v.disk, h).isDir
    ensures forall g :: g in s.heads ==> g != h && Bytes(v.disk, g) == Bytes(s.disk, g) && Ino(v.disk, g) == Ino(s.disk, g)
  {
    hide Good, Bytes, Ino, TableOk, Table, Entries, Step, RootTable, EntriesOf;
    StepMeans(s, Take(h), u);
    StepMeans(u, if made then Make(h, size, false) else Refuse(h, size, false), v);
  }

  // No room for the file: the header's sector is given back.
  lemma NotMade(s: State, h: nat, size: nat, u: State, v: State, t: State)
    requires Volume(s) && Good(u) && Made(s, h, size, false, u, v) && Step(v, Return(h), t)
    ensures Volume(t) && Named(t) == Named(s)
  {
    hide Volume, Named, Bytes, Ino, Made;
    MadeApart(s, h, size, false, u, v);
    StepMeans(v, Return(h), t);
    VolumeSame(s, t);
  }

  // No name for the file: its header's sector is given back, its other sectors are not.
  lemma NotNamed(s: State, h: nat, size: nat, u: State, v: State, t: State)
    requires Volume(s) && Good(u) && Made(s, h, size, true, u, v) && Step(v, Abandon(h), t)
    ensures Volume(t) && Named(t) == Named(s)
    ensures Tight(s) ==> (Tight(t) <==> size == 0)
  {
    hide Volume, Named, Bytes, Ino, Tight, Good, Step;
    MadeApart(s, h, size, true, u, v);
    StepMeans(v, Abandon(h), t);
    assert s.heads + {h} - {h} == s.heads;
    VolumeSame(s, t);
    if Tight(s) {
      TightThrough(s, h, size, u, v);
      AbandonLeaks(v, h, t);
    }
  }

  lemma TightThrough(s: State, h: nat, size: nat, u: State, v: State)
    requires Volume(s) && Good(u) && Made(s, h, size, true, u, v) && Tight(s)
    ensures Tight(v)
  {
    hide Tight, Good, Step, IsDirectory, RootTable;
    StepKeeps(s, Take(h), u);
    StepKeeps(u, Make(h, size, false), v);
  }

  // The name N has got the first entry that was free, or one more.
  ghost predicate EntryAdded(s: State, t: State, n: Name) {
    && n in RootTable(t)
    && EntriesOf(t, ROOT_DIR_SECTOR) == WithEntry(EntriesOf(s, ROOT_DIR_SECTOR), FreeSlot(EntriesOf(s, ROOT_DIR_SECTOR)),
                                                  NewEntry(n, RootTable(t)[n]))
  }

  // The file has got its name.
  lemma NowNamed(s: State, h: Word, size: nat, u: State, v: State, t: State, n: Name)
    requires Volume(s) && Good(u) && Made(s, h, size, true, u, v) && n !in RootTable(s)
    requires Good(t) && t.heads == v.heads && t.loose == v.loose && OthersSame(v, t, ROOT_DIR_SECTOR)
    requires IsDirectory(t, ROOT_DIR_SECTOR) && RootTable(t) == RootTable(s)[n := h]
    requires KindsSame(v, t) && EntryAdded(s, t, n)
    ensures Volume(t) && Named(t) == Named(s)[n := seq(size, _ => 0)]
  {
    hide Bytes, Ino, TableOk, Table, Entries, Step, Good, FreeSlot, NewEntry;
    MadeApart(s, h, size, true, u, v);
    FirstEntry(EntriesOf(s, ROOT_DIR_SECTOR));
    VolumeAdded(s, t, n, h);
  }

  lemma NameAdded(s: State, v: State, t: State, n: Name, h: Word)
    requires EntriesOf(v, ROOT_DIR_SECTOR) == EntriesOf(s, ROOT_DIR_SECTOR) && RootTable(t) == RootTable(v)[n := h]
    requires EntriesOf(t, ROOT_DIR_SECTOR)
          == WithEntry(EntriesOf(v, ROOT_DIR_SECTOR), FreeSlot(EntriesOf(v, ROOT_DIR_SECTOR)), NewEntry(n, h))
    ensures EntryAdded(s, t, n)
  {
    hide EntriesOf, RootTable;
  }

  // The directory write keeps everything accounted for.
  lemma TightNamed(v: State, t: State)
    requires Good(v) && Tight(v) && exists data, ofs :: Step(v, Op.Put(ROOT_DIR_SECTOR, ofs, data), t)
    ensures Tight(t)
  {
    hide Good, Tight, Step;
    var data, ofs :| Step(v, Op.Put(ROOT_DIR_SECTOR, ofs, data), t);
    StepKeeps(v, Op.Put(ROOT_DIR_SECTOR, ofs, data), t);
  }

  // A directory with an entry not in use has room for one more name.
  lemma RoomInEntry(s: State, v: State)
    requires Good(v) && ROOT_DIR_SECTOR in v.heads && EntriesOf(v, ROOT_DIR_SECTOR) == EntriesOf(s, ROOT_DIR_SECTOR)
    requires FreeEntry(s)
    ensures RoomFor(v, ROOT_DIR_SECTOR, FreeSlot(EntriesOf(v, ROOT_DIR_SECTOR)))
  {
    hide Good, Entries, Bytes, Fits;
    EntryFits(v, ROOT_DIR_SECTOR, FreeSlot(EntriesOf(v, ROOT_DIR_SECTOR)));
  }

  // The part of filesys_create after the header's sector H has been taken.
  method CreateAt(fs: FileSystem, inode: Inode, name: Name, h: Word, size: nat, ghost s: State, ghost u: State)
      returns (success: bool, ghost t: State)
    requires Shows(fs, u) && Good(u) && Volume(s) && Step(s, Take(h), u) && h !in s.heads + s.loose && size < LENGTH_LIMIT
    requires Opened(fs, u, inode) && inode.sector == ROOT_DIR_SECTOR
    modifies fs.Foot(), inode
    ensures Shows(fs, t) && Good(t)
    ensures success ==>
              && Fits(u.bits, Blank(false), size) && ValidName(name) && name !in RootTable(s)
              && Volume(t) && Named(t) == Named(s)[name := seq(size, _ => 0)] && EntryAdded(s, t, name)
              && (Tight(s) ==> Tight(t))
    ensures !success && !(Fits(u.bits, Blank(false), size) && ValidName(name) && name !in RootTable(s)) ==>
              Volume(t) && Named(t) == Named(s)
    ensures FreeEntry(s) && Fits(u.bits, Blank(false), size) && ValidName(name) && name !in RootTable(s) ==> success
    ensures Fits(u.bits, Blank(false), size) && (!ValidName(name) || name in RootTable(s)) && Tight(s) ==>
              (Tight(t) <==> size == 0)
  {
    hide Good, Ino, Content, Mapped, Packs, TableOk, Table, Entries, Step, Fits, After, FreeCount, Tight, Volume, Named, FreeEntry,
      FreeSlot, RoomFor, Bytes, WithEntry, KindsSame, EntryAdded;
    success := false;
    TakenHeader(s, h, u);
    var made;
    made, t := MakeFile(fs, h, size, false, u);
    ghost var v := t;
    MadeApart(s, h, size, made, u, v);
    RootAside(s, v);
    if made {
      success, t := Add(fs, inode, name, h, v);
      if FreeEntry(s) {
        RoomInEntry(s, v);
      }
    }
    if success {
      NameAdded(s, v, t, name, h);
      NowNamed(s, h, size, u, v, t, name);
      if Tight(s) {
        TightThrough(s, h, size, u, v);
        TightNamed(v, t);
      }
    } else {
      ghost var w := t;
      HeaderLeft(v, w, h);
      t := ReleaseHeader(fs, h, t);
      if !made {
        NotMade(s, h, size, u, v, t);
      } else if w == v {
        NotNamed(s, h, size, u, v, t);
      }
    }
  }

  lemma TakenHeader(s: State, h: nat, u: State)
    requires Volume(s) && Step(s, Take(h), u) && h !in s.heads
    ensures u.heads == s.heads && u.loose == {h} && ROOT_DIR_SECTOR in s.heads
    ensures Good(s) && u.bits == After(s.bits, 1) && Ino(u.disk, ROOT_DIR_SECTOR) == Ino(s.disk, ROOT_DIR_SECTOR)
  {
    hide Good, Bytes, Table, TableOk, Entries, Step, Ino, RootTable, After;
    StepMeans(s, Take(h), u);
    StepShape(s, Take(h), u);
  }

  lemma VolumeRoot(s: State)
    requires Volume(s)
    ensures Good(s) && ROOT_DIR_SECTOR in s.heads && IsDirectory(s, ROOT_DIR_SECTOR)
    ensures forall n :: n in Named(s) <==> n in RootTable(s)
  {
    hide Good, Bytes, Table, TableOk, Entries;
  }

  // The header's sector is still there to be released when the directory has not taken the name.
  lemma HeaderLeft(v: State, w: State, h: nat)
    requires h in v.heads + v.loose && h != ROOT_DIR_SECTOR
    requires w == v || exists len :: Step(v, Refuse(ROOT_DIR_SECTOR, len, false), w)
    ensures h in w.heads + w.loose
  {
    hide Step;
    if w != v {
      var len :| Step(v, Refuse(ROOT_DIR_SECTOR, len, false), w);
      StepShape(v, Refuse(ROOT_DIR_SECTOR, len, false), w);
    }
  }

  // The root directory is the same after the file has been made.
  lemma RootAside(s: State, v: State)
    requires Volume(s) && ROOT_DIR_SECTOR in v.heads
    requires forall g :: g in s.heads ==> Bytes(v.disk, g) == Bytes(s.disk, g)
    ensures IsDirectory(v, ROOT_DIR_SECTOR) && EntriesOf(v, ROOT_DIR_SECTOR) == EntriesOf(s, ROOT_DIR_SECTOR)
    ensures RootTable(v) == RootTable(s)
  {
    hide Good, Bytes, Table, TableOk, Entries;
  }

  /** filesys_create of a regular file.  It succeeds if there is room and the name
      is valid and new, and then exactly that file is added; as long as the root
      directory has a free entry, nothing changes otherwise for any file. */
  method CreateNamed(fs: FileSystem, path: Name, size: nat, ghost s: State) returns (success: bool, ghost t: State)
    requires Shows(fs, s) && Volume(s) && size < LENGTH_LIMIT
    modifies fs.Foot()
    ensures Shows(fs, t) && Good(t)
    ensures success ==>
              && NameIn(path) !in Named(s)
              && Volume(t) && Named(t) == Named(s)[NameIn(path) := seq(size, _ => 0)] && EntryAdded(s, t, NameIn(path))
              && (Tight(s) ==> Tight(t))
    ensures FreeEntry(s) ==>
              && (success <==> RoomForFile(s, size) && ValidName(NameIn(path)) && NameIn(path) !in Named(s))
              && (!success ==> Volume(t) && Named(t) == Named(s))
    ensures RoomForFile(s, size) && (!ValidName(NameIn(path)) || NameIn(path) in Named(s)) && Tight(s) ==>
              (Tight(t) <==> size == 0)
  {
    hide Good, Ino, Content, Mapped, Packs, Step, Fits, After, FreeCount, Tight, Volume, Named, FreeEntry, RootTable, EntriesOf,
      DirectoryOf;
    var directory, name := SplitPath(path);
    FileNameWithin(path, 0);
    success, t := false, s;
    VolumeRoot(s);
    var inode := OpenFile(fs, ROOT_DIR_SECTOR, s);
    var ok, h;
    ok, h, t := TakeHeader(fs, s);
    if ok {
      TakenHeader(s, h, t);
      success, t := CreateAt(fs, inode, name, h, size, s, t);
    }
  }

  // ----- removing a file -----

  /** filesys_remove of a file in the root directory: exactly that file goes, and
      all its sectors with it. */
  method DeleteNamed(fs: FileSystem, path: Name, ghost s: State) returns (success: bool, ghost t: State)
    requires Shows(fs, s) && Volume(s) && Components(DirectoryOf(path)) == []
    modifies fs.Foot()
    ensures Shows(fs, t) && Volume(t)
    ensures success <==> NameIn(path) in Named(s)
    ensures !success ==> t == s
    ensures success ==>
              && Named(t) == Named(s) - {NameIn(path)}
              && EntriesOf(t, ROOT_DIR_SECTOR) == Without(EntriesOf(s, ROOT_DIR_SECTOR), NameIn(path))
              && (Tight(s) ==> Tight(t))
              && FreeCount(t.bits) == FreeCount(s.bits) + 1 + Total(BytesToSectors(|Named(s)[NameIn(path)]|))
  {
    hide Good, Ino, Content, Mapped, Packs, Step, Fits, FreeCount, Tight, Volume, Named, RootTable, EntriesOf, DirectoryOf, Total,
      NoneInUse, KindsSame, Without;
    var directory, name := SplitPath(path);
    FileNameWithin(path, 0);
    VolumeRoot(s);
    FilesOfNames(s);
    TableOfRoot(s);
    var inode := OpenFile(fs, ROOT_DIR_SECTOR, s);
    success, t := RemoveNamed(fs, inode, name, s);
    if success {
      TableOfRoot(t);
      Deleted(s, t, name);
      NowDeleted(s, t, name);
    }
  }

  lemma TableOfRoot(s: State)
    ensures RootTable(s) == TableOf(s, ROOT_DIR_SECTOR)
  {}

  lemma FilesOfNames(s: State)
    requires Volume(s)
    ensures forall n :: n in RootTable(s) ==> RootTable(s)[n] in s.heads && RootTable(s)[n] != ROOT_DIR_SECTOR
    ensures forall n :: n in RootTable(s) ==> n in Named(s) && Named(s)[n] == Bytes(s.disk, RootTable(s)[n])
    ensures s.loose == {}
    ensures forall n :: n in RootTable(s) ==> Removable(s, RootTable(s)[n])
  {
    hide Good, Bytes, Table, TableOk, Entries, Ino;
  }

  lemma FirstStays(es: seq<Record>, n: Name)
    ensures |Without(es, n)| == |es| && (es != [] ==> Without(es, n)[0] == es[0])
  {}

  lemma NowDeleted(s: State, t: State, n: Name)
    requires Volume(s) && Good(t) && n in RootTable(s) && t.loose == s.loose
    requires t.heads == s.heads - {RootTable(s)[n] as nat}
    requires IsDirectory(t, ROOT_DIR_SECTOR) && EntriesOf(t, ROOT_DIR_SECTOR) == Without(EntriesOf(s, ROOT_DIR_SECTOR), n)
    requires RootTable(t) == RootTable(s) - {n} && KindsSame(s, t)
    requires forall g :: g in t.heads && g != ROOT_DIR_SECTOR ==> Bytes(t.disk, g) == Bytes(s.disk, g)
    ensures Volume(t) && Named(t) == Named(s) - {n}
  {
    hide Good, Bytes, Table, TableOk, Entries, RootTable, IsDirectory, EntriesOf, Named, KindsSame, Find;
    VolumeRoot(s);
    FirstStays(EntriesOf(s, ROOT_DIR_SECTOR), n);
    VolumeRemoved(s, t, n);
  }

  lemma Deleted(s: State, t: State, n: Name)
    requires Volume(s) && n in RootTable(s) && Good(t)
    requires TwoSteps(s, ROOT_DIR_SECTOR, RootTable(s)[n], t)
    ensures Tight(s) ==> Tight(t)
    ensures FreeCount(t.bits) == FreeCount(s.bits) + 1 + Total(BytesToSectors(|Bytes(s.disk, RootTable(s)[n])|))
  {
    hide Good, Step, Tight, Ino, FreeCount, Total, Bytes, RootTable, Named, Volume, BytesToSectors;
    VolumeRoot(s);
    FilesOfNames(s);
    var h := RootTable(s)[n];
    var u: State, k, data :| u.bits == s.bits && Step(s, Op.Put(ROOT_DIR_SECTOR, k, data), u) && Step(u, Remove(h), t);
    var put := Op.Put(ROOT_DIR_SECTOR, k, data);
    StepKeeps(s, put, u);
    StepMeans(s, put, u);
    StepKeeps(u, Remove(h), t);
    StepCost(u, Remove(h), t);
    LengthBound(u, h);
  }

  // ----- writing and reading a file by its name -----

  /** inode_write_at on a named file changes exactly that file. */
  lemma PutNamed(s: State, n: Name, ofs: nat, data: seq<Byte>, t: State)
    requires Volume(s) && n in RootTable(s) && Step(s, Op.Put(RootTable(s)[n], ofs, data), t)
    ensures Volume(t) && n in Named(s) && Named(t) == Named(s)[n := Splice(Named(s)[n], ofs, data)]
  {
    hide Good, Bytes, RootTable, Step, Volume, Named, Ino, Splice;
    VolumeRoot(s);
    FilesOfNames(s);
    StepMeans(s, Op.Put(RootTable(s)[n], ofs, data), t);
    VolumeWritten(s, t, n);
  }

  const DOT: Byte := 0x2E

  // "", "." and "..": from the root directory they all lead to itself.
  predicate Special(n: Name) {
    n == [] || n == [DOT] || n == [DOT, DOT]
  }

  /** filesys_open: the file a name is bound to, or the root directory for a path
      without a name. */
  method OpenNamed(fs: FileSystem, path: Name, ghost s: State) returns (inode: Inode?)
    requires Shows(fs, s) && Volume(s)
    modifies fs.cache`clock, fs.cache.cache, fs.cache.device
    ensures Shows(fs, s)
    ensures inode != null <==> path != [] && (Special(NameIn(path)) || NameIn(path) in Named(s))
    ensures inode != null ==>
              && fresh(inode) && Opened(fs, s, inode)
              && inode.sector == if Special(NameIn(path)) then ROOT_DIR_SECTOR else RootTable(s)[NameIn(path)]
  {
    hide Good, Ino, Content, Mapped, Packs, Volume, Named, RootTable, DirectoryOf, TableOk, Table, Entries, CStr;
    if |path| == 0 {
      return null;
    }
    var directory, name := SplitPath(path);
    FileNameWithin(path, 0);
    VolumeRoot(s);
    FilesOfNames(s);
    TableOfRoot(s);
    var dir := OpenFile(fs, ROOT_DIR_SECTOR, s);
    if |name| == 0 || name == [DOT] {
      return dir;
    }
    if name == [DOT, DOT] {
      ParentIsRoot(s);
      var more, e := ReadEntry(fs, dir, 0, 0, s);
      inode := OpenFile(fs, e.sector, s);
      return;
    }
    var found, e, ofs := Lookup(fs, dir, name, s);
    if !found {
      return null;
    }
    inode := OpenFile(fs, e.sector, s);
  }

  lemma ParentIsRoot(s: State)
    requires Volume(s)
    ensures |EntriesOf(s, ROOT_DIR_SECTOR)| > 0 && EntriesOf(s, ROOT_DIR_SECTOR)[0].sector == ROOT_DIR_SECTOR
  {
    hide Good, Bytes, Table, Entries;
  }

  // ----- formatting -----

  /** filesys_init(true): the free map's file, the root directory, and the free map
      read back.  The volume is empty and can be started from. */
  method FormatVolume(dev: array<Sector>) returns (ok: bool, fs: FileSystem, ghost s: State)
    requires 4 <= dev.Length < NO_SECTOR && BytesToSectors(ByteCnt(dev.Length - 1)) <= MAX_SECTORS
    modifies dev
    ensures fresh(fs) && fresh(fs.Foot() - {dev}) && fs.cache.device == dev
    ensures ok <==> Total(BytesToSectors(RECORD_SIZE * MAX_FILES_IN_DIRECTORY))
                    <= dev.Length - 3 - Total(BytesToSectors(ByteCnt(dev.Length - 1)))
    ensures ok ==> Shows(fs, s) && Volume(s) && Named(s) == map[] && Tight(s) && Bootable(s)
  {
    hide Good, Ino, Content, Mapped, Packs, TableOk, Table, Entries, Step, Tight, FreeCount, Total, Encode, Decode, Blank, Bytes, Num;
    fs, s := Format(dev);
    ghost var s0 := s;
    RootFits(s);
    ok, s := CreateDirectory(fs, ROOT_DIR_SECTOR, MAX_FILES_IN_DIRECTORY, s);
    if ok {
      RootMade(s0, s);
      DeviceSize(s);
      HeaderRoundTrip(s.inode);
      fs.FreeMapOpen(s.bits);
    }
  }

  lemma RootFits(s: State)
    ensures var size := RECORD_SIZE * MAX_FILES_IN_DIRECTORY;
            Fits(s.bits, Blank(true), size) <==> Total(BytesToSectors(size)) <= FreeCount(s.bits)
  {
    hide FreeCount, Total, Num, Fits, BytesToSectors, Blank;
    RootSize();
    BlankFits(s.bits, RECORD_SIZE * MAX_FILES_IN_DIRECTORY);
  }

  lemma RootSize()
    ensures BytesToSectors(RECORD_SIZE * MAX_FILES_IN_DIRECTORY) <= MAX_SECTORS
  {}

  // What a file needs that has nothing yet.
  lemma BlankFits(bits: seq<bool>, size: nat)
    requires 0 < size && BytesToSectors(size) <= MAX_SECTORS
    ensures Fits(bits, Blank(true), size) <==> Total(BytesToSectors(size)) <= FreeCount(bits)
  {
    hide FreeCount, Total, Num, Blank, BytesToSectors, Mapped, Content;
    BlankMapped([], bits, true);
    BlankLength();
    TotalClosed(0);
  }

  lemma BlankLength()
    ensures Blank(true).length == 0
  {}

  lemma RootMade(s0: State, s: State)
    requires Good(s0) && Tight(s0) && Bootable(s0) && s0.heads == {} && Good(s)
    requires s.heads == {ROOT_DIR_SECTOR} && s.loose == {}
    requires IsDirectory(s, ROOT_DIR_SECTOR) && RootTable(s) == map[] && EntriesOf(s, ROOT_DIR_SECTOR)[0].sector == ROOT_DIR_SECTOR
    requires Ino(s.disk, ROOT_DIR_SECTOR).isDir
    requires exists u, data :: Step(s0, Make(ROOT_DIR_SECTOR, RECORD_SIZE * MAX_FILES_IN_DIRECTORY, true), u)
                            && Step(u, Op.Put(ROOT_DIR_SECTOR, 0, data), s)
    ensures Volume(s) && Named(s) == map[] && Tight(s) && Bootable(s)
  {
    hide Good, Step, Tight, Bootable, TableOk, Table, Entries, Bytes, Ino;
    var size := RECORD_SIZE * MAX_FILES_IN_DIRECTORY;
    var u, data :| Step(s0, Make(ROOT_DIR_SECTOR, size, true), u) && Step(u, Op.Put(ROOT_DIR_SECTOR, 0, data), s);
    StepKeeps(s0, Make(ROOT_DIR_SECTOR, size, true), u);
    SectorZero(s0, Make(ROOT_DIR_SECTOR, size, true), u);
    StepKeeps(u, Op.Put(ROOT_DIR_SECTOR, 0, data), s);
    SectorZero(u, Op.Put(ROOT_DIR_SECTOR, 0, data), s);
  }
}
