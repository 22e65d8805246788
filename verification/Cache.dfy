/** The 64-entry write-back buffer cache with clock eviction (cache.c). */
module Cache {
  import opened Sectors

  const CACHE_SIZE := 64

  datatype Entry = Entry(occupied: bool, sector: nat, buffer: Sector, dirty: bool, access: bool)

  ghost predicate Holds(es: seq<Entry>, s: nat) {
    exists i :: 0 <= i < |es| && es[i].occupied && es[i].sector == s
  }

  /** The cache invariant: VIEW is the disk as users of the cache see it, DEV
      what is on the device.  An occupied entry holds its sector's current
      contents, a clean one agrees with the device, no sector has two entries,
      and a sector without an entry is up to date on the device. */
  ghost predicate Coherent(es: seq<Entry>, dev: Disk, view: Disk) {
    && |dev| == |view|
    && (forall i :: 0 <= i < |es| && es[i].occupied ==>
          && es[i].sector < |view| && es[i].buffer == view[es[i].sector]
          && (!es[i].dirty ==> dev[es[i].sector] == es[i].buffer))
    && (forall i, j :: 0 <= i < j < |es| && es[i].occupied && es[j].occupied ==> es[i].sector != es[j].sector)
    && (forall s :: 0 <= s < |view| ==> Holds(es, s) || dev[s] == view[s])
  }

  // The entry is used, or its contents copied out.
  lemma KeepEntry(es: seq<Entry>, dev: Disk, view: Disk, k: nat, e: Entry)
    requires Coherent(es, dev, view) && k < |es|
    requires e.occupied == es[k].occupied && e.sector == es[k].sector && e.buffer == es[k].buffer && e.dirty == es[k].dirty
    ensures Coherent(es[k := e], dev, view)
  {
    forall s | 0 <= s < |view|
      ensures Holds(es[k := e], s) || dev[s] == view[s]
    {
      if Holds(es, s) {
        var i :| 0 <= i < |es| && es[i].occupied && es[i].sector == s;
        assert es[k := e][i].sector == s;
      }
    }
  }

  lemma FlushEntry(es: seq<Entry>, dev: Disk, view: Disk, k: nat)
    requires Coherent(es, dev, view) && k < |es| && es[k].occupied
    ensures Coherent(es[k := es[k].(dirty := false)], dev[es[k].sector := es[k].buffer], view)
  {
    var es' := es[k := es[k].(dirty := false)];
    forall s | 0 <= s < |view|
      ensures Holds(es', s) || dev[es[k].sector := es[k].buffer][s] == view[s]
    {
      if Holds(es, s) {
        var i :| 0 <= i < |es| && es[i].occupied && es[i].sector == s;
        assert es'[i].sector == s;
      }
    }
  }

  lemma DropEntry(es: seq<Entry>, dev: Disk, view: Disk, k: nat)
    requires Coherent(es, dev, view) && k < |es| && (es[k].occupied ==> !es[k].dirty)
    ensures Coherent(es[k := es[k].(occupied := false)], dev, view)
  {
    var es' := es[k := es[k].(occupied := false)];
    forall s | 0 <= s < |view|
      ensures Holds(es', s) || dev[s] == view[s]
    {
      if Holds(es, s) {
        var i :| 0 <= i < |es| && es[i].occupied && es[i].sector == s;
        assert i != k ==> es'[i].sector == s;
      }
    }
  }

  lemma FillEntry(es: seq<Entry>, dev: Disk, view: Disk, k: nat, s: nat, access: bool)
    requires Coherent(es, dev, view) && k < |es| && !es[k].occupied && s < |view| && !Holds(es, s)
    ensures Coherent(es[k := Entry(true, s, dev[s], false, access)], dev, view)
  {
    var es' := es[k := Entry(true, s, dev[s], false, access)];
    forall t | 0 <= t < |view|
      ensures Holds(es', t) || dev[t] == view[t]
    {
      if Holds(es, t) {
        var i :| 0 <= i < |es| && es[i].occupied && es[i].sector == t;
        assert es'[i].sector == t;
      }
    }
  }

  lemma WriteEntry(es: seq<Entry>, dev: Disk, view: Disk, k: nat, x: Sector)
    requires Coherent(es, dev, view) && k < |es| && es[k].occupied
    ensures Coherent(es[k := es[k].(buffer := x, dirty := true, access := true)], dev, view[es[k].sector := x])
  {
    var es' := es[k := es[k].(buffer := x, dirty := true, access := true)];
    forall s | 0 <= s < |view|
      ensures Holds(es', s) || dev[s] == view[es[k].sector := x][s]
    {
      if Holds(es, s) {
        var i :| 0 <= i < |es| && es[i].occupied && es[i].sector == s;
        assert es'[i].sector == s;
      } else {
        assert s != es[k].sector;
      }
    }
  }

  // Whether the clock hand stops at an entry.
  predicate Stops(e: Entry) {
    !e.occupied || !e.access
  }

  // How many places the hand moves from C to reach slot I.
  function Places(c: nat, i: nat): int {
    if i >= c then i - c else i + CACHE_SIZE - c
  }

  // The entries after the hand has moved N places from C, taking access bits.
  function Swept(es: seq<Entry>, c: nat, n: nat): (r: seq<Entry>)
    ensures |r| == |es|
  {
    seq(|es|, i requires 0 <= i < |es| => if Places(c, i) < n then es[i].(access := false) else es[i])
  }

  // All entries the hand passed were in use.
  ghost predicate AllPassed(es: seq<Entry>, c: nat, n: nat) {
    forall i :: 0 <= i < |es| && Places(c, i) < n ==> !Stops(es[i])
  }

  lemma SweepOne(es: seq<Entry>, c: nat, n: nat, i: nat)
    requires |es| == CACHE_SIZE && c < CACHE_SIZE && i < CACHE_SIZE && n < CACHE_SIZE && Places(c, i) == n
    requires AllPassed(es, c, n) && !Stops(es[i])
    ensures Swept(es, c, n)[i] == es[i]
    ensures Swept(es, c, n)[i := es[i].(access := false)] == Swept(es, c, n + 1)
    ensures AllPassed(es, c, n + 1)
  {
    assert forall j :: 0 <= j < CACHE_SIZE && j != i ==> Places(c, j) != n;
  }

  lemma NotHeld(es: seq<Entry>, c: nat, n: nat, slot: nat, e: Entry, s: nat)
    requires slot < |es| && !e.occupied && !Holds(es, s)
    ensures !Holds(Swept(es, c, n)[slot := e], s)
  {}

  /** The clock's choice: from C the hand passes PASSED entries where it may not
      stop, and then comes to SLOT where it may, or back to where it started. */
  ghost predicate Evicts(es: seq<Entry>, c: nat, passed: nat, slot: nat) {
    && slot < |es| && AllPassed(es, c, passed)
    && if passed < CACHE_SIZE then Places(c, slot) == passed && Stops(es[slot]) else passed == CACHE_SIZE && slot == c
  }

  /** What looking for sector S, with contents X, does to the entries and the hand:
      nothing if an entry holds it; otherwise the clock's choice is replaced. */
  ghost predicate Fetched(es: seq<Entry>, c: nat, s: nat, x: Sector, es': seq<Entry>, c': nat, slot: nat) {
    && slot < |es| == |es'|
    && if Holds(es, s) then es' == es && c' == c && es[slot].occupied && es[slot].sector == s
       else exists passed: nat :: Evicts(es, c, passed, slot) && c' == slot
                                  && es' == Swept(es, c, passed)[slot := Entry(true, s, x, false, es'[slot].access)]
  }

  // The device after an entry has been given up: written back if the entry was dirty.
  function GivenUp(e: Entry, dev: Disk): (dev': Disk)
    ensures |dev'| == |dev|
  {
    if e.occupied && e.dirty && e.sector < |dev| then dev[e.sector := e.buffer] else dev
  }

  /** The device is written to only when a dirty entry is thrown out. */
  ghost predicate WritesBack(es: seq<Entry>, c: nat, s: nat, dev: Disk, dev': Disk) {
    if Holds(es, s) then dev' == dev
    else exists passed: nat, slot: nat :: Evicts(es, c, passed, slot) && dev' == GivenUp(es[slot], dev)
  }

  // A read and a write of S: the entry that holds it is marked as used.
  ghost predicate ReadUses(es: seq<Entry>, c: nat, s: nat, x: Sector, es': seq<Entry>, c': nat) {
    exists f: seq<Entry>, slot: nat :: Fetched(es, c, s, x, f, c', slot) && es' == f[slot := f[slot].(access := true)]
  }

  ghost predicate WriteUses(es: seq<Entry>, c: nat, s: nat, x: Sector, source: Sector, es': seq<Entry>, c': nat) {
    exists f: seq<Entry>, slot: nat :: Fetched(es, c, s, x, f, c', slot)
                           && es' == f[slot := f[slot].(access := true, dirty := true, buffer := source)]
  }

  // Sector S has an entry that is marked as used.
  ghost predicate InUse(es: seq<Entry>, s: nat) {
    exists i :: 0 <= i < |es| && es[i].occupied && es[i].sector == s && es[i].access
  }

  /** After a read or a write the sector has an entry that is marked as used. */
  lemma UsedIsMarked(es: seq<Entry>, c: nat, s: nat, x: Sector, source: Sector, es': seq<Entry>, c': nat)
    requires ReadUses(es, c, s, x, es', c') || WriteUses(es, c, s, x, source, es', c')
    ensures |es'| == |es| && InUse(es', s)
  {
    hide Evicts, Swept;
    var f: seq<Entry>, slot: nat :| Fetched(es, c, s, x, f, c', slot)
                        && (es' == f[slot := f[slot].(access := true)]
                            || es' == f[slot := f[slot].(access := true, dirty := true, buffer := source)]);
    assert es'[slot].occupied && es'[slot].sector == s;
  }

  /** A second chance: a sector marked as used is not thrown out by the next access
      to another one, unless all 64 entries are marked. */
  lemma MarkedStays(es: seq<Entry>, c: nat, s: nat, t: nat, x: Sector, source: Sector, es': seq<Entry>, c': nat)
    requires |es| == CACHE_SIZE && c < CACHE_SIZE && InUse(es, s) && t != s
    requires ReadUses(es, c, t, x, es', c') || WriteUses(es, c, t, x, source, es', c')
    requires exists j :: 0 <= j < CACHE_SIZE && Stops(es[j])
    ensures Holds(es', s)
  {
    var f: seq<Entry>, slot: nat :| Fetched(es, c, t, x, f, c', slot)
                        && (es' == f[slot := f[slot].(access := true)]
                            || es' == f[slot := f[slot].(access := true, dirty := true, buffer := source)]);
    var i :| 0 <= i < |es| && es[i].occupied && es[i].sector == s && es[i].access;
    if !Holds(es, t) {
      var passed: nat :| Evicts(es, c, passed, slot) && f == Swept(es, c, passed)[slot := Entry(true, t, x, false, f[slot].access)];
      NotChosen(es, c, passed, slot, i);
    }
    assert es'[i].occupied && es'[i].sector == s;
  }

  lemma NotChosen(es: seq<Entry>, c: nat, passed: nat, slot: nat, i: nat)
    requires |es| == CACHE_SIZE && c < CACHE_SIZE && i < CACHE_SIZE && Evicts(es, c, passed, slot) && !Stops(es[i])
    requires exists j :: 0 <= j < CACHE_SIZE && Stops(es[j])
    ensures slot != i
  {
    var j :| 0 <= j < CACHE_SIZE && Stops(es[j]);
    assert Places(c, j) < CACHE_SIZE;
  }

  // The entries with the first N of them written back.
  function Cleaned(es: seq<Entry>, n: nat): (r: seq<Entry>)
    ensures |r| == |es|
  {
    seq(|es|, i requires 0 <= i < |es| => if i < n && es[i].occupied then es[i].(dirty := false) else es[i])
  }

  class BufferCache {
    const device: array<Sector>
    const cache: array<Entry>
    var clock: nat
    ghost var view: Disk

    ghost predicate Valid()
      reads this, device, cache
    {
      cache.Length == CACHE_SIZE && clock < CACHE_SIZE && Coherent(cache[..], device[..], view)
    }

    // buffer_cache_init on DEV: nothing is cached, so the view is the device.
    constructor (dev: array<Sector>)
      ensures Valid() && fresh(cache) && device == dev
      ensures view == dev[..] && clock == 0 && forall i :: 0 <= i < CACHE_SIZE ==> !cache[i].occupied
    {
      device := dev;
      cache := new Entry[CACHE_SIZE](_ => Entry(false, 0, Zeros(), false, false));
      clock := 0;
      view := dev[..];
    }

    // buffer_cache_flush
    method Flush(i: nat)
      requires Valid() && i < CACHE_SIZE && cache[i].occupied
      modifies cache, device
      ensures Valid()
      ensures cache[..] == old(cache[..])[i := old(cache[i]).(dirty := false)]
      ensures device[..] == old(device[..])[cache[i].sector := cache[i].buffer]
    {
      FlushEntry(cache[..], device[..], view, i);
      if cache[i].dirty {
        device[cache[i].sector] := cache[i].buffer;
        cache[i] := cache[i].(dirty := false);
      }
      assert cache[..] == old(cache[..])[i := old(cache[i]).(dirty := false)];
      assert device[..] == old(device[..])[cache[i].sector := cache[i].buffer];
    }

    // buffer_cache_close: the device catches up with the view.
    method Close()
      requires Valid()
      modifies cache, device
      ensures Valid()
      ensures device[..] == view
      ensures cache[..] == Cleaned(old(cache[..]), CACHE_SIZE)
    {
      for i := 0 to CACHE_SIZE
        invariant Valid() && cache[..] == Cleaned(old(cache[..]), i)
        invariant forall j :: 0 <= j < i && cache[..][j].occupied ==> !cache[..][j].dirty
      {
        if cache[i].occupied {
          Flush(i);
        }
      }
    }

    // buffer_cache_lookup: the slot caching SECTOR, or CACHE_SIZE if there is none.
    method Lookup(sector: nat) returns (slot: nat)
      requires Valid()
      ensures slot <= CACHE_SIZE
      ensures slot < CACHE_SIZE ==> cache[slot].occupied && cache[slot].sector == sector
      ensures slot == CACHE_SIZE <==> !Holds(cache[..], sector)
    {
      for i := 0 to CACHE_SIZE
        invariant forall j :: 0 <= j < i ==> !(cache[j].occupied && cache[j].sector == sector)
      {
        if cache[i].occupied && cache[i].sector == sector {
          assert cache[..][i].sector == sector;
          return i;
        }
      }
      return CACHE_SIZE;
    }

    /** buffer_cache_evict.  The hand moves PASSED places, over entries where it
        may not stop (they lose their access bit), to the first slot where it
        may, or all the way round to where it started. */
    method Evict() returns (slot: nat, ghost passed: nat)
      requires Valid()
      modifies `clock, cache, device
      ensures Valid()
      ensures slot == clock && Evicts(old(cache[..]), old(clock), passed, slot)
      ensures !cache[slot].occupied && cache[..] == Swept(old(cache[..]), old(clock), passed)[slot := cache[slot]]
      ensures device[..] == GivenUp(old(cache[slot]), old(device[..]))
    {
      hide Coherent;
      passed := 0;
      ghost var c, es := clock, cache[..];
      assert Swept(es, c, 0) == es;
      while true
        invariant clock < CACHE_SIZE && passed <= CACHE_SIZE
        invariant if passed < CACHE_SIZE then Places(c, clock) == passed else clock == c
        invariant Coherent(cache[..], device[..], view) && device[..] == old(device[..])
        invariant cache[..] == Swept(es, c, passed) && AllPassed(es, c, passed)
        decreases CACHE_SIZE - passed
      {
        assert cache[clock] == cache[..][clock] == Swept(es, c, passed)[clock];
        if !cache[clock].occupied {
          assert cache[..] == cache[..][clock := cache[clock]];
          return clock, passed;
        }
        if cache[clock].access {
          SweepOne(es, c, passed, clock);
          KeepEntry(cache[..], device[..], view, clock, cache[clock].(access := false));
          cache[clock] := cache[clock].(access := false);
        } else {
          break;
        }
        clock := clock + 1;
        clock := clock % CACHE_SIZE;
        passed := passed + 1;
      }
      slot := clock;
      Drop(slot);
    }

    // The end of buffer_cache_evict: the chosen entry is written back if dirty and given up.
    method Drop(slot: nat)
      requires Valid() && slot < CACHE_SIZE && cache[slot].occupied
      modifies cache, device
      ensures Valid()
      ensures !cache[slot].occupied && cache[..] == old(cache[..])[slot := cache[slot]]
      ensures device[..] == GivenUp(old(cache[slot]), old(device[..]))
    {
      if cache[slot].dirty {
        Flush(slot);
      }
      DropEntry(cache[..], device[..], view, slot);
      ghost var was := cache[..];
      cache[slot] := cache[slot].(occupied := false);
      assert cache[..] == was[slot := cache[slot]];
    }

    // The part read and write share: a slot holding SECTOR.
    method Fetch(sector: nat) returns (slot: nat)
      requires Valid() && sector < |view|
      modifies `clock, cache, device
      ensures Valid()
      ensures slot < CACHE_SIZE && cache[slot].occupied && cache[slot].sector == sector
      ensures Fetched(old(cache[..]), old(clock), sector, view[sector], cache[..], clock, slot)
      ensures WritesBack(old(cache[..]), old(clock), sector, old(device[..]), device[..])
    {
      slot := Lookup(sector);
      if slot == CACHE_SIZE {
        ghost var passed;
        slot, passed := Evict();
        NotHeld(old(cache[..]), old(clock), passed, slot, cache[slot], sector);
        FillEntry(cache[..], device[..], view, slot, sector, cache[slot].access);
        cache[slot] := Entry(true, sector, device[sector], false, cache[slot].access);
        assert cache[..][slot] == cache[slot];
      }
    }
  
    // buffer_cache_read
    method Read(sector: nat) returns (target: Sector)
      requires Valid() && sector < |view|
      modifies `clock, cache, device
      ensures Valid()
      ensures target == view[sector]
      ensures ReadUses(old(cache[..]), old(clock), sector, view[sector], cache[..], clock)
      ensures WritesBack(old(cache[..]), old(clock), sector, old(device[..]), device[..])
    {
      var slot := Fetch(sector);
      KeepEntry(cache[..], device[..], view, slot, cache[slot].(access := true));
      ghost var was := cache[..];
      cache[slot] := cache[slot].(access := true);
      assert cache[..] == was[slot := cache[slot]];
      target := cache[slot].buffer;
      assert target == cache[..][slot].buffer;
    }

    // buffer_cache_write
    method Write(sector: nat, source: Sector)
      requires Valid() && sector < |view|
      modifies this, cache, device
      ensures Valid()
      ensures view == old(view)[sector := source]
      ensures WriteUses(old(cache[..]), old(clock), sector, old(view[sector]), source, cache[..], clock)
      ensures WritesBack(old(cache[..]), old(clock), sector, old(device[..]), device[..])
    {
      var slot := Fetch(sector);
      WriteEntry(cache[..], device[..], view, slot, source);
      ghost var was := cache[..];
      cache[slot] := cache[slot].(access := true, dirty := true, buffer := source);
      assert cache[..] == was[slot := cache[slot]];
      view := view[sector := source];
    }
  }
}
