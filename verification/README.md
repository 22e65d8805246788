# The file system of a3/fs, modelled and proved in Dafny

The project models the file system under `a3/fs` as a stack of stateful layers and
proves each layer against a simple specification:

- **Sectors, Cache** - the device is an array of 512-byte sectors; the 64-entry
  write-back cache with its clock hand is indistinguishable from a plain disk.
- **Masks, Bitmap, FirstFit** - bits packed into 64-bit elements; the allocator that
  always takes the first free sector, as a function.
- **Layout, Growth, Inodes, Positions, Contents, InodeGrowth, Staying, Writes, Reserving,
  Freeing** - the tree of pointers of an inode as the sectors hold it (123 direct
  pointers, one indirect block, one doubly indirect block), what growing, writing and
  freeing do to it, and the bytes it stands for.
- **FileSystem** - the free map (which stores itself in a file) and the inodes, as one
  class, because they call each other.
- **Files, Runs, Accounting, Operations** - all files of a device at once: who owns
  which sector, what any sequence of operations keeps, what it costs.
- **Records, Directories, Paths, Volumes** - directories as finite maps, paths, and the
  volume as a map from names to byte sequences.
- **Fragmentation** - the gap test of the fragmentation report.
- **Sequences, Orders, Lists** - the intrusive doubly linked list with its in-place
  natural merge sort.

Three ideas carry most of the proofs.

1. *Growth appends.* List the sectors of an inode in the order the code allocates them,
   each index block before what it points to. Then growing an inode appends to that list
   exactly the next free sectors of the free map (`TakeFree`), through both levels of
   indirection. Ownership, accounting, zero-filling, removal as the inverse of growth and
   the gap bound are consequences of this one equation.
2. *States and steps.* A `State` holds the disk as the cache shows it, the free map, the
   free map's inode, and the headers of the files. `Step` is what one operation promises,
   in the words of the methods' own postconditions; `RunKeeps` is about every sequence of
   steps.
3. *The free map's file never grows.* Its length is the byte count of the bitmap from its
   creation on, so the write nested in an allocation stays inside the file and reaches no
   second allocation. The methods' termination measures say so: a write to the free map's
   file ranks below allocation, any other write above it.

## What the code does that its comments do not say

Each of these is kept in the model, with the exact condition.

- *A refused extension.* Whether a reservation succeeds is decided by the number of free
  sectors alone. If they run out, all of them are gone; and if they run out where an index
  block is due, sector 0, the free map's header, is overwritten with zeros, because the
  result of that allocation is ignored (a3/fs/inode.c:382). `Runs.SectorZero` says when,
  in both directions; `Accounting.ClobberExample` names a case. A request for more than
  16635 sectors takes all the sectors an inode can have and then fails. Either way the file
  itself keeps its header and its bytes and can be read on (`Reserving.RefusedSame`,
  `Runs.RefusedStill`), because no pointer is ever replaced.
- *An empty write at offset 0* takes the extending branch (a3/fs/inode.c:264) and sets the
  length to 0 without giving back a sector. The inode is in order afterwards if and only
  if it was empty before (`Accounting.ShrinkBreaks`, `Accounting.ShrinkExample`).
- *Creating a name that exists, or is not valid*, releases the new file's header but not
  its other sectors (a3/fs/filesys.c:83-84). Sectors are lost if and only if the requested
  size is not 0 (`Volumes.CreateNamed`, `Runs.AbandonLeaks`).
- *A write is all or nothing*, although the comment at a3/fs/inode.c:249-252 allows for
  fewer bytes, and the rollback in `free_map_allocate` (a3/fs/free-map.c:33-37) is never
  reached: writing the bitmap to its own file is never short.

## Model

| member | source | states |
|---|---|---|
| Sectors.WordsRoundTrip | a3/fs/inode.c:11-13 | a block of 128 pointers stored in a sector and read back is unchanged |
| Inodes.HeaderRoundTrip | a3/fs/inode.h:16-26 | the on-disk inode stored in its sector and read back is unchanged |
| Inodes.HeaderLayout | a3/fs/inode.h:16-26 | the 32-bit word of the sector in which each field of the on-disk inode lies |
| Cache.BufferCache.constructor | a3/fs/cache.c:21-28 | at first no sector is cached and the cache shows exactly the device |
| Cache.BufferCache.Flush | a3/fs/cache.c:31-38 | flushing makes the device hold the entry's contents and the entry clean, and changes nothing else |
| Cache.BufferCache.Close | a3/fs/cache.c:40-50 | after closing, the raw device equals the disk the cache showed, and every entry is clean |
| Cache.BufferCache.Lookup | a3/fs/cache.c:53-64 | finds the one entry that holds the sector, and none exactly if no entry does |
| Cache.BufferCache.Evict | a3/fs/cache.c:71-99 | terminates; the victim is the first slot from the hand that is free or has its access bit clear, or the starting slot after one full sweep; exactly the passed entries lose their access bit; only a dirty victim is written to the device; the disk shown does not change |
| Cache.BufferCache.Read | a3/fs/cache.c:101-118 | a read returns what was last written to the sector, or what the device had, and leaves the sector's entry marked as used; on a hit nothing else changes, on a miss the clock's choice is replaced |
| Cache.BufferCache.Write | a3/fs/cache.c:120-138 | a write changes exactly that sector of the disk shown and leaves its entry dirty and marked as used, with the same effect on the other entries |
| Cache.UsedIsMarked | a3/fs/cache.c:101-138 | after a read or a write the sector has an entry whose access bit is set |
| Cache.MarkedStays | a3/fs/cache.c:71-99 | a sector marked as used survives the next access to another one unless all 64 entries are marked |
| Masks.BitAfter | a3/fs/bitmap.c:143-156 | setting or clearing one bit through a mask leaves the 63 other bits of its element alone |
| Masks.BitMasked | a3/fs/bitmap.c:53-56 | the mask for the last element keeps its used bits and clears the rest |
| Masks.ElemsRoundTrip | a3/fs/bitmap.c:288-304 | elements written as bytes and read back are unchanged |
| Masks.MemoryAgrees | a3/fs/bitmap.c:33-39 | bit I of the elements is bit I % 8 of byte I / 8 of their memory |
| Bitmaps.PacksUnique | a3/fs/bitmap.c:20-49 | the packed elements determine every bit |
| Bitmaps.Bitmap.constructor | a3/fs/bitmap.c:64-77 | a new bitmap has all bits clear |
| Bitmaps.Bitmap.Set | a3/fs/bitmap.c:133-156 | exactly one bit takes the given value |
| Bitmaps.Bitmap.IsSet | a3/fs/bitmap.c:169-173 | the packed test agrees with the sequence of bits |
| Bitmaps.Bitmap.SetMultiple | a3/fs/bitmap.c:185-195 | exactly the bits of the range take the value |
| Bitmaps.Bitmap.Count | a3/fs/bitmap.c:199-212 | counts the bits of the range that have the value |
| Bitmaps.Bitmap.Contains | a3/fs/bitmap.c:216-228 | true unless the range is a run of the opposite value |
| Bitmaps.Bitmap.Scan | a3/fs/bitmap.c:253-266 | the least start of a run of the length and value asked for; an error exactly if there is none |
| Bitmaps.Bitmap.ScanAndFlip | a3/fs/bitmap.c:273-279 | that run is flipped and nothing else; on an error nothing changes |
| Bitmaps.Bitmap.Image | a3/fs/bitmap.c:300-304 | the bytes handed to the file hold bit I as bit I % 8 of byte I / 8 |
| Bitmaps.Bitmap.Load | a3/fs/bitmap.c:288-296 | reading such bytes back restores every bit, whatever the unused bits were |
| FirstFit.TakeAll | a3/fs/free-map.c:31-41 | K allocations of one sector succeed as long as sectors are free, and each lowers the free count by one |
| FirstFit.TakeSplit | a3/fs/free-map.c:31-41 | allocating I and then J sectors is allocating I + J |
| FirstFit.TakeMarks | a3/fs/free-map.c:31-41 | what is handed out was free, and the map changes exactly there |
| FirstFit.TakeAscends | a3/fs/free-map.c:31-41 | sectors are handed out in ascending order, so each once |
| FirstFit.ReleaseUndoesTake | a3/fs/free-map.c:31-48 | releasing what was taken restores the map bit for bit |
| Layout.TreeFrame | a3/fs/inode.c:28-75 | only the index blocks determine the shape of a pointer tree |
| Layout.TreeParts | a3/fs/inode.c:360-400 | a tree's sectors are its data sectors and its index blocks, each once |
| Layout.TreeSize | a3/fs/inode.c:360-400 | how many sectors a tree with N data sectors has, level by level |
| Inodes.DataApart | a3/fs/inode.c:406-447 | no data sector of an inode is one of its index blocks |
| Positions.BehindPointers | a3/fs/inode.c:28-75 | following the pointers for data sector I, none, one block or two, leads to it |
| Positions.PlaceOf | a3/fs/inode.c:406-447 | data sector I is number Total(I + 1) among all sectors in allocation order |
| Positions.TotalClosed | a3/fs/inode.c:406-447 | the sector count in closed form: s up to 123, s + 1 up to 251, then s + 2 + ceil((s - 251) / 128) |
| Growth.GrowTwice | a3/fs/inode.c:390-396 | two sibling subtrees grown one after the other have grown as one |
| Growth.OldBlock | a3/fs/inode.c:380-399 | growing the children of an existing index block and writing it back grows the block's tree |
| Growth.NewBlock | a3/fs/inode.c:380-399 | the same for an index block that is allocated on the way |
| Growth.ClobberStep | a3/fs/inode.c:380-394 | whether sectors run out at an index block does not depend on which sibling is looked at |
| Contents.PieceWritten | a3/fs/inode.c:276-322 | overwriting inside one sector replaces just those bytes and keeps the inode and its sectors |
| Contents.GrowBytes | a3/fs/inode.c:406-447 | growth keeps every old byte and appends zeros only |
| Staying.TreeStays | a3/fs/inode.c:360-400 | as long as no pointer in use is replaced, a tree's data sectors stay where they are |
| Staying.RoutedStays | a3/fs/inode.c:28-75 | and the inode's pointers, with new ones added, still lead to every one of them |
| Reserving.RefusedSame | a3/fs/inode.c:264-270 | after a refused extension the inode in memory can be read and has the bytes it had, and its header's sector is unchanged |
| Freeing.ThreeOwned | a3/fs/inode.c:475-508 | direct sectors, indirect tree and doubly indirect tree of an inode have no sector in common |
| FileSystems.FileSystem.constructor | a3/fs/free-map.c:13-20 | at first exactly sectors 0 and 1 are taken |
| FileSystems.FileSystem.IndexToSector | a3/fs/inode.c:28-75 | the sector found by division and remainder is the data sector in file order; past the last level, the error value |
| FileSystems.FileSystem.ByteToSector | a3/fs/inode.c:81-89 | the error value exactly for positions outside the file, otherwise the sector that holds the byte |
| FileSystems.FileSystem.ReadAt | a3/fs/inode.c:201-247 | exactly the bytes of the request, clipped to the length; also for an inode whose extension was refused |
| FileSystems.FileSystem.WriteBytes | a3/fs/inode.c:276-324 | the loop of partial and whole sectors replaces exactly the bytes asked for |
| FileSystems.FileSystem.WriteAt | a3/fs/inode.c:253-327 | writes everything if and only if the sectors for the new length exist and are free; then the bytes are the old ones with the request spliced in and gaps zero, and the sectors are the old ones and the next free ones; otherwise nothing is written, header and bytes are as before, the free sectors are gone as stated, and pointers gained in memory are to sectors just taken; a write to the free map's file allocates nothing |
| FileSystems.FileSystem.Extend | a3/fs/inode.c:264-274 | the extending branch, with the header written if and only if the reservation succeeded |
| FileSystems.FileSystem.ReserveIndirect | a3/fs/inode.c:360-400 | a subtree grows to the sectors asked for by the next free sectors, or fails exactly if they are too few; no pointer in use is ever replaced, and on a failure the subtree's own block is not written |
| FileSystems.FileSystem.ReserveKids | a3/fs/inode.c:390-396 | the same for the loop over sibling pointers; each pointer stays or is to a sector just taken |
| FileSystems.FileSystem.Reserve | a3/fs/inode.c:406-447 | the same for a whole inode, whose pointers stay or are to sectors just taken; more than 16635 sectors fail after taking all an inode can have |
| FileSystems.FileSystem.DeallocateIndirect | a3/fs/inode.c:449-473 | exactly the sectors of the subtree are released |
| FileSystems.FileSystem.Deallocate | a3/fs/inode.c:475-508 | exactly the sectors of the inode are released, and no sector still taken changes |
| FileSystems.FileSystem.Create | a3/fs/inode.c:103-125 | an inode of zeros whose sectors are the next free ones, if and only if there is room |
| FileSystems.FileSystem.Open | a3/fs/inode.c:130-158 | the in-memory inode is what its sector holds |
| FileSystems.FileSystem.FreeMapAllocate | a3/fs/free-map.c:31-41 | first fit; afterwards the free map's file holds the new map; a failure changes nothing |
| FileSystems.FileSystem.WriteFreeMap | a3/fs/bitmap.c:300-304 | persisting the free map never falls short, allocates nothing and touches only the free map's own sectors |
| FileSystems.FileSystem.FreeMapRelease | a3/fs/free-map.c:44-48 | exactly the sectors are freed, and the file holds the new map |
| FileSystems.FileSystem.NumFreeSectors | a3/fs/free-map.c:22-24 | the number of clear bits of the map |
| FileSystems.FileSystem.FreeMapCreate | a3/fs/free-map.c:64-77 | the map's file gets the first free sectors and then holds a map in which they are taken |
| FileSystems.FileSystem.FreeMapOpen | a3/fs/free-map.c:51-57 | the map in memory is the one last stored |
| FileSystems.FileSystem.GetDataSectors | a3/fs/inode.c:510-579 | the list built by nested loops is the data sectors in file order, the ones IndexToSector finds |
| Files.OneOwner | a3/fs/inode.c:360-508 | on a consistent device every sector has one owner and one position, is marked, and is sector 0 only as the free map's header |
| Files.LargerKeeps | a3/fs/inode.c:253-327 | creating or growing one file keeps the device consistent, all other files' sectors and bytes, and loses no sector |
| Files.RemovalKeeps | a3/fs/inode.c:171-189 | so does removing one |
| Files.RefusalKeeps | a3/fs/inode.c:406-447 | a refused reservation leaves every other file as it was |
| Runs.RunKeeps | a3/fs/inode.c:103-508 | over every run of creations, writes, removals and refusals each file is its own byte sequence, the ownership rules hold, and nothing is lost unless something was refused or abandoned |
| Runs.StepMeans | a3/fs/inode.c:103-508 | one operation changes its own file as it should and no other file's header or bytes; a refused one changes no file's |
| Runs.RefusedStill | a3/fs/inode.c:264-270 | a refused write leaves the header and the bytes of its file as they were |
| Runs.SectorZero | a3/fs/inode.c:380-384 | the free map's header survives if and only if no reservation ran out of sectors where an index block was due |
| Runs.AbandonLeaks | a3/fs/filesys.c:83-84 | releasing only the header of a file loses no sector if and only if the file is empty |
| Accounting.StepCost | a3/fs/free-map.c:22-24 | every operation changes the number of free sectors by exactly its cost, Total(new) - Total(old) for a write |
| Accounting.ClearedCount | a3/fs/free-map.c:44-48 | releasing distinct taken sectors raises the free count by their number |
| Accounting.NoTrace | a3/fs/inode.c:475-508 | a file created, written any number of times and removed leaves the free map bit for bit as it was |
| Accounting.ShrinkBreaks | a3/fs/inode.c:264-273 | an empty write at offset 0 leaves a file in order if and only if it was empty |
| Accounting.ShrinkExample | a3/fs/inode.c:264-273 | a one-byte file that it breaks |
| Accounting.ClobberExample | a3/fs/inode.c:380-384 | 123 free sectors and a new file of 124 lose the free map's header |
| Operations.ReadFile | a3/fs/inode.c:201-247 | reading an open file gives the slice of its abstract bytes |
| Operations.WriteFile | a3/fs/inode.c:253-327 | writing an open file is a step of a run, successful if and only if there is room; if not, the file still reads as before |
| Operations.TakeHeader | a3/fs/filesys.c:65-68 | taking a header's sector is a step; it fails only on a full device |
| Operations.MakeFile | a3/fs/inode.c:103-125 | creating a file is a step, or a refusal exactly if there is no room |
| Operations.ReleaseHeader | a3/fs/filesys.c:83-84 | giving a header back is a step, harmless for a bare sector, an abandonment for a file |
| Operations.RemoveFile | a3/fs/inode.c:171-189 | removing a file is a step that releases its header and its tree |
| Operations.Format | a3/fs/filesys.c:156-163 | any device of four sectors or more has room for the free map's file; the new device is consistent and nothing is lost |
| Operations.Restart | a3/fs/filesys.c:20-45 | shutting down and starting again on the same device gives exactly the same state |
| Fragmentation.IsFragmented | a3/fs/fsutil2.c:138-163 | a file is counted exactly if some data sector goes back or ahead by more than three |
| Fragmentation.NextPlace | a3/fs/fsutil2.c:150-162 | from one data sector to the next there are at most two index blocks, two only at the first doubly indirect one |
| Fragmentation.FreshInOnePiece | a3/fs/fsutil2.c:150-162 | with the free sectors in one piece, a new file's data sectors ascend and it is not counted |
| Fragmentation.WrittenInOnePiece | a3/fs/fsutil2.c:150-162 | nor is it after any number of writes, if nothing else takes sectors |
| Records.RecordRoundTrip | a3/fs/directory.h:22-26 | an entry stored and read back is unchanged |
| Records.AddedBinding | a3/fs/directory.c:286-296 | using a free entry or one more for a new valid name adds exactly that binding |
| Records.RemovedBinding | a3/fs/directory.c:334-338 | marking an entry free removes exactly its binding |
| Records.EntryWritten | a3/fs/directory.c:293-296 | writing an entry's bytes in its place changes that entry only, and the length stays a multiple of the entry size |
| Records.BoundOnce | a3/fs/directory.c:351-362 | the names in the order of their entries are the names of the map, each once |
| Directories.Lookup | a3/fs/directory.c:179-198 | finds a name if and only if the directory's map binds it, with its sector and the first entry that binds it |
| Directories.Add | a3/fs/directory.c:247-300 | binds exactly a valid new name for which there is room, in the first entry not in use or else one more, and nothing otherwise |
| Directories.Erase | a3/fs/directory.c:334-338 | erasing an entry changes no other entry, removes its binding, takes no sector and touches no other file |
| Directories.IsEmpty | a3/fs/directory.c:201-212 | no entry after the first is in use |
| Directories.RemoveNamed | a3/fs/directory.c:305-346 | removes a binding and the file it names, except for a directory with entries |
| Directories.ReadDir | a3/fs/directory.c:351-362 | the next entry in use, skipping none |
| Directories.ListNames | a3/fs/fsutil.c:15-28 | listing a directory meets each bound name exactly once, in the order of the entries |
| Directories.CreateDirectory | a3/fs/directory.c:52-75 | an empty directory whose first entry names itself |
| Paths.SplitPath | a3/fs/directory.c:17-48 | the tokenising loop computes directory and file name as the components of the path define them |
| Paths.SplitKeepsComponents | a3/fs/directory.c:17-48 | directory and file name together have the components of the path, and an absolute path stays absolute |
| Paths.SplitShape | a3/fs/directory.c:17-48 | the directory starts with a slash if and only if the path does, ends with one unless it is empty and has none twice in a row; the file name is the last component |
| Paths.SplitAgain | a3/fs/directory.c:17-48 | splitting the two parts put together gives them again |
| Volumes.CreateNamed | a3/fs/filesys.c:54-88 | adds exactly the named file, a regular one of zeros, in the first free entry, if there is room and the name is valid and new; otherwise no file changes; when sectors are lost |
| Volumes.DeleteNamed | a3/fs/filesys.c:128-138 | succeeds if and only if the name exists, and then removes exactly that file and its entry and frees exactly its sectors |
| Volumes.OpenNamed | a3/fs/filesys.c:95-122 | opens the file a name is bound to, the root directory for an empty name, "." and "..", and nothing else |
| Volumes.PutNamed | a3/fs/inode.c:253-327 | a write to a named file changes that file only |
| Volumes.FormatVolume | a3/fs/filesys.c:20-37 | formatting succeeds if and only if the device is large enough and then gives an empty volume that can be started from |
| Orders.MergeMove | a3/fs/list.c:335-339 | moving an element forward in a merge keeps it sorted and stable so far |
| Orders.PassStep | a3/fs/list.c:357-372 | one round of a pass turns two runs into one |
| Orders.PassEnd | a3/fs/list.c:353-373 | a pass over R runs leaves at most ceil(R / 2), and a sorted sequence if that is one |
| Orders.PassesLog | a3/fs/list.c:342-373 | the bound on passes is the binary logarithm of the number of runs rounded up, and at least one |
| Orders.SortedStableUnique | a3/fs/list.c:342-376 | there is only one sorted and stable arrangement of distinct elements |
| Orders.InsertionSortRight | a3/fs/list.c:381-393 | repeated ordered insertion sorts stably |
| Orders.InsertedSorted | a3/fs/list.c:381-393 | an ordered insertion into a sorted list leaves it sorted, the new element after its equals |
| Orders.KeptPerm | a3/fs/list.c:399-416 | kept and dropped elements together are the original ones |
| Orders.KeptStrict | a3/fs/list.c:399-416 | of a sorted list a strictly increasing one is kept |
| Orders.DroppedSame | a3/fs/list.c:399-416 | every dropped element equals one that is kept |
| Lists.List.constructor | a3/fs/list.c:54-60 | an empty list |
| Lists.List.Insert | a3/fs/list.c:144-152 | the element is linked in just before the given one |
| Lists.List.PushBack | a3/fs/list.c:186-188 | the element is linked in at the end |
| Lists.List.Remove | a3/fs/list.c:216-221 | the element is unlinked and its successor returned |
| Lists.List.Splice | a3/fs/list.c:157-176 | a range of elements moves to just before an earlier element |
| Lists.List.FindEndOfRun | a3/fs/list.c:304-316 | the end of the longest run from the given element |
| Lists.List.InplaceMerge | a3/fs/list.c:323-340 | two sorted neighbouring ranges become one, sorted and stable, by relinking only, and nothing else moves |
| Lists.List.Sort | a3/fs/list.c:345-376 | the same nodes end up, well linked, in the one sorted and stable order, after passes over the list that are counted as they happen and within the bound |
| Lists.List.InsertOrdered | a3/fs/list.c:381-393 | the element goes before the first one it is less than |
| Lists.List.Unique | a3/fs/list.c:399-416 | of equal neighbours the first stays, the others go to the end of the second list in order |
| Lists.List.Reverse | a3/fs/list.c:277-286 | the nodes in reverse order, both links of each consistent |

## Left out

- Open counts, sharing of open inodes, deny-write counts and the current directory: an inode has one opener, since `inode_reopen` does not count openers.
- The lifetime of in-memory inodes: removing an empty directory, or opening ".", closes an inode that is used afterwards; the model lets it live on.
- Subdirectories: `filesys_create` and `filesys_open` always use the root directory; adding a directory to a directory, and paths with more than a file name for `filesys_remove`, are not modelled.
- Directories.Add: its second half for a child directory is not modelled, because it writes a name buffer that has never been set.
- Operations.WriteFile: an empty write at offset 0 is excluded; `FileSystems.FileSystem.WriteAt` states what it does.
- Runs.RunKeeps: a file whose extension was refused is not followed any further, because its index blocks may hold pointers past its end; that it keeps header and bytes is Runs.RefusedStill.
- Volumes.CreateNamed: for a root directory without a free entry only success is described, because a refused growth of the directory leaves its index blocks in between.
- FileSystems.FileSystem.WriteAt: offsets are not negative and offset plus size stays below 2^31, as a 32-bit signed offset requires.
- Lists.List.Splice: moving a range to a later place or to another list is not modelled; the merge is its only caller and moves within one list, forward.
- Reservation works on values: the on-disk inode and index blocks a reservation fills through pointers are returned as new values, and the block buffers are sequences; aliasing between them is not captured. The disk, the cache, the bitmap, open inodes and lists are changed in place.
- Failing memory allocation, the host's block device, partition scanning and all printing.
- `ASSERT` and `PANIC`, which only print, are preconditions where the code means them as such.
- Byte order and layout of structures: little-endian, without padding, as the sizes asserted in the code imply.
- file.c with its file positions, copying to and from the host, searching, recovery and defragmentation as a whole.
- The counters around the gap test in the fragmentation report; its test for one file is modelled.
- The minimum and maximum of a list, list size, and the bitmap operations that no other layer uses.
- The shells, schedulers, pagers and other programs of a1, a2 and a3.
