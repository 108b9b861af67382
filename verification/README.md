# A verified model of the AempOS kernel core

AempOS is a small multiprocessor teaching kernel. This project models five parts of it in Dafny 4.11
and proves what they keep over all inputs and all runs:

- **Physical memory** (`FreeList.dfy`, `MemMan.dfy`, `MemZones.dfy`). The allocator keeps a sorted array of
  free extents. The list is shown to be the unique normal form of a set of bytes, which makes freeing a
  union, allocating a difference, the order of frees irrelevant and a free the exact inverse of an
  allocation. The boot-time splitting at the 6M, 8M and 16M walls and all later runs keep the four zones
  apart.
- **File system** (`FsDisk.dfy`, `FsMap.dfy`, `FsInode.dfy`, `FsFile.dfy`, `FsBytes.dfy`, `FsDir.dfy`, `FsNames.dfy`,
  `FsVolume.dfy`, `FsRoot.dfy`, `FsRuns.dfy`, `FsOps.dfy`, `FsMkfs.dfy`). The disk is an array of 512-byte sectors. Bitmaps,
  inode table cache, directory entries and byte transfers are the code's loops over sector buffers. Above them
  stand two invariants: that of the volume, kept by every create, unlink and in-capacity write, from which
  file isolation over whole runs follows, and that of the root directory, which lists the root, the terminals
  and the live files, each once and under a name of its own. `init_fs` establishes both, and every operation
  is stated from a system in order to a system in order, with what each name resolves to afterwards; over
  whole runs of calls a file keeps its name until it is unlinked and its bytes until it is written.
- **Paging and fork** (`Paging.dfy`, `PageMap.dfy`, `Fork.dfy`). Page directories and tables are frames of
  physical memory in the layout of section 4.3 of the Intel 64 and IA-32 SDM, Volume 3A. Mapping refines an
  update of the translation; the six loops of `fork_mem_cpy` copy the address space.
- **Message queues and mailboxes** (`IpcChannel.dfy`, `IpcRuns.dfy`, `IpcTable.dfy`, `MsgQueue.dfy`,
  `Box.dfy`). Both are one blocking bounded channel with selective receive; a message queue keys messages by
  type, a mailbox by sender. Every interrupt-free section is one step of a run, which is the one-CPU reading
  of the code.
- **Scheduling** (`ReadyQueue.dfy`, `Balance.dfy`, `Smp.dfy`, `Creation.dfy`, `Scheduler.dfy`). Doubly linked
  ready queues at addresses of a node store, load balancing and its convergence, PCB allocation under its
  lock, the choice of the next process, and bounded waiting over runs.

`Basics.dfy` holds the notions they share. `dafny verify dfyconfig.toml` checks everything.

Where the code does not do what one would expect of it, the model follows the code, and the exact condition
is proved:

- A split at a wall leaves an extent of size 0 in the list exactly when a free extent starts one page below
  the wall, which at boot means that the second page below the wall is bad while the pages on both sides of
  the wall are usable (`MemZones.SplitNormal`, `MemZones.BootList`, such a report in
  `MemZones.BadReportExists`). Such an extent does no harm to the zones (`MemZones.ZoneSeparation`).
- `do_rdwt` counts bytes down from the length asked for, not from the end position it has computed, and
  clips only the sector range: a transfer stays within the size or capacity exactly when the request does
  (`FsFile.MovedWithinLimit`). A write beyond the capacity goes on for at most a sector in the next slot, whose
  file keeps its bytes if and only if it begins with those very bytes (`FsVolume.NeighbourKeptExactly`), and
  it breaks the volume, as the size then exceeds the capacity (`FsVolume.VolumeKeptExactly`); the
  first two files of a fresh volume are such neighbours (`FsVolume.FirstTwoFiles`). A read beyond the size
  reads on and makes the file larger (`FsFile.DoRead`).
- Removing the last directory entry sets the directory size to the number of live entries. The directory
  stays in order if and only if no live entry came after a free one (`FsRoot.UnlinkKeepsDir`). As
  `search_file` looks at one entry too many, it may still find every name when that fails
  (`FsNames.OneHoleIsReached`): every other name resolves as before if and only if no live entry lies behind
  the entries it then looks at (`FsNames.ShrunkResolves`, `FsRoot.UnlinkResolvesAll`, with a directory that
  loses a name in `FsNames.ShrinkCanCutOff`).
- `mkfs` writes only the first sector of the root directory, so the directory is in order if and only if the
  rest of its extent held no entries before (`FsMkfs.Mkfs`, `FsMkfs.InitFs`).
- `do_unlink` refuses an open or special file after taking a reference to its inode, and does not give the
  reference back (`FsOps.DoUnlink`).
- The last slot of the sector map may lie past the end of the partition, depending on its size; on the
  shipped disk image it does not (`FsMkfs.LastSlotOnDisk`, `FsMkfs.ShippedGeometry`).
- `search_file` looks at one entry more than the directory has, which is harmless as long as unused bytes
  are zero (`FsNames.SearchStopsInTime`).
- `fork_mem_cpy` leaves the parent's scratch page mapped, writable, to the frame of the child's page copied
  last (`Fork.ForkMemCpy`).
- `resort_ready_proc` follows a null pointer on fewer than three nodes and drops the last of three
  (`ReadyQueue.ResortOfThree`); it leaves a queue if and only if there are four nodes or more
  (`ReadyQueue.ResortExactly`).
- `load_balance` follows a null pointer if and only if it would move a last node or append to an empty queue
  (`Smp.SafeExactly`). Two balancings after boot are enough for that (`Smp.BalancingTwiceAfterBoot`).
- When no PCB is free, `alloc_PCB` returns with its lock held, and nobody allocates ever again
  (`Creation.StuckForever`); creating 48 processes from boot on gets there (`Creation.StuckAfterAll`).
- `box_push_node` redirects its argument from thread to parent again on every retry. A process table stays
  such that this makes no difference as long as no thread forks; a fork by a thread makes a child of type
  thread whose parent is a thread (`Box.ForkSettlesExactly`). Then a woken sender goes to another mailbox,
  and a wake-up is lost (`Box.ThreadForkLosesWakeUp`): all runs on a given table are in order if and only if
  no thread's parent is redirected elsewhere (`Box.OrderExactlyIfSettled`).
- `cpu_schedule` never returns if no member is eligible and none would be after a refill
  (`Scheduler.RefillsInVain`); in all other cases it refills at most once.
- `schedule` marks a process that is chosen again READY, not RUNNING (`Scheduler.RoundKeepsOneRunning`).

## Model

| member | source | states |
|---|---|---|
| `FreeList.NormalFormUnique` | kernel/memman.c:221-276 | two sorted, disjoint, non-touching lists without empty extents that cover the same bytes are the same list |
| `FreeList.FreedIsUnion` | kernel/memman.c:221-276 | freeing a region disjoint from a sorted list gives a sorted list whose bytes are exactly the union, whichever neighbours it merges with; a normal list stays normal |
| `FreeList.FreedTotal` | kernel/memman.c:221-276 | freeing adds exactly the size of the region to the free total |
| `FreeList.TakenIsDifference` | kernel/memman.c:120-219 | an allocation keeps the list sorted, and normal if it was, removes exactly the bytes handed out, all of which were free, and lowers the total by the size |
| `FreeList.FreeUndoesAlloc` | kernel/memman.c:120-276 | freeing what was just allocated gives back exactly the list before, also when the array is full |
| `FreeList.FreeRunIsUnion` | kernel/memman.c:221-276 | a run of frees that loses nothing ends in the normal list of all the bytes together |
| `FreeList.FreeOrderIrrelevant` | kernel/memman.c:221-276 | the same regions freed in any order give the same list |
| `MemMan.AllocMeaning` | kernel/memman.c:120-219 | a first-fit allocation within a zone returns an address whose bytes were all free and in the zone and are no longer free, the lowest start of an extent that is large enough, or fails and changes nothing exactly when no extent fits |
| `MemMan.Manager.constructor` | kernel/memman.c:111-118 | an empty list with all counters 0 |
| `MemMan.Manager.Free` | kernel/memman.c:221-276 | the array loops compute the merged list; without room the list stays and the lost counters are raised |
| `MemMan.Manager.DoFree` | kernel/memman.c:303-306 | on a region disjoint from the free bytes the result is their union, or a refusal of a full list; a normal list stays normal |
| `MemMan.Manager.Insert` | kernel/memman.c:255-269 | shifting opens a place for the extent and keeps all others in order; the high-water mark follows |
| `MemMan.Manager.AllocIn` | kernel/memman.c:120-219 | the search loop takes the first extent of the zone that fits and cuts its head, or removes it when used up |
| `MemMan.Manager.Alloc` | kernel/memman.c:120-143 | first fit between 8M and 16M, with what that means for the bytes |
| `MemMan.Manager.KAlloc` | kernel/memman.c:145-169 | first fit between 6M and 8M, with what that means for the bytes |
| `MemMan.Manager.Alloc4K` | kernel/memman.c:171-194 | one page between 16M and 32M, with what that means for the bytes |
| `MemMan.Manager.KAlloc4K` | kernel/memman.c:196-219 | one page between 4M and 6M, with what that means for the bytes |
| `MemMan.Manager.FreeTotal` | kernel/memman.c:325-332 | the sum of the extent sizes, modulo 2^32 |
| `MemMan.Manager.SplitWall` | kernel/memman.c:33-53 | the extent across the wall, if any, becomes two with one page between them |
| `MemMan.Manager.FreeBefore` | kernel/memman.c:26-31 | one entry of the memory report frees the memory before it and moves the start behind it |
| `MemMan.Manager.Init` | kernel/memman.c:17-97 | the list after boot is the split list of the report's gaps, and nothing is lost |
| `MemZones.BootIsUsable` | kernel/memman.c:26-31 | after any number of report entries the list is normal, page aligned and covers exactly the usable bytes so far |
| `MemZones.SplitBytes` | kernel/memman.c:33-89 | a split gives up exactly one page below the wall and nothing else |
| `MemZones.SplitNormal` | kernel/memman.c:33-89 | a split keeps the list sorted; it leaves an empty extent exactly when an extent starts one page below the wall |
| `MemZones.SplitAllNormal` | kernel/memman.c:33-89 | all three splits together: still sorted, the bytes before less the pages given up, an empty extent exactly when some wall is that narrow |
| `MemZones.BootList` | kernel/memman.c:17-97 | the boot list is sorted, covers exactly the usable bytes less the pages given up and has no extent across a wall; it is normal if and only if at no wall the second page below it is bad while the pages on both sides of the wall are usable |
| `MemZones.BadReportExists` | kernel/memman.c:17-97 | a memory report at which the boot list has an empty extent |
| `MemZones.TakeIsAlloc` | kernel/memman.c:120-219 | the four allocators with their bounds are the allocations of the four zones |
| `MemZones.TakeKeeps` | kernel/memman.c:120-219 | an allocation keeps: free list sorted, grants disjoint and in their zones, page grants aligned, empty extents out of the way, bytes conserved |
| `MemZones.GiveKeeps` | kernel/memman.c:221-276 | freeing a grant keeps the same, a refused region counting as lost |
| `MemZones.RunKeeps` | kernel/memman.c:120-276 | every run of allocations and frees of what was allocated keeps it, free, held and lost bytes adding up to those at the start |
| `MemZones.ZoneSeparation` | kernel/memman.c:17-276 | from boot with any report through any run no free block crosses the 6M, 8M or 16M wall, every grant comes from its own zone and every page grant is page aligned |
| `FsDisk.SetBitAt` | kernel/fs.c:1092-1104 | setting a bit of a byte sets that bit and no other |
| `FsDisk.ClearBitAt` | kernel/fs.c:1544-1558 | clearing a bit of a byte clears that bit and no other |
| `FsMap.ScanSector` | kernel/fs.c:1150-1186 | one map sector's share of the search and of the bits to set |
| `FsMap.AllocSmapBit` | kernel/fs.c:1136-1191 | finds the first clear bit of the map and sets exactly the run of bits from it, across sectors, without looking at the others |
| `FsMap.ClearSmapBits` | kernel/fs.c:1571-1611 | first byte, whole bytes and last byte together clear exactly the given range, for every start and count and any number of sectors |
| `FsMap.AllocImapBit` | kernel/fs.c:1073-1125 | takes the first clear bit of the inode map, or returns 0 and changes nothing when there is none |
| `FsMap.ClearImapBit` | kernel/fs.c:1546-1558 | clears exactly one inode map bit |
| `FsMap.ClearUndoesAlloc` | kernel/fs.c:1136-1191 | clearing restores the map before the allocation if and only if the whole range was clear then |
| `FsInode.PutLe32At` | kernel/fs.c:948-975 | a stored 32-bit field reads back and disturbs no other |
| `FsInode.StoreInodeAt` | kernel/fs.c:961-975 | storing an inode in a sector changes that inode only |
| `FsInode.InodeLayout` | kernel/fs.c:948-975 | inode n is 32 bytes behind inode n - 1, the first one behind the maps: mode, size, first sector and number of sectors as little-endian words |
| `FsInode.GetInodeSched` | kernel/fs.c:867-921 | returns the table slot of the inode, with one more reference, holding what the disk holds; the cache stays coherent |
| `FsInode.GotCoherent` | kernel/fs.c:867-921 | getting an inode keeps the cache coherent: no inode twice, every used slot equal to the disk |
| `FsInode.PutInode` | kernel/fs.c:933-938 | one reference less, all else unchanged |
| `FsInode.GetThenPut` | kernel/fs.c:867-938 | getting an inode and giving it back leaves the table as it was, or an unreferenced slot |
| `FsInode.PutCoherent` | kernel/fs.c:933-938 | giving a reference back keeps the cache coherent |
| `FsInode.SyncInode` | kernel/fs.c:948-975 | writes the slot's inode to its place |
| `FsInode.SyncWritesOne` | kernel/fs.c:948-975 | on the disk exactly that inode changes: not the other fifteen of its sector, not any other sector |
| `FsInode.SyncCoherent` | kernel/fs.c:948-975 | changing a used slot and syncing it keeps the cache coherent |
| `FsInode.ElsewhereCoherent` | kernel/fs.c:867-975 | writes outside the inode sectors keep the cache coherent |
| `FsInode.NewInode` | kernel/fs.c:982-999 | the slot of the inode, or a free one if it is not cached, and the disk both hold an empty regular file with 2048 sectors from the given start; the slot has one reference; the cache stays coherent |
| `FsFile.MovedWithinLimit` | kernel/fs.c:1366-1380 | how many bytes a transfer moves: never more than asked, within the limit if and only if the request is |
| `FsFile.ReadLoop` | kernel/fs.c:1382-1428 | the sector loop copies out consecutive bytes from the position |
| `FsFile.WriteLoop` | kernel/fs.c:1382-1428 | the sector loop changes exactly the bytes from the position on, at any alignment |
| `FsFile.GrowTo` | kernel/fs.c:1430-1437 | the size becomes the larger of size and position, in the slot and on the disk |
| `FsFile.DoRead` | kernel/fs.c:1315-1439 | returns the bytes at the position, advances it and keeps the cache coherent |
| `FsFile.DoWrite` | kernel/fs.c:1315-1439 | changes exactly the bytes from the position on, advances it, sets the size to the maximum and keeps the cache coherent |
| `FsFile.DoLseek` | kernel/fs.c:1695-1726 | the position becomes off, moves by off, or becomes size plus off, and is returned, unless that lies outside the file or whence is another one, which fails and leaves it |
| `FsFile.WriteSeekRead` | kernel/fs.c:1315-1439 | writing within the capacity, seeking back and reading returns the bytes written |
| `FsBytes.WriteWithin` | kernel/fs.c:1315-1439 | a write within the capacity lays its data over the bytes of the file at the position and changes no other, the file growing only as far as the data reaches |
| `FsBytes.ReadWithin` | kernel/fs.c:1315-1439 | a read within the size gives the bytes of the file at the position and leaves the file as it was |
| `FsBytes.ReadBeyond` | kernel/fs.c:1366-1437 | a read past the size makes the file longer, up to where it stops |
| `FsBytes.Tell` | kernel/fs.c:1695-1726 | SEEK_CUR by 0 gives the position, SEEK_END by 0 the size |
| `FsBytes.SetThenMove` | kernel/fs.c:1695-1726 | SEEK_SET to p and SEEK_CUR by k land where SEEK_SET to p + k does, or fail when it fails |
| `FsBytes.WriteStepBackRead` | kernel/fs.c:1695-1726 | a write, a SEEK_CUR back by its length and a read return the bytes written |
| `FsBytes.Append` | kernel/fs.c:1695-1726 | a write after SEEK_END leaves the earlier bytes followed by the data |
| `FsDir.StripPath` | kernel/fs.c:674-698 | one leading slash is dropped, another one is an error, names are cut at twelve bytes |
| `FsDir.StripBoth` | kernel/fs.c:674-698 | a name is itself, the same with a slash in front, and an error with two |
| `FsDir.EntryLayout` | kernel/fs.c:1011-1060 | entry m is 16 bytes behind entry m - 1: the inode number and then twelve bytes of name |
| `FsDir.PadInjective` | kernel/fs.c:538-566 | names of up to eleven bytes are equal when their padded fields are |
| `FsDir.SearchFile` | kernel/fs.c:599-643 | the number of the first entry with the name, 0 if none, the directory itself for the empty name |
| `FsDir.FindFreeEntry` | kernel/fs.c:1017-1042 | the first free entry, or the one just behind the last |
| `FsDir.FirstFreeMeaning` | kernel/fs.c:1017-1042 | every entry before it is in use |
| `FsDir.NewDirEntry` | kernel/fs.c:1011-1060 | writes the entry into the first free place, grows the directory by one entry only if there was none, also when the last sector is full |
| `FsDir.FindNrMeaning` | kernel/fs.c:1624-1652 | the entry removed is the first with the inode number |
| `FsDir.FindEntry` | kernel/fs.c:1624-1652 | finds the entry and the directory size up to it |
| `FsDir.RemoveDirEntry` | kernel/fs.c:1624-1666 | zeroes the entry and, if it was the last, shrinks the directory; without such an entry nothing changes |
| `FsDir.ShrinkKeepsLive` | kernel/fs.c:1654-1666 | the new size covers every live entry if and only if there are no holes |
| `FsNames.EntryAfter` | kernel/fs.c:1044-1058 | writing one entry changes no other entry |
| `FsNames.SearchStopsInTime` | kernel/fs.c:620-640 | the search looks at more entries than there are and still finds only those |
| `FsNames.AddedResolves` | kernel/fs.c:1011-1060 | after adding, the new name resolves to its inode and every other name as before |
| `FsNames.AddedClean` | kernel/fs.c:1011-1060 | adding keeps the unused entries zero |
| `FsNames.NewDirEntryAdds` | kernel/fs.c:1011-1060 | what new_dir_entry writes is such an addition |
| `FsNames.RemoveDirEntryRemoves` | kernel/fs.c:1624-1652 | what the removal writes takes away that entry only |
| `FsNames.RemovedResolves` | kernel/fs.c:1624-1652 | with the size kept every other name resolves as before, the removed one to the next entry that has it, if any, and as before if an earlier one has it |
| `FsNames.ShrunkResolves` | kernel/fs.c:1654-1666 | after the removal of the last entry and the shrinking, search_file gives for every other name what it gave before if and only if no live entry lies behind the entries it then looks at |
| `FsNames.ShrunkLosesName` | kernel/fs.c:1654-1666 | with a live entry behind them there is a name that search_file found and no longer does |
| `FsNames.ShrinkCanCutOff` | kernel/fs.c:1654-1666 | a directory sector in which removing the last of five entries makes search_file miss a live file |
| `FsNames.OneHoleIsReached` | kernel/fs.c:620-640 | a directory sector with a hole in which the one entry too many that search_file looks at saves every name |
| `FsVolume.ExtentsDisjoint` | kernel/fs.c:1136-1191 | the extents of the root directory and of all live files lie behind the metadata, on the disk, and do not overlap |
| `FsVolume.FirstClearOpensSlot` | kernel/fs.c:1136-1191 | while a slot is free, the first clear bit opens a slot of 2048 bits that are all clear |
| `FsVolume.CreateKeeps` | kernel/fs.c:497-535 | creating keeps the volume invariant with one more file in a slot that was free |
| `FsVolume.UnlinkKeeps` | kernel/fs.c:1485-1670 | unlinking keeps it with one file less |
| `FsVolume.DoWriteIsStep` | kernel/fs.c:1315-1439 | a do_rdwt write asked for no more than the capacity moves all of it and is a write step of the runs |
| `FsVolume.WriteKeeps` | kernel/fs.c:1315-1439 | an in-capacity write keeps it |
| `FsVolume.RunKeeps` | kernel/fs.c:1136-1611 | every run keeps it: the sector map is bit 0 and one whole slot per live extent |
| `FsVolume.FileIsolation` | kernel/fs.c:1315-1439 | over a whole run of creates, writes and unlinks that are not about file x, x keeps its inode and every byte |
| `FsVolume.OverrunHitsNext` | kernel/fs.c:1366-1437 | a write up to or past the capacity leaves the inode of the file in the next slot and replaces its first bytes by those past the capacity, at most a sector of them |
| `FsVolume.NeighbourKeptExactly` | kernel/fs.c:1366-1437 | whatever write is asked for, the file in the next slot keeps inode and bytes if and only if it begins with the bytes past the capacity |
| `FsVolume.OthersKeptAnyway` | kernel/fs.c:1366-1437 | every file in another slot keeps inode and bytes, and so does every other file when the request is in capacity |
| `FsVolume.VolumeKeptExactly` | kernel/fs.c:1366-1437 | after a write the volume invariant holds if and only if the request was in capacity |
| `FsVolume.WriteCanSpoil` | kernel/fs.c:1366-1437 | at every position of a file with a neighbour some request one byte past the capacity changes the neighbour |
| `FsVolume.CreatedLowest` | kernel/fs.c:1136-1191 | a created file gets the lowest slot that is not taken |
| `FsVolume.FirstTwoFiles` | kernel/fs.c:497-535 | the first two files of a fresh volume lie in slots 1 and 2, and a write of one byte more than the capacity to the first changes the second |
| `FsRoot.FullListing` | kernel/fs.c:1011-1060 | a directory without a free entry has fewer entries than there are inode numbers, so it never outgrows its extent |
| `FsRoot.ResolvesMeaning` | kernel/fs.c:599-643 | a name resolves to the number in an entry that has it, and to 0 only if no entry of the whole extent has it |
| `FsRoot.AddedLists` | kernel/fs.c:1011-1060 | the directory with the new entry lists one number more, each number once, all names distinct, unused entries zero |
| `FsRoot.AddedNames` | kernel/fs.c:1011-1060 | new_dir_entry, then search_file: the new name gives its number and every other name what it gave before |
| `FsRoot.CreateKeepsDir` | kernel/fs.c:497-535 | create_file keeps volume and directory in order with one more file |
| `FsRoot.CreateResolves` | kernel/fs.c:497-535 | after create_file the name resolves to the new inode and every other name as before |
| `FsRoot.RemovedLists` | kernel/fs.c:1624-1666 | after the removal the directory lists the other numbers if and only if the entry was not the last or no live entry before it came after a free one |
| `FsRoot.RemovedNames` | kernel/fs.c:1624-1666 | after the removal exactly the names of that file and those whose entry the search no longer reaches resolve to nothing, all others as before |
| `FsRoot.UnlinkKeepsDir` | kernel/fs.c:1485-1670 | do_unlink keeps the volume in order, and the directory if and only if no live entry is cut off |
| `FsRoot.UnlinkResolves` | kernel/fs.c:1485-1670 | what every name resolves to after do_unlink |
| `FsRoot.UnlinkResolvesAll` | kernel/fs.c:1485-1670 | every name but the removed one resolves as before if and only if the search reaches all other entries within the new size |
| `FsRoot.ShrinksWellReaches` | kernel/fs.c:1624-1666 | it does when no live entry is cut off |
| `FsRoot.WriteKeepsDir` | kernel/fs.c:1315-1439 | a write to a live file other than the root directory keeps volume and directory in order and changes no entry |
| `FsRuns.CallIsStep` | kernel/fs.c:497-535 | every call on the named files is a step of the volume that leaves the same files alone |
| `FsRuns.CallsKeep` | kernel/fs.c:364-535 | in every state of every run of opens, writes and removals that cut off nothing, volume and directory are in order |
| `FsRuns.OpenedIsEmpty` | kernel/fs.c:497-535 | a file just created is regular and empty, its name leads to it, and its 2048 sectors were free |
| `FsRuns.UnlinkGivesBack` | kernel/fs.c:1540-1622 | a removal zeroes the inode and clears its map bit and those of its sectors, and there is room for another file |
| `FsRuns.NameKept` | kernel/fs.c:599-643 | over such a run a name keeps resolving to its file until that is unlinked |
| `FsRuns.FileKept` | kernel/fs.c:1315-1439 | over such a run a file that no call unlinks or writes keeps its name, its inode and every byte |
| `FsOps.ComposeCreated` | kernel/fs.c:497-535 | the five disk writes of a creation in their order amount to one create step, its bytes in the root directory included |
| `FsOps.CreateFile` | kernel/fs.c:497-535 | creating file f is a create step that writes the entry of f, with the new number, over the first free one; the new slot holds its inode, and the other slots keep theirs |
| `FsOps.ReadyAfterCreate` | kernel/fs.c:497-535 | after it volume, directory and inode cache are in order for the next call |
| `FsOps.OpenCreate` | kernel/fs.c:364-470 | a name that resolves is refused with nothing changed; else the file is created, its name resolves to it and every other name as before, all is in order for the next call, and it was an open step of the runs |
| `FsOps.ComposeUnlinked` | kernel/fs.c:1540-1666 | the disk writes of an unlink amount to one unlink step, its bytes in the root directory included |
| `FsOps.RemoveFile` | kernel/fs.c:1540-1666 | removing a file that nobody else has open is an unlink step that zeroes its directory entry, and frees its slot |
| `FsOps.ReadyAfterUnlink` | kernel/fs.c:1540-1666 | after it all is in order for the next call if and only if no live entry was cut off |
| `FsOps.NamesLead` | kernel/fs.c:1485-1540 | in an ordered directory a name leads to an inode in use whose number has an entry, and it is a regular file exactly if it is a live file other than the root |
| `FsOps.DoUnlink` | kernel/fs.c:1485-1670 | succeeds exactly for a regular file with no other reference; a refusal leaves the disk alone, keeps the reference it took and leaves all in order; after a removal all is in order if and only if no live entry was cut off, which makes it a step of the runs, and each name resolves accordingly |
| `FsOps.ReadyAfterWrite` | kernel/fs.c:1315-1439 | after a write step to a live file other than the root all is in order and every name resolves as before |
| `FsOps.WriteOpen` | kernel/fs.c:1315-1439 | an in-capacity write to an open file moves all bytes and leaves all in order, every name resolving as before; it is a write step of the runs |
| `FsOps.WriteAny` | kernel/fs.c:1315-1439 | a write of any length to an open file: of the other files only the one in the next slot can change, and it stays if and only if it begins with the bytes past the capacity; the volume stays in order if and only if the request is in capacity |
| `FsMkfs.Mkfs` | kernel/fs.c:126-282 | on any disk a fresh volume satisfies the volume invariant with only the root directory live; the terminals have map bits and inodes with their device numbers; the directory is in order if and only if the sectors of its extent that mkfs does not write held no entries |
| `FsMkfs.NamesAfterMkfs` | kernel/fs.c:240-269 | dev_tty0 to dev_tty2 lead to inodes 2 to 4, and "." to the root |
| `FsMkfs.NewVolume` | kernel/fs.c:170-260 | the maps and the root inode as written are the invariant for one extent |
| `FsMkfs.InitFs` | kernel/fs.c:79-112 | on a disk with a file system in order nothing is written and all is in order for the first call with the files there were; else the disk is formatted, and that holds with no files if and only if the rest of the root extent held no entries |
| `FsMkfs.ShippedGeometry` | kernel/fs.c:126-165 | on the shipped image every slot of the map lies on the partition |
| `FsMkfs.LastSlotOnDisk` | kernel/fs.c:126-165 | the last slot of the map lies on the partition if and only if the partition reaches far enough into its last map sector |
| `Paging.IndexSplit` | kernel/pagetbl.c:198-216 | the two indices are the page number divided by 1024 and its remainder |
| `Paging.EntryFields` | kernel/pagetbl.c:287-308 | an entry gives back its frame and its attributes |
| `Paging.PlainWrite` | kernel/pagetbl.c:350-426 | writing a frame that is neither directory nor table changes no translation |
| `Paging.LinkTable` | kernel/pagetbl.c:287-299 | entering a zeroed table in a directory changes no translation of any directory |
| `Paging.WritePte` | kernel/pagetbl.c:301-308 | writing a table entry changes the translation of exactly one page of one directory |
| `PageMap.Machine.FindTable` | kernel/pagetbl.c:350-385 | finds the page table or makes one, changing no translation |
| `PageMap.Machine.LinMappingPhy` | kernel/pagetbl.c:350-426 | on success exactly one page of one directory changes its translation, or none when it has a frame and allocation was asked for; failure changes none |
| `PageMap.OneFramePerTable` | kernel/pagetbl.c:350-385 | a page table costs one kernel frame when it is made and none afterwards |
| `PageMap.Machine.NewCr3` | kernel/pagetbl.c:49-75 | a directory of its own that maps nothing, other directories unaffected |
| `PageMap.Machine.InitPagePte` | kernel/pagetbl.c:49-97 | the new directory maps exactly 3G..3G+8M to 0..8M and nothing else; all other directories translate as before |
| `Fork.GetPagePhyAddr` | kernel/pagetbl.c:244-252 | the address of the frame the page translates to |
| `Fork.ShareTextPage` | kernel/fork.c:106-113 | the child maps the parent's frame read-only, nothing else changes |
| `Fork.CopyPage` | kernel/fork.c:118-130 | the child maps a fresh frame with the parent's words; in the parent only the scratch page moves |
| `Fork.ForkStep` | kernel/fork.c:116-182 | one more copied page extends what holds of the pages copied before |
| `Fork.ForkedCopies` | kernel/fork.c:101-184 | what the loops have established says that the address space was copied |
| `Fork.PagesAre` | kernel/fork.c:101-184 | the pages copied or shared are those that some loop reaches: text, data, vpage, heap and arguments upwards from the base, the stack downwards |
| `Fork.EveryPageReadsTheSame` | kernel/fork.c:101-184 | in the fields of the memory map: every page of every page-aligned region reads the same in child and parent |
| `Fork.ForkMemCpy` | kernel/fork.c:101-184 | every page from base to limit of every page-aligned region reads the same in child and parent as before, text frames are shared, all other child frames are fresh and pairwise distinct, the parent is translated differently only at the scratch page, which is left on the frame of the page copied last, no third process at all |
| `IpcChannel.PutQueue` | kernel/msgqueue.c:158-168 | a send appends the first min(size, 128) bytes to the queue and keeps idle and used nodes a partition of ten |
| `IpcChannel.TakeQueue` | kernel/msgqueue.c:214-223 | a receive removes one message, keeps the order of the others and the partition |
| `IpcChannel.OfWithout` | kernel/msgqueue.c:379-393 | selective receive takes the oldest message of its key and disturbs no other key |
| `IpcChannel.FirstMsgNone` | kernel/msgqueue.c:379-393 | the search fails if and only if no message has the key |
| `IpcChannel.Channel.constructor` | kernel/msgqueue.c:285-330 | ten idle nodes, no message, nobody waiting |
| `IpcChannel.Channel.Send` | kernel/msgqueue.c:113-172 | one section of a push: stores, parks or refuses, and wakes the first receiver parked for the key |
| `IpcChannel.Channel.Receive` | kernel/msgqueue.c:174-226 | one section of a pop: delivers, parks or refuses, and wakes the first parked sender |
| `IpcChannel.Channel.Close` | kernel/msgqueue.c:519-532 | both parking queues are emptied, everybody in them dismissed with -1 |
| `IpcRuns.SectionKeeps` | kernel/msgqueue.c:113-226 | a section keeps the wake-up invariant of its channel, counting the caller as one that is trying again |
| `IpcRuns.SectionTouches` | kernel/msgqueue.c:395-516 | a section changes the caller if it parks, which makes it WAITING without ticks, and processes parked at the same channel, which it makes READY with ticks of their priority; nobody else |
| `IpcRuns.FirstComeFirstWoken` | kernel/msgqueue.c:395-516 | a call stores, delivers, parks or is refused as the nodes allow; a message wakes the first receiver parked for its key, a free node the sender parked longest, and the others keep their order |
| `IpcRuns.CloseDismisses` | kernel/msgqueue.c:84-111 | closing makes exactly those parked at the channel READY with ticks of their priority and the mark -1, and changes nobody else |
| `IpcRuns.StepKeeps` | kernel/msgqueue.c:84-226 | every step keeps the invariant of all channels |
| `IpcRuns.RunKeeps` | kernel/msgqueue.c:84-226 | every reachable state satisfies it |
| `IpcRuns.NoLostWakeUp` | kernel/msgqueue.c:113-226 | whoever is parked is parked at an open channel; a parked sender means there are no more idle nodes than woken senders, a parked receiver no more messages of its key than woken receivers of it |
| `IpcRuns.CallersRun` | kernel/msgqueue.c:395-532 | in every reachable state a process in a call is WAITING without ticks while parked, and READY with ticks of its priority once woken or dismissed |
| `IpcRuns.FifoPerKey` | kernel/msgqueue.c:113-226 | per key the messages received are a prefix of those sent, the rest is queued, and the ten nodes are all accounted for |
| `IpcRuns.ReceiveDelivers` | kernel/msgqueue.c:214-226 | a receive gets a message if and only if one of its key is outstanding, and then the oldest one, cut to its size, and the smaller of the two sizes as length |
| `MsgQueue.AllocKeepsDistinct` | kernel/msgqueue.c:60-82 | keys stay distinct, asking again gives the same queue, a new one is in the last free slot, failure means ten queues with other keys |
| `MsgQueue.MsgQueues.constructor` | kernel/msgqueue.c:35-58 | ten free slots without channels |
| `MsgQueue.MsgQueues.Alloc` | kernel/msgqueue.c:60-82 | the queue with the key, else the last free slot, else -1 |
| `MsgQueue.MsgQueues.Free` | kernel/msgqueue.c:84-111 | the slot holds no key and is free, the others are as before, its channel is gone and everybody parked at it dismissed |
| `MsgQueue.MsgQueues.FreeThenUse` | kernel/msgqueue.c:84-226 | after a free both calls on the queue are refused, and a queue is there for any key |
| `MsgQueue.AllocAfterFree` | kernel/msgqueue.c:60-111 | once a queue was given back every key gets a queue |
| `MsgQueue.MsgQueues.Push` | kernel/msgqueue.c:113-172 | refused on a queue that is not allocated, else one section on the channel, which is made at the first use |
| `MsgQueue.MsgQueues.Pop` | kernel/msgqueue.c:174-226 | the same for receiving |
| `MsgQueue.CallIsSection` | kernel/msgqueue.c:113-226 | the calls of the runs do what Push and Pop do |
| `MsgQueue.SystemStepKeeps` | kernel/msgqueue.c:60-226 | every action keeps keys distinct, channels only on allocated slots and the wake-up invariant |
| `MsgQueue.SystemRunKeeps` | kernel/msgqueue.c:60-226 | every reachable state of the message queues does |
| `MsgQueue.SystemCallers` | kernel/msgqueue.c:395-532 | in every reachable state a process in a call is WAITING without ticks or READY with ticks of its priority, as its mark says |
| `MsgQueue.FreedQueueRefuses` | kernel/msgqueue.c:84-226 | a call on a freed queue changes neither channels nor processes |
| `Box.RetryFindsSameBox` | kernel/box.c:178-206 | redirecting twice reaches the same mailbox for every argument if and only if no thread's parent is redirected elsewhere |
| `Box.PthreadSettles` | kernel/pthread.c:196-201 | pthread keeps the process table so |
| `Box.ForkSettlesExactly` | kernel/fork.c:275-277 | fork does if and only if the one who forks is not redirected itself |
| `Box.Boxes.Alloc` | kernel/box.c:105-136 | makes the mailbox of the owning process, or -1 when out of range or there already |
| `Box.Boxes.Free` | kernel/box.c:138-165 | removes it and dismisses everybody parked at it |
| `Box.Boxes.Push` | kernel/box.c:167-222 | one section on the receiver's mailbox, keyed by the sender's own slot; the argument is left redirected |
| `Box.Boxes.Pop` | kernel/box.c:224-277 | one section on one's own mailbox for messages of one sender; success is 0 |
| `Box.BoxStepKeeps` | kernel/box.c:105-277 | mailbox calls are channel steps and, with new threads and processes but no fork by a thread, keep: receivers wait at their own box, senders under their own key, nobody who is redirected has a box |
| `Box.BoxRunKeeps` | kernel/box.c:105-277 | from boot, or any other table without such threads, every state of every run in which no thread forks is so, with the wake-up invariant |
| `Box.BoxCallers` | kernel/box.c:280-480 | in these runs a process in a call is WAITING without ticks or READY with ticks of its priority, as its mark says |
| `Box.LostWakeUp` | kernel/box.c:178-206 | a run on from any table in which some thread's parent is redirected elsewhere that ends with an idle node, a parked sender and nobody woken |
| `Box.OrderExactlyIfSettled` | kernel/box.c:167-277 | while no PCB is made, every run keeps the wake-up invariant if and only if no thread's parent is redirected elsewhere |
| `Box.ThreadForkLosesWakeUp` | kernel/fork.c:275-277 | from boot on: a thread is made, it forks, and a sender to its child loses a wake-up |
| `ReadyQueue.LinkedChain` | kernel/proc.c:843-860 | appending keeps prev, next, front, rear and count consistent |
| `ReadyQueue.UnlinkedChain` | kernel/proc.c:1106-1118 | unlinking the fourth node does, and leaves the first three in place |
| `ReadyQueue.MoveDefinedExactly` | kernel/proc.c:1101-1141 | a move follows no null pointer if and only if the fourth node is not the last and the destination is not empty |
| `ReadyQueue.RelinkedChain` | kernel/ktest.c:1079-1093 | on four nodes and more the pointer writes move the last node to the third place and keep the list consistent |
| `ReadyQueue.ResortOfThree` | kernel/ktest.c:1079-1093 | on three nodes the last one drops out while still counted |
| `ReadyQueue.ResortExactly` | kernel/ktest.c:1079-1093 | no null pointer is followed if and only if there are three nodes or more; a queue is left if and only if there are four or more, and then the last is third |
| `Smp.CpuList.Add` | kernel/proc.c:843-860 | the process is last in that CPU's queue, all queues consistent and disjoint |
| `Smp.CpuList.Resort` | kernel/ktest.c:1079-1093 | the last process is third, nothing else moves |
| `Smp.CpuList.MoveReadyProc` | kernel/proc.c:1101-1141 | the fourth process of one queue becomes the last of another, all lists consistent |
| `Smp.CpuList.FindBusiest` | kernel/proc.c:1072-1091 | a CPU with the longest queue, the first of these |
| `Balance.BusiestIsLongest` | kernel/proc.c:1072-1091 | no queue is longer, and those before it are shorter |
| `Smp.CpuList.MoveProcNum` | kernel/proc.c:1093-1096 | half the difference of the loads, rounded towards zero, for any two CPUs |
| `Smp.CpuList.LoadBalance` | kernel/proc.c:1146-1170 | moves that many processes from the busiest CPU, all lists consistent |
| `Smp.CpuList.BalanceReadyProc` | kernel/proc.c:547-630 | the boot distribution: initial and migration processes one each, the services on CPU 0 |
| `Smp.BootPlaces` | kernel/proc.c:547-630 | which processes each CPU has after boot |
| `Smp.MoveHolds` | kernel/proc.c:1101-1141 | the pointer writes of one move leave all lists consistent, with the queues of one move |
| `Smp.MovesDefinedExactly` | kernel/proc.c:1101-1170 | n moves in a row follow no null pointer if and only if n is 0, or the destination has a member and the source keeps more than three |
| `Smp.SafeExactly` | kernel/proc.c:1101-1170 | load_balance follows no null pointer if and only if its loads are safe |
| `Smp.BalancingTwiceAfterBoot` | kernel/proc.c:1115-1116 | four queues one balancing after boot at which the next balancing follows a null pointer |
| `Balance.MoveManyIs` | kernel/proc.c:1101-1141 | repeated moves take a block from behind the three that stay |
| `Balance.LongQueuesAreSafe` | kernel/proc.c:1101-1170 | with three entries and more everywhere no move takes a last node |
| `Balance.BalanceKeeps` | kernel/proc.c:1146-1170 | no process is lost or doubled, the first three of every queue and third CPUs stay, source and destination end level or one apart, and the sum of squared loads drops with every change |
| `Balance.FixpointIsLevel` | kernel/proc.c:1146-1170 | no CPU would move anything if and only if no two loads differ by more than one |
| `Balance.BalanceConverges` | kernel/proc.c:1146-1170 | in a run of any length at most as many rounds move anything as the squared loads at the start add up to |
| `Creation.AllocPcb` | kernel/proc.c:802-820 | the first IDLE PCB behind the boot processes |
| `Creation.StepKeeps` | kernel/fork.c:32-91 | creation, balancing and resorting keep every process in at most one queue, once |
| `Creation.BootEntries` | kernel/proc.c:547-630 | each boot process is queued once |
| `Creation.RunKeeps` | kernel/pthread.c:30-105 | in every reachable state each process is linked at most once, and those that exist are linked |
| `Creation.SlotsDistinct` | kernel/proc.c:802-820 | no PCB is ever given to two creators |
| `Creation.StuckForever` | kernel/proc.c:807-819 | a failed allocation keeps the lock for ever |
| `Creation.StuckAfterAll` | kernel/proc.c:802-820 | a run from boot that gets there |
| `Scheduler.Cpu.Scan` | kernel/proc.c:675-688 | the first READY member with the most ticks, or 0 when none has any |
| `Scheduler.Cpu.Refill` | kernel/proc.c:702-709 | every member gets its base ticks, nothing else changes |
| `Scheduler.RefillMakesEligible` | kernel/proc.c:660-712 | one refill is enough when a READY member has base ticks |
| `Scheduler.RefillInVain` | kernel/proc.c:660-712 | otherwise a refill leaves nobody eligible, and another one would not either |
| `Scheduler.RefillsInVain` | kernel/proc.c:660-712 | otherwise no number of refills makes anybody eligible |
| `Scheduler.Cpu.CpuSchedule` | kernel/proc.c:634-717 | the current process if READY with ticks left, else the first READY member with the most ticks, after at most one refill, and one only if needed |
| `Scheduler.Cpu.Schedule` | kernel/proc.c:772-797 | the choice and the switch of states; what that means is in the lemmas on rounds |
| `Scheduler.RoundKeepsOneRunning` | kernel/proc.c:772-797 | only the current process is RUNNING after a round; chosen again, it is READY |
| `Scheduler.RoundStats` | kernel/proc.c:772-797 | the next process runs, the one preempted while RUNNING is READY, sleepers wake with the tick, and everybody else is in the state he was |
| `Scheduler.RoundTicks` | kernel/clock.c:23-71 | a tick costs the current process one tick, a yield all; apart from that ticks change only to the base ticks |
| `Scheduler.MostTicksRun` | kernel/proc.c:660-712 | whoever takes over was READY, with as many ticks as any READY member, after a refill if nobody had any |
| `Scheduler.EarliestOfEqualRuns` | kernel/proc.c:675-688 | and is the first of these in the queue |
| `Scheduler.YieldGivesWay` | kernel/proc.c:984-1036 | after sys_yield another READY member with ticks runs if there is one, and the one that yielded stays READY |
| `Scheduler.GoesOnWhileReady` | kernel/proc.c:652-657 | the current process is chosen again while it is READY with ticks |
| `Scheduler.StaysRunnable` | kernel/proc.c:772-797 | over runs of any length a process that is READY or RUNNING stays so until it sleeps or is parked |
| `Scheduler.SleepsUntilTick` | kernel/clock.c:23-71 | a sleeper stays asleep and off the CPU until the next tick, which makes it runnable |
| `Scheduler.StaysParked` | kernel/proc.c:660-712 | a parked process stays WAITING and off the CPU |
| `Scheduler.OnlyCurrentRuns` | kernel/proc.c:772-797 | over runs of any length only the current process is ever RUNNING |
| `Scheduler.NoRefill` | kernel/clock.c:23-71 | a process waiting with ticks prevents every refill |
| `Scheduler.WaitingRound` | kernel/proc.c:984-1036 | after a round it is current or waits on, and a clock tick was paid by the others |
| `Scheduler.BoundedWaiting` | kernel/proc.c:634-717 | until a READY process with ticks becomes current the clock ticks at most as often as the others had ticks together |
| `Scheduler.NoRefillWhileWaiting` | kernel/proc.c:660-712 | and no round refills before |

## Left out

- Interleavings of several CPUs inside a system call: steps are atomic as the masked interrupts or the locks make them on one CPU; the spin locks themselves are not modelled.
- Assembly, device drivers and interrupt set-up: the context switch is taken as given and the disk is an array of sectors that reads and writes synchronously.
- Semaphores, the read-write lock, the loader, the console, the keyboard and the test programs.
- The super block as bytes and `read_super_block`; one device is modelled, the root device.
- `do_close`, the descriptor tables of `do_open`, the character devices of `do_rdwt` and the special case of the path "/" in `do_unlink`: only table plumbing.
- `page_fault_handler`, `vmalloc` and the release of user frames.
- FsInode.GetInodeSched: a full inode table without the inode is outside the domain; the code prints a message and then writes through a null pointer.
- FsOps.CreateFile: full maps and a full inode table are outside the domain; the code goes on with inode 0, sector 0 or a null pointer.
- PageMap.Machine.FindTable: a missing table needs a free kernel frame; without one the code clears a page at an address made from -1 before it tests for failure.
- PageMap.Machine.LinMappingPhy: likewise for a missing table; running out of frames for the page itself is modelled.
- PageMap.Machine.NewCr3: needs a free kernel frame, as the failure is tested only after the frame was cleared.
- PageMap.Machine.InitPagePte: needs the three free kernel frames it uses, for the same reason.
- Smp.CpuList.Resort: on fewer than four nodes the list is no longer a queue or a null pointer is followed; ReadyQueue.ResortExactly says which.
- Smp.CpuList.MoveReadyProc: outside its domain a null pointer is followed (ReadyQueue.MoveDefinedExactly).
- Smp.CpuList.LoadBalance: loads that are not safe are the subject of Smp.SafeExactly.
- Smp.CpuList.FindBusiest: with every queue empty the code returns a pointer it never set.
- Fork.ForkMemCpy: regions must be mapped and must not share pages; the copies of PCB fields around it are not modelled.
- PageMap.Machine.KMalloc4K: the frame pools of the paging part are sequences of free frames; that the allocator hands out disjoint pages is proved in the memory part, and the two are not joined.
- FsDir.NewDirEntry: names of twelve bytes, which overrun the name field by their terminating zero, are outside the domain.
- FsVolume.FileIsolation: speaks of the bytes and the inode of a file; names are in FsRuns.FileKept.
- FsRuns.FileKept: runs with a removal that cuts off a live entry or a write past the capacity end there; what one such call does is in FsRoot.UnlinkResolvesAll and FsVolume.NeighbourKeptExactly.
- FsMkfs.Mkfs: partitions too small for the metadata and the root directory are outside the domain.
- Box.BoxRunKeeps: a PCB that becomes a thread or a process was not used before: it has no mailbox, and nobody waits for one at it; alloc_box would make one for any number.
- IpcChannel.Channel.Close: the nodes of a closed channel are simply gone; the calls that release their storage are left out because they pass a node where a descriptor of address and size is expected.
- Scheduler.Cpu.CpuSchedule: the queue is a sequence here; its linked form is the subject of ReadyQueue and Smp.
- Scheduler.BoundedWaiting: wake-ups by the IPC code, which give a process new ticks, do not occur in these runs; blocking does.
- Creation.StepKeeps: the steps of fork and pthread that do not touch the PCB table, the queues or the lock.
- Smp.CpuList.Add: do_kmalloc is a supply of new addresses and does not fail.
