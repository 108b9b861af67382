/** create_file, do_open with O_CREAT, do_unlink and do_rdwt on an open file as compositions of the
    parts, tied to the steps of FsVolume and FsRoot (kernel/fs.c:364-535, kernel/fs.c:1315-1439,
    kernel/fs.c:1485-1670). */
module FsOps {
  import opened Basics
  import opened FsDisk
  import opened FsMap
  import opened FsInode
  import opened FsFile
  import opened FsDir
  import opened FsNames
  import opened FsVolume
  import opened FsRoot
  import opened FsRuns

  // ---------------------------------------------------------------------------------------
  // Maps across writes elsewhere

  /** A map whose sectors did not change has the same bits. */
  lemma SameMap(a: seq<Sector>, b: seq<Sector>, m0: nat, k: nat)
    requires HasMap(a, m0, k) && |b| == |a| && forall s :: m0 <= s < m0 + k ==> b[s] == a[s]
    ensures forall n :: 0 <= n < k * BITS_PER_SECT ==> (MapBit(b, m0, n) <==> MapBit(a, m0, n))
  {
  }

  lemma FirstClearBefore(a: seq<Sector>, b: seq<Sector>, m0: nat, k: nat, f: nat)
    requires HasMap(a, m0, k) && |b| == |a| && forall s :: m0 <= s < m0 + k ==> b[s] == a[s]
    requires FirstClear(b, m0, k, f)
    ensures FirstClear(a, m0, k, f)
  {
    SameMap(a, b, m0, k);
  }

  lemma RangeSetAround(a: seq<Sector>, b: seq<Sector>, c: seq<Sector>, e: seq<Sector>, m0: nat, k: nat, lo: int, hi: int)
    requires HasMap(a, m0, k) && |a| == |b| == |c| == |e|
    requires forall s :: m0 <= s < m0 + k ==> b[s] == a[s] && e[s] == c[s]
    requires RangeSet(b, c, m0, k, lo, hi)
    ensures RangeSet(a, e, m0, k, lo, hi)
  {
    SameMap(a, b, m0, k);
    SameMap(c, e, m0, k);
  }

  lemma RangeClearedAround(a: seq<Sector>, b: seq<Sector>, c: seq<Sector>, e: seq<Sector>, m0: nat, k: nat, lo: int, hi: int)
    requires HasMap(a, m0, k) && |a| == |b| == |c| == |e|
    requires forall s :: m0 <= s < m0 + k ==> b[s] == a[s] && e[s] == c[s]
    requires RangeCleared(b, c, m0, k, lo, hi)
    ensures RangeCleared(a, e, m0, k, lo, hi)
  {
    SameMap(a, b, m0, k);
    SameMap(c, e, m0, k);
  }

  /** A write of directory bytes leaves the sectors behind the root's extent alone. */
  lemma RootWriteStaysInRoot(sec: seq<Sector>, sec': seq<Sector>, sb: SuperBlock, ino: Inode, at: nat, bytes: seq<byte>)
    requires Formatted(sb) && Wrote(sec, sec', sb, ROOT_INODE, ino, at, bytes) && |sec| == sb.nrSects
    requires at + |bytes| <= SECTOR_SIZE * SlotStart(sb, 1)
    ensures forall s :: SlotStart(sb, 1) <= s < |sec| ==> sec'[s] == sec[s]
  {
    forall s | SlotStart(sb, 1) <= s < |sec| ensures sec'[s] == sec[s] {
      PatchedElsewhere(sec, sec', sb.Inode0() + 256, at, bytes, s);
    }
  }

  // ---------------------------------------------------------------------------------------
  // create_file

  /** The disks between the four parts of create_file. */
  datatype Stages = Stages(s0: seq<Sector>, s1: seq<Sector>, s2: seq<Sector>, s3: seq<Sector>, s4: seq<Sector>) {
    ghost predicate SameLength() { |s0| == |s1| == |s2| == |s3| == |s4| }

    /** First the inode map alone changes, then the sector map alone. */
    ghost predicate MapsThen(sb: SuperBlock) {
      SameOutside(s0, s1, IMAP0, IMAP0 + 1) && SameOutside(s1, s2, sb.Smap0(), sb.Inode0())
    }

    /** Then inode num, then the root inode and bytes of the root directory. */
    ghost predicate InodesThen(sb: SuperBlock, num: nat, ino: Inode, root: Inode, at: nat, bytes: seq<byte>) {
      && OnlyInode(s2, s3, sb, num, ino)
      && Wrote(s3, s4, sb, ROOT_INODE, root, at, bytes)
      && SECTOR_SIZE * sb.n1stSect <= at && at + |bytes| <= SECTOR_SIZE * SlotStart(sb, 1)
    }
  }

  /** Which sectors each stage leaves alone. */
  lemma StageFrames(g: Stages, sb: SuperBlock, num: nat, ino: Inode, root: Inode, at: nat, bytes: seq<byte>)
    requires Formatted(sb) && |g.s0| == sb.nrSects && g.SameLength() && g.MapsThen(sb)
    requires g.InodesThen(sb, num, ino, root, at, bytes)
    ensures g.s4[IMAP0] == g.s1[IMAP0]
    ensures forall s :: sb.Smap0() <= s < sb.Inode0() ==> g.s1[s] == g.s0[s] && g.s4[s] == g.s2[s]
    ensures forall s :: sb.Inode0() <= s < sb.Inode0() + 256 ==> g.s2[s] == g.s0[s]
    ensures OnlyRootBytes(g.s0, g.s4, sb, at, bytes)
  {
    RootWriteStaysInRoot(g.s3, g.s4, sb, root, at, bytes);
    assert forall s :: sb.n1stSect <= s < |g.s0| ==> g.s3[s] == g.s0[s];
  }

  lemma StageInodes(g: Stages, sb: SuperBlock, num: nat, ino: Inode, root: Inode, at: nat, bytes: seq<byte>, m: nat)
    requires HasInodes(g.s0, sb) && g.SameLength() && InodeNumber(m) && num != ROOT_INODE
    requires forall s :: sb.Inode0() <= s < sb.Inode0() + 256 ==> g.s2[s] == g.s0[s]
    requires g.InodesThen(sb, num, ino, root, at, bytes)
    ensures DiskInode(g.s4, sb, m) == if m == num then ino else if m == ROOT_INODE then root else DiskInode(g.s0, sb, m)
  {
  }

  lemma ComposeCreated(g: Stages, sb: SuperBlock, num: nat, f: nat, root: Inode, at: nat, bytes: seq<byte>)
    requires Formatted(sb) && |g.s0| == sb.nrSects && g.SameLength() && g.MapsThen(sb)
    requires 1 < num < BITS_PER_SECT && f >= 1 && sb.n1stSect + f - 1 < 0x1_0000_0000
    requires FirstClear(g.s0, IMAP0, 1, num) && RangeSet(g.s0, g.s1, IMAP0, 1, num, num + 1)
    requires FirstClear(g.s1, sb.Smap0(), sb.nrSmapSects, f)
    requires RangeSet(g.s1, g.s2, sb.Smap0(), sb.nrSmapSects, f, f + NR_DEFAULT_FILE_SECTS)
    requires g.InodesThen(sb, num, FreshInode(sb, f), root, at, bytes)
    requires root == DiskInode(g.s0, sb, ROOT_INODE).(size := root.size) && root.size <= SECTOR_SIZE * NR_DEFAULT_FILE_SECTS
    ensures Created(g.s0, g.s4, sb, num, f, root.size, at, bytes)
  {
    StageFrames(g, sb, num, FreshInode(sb, f), root, at, bytes);
    RangeSetAround(g.s0, g.s0, g.s1, g.s4, IMAP0, 1, num, num + 1);
    FirstClearBefore(g.s0, g.s1, sb.Smap0(), sb.nrSmapSects, f);
    RangeSetAround(g.s0, g.s1, g.s2, g.s4, sb.Smap0(), sb.nrSmapSects, f, f + NR_DEFAULT_FILE_SECTS);
    forall m: nat | InodeNumber(m)
      ensures DiskInode(g.s4, sb, m) ==
              if m == num then FreshInode(sb, f) else if m == ROOT_INODE then root else DiskInode(g.s0, sb, m)
    {
      StageInodes(g, sb, num, FreshInode(sb, f), root, at, bytes, m);
    }
  }

  /** Every cached inode is one that the inode map says is in use. */
  ghost predicate CachedInUse(sec: seq<Sector>, t: seq<Slot>) {
    IMAP0 < |sec| && forall i :: 0 <= i < |t| && t[i].cnt > 0 ==> t[i].num < BITS_PER_SECT && MapBit(sec, IMAP0, t[i].num)
  }

  /** What the code of one call relies on: a good volume, a coherent inode table, and in slot r of
      it the root inode, with a directory that leaves room in its extent. */
  ghost predicate Mounted(d: Disk, sb: SuperBlock, t: seq<Slot>, r: nat, live: Files)
    reads d
  {
    && VolumeInv(d.sectors, sb, live) && DirReady(d, sb, t, r) && t[r].num == ROOT_INODE
    && CachedInUse(d.sectors, t) && Bounded(d.sectors, sb)
  }

  ghost predicate Bounded(sec: seq<Sector>, sb: SuperBlock) { OnVolume(sec, sb) && RootCount(sec, sb) <= BITS_PER_SECT }

  /** The file system between two calls: all that, and the directory is in order. */
  ghost predicate Ready(d: Disk, sb: SuperBlock, t: seq<Slot>, r: nat, live: Files)
    reads d
  {
    Mounted(d, sb, t, r, live) && DirInv(d.sectors, sb, live)
  }

  ghost predicate ImapFull(sec: seq<Sector>)
    requires IMAP0 < |sec|
  {
    forall n :: 0 <= n < BITS_PER_SECT ==> MapBit(sec, IMAP0, n)
  }

  /** All slots but one hold the same inode numbers with the same reference counts. */
  ghost predicate OthersKept(t: seq<Slot>, t': seq<Slot>, k: nat) {
    |t'| == |t| && forall i :: 0 <= i < |t| && i != k ==> t'[i].num == t[i].num && t'[i].cnt == t[i].cnt
  }

  /** The first two parts of create_file: an inode number and a run of sectors. */
  method AllocBoth(d: Disk, sb: SuperBlock, ghost t: seq<Slot>, ghost live: Files)
    returns (nr: nat, start: nat, ghost s1: seq<Sector>, ghost bit: nat)
    requires VolumeInv(d.sectors, sb, live) && Coherent(d.sectors, sb, t) && SlotFree(sb, live) && !ImapFull(d.sectors)
    modifies d
    ensures |s1| == |d.sectors| == old(|d.sectors|)
    ensures SameOutside(old(d.sectors), s1, IMAP0, IMAP0 + 1) && SameOutside(s1, d.sectors, sb.Smap0(), sb.Inode0())
    ensures FirstClear(old(d.sectors), IMAP0, 1, nr) && RangeSet(old(d.sectors), s1, IMAP0, 1, nr, nr + 1)
    ensures start >= sb.n1stSect && start + NR_DEFAULT_FILE_SECTS < sb.nrSects
    ensures bit == start + 1 - sb.n1stSect && FirstClear(s1, sb.Smap0(), sb.nrSmapSects, bit)
    ensures RangeSet(s1, d.sectors, sb.Smap0(), sb.nrSmapSects, bit, bit + NR_DEFAULT_FILE_SECTS)
    ensures Coherent(d.sectors, sb, t)
    ensures forall m: nat :: InodeNumber(m) ==> DiskInode(d.sectors, sb, m) == DiskInode(old(d.sectors), sb, m)
  {
    ghost var s0 := d.sectors;
    nr := AllocImapBit(d);
    s1 := d.sectors;
    start := AllocSmapBit(d, sb, NR_DEFAULT_FILE_SECTS);
    bit := StartIsSlot(s0, s1, d.sectors, sb, live, start);
    ElsewhereCoherent(s0, d.sectors, sb, t);
  }

  lemma StartIsSlot(s0: seq<Sector>, s1: seq<Sector>, s2: seq<Sector>, sb: SuperBlock, live: Files, start: nat) returns (f: nat)
    requires VolumeInv(s0, sb, live) && SlotFree(sb, live)
    requires SameOutside(s0, s1, IMAP0, IMAP0 + 1) && |s2| == |s1|
    requires SmapAllocated(s1, s2, sb.Smap0(), sb.nrSmapSects, sb.n1stSect, NR_DEFAULT_FILE_SECTS, start)
    ensures start >= sb.n1stSect && start + NR_DEFAULT_FILE_SECTS < sb.nrSects
    ensures f == start + 1 - sb.n1stSect && FirstClear(s1, sb.Smap0(), sb.nrSmapSects, f)
    ensures RangeSet(s1, s2, sb.Smap0(), sb.nrSmapSects, f, f + NR_DEFAULT_FILE_SECTS)
  {
    SameMap(s0, s1, sb.Smap0(), sb.nrSmapSects);
    if start == 0 {
      SomeBitClear(s0, sb, live);
    } else {
      f := start + 1 - sb.n1stSect;
      FirstClearBefore(s0, s1, sb.Smap0(), sb.nrSmapSects, f);
      var m := FirstClearOpensSlot(s0, sb, live, f);
    }
  }

  lemma SomeBitClear(sec: seq<Sector>, sb: SuperBlock, live: Files)
    requires VolumeInv(sec, sb, live) && SlotFree(sb, live)
    ensures exists n :: 0 <= n < sb.MapBits() && !MapBit(sec, sb.Smap0(), n)
  {
    var m: nat :| UsableSlot(sb, m) && !FsVolume.Taken(live, m);
    BitOfSlot(m, 0);
    assert !MapBit(sec, sb.Smap0(), SlotBit(m));
  }

  lemma NotCached(sec: seq<Sector>, t: seq<Slot>, nr: nat)
    requires CachedInUse(sec, t) && FirstClear(sec, IMAP0, 1, nr)
    ensures forall i :: 0 <= i < |t| ==> !InUse(t, i, nr)
  {}

  /** create_file: takes the first free inode number and the first free slot, writes the new
      inode, and enters the name in the root directory. */
  method CreateFile(d: Disk, sb: SuperBlock, table: array<Slot>, r: nat, ghost live: Files, f: seq<byte>)
    returns (slot: nat, ghost num: nat, ghost bit: nat)
    requires Mounted(d, sb, table[..], r, live) && SlotFree(sb, live) && !ImapFull(d.sectors)
    requires exists i :: 0 <= i < table.Length && table[i].cnt == 0
    requires GoodName(f)
    modifies d, table
    ensures CreatedAs(old(d.sectors), d.sectors, sb, num, bit, f)
    ensures Coherent(d.sectors, sb, table[..])
    ensures slot < table.Length && slot != r && old(table[..])[slot].cnt == 0
    ensures table[slot].cnt == 1 && table[slot].num == num && OthersKept(old(table[..]), table[..], slot)
  {
    ghost var s0, t := d.sectors, table[..];
    RootIsFirst(s0, sb, live);
    var nr, start; ghost var s1;
    nr, start, s1, bit := AllocBoth(d, sb, t, live);
    num := nr;
    NotCached(s0, t, nr);
    NewNumber(s0, sb, live, nr);
    slot := EnterFile(d, sb, table, r, nr, start, f, s0, s1, bit);
  }

  /** The first two stages of create_file took an inode number and a run of sectors. */
  ghost predicate BitsTaken(g: Stages, sb: SuperBlock, num: nat, bit: nat) {
    && OnVolume(g.s0, sb) && |g.s0| == |g.s1| == |g.s2| && g.MapsThen(sb) && bit >= 1 && sb.n1stSect + bit - 1 < 0x1_0000_0000
    && FirstClear(g.s0, IMAP0, 1, num) && RangeSet(g.s0, g.s1, IMAP0, 1, num, num + 1)
    && FirstClear(g.s1, sb.Smap0(), sb.nrSmapSects, bit)
    && RangeSet(g.s1, g.s2, sb.Smap0(), sb.nrSmapSects, bit, bit + NR_DEFAULT_FILE_SECTS)
  }

  /** The stages of create_file amount to the creation of a file with that name. */
  lemma CreatedFrom(g: Stages, sb: SuperBlock, num: nat, bit: nat, was: Inode, root: Inode, f: seq<byte>)
    requires Bounded(g.s0, sb) && g.SameLength() && 1 < num < BITS_PER_SECT && BitsTaken(g, sb, num, bit)
    requires OnlyInode(g.s2, g.s3, sb, num, FreshInode(sb, bit))
    requires was == DiskInode(g.s0, sb, ROOT_INODE) && was.start == sb.n1stSect && root == was.(size := root.size)
    requires root.size <= SECTOR_SIZE * NR_DEFAULT_FILE_SECTS && GoodName(f) && was.size % DIR_ENTRY_SIZE == 0
    requires var e := FirstFree(g.s3, was.start, was.size / DIR_ENTRY_SIZE);
             root.size == Grown(was, DIR_ENTRY_SIZE * (e + 1)).size
             && Wrote(g.s3, g.s4, sb, ROOT_INODE, root, Base(was) + DIR_ENTRY_SIZE * e, LeBytes(num) + f + [0])
    ensures CreatedAs(g.s0, g.s4, sb, num, bit, f)
  {
    var e := RootFree(g.s0, sb);
    assert forall s :: sb.n1stSect <= s < |g.s0| ==> g.s3[s] == g.s0[s];
    SameFreeFrom(g.s0, g.s3, sb.n1stSect, RootCount(g.s0, sb), 0);
    EntryInRoot(sb, e, LeBytes(num) + f + [0]);
    ComposeCreated(g, sb, num, bit, root, EntryAddr(sb, e), LeBytes(num) + f + [0]);
  }

  lemma {:induction false} SameFreeFrom(a: seq<Sector>, b: seq<Sector>, start: nat, n: nat, m: nat)
    requires |b| == |a| && m <= n && (n == 0 || start + (n - 1) / ENTRIES_PER_SECT < |a|)
    requires forall s :: start <= s < |a| ==> b[s] == a[s]
    ensures FirstFree(b, start, n, m) == FirstFree(a, start, n, m)
    decreases n - m
  {
    if m < n { SameFreeFrom(a, b, start, n, m + 1); }
  }

  lemma EntryInRoot(sb: SuperBlock, e: nat, bytes: seq<byte>)
    requires e <= BITS_PER_SECT && |bytes| <= DIR_ENTRY_SIZE
    ensures EntryAddr(sb, e) + |bytes| <= SECTOR_SIZE * SlotStart(sb, 1)
  {
  }

  /** The last two parts of create_file, the inode and the directory entry, which complete the
      creation begun on disk s0. */
  method EnterFile(d: Disk, sb: SuperBlock, table: array<Slot>, r: nat, nr: nat, start: u32, f: seq<byte>,
                   ghost s0: seq<Sector>, ghost s1: seq<Sector>, ghost bit: nat)
    returns (slot: nat)
    requires DirReady(d, sb, table[..], r) && table[r].num == ROOT_INODE && 1 < nr < BITS_PER_SECT && GoodName(f)
    requires exists i :: 0 <= i < table.Length && table[i].cnt == 0
    requires forall i :: 0 <= i < table.Length ==> !InUse(table[..], i, nr)
    requires Bounded(s0, sb) && table[r].ino == DiskInode(s0, sb, ROOT_INODE) && table[r].ino.start == sb.n1stSect
    requires table[r].ino.nrSects == NR_DEFAULT_FILE_SECTS && bit == start + 1 - sb.n1stSect && start >= sb.n1stSect
    requires BitsTaken(Stages(s0, s1, d.sectors, d.sectors, d.sectors), sb, nr, bit)
    modifies d, table
    ensures CreatedAs(s0, d.sectors, sb, nr, bit, f)
    ensures Coherent(d.sectors, sb, table[..])
    ensures slot < table.Length && slot != r && old(table[..])[slot].cnt == 0
    ensures table[slot].cnt == 1 && table[slot].num == nr && OthersKept(old(table[..]), table[..], slot)
  {
    ghost var s2, t := d.sectors, table[..];
    slot := EnterInode(d, sb, table, r, nr, start);
    assert table[..][r] == t[r];
    EnterName(d, sb, table, r, nr, f, Stages(s0, s1, s2, d.sectors, d.sectors), bit);
  }

  /** The directory part of create_file, which completes the creation begun on disk g.s0. */
  method EnterName(d: Disk, sb: SuperBlock, table: array<Slot>, r: nat, nr: nat, f: seq<byte>, ghost g: Stages, ghost bit: nat)
    requires DirReady(d, sb, table[..], r) && table[r].num == ROOT_INODE && 1 < nr < BITS_PER_SECT && GoodName(f)
    requires Bounded(g.s0, sb) && BitsTaken(g, sb, nr, bit) && g.s3 == d.sectors && OnlyInode(g.s2, g.s3, sb, nr, FreshInode(sb, bit))
    requires table[r].ino == DiskInode(g.s0, sb, ROOT_INODE) && table[r].ino.start == sb.n1stSect
    requires table[r].ino.nrSects == NR_DEFAULT_FILE_SECTS
    modifies d, table
    ensures CreatedAs(g.s0, d.sectors, sb, nr, bit, f)
    ensures Coherent(d.sectors, sb, table[..]) && table[..] == old(table[..])[r := old(table[r]).(ino := table[r].ino)]
  {
    ghost var was := table[r].ino;
    NewDirEntry(d, sb, table, r, nr, f);
    CreatedFrom(g.(s4 := d.sectors), sb, nr, bit, was, table[r].ino, f);
  }

  /** The inode of the new file, written through a free slot of the table. */
  method EnterInode(d: Disk, sb: SuperBlock, table: array<Slot>, ghost r: nat, nr: nat, start: u32) returns (slot: nat)
    requires Coherent(d.sectors, sb, table[..]) && 1 < nr < BITS_PER_SECT && r < table.Length && table[r].cnt > 0
    requires exists i :: 0 <= i < table.Length && table[i].cnt == 0
    requires forall i :: 0 <= i < table.Length ==> !InUse(table[..], i, nr)
    modifies d, table
    ensures OnlyInode(old(d.sectors), d.sectors, sb, nr, Inode(I_REGULAR, 0, start, NR_DEFAULT_FILE_SECTS))
    ensures Coherent(d.sectors, sb, table[..])
    ensures slot < table.Length && slot != r && old(table[..])[slot].cnt == 0
    ensures table[..] == old(table[..])[slot := Slot(Inode(I_REGULAR, 0, start, NR_DEFAULT_FILE_SECTS), 1, nr)]
  {
    ghost var s2, t := d.sectors, table[..];
    assert CanCache(t, nr);
    slot := NewInode(d, sb, table, nr, start);
    assert !InUse(t, slot, nr);
    SyncWritesOne(s2, sb, nr, Inode(I_REGULAR, 0, start, NR_DEFAULT_FILE_SECTS));
  }

  lemma RootIsFirst(sec: seq<Sector>, sb: SuperBlock, live: Files)
    requires VolumeInv(sec, sb, live)
    ensures DiskInode(sec, sb, ROOT_INODE).start == sb.n1stSect
    ensures DiskInode(sec, sb, ROOT_INODE).nrSects == NR_DEFAULT_FILE_SECTS
  {
    assert FileInode(sb, DiskInode(sec, sb, ROOT_INODE), live[ROOT_INODE]);
  }

  lemma NewNumber(sec: seq<Sector>, sb: SuperBlock, live: Files, nr: nat)
    requires VolumeInv(sec, sb, live) && FirstClear(sec, IMAP0, 1, nr)
    ensures 1 < nr < BITS_PER_SECT
  {
    assert MapBit(sec, IMAP0, ROOT_INODE);
  }

  /** After create_file the file system is ready for the next call. */
  lemma ReadyAfterCreate(d: Disk, sb: SuperBlock, s0: seq<Sector>, t0: seq<Slot>, t: seq<Slot>, r: nat, live: Files,
                         slot: nat, num: nat, bit: nat, f: seq<byte>)
    requires DirInv(s0, sb, live) && SlotFree(sb, live) && CachedInUse(s0, t0) && r < |t| && r != slot
    requires GoodName(f) && Resolves(s0, sb, f) == 0 && CreatedAs(s0, d.sectors, sb, num, bit, f) && Coherent(d.sectors, sb, t)
    requires OthersKept(t0, t, slot) && slot < |t| && t[slot].num == num && t0[r].num == ROOT_INODE && t0[r].cnt > 0
    ensures num !in live && bit >= 1 && Ready(d, sb, t, r, live[num := (bit - 1) / NR_DEFAULT_FILE_SECTS])
  {
    var live' := live[num := (bit - 1) / NR_DEFAULT_FILE_SECTS];
    CreateKeepsDir(s0, d.sectors, sb, live, num, bit, f, live');
    RootSlotReady(d, sb, t, r, live');
    InUseAfterCreate(s0, d.sectors, t0, t, slot, num);
  }

  lemma InUseAfterCreate(s0: seq<Sector>, sec: seq<Sector>, t0: seq<Slot>, t: seq<Slot>, slot: nat, num: nat)
    requires CachedInUse(s0, t0) && |sec| == |s0| && RangeSet(s0, sec, IMAP0, 1, num, num + 1) && num < BITS_PER_SECT
    requires OthersKept(t0, t, slot) && slot < |t| && t[slot].num == num
    ensures CachedInUse(sec, t)
  {
    forall i | 0 <= i < |t| && t[i].cnt > 0 ensures t[i].num < BITS_PER_SECT && MapBit(sec, IMAP0, t[i].num) {
      if i != slot { assert t0[i].num == t[i].num && MapBit(s0, IMAP0, t0[i].num); }
    }
  }

  lemma RootSlotReady(d: Disk, sb: SuperBlock, t: seq<Slot>, r: nat, live: Files)
    requires DirInv(d.sectors, sb, live) && Coherent(d.sectors, sb, t) && r < |t| && t[r].num == ROOT_INODE && t[r].cnt > 0
    ensures DirReady(d, sb, t, r) && Bounded(d.sectors, sb)
  {
    ExtentsDisjoint(d.sectors, sb, live, ROOT_INODE, ROOT_INODE);
    assert t[r].ino == DiskInode(d.sectors, sb, ROOT_INODE);
  }

  /** Every name but f resolves as before, and f to num. */
  ghost predicate OneNameMore(sec: seq<Sector>, sec': seq<Sector>, sb: SuperBlock, f: seq<byte>, num: nat) {
    && Bounded(sec, sb) && Bounded(sec', sb)
    && forall g :: GoodName(g) ==> Resolves(sec', sb, g) == if g == f then num else Resolves(sec, sb, g)
  }

  lemma CreateAddsName(sec: seq<Sector>, sec': seq<Sector>, sb: SuperBlock, live: Files, num: nat, bit: nat, f: seq<byte>)
    requires DirInv(sec, sb, live) && GoodName(f) && Resolves(sec, sb, f) == 0 && CreatedAs(sec, sec', sb, num, bit, f)
    requires OnVolume(sec', sb)
    ensures OneNameMore(sec, sec', sb, f, num)
  {
    CreateResolves(sec, sec', sb, live, num, bit, f, f);
    forall g | GoodName(g) ensures Resolves(sec', sb, g) == if g == f then num else Resolves(sec, sb, g) {
      CreateResolves(sec, sec', sb, live, num, bit, f, g);
    }
  }

  /** search_file on the root directory in slot r. */
  method FindName(d: Disk, sb: SuperBlock, table: array<Slot>, r: nat, f: seq<byte>) returns (nr: nat)
    requires DirReady(d, sb, table[..], r) && table[r].num == ROOT_INODE && Bounded(d.sectors, sb) && GoodName(f)
    requires DiskInode(d.sectors, sb, ROOT_INODE).start == sb.n1stSect
    ensures nr == Resolves(d.sectors, sb, f)
  {
    nr := SearchFile(d, table[r], f);
  }

  /** do_open with O_CREAT, up to the descriptor: a name that resolves is refused; else the file is
      created, its name resolves to it from then on, every other name as before, and the file
      system is ready for the next call. */
  method OpenCreate(d: Disk, sb: SuperBlock, table: array<Slot>, r: nat, ghost live: Files, f: seq<byte>)
    returns (slot: int, ghost num: nat, ghost bit: nat, ghost live': Files)
    requires Ready(d, sb, table[..], r, live) && SlotFree(sb, live) && !ImapFull(d.sectors)
    requires exists i :: 0 <= i < table.Length && table[i].cnt == 0
    requires GoodName(f)
    modifies d, table
    ensures slot == -1 <==> Resolves(old(d.sectors), sb, f) != 0
    ensures slot == -1 ==> d.sectors == old(d.sectors) && table[..] == old(table[..])
    ensures slot != -1 ==> num !in live && Ready(d, sb, table[..], r, live')
    ensures slot != -1 ==> OpenStep(sb, Volume(old(d.sectors), live), f, num, bit, Volume(d.sectors, live'))
    ensures slot != -1 ==> 0 <= slot < table.Length && table[slot].cnt == 1 && table[slot].num == num
    ensures slot != -1 ==> OneNameMore(old(d.sectors), d.sectors, sb, f, num)
  {
    ghost var s0, t := d.sectors, table[..];
    RootIsFirst(s0, sb, live);
    num, bit, live' := 0, 0, live;
    var nr := FindName(d, sb, table, r, f);
    if nr != 0 { return -1, num, bit, live'; }
    var k;
    k, num, bit := CreateFile(d, sb, table, r, live, f);
    slot, live' := k, live[num := (bit - 1) / NR_DEFAULT_FILE_SECTS];
    ReadyAfterCreate(d, sb, s0, t, table[..], r, live, k, num, bit, f);
    CreateAddsName(s0, d.sectors, sb, live, num, bit, f);
  }

  // ---------------------------------------------------------------------------------------
  // do_unlink

  lemma ComposeUnlinked(g: Stages, sb: SuperBlock, num: nat, root: Inode, at: nat, bytes: seq<byte>)
    requires Formatted(sb) && |g.s0| == sb.nrSects && g.SameLength() && g.MapsThen(sb)
    requires 1 < num < BITS_PER_SECT
    requires RangeCleared(g.s0, g.s1, IMAP0, 1, num, num + 1)
    requires var ino := DiskInode(g.s0, sb, num);
             var b := ino.start - sb.n1stSect + 1;
             RangeCleared(g.s1, g.s2, sb.Smap0(), sb.nrSmapSects, b, b + ino.nrSects)
    requires g.InodesThen(sb, num, Inode(0, 0, 0, 0), root, at, bytes)
    requires root == DiskInode(g.s0, sb, ROOT_INODE).(size := root.size) && root.size <= SECTOR_SIZE * NR_DEFAULT_FILE_SECTS
    ensures Unlinked(g.s0, g.s4, sb, num, root.size, at, bytes)
  {
    StageFrames(g, sb, num, Inode(0, 0, 0, 0), root, at, bytes);
    RangeClearedAround(g.s0, g.s0, g.s1, g.s4, IMAP0, 1, num, num + 1);
    var ino := DiskInode(g.s0, sb, num);
    var b := ino.start - sb.n1stSect + 1;
    RangeClearedAround(g.s0, g.s1, g.s2, g.s4, sb.Smap0(), sb.nrSmapSects, b, b + ino.nrSects);
    forall m: nat | InodeNumber(m)
      ensures DiskInode(g.s4, sb, m) ==
              if m == num then Inode(0, 0, 0, 0) else if m == ROOT_INODE then root else DiskInode(g.s0, sb, m)
    {
      StageInodes(g, sb, num, Inode(0, 0, 0, 0), root, at, bytes, m);
    }
  }

  /** The i-map and s-map parts of do_unlink, for live file num with inode ino. */
  method FreeBoth(d: Disk, sb: SuperBlock, ghost t: seq<Slot>, ghost live: Files, num: nat, ino: Inode)
    returns (ghost s1: seq<Sector>, ghost b: nat)
    requires VolumeInv(d.sectors, sb, live) && Coherent(d.sectors, sb, t) && num in live && ino == DiskInode(d.sectors, sb, num)
    modifies d
    ensures |s1| == |d.sectors| == old(|d.sectors|)
    ensures SameOutside(old(d.sectors), s1, IMAP0, IMAP0 + 1) && SameOutside(s1, d.sectors, sb.Smap0(), sb.Inode0())
    ensures RangeCleared(old(d.sectors), s1, IMAP0, 1, num, num + 1)
    ensures b == ino.start - sb.n1stSect + 1
    ensures RangeCleared(s1, d.sectors, sb.Smap0(), sb.nrSmapSects, b, b + ino.nrSects)
    ensures Coherent(d.sectors, sb, t)
    ensures forall s :: sb.Inode0() <= s < |d.sectors| ==> d.sectors[s] == old(d.sectors)[s]
  {
    ghost var s0 := d.sectors;
    assert FileInode(sb, ino, live[num]) && UsableSlot(sb, live[num]);
    ClearImapBit(d, num);
    s1 := d.sectors;
    var bitIdx := ino.start - sb.n1stSect + 1;
    b := bitIdx;
    ClearSmapBits(d, sb, bitIdx, ino.nrSects);
    ElsewhereCoherent(s0, d.sectors, sb, t);
  }

  /** The inode part of do_unlink: cleared in the table and on the disk, slot released. */
  method DropInode(d: Disk, sb: SuperBlock, table: array<Slot>, k: nat)
    requires Coherent(d.sectors, sb, table[..]) && k < table.Length && table[k].cnt == 1
    modifies d, table
    ensures OnlyInode(old(d.sectors), d.sectors, sb, old(table[k].num), Inode(0, 0, 0, 0))
    ensures table[..] == old(table[..])[k := Slot(Inode(0, 0, 0, 0), 0, old(table[k].num))]
    ensures Coherent(d.sectors, sb, table[..])
  {
    ghost var was, t := d.sectors, table[..];
    table[k] := table[k].(ino := Inode(0, 0, 0, 0));
    SyncInode(d, sb, table[k]);
    SyncWritesOne(was, sb, t[k].num, Inode(0, 0, 0, 0));
    SyncCoherent(was, d.sectors, sb, t, k, Inode(0, 0, 0, 0));
    assert table[..] == t[k := t[k].(ino := Inode(0, 0, 0, 0))];
    PutCoherent(d.sectors, sb, table[..], k);
    PutInode(table, k);
    assert table[..] == t[k := Slot(Inode(0, 0, 0, 0), 0, t[k].num)];
  }

  /** The rest of do_unlink, once the file is known to be regular and not open. */
  method RemoveFile(d: Disk, sb: SuperBlock, table: array<Slot>, r: nat, k: nat, ghost live: Files)
    requires Mounted(d, sb, table[..], r, live) && k < table.Length && k != r && table[k].cnt == 1
    requires table[k].num in live && table[k].num != ROOT_INODE
    requires table[k].num < BITS_PER_SECT && RootFind(d.sectors, sb, table[k].num) < RootCount(d.sectors, sb)
    modifies d, table
    ensures UnlinkedAs(old(d.sectors), d.sectors, sb, old(table[k].num))
    ensures Coherent(d.sectors, sb, table[..]) && table[k].cnt == 0 && OthersKept(old(table[..]), table[..], k)
  {
    ghost var s0, t := d.sectors, table[..];
    var nr := table[k].num;
    RootIsFirst(s0, sb, live);
    ghost var g := EraseFile(d, sb, table, k, live);
    assert table[..][r] == t[r] && t[r].ino == DiskInode(s0, sb, ROOT_INODE);
    RemoveName(d, sb, table, r, nr, g);
    TwoSlots(t, k, Slot(Inode(0, 0, 0, 0), 0, nr), r, t[r].(ino := table[r].ino));
  }

  lemma TwoSlots(t: seq<Slot>, k: nat, x: Slot, r: nat, y: Slot)
    requires k < |t| && r < |t| && k != r && y.num == t[r].num && y.cnt == t[r].cnt
    ensures OthersKept(t, t[k := x][r := y], k)
  {
  }

  /** The bits and the inode of file num are given up. */
  ghost predicate FileErased(g: Stages, sb: SuperBlock, num: nat) {
    && Bounded(g.s0, sb) && |g.s0| == |g.s1| == |g.s2| == |g.s3| && g.MapsThen(sb)
    && 1 < num < BITS_PER_SECT && RangeCleared(g.s0, g.s1, IMAP0, 1, num, num + 1)
    && (var ino := DiskInode(g.s0, sb, num);
        var b := ino.start - sb.n1stSect + 1;
        RangeCleared(g.s1, g.s2, sb.Smap0(), sb.nrSmapSects, b, b + ino.nrSects))
    && OnlyInode(g.s2, g.s3, sb, num, Inode(0, 0, 0, 0))
  }

  /** The directory part of do_unlink, which completes the removal begun on disk g.s0. */
  method RemoveName(d: Disk, sb: SuperBlock, table: array<Slot>, r: nat, nr: u32, ghost g: Stages)
    requires DirReady(d, sb, table[..], r) && table[r].num == ROOT_INODE && FileErased(g, sb, nr) && g.s3 == d.sectors
    requires table[r].ino == DiskInode(g.s0, sb, ROOT_INODE) && table[r].ino.start == sb.n1stSect
    requires table[r].ino.nrSects == NR_DEFAULT_FILE_SECTS && RootFind(g.s0, sb, nr) < RootCount(g.s0, sb)
    modifies d, table
    ensures UnlinkedAs(g.s0, d.sectors, sb, nr)
    ensures Coherent(d.sectors, sb, table[..]) && table[..] == old(table[..])[r := old(table[r]).(ino := table[r].ino)]
  {
    ghost var was := table[r].ino;
    SameFromErased(g, sb, nr);
    SameFindFrom(g.s0, g.s3, sb.n1stSect, RootCount(g.s0, sb), nr, 0);
    RemoveDirEntry(d, sb, table, r, nr);
    UnlinkedFrom(g.(s4 := d.sectors), sb, nr, was);
  }

  lemma SameFromErased(g: Stages, sb: SuperBlock, num: nat)
    requires FileErased(g, sb, num)
    ensures forall s :: sb.n1stSect <= s < |g.s0| ==> g.s3[s] == g.s0[s]
  {
  }

  /** The stages of do_unlink amount to the removal of the file. */
  lemma UnlinkedFrom(g: Stages, sb: SuperBlock, num: nat, was: Inode)
    requires FileErased(g, sb, num) && g.SameLength()
    requires was == DiskInode(g.s0, sb, ROOT_INODE) && was.start == sb.n1stSect && was.size % DIR_ENTRY_SIZE == 0
    requires RootFind(g.s0, sb, num) < RootCount(g.s0, sb)
    requires var m := RootFind(g.s0, sb, num);
             Wrote(g.s3, g.s4, sb, ROOT_INODE, was.(size := ShrunkSize(g.s3, was.start, was.size, m)), Base(was) + DIR_ENTRY_SIZE * m, Zeros(DIR_ENTRY_SIZE))
    ensures UnlinkedAs(g.s0, g.s4, sb, num)
  {
    var m := RootFind(g.s0, sb, num);
    SameFromErased(g, sb, num);
    SameLiveBefore(g.s0, g.s3, sb.n1stSect, m);
    ShrunkCount(g.s0, sb, m);
    EntryInRoot(sb, m, Zeros(DIR_ENTRY_SIZE));
    ComposeUnlinked(g, sb, num, was.(size := RootShrunk(g.s0, sb, m)), EntryAddr(sb, m), Zeros(DIR_ENTRY_SIZE));
  }

  lemma {:induction false} SameLiveBefore(a: seq<Sector>, b: seq<Sector>, start: nat, n: nat)
    requires |b| == |a| && (n == 0 || start + (n - 1) / ENTRIES_PER_SECT < |a|) && forall s :: start <= s < |a| ==> b[s] == a[s]
    ensures LiveBefore(b, start, n) == LiveBefore(a, start, n)
  {
    if n > 0 { SameLiveBefore(a, b, start, n - 1); }
  }

  /** All of do_unlink but its directory part. */
  method EraseFile(d: Disk, sb: SuperBlock, table: array<Slot>, k: nat, ghost live: Files) returns (ghost g: Stages)
    requires VolumeInv(d.sectors, sb, live) && Bounded(d.sectors, sb) && Coherent(d.sectors, sb, table[..])
    requires k < table.Length && table[k].cnt == 1 && table[k].num in live && table[k].num != ROOT_INODE
    modifies d, table
    ensures FileErased(g, sb, old(table[k].num)) && g.s0 == old(d.sectors) && g.s3 == d.sectors
    ensures Coherent(d.sectors, sb, table[..])
    ensures table[..] == old(table[..])[k := Slot(Inode(0, 0, 0, 0), 0, old(table[k].num))]
  {
    ghost var s0, t := d.sectors, table[..];
    assert t[k].ino == DiskInode(d.sectors, sb, t[k].num);
    ghost var s1, b := FreeBoth(d, sb, t, live, table[k].num, table[k].ino);
    ghost var s2 := d.sectors;
    DropInode(d, sb, table, k);
    g := Stages(s0, s1, s2, d.sectors, d.sectors);
  }

  /** Directory scans give the same answer while the root directory's sectors stay the same. */
  lemma {:induction false} SameFindFrom(a: seq<Sector>, b: seq<Sector>, start: nat, n: nat, nr: u32, m: nat)
    requires |b| == |a| && m <= n && (n == 0 || start + (n - 1) / ENTRIES_PER_SECT < |a|)
    requires forall s :: start <= s < |a| ==> b[s] == a[s]
    ensures FindNr(b, start, n, nr, m) == FindNr(a, start, n, nr, m)
    decreases n - m
  {
    if m < n { SameFindFrom(a, b, start, n, nr, m + 1); }
  }

  /** After do_unlink the file system is ready for the next call if and only if no live entry was
      cut off. */
  lemma ReadyAfterUnlink(d: Disk, sb: SuperBlock, s0: seq<Sector>, t0: seq<Slot>, t: seq<Slot>, r: nat, live: Files, k: nat, num: nat)
    requires DirInv(s0, sb, live) && CachedInUse(s0, t0) && Coherent(s0, sb, t0) && r < |t| && k < |t| && r != k
    requires num in live && num != ROOT_INODE && UnlinkedAs(s0, d.sectors, sb, num) && Coherent(d.sectors, sb, t)
    requires OthersKept(t0, t, k) && t0[k].cnt > 0 && t0[k].num == num && t[k].cnt == 0
    requires t0[r].num == ROOT_INODE && t0[r].cnt > 0
    ensures Ready(d, sb, t, r, live - {num}) <==> ShrinksWell(s0, sb, RootFind(s0, sb, num))
  {
    UnlinkKeepsDir(s0, d.sectors, sb, live, num);
    if ShrinksWell(s0, sb, RootFind(s0, sb, num)) {
      RootSlotReady(d, sb, t, r, live - {num});
      StillInUse(s0, d.sectors, sb, t0, t, k, num);
    }
  }

  lemma StillInUse(s0: seq<Sector>, sec: seq<Sector>, sb: SuperBlock, t0: seq<Slot>, t: seq<Slot>, k: nat, num: nat)
    requires CachedInUse(s0, t0) && Coherent(s0, sb, t0) && |sec| == |s0| && RangeCleared(s0, sec, IMAP0, 1, num, num + 1)
    requires k < |t| && OthersKept(t0, t, k) && t0[k].cnt > 0 && t0[k].num == num && t[k].cnt == 0
    ensures CachedInUse(sec, t)
  {
    forall i | 0 <= i < |t| && t[i].cnt > 0 ensures t[i].num < BITS_PER_SECT && MapBit(sec, IMAP0, t[i].num) {
      assert i != k && t0[i].cnt > 0 && t0[i].num != t0[k].num && MapBit(s0, IMAP0, t0[i].num);
    }
  }

  /** Number nr, if not 0, is that of an inode that exists, regular only if a live file with an
      entry in the directory. */
  ghost predicate Leads(sec: seq<Sector>, sb: SuperBlock, live: Files, nr: u32) {
    && Bounded(sec, sb)
    && (nr != 0 ==>
          && nr < BITS_PER_SECT && MapBit(sec, IMAP0, nr)
          && (DiskInode(sec, sb, nr).mode == I_REGULAR <==> nr in live && nr != ROOT_INODE)
          && RootFind(sec, sb, nr) < RootCount(sec, sb))
  }

  lemma NamesLead(sec: seq<Sector>, sb: SuperBlock, live: Files, f: seq<byte>)
    requires DirInv(sec, sb, live) && Bounded(sec, sb) && GoodName(f)
    ensures Leads(sec, sb, live, Resolves(sec, sb, f))
  {
    var nr, known := Resolves(sec, sb, f), live.Keys + Consoles();
    ResolvesMeaning(sec, sb, known, f);
    if nr != 0 {
      var k :| 0 <= k < RootCount(sec, sb) && RootDir(sec, sb)[k] == Entry(nr, Pad(f));
      NameAt(RootDir(sec, sb), RootCount(sec, sb), known, k);
      FoundEntry(sec, sb, known, nr);
      assert nr in live || IsConsole(nr);
    }
  }

  /** What do_unlink does. An unknown name, a special file or an open file is refused; a refusal of
      the last two kinds leaves the disk alone and one reference too many on the cached inode. */
  ghost predicate UnlinkOutcome(s0: seq<Sector>, t0: seq<Slot>, sec: seq<Sector>, t: seq<Slot>, sb: SuperBlock, live: Files,
                                nr: u32, ret: int, k: nat)
  {
    && (ret == 0 || ret == -1) && (ret == -1 ==> sec == s0)
    && (nr == 0 ==> ret == -1 && t == t0)
    && (nr != 0 ==>
          && InodeNumber(nr) && HasInodes(s0, sb) && k < |t0|
          && (ret == 0 <==> nr in live && nr != ROOT_INODE && !InUse(t0, k, nr))
          && (if ret == 0 then UnlinkedAs(s0, sec, sb, nr) && k < |t| && t[k].cnt == 0 else Got(s0, sb, t0, t, nr, k)))
  }

  /** do_unlink, relying on no more than where the name leads. */
  method UnlinkName(d: Disk, sb: SuperBlock, table: array<Slot>, r: nat, ghost live: Files, f: seq<byte>)
    returns (ret: int, ghost nr: u32, ghost k: nat, ghost t1: seq<Slot>)
    requires Mounted(d, sb, table[..], r, live) && GoodName(f) && Leads(d.sectors, sb, live, Resolves(d.sectors, sb, f))
    requires Resolves(d.sectors, sb, f) != 0 ==> CanCache(table[..], Resolves(d.sectors, sb, f))
    modifies d, table
    ensures nr == Resolves(old(d.sectors), sb, f)
    ensures UnlinkOutcome(old(d.sectors), old(table[..]), d.sectors, table[..], sb, live, nr, ret, k)
    ensures Coherent(d.sectors, sb, table[..])
    ensures ret == 0 ==> Got(old(d.sectors), sb, old(table[..]), t1, nr, k) && OthersKept(t1, table[..], k)
  {
    ghost var s0, t := d.sectors, table[..];
    RootIsFirst(s0, sb, live);
    t1 := t;
    var n := FindName(d, sb, table, r, f);
    nr, k := n, 0;
    if n == 0 { return -1, nr, k, t1; }
    var pin := GetInodeSched(d, sb, table, n);
    k, t1 := pin, table[..];
    GotCount(t, t1, s0, sb, n, pin);
    if table[pin].ino.mode != I_REGULAR { return -1, nr, k, t1; }
    if table[pin].cnt > 1 { return -1, nr, k, t1; }
    GotKeepsMounted(d, sb, t, t1, r, live, n, pin);
    RemoveFile(d, sb, table, r, pin, live);
    ret := 0;
  }

  lemma GotCount(t: seq<Slot>, t': seq<Slot>, sec: seq<Sector>, sb: SuperBlock, num: nat, k: nat)
    requires InodeNumber(num) && HasInodes(sec, sb) && Got(sec, sb, t, t', num, k)
    ensures t'[k].ino == DiskInode(sec, sb, num) && t'[k].num == num && t'[k].cnt > 0 && (t'[k].cnt == 1 <==> !InUse(t, k, num))
  {
  }

  lemma GotKeepsMounted(d: Disk, sb: SuperBlock, t: seq<Slot>, t': seq<Slot>, r: nat, live: Files, num: nat, k: nat)
    requires Mounted(d, sb, t, r, live) && InodeNumber(num) && Got(d.sectors, sb, t, t', num, k) && Coherent(d.sectors, sb, t')
    requires num < BITS_PER_SECT && MapBit(d.sectors, IMAP0, num)
    ensures Mounted(d, sb, t', r, live) && (num != ROOT_INODE ==> k != r)
  {
    assert t[r].cnt > 0 && t[r].num == ROOT_INODE;
    assert t'[r].ino == t[r].ino;
  }

  /** do_unlink. After a refusal the file system is ready for the next call; after a removal if and
      only if no live entry was cut off. */
  method DoUnlink(d: Disk, sb: SuperBlock, table: array<Slot>, r: nat, ghost live: Files, f: seq<byte>)
    returns (ret: int, ghost nr: u32, ghost k: nat)
    requires Ready(d, sb, table[..], r, live) && GoodName(f)
    requires Resolves(d.sectors, sb, f) != 0 ==> CanCache(table[..], Resolves(d.sectors, sb, f))
    modifies d, table
    ensures nr == Resolves(old(d.sectors), sb, f)
    ensures UnlinkOutcome(old(d.sectors), old(table[..]), d.sectors, table[..], sb, live, nr, ret, k)
    ensures ret == -1 ==> Ready(d, sb, table[..], r, live)
    ensures ret == 0 ==> (Ready(d, sb, table[..], r, live - {nr}) <==> UnlinkLeavesOrder(old(d.sectors), sb, nr))
    ensures ret == 0 ==> OneNameLess(old(d.sectors), d.sectors, sb, nr)
    ensures ret == 0 && UnlinkLeavesOrder(old(d.sectors), sb, nr) ==>
              UnlinkStep(sb, Volume(old(d.sectors), live), nr, Volume(d.sectors, live - {nr}))
  {
    ghost var s0, t, t1 := d.sectors, table[..], table[..];
    NamesLead(s0, sb, live, f);
    ret, nr, k, t1 := UnlinkName(d, sb, table, r, live, f);
    if ret == -1 {
      if nr != 0 { GotKeepsMounted(d, sb, t, table[..], r, live, nr, k); }
    } else {
      RemovedReady(d, sb, s0, t, t1, table[..], r, live, k, nr);
      NamesAfterUnlink(s0, d.sectors, sb, live, nr);
    }
  }

  ghost predicate OneNameLess(sec: seq<Sector>, sec': seq<Sector>, sb: SuperBlock, num: u32) {
    forall g :: GoodName(g) ==> ResolvesWithout(sec, sec', sb, num, g)
  }

  lemma NamesAfterUnlink(sec: seq<Sector>, sec': seq<Sector>, sb: SuperBlock, live: Files, num: nat)
    requires DirInv(sec, sb, live) && num in live && num != ROOT_INODE && UnlinkedAs(sec, sec', sb, num)
    ensures OneNameLess(sec, sec', sb, num)
  {
    forall g | GoodName(g) ensures ResolvesWithout(sec, sec', sb, num, g) { UnlinkResolves(sec, sec', sb, live, num, g); }
  }

  ghost predicate UnlinkLeavesOrder(sec: seq<Sector>, sb: SuperBlock, num: u32) {
    Bounded(sec, sb) && RootFind(sec, sb, num) < RootCount(sec, sb) && ShrinksWell(sec, sb, RootFind(sec, sb, num))
  }

  lemma RemovedReady(d: Disk, sb: SuperBlock, s0: seq<Sector>, t: seq<Slot>, t1: seq<Slot>, t2: seq<Slot>, r: nat, live: Files, k: nat, num: nat)
    requires DirInv(s0, sb, live) && CachedInUse(s0, t) && Coherent(s0, sb, t) && r < |t| && t[r].num == ROOT_INODE && t[r].cnt > 0
    requires num in live && num != ROOT_INODE && InodeNumber(num) && Got(s0, sb, t, t1, num, k) && OthersKept(t1, t2, k)
    requires UnlinkedAs(s0, d.sectors, sb, num) && Coherent(d.sectors, sb, t2) && t2[k].cnt == 0
    ensures Ready(d, sb, t2, r, live - {num}) <==> UnlinkLeavesOrder(s0, sb, num)
  {
    GotCoherent(s0, sb, t, t1, num, k);
    assert MapBit(s0, IMAP0, num);
    ReadyAfterUnlink(d, sb, s0, t1, t2, r, live, k, num);
  }

  /** After a write within the capacity of a live file other than the root directory the file system
      is ready for the next call and every name resolves as before. */
  lemma ReadyAfterWrite(d: Disk, sb: SuperBlock, s0: seq<Sector>, t0: seq<Slot>, t: seq<Slot>, r: nat, live: Files,
                        num: nat, size: u32, pos: nat, data: seq<byte>)
    requires DirInv(s0, sb, live) && CachedInUse(s0, t0) && Coherent(d.sectors, sb, t)
    requires SameSlots(t0, t) && r < |t0| && t0[r].num == ROOT_INODE && t0[r].cnt > 0
    requires num in live && num != ROOT_INODE && WroteTo(s0, d.sectors, sb, num, size, pos, data)
    ensures Ready(d, sb, t, r, live) && SameNamesAll(s0, d.sectors, sb)
  {
    WriteKeepsDir(s0, d.sectors, sb, live, num, size, pos, data);
    RootSlotReady(d, sb, t, r, live);
    SameImap(s0, d.sectors, sb, t0, t);
    AllSameNames(s0, d.sectors, sb);
  }

  /** do_rdwt with the request WRITE on an open file, within its capacity. */
  method WriteOpen(d: Disk, sb: SuperBlock, table: array<Slot>, r: nat, ghost live: Files, fd: FileDesc, data: seq<byte>)
    returns (n: int, ghost size: u32)
    requires Ready(d, sb, table[..], r, live) && fd.rdwr && fd.slot < table.Length && table[fd.slot].cnt > 0
    requires table[fd.slot].num in live && table[fd.slot].num != ROOT_INODE
    requires fd.pos <= table[fd.slot].ino.size && fd.pos + |data| <= Capacity(table[fd.slot].ino)
    modifies d, table, fd
    ensures n == |data| && fd.pos == old(fd.pos) + |data|
    ensures Ready(d, sb, table[..], r, live) && SameNamesAll(old(d.sectors), d.sectors, sb)
    ensures WriteStep(sb, Volume(old(d.sectors), live), old(table[fd.slot].num), size, old(fd.pos), data, Volume(d.sectors, live))
  {
    ghost var s0, t0, pos := d.sectors, table[..], fd.pos;
    n, size := WriteLive(d, sb, table, live, fd, data);
    ReadyAfterWrite(d, sb, s0, t0, table[..], r, live, t0[fd.slot].num, size, pos, data);
  }

  /** The write as a step of the volume. */
  method WriteLive(d: Disk, sb: SuperBlock, table: array<Slot>, ghost live: Files, fd: FileDesc, data: seq<byte>) returns (n: int, ghost size: u32)
    requires VolumeInv(d.sectors, sb, live) && Coherent(d.sectors, sb, table[..])
    requires fd.rdwr && fd.slot < table.Length && table[fd.slot].cnt > 0 && table[fd.slot].num in live
    requires fd.pos <= table[fd.slot].ino.size && fd.pos + |data| <= Capacity(table[fd.slot].ino)
    modifies d, table, fd
    ensures n == |data| && fd.pos == old(fd.pos) + |data|
    ensures WroteTo(old(d.sectors), d.sectors, sb, old(table[fd.slot].num), size, old(fd.pos), data)
    ensures SameSlots(old(table[..]), table[..]) && Coherent(d.sectors, sb, table[..])
  {
    ghost var s0, num, pos := d.sectors, table[fd.slot].num, fd.pos;
    ghost var ino := table[fd.slot].ino;
    assert ino == DiskInode(s0, sb, num);
    LiveExtent(s0, sb, live, table[..], fd.slot);
    n := WriteAsked(d, sb, table, fd, data);
    DoWriteIsStep(s0, d.sectors, sb, num, pos, data);
    size := Grown(ino, pos + |data|).size;
  }

  /** do_rdwt with the request WRITE on an open file, whatever the length asked for. */
  method WriteAsked(d: Disk, sb: SuperBlock, table: array<Slot>, fd: FileDesc, data: seq<byte>) returns (n: int)
    requires CanTransfer(d, sb, table[..], fd) && fd.rdwr
    modifies d, table, fd
    ensures n == Moved(old(fd.pos), |data|, old(Capacity(table[fd.slot].ino))) && fd.pos == old(fd.pos) + n
    ensures AskedToWrite(old(d.sectors), d.sectors, sb, old(table[fd.slot].num), old(fd.pos), data)
    ensures SameSlots(old(table[..]), table[..]) && Coherent(d.sectors, sb, table[..])
  {
    ghost var s0, t0, pos, k := d.sectors, table[..], fd.pos, fd.slot;
    n := DoWrite(d, sb, table, fd, data);
    AskedOfSlot(s0, d.sectors, sb, t0[k], pos, data);
    SlotGrown(t0, k, Grown(t0[k].ino, pos + n));
  }

  lemma AskedOfSlot(s0: seq<Sector>, sec: seq<Sector>, sb: SuperBlock, p: Slot, pos: nat, data: seq<byte>)
    requires HasInodes(s0, sb) && InodeNumber(p.num) && p.ino == DiskInode(s0, sb, p.num) && pos <= p.ino.size <= Capacity(p.ino)
    requires var n := Moved(pos, |data|, Capacity(p.ino)); 0 <= n <= |data| && pos + n < 0x1_0000_0000
    requires var n := Moved(pos, |data|, Capacity(p.ino)); Wrote(s0, sec, sb, p.num, Grown(p.ino, pos + n), Base(p.ino) + pos, data[..n])
    ensures AskedToWrite(s0, sec, sb, p.num, pos, data)
  {
  }

  /** What a write of any length to file x does to the other files: the one in the next slot stays
      if and only if it begins with the bytes that spill, and all others stay. */
  ghost predicate SpillsOver(sec: seq<Sector>, sec': seq<Sector>, sb: SuperBlock, live: Files, x: nat, spill: seq<byte>) {
    x in live && HasInodes(sec, sb) && HasInodes(sec', sb) && forall y :: y in live && y != x && InodeNumber(y) ==>
      (SameFile(sec, sec', sb, y) <==> live[y] != live[x] + 1 || BeginsWith(sec, sb, y, spill))
  }

  method WriteAny(d: Disk, sb: SuperBlock, table: array<Slot>, ghost live: Files, fd: FileDesc, data: seq<byte>) returns (n: int)
    requires VolumeInv(d.sectors, sb, live) && Coherent(d.sectors, sb, table[..])
    requires fd.rdwr && fd.slot < table.Length && table[fd.slot].cnt > 0 && table[fd.slot].num in live && fd.pos <= table[fd.slot].ino.size
    modifies d, table, fd
    ensures n == Moved(old(fd.pos), |data|, old(Capacity(table[fd.slot].ino))) && fd.pos == old(fd.pos) + n
    ensures old(fd.pos) <= FILE_BYTES
    ensures SpillsOver(old(d.sectors), d.sectors, sb, live, old(table[fd.slot].num), Spill(data, old(fd.pos)))
    ensures VolumeInv(d.sectors, sb, live) <==> old(fd.pos) + |data| <= FILE_BYTES
  {
    ghost var s0, num, pos := d.sectors, table[fd.slot].num, fd.pos;
    LiveExtent(s0, sb, live, table[..], fd.slot);
    n := WriteAsked(d, sb, table, fd, data);
    AllOthers(s0, d.sectors, sb, live, num, pos, data);
    VolumeKeptExactly(s0, d.sectors, sb, live, num, pos, data);
  }

  lemma AllOthers(sec: seq<Sector>, sec': seq<Sector>, sb: SuperBlock, live: Files, x: nat, pos: nat, data: seq<byte>)
    requires VolumeInv(sec, sb, live) && x in live && AskedToWrite(sec, sec', sb, x, pos, data)
    ensures pos <= FILE_BYTES && SpillsOver(sec, sec', sb, live, x, Spill(data, pos))
  {
    assert FileInode(sb, DiskInode(sec, sb, x), live[x]);
    forall y | y in live && y != x && InodeNumber(y)
      ensures SameFile(sec, sec', sb, y) <==> live[y] != live[x] + 1 || BeginsWith(sec, sb, y, Spill(data, pos))
    {
      if live[y] == live[x] + 1 {
        NeighbourKeptExactly(sec, sec', sb, live, x, y, pos, data);
      } else {
        OthersKeptAnyway(sec, sec', sb, live, x, y, pos, data);
      }
    }
  }

  /** Every slot holds the same inode number with the same reference count. */
  ghost predicate SameSlots(t: seq<Slot>, t': seq<Slot>) {
    |t'| == |t| && forall i :: 0 <= i < |t| ==> t'[i].num == t[i].num && t'[i].cnt == t[i].cnt
  }

  lemma SlotGrown(t: seq<Slot>, k: nat, ino: Inode)
    requires k < |t|
    ensures SameSlots(t, t[k := t[k].(ino := ino)])
  {
  }

  lemma LiveExtent(sec: seq<Sector>, sb: SuperBlock, live: Files, t: seq<Slot>, k: nat)
    requires VolumeInv(sec, sb, live) && Coherent(sec, sb, t) && k < |t| && t[k].cnt > 0 && t[k].num in live
    ensures ExtentOnDisk(sec, sb, t[k].ino)
  {
    ExtentsDisjoint(sec, sb, live, t[k].num, t[k].num);
  }

  lemma SameImap(s0: seq<Sector>, sec: seq<Sector>, sb: SuperBlock, t0: seq<Slot>, t: seq<Slot>)
    requires CachedInUse(s0, t0) && |sec| == |s0| && sec[IMAP0] == s0[IMAP0]
    requires SameSlots(t0, t)
    ensures CachedInUse(sec, t)
  {
  }

  lemma AllSameNames(sec: seq<Sector>, sec': seq<Sector>, sb: SuperBlock)
    requires OnVolume(sec, sb) && OnVolume(sec', sb) && RootDir(sec', sb) == RootDir(sec, sb)
    requires DiskInode(sec', sb, ROOT_INODE) == DiskInode(sec, sb, ROOT_INODE) && RootCount(sec, sb) <= BITS_PER_SECT
    ensures SameNamesAll(sec, sec', sb)
  {
    forall g | GoodName(g) ensures Resolves(sec', sb, g) == Resolves(sec, sb, g) { SameNames(sec, sec', sb, g); }
  }

  ghost predicate SameNamesAll(sec: seq<Sector>, sec': seq<Sector>, sb: SuperBlock) {
    Bounded(sec, sb) && Bounded(sec', sb) && forall g :: GoodName(g) ==> Resolves(sec', sb, g) == Resolves(sec, sb, g)
  }
}
