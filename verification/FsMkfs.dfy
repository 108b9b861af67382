/** mkfs: lays out an empty file system (kernel/fs.c:126-269). Its super block is the value
    MakeSuper computes; the sectors it writes establish the volume invariant. */
module FsMkfs {
  import opened Basics
  import opened FsDisk
  import opened FsMap
  import opened FsInode
  import opened FsFile
  import opened FsDir
  import opened FsNames
  import opened FsVolume
  import opened FsRoot
  import opened FsOps

  const RootName: seq<byte> := [46]
  const TtyName: seq<byte> := [100, 101, 118, 95, 116, 116, 121]

  /** The bits below n of a byte, set one by one. */
  method LowBits(n: nat) returns (b: byte)
    requires n <= 8
    ensures forall m :: 0 <= m < 8 ==> (TestBit(b, m) <==> m < n)
  {
    b := 0;
    forall m | 0 <= m < 8 ensures !TestBit(0, m) { ZeroBits(m); }
    for i := 0 to n
      invariant forall m :: 0 <= m < 8 ==> (TestBit(b, m) <==> m < i)
    {
      ByteRange(b, i);
      forall m | 0 <= m < 8 ensures TestBit(SetBit(b, i), m) <==> m == i || TestBit(b, m) { SetBitAt(b, i, m); }
      b := SetBit(b, i);
    }
  }

  /** A map sector whose first n bits are set: whole bytes first, then the bits left over. */
  method MapSector(n: nat) returns (buf: Sector)
    requires n < BITS_PER_SECT
    ensures forall k :: 0 <= k < BITS_PER_SECT ==> (SectBit(buf, k) <==> k < n)
  {
    buf := Zeros(SECTOR_SIZE);
    var i := 0;
    while i < n / 8
      invariant i <= n / 8
      invariant forall j :: 0 <= j < SECTOR_SIZE ==> buf[j] == if j < i then 255 else 0
    {
      buf := buf[i := 255];
      i := i + 1;
    }
    var b := LowBits(n % 8);
    buf := buf[i := b];
    forall k | 0 <= k < BITS_PER_SECT ensures SectBit(buf, k) <==> k < n {
      MapSectorBit(buf, n, b, k);
    }
  }

  lemma MapSectorBit(buf: Sector, n: nat, b: byte, k: nat)
    requires n < BITS_PER_SECT && k < BITS_PER_SECT
    requires forall j :: 0 <= j < SECTOR_SIZE ==> buf[j] == if j < n / 8 then 255 else if j == n / 8 then b else 0
    requires forall m :: 0 <= m < 8 ==> (TestBit(b, m) <==> m < n % 8)
    ensures SectBit(buf, k) <==> k < n
  {
    EightBits();
    OnesHaveBit(8, k % 8);
    ZeroBits(k % 8);
    assert k == 8 * (k / 8) + k % 8 && n == 8 * (n / 8) + n % 8;
  }

  /** The inode map sector: number 0, the root and the three terminals. */
  method MakeImap(d: Disk)
    requires IMAP0 < |d.sectors|
    modifies d
    ensures SameOutside(old(d.sectors), d.sectors, IMAP0, IMAP0 + 1)
    ensures forall n :: 0 <= n < BITS_PER_SECT ==> (MapBit(d.sectors, IMAP0, n) <==> n < NR_CONSOLES + 2)
  {
    var b := LowBits(NR_CONSOLES + 2);
    var buf: Sector := Zeros(SECTOR_SIZE)[0 := b];
    forall n | 0 <= n < BITS_PER_SECT ensures SectBit(buf, n) <==> n < NR_CONSOLES + 2 {
      MapSectorBit(buf, NR_CONSOLES + 2, b, n);
    }
    d.WrSect(IMAP0, buf);
  }

  /** The sector map: bit 0 and the root's 2048 bits in the first sector, zeros in the others. */
  method MakeSmap(d: Disk, m0: nat, k: nat)
    requires k > 0 && HasMap(d.sectors, m0, k)
    modifies d
    ensures SameOutside(old(d.sectors), d.sectors, m0, m0 + k)
    ensures forall n :: 0 <= n < k * BITS_PER_SECT ==> (MapBit(d.sectors, m0, n) <==> n <= NR_DEFAULT_FILE_SECTS)
  {
    ghost var was := d.sectors;
    var buf := MapSector(NR_DEFAULT_FILE_SECTS + 1);
    d.WrSect(m0, buf);
    var zero: Sector := Zeros(SECTOR_SIZE);
    var i := 1;
    while i < k
      invariant 1 <= i <= k && SameOutside(was, d.sectors, m0, m0 + k)
      invariant d.sectors[m0] == buf && forall s :: m0 < s < m0 + i ==> d.sectors[s] == zero
    {
      d.WrSect(m0 + i, zero);
      i := i + 1;
    }
    forall n | 0 <= n < k * BITS_PER_SECT ensures MapBit(d.sectors, m0, n) <==> n <= NR_DEFAULT_FILE_SECTS {
      assert n / BITS_PER_SECT < k;
      if n / BITS_PER_SECT > 0 {
        ZeroBits(n % BITS_PER_SECT % 8);
      }
    }
  }

  function RootInode(sb: SuperBlock): Inode
    requires sb.n1stSect < 0x1_0000_0000
  {
    Inode(I_DIRECTORY, DIR_ENTRY_SIZE * 4, sb.n1stSect, NR_DEFAULT_FILE_SECTS)
  }

  /** The special file of terminal i: MAKE_DEV(DEV_CHAR_TTY, i) in place of a start sector. */
  function TtyInode(i: nat): Inode
    requires i < NR_CONSOLES
  {
    Inode(I_CHAR_SPECIAL, 0, 0x100 * DEV_CHAR_TTY + i, 0)
  }

  /** The first sector of the inode array: the root and the three terminals. */
  method InodeImage(sb: SuperBlock) returns (buf: Sector)
    requires sb.n1stSect < 0x1_0000_0000
    ensures InodeAt(buf, 0) == RootInode(sb)
    ensures forall k :: 0 < k <= NR_CONSOLES ==> InodeAt(buf, k) == TtyInode(k - 1)
  {
    buf := Zeros(SECTOR_SIZE);
    StoreInodeAt(buf, 0, RootInode(sb), 0);
    buf := StoreInode(buf, 0, RootInode(sb));
    var i := 0;
    while i < NR_CONSOLES
      invariant i <= NR_CONSOLES
      invariant InodeAt(buf, 0) == RootInode(sb)
      invariant forall k :: 0 < k <= i ==> InodeAt(buf, k) == TtyInode(k - 1)
    {
      buf := AddTty(buf, i);
      i := i + 1;
    }
  }

  method AddTty(buf: Sector, i: nat) returns (r: Sector)
    requires i < NR_CONSOLES
    ensures forall k :: 0 <= k <= i ==> InodeAt(r, k) == InodeAt(buf, k)
    ensures InodeAt(r, i + 1) == TtyInode(i)
  {
    r := StoreInode(buf, i + 1, TtyInode(i));
    forall k | 0 <= k <= i + 1 ensures InodeAt(r, k) == if k == i + 1 then TtyInode(i) else InodeAt(buf, k) {
      StoreInodeAt(buf, i + 1, TtyInode(i), k);
    }
  }

  method MakeInodes(d: Disk, sb: SuperBlock)
    requires HasInodes(d.sectors, sb) && sb.n1stSect < 0x1_0000_0000
    modifies d
    ensures SameOutside(old(d.sectors), d.sectors, sb.Inode0(), sb.Inode0() + 1)
    ensures DiskInode(d.sectors, sb, ROOT_INODE) == RootInode(sb)
    ensures forall m :: 2 <= m < 2 + NR_CONSOLES ==> DiskInode(d.sectors, sb, m) == TtyInode(m - 2)
  {
    var buf := InodeImage(sb);
    d.WrSect(sb.Inode0(), buf);
  }

  function MkfsEntry(j: nat): Entry
    requires j < ENTRIES_PER_SECT
  {
    if j == 0 then Entry(1, Pad(RootName))
    else if j <= NR_CONSOLES then Entry(j + 1, Pad(TtyName + [47 + j]))
    else FreeEntry
  }

  /** Puts one entry into an empty place of a directory sector. */
  method PutEntry(buf: Sector, j: nat, nr: u32, f: seq<byte>) returns (r: Sector)
    requires j < ENTRIES_PER_SECT && GoodName(f) && EntryAt(buf, j) == FreeEntry
    ensures forall k :: 0 <= k < ENTRIES_PER_SECT ==> EntryAt(r, k) == if k == j then Entry(nr, Pad(f)) else EntryAt(buf, k)
  {
    r := WithEntry(buf, j, nr, f);
    forall k | 0 <= k < ENTRIES_PER_SECT ensures EntryAt(r, k) == if k == j then Entry(nr, Pad(f)) else EntryAt(buf, k) {
      WithEntryAt(buf, j, nr, f, k);
    }
  }

  /** The first sector of the root directory: the entries of the root and the terminals. */
  method RootDirImage() returns (buf: Sector)
    ensures forall j :: 0 <= j < ENTRIES_PER_SECT ==> EntryAt(buf, j) == MkfsEntry(j)
  {
    buf := Zeros(SECTOR_SIZE);
    forall j | 0 <= j < ENTRIES_PER_SECT ensures EntryAt(buf, j) == FreeEntry { ZeroSector(j); }
    buf := PutEntry(buf, 0, 1, RootName);
    var i := 0;
    while i < NR_CONSOLES
      invariant i <= NR_CONSOLES
      invariant forall j :: 0 <= j < ENTRIES_PER_SECT ==> EntryAt(buf, j) == if j <= i then MkfsEntry(j) else FreeEntry
    {
      var name := TtyName + [48 + i];
      buf := PutEntry(buf, i + 1, i + 2, name);
      i := i + 1;
    }
  }

  method MakeRootDir(d: Disk, start: nat)
    requires start < |d.sectors|
    modifies d
    ensures SameOutside(old(d.sectors), d.sectors, start, start + 1)
    ensures forall j :: 0 <= j < ENTRIES_PER_SECT ==> DirEnt(d.sectors, start, j) == MkfsEntry(j)
  {
    var buf := RootDirImage();
    d.WrSect(start, buf);
  }

  /** mkfs: on any disk, whatever it held before, the volume invariant holds with the root
      directory as the only file. The directory is in order too if and only if the rest of its
      extent, which mkfs does not write, holds no entries. */
  method Mkfs(d: Disk) returns (sb: SuperBlock)
    requires Formatted(MakeSuper(|d.sectors|))
    modifies d
    ensures sb == MakeSuper(old(|d.sectors|)) && VolumeInv(d.sectors, sb, map[ROOT_INODE := 0])
    ensures DiskInode(d.sectors, sb, ROOT_INODE) == RootInode(sb)
    ensures forall c: nat :: IsConsole(c) ==> MapBit(d.sectors, IMAP0, c) && DiskInode(d.sectors, sb, c) == TtyInode(c - 2)
    ensures forall c: nat :: IsConsole(c) ==> IsTerminal(DiskInode(d.sectors, sb, c), c)
    ensures forall j :: 0 <= j < ENTRIES_PER_SECT ==> DirEnt(d.sectors, sb.n1stSect, j) == MkfsEntry(j)
    ensures forall s :: sb.n1stSect < s < |d.sectors| ==> d.sectors[s] == old(d.sectors)[s]
    ensures DirInv(d.sectors, sb, map[ROOT_INODE := 0]) <==> RestIsFree(old(d.sectors), sb)
  {
    ghost var s0 := d.sectors;
    sb := MakeSuper(|d.sectors|);
    MakeImap(d);
    ghost var s1 := d.sectors;
    MakeSmap(d, sb.Smap0(), sb.nrSmapSects);
    ghost var s2 := d.sectors;
    MakeInodes(d, sb);
    ghost var s3 := d.sectors;
    MakeRootDir(d, sb.n1stSect);
    NewVolume(s1, s2, s3, d.sectors, sb);
    NewConsoles(s1, s2, s3, d.sectors, sb);
    NewDirectory(s0, d.sectors, sb);
  }

  /** The sectors of the root directory behind its first one hold only free entries. */
  ghost predicate RestIsFree(sec: seq<Sector>, sb: SuperBlock) {
    OnVolume(sec, sb) && forall k :: ENTRIES_PER_SECT <= k < DIR_TOTAL ==> DirEnt(sec, sb.n1stSect, k) == FreeEntry
  }

  lemma NewConsoles(s1: seq<Sector>, s2: seq<Sector>, s3: seq<Sector>, s4: seq<Sector>, sb: SuperBlock)
    requires Formatted(sb) && |s1| == sb.nrSects
    requires forall n :: 0 <= n < BITS_PER_SECT ==> (MapBit(s1, IMAP0, n) <==> n < NR_CONSOLES + 2)
    requires SameOutside(s1, s2, sb.Smap0(), sb.Smap0() + sb.nrSmapSects) && SameOutside(s2, s3, sb.Inode0(), sb.Inode0() + 1)
    requires HasInodes(s3, sb) && forall m :: 2 <= m < 2 + NR_CONSOLES ==> DiskInode(s3, sb, m) == TtyInode(m - 2)
    requires SameOutside(s3, s4, sb.n1stSect, sb.n1stSect + 1)
    ensures forall c: nat :: IsConsole(c) ==> MapBit(s4, IMAP0, c) && DiskInode(s4, sb, c) == TtyInode(c - 2)
  {
    assert s4[IMAP0] == s1[IMAP0];
    forall c: nat | IsConsole(c) ensures MapBit(s4, IMAP0, c) && DiskInode(s4, sb, c) == TtyInode(c - 2) {
      assert MapBit(s1, IMAP0, c) && DiskInode(s3, sb, c) == TtyInode(c - 2);
      assert s4[InodeSector(sb, c)] == s3[InodeSector(sb, c)];
    }
  }

  lemma NewDirectory(s0: seq<Sector>, sec: seq<Sector>, sb: SuperBlock)
    requires VolumeInv(sec, sb, map[ROOT_INODE := 0]) && |s0| == |sec| && DiskInode(sec, sb, ROOT_INODE) == RootInode(sb)
    requires forall c: nat :: IsConsole(c) ==> MapBit(sec, IMAP0, c) && DiskInode(sec, sb, c) == TtyInode(c - 2)
    requires forall j :: 0 <= j < ENTRIES_PER_SECT ==> DirEnt(sec, sb.n1stSect, j) == MkfsEntry(j)
    requires forall s :: sb.n1stSect < s < |sec| ==> sec[s] == s0[s]
    ensures DirInv(sec, sb, map[ROOT_INODE := 0]) <==> RestIsFree(s0, sb)
  {
    NewListing(s0, sec, sb, RootDir(sec, sb));
    NewKinds(sec, sb);
    FirstKnown(map[ROOT_INODE := 0]);
  }

  lemma FirstKnown(live: Files)
    requires live == map[ROOT_INODE := 0]
    ensures live.Keys + Consoles() == {1, 2, 3, 4}
  {
  }

  lemma NewKinds(sec: seq<Sector>, sb: SuperBlock)
    requires OnVolume(sec, sb) && DiskInode(sec, sb, ROOT_INODE) == RootInode(sb)
    requires forall c: nat :: IsConsole(c) ==> MapBit(sec, IMAP0, c) && DiskInode(sec, sb, c) == TtyInode(c - 2)
    ensures KindsOk(sec, sb, map[ROOT_INODE := 0]) && RootCount(sec, sb) == 4 && DiskInode(sec, sb, ROOT_INODE).size % DIR_ENTRY_SIZE == 0
  {
  }

  lemma NewListing(s0: seq<Sector>, sec: seq<Sector>, sb: SuperBlock, es: seq<Entry>)
    requires OnVolume(sec, sb) && OnVolume(s0, sb) && es == RootDir(sec, sb)
    requires forall j :: 0 <= j < ENTRIES_PER_SECT ==> DirEnt(sec, sb.n1stSect, j) == MkfsEntry(j)
    requires forall s :: sb.n1stSect < s < |sec| ==> sec[s] == s0[s]
    ensures Listing(es, 4, {1, 2, 3, 4}) <==> RestIsFree(s0, sb)
  {
    forall k | ENTRIES_PER_SECT <= k < DIR_TOTAL ensures es[k] == DirEnt(s0, sb.n1stSect, k) {
      assert sb.n1stSect < sb.n1stSect + k / ENTRIES_PER_SECT < |sec|;
    }
    assert forall j :: 0 <= j < ENTRIES_PER_SECT ==> es[j] == MkfsEntry(j);
    if RestIsFree(s0, sb) { MkfsListing(es); }
  }

  /** On a volume as mkfs leaves it the terminals are found under their names, and the root under ".". */
  lemma NamesAfterMkfs(sec: seq<Sector>, sb: SuperBlock, i: nat)
    requires OnVolume(sec, sb) && DiskInode(sec, sb, ROOT_INODE) == RootInode(sb) && i < NR_CONSOLES
    requires forall j :: 0 <= j < ENTRIES_PER_SECT ==> DirEnt(sec, sb.n1stSect, j) == MkfsEntry(j)
    ensures RootCount(sec, sb) == 4
    ensures Resolves(sec, sb, [100, 101, 118, 95, 116, 116, 121, 48 + i]) == 2 + i
    ensures Resolves(sec, sb, [46]) == ROOT_INODE
  {
    FirstFour(sec, sb, i + 1);
    FirstFour(sec, sb, 0);
    assert [100, 101, 118, 95, 116, 116, 121, 48 + i] == MkfsNameOf(i + 1);
  }

  lemma FirstFour(sec: seq<Sector>, sb: SuperBlock, k: nat)
    requires OnVolume(sec, sb) && DiskInode(sec, sb, ROOT_INODE) == RootInode(sb) && k < 4
    requires forall j :: 0 <= j < ENTRIES_PER_SECT ==> DirEnt(sec, sb.n1stSect, j) == MkfsEntry(j)
    ensures RootCount(sec, sb) == 4 && Resolves(sec, sb, MkfsNameOf(k)) == k + 1
  {
    var name, limit := Pad(MkfsNameOf(k)), SearchLimit(DiskInode(sec, sb, ROOT_INODE).size);
    MkfsName(k);
    ZeroNameIsNoName(MkfsNameOf(k));
    forall j | 0 <= j < limit && j != k ensures DirEnt(sec, sb.n1stSect, j).name != name {
      if j < k { MkfsNamesDiffer(j, k); }
      if k < j < 4 { MkfsNamesDiffer(k, j); }
    }
    LookupOnly(sec, sb.n1stSect, limit, name, k);
  }

  lemma MkfsListing(es: seq<Entry>)
    requires |es| == DIR_TOTAL && forall j :: 0 <= j < DIR_TOTAL ==> es[j] == if j < ENTRIES_PER_SECT then MkfsEntry(j) else FreeEntry
    ensures Listing(es, 4, {1, 2, 3, 4})
  {
    forall j | 0 <= j < DIR_TOTAL ensures if j < 4 then es[j].nr == j + 1 && IsName(es[j].name) else es[j] == FreeEntry {
      if j < 4 { MkfsName(j); }
    }
    forall j, k | 0 <= j < k < DIR_TOTAL && es[j].nr != 0 && es[k].nr != 0 ensures es[j].nr != es[k].nr && es[j].name != es[k].name {
      assert j < k < 4;
      MkfsNamesDiffer(j, k);
    }
    assert es[0].nr == 1 && es[1].nr == 2 && es[2].nr == 3 && es[3].nr == 4;
  }

  function MkfsNameOf(j: nat): seq<byte>
    requires j < 4
  {
    if j == 0 then RootName else TtyName + [47 + j]
  }

  lemma MkfsName(j: nat)
    requires j < 4
    ensures GoodName(MkfsNameOf(j)) && MkfsEntry(j) == Entry(j + 1, Pad(MkfsNameOf(j))) && IsName(MkfsEntry(j).name)
  {
  }

  lemma MkfsNamesDiffer(j: nat, k: nat)
    requires j < k < 4
    ensures MkfsEntry(j).name != MkfsEntry(k).name
  {
    MkfsName(j);
    MkfsName(k);
    var f, g := MkfsNameOf(j), MkfsNameOf(k);
    assert f[|f| - 1] != g[|g| - 1];
    if Pad(f) == Pad(g) { PadInjective(f, g); }
  }

  /** init_fs, found being the super block with the magic number that was read, if any. Without one the
      volume is made, and the file system is ready for its first call if and only if the rest of the
      root directory's extent holds no entries. With one whose volume and directory are in order the
      disk stays as it is, and the file system is ready with the files it had. */
  method InitFs(d: Disk, table: array<Slot>, found: Option<SuperBlock>, ghost live: Files) returns (sb: SuperBlock, r: nat)
    requires table.Length > 0
    requires if found.Some? then DirInv(d.sectors, found.value, live) else Formatted(MakeSuper(|d.sectors|))
    modifies d, table
    ensures found.None? ==> sb == MakeSuper(old(|d.sectors|)) && Mounted(d, sb, table[..], r, map[ROOT_INODE := 0])
    ensures found.None? ==> (Ready(d, sb, table[..], r, map[ROOT_INODE := 0]) <==> RestIsFree(old(d.sectors), sb))
    ensures found.Some? ==> sb == found.value && d.sectors == old(d.sectors) && Ready(d, sb, table[..], r, live)
  {
    ClearTable(table);
    if found.None? {
      sb, r := MountNew(d, table);
    } else {
      sb := found.value;
      r := MountFound(d, sb, table, live);
    }
  }

  method MountNew(d: Disk, table: array<Slot>) returns (sb: SuperBlock, r: nat)
    requires table.Length > 0 && Formatted(MakeSuper(|d.sectors|)) && forall j :: 0 <= j < table.Length ==> table[j].cnt == 0
    modifies d, table
    ensures sb == MakeSuper(old(|d.sectors|)) && Mounted(d, sb, table[..], r, map[ROOT_INODE := 0])
    ensures Ready(d, sb, table[..], r, map[ROOT_INODE := 0]) <==> RestIsFree(old(d.sectors), sb)
  {
    sb := Mkfs(d);
    ghost var t := table[..];
    r := ReadRoot(d, sb, table);
    FirstMount(d, sb, t, table[..], r);
  }

  method MountFound(d: Disk, sb: SuperBlock, table: array<Slot>, ghost live: Files) returns (r: nat)
    requires table.Length > 0 && DirInv(d.sectors, sb, live) && forall j :: 0 <= j < table.Length ==> table[j].cnt == 0
    modifies table
    ensures Ready(d, sb, table[..], r, live)
  {
    OrderedVolume(d.sectors, sb, live);
    r := ReadRoot(d, sb, table);
    MountAgain(d, sb, table[..], r, live);
  }

  method ClearTable(table: array<Slot>)
    modifies table
    ensures forall j :: 0 <= j < table.Length ==> table[j].cnt == 0
  {
    var i := 0;
    while i < table.Length
      invariant i <= table.Length && forall j :: 0 <= j < i ==> table[j].cnt == 0
    {
      table[i] := Slot(Inode(0, 0, 0, 0), 0, 0);
      i := i + 1;
    }
  }

  /** get_inode of the root, into an empty table. */
  method ReadRoot(d: Disk, sb: SuperBlock, table: array<Slot>) returns (r: nat)
    requires HasInodes(d.sectors, sb) && table.Length > 0 && forall j :: 0 <= j < table.Length ==> table[j].cnt == 0
    modifies table
    ensures Got(d.sectors, sb, old(table[..]), table[..], ROOT_INODE, r) && Coherent(d.sectors, sb, table[..])
    ensures OnlyRoot(table[..], r)
  {
    assert CanCache(table[..], ROOT_INODE) by { assert table[..][0].cnt == 0; }
    var k := GetInodeSched(d, sb, table, ROOT_INODE);
    r := k;
  }

  ghost predicate OnlyRoot(t: seq<Slot>, r: nat) {
    r < |t| && t[r].num == ROOT_INODE && forall i :: 0 <= i < |t| ==> (t[i].cnt > 0 <==> i == r)
  }

  lemma OrderedVolume(sec: seq<Sector>, sb: SuperBlock, live: Files)
    requires DirInv(sec, sb, live)
    ensures HasInodes(sec, sb) && MapBit(sec, IMAP0, ROOT_INODE)
  {
  }

  lemma MountAgain(d: Disk, sb: SuperBlock, t: seq<Slot>, r: nat, live: Files)
    requires DirInv(d.sectors, sb, live) && OnlyRoot(t, r) && Coherent(d.sectors, sb, t)
    ensures Ready(d, sb, t, r, live)
  {
    OrderedVolume(d.sectors, sb, live);
    RootSlotReady(d, sb, t, r, live);
  }

  lemma FirstMount(d: Disk, sb: SuperBlock, t: seq<Slot>, t': seq<Slot>, r: nat)
    requires VolumeInv(d.sectors, sb, map[ROOT_INODE := 0]) && DiskInode(d.sectors, sb, ROOT_INODE) == RootInode(sb)
    requires (forall i :: 0 <= i < |t| ==> t[i].cnt == 0) && Got(d.sectors, sb, t, t', ROOT_INODE, r) && Coherent(d.sectors, sb, t')
    ensures Mounted(d, sb, t', r, map[ROOT_INODE := 0])
  {
    ExtentsDisjoint(d.sectors, sb, map[ROOT_INODE := 0], ROOT_INODE, ROOT_INODE);
    assert MapBit(d.sectors, IMAP0, ROOT_INODE);
  }

  lemma NewVolume(s1: seq<Sector>, s2: seq<Sector>, s3: seq<Sector>, s4: seq<Sector>, sb: SuperBlock)
    requires Formatted(sb) && |s1| == sb.nrSects
    requires forall n :: 0 <= n < BITS_PER_SECT ==> (MapBit(s1, IMAP0, n) <==> n < NR_CONSOLES + 2)
    requires SameOutside(s1, s2, sb.Smap0(), sb.Smap0() + sb.nrSmapSects)
    requires forall n :: 0 <= n < sb.MapBits() ==> (MapBit(s2, sb.Smap0(), n) <==> n <= NR_DEFAULT_FILE_SECTS)
    requires SameOutside(s2, s3, sb.Inode0(), sb.Inode0() + 1)
    requires HasInodes(s3, sb) && DiskInode(s3, sb, ROOT_INODE) == RootInode(sb)
    requires SameOutside(s3, s4, sb.n1stSect, sb.n1stSect + 1)
    ensures VolumeInv(s4, sb, map[ROOT_INODE := 0])
    ensures DiskInode(s4, sb, ROOT_INODE) == RootInode(sb)
  {
    var live: Files := map[ROOT_INODE := 0];
    assert s4[IMAP0] == s1[IMAP0];
    assert MapBit(s1, IMAP0, ROOT_INODE) && MapBit(s1, IMAP0, 0);
    assert s4[InodeSector(sb, ROOT_INODE)] == s3[InodeSector(sb, ROOT_INODE)];
    forall n | 0 <= n < sb.MapBits()
      ensures MapBit(s4, sb.Smap0(), n) <==> n == 0 || FsVolume.Taken(live, (n - 1) / NR_DEFAULT_FILE_SECTS)
    {
      assert sb.Smap0() + n / BITS_PER_SECT < sb.Inode0();
      assert MapBit(s4, sb.Smap0(), n) <==> MapBit(s2, sb.Smap0(), n);
      RootOnly(live, n);
    }
  }

  lemma RootOnly(live: Files, n: nat)
    requires live == map[ROOT_INODE := 0]
    ensures n == 0 || FsVolume.Taken(live, (n - 1) / NR_DEFAULT_FILE_SECTS) <==> n <= NR_DEFAULT_FILE_SECTS
  {
    assert ROOT_INODE in live && live[ROOT_INODE] == 0;
  }

  /** The geometry the kernel ships with: 40257 sectors, first data sector 269, and every whole
      slot of the map lies on the partition. */
  lemma ShippedGeometry()
    ensures var sb := MakeSuper(40257);
            && Formatted(sb) && sb.nrSmapSects == 10 && sb.n1stSect == 269
            && forall m: nat :: SlotBit(m + 1) <= sb.MapBits() ==> UsableSlot(sb, m)
  {
  }

  /** On other partitions the map can have whole slots that reach past the end: the last one is
      usable exactly when the partition's size leaves room for it, which nothing checks. */
  lemma LastSlotOnDisk(nrSects: nat)
    ensures var sb := MakeSuper(nrSects);
            UsableSlot(sb, 2 * sb.nrSmapSects - 2) <==> nrSects % BITS_PER_SECT > sb.n1stSect + NR_DEFAULT_FILE_SECTS
  {}
}
