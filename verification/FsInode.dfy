/** Inodes on the disk, sixteen to a sector, and the in-memory table that caches them
    (kernel/fs.c:867-999, include/fs_misc.h:62-79). */
module FsInode {
  import opened Basics
  import opened FsDisk

  const INODE_SIZE := 32
  const INODES_PER_SECT := 16
  const MAX_INODE := 4096

  const I_REGULAR: u32 := 0x8000
  const I_DIRECTORY: u32 := 0x4000
  const I_CHAR_SPECIAL: u32 := 0x2000

  // ---------------------------------------------------------------------------------------
  // Little-endian words in a sector

  function Le32(b: Sector, off: nat): u32
    requires off + 4 <= SECTOR_SIZE
  {
    var b0: int, b1: int, b2: int, b3: int := b[off], b[off + 1], b[off + 2], b[off + 3];
    b0 + 0x100 * b1 + 0x1_0000 * b2 + 0x100_0000 * b3
  }

  function PutLe32(b: Sector, off: nat, v: u32): Sector
    requires off + 4 <= SECTOR_SIZE
  {
    b[off := v % 0x100][off + 1 := v / 0x100 % 0x100][off + 2 := v / 0x1_0000 % 0x100][off + 3 := v / 0x100_0000]
  }

  /** A stored word reads back, and words that do not overlap it are as before. */
  lemma PutLe32At(b: Sector, off: nat, v: u32, at: nat)
    requires off + 4 <= SECTOR_SIZE && at + 4 <= SECTOR_SIZE
    requires at == off || at + 4 <= off || off + 4 <= at
    ensures Le32(PutLe32(b, off, v), at) == if at == off then v else Le32(b, at)
  {
    if at == off { Digits(v); }
  }

  lemma Digits(v: u32)
    ensures v == v % 0x100 + 0x100 * (v / 0x100 % 0x100) + 0x1_0000 * (v / 0x1_0000 % 0x100) + 0x100_0000 * (v / 0x100_0000)
  {
    var a, b, c := v / 0x100, v / 0x1_0000, v / 0x100_0000;
    assert b == a / 0x100 && c == b / 0x100;
    assert v == 0x100 * a + v % 0x100 && a == 0x100 * b + a % 0x100 && b == 0x100 * c + b % 0x100;
  }

  // ---------------------------------------------------------------------------------------
  // Inodes on the disk

  datatype Inode = Inode(mode: u32, size: u32, start: u32, nrSects: u32)

  function InodeAt(b: Sector, k: nat): Inode
    requires k < INODES_PER_SECT
  {
    Inode(Le32(b, INODE_SIZE * k), Le32(b, INODE_SIZE * k + 4), Le32(b, INODE_SIZE * k + 8), Le32(b, INODE_SIZE * k + 12))
  }

  /** The four assignments through the struct pointer. */
  function StoreInode(b: Sector, k: nat, ino: Inode): Sector
    requires k < INODES_PER_SECT
  {
    PutLe32(PutLe32(PutLe32(PutLe32(b, INODE_SIZE * k, ino.mode), INODE_SIZE * k + 4, ino.size),
                    INODE_SIZE * k + 8, ino.start), INODE_SIZE * k + 12, ino.nrSects)
  }

  lemma StoredWord(b: Sector, k: nat, ino: Inode, at: nat)
    requires k < INODES_PER_SECT && at % 4 == 0 && at + 4 <= SECTOR_SIZE
    ensures Le32(StoreInode(b, k, ino), at) ==
              if at == INODE_SIZE * k then ino.mode
              else if at == INODE_SIZE * k + 4 then ino.size
              else if at == INODE_SIZE * k + 8 then ino.start
              else if at == INODE_SIZE * k + 12 then ino.nrSects
              else Le32(b, at)
  {
    var o := INODE_SIZE * k;
    var b1 := PutLe32(b, o, ino.mode);
    var b2 := PutLe32(b1, o + 4, ino.size);
    var b3 := PutLe32(b2, o + 8, ino.start);
    PutLe32At(b, o, ino.mode, at);
    PutLe32At(b1, o + 4, ino.size, at);
    PutLe32At(b2, o + 8, ino.start, at);
    PutLe32At(b3, o + 12, ino.nrSects, at);
  }

  /** Storing one inode leaves the other fifteen of the sector as they were. */
  lemma StoreInodeAt(b: Sector, k: nat, ino: Inode, m: nat)
    requires k < INODES_PER_SECT && m < INODES_PER_SECT
    ensures InodeAt(StoreInode(b, k, ino), m) == if m == k then ino else InodeAt(b, m)
  {
    StoredWord(b, k, ino, INODE_SIZE * m);
    StoredWord(b, k, ino, INODE_SIZE * m + 4);
    StoredWord(b, k, ino, INODE_SIZE * m + 8);
    StoredWord(b, k, ino, INODE_SIZE * m + 12);
  }

  predicate InodeNumber(num: nat) { 1 <= num <= MAX_INODE }

  /** The inode array of 256 sectors lies on the disk. */
  predicate HasInodes(sec: seq<Sector>, sb: SuperBlock) { sb.Inode0() + 256 <= |sec| }

  function InodeSector(sb: SuperBlock, num: nat): (s: nat)
    requires InodeNumber(num)
    ensures sb.Inode0() <= s < sb.Inode0() + 256
  {
    sb.Inode0() + (num - 1) / INODES_PER_SECT
  }

  /** What a direct disk read of inode num gives. */
  function DiskInode(sec: seq<Sector>, sb: SuperBlock, num: nat): Inode
    requires InodeNumber(num) && HasInodes(sec, sb)
  {
    InodeAt(sec[InodeSector(sb, num)], (num - 1) % INODES_PER_SECT)
  }

  /** The little-endian word at address a of the disk. */
  predicate WordAt(sec: seq<Sector>, a: nat, v: u32) {
    && a + 4 <= SECTOR_SIZE * |sec|
    && v % 0x100 == sec[a / SECTOR_SIZE][a % SECTOR_SIZE] && v / 0x100 % 0x100 == sec[(a + 1) / SECTOR_SIZE][(a + 1) % SECTOR_SIZE]
    && v / 0x1_0000 % 0x100 == sec[(a + 2) / SECTOR_SIZE][(a + 2) % SECTOR_SIZE]
    && v / 0x100_0000 == sec[(a + 3) / SECTOR_SIZE][(a + 3) % SECTOR_SIZE]
  }

  /** Where inode num is: 32 bytes behind those of the one before it, the first one behind the boot
      sector, the super block and the two maps; mode, size, first sector and number of sectors. */
  lemma InodeLayout(sec: seq<Sector>, sb: SuperBlock, num: nat)
    requires InodeNumber(num) && HasInodes(sec, sb)
    ensures var a, ino := SECTOR_SIZE * (2 + sb.nrImapSects + sb.nrSmapSects) + 32 * (num - 1), DiskInode(sec, sb, num);
            WordAt(sec, a, ino.mode) && WordAt(sec, a + 4, ino.size) && WordAt(sec, a + 8, ino.start) && WordAt(sec, a + 12, ino.nrSects)
  {
    var s, k := InodeSector(sb, num), (num - 1) % INODES_PER_SECT;
    var a := SECTOR_SIZE * (2 + sb.nrImapSects + sb.nrSmapSects) + 32 * (num - 1);
    InodePlace(sb, num);
    WordInSector(sec, s, INODE_SIZE * k, a);
    WordInSector(sec, s, INODE_SIZE * k + 4, a + 4);
    WordInSector(sec, s, INODE_SIZE * k + 8, a + 8);
    WordInSector(sec, s, INODE_SIZE * k + 12, a + 12);
  }

  lemma InodePlace(sb: SuperBlock, num: nat)
    requires InodeNumber(num)
    ensures SECTOR_SIZE * InodeSector(sb, num) + INODE_SIZE * ((num - 1) % INODES_PER_SECT)
            == SECTOR_SIZE * (2 + sb.nrImapSects + sb.nrSmapSects) + 32 * (num - 1)
  {
    assert num - 1 == INODES_PER_SECT * ((num - 1) / INODES_PER_SECT) + (num - 1) % INODES_PER_SECT;
  }

  lemma WordInSector(sec: seq<Sector>, s: nat, off: nat, a: nat)
    requires s < |sec| && off + 4 <= SECTOR_SIZE && a == SECTOR_SIZE * s + off
    ensures WordAt(sec, a, Le32(sec[s], off))
  {
    SameSector(s, off);
    SameSector(s, off + 1);
    SameSector(s, off + 2);
    SameSector(s, off + 3);
    WordBytes(sec[s][off], sec[s][off + 1], sec[s][off + 2], sec[s][off + 3]);
  }

  lemma SameSector(s: nat, off: nat)
    requires off < SECTOR_SIZE
    ensures (SECTOR_SIZE * s + off) / SECTOR_SIZE == s && (SECTOR_SIZE * s + off) % SECTOR_SIZE == off
  {
  }

  lemma WordBytes(b0: byte, b1: byte, b2: byte, b3: byte)
    ensures var v := b0 + 0x100 * b1 + 0x1_0000 * b2 + 0x100_0000 * b3;
            v % 0x100 == b0 && v / 0x100 % 0x100 == b1 && v / 0x1_0000 % 0x100 == b2 && v / 0x100_0000 == b3
  {
    var v: int, w: int := b0 + 0x100 * b1 + 0x1_0000 * b2 + 0x100_0000 * b3, b1 + 0x100 * b2 + 0x1_0000 * b3;
    var x: int := b2 + 0x100 * b3;
    assert v == b0 + 0x100 * w && w == b1 + 0x100 * x;
    assert v / 0x100 == w && w / 0x100 == x && x / 0x100 == b3;
  }

  /** Only inode num may differ between the two disks. */
  ghost predicate OnlyInode(sec: seq<Sector>, sec': seq<Sector>, sb: SuperBlock, num: nat, ino: Inode) {
    && |sec'| == |sec| && HasInodes(sec, sb)
    && SameOutside(sec, sec', sb.Inode0(), sb.Inode0() + 256)
    && forall m :: InodeNumber(m) ==> DiskInode(sec', sb, m) == if m == num then ino else DiskInode(sec, sb, m)
  }

  // ---------------------------------------------------------------------------------------
  // The inode table

  /** A slot of inode_table: the cached inode, its reference count and its number. */
  datatype Slot = Slot(ino: Inode, cnt: nat, num: nat)

  predicate InUse(t: seq<Slot>, i: nat, num: nat) { i < |t| && t[i].cnt > 0 && t[i].num == num }

  /** No inode is cached twice and each slot in use holds what is on the disk. */
  ghost predicate Coherent(sec: seq<Sector>, sb: SuperBlock, t: seq<Slot>) {
    && HasInodes(sec, sb)
    && (forall i :: 0 <= i < |t| && t[i].cnt > 0 ==> InodeNumber(t[i].num) && t[i].ino == DiskInode(sec, sb, t[i].num))
    && (forall i, j :: 0 <= i < j < |t| && t[i].cnt > 0 && t[j].cnt > 0 ==> t[i].num != t[j].num)
  }

  /** The inode is cached or a slot is free for it. */
  ghost predicate CanCache(t: seq<Slot>, num: nat) {
    exists i :: 0 <= i < |t| && (t[i].cnt == 0 || t[i].num == num)
  }

  /** What get_inode does to the table: a hit gains a reference, a miss fills the first free
      slot with what is on the disk. */
  ghost predicate Got(sec: seq<Sector>, sb: SuperBlock, t: seq<Slot>, t': seq<Slot>, num: nat, r: nat)
    requires InodeNumber(num) && HasInodes(sec, sb)
  {
    && r < |t|
    && t' == t[r := Slot(DiskInode(sec, sb, num), if InUse(t, r, num) then t[r].cnt + 1 else 1, num)]
    && (!InUse(t, r, num) ==>
          && t[r].cnt == 0
          && (forall i :: 0 <= i < r ==> t[i].cnt > 0)
          && forall i :: 0 <= i < |t| ==> !InUse(t, i, num))
  }

  /** get_inode_sched: the slot of inode num, or -1 (the null pointer) for number 0. */
  method GetInodeSched(d: Disk, sb: SuperBlock, table: array<Slot>, num: nat) returns (r: int)
    requires Coherent(d.sectors, sb, table[..]) && num <= MAX_INODE
    requires num != 0 ==> CanCache(table[..], num)
    modifies table
    ensures num == 0 ==> r == -1 && table[..] == old(table[..])
    ensures num != 0 ==> r >= 0 && Got(d.sectors, sb, old(table[..]), table[..], num, r)
    ensures Coherent(d.sectors, sb, table[..])
  {
    if num == 0 { return -1; }
    ghost var t := table[..];
    var q := -1;
    var p := 0;
    while p < table.Length
      invariant p <= table.Length && table[..] == t
      invariant forall i :: 0 <= i < p ==> !InUse(t, i, num)
      invariant q == -1 ==> forall i :: 0 <= i < p ==> t[i].cnt > 0
      invariant q != -1 ==> 0 <= q < p && t[q].cnt == 0 && forall i :: 0 <= i < q ==> t[i].cnt > 0
    {
      if table[p].cnt > 0 {
        if table[p].num == num {
          table[p] := table[p].(cnt := table[p].cnt + 1);
          assert table[..] == t[p := t[p].(cnt := t[p].cnt + 1)];
          GotCoherent(d.sectors, sb, t, table[..], num, p);
          return p;
        }
      } else if q == -1 {
        q := p;
      }
      p := p + 1;
    }
    if q == -1 { NoSlot(t, num); }
    var blk := InodeSector(sb, num);
    var buf := d.RdSect(blk);
    table[q] := Slot(InodeAt(buf, (num - 1) % INODES_PER_SECT), 1, num);
    assert table[..] == t[q := Slot(DiskInode(d.sectors, sb, num), 1, num)];
    GotCoherent(d.sectors, sb, t, table[..], num, q);
    return q;
  }

  lemma NoSlot(t: seq<Slot>, num: nat)
    requires CanCache(t, num)
    requires forall i :: 0 <= i < |t| ==> t[i].cnt > 0
    ensures exists i: nat :: i < |t| && InUse(t, i, num)
  {
    var i :| 0 <= i < |t| && (t[i].cnt == 0 || t[i].num == num);
    assert InUse(t, i, num);
  }

  lemma GotCoherent(sec: seq<Sector>, sb: SuperBlock, t: seq<Slot>, t': seq<Slot>, num: nat, r: nat)
    requires InodeNumber(num) && Coherent(sec, sb, t) && Got(sec, sb, t, t', num, r)
    ensures Coherent(sec, sb, t')
  {
    forall i, j | 0 <= i < j < |t'| && t'[i].cnt > 0 && t'[j].cnt > 0
      ensures t'[i].num != t'[j].num
    {
      assert !InUse(t, i, num) || i == r || InUse(t, r, num);
      assert !InUse(t, j, num) || j == r || InUse(t, r, num);
    }
  }

  /** put_inode: drops one reference. */
  method PutInode(table: array<Slot>, r: nat)
    requires r < table.Length && table[r].cnt > 0
    modifies table
    ensures table[..] == old(table[..])[r := old(table[r]).(cnt := old(table[r]).cnt - 1)]
  {
    table[r] := table[r].(cnt := table[r].cnt - 1);
  }

  /** Getting an inode and giving it back leaves a cached one as it was and no reference to any other. */
  method GetThenPut(d: Disk, sb: SuperBlock, table: array<Slot>, num: nat) returns (r: int)
    requires Coherent(d.sectors, sb, table[..]) && InodeNumber(num) && CanCache(table[..], num)
    modifies table
    ensures 0 <= r < table.Length && Coherent(d.sectors, sb, table[..])
    ensures (exists i :: InUse(old(table[..]), i, num)) ==> table[..] == old(table[..])
    ensures !(exists i :: InUse(old(table[..]), i, num)) ==>
              old(table[r]).cnt == 0 && table[r].cnt == 0 && table[..] == old(table[..])[r := table[r]]
  {
    ghost var t := table[..];
    r := GetInodeSched(d, sb, table, num);
    PutCoherent(d.sectors, sb, table[..], r);
    PutInode(table, r);
    if InUse(t, r, num) { assert t == table[..]; }
  }

  /** Dropping references never breaks coherence. */
  lemma PutCoherent(sec: seq<Sector>, sb: SuperBlock, t: seq<Slot>, r: nat)
    requires Coherent(sec, sb, t) && r < |t| && t[r].cnt > 0
    ensures Coherent(sec, sb, t[r := t[r].(cnt := t[r].cnt - 1)])
  {}

  /** The disk after inode num was written to its place in the inode array. */
  function WithInode(sec: seq<Sector>, sb: SuperBlock, num: nat, ino: Inode): seq<Sector>
    requires HasInodes(sec, sb) && InodeNumber(num)
  {
    var blk := InodeSector(sb, num);
    sec[blk := StoreInode(sec[blk], (num - 1) % INODES_PER_SECT, ino)]
  }

  /** sync_inode: writes the cached inode to its place in the inode array. */
  method SyncInode(d: Disk, sb: SuperBlock, p: Slot)
    requires HasInodes(d.sectors, sb) && InodeNumber(p.num)
    modifies d
    ensures d.sectors == WithInode(old(d.sectors), sb, p.num, p.ino)
  {
    var blk := InodeSector(sb, p.num);
    var buf := d.RdSect(blk);
    buf := StoreInode(buf, (p.num - 1) % INODES_PER_SECT, p.ino);
    d.WrSect(blk, buf);
  }

  lemma WithInodeAt(sec: seq<Sector>, sb: SuperBlock, num: nat, ino: Inode, m: nat)
    requires HasInodes(sec, sb) && InodeNumber(num) && InodeNumber(m)
    ensures DiskInode(WithInode(sec, sb, num, ino), sb, m) == if m == num then ino else DiskInode(sec, sb, m)
  {
    var blk := InodeSector(sb, num);
    if InodeSector(sb, m) == blk {
      StoreInodeAt(sec[blk], (num - 1) % INODES_PER_SECT, ino, (m - 1) % INODES_PER_SECT);
      assert m - 1 == INODES_PER_SECT * ((m - 1) / INODES_PER_SECT) + (m - 1) % INODES_PER_SECT;
      assert num - 1 == INODES_PER_SECT * ((num - 1) / INODES_PER_SECT) + (num - 1) % INODES_PER_SECT;
    }
  }

  /** Writing one inode back changes that inode and nothing else on the disk: not the other
      fifteen of its sector and no other sector. */
  lemma SyncWritesOne(sec: seq<Sector>, sb: SuperBlock, num: nat, ino: Inode)
    requires HasInodes(sec, sb) && InodeNumber(num)
    ensures OnlyInode(sec, WithInode(sec, sb, num, ino), sb, num, ino)
  {
    var sec' := WithInode(sec, sb, num, ino);
    forall m: nat | InodeNumber(m)
      ensures DiskInode(sec', sb, m) == if m == num then ino else DiskInode(sec, sb, m)
    {
      WithInodeAt(sec, sb, num, ino, m);
    }
  }

  /** Changing a cached inode and writing it back keeps the table coherent. */
  lemma SyncCoherent(sec: seq<Sector>, sec': seq<Sector>, sb: SuperBlock, t: seq<Slot>, r: nat, ino: Inode)
    requires Coherent(sec, sb, t) && r < |t| && t[r].cnt > 0
    requires OnlyInode(sec, sec', sb, t[r].num, ino)
    ensures Coherent(sec', sb, t[r := t[r].(ino := ino)])
  {}

  /** Writes outside the inode array keep the table coherent. */
  lemma ElsewhereCoherent(sec: seq<Sector>, sec': seq<Sector>, sb: SuperBlock, t: seq<Slot>)
    requires Coherent(sec, sb, t) && |sec'| == |sec|
    requires forall s :: sb.Inode0() <= s < sb.Inode0() + 256 ==> sec'[s] == sec[s]
    ensures Coherent(sec', sb, t)
    ensures forall m :: InodeNumber(m) ==> DiskInode(sec', sb, m) == DiskInode(sec, sb, m)
  {}

  lemma CountReset(sec: seq<Sector>, sb: SuperBlock, t: seq<Slot>, r: nat)
    requires Coherent(sec, sb, t) && r < |t| && t[r].cnt > 0
    ensures Coherent(sec, sb, t[r := t[r].(cnt := 1)])
  {
  }

  /** new_inode: a fresh regular file of default size, written to the disk at once. */
  method NewInode(d: Disk, sb: SuperBlock, table: array<Slot>, nr: nat, start: u32) returns (r: nat)
    requires Coherent(d.sectors, sb, table[..]) && InodeNumber(nr) && CanCache(table[..], nr)
    modifies d, table
    ensures r < table.Length && (old(table[..])[r].cnt == 0 || old(table[..])[r].num == nr)
    ensures old(table[..])[r].cnt == 0 ==> forall i :: 0 <= i < table.Length ==> !InUse(old(table[..]), i, nr)
    ensures var ino := Inode(I_REGULAR, 0, start, NR_DEFAULT_FILE_SECTS);
            && table[..] == old(table[..])[r := Slot(ino, 1, nr)]
            && d.sectors == WithInode(old(d.sectors), sb, nr, ino)
    ensures Coherent(d.sectors, sb, table[..])
  {
    ghost var t, was := table[..], d.sectors;
    var p := GetInodeSched(d, sb, table, nr);
    r := p;
    ghost var mid := table[..][r := table[r].(cnt := 1)];
    CountReset(was, sb, table[..], r);
    var ino := Inode(I_REGULAR, 0, start, NR_DEFAULT_FILE_SECTS);
    table[r] := Slot(ino, 1, nr);
    SyncInode(d, sb, table[r]);
    SyncWritesOne(was, sb, nr, ino);
    SyncCoherent(was, d.sectors, sb, mid, r, ino);
    assert table[..] == mid[r := mid[r].(ino := ino)];
    assert table[..] == t[r := Slot(ino, 1, nr)];
  }
}
