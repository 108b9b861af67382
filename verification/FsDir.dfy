/** The flat root directory: 16-byte entries, 32 to a sector. Path stripping, name lookup, adding
    an entry and removing one (kernel/fs.c:599-698, kernel/fs.c:1011-1060, kernel/fs.c:1624-1666). */
module FsDir {
  import opened Basics
  import opened FsDisk
  import opened FsInode
  import opened FsFile

  const DIR_ENTRY_SIZE := 16
  const ENTRIES_PER_SECT := 32
  const MAX_FILENAME_LEN := 12
  const SLASH: byte := 47


  // ---------------------------------------------------------------------------------------
  // Names

  /** strip_path: the file name in a path with at most one slash, in front; a thirteenth and
      later character is dropped without being looked at. */
  method StripPath(path: seq<byte>) returns (r: Option<seq<byte>>)
    ensures var s := if |path| > 0 && path[0] == SLASH then path[1..] else path;
            if SLASH in s[..Min(|s|, MAX_FILENAME_LEN)] then r == None
            else r == Some(s[..Min(|s|, MAX_FILENAME_LEN)])
  {
    var s := if |path| > 0 && path[0] == SLASH then path[1..] else path;
    var t := [];
    while |t| < |s|
      invariant |t| < MAX_FILENAME_LEN && |t| <= |s| && t == s[..|t|] && SLASH !in t
      decreases |s| - |t|
    {
      if s[|t|] == SLASH {
        assert s[..Min(|s|, MAX_FILENAME_LEN)][|t|] == SLASH;
        return None;
      }
      t := t + [s[|t|]];
      if |t| >= MAX_FILENAME_LEN {
        assert t == s[..Min(|s|, MAX_FILENAME_LEN)];
        break;
      }
    }
    return Some(t);
  }

  /** A name the directory can hold is found under itself and with a slash in front, and is an
      error with two. */
  method StripBoth(f: seq<byte>) returns (plain: Option<seq<byte>>, rooted: Option<seq<byte>>, twice: Option<seq<byte>>)
    requires 0 < |f| <= MAX_FILENAME_LEN && SLASH !in f
    ensures plain == rooted == Some(f) && twice == None
  {
    plain := StripPath(f);
    rooted := StripPath([SLASH] + f);
    assert f[..|f|] == f && ([SLASH] + f)[1..] == f;
    twice := StripPath([SLASH, SLASH] + f);
    var s := ([SLASH, SLASH] + f)[1..];
    assert s[..Min(|s|, MAX_FILENAME_LEN)][0] == SLASH;
  }

  /** A name the directory can hold: not empty, no zero byte, and short enough that copying it
      with its terminating zero stays inside the 12-byte field. */
  predicate GoodName(f: seq<byte>) {
    0 < |f| < MAX_FILENAME_LEN && forall k :: 0 <= k < |f| ==> f[k] != 0
  }

  function Zeros(n: nat): (z: seq<byte>)
    ensures |z| == n && forall k :: 0 <= k < n ==> z[k] == 0
  {
    seq(n, _ => 0)
  }

  /** The name field a name is compared with. */
  function Pad(f: seq<byte>): seq<byte>
    requires |f| <= MAX_FILENAME_LEN
  {
    f + Zeros(MAX_FILENAME_LEN - |f|)
  }

  lemma {:induction false} PadInjective(f: seq<byte>, g: seq<byte>)
    requires GoodName(f) && GoodName(g) && Pad(f) == Pad(g)
    ensures f == g
  {
    assert Pad(f)[|f|] == 0 && Pad(g)[|g|] == 0;
    assert forall k :: 0 <= k < |f| ==> Pad(f)[k] == f[k];
    assert forall k :: 0 <= k < |g| ==> Pad(g)[k] == g[k];
    assert f == Pad(f)[..|f|] && g == Pad(g)[..|g|];
  }

  // ---------------------------------------------------------------------------------------
  // Entries

  datatype Entry = Entry(nr: u32, name: seq<byte>)

  function EntryAt(b: Sector, j: nat): Entry
    requires j < ENTRIES_PER_SECT
  {
    Entry(Le32(b, DIR_ENTRY_SIZE * j), b[DIR_ENTRY_SIZE * j + 4..DIR_ENTRY_SIZE * (j + 1)])
  }

  lemma Place(i: nat, j: nat)
    requires j < ENTRIES_PER_SECT
    ensures (ENTRIES_PER_SECT * i + j) / ENTRIES_PER_SECT == i && (ENTRIES_PER_SECT * i + j) % ENTRIES_PER_SECT == j
  {}

  /** Entry m of the directory whose data starts at sector start. */
  function DirEnt(sec: seq<Sector>, start: nat, m: nat): Entry
    requires start + m / ENTRIES_PER_SECT < |sec|
  {
    EntryAt(sec[start + m / ENTRIES_PER_SECT], m % ENTRIES_PER_SECT)
  }

  /** The inode number in entry m. */
  function EntNr(sec: seq<Sector>, start: nat, m: nat): u32
    requires start + m / ENTRIES_PER_SECT < |sec|
  {
    Le32(sec[start + m / ENTRIES_PER_SECT], DIR_ENTRY_SIZE * (m % ENTRIES_PER_SECT))
  }

  /** Where entry m is: 16 bytes behind the one before it; the inode number and then the name. */
  lemma EntryLayout(sec: seq<Sector>, start: nat, m: nat, i: nat)
    requires start + m / ENTRIES_PER_SECT < |sec| && i < MAX_FILENAME_LEN
    ensures var a := SECTOR_SIZE * start + 16 * m;
            WordAt(sec, a, DirEnt(sec, start, m).nr) && a + 16 <= SECTOR_SIZE * |sec| && ByteAt(sec, a + 4 + i) == DirEnt(sec, start, m).name[i]
  {
    var s, j := start + m / ENTRIES_PER_SECT, m % ENTRIES_PER_SECT;
    assert m == ENTRIES_PER_SECT * (m / ENTRIES_PER_SECT) + j;
    WordInSector(sec, s, DIR_ENTRY_SIZE * j, SECTOR_SIZE * start + 16 * m);
    SameSector(s, DIR_ENTRY_SIZE * j + 4 + i);
  }

  const FreeEntry := Entry(0, Zeros(MAX_FILENAME_LEN))

  function LeBytes(v: u32): seq<byte> {
    [v % 0x100, v / 0x100 % 0x100, v / 0x1_0000 % 0x100, v / 0x100_0000]
  }

  lemma LeBytesRead(b: Sector, off: nat, v: u32)
    requires off + 4 <= SECTOR_SIZE && b[off..off + 4] == LeBytes(v)
    ensures Le32(b, off) == v
  {
    var x := b[off..off + 4];
    assert x[0] == b[off] && x[1] == b[off + 1] && x[2] == b[off + 2] && x[3] == b[off + 3];
    Digits(v);
  }

  /** The bytes of an entry, or its first bytes, were overwritten. */
  lemma OverlayEntry(b: Sector, j: nat, bytes: seq<byte>, m: nat)
    requires j < ENTRIES_PER_SECT && m < ENTRIES_PER_SECT && |bytes| <= DIR_ENTRY_SIZE
    ensures m != j ==> EntryAt(Overlay(b, DIR_ENTRY_SIZE * j, bytes), m) == EntryAt(b, m)
    ensures m == j ==>
              var o := Overlay(b, DIR_ENTRY_SIZE * j, bytes);
              o[DIR_ENTRY_SIZE * j..DIR_ENTRY_SIZE * (j + 1)] == bytes + b[DIR_ENTRY_SIZE * j + |bytes|..DIR_ENTRY_SIZE * (j + 1)]
  {
  }

  /** What new_dir_entry writes over a free entry makes it the entry of that file. */
  lemma NewEntryBytes(b: Sector, j: nat, nr: u32, f: seq<byte>)
    requires j < ENTRIES_PER_SECT && GoodName(f) && EntryAt(b, j).name == Zeros(MAX_FILENAME_LEN)
    ensures EntryAt(Overlay(b, DIR_ENTRY_SIZE * j, LeBytes(nr) + f + [0]), j) == Entry(nr, Pad(f))
  {
    var bytes := LeBytes(nr) + f + [0];
    var at := DIR_ENTRY_SIZE * j;
    var o := Overlay(b, at, bytes);
    OverlayEntry(b, j, bytes, j);
    var x := o[at..at + DIR_ENTRY_SIZE];
    assert o[at..at + 4] == x[..4] == LeBytes(nr);
    LeBytesRead(o, at, nr);
    var name := b[at + 4..at + DIR_ENTRY_SIZE];
    assert forall k :: |f| + 1 <= k < MAX_FILENAME_LEN ==> name[k] == b[at + 4 + k];
    assert o[at + 4..at + DIR_ENTRY_SIZE] == x[4..];
    assert x[4..] == f + [0] + name[|f| + 1..];
    assert f + [0] + name[|f| + 1..] == Pad(f);
  }

  lemma ClearedEntryBytes(b: Sector, j: nat)
    requires j < ENTRIES_PER_SECT
    ensures EntryAt(Overlay(b, DIR_ENTRY_SIZE * j, Zeros(DIR_ENTRY_SIZE)), j) == FreeEntry
  {
  }

  // ---------------------------------------------------------------------------------------
  // Looking a name up (kernel/fs.c:599-643)

  /** The inode number in the first of the entries m up to limit that has the name, or 0. */
  function Lookup(sec: seq<Sector>, start: nat, limit: nat, name: seq<byte>, m: nat := 0): u32
    requires limit == 0 || start + (limit - 1) / ENTRIES_PER_SECT < |sec|
    decreases limit - m
  {
    if m >= limit then 0
    else if DirEnt(sec, start, m).name == name then EntNr(sec, start, m)
    else Lookup(sec, start, limit, name, m + 1)
  }

  /** The entries search_file looks at: one more than the directory has, within the sectors its
      size covers. */
  function SearchLimit(size: nat): nat {
    Min(size / DIR_ENTRY_SIZE + 1, ENTRIES_PER_SECT * ((size + SECTOR_SIZE - 1) / SECTOR_SIZE))
  }

  /** search_file, for a name that strip_path has produced; an empty name is the root itself. */
  method SearchFile(d: Disk, dir: Slot, filename: seq<byte>) returns (nr: nat)
    requires |filename| <= MAX_FILENAME_LEN && dir.ino.start + dir.ino.nrSects < |d.sectors|
    requires dir.ino.size <= SECTOR_SIZE * dir.ino.nrSects
    ensures filename == [] ==> nr == dir.num
    ensures filename != [] ==>
              nr == Lookup(d.sectors, dir.ino.start, SearchLimit(dir.ino.size), Pad(filename))
  {
    if filename == [] { return dir.num; }
    var nrBlks := (dir.ino.size + SECTOR_SIZE - 1) / SECTOR_SIZE;
    var nrEntries := dir.ino.size / DIR_ENTRY_SIZE;
    ghost var limit := SearchLimit(dir.ino.size);
    var name := Pad(filename);
    var m := 0;
    var i := 0;
    while i < nrBlks
      invariant i <= nrBlks && m == ENTRIES_PER_SECT * i && m <= nrEntries
      invariant Lookup(d.sectors, dir.ino.start, limit, name) == Lookup(d.sectors, dir.ino.start, limit, name, m)
    {
      var buf := d.RdSect(dir.ino.start + i);
      var r, stop := SearchSector(d.sectors, dir.ino.start, limit, name, nrEntries, i, buf);
      if stop { return r; }
      m := m + ENTRIES_PER_SECT;
      i := i + 1;
    }
    return 0;
  }

  /** Entry j of the i-th sector is entry m of the directory. */
  lemma EntryHere(sec: seq<Sector>, start: nat, i: nat, j: nat, m: nat, buf: Sector)
    requires j < ENTRIES_PER_SECT && m == ENTRIES_PER_SECT * i + j && start + i < |sec| && buf == sec[start + i]
    ensures m / ENTRIES_PER_SECT == i
    ensures DirEnt(sec, start, m) == EntryAt(buf, j) && EntNr(sec, start, m) == Le32(buf, DIR_ENTRY_SIZE * j)
  {
    Place(i, j);
  }

  lemma LookupNext(sec: seq<Sector>, start: nat, limit: nat, name: seq<byte>, m: nat)
    requires m < limit && start + (limit - 1) / ENTRIES_PER_SECT < |sec| && start + m / ENTRIES_PER_SECT < |sec|
    ensures Lookup(sec, start, limit, name, m) ==
            if DirEnt(sec, start, m).name == name then EntNr(sec, start, m) else Lookup(sec, start, limit, name, m + 1)
  {
  }

  /** The inner loop of search_file: one sector of entries. */
  method SearchSector(ghost sec: seq<Sector>, start: nat, ghost limit: nat, name: seq<byte>, nrEntries: nat, i: nat, buf: Sector)
    returns (r: nat, stop: bool)
    requires limit > 0 && start + (limit - 1) / ENTRIES_PER_SECT < |sec| && start + i < |sec|
    requires buf == sec[start + i] && ENTRIES_PER_SECT * i <= nrEntries
    requires ENTRIES_PER_SECT * (i + 1) <= limit || limit == nrEntries + 1
    requires limit <= nrEntries + 1
    ensures stop ==> r == Lookup(sec, start, limit, name, ENTRIES_PER_SECT * i)
    ensures !stop ==>
              && ENTRIES_PER_SECT * (i + 1) <= nrEntries
              && Lookup(sec, start, limit, name, ENTRIES_PER_SECT * i)
                 == Lookup(sec, start, limit, name, ENTRIES_PER_SECT * (i + 1))
  {
    var m, j := ENTRIES_PER_SECT * i, 0;
    while j < ENTRIES_PER_SECT
      invariant j <= ENTRIES_PER_SECT && m == ENTRIES_PER_SECT * i + j && m <= nrEntries
      invariant Lookup(sec, start, limit, name, ENTRIES_PER_SECT * i) == Lookup(sec, start, limit, name, m)
    {
      EntryHere(sec, start, i, j, m, buf);
      if m < limit { LookupNext(sec, start, limit, name, m); }
      if EntryAt(buf, j).name == name { return Le32(buf, DIR_ENTRY_SIZE * j), true; }
      m := m + 1;
      if m > nrEntries { return 0, true; }
      j := j + 1;
    }
    r, stop := 0, false;
  }

  // ---------------------------------------------------------------------------------------
  // Adding an entry (kernel/fs.c:1011-1060)

  /** The first entry m up to n that is free, or n. */
  function FirstFree(sec: seq<Sector>, start: nat, n: nat, m: nat := 0): (r: nat)
    requires m <= n && (n == 0 || start + (n - 1) / ENTRIES_PER_SECT < |sec|)
    ensures m <= r <= n
    decreases n - m
  {
    if m == n || EntNr(sec, start, m) == 0 then m else FirstFree(sec, start, n, m + 1)
  }

  lemma {:induction false} FirstFreeMeaning(sec: seq<Sector>, start: nat, n: nat, m: nat)
    requires m <= n && (n == 0 || start + (n - 1) / ENTRIES_PER_SECT < |sec|)
    ensures var r := FirstFree(sec, start, n, m);
            && (forall k :: m <= k < r ==> EntNr(sec, start, k) != 0)
            && (r < n ==> EntNr(sec, start, r) == 0)
    decreases n - m
  {
    if m < n && EntNr(sec, start, m) != 0 { FirstFreeMeaning(sec, start, n, m + 1); }
  }

  /** The scan of new_dir_entry: block, place in the block and buffer of the entry to fill. */
  method FindFreeEntry(d: Disk, start: nat, size: nat) returns (e: nat, buf: Sector)
    requires size % DIR_ENTRY_SIZE == 0 && start + size / SECTOR_SIZE < |d.sectors|
    ensures e == FirstFree(d.sectors, start, size / DIR_ENTRY_SIZE)
    ensures buf == d.sectors[start + e / ENTRIES_PER_SECT]
  {
    var n := size / DIR_ENTRY_SIZE;
    var nrBlks := (size + SECTOR_SIZE) / SECTOR_SIZE;
    e, buf := 0, Zeros(SECTOR_SIZE);
    var i := 0;
    while i < nrBlks
      invariant i <= nrBlks && e == ENTRIES_PER_SECT * i && e <= n
      invariant FirstFree(d.sectors, start, n) == FirstFree(d.sectors, start, n, e)
    {
      buf := d.RdSect(start + i);
      var stop;
      e, stop := FindFreeInSector(d.sectors, start, n, i, buf);
      if stop { return; }
      i := i + 1;
    }
    assert false;
  }

  /** The inner loop of that scan: one sector of entries. */
  method FindFreeInSector(ghost sec: seq<Sector>, start: nat, n: nat, i: nat, buf: Sector) returns (e: nat, stop: bool)
    requires ENTRIES_PER_SECT * i <= n && start + n / ENTRIES_PER_SECT < |sec| && start + i < |sec|
    requires buf == sec[start + i]
    requires FirstFree(sec, start, n) == FirstFree(sec, start, n, ENTRIES_PER_SECT * i)
    ensures e <= n
    ensures if stop then e == FirstFree(sec, start, n) && e / ENTRIES_PER_SECT == i
            else e == ENTRIES_PER_SECT * (i + 1) && FirstFree(sec, start, n) == FirstFree(sec, start, n, e)
  {
    e := ENTRIES_PER_SECT * i;
    var j := 0;
    while j < ENTRIES_PER_SECT
      invariant j <= ENTRIES_PER_SECT && e == ENTRIES_PER_SECT * i + j && e <= n
      invariant FirstFree(sec, start, n) == FirstFree(sec, start, n, e)
    {
      EntryHere(sec, start, i, j, e, buf);
      if e + 1 > n || Le32(buf, DIR_ENTRY_SIZE * j) == 0 { return e, true; }
      e, j := e + 1, j + 1;
    }
    stop := false;
  }

  /** The root inode's slot, with the directory it describes. */
  ghost predicate DirReady(d: Disk, sb: SuperBlock, t: seq<Slot>, r: nat)
    reads d
  {
    && Coherent(d.sectors, sb, t) && r < |t| && t[r].cnt > 0
    && ExtentOnDisk(d.sectors, sb, t[r].ino) && t[r].ino.size % DIR_ENTRY_SIZE == 0
  }

  /** Writes bytes over entry m and then the directory's inode. */
  method WriteEntry(d: Disk, sb: SuperBlock, table: array<Slot>, r: nat, m: nat, buf: Sector, bytes: seq<byte>, size: u32, sync: bool)
    requires DirReady(d, sb, table[..], r) && |bytes| <= DIR_ENTRY_SIZE
    requires DIR_ENTRY_SIZE * m < Capacity(table[r].ino)
    requires buf == d.sectors[table[r].ino.start + m / ENTRIES_PER_SECT]
    requires !sync ==> size == table[r].ino.size
    modifies d, table
    ensures var p := old(table[r]);
            && table[..] == old(table[..])[r := p.(ino := p.ino.(size := size))]
            && Wrote(old(d.sectors), d.sectors, sb, p.num, p.ino.(size := size), Base(p.ino) + DIR_ENTRY_SIZE * m, bytes)
    ensures Coherent(d.sectors, sb, table[..])
  {
    ghost var was, t, p := d.sectors, table[..], table[r];
    ghost var at := Base(p.ino) + DIR_ENTRY_SIZE * m;
    PatchEntry(d, table[r].ino.start, m, buf, bytes);
    ghost var mid := d.sectors;
    PatchedThenSynced(was, mid, mid, sb, t, p.num, p.ino, at, bytes);
    SetSize(d, sb, table, r, size, sync);
    PatchedThenSynced(was, mid, d.sectors, sb, t, p.num, p.ino.(size := size), at, bytes);
  }

  /** Sets the directory's size in the table and, if asked, on the disk. */
  method SetSize(d: Disk, sb: SuperBlock, table: array<Slot>, r: nat, size: u32, sync: bool)
    requires Coherent(d.sectors, sb, table[..]) && r < table.Length && table[r].cnt > 0
    requires !sync ==> size == table[r].ino.size
    modifies d, table
    ensures var p := old(table[r]);
            && table[..] == old(table[..])[r := p.(ino := p.ino.(size := size))]
            && OnlyInode(old(d.sectors), d.sectors, sb, p.num, p.ino.(size := size))
    ensures Coherent(d.sectors, sb, table[..])
  {
    ghost var mid, t, p := d.sectors, table[..], table[r];
    ghost var ino := p.ino.(size := size);
    if sync {
      table[r] := table[r].(ino := table[r].ino.(size := size));
      SyncInode(d, sb, table[r]);
      SyncWritesOne(mid, sb, p.num, ino);
      SyncCoherent(mid, d.sectors, sb, t, r, ino);
    }
    assert table[..] == t[r := p.(ino := ino)];
  }

  /** The buffer with bytes over entry m is written back. */
  method PatchEntry(d: Disk, start: nat, m: nat, buf: Sector, bytes: seq<byte>)
    requires |bytes| <= DIR_ENTRY_SIZE && start + m / ENTRIES_PER_SECT < |d.sectors|
    requires buf == d.sectors[start + m / ENTRIES_PER_SECT]
    modifies d
    ensures Patched(old(d.sectors), d.sectors, SECTOR_SIZE * start + DIR_ENTRY_SIZE * m, bytes)
  {
    ghost var at := SECTOR_SIZE * start + DIR_ENTRY_SIZE * m;
    var s, off := start + m / ENTRIES_PER_SECT, DIR_ENTRY_SIZE * (m % ENTRIES_PER_SECT);
    assert at == SECTOR_SIZE * s + off;
    PatchStep(d.sectors, d.sectors, at, bytes, 0, |bytes|, s, off);
    assert bytes[0..|bytes|] == bytes && bytes[..|bytes|] == bytes;
    d.WrSect(s, Overlay(buf, off, bytes));
  }

  /** new_dir_entry: fills the first free entry, or the one behind the last, which makes the
      directory one entry longer. */
  method NewDirEntry(d: Disk, sb: SuperBlock, table: array<Slot>, r: nat, nr: u32, f: seq<byte>)
    requires DirReady(d, sb, table[..], r) && GoodName(f)
    requires table[r].ino.size + DIR_ENTRY_SIZE <= Capacity(table[r].ino)
    modifies d, table
    ensures var p := old(table[r]);
            var e := FirstFree(old(d.sectors), p.ino.start, p.ino.size / DIR_ENTRY_SIZE);
            && table[..] == old(table[..])[r := p.(ino := Grown(p.ino, DIR_ENTRY_SIZE * (e + 1)))]
            && Wrote(old(d.sectors), d.sectors, sb, p.num, Grown(p.ino, DIR_ENTRY_SIZE * (e + 1)),
                     Base(p.ino) + DIR_ENTRY_SIZE * e, LeBytes(nr) + f + [0])
    ensures Coherent(d.sectors, sb, table[..])
  {
    var ino := table[r].ino;
    var e, buf := FindFreeEntry(d, ino.start, ino.size);
    var size := if e == ino.size / DIR_ENTRY_SIZE then ino.size + DIR_ENTRY_SIZE else ino.size;
    assert ino.(size := size) == Grown(ino, DIR_ENTRY_SIZE * (e + 1));
    WriteEntry(d, sb, table, r, e, buf, LeBytes(nr) + f + [0], size, true);
  }

  // ---------------------------------------------------------------------------------------
  // Removing an entry (kernel/fs.c:1624-1666)

  /** Which of the first n entries are live. */
  function LiveMap(sec: seq<Sector>, start: nat, n: nat): seq<bool>
    requires n == 0 || start + (n - 1) / ENTRIES_PER_SECT < |sec|
  {
    seq(n, m requires 0 <= m < n => EntNr(sec, start, m) != 0)
  }

  function LiveCount(live: seq<bool>): (c: nat)
    ensures c <= |live|
  {
    if live == [] then 0 else LiveCount(live[..|live| - 1]) + if live[|live| - 1] then 1 else 0
  }

  /** The number of live entries among the first n. */
  function LiveBefore(sec: seq<Sector>, start: nat, n: nat): (c: nat)
    requires n == 0 || start + (n - 1) / ENTRIES_PER_SECT < |sec|
    ensures c <= n
  {
    if n == 0 then 0 else LiveBefore(sec, start, n - 1) + if EntNr(sec, start, n - 1) != 0 then 1 else 0
  }

  lemma {:induction false} LiveBeforeCounts(sec: seq<Sector>, start: nat, n: nat)
    requires n == 0 || start + (n - 1) / ENTRIES_PER_SECT < |sec|
    ensures LiveBefore(sec, start, n) == LiveCount(LiveMap(sec, start, n))
  {
    if n > 0 {
      LiveBeforeCounts(sec, start, n - 1);
      assert LiveMap(sec, start, n)[..n - 1] == LiveMap(sec, start, n - 1);
    }
  }

  /** The first entry up to n that holds inode nr, or n. */
  function FindNr(sec: seq<Sector>, start: nat, n: nat, nr: u32, m: nat := 0): (r: nat)
    requires m <= n && (n == 0 || start + (n - 1) / ENTRIES_PER_SECT < |sec|)
    ensures m <= r <= n
    decreases n - m
  {
    if m == n || EntNr(sec, start, m) == nr then m else FindNr(sec, start, n, nr, m + 1)
  }

  lemma {:induction false} FindNrMeaning(sec: seq<Sector>, start: nat, n: nat, nr: u32, m: nat)
    requires m <= n && (n == 0 || start + (n - 1) / ENTRIES_PER_SECT < |sec|)
    ensures var r := FindNr(sec, start, n, nr, m);
            && (forall k :: m <= k < r ==> EntNr(sec, start, k) != nr)
            && (r < n ==> EntNr(sec, start, r) == nr)
    decreases n - m
  {
    if m < n && EntNr(sec, start, m) != nr { FindNrMeaning(sec, start, n, nr, m + 1); }
  }

  lemma FindNrFinds(sec: seq<Sector>, start: nat, n: nat, nr: u32, k: nat)
    requires k < n && start + (n - 1) / ENTRIES_PER_SECT < |sec| && EntNr(sec, start, k) == nr
    ensures FindNr(sec, start, n, nr) <= k && EntNr(sec, start, FindNr(sec, start, n, nr)) == nr
  {
    FindNrMeaning(sec, start, n, nr, 0);
  }

  /** The directory's size after entry m of n was removed: recomputed from the number of live
      entries before it, but only when it was the last one. */
  function ShrunkSize(sec: seq<Sector>, start: nat, size: u32, m: nat): u32
    requires m < size / DIR_ENTRY_SIZE && start + (m - 1) / ENTRIES_PER_SECT < |sec|
  {
    if m + 1 == size / DIR_ENTRY_SIZE then DIR_ENTRY_SIZE * LiveBefore(sec, start, m) else size
  }

  /** The scan of do_unlink: the entry's index and buffer and the bytes of the live entries
      before it. */
  method FindEntry(d: Disk, start: nat, size: nat, nr: u32) returns (m: nat, buf: Sector, dirSize: nat)
    requires size % DIR_ENTRY_SIZE == 0 && start + size / SECTOR_SIZE < |d.sectors|
    ensures m == FindNr(d.sectors, start, size / DIR_ENTRY_SIZE, nr)
    ensures m < size / DIR_ENTRY_SIZE ==>
              && buf == d.sectors[start + m / ENTRIES_PER_SECT]
              && dirSize == DIR_ENTRY_SIZE * LiveBefore(d.sectors, start, m)
  {
    var n := size / DIR_ENTRY_SIZE;
    var nrBlks := (size + SECTOR_SIZE) / SECTOR_SIZE;
    m, dirSize, buf := 0, 0, Zeros(SECTOR_SIZE);
    var i := 0;
    while i < nrBlks
      invariant i <= nrBlks && m == ENTRIES_PER_SECT * i && m <= n
      invariant FindNr(d.sectors, start, n, nr) == FindNr(d.sectors, start, n, nr, m)
      invariant dirSize == DIR_ENTRY_SIZE * LiveBefore(d.sectors, start, m)
    {
      buf := d.RdSect(start + i);
      var stop;
      m, dirSize, stop := FindEntryInSector(d.sectors, start, n, nr, i, dirSize, buf);
      if stop { return; }
      i := i + 1;
    }
    assert false;
  }

  /** The scan is at entry m, with dirSize bytes of live entries before it. */
  ghost predicate Scanned(sec: seq<Sector>, start: nat, n: nat, nr: u32, m: nat, dirSize: nat) {
    && start + n / ENTRIES_PER_SECT < |sec| && m <= n
    && FindNr(sec, start, n, nr) == FindNr(sec, start, n, nr, m) && dirSize == DIR_ENTRY_SIZE * LiveBefore(sec, start, m)
  }

  lemma ScanOn(sec: seq<Sector>, start: nat, n: nat, nr: u32, m: nat, dirSize: nat, m': nat, dirSize': nat)
    requires m < n && Scanned(sec, start, n, nr, m, dirSize) && EntNr(sec, start, m) != nr
    requires m' == m + 1 && dirSize' == if EntNr(sec, start, m) != 0 then dirSize + DIR_ENTRY_SIZE else dirSize
    ensures Scanned(sec, start, n, nr, m', dirSize')
  {
  }

  /** The inner loop of that scan: one sector of entries. */
  method FindEntryInSector(ghost sec: seq<Sector>, start: nat, n: nat, nr: u32, i: nat, before: nat, buf: Sector)
    returns (m: nat, dirSize: nat, stop: bool)
    requires ENTRIES_PER_SECT * i <= n && start + n / ENTRIES_PER_SECT < |sec| && start + i < |sec|
    requires buf == sec[start + i]
    requires FindNr(sec, start, n, nr) == FindNr(sec, start, n, nr, ENTRIES_PER_SECT * i)
    requires before == DIR_ENTRY_SIZE * LiveBefore(sec, start, ENTRIES_PER_SECT * i)
    ensures m <= n && dirSize == DIR_ENTRY_SIZE * LiveBefore(sec, start, m)
    ensures if stop then m == FindNr(sec, start, n, nr) && m / ENTRIES_PER_SECT == i
            else m == ENTRIES_PER_SECT * (i + 1)
                 && FindNr(sec, start, n, nr) == FindNr(sec, start, n, nr, m)
  {
    m, dirSize := ENTRIES_PER_SECT * i, before;
    var j := 0;
    while j < ENTRIES_PER_SECT
      invariant j <= ENTRIES_PER_SECT && m == ENTRIES_PER_SECT * i + j && m <= n
      invariant Scanned(sec, start, n, nr, m, dirSize)
    {
      EntryHere(sec, start, i, j, m, buf);
      var here := Le32(buf, DIR_ENTRY_SIZE * j);
      if m + 1 > n || here == nr { return m, dirSize, true; }
      ghost var m0, size0 := m, dirSize;
      if here != 0 { dirSize := dirSize + DIR_ENTRY_SIZE; }
      m, j := m + 1, j + 1;
      ScanOn(sec, start, n, nr, m0, size0, m, dirSize);
    }
    stop := false;
  }

  /** The directory part of do_unlink: clears the entry of inode nr, if there is one. */
  method RemoveDirEntry(d: Disk, sb: SuperBlock, table: array<Slot>, r: nat, nr: u32)
    requires DirReady(d, sb, table[..], r)
    modifies d, table
    ensures var p := old(table[r]);
            var m := FindNr(old(d.sectors), p.ino.start, p.ino.size / DIR_ENTRY_SIZE, nr);
            if m == p.ino.size / DIR_ENTRY_SIZE then d.sectors == old(d.sectors) && table[..] == old(table[..])
            else
              var ino := p.ino.(size := ShrunkSize(old(d.sectors), p.ino.start, p.ino.size, m));
              && table[..] == old(table[..])[r := p.(ino := ino)]
              && Wrote(old(d.sectors), d.sectors, sb, p.num, ino, Base(p.ino) + DIR_ENTRY_SIZE * m, Zeros(DIR_ENTRY_SIZE))
    ensures Coherent(d.sectors, sb, table[..])
  {
    var ino := table[r].ino;
    var m, buf, dirSize := FindEntry(d, ino.start, ino.size, nr);
    if m == ino.size / DIR_ENTRY_SIZE { return; }
    if m + 1 == ino.size / DIR_ENTRY_SIZE {
      WriteEntry(d, sb, table, r, m, buf, Zeros(DIR_ENTRY_SIZE), dirSize, true);
    } else {
      WriteEntry(d, sb, table, r, m, buf, Zeros(DIR_ENTRY_SIZE), ino.size, false);
    }
  }

  // ---------------------------------------------------------------------------------------
  // When shrinking is right

  /** No live entry comes after a free one. */
  ghost predicate NoHoles(live: seq<bool>) {
    forall j, k :: 0 <= j < k < |live| && live[k] ==> live[j]
  }

  lemma {:induction false} FullCount(live: seq<bool>)
    ensures LiveCount(live) == |live| <==> forall k :: 0 <= k < |live| ==> live[k]
  {
    if live != [] { FullCount(live[..|live| - 1]); }
  }

  lemma {:induction false} CountOfPrefix(live: seq<bool>, n: nat)
    requires n <= |live| && forall k :: n <= k < |live| ==> !live[k]
    ensures LiveCount(live) == LiveCount(live[..n])
  {
    if n < |live| {
      CountOfPrefix(live[..|live| - 1], n);
      assert live[..|live| - 1][..n] == live[..n];
    } else {
      assert live[..n] == live;
    }
  }

  lemma LiveInside(live: seq<bool>)
    requires forall k :: 0 <= k < |live| && live[k] ==> k < LiveCount(live)
    ensures NoHoles(live)
  {
    var c := LiveCount(live);
    CountOfPrefix(live, c);
    FullCount(live[..c]);
    assert forall k :: 0 <= k < c ==> live[..c][k] == live[k];
  }

  lemma LiveFirst(live: seq<bool>)
    requires NoHoles(live)
    ensures forall k :: 0 <= k < |live| && live[k] ==> k < LiveCount(live)
  {
    var n := 0;
    while n < |live| && live[n]
      invariant n <= |live| && forall k :: 0 <= k < n ==> live[k]
    {
      n := n + 1;
    }
    CountOfPrefix(live, n);
    FullCount(live[..n]);
  }

  /** Removing the last entry leaves every live entry inside the new size exactly when no live
      entry comes after a free one. */
  lemma ShrinkKeepsLive(live: seq<bool>)
    ensures (forall k :: 0 <= k < |live| && live[k] ==> k < LiveCount(live)) <==> NoHoles(live)
  {
    if NoHoles(live) {
      LiveFirst(live);
    } else if forall k :: 0 <= k < |live| && live[k] ==> k < LiveCount(live) {
      LiveInside(live);
    }
  }
}
