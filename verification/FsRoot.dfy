/** The root directory as a whole: one entry for the root, each terminal and each live file, all
    names distinct, unused entries zero. mkfs establishes it; creating, unlinking and writing
    files keep it, and names resolve accordingly. */
module FsRoot {
  import opened Basics
  import opened FsDisk
  import opened FsMap
  import opened FsInode
  import opened FsFile
  import opened FsDir
  import opened FsNames
  import opened FsVolume

  const NR_CONSOLES := 3
  const DEV_CHAR_TTY := 4
  const DIR_TOTAL := 65536   // entries in the extent of the root directory

  predicate IsConsole(x: nat) { 2 <= x < 2 + NR_CONSOLES }

  function Consoles(): (c: set<nat>)
    ensures forall x :: x in c <==> IsConsole(x)
  {
    {2, 3, 4}
  }

  // ---------------------------------------------------------------------------------------
  // The directory as a sequence of entries

  /** The first n entries of es list the numbers known, each once and under a name of its own. */
  ghost predicate Listing(es: seq<Entry>, n: nat, known: set<nat>) {
    && n <= BITS_PER_SECT <= |es|
    && (forall x :: x in known ==> 1 <= x < BITS_PER_SECT && Listed(es, x))
    && (forall k :: 0 <= k < |es| && (k >= n || es[k].nr == 0) ==> es[k] == FreeEntry)
    && (forall k :: 0 <= k < |es| && es[k].nr != 0 ==> es[k].nr in known && IsName(es[k].name))
    && (forall j, k :: 0 <= j < k < |es| && es[j].nr != 0 && es[k].nr != 0 ==> es[j].nr != es[k].nr && es[j].name != es[k].name)
  }

  ghost predicate Listed(es: seq<Entry>, x: nat) { exists k :: 0 <= k < |es| && es[k].nr == x }

  lemma ListingAdd(es: seq<Entry>, n: nat, known: set<nat>, e: nat, nr: u32, f: seq<byte>)
    requires Listing(es, n, known) && e <= n && e < |es| && es[e].nr == 0 && (e == n ==> n < BITS_PER_SECT)
    requires nr !in known && 1 <= nr < BITS_PER_SECT && GoodName(f) && forall k :: 0 <= k < |es| ==> es[k].name != Pad(f)
    ensures Listing(es[e := Entry(nr, Pad(f))], NewCount(n, e), known + {nr})
  {
    var es' := es[e := Entry(nr, Pad(f))];
    assert es'[e].nr == nr && IsName(es'[e].name);
    forall x | x in known ensures Listed(es', x) {
      var k :| 0 <= k < |es| && es[k].nr == x;
      assert es'[k].nr == x;
    }
  }

  lemma ListingRemove(es: seq<Entry>, n: nat, known: set<nat>, m: nat)
    requires Listing(es, n, known) && m < n && es[m].nr != 0
    ensures Listing(es[m := FreeEntry], n, known - {es[m].nr})
  {
    var es' := es[m := FreeEntry];
    forall x | x in known && x != es[m].nr ensures Listed(es', x) {
      assert Listed(es, x);
      var k :| 0 <= k < |es| && es[k].nr == x;
      assert es'[k].nr == x;
    }
  }

  lemma ListingShrink(es: seq<Entry>, n: nat, known: set<nat>, n': nat)
    requires Listing(es, n, known) && n' <= n
    ensures Listing(es, n', known) <==> forall k :: n' <= k < n ==> es[k].nr == 0
  {
    if Listing(es, n', known) {
      forall k | n' <= k < n ensures es[k].nr == 0 { assert es[k] == FreeEntry; }
    }
  }

  ghost function Numbers(es: seq<Entry>, n: nat): set<int>
    requires n <= |es|
  {
    set k | 0 <= k < n :: es[k].nr
  }

  lemma OneNumberMore(es: seq<Entry>, n: nat, y: int)
    requires 0 < n <= |es|
    ensures y in Numbers(es, n) <==> y in Numbers(es, n - 1) || y == es[n - 1].nr
  {
    if y in Numbers(es, n) {
      var k :| 0 <= k < n && es[k].nr == y;
    }
  }

  lemma {:induction false} NumbersDistinct(es: seq<Entry>, n: nat)
    requires n <= |es| && forall j, k :: 0 <= j < k < n ==> es[j].nr != es[k].nr
    ensures |Numbers(es, n)| == n
  {
    if n > 0 {
      NumbersDistinct(es, n - 1);
      var x: int, before := es[n - 1].nr, Numbers(es, n - 1);
      assert x !in before;
      forall y ensures y in Numbers(es, n) <==> y in before || y == x { OneNumberMore(es, n, y); }
      assert Numbers(es, n) == before + {x};
    }
  }

  ghost function Below(n: nat): (r: set<int>)
    ensures forall x :: x in r <==> 1 <= x < n
  {
    if n <= 1 then {} else Below(n - 1) + {n - 1}
  }

  lemma {:induction false} CountBelow(n: nat)
    requires n > 0
    ensures |Below(n)| == n - 1
  {
    if n > 1 { CountBelow(n - 1); }
  }

  lemma Subsets(a: set<int>, b: set<int>)
    requires a <= b
    ensures |a| <= |b|
  {
    assert b == a + (b - a);
  }

  /** A directory without a free entry has fewer entries than there are inode numbers, so it never
      outgrows its extent. */
  lemma FullListing(es: seq<Entry>, n: nat, known: set<nat>)
    requires Listing(es, n, known) && forall k :: 0 <= k < n ==> es[k].nr != 0
    ensures n < BITS_PER_SECT
  {
    NumbersDistinct(es, n);
    CountBelow(BITS_PER_SECT);
    forall k | 0 <= k < n ensures 1 <= es[k].nr < BITS_PER_SECT { assert es[k].nr in known; }
    Subsets(Numbers(es, n), Below(BITS_PER_SECT));
  }

  // ---------------------------------------------------------------------------------------
  // On the disk

  ghost predicate OnVolume(sec: seq<Sector>, sb: SuperBlock) { Formatted(sb) && |sec| == sb.nrSects }

  /** All entries the extent of the root directory has room for. */
  ghost function RootDir(sec: seq<Sector>, sb: SuperBlock): (es: seq<Entry>)
    requires OnVolume(sec, sb)
    ensures |es| == DIR_TOTAL && forall k :: 0 <= k < DIR_TOTAL ==> es[k] == DirEnt(sec, sb.n1stSect, k)
  {
    seq(DIR_TOTAL, k requires 0 <= k < DIR_TOTAL => DirEnt(sec, sb.n1stSect, k))
  }

  ghost function RootCount(sec: seq<Sector>, sb: SuperBlock): nat
    requires OnVolume(sec, sb)
  {
    DiskInode(sec, sb, ROOT_INODE).size / DIR_ENTRY_SIZE
  }

  /** The root directory lists exactly the numbers known. */
  ghost predicate RootLists(sec: seq<Sector>, sb: SuperBlock, known: set<nat>) {
    && OnVolume(sec, sb) && DiskInode(sec, sb, ROOT_INODE).size % DIR_ENTRY_SIZE == 0
    && Listing(RootDir(sec, sb), RootCount(sec, sb), known)
  }

  /** Inode number c as the special file of terminal c - 2: its start sector holds the device, with the
      number of the terminals' driver in the high byte and that of the terminal in the low one. */
  predicate IsTerminal(ino: Inode, c: nat) {
    ino.mode == I_CHAR_SPECIAL && ino.size == 0 && ino.start / 0x100 == DEV_CHAR_TTY && ino.start % 0x100 + 2 == c
  }

  /** Modes and map bits of the files there are. */
  ghost predicate KindsOk(sec: seq<Sector>, sb: SuperBlock, live: Files)
    requires OnVolume(sec, sb)
  {
    && DiskInode(sec, sb, ROOT_INODE).mode == I_DIRECTORY
    && (forall c :: IsConsole(c) ==> c !in live && MapBit(sec, IMAP0, c) && IsTerminal(DiskInode(sec, sb, c), c))
    && (forall x :: x in live && x != ROOT_INODE ==> InodeNumber(x) && DiskInode(sec, sb, x).mode == I_REGULAR)
  }

  /** The volume together with its directory. */
  ghost predicate DirInv(sec: seq<Sector>, sb: SuperBlock, live: Files) {
    VolumeInv(sec, sb, live) && KindsOk(sec, sb, live) && RootLists(sec, sb, live.Keys + Consoles())
  }

  /** What search_file finds for a name in the root directory. */
  ghost function Resolves(sec: seq<Sector>, sb: SuperBlock, g: seq<byte>): u32
    requires OnVolume(sec, sb) && |g| <= MAX_FILENAME_LEN && RootCount(sec, sb) <= BITS_PER_SECT
  {
    Lookup(sec, sb.n1stSect, SearchLimit(DiskInode(sec, sb, ROOT_INODE).size), Pad(g))
  }

  lemma ListingClean(sec: seq<Sector>, sb: SuperBlock, n: nat, known: set<nat>)
    requires OnVolume(sec, sb) && Listing(RootDir(sec, sb), n, known)
    ensures DirClean(sec, sb.n1stSect, n, DIR_TOTAL)
  {
    var es := RootDir(sec, sb);
    assert forall k :: 0 <= k < DIR_TOTAL ==> es[k] == DirEnt(sec, sb.n1stSect, k);
  }

  /** A name resolves to the number in the one entry that has it, or to nothing. */
  lemma ResolvesMeaning(sec: seq<Sector>, sb: SuperBlock, known: set<nat>, g: seq<byte>)
    requires RootLists(sec, sb, known) && GoodName(g)
    ensures var nr, es := Resolves(sec, sb, g), RootDir(sec, sb);
            && nr == Lookup(sec, sb.n1stSect, RootCount(sec, sb), Pad(g))
            && (nr == 0 ==> forall k :: 0 <= k < DIR_TOTAL ==> es[k].name != Pad(g))
            && (nr != 0 ==> exists k :: 0 <= k < RootCount(sec, sb) && es[k] == Entry(nr, Pad(g)))
  {
    ListingClean(sec, sb, RootCount(sec, sb), known);
    ResolvesIsLookup(sec, sb, g);
    LookupInListing(sec, sb.n1stSect, RootCount(sec, sb), g);
  }

  lemma ResolvesIsLookup(sec: seq<Sector>, sb: SuperBlock, g: seq<byte>)
    requires OnVolume(sec, sb) && DiskInode(sec, sb, ROOT_INODE).size % DIR_ENTRY_SIZE == 0 && RootCount(sec, sb) <= BITS_PER_SECT
    requires DirClean(sec, sb.n1stSect, RootCount(sec, sb), DIR_TOTAL) && GoodName(g)
    ensures Resolves(sec, sb, g) == Lookup(sec, sb.n1stSect, RootCount(sec, sb), Pad(g))
  {
    SearchStopsInTime(sec, sb.n1stSect, RootCount(sec, sb), DIR_TOTAL, g);
  }

  lemma LookupInListing(sec: seq<Sector>, start: nat, n: nat, g: seq<byte>)
    requires DirClean(sec, start, n, DIR_TOTAL) && GoodName(g)
    ensures var nr := Lookup(sec, start, n, Pad(g));
            && (nr == 0 ==> forall k :: 0 <= k < DIR_TOTAL ==> DirEnt(sec, start, k).name != Pad(g))
            && (nr != 0 ==> exists k :: 0 <= k < n && DirEnt(sec, start, k) == Entry(nr, Pad(g)))
  {
    ZeroNameIsNoName(g);
    LookupMiss(sec, start, n, Pad(g), 0);
    LookupFinds(sec, start, n, Pad(g), 0);
  }

  lemma {:induction false} LookupFinds(sec: seq<Sector>, start: nat, n: nat, name: seq<byte>, m: nat)
    requires Reaches(sec, start, n)
    ensures Lookup(sec, start, n, name, m) != 0 ==> exists k :: m <= k < n && DirEnt(sec, start, k) == Entry(Lookup(sec, start, n, name, m), name)
    decreases n - m
  {
    if m < n && DirEnt(sec, start, m).name != name { LookupFinds(sec, start, n, name, m + 1); }
  }

  // ---------------------------------------------------------------------------------------
  // Creating

  /** The entry new_dir_entry fills, and the address of an entry. */
  ghost function RootFree(sec: seq<Sector>, sb: SuperBlock): nat
    requires OnVolume(sec, sb) && RootCount(sec, sb) <= BITS_PER_SECT
  {
    FirstFree(sec, sb.n1stSect, RootCount(sec, sb))
  }

  ghost function EntryAddr(sb: SuperBlock, e: nat): nat { SECTOR_SIZE * sb.n1stSect + DIR_ENTRY_SIZE * e }

  /** On the root directory, what new_dir_entry writes is the addition of one entry. */
  lemma EntryAdded(sec: seq<Sector>, sec': seq<Sector>, sb: SuperBlock, known: set<nat>, nr: u32, f: seq<byte>)
    requires RootLists(sec, sb, known) && OnVolume(sec', sb) && nr != 0 && GoodName(f)
    requires PatchedFrom(sec, sec', sb.n1stSect, EntryAddr(sb, RootFree(sec, sb)), LeBytes(nr) + f + [0])
    ensures var e := RootFree(sec, sb);
            && Added(sec, sec', sb.n1stSect, RootCount(sec, sb), DIR_TOTAL, e, nr, f)
            && RootDir(sec, sb)[e].nr == 0 && RootDir(sec', sb) == RootDir(sec, sb)[e := Entry(nr, Pad(f))]
  {
    var start, n := sb.n1stSect, RootCount(sec, sb);
    ListingClean(sec, sb, n, known);
    NewDirEntryAdds(sec, sec', start, n, DIR_TOTAL, nr, f);
    var e := FirstFree(sec, start, n);
    var es, es' := RootDir(sec, sb), RootDir(sec', sb);
    assert forall k :: 0 <= k < DIR_TOTAL ==> es'[k] == es[e := Entry(nr, Pad(f))][k];
  }

  /** The root inode's size after the addition. */
  ghost function RootGrown(sec: seq<Sector>, sb: SuperBlock): u32
    requires OnVolume(sec, sb) && RootCount(sec, sb) <= BITS_PER_SECT
  {
    Grown(DiskInode(sec, sb, ROOT_INODE), DIR_ENTRY_SIZE * (RootFree(sec, sb) + 1)).size
  }

  /** The directory part of create_file. */
  ghost predicate NameEntered(sec: seq<Sector>, sec': seq<Sector>, sb: SuperBlock, nr: u32, f: seq<byte>)
    requires OnVolume(sec, sb) && RootCount(sec, sb) <= BITS_PER_SECT
  {
    && OnVolume(sec', sb) && DiskInode(sec', sb, ROOT_INODE).size == RootGrown(sec, sb)
    && PatchedFrom(sec, sec', sb.n1stSect, EntryAddr(sb, RootFree(sec, sb)), LeBytes(nr) + f + [0])
  }

  /** The root directory after the addition lists one number more. */
  lemma AddedLists(sec: seq<Sector>, sec': seq<Sector>, sb: SuperBlock, known: set<nat>, nr: u32, f: seq<byte>)
    requires RootLists(sec, sb, known) && nr !in known && 1 <= nr < BITS_PER_SECT && GoodName(f)
    requires Resolves(sec, sb, f) == 0 && NameEntered(sec, sec', sb, nr, f)
    ensures RootLists(sec', sb, known + {nr})
  {
    var n, e := RootCount(sec, sb), RootFree(sec, sb);
    EntryAdded(sec, sec', sb, known, nr, f);
    ResolvesMeaning(sec, sb, known, f);
    NotFull(sec, sb, known);
    CountAfter(DiskInode(sec, sb, ROOT_INODE), e);
    ListingAdd(RootDir(sec, sb), n, known, e, nr, f);
  }

  /** The new name resolves to its number and every other name as before. */
  lemma AddedNames(sec: seq<Sector>, sec': seq<Sector>, sb: SuperBlock, known: set<nat>, nr: u32, f: seq<byte>, g: seq<byte>)
    requires RootLists(sec, sb, known) && nr !in known && 1 <= nr < BITS_PER_SECT && GoodName(f)
    requires Resolves(sec, sb, f) == 0 && NameEntered(sec, sec', sb, nr, f) && GoodName(g) && RootLists(sec', sb, known + {nr})
    ensures Resolves(sec', sb, g) == if g == f then nr else Resolves(sec, sb, g)
  {
    var n, e := RootCount(sec, sb), RootFree(sec, sb);
    EntryAdded(sec, sec', sb, known, nr, f);
    CountAfter(DiskInode(sec, sb, ROOT_INODE), e);
    ListingClean(sec, sb, n, known);
    ListingClean(sec', sb, RootCount(sec', sb), known + {nr});
    ResolvesIsLookup(sec, sb, f);
    ResolvesIsLookup(sec, sb, g);
    ResolvesIsLookup(sec', sb, g);
    AddedResolves(sec, sec', sb.n1stSect, n, DIR_TOTAL, e, nr, f, g);
  }

  lemma CountAfter(root: Inode, e: nat)
    requires root.size % DIR_ENTRY_SIZE == 0 && e <= root.size / DIR_ENTRY_SIZE <= BITS_PER_SECT
    ensures var size := Grown(root, DIR_ENTRY_SIZE * (e + 1)).size;
            size % DIR_ENTRY_SIZE == 0 && size / DIR_ENTRY_SIZE == NewCount(root.size / DIR_ENTRY_SIZE, e)
  {
  }

  lemma NotFull(sec: seq<Sector>, sb: SuperBlock, known: set<nat>)
    requires RootLists(sec, sb, known)
    ensures RootFree(sec, sb) < BITS_PER_SECT
  {
    var n, es := RootCount(sec, sb), RootDir(sec, sb);
    FirstFreeMeaning(sec, sb.n1stSect, n, 0);
    if RootFree(sec, sb) == n {
      assert forall k :: 0 <= k < n ==> es[k].nr == EntNr(sec, sb.n1stSect, k);
      FullListing(es, n, known);
    }
  }

  /** create_file with name f: inode num, the slot of bit, and the directory entry. */
  ghost predicate CreatedAs(sec: seq<Sector>, sec': seq<Sector>, sb: SuperBlock, num: nat, bit: nat, f: seq<byte>) {
    && OnVolume(sec, sb) && RootCount(sec, sb) <= BITS_PER_SECT && num < BITS_PER_SECT
    && Created(sec, sec', sb, num, bit, RootGrown(sec, sb), EntryAddr(sb, RootFree(sec, sb)), LeBytes(num) + f + [0])
  }

  /** create_file keeps the volume and its directory. */
  lemma CreateKeepsDir(sec: seq<Sector>, sec': seq<Sector>, sb: SuperBlock, live: Files, num: nat, bit: nat, f: seq<byte>, live': Files)
    requires DirInv(sec, sb, live) && SlotFree(sb, live) && GoodName(f) && Resolves(sec, sb, f) == 0
    requires CreatedAs(sec, sec', sb, num, bit, f) && live' == live[num := (bit - 1) / NR_DEFAULT_FILE_SECTS]
    ensures num !in live && bit >= 1 && DirInv(sec', sb, live')
  {
    CreateKeeps(sec, sec', sb, live, num, bit, RootGrown(sec, sb), EntryAddr(sb, RootFree(sec, sb)), LeBytes(num) + f + [0], live');
    CreateEnters(sec, sec', sb, live, num, bit, f);
    AddedLists(sec, sec', sb, live.Keys + Consoles(), num, f);
    OneMoreFile(live, num, (bit - 1) / NR_DEFAULT_FILE_SECTS);
  }

  lemma OneMoreFile(live: Files, num: nat, m: nat)
    ensures live[num := m].Keys + Consoles() == live.Keys + Consoles() + {num}
  {
  }

  lemma CreateEnters(sec: seq<Sector>, sec': seq<Sector>, sb: SuperBlock, live: Files, num: nat, bit: nat, f: seq<byte>)
    requires OnVolume(sec, sb) && KindsOk(sec, sb, live) && MapBit(sec, IMAP0, 0) && MapBit(sec, IMAP0, ROOT_INODE)
    requires CreatedAs(sec, sec', sb, num, bit, f)
    ensures num !in Consoles() && 1 < num < BITS_PER_SECT && OnVolume(sec', sb)
    ensures KindsOk(sec', sb, live[num := (bit - 1) / NR_DEFAULT_FILE_SECTS]) && NameEntered(sec, sec', sb, num, f)
  {
    CreatedKinds(sec, sec', sb, live, num, bit, RootGrown(sec, sb), EntryAddr(sb, RootFree(sec, sb)), LeBytes(num) + f + [0]);
  }

  /** After create_file the name resolves to the new file and every other name as before. */
  lemma CreateResolves(sec: seq<Sector>, sec': seq<Sector>, sb: SuperBlock, live: Files, num: nat, bit: nat, f: seq<byte>, g: seq<byte>)
    requires DirInv(sec, sb, live) && GoodName(f) && Resolves(sec, sb, f) == 0
    requires CreatedAs(sec, sec', sb, num, bit, f) && GoodName(g)
    ensures RootCount(sec', sb) <= BITS_PER_SECT
    ensures Resolves(sec', sb, g) == if g == f then num else Resolves(sec, sb, g)
  {
    FreshNumber(sec, sb, live, num);
    CreateEnters(sec, sec', sb, live, num, bit, f);
    AddedLists(sec, sec', sb, live.Keys + Consoles(), num, f);
    AddedNames(sec, sec', sb, live.Keys + Consoles(), num, f, g);
  }

  lemma CreatedKinds(sec: seq<Sector>, sec': seq<Sector>, sb: SuperBlock, live: Files, num: nat, bit: nat, size: u32, at: nat, bytes: seq<byte>)
    requires OnVolume(sec, sb) && KindsOk(sec, sb, live) && OnVolume(sec', sb)
    requires MapBit(sec, IMAP0, 0) && MapBit(sec, IMAP0, ROOT_INODE)
    requires Created(sec, sec', sb, num, bit, size, at, bytes)
    ensures num !in Consoles() && 1 < num < BITS_PER_SECT
    ensures KindsOk(sec', sb, live[num := (bit - 1) / NR_DEFAULT_FILE_SECTS])
    ensures DiskInode(sec', sb, ROOT_INODE).size == size
  {
    assert !MapBit(sec, IMAP0, num);
    forall c | IsConsole(c) ensures c != num && MapBit(sec', IMAP0, c) && IsTerminal(DiskInode(sec', sb, c), c) {
      assert MapBit(sec, IMAP0, c);
    }
  }

  // ---------------------------------------------------------------------------------------
  // Unlinking

  /** The entry do_unlink clears. */
  ghost function RootFind(sec: seq<Sector>, sb: SuperBlock, num: u32): nat
    requires OnVolume(sec, sb) && RootCount(sec, sb) <= BITS_PER_SECT
  {
    FindNr(sec, sb.n1stSect, RootCount(sec, sb), num)
  }

  /** The root inode's size after the removal of entry m. */
  ghost function RootShrunk(sec: seq<Sector>, sb: SuperBlock, m: nat): u32
    requires OnVolume(sec, sb) && m < RootCount(sec, sb) <= BITS_PER_SECT
  {
    ShrunkSize(sec, sb.n1stSect, DiskInode(sec, sb, ROOT_INODE).size, m)
  }

  /** The directory part of do_unlink. */
  ghost predicate NameRemoved(sec: seq<Sector>, sec': seq<Sector>, sb: SuperBlock, num: u32)
    requires OnVolume(sec, sb) && RootCount(sec, sb) <= BITS_PER_SECT
  {
    var m := RootFind(sec, sb, num);
    && m < RootCount(sec, sb) && OnVolume(sec', sb) && DiskInode(sec', sb, ROOT_INODE).size == RootShrunk(sec, sb, m)
    && PatchedFrom(sec, sec', sb.n1stSect, EntryAddr(sb, m), Zeros(DIR_ENTRY_SIZE))
  }

  /** The removal leaves every live entry inside the directory: the entry was not the last one, or
      no live entry before it comes after a free one. */
  ghost predicate ShrinksWell(sec: seq<Sector>, sb: SuperBlock, m: nat)
    requires OnVolume(sec, sb) && m < RootCount(sec, sb) <= BITS_PER_SECT
  {
    m + 1 < RootCount(sec, sb) || NoHoles(LiveMap(sec, sb.n1stSect, m))
  }

  lemma ListedAt(es: seq<Entry>, n: nat, known: set<nat>, num: nat) returns (k: nat)
    requires Listing(es, n, known) && num in known
    ensures k < n && k < |es| && es[k].nr == num
  {
    assert Listed(es, num);
    k :| 0 <= k < |es| && es[k].nr == num;
  }

  lemma FoundEntry(sec: seq<Sector>, sb: SuperBlock, known: set<nat>, num: u32)
    requires RootLists(sec, sb, known) && num in known
    ensures RootFind(sec, sb, num) < RootCount(sec, sb) && RootDir(sec, sb)[RootFind(sec, sb, num)].nr == num
  {
    var k := ListedAt(RootDir(sec, sb), RootCount(sec, sb), known, num);
    FindNrFinds(sec, sb.n1stSect, RootCount(sec, sb), num, k);
  }

  lemma EntryRemoved(sec: seq<Sector>, sec': seq<Sector>, sb: SuperBlock, known: set<nat>, num: u32)
    requires RootLists(sec, sb, known) && NameRemoved(sec, sec', sb, num)
    ensures RootDir(sec', sb) == RootDir(sec, sb)[RootFind(sec, sb, num) := FreeEntry]
  {
    var start, n, m := sb.n1stSect, RootCount(sec, sb), RootFind(sec, sb, num);
    ListingClean(sec, sb, n, known);
    RemoveDirEntryRemoves(sec, sec', start, n, DIR_TOTAL, m);
    var es, es' := RootDir(sec, sb), RootDir(sec', sb);
    assert forall k :: 0 <= k < DIR_TOTAL ==> es'[k] == es[m := FreeEntry][k];
  }

  /** After the removal the root directory lists the other numbers if and only if no live entry was
      cut off. */
  lemma RemovedLists(sec: seq<Sector>, sec': seq<Sector>, sb: SuperBlock, known: set<nat>, num: u32)
    requires RootLists(sec, sb, known) && num in known && NameRemoved(sec, sec', sb, num)
    ensures RootLists(sec', sb, known - {num}) <==> ShrinksWell(sec, sb, RootFind(sec, sb, num))
  {
    var n, m, es := RootCount(sec, sb), RootFind(sec, sb, num), RootDir(sec, sb);
    FoundEntry(sec, sb, known, num);
    EntryRemoved(sec, sec', sb, known, num);
    ListingRemove(es, n, known, m);
    CountRemoved(sec, sec', sb, num);
    ListsExactly(sec, sec', sb, known - {num}, m);
  }

  lemma ListsExactly(sec: seq<Sector>, sec': seq<Sector>, sb: SuperBlock, known: set<nat>, m: nat)
    requires OnVolume(sec, sb) && OnVolume(sec', sb) && m < RootCount(sec, sb) <= BITS_PER_SECT
    requires RootDir(sec', sb) == RootDir(sec, sb)[m := FreeEntry] && Listing(RootDir(sec', sb), RootCount(sec, sb), known)
    requires DiskInode(sec', sb, ROOT_INODE).size % DIR_ENTRY_SIZE == 0
    requires RootCount(sec', sb) == if m + 1 < RootCount(sec, sb) then RootCount(sec, sb) else LiveBefore(sec, sb.n1stSect, m)
    ensures RootLists(sec', sb, known) <==> ShrinksWell(sec, sb, m)
  {
    var n, es := RootCount(sec, sb), RootDir(sec, sb);
    if m + 1 == n { ShrunkListing(sec, sb, es, n, known); }
  }

  lemma CountRemoved(sec: seq<Sector>, sec': seq<Sector>, sb: SuperBlock, num: u32)
    requires OnVolume(sec, sb) && DiskInode(sec, sb, ROOT_INODE).size % DIR_ENTRY_SIZE == 0 && RootCount(sec, sb) <= BITS_PER_SECT
    requires NameRemoved(sec, sec', sb, num)
    ensures DiskInode(sec', sb, ROOT_INODE).size % DIR_ENTRY_SIZE == 0
    ensures var n, m := RootCount(sec, sb), RootFind(sec, sb, num);
            RootCount(sec', sb) == if m + 1 < n then n else LiveBefore(sec, sb.n1stSect, m)
  {
    ShrunkCount(sec, sb, RootFind(sec, sb, num));
  }

  lemma ShrunkListing(sec: seq<Sector>, sb: SuperBlock, es: seq<Entry>, n: nat, known: set<nat>)
    requires OnVolume(sec, sb) && 0 < n <= BITS_PER_SECT && es == RootDir(sec, sb) && Listing(es[n - 1 := FreeEntry], n, known)
    ensures Listing(es[n - 1 := FreeEntry], LiveBefore(sec, sb.n1stSect, n - 1), known) <==> NoHoles(LiveMap(sec, sb.n1stSect, n - 1))
  {
    ListingShrink(es[n - 1 := FreeEntry], n, known, LiveBefore(sec, sb.n1stSect, n - 1));
    CutOff(sec, sb, es, n - 1);
  }

  lemma CutOff(sec: seq<Sector>, sb: SuperBlock, es: seq<Entry>, m: nat)
    requires OnVolume(sec, sb) && m < BITS_PER_SECT && es == RootDir(sec, sb)
    ensures var es' := es[m := FreeEntry];
            (forall k :: LiveBefore(sec, sb.n1stSect, m) <= k < m + 1 ==> es'[k].nr == 0) <==> NoHoles(LiveMap(sec, sb.n1stSect, m))
  {
    var live, n', es' := LiveMap(sec, sb.n1stSect, m), LiveBefore(sec, sb.n1stSect, m), es[m := FreeEntry];
    LiveBeforeCounts(sec, sb.n1stSect, m);
    ShrinkKeepsLive(live);
    assert forall k :: 0 <= k < m ==> (live[k] <==> es'[k].nr != 0);
    assert es'[m].nr == 0;
  }

  /** What name g resolves to without file num: to nothing if it was that file's name, and else as
      before, provided the search still reaches its entry. */
  ghost predicate ResolvesWithout(sec: seq<Sector>, sec': seq<Sector>, sb: SuperBlock, num: u32, g: seq<byte>) {
    && OnVolume(sec, sb) && RootCount(sec, sb) <= BITS_PER_SECT && OnVolume(sec', sb) && RootCount(sec', sb) <= BITS_PER_SECT && GoodName(g)
    && var nr := Resolves(sec, sb, g);
       Resolves(sec', sb, g) ==
       if nr == num || RootFind(sec, sb, nr) >= SearchLimit(DiskInode(sec', sb, ROOT_INODE).size) then 0 else nr
  }

  /** Exactly which names the removal leaves: all but the removed one and those whose entry the
      search no longer reaches. */
  lemma RemovedNames(sec: seq<Sector>, sec': seq<Sector>, sb: SuperBlock, known: set<nat>, num: u32, g: seq<byte>)
    requires RootLists(sec, sb, known) && num in known && NameRemoved(sec, sec', sb, num) && GoodName(g)
    ensures ResolvesWithout(sec, sec', sb, num, g)
  {
    var nr, es, m := Resolves(sec, sb, g), RootDir(sec, sb), RootFind(sec, sb, num);
    EntryRemoved(sec, sec', sb, known, num);
    FoundEntry(sec, sb, known, num);
    CountRemoved(sec, sec', sb, num);
    ResolvesMeaning(sec, sb, known, g);
    if nr == 0 {
      SearchRemoved(sec', sb, es, m, g, m);
    } else {
      var k :| 0 <= k < RootCount(sec, sb) && es[k] == Entry(nr, Pad(g));
      NameAt(es, RootCount(sec, sb), known, k);
      FoundEntry(sec, sb, known, nr);
      SearchRemoved(sec', sb, es, m, g, k);
    }
  }

  lemma SearchRemoved(sec: seq<Sector>, sb: SuperBlock, es: seq<Entry>, m: nat, g: seq<byte>, k: nat)
    requires OnVolume(sec, sb) && RootCount(sec, sb) <= BITS_PER_SECT && GoodName(g) && |es| == DIR_TOTAL && m < |es| && k < |es|
    requires RootDir(sec, sb) == es[m := FreeEntry] && forall j :: 0 <= j < |es| && j != k ==> es[j].name != Pad(g)
    ensures Resolves(sec, sb, g) ==
            if k < SearchLimit(DiskInode(sec, sb, ROOT_INODE).size) && k != m && es[k].name == Pad(g) then es[k].nr else 0
  {
    ZeroNameIsNoName(g);
    SearchIn(sec, sb, g, k);
  }

  lemma NameAt(es: seq<Entry>, n: nat, known: set<nat>, k: nat)
    requires Listing(es, n, known) && k < |es| && es[k].nr != 0
    ensures es[k].nr in known && forall j :: 0 <= j < |es| && j != k ==> es[j].name != es[k].name && es[j].nr != es[k].nr
  {
    var f :| GoodName(f) && es[k].name == Pad(f);
    ZeroNameIsNoName(f);
  }

  lemma ShrunkCount(sec: seq<Sector>, sb: SuperBlock, m: nat)
    requires OnVolume(sec, sb) && m < RootCount(sec, sb) <= BITS_PER_SECT && DiskInode(sec, sb, ROOT_INODE).size % DIR_ENTRY_SIZE == 0
    ensures RootShrunk(sec, sb, m) / DIR_ENTRY_SIZE <= BITS_PER_SECT && RootShrunk(sec, sb, m) % DIR_ENTRY_SIZE == 0
    ensures RootShrunk(sec, sb, m) / DIR_ENTRY_SIZE == if m + 1 < RootCount(sec, sb) then RootCount(sec, sb) else LiveBefore(sec, sb.n1stSect, m)
  {
  }

  lemma SearchIn(sec: seq<Sector>, sb: SuperBlock, g: seq<byte>, k: nat)
    requires OnVolume(sec, sb) && RootCount(sec, sb) <= BITS_PER_SECT && GoodName(g) && k < DIR_TOTAL
    requires forall j :: 0 <= j < DIR_TOTAL && j != k ==> RootDir(sec, sb)[j].name != Pad(g)
    ensures Resolves(sec, sb, g) ==
            if k < SearchLimit(DiskInode(sec, sb, ROOT_INODE).size) && RootDir(sec, sb)[k].name == Pad(g) then RootDir(sec, sb)[k].nr else 0
  {
    var limit, es := SearchLimit(DiskInode(sec, sb, ROOT_INODE).size), RootDir(sec, sb);
    assert limit <= BITS_PER_SECT + 1;
    assert forall j :: 0 <= j < limit ==> DirEnt(sec, sb.n1stSect, j) == es[j];
    LookupOnly(sec, sb.n1stSect, limit, Pad(g), k);
  }

  /** do_unlink of the file with inode num. */
  ghost predicate UnlinkedAs(sec: seq<Sector>, sec': seq<Sector>, sb: SuperBlock, num: nat) {
    && OnVolume(sec, sb) && RootCount(sec, sb) <= BITS_PER_SECT && num < BITS_PER_SECT && RootFind(sec, sb, num) < RootCount(sec, sb)
    && Unlinked(sec, sec', sb, num, RootShrunk(sec, sb, RootFind(sec, sb, num)), EntryAddr(sb, RootFind(sec, sb, num)), Zeros(DIR_ENTRY_SIZE))
  }

  lemma UnlinkRemoves(sec: seq<Sector>, sec': seq<Sector>, sb: SuperBlock, live: Files, num: nat)
    requires OnVolume(sec, sb) && KindsOk(sec, sb, live) && num in live && num != ROOT_INODE && UnlinkedAs(sec, sec', sb, num)
    ensures OnVolume(sec', sb) && KindsOk(sec', sb, live - {num}) && NameRemoved(sec, sec', sb, num)
  {
    forall c | IsConsole(c) ensures MapBit(sec', IMAP0, c) && IsTerminal(DiskInode(sec', sb, c), c) {
      assert MapBit(sec, IMAP0, c) && c != num;
    }
  }

  /** do_unlink keeps the volume, and its directory exactly when no live entry is cut off. */
  lemma UnlinkKeepsDir(sec: seq<Sector>, sec': seq<Sector>, sb: SuperBlock, live: Files, num: nat)
    requires DirInv(sec, sb, live) && num in live && num != ROOT_INODE && UnlinkedAs(sec, sec', sb, num)
    ensures VolumeInv(sec', sb, live - {num})
    ensures DirInv(sec', sb, live - {num}) <==> ShrinksWell(sec, sb, RootFind(sec, sb, num))
  {
    var m := RootFind(sec, sb, num);
    UnlinkKeeps(sec, sec', sb, live, num, RootShrunk(sec, sb, m), EntryAddr(sb, m), Zeros(DIR_ENTRY_SIZE));
    UnlinkRemoves(sec, sec', sb, live, num);
    RemovedLists(sec, sec', sb, live.Keys + Consoles(), num);
    OneFileLess(sec, sb, live, num);
  }

  lemma OneFileLess(sec: seq<Sector>, sb: SuperBlock, live: Files, num: nat)
    requires OnVolume(sec, sb) && KindsOk(sec, sb, live) && num in live
    ensures (live - {num}).Keys + Consoles() == live.Keys + Consoles() - {num}
  {
    assert !IsConsole(num);
  }

  lemma UnlinkResolves(sec: seq<Sector>, sec': seq<Sector>, sb: SuperBlock, live: Files, num: nat, g: seq<byte>)
    requires DirInv(sec, sb, live) && num in live && num != ROOT_INODE && UnlinkedAs(sec, sec', sb, num) && GoodName(g)
    ensures ResolvesWithout(sec, sec', sb, num, g)
  {
    UnlinkRemoves(sec, sec', sb, live, num);
    RemovedNames(sec, sec', sb, live.Keys + Consoles(), num, g);
  }

  /** Without file num the search still reaches the entries of all other numbers. */
  ghost predicate AllReached(sec: seq<Sector>, sb: SuperBlock, known: set<nat>, num: u32)
    requires OnVolume(sec, sb) && RootCount(sec, sb) <= BITS_PER_SECT && RootFind(sec, sb, num) < RootCount(sec, sb)
  {
    forall x: u32 :: x in known && x != num ==> RootFind(sec, sb, x) < SearchLimit(RootShrunk(sec, sb, RootFind(sec, sb, num)))
  }

  /** Every name but that of file num resolves as before. */
  ghost predicate OthersResolve(sec: seq<Sector>, sec': seq<Sector>, sb: SuperBlock, num: u32) {
    && OnVolume(sec, sb) && RootCount(sec, sb) <= BITS_PER_SECT && OnVolume(sec', sb) && RootCount(sec', sb) <= BITS_PER_SECT
    && forall g :: GoodName(g) ==> Resolves(sec', sb, g) == if Resolves(sec, sb, g) == num then 0 else Resolves(sec, sb, g)
  }

  /** That is every name if and only if the search reaches all other entries, ... */
  lemma UnlinkResolvesAll(sec: seq<Sector>, sec': seq<Sector>, sb: SuperBlock, live: Files, num: nat)
    requires DirInv(sec, sb, live) && num in live && num != ROOT_INODE && UnlinkedAs(sec, sec', sb, num)
    ensures OthersResolve(sec, sec', sb, num) <==> AllReached(sec, sb, live.Keys + Consoles(), num)
  {
    UnlinkRemoves(sec, sec', sb, live, num);
    RemovedAll(sec, sec', sb, live.Keys + Consoles(), num);
  }

  lemma RemovedAll(sec: seq<Sector>, sec': seq<Sector>, sb: SuperBlock, known: set<nat>, num: u32)
    requires RootLists(sec, sb, known) && num in known && NameRemoved(sec, sec', sb, num)
    ensures OthersResolve(sec, sec', sb, num) <==> AllReached(sec, sb, known, num)
  {
    ShrunkCount(sec, sb, RootFind(sec, sb, num));
    if AllReached(sec, sb, known, num) {
      forall g | GoodName(g) ensures Resolves(sec', sb, g) == if Resolves(sec, sb, g) == num then 0 else Resolves(sec, sb, g) {
        ReachedName(sec, sec', sb, known, num, g);
      }
    } else if OthersResolve(sec, sec', sb, num) {
      var x: u32 :| x in known && x != num && RootFind(sec, sb, x) >= SearchLimit(RootShrunk(sec, sb, RootFind(sec, sb, num)));
      var g := NameOf(sec, sb, known, x);
      RemovedNames(sec, sec', sb, known, num, g);
    }
  }

  lemma ReachedName(sec: seq<Sector>, sec': seq<Sector>, sb: SuperBlock, known: set<nat>, num: u32, g: seq<byte>)
    requires RootLists(sec, sb, known) && num in known && NameRemoved(sec, sec', sb, num) && GoodName(g) && AllReached(sec, sb, known, num)
    ensures RootCount(sec', sb) <= BITS_PER_SECT
    ensures Resolves(sec', sb, g) == if Resolves(sec, sb, g) == num then 0 else Resolves(sec, sb, g)
  {
    RemovedNames(sec, sec', sb, known, num, g);
    ResolvesKnown(sec, sb, known, g);
  }

  /** ... and so it is when no live entry is cut off. */
  lemma ShrinksWellReaches(sec: seq<Sector>, sb: SuperBlock, known: set<nat>, num: u32)
    requires RootLists(sec, sb, known) && num in known && RootFind(sec, sb, num) < RootCount(sec, sb) && ShrinksWell(sec, sb, RootFind(sec, sb, num))
    ensures AllReached(sec, sb, known, num)
  {
    var m := RootFind(sec, sb, num);
    ShrunkCount(sec, sb, m);
    FoundEntry(sec, sb, known, num);
    forall x: u32 | x in known && x != num ensures RootFind(sec, sb, x) < SearchLimit(RootShrunk(sec, sb, m)) {
      FoundEntry(sec, sb, known, x);
      KnownPositive(RootDir(sec, sb), RootCount(sec, sb), known, x);
      ReachAfter(sec, sb, m, RootFind(sec, sb, x), RootShrunk(sec, sb, m));
    }
  }

  lemma KnownPositive(es: seq<Entry>, n: nat, known: set<nat>, x: nat)
    requires Listing(es, n, known) && x in known
    ensures 1 <= x < BITS_PER_SECT
  {
  }

  lemma ResolvesKnown(sec: seq<Sector>, sb: SuperBlock, known: set<nat>, g: seq<byte>)
    requires RootLists(sec, sb, known) && GoodName(g)
    ensures Resolves(sec, sb, g) == 0 || Resolves(sec, sb, g) in known
  {
    ResolvesMeaning(sec, sb, known, g);
    if Resolves(sec, sb, g) != 0 {
      var k :| 0 <= k < RootCount(sec, sb) && RootDir(sec, sb)[k] == Entry(Resolves(sec, sb, g), Pad(g));
      NameAt(RootDir(sec, sb), RootCount(sec, sb), known, k);
    }
  }

  /** The name that resolves to a listed number. */
  lemma NameOf(sec: seq<Sector>, sb: SuperBlock, known: set<nat>, x: u32) returns (g: seq<byte>)
    requires RootLists(sec, sb, known) && x in known
    ensures x != 0 && GoodName(g) && Resolves(sec, sb, g) == x
  {
    var es, n := RootDir(sec, sb), RootCount(sec, sb);
    KnownPositive(es, n, known, x);
    var k := ListedAt(es, n, known, x);
    g := NameIn(es, n, known, k);
    ResolvesMeaning(sec, sb, known, g);
    NameAt(es, n, known, k);
  }

  lemma NameIn(es: seq<Entry>, n: nat, known: set<nat>, k: nat) returns (g: seq<byte>)
    requires Listing(es, n, known) && k < |es| && es[k].nr != 0
    ensures GoodName(g) && es[k].name == Pad(g)
  {
    g :| GoodName(g) && es[k].name == Pad(g);
  }

  lemma ReachAfter(sec: seq<Sector>, sb: SuperBlock, m: nat, k: nat, size: u32)
    requires OnVolume(sec, sb) && m < RootCount(sec, sb) <= BITS_PER_SECT && ShrinksWell(sec, sb, m)
    requires k < RootCount(sec, sb) && k != m && EntNr(sec, sb.n1stSect, k) != 0 && size % DIR_ENTRY_SIZE == 0
    requires size / DIR_ENTRY_SIZE == if m + 1 < RootCount(sec, sb) then RootCount(sec, sb) else LiveBefore(sec, sb.n1stSect, m)
    ensures k < SearchLimit(size)
  {
    BlocksCover(size / DIR_ENTRY_SIZE, DIR_TOTAL);
    if m + 1 == RootCount(sec, sb) {
      var live := LiveMap(sec, sb.n1stSect, m);
      LiveBeforeCounts(sec, sb.n1stSect, m);
      ShrinkKeepsLive(live);
      assert live[k];
    }
  }

  // ---------------------------------------------------------------------------------------
  // Writing

  /** A write to a live file other than the root directory changes no entry. */
  lemma WriteKeepsDir(sec: seq<Sector>, sec': seq<Sector>, sb: SuperBlock, live: Files, num: nat, size: u32, pos: nat, data: seq<byte>)
    requires DirInv(sec, sb, live) && num in live && num != ROOT_INODE && WroteTo(sec, sec', sb, num, size, pos, data)
    ensures DirInv(sec', sb, live) && OnVolume(sec', sb) && RootDir(sec', sb) == RootDir(sec, sb)
    ensures DiskInode(sec', sb, ROOT_INODE) == DiskInode(sec, sb, ROOT_INODE)
  {
    WriteKeeps(sec, sec', sb, live, num, size, pos, data);
    BehindRoot(sec, sb, live, num);
    RootUntouched(sec, sec', sb, num, size, pos, data);
    WroteKinds(sec, sec', sb, live, num, size, pos, data);
  }

  /** Names depend on the directory alone. */
  lemma SameNames(sec: seq<Sector>, sec': seq<Sector>, sb: SuperBlock, g: seq<byte>)
    requires OnVolume(sec, sb) && OnVolume(sec', sb) && RootDir(sec', sb) == RootDir(sec, sb)
    requires DiskInode(sec', sb, ROOT_INODE) == DiskInode(sec, sb, ROOT_INODE) && RootCount(sec, sb) <= BITS_PER_SECT && GoodName(g)
    ensures Resolves(sec', sb, g) == Resolves(sec, sb, g)
  {
    var limit := SearchLimit(DiskInode(sec, sb, ROOT_INODE).size);
    forall k | 0 <= k < limit ensures SameMatch(sec, sec', sb.n1stSect, k, Pad(g)) {
      assert RootDir(sec', sb)[k] == RootDir(sec, sb)[k];
    }
    LookupSame(sec, sec', sb.n1stSect, limit, Pad(g), 0);
  }

  lemma WroteKinds(sec: seq<Sector>, sec': seq<Sector>, sb: SuperBlock, live: Files, num: nat, size: u32, pos: nat, data: seq<byte>)
    requires OnVolume(sec, sb) && OnVolume(sec', sb) && KindsOk(sec, sb, live)
    requires num != ROOT_INODE && num in live && WroteTo(sec, sec', sb, num, size, pos, data)
    ensures KindsOk(sec', sb, live) && DiskInode(sec', sb, ROOT_INODE) == DiskInode(sec, sb, ROOT_INODE)
  {
    SameMaps(sec, sec', sb, live);
  }

  lemma RootUntouched(sec: seq<Sector>, sec': seq<Sector>, sb: SuperBlock, num: nat, size: u32, pos: nat, data: seq<byte>)
    requires OnVolume(sec, sb) && WroteTo(sec, sec', sb, num, size, pos, data) && DiskInode(sec, sb, num).start >= SlotStart(sb, 1)
    ensures OnVolume(sec', sb) && RootDir(sec', sb) == RootDir(sec, sb)
  {
    var at := Base(DiskInode(sec, sb, num)) + pos;
    forall s | sb.n1stSect <= s < SlotStart(sb, 1) ensures sec'[s] == sec[s] {
      PatchedElsewhere(sec, sec', sb.Inode0() + 256, at, data, s);
    }
    SameRootSectors(sec, sec', sb);
  }

  lemma SameRootSectors(sec: seq<Sector>, sec': seq<Sector>, sb: SuperBlock)
    requires OnVolume(sec, sb) && OnVolume(sec', sb) && forall s :: sb.n1stSect <= s < SlotStart(sb, 1) ==> sec'[s] == sec[s]
    ensures RootDir(sec', sb) == RootDir(sec, sb)
  {
    forall k | 0 <= k < DIR_TOTAL ensures RootDir(sec', sb)[k] == RootDir(sec, sb)[k] {
      assert sb.n1stSect <= sb.n1stSect + k / ENTRIES_PER_SECT < SlotStart(sb, 1);
    }
  }
}
