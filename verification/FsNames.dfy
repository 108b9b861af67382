/** What adding and removing directory entries does to name lookup. */
module FsNames {
  import opened Basics
  import opened FsDisk
  import opened FsFile
  import opened FsDir

  // ---------------------------------------------------------------------------------------
  // From changed bytes to changed entries

  lemma PatchedInsideSector(sec: seq<Sector>, sec': seq<Sector>, first: nat, at: nat, data: seq<byte>, s: nat, off: nat)
    requires PatchedFrom(sec, sec', first, at, data) && first <= s < |sec|
    requires at == SECTOR_SIZE * s + off && off + |data| <= SECTOR_SIZE
    ensures sec'[s] == Overlay(sec[s], off, data)
  {
    forall k | 0 <= k < SECTOR_SIZE ensures sec'[s][k] == Overlay(sec[s], off, data)[k] {
      var a := SECTOR_SIZE * s + k;
      assert a / SECTOR_SIZE == s && a % SECTOR_SIZE == k;
      assert ByteAt(sec', a) == if at <= a < at + |data| then data[a - at] else ByteAt(sec, a);
    }
  }

  lemma PatchedElsewhere(sec: seq<Sector>, sec': seq<Sector>, first: nat, at: nat, data: seq<byte>, s: nat)
    requires PatchedFrom(sec, sec', first, at, data) && first <= s < |sec|
    requires SECTOR_SIZE * (s + 1) <= at || at + |data| <= SECTOR_SIZE * s
    ensures sec'[s] == sec[s]
  {
    forall k | 0 <= k < SECTOR_SIZE ensures sec'[s][k] == sec[s][k] {
      var a := SECTOR_SIZE * s + k;
      assert a / SECTOR_SIZE == s && a % SECTOR_SIZE == k;
      assert ByteAt(sec', a) == ByteAt(sec, a);
    }
  }

  /** Writing over entry e leaves every other entry of the directory as it was. */
  lemma EntryAfter(sec: seq<Sector>, sec': seq<Sector>, start: nat, e: nat, bytes: seq<byte>, m: nat)
    requires PatchedFrom(sec, sec', start, SECTOR_SIZE * start + DIR_ENTRY_SIZE * e, bytes) && |bytes| <= DIR_ENTRY_SIZE
    requires start + e / ENTRIES_PER_SECT < |sec| && start + m / ENTRIES_PER_SECT < |sec|
    ensures m != e ==> DirEnt(sec', start, m) == DirEnt(sec, start, m)
    ensures m == e ==>
              DirEnt(sec', start, m) ==
              EntryAt(Overlay(sec[start + e / ENTRIES_PER_SECT], DIR_ENTRY_SIZE * (e % ENTRIES_PER_SECT), bytes), e % ENTRIES_PER_SECT)
  {
    var at := SECTOR_SIZE * start + DIR_ENTRY_SIZE * e;
    var se, je := start + e / ENTRIES_PER_SECT, e % ENTRIES_PER_SECT;
    var sm, jm := start + m / ENTRIES_PER_SECT, m % ENTRIES_PER_SECT;
    assert at == SECTOR_SIZE * se + DIR_ENTRY_SIZE * je;
    if sm == se {
      PatchedInsideSector(sec, sec', start, at, bytes, se, DIR_ENTRY_SIZE * je);
      assert m - e == jm - je;
      OverlayEntry(sec[se], je, bytes, jm);
    } else {
      PatchedElsewhere(sec, sec', start, at, bytes, sm);
    }
  }

  // ---------------------------------------------------------------------------------------
  // Lookup

  /** A directory of n entries in an extent that holds total: unused entries are all zero. */
  ghost predicate DirClean(sec: seq<Sector>, start: nat, n: nat, total: nat) {
    && n <= total && (total == 0 || start + (total - 1) / ENTRIES_PER_SECT < |sec|)
    && (forall k :: n <= k < total ==> DirEnt(sec, start, k) == FreeEntry)
    && (forall k :: 0 <= k < n && DirEnt(sec, start, k).nr == 0 ==> DirEnt(sec, start, k) == FreeEntry)
  }

  ghost predicate Reaches(sec: seq<Sector>, start: nat, n: nat) {
    n == 0 || start + (n - 1) / ENTRIES_PER_SECT < |sec|
  }

  /** Entry k has the same name and number on both disks, or has the name on neither. */
  ghost predicate SameMatch(sec: seq<Sector>, sec': seq<Sector>, start: nat, k: nat, name: seq<byte>)
    requires start + k / ENTRIES_PER_SECT < |sec| && |sec'| == |sec|
  {
    || DirEnt(sec', start, k) == DirEnt(sec, start, k)
    || (DirEnt(sec', start, k).name != name && DirEnt(sec, start, k).name != name)
  }

  lemma {:induction false} LookupSame(sec: seq<Sector>, sec': seq<Sector>, start: nat, n: nat, name: seq<byte>, m: nat)
    requires Reaches(sec, start, n) && |sec'| == |sec|
    requires forall k :: m <= k < n ==> SameMatch(sec, sec', start, k, name)
    ensures Lookup(sec', start, n, name, m) == Lookup(sec, start, n, name, m)
    decreases n - m
  {
    if m < n {
      assert SameMatch(sec, sec', start, m, name);
      LookupSame(sec, sec', start, n, name, m + 1);
    }
  }

  /** Entries behind the end that do not have the name do not matter. */
  lemma {:induction false} LookupTail(sec: seq<Sector>, start: nat, n: nat, n': nat, name: seq<byte>, m: nat)
    requires n <= n' && Reaches(sec, start, n')
    requires forall k :: n <= k < n' ==> DirEnt(sec, start, k).name != name
    ensures Lookup(sec, start, n', name, m) == Lookup(sec, start, n, name, m)
    decreases n' - m
  {
    if m < n' && (m >= n || DirEnt(sec, start, m).name != name) {
      LookupTail(sec, start, n, n', name, m + 1);
    }
  }

  lemma {:induction false} LookupHit(sec: seq<Sector>, start: nat, n: nat, name: seq<byte>, e: nat, m: nat)
    requires Reaches(sec, start, n) && m <= e < n && DirEnt(sec, start, e).name == name
    requires forall k :: m <= k < e ==> DirEnt(sec, start, k).name != name
    ensures Lookup(sec, start, n, name, m) == DirEnt(sec, start, e).nr
    decreases e - m
  {
    if m < e { LookupHit(sec, start, n, name, e, m + 1); }
  }

  lemma {:induction false} LookupMiss(sec: seq<Sector>, start: nat, n: nat, name: seq<byte>, m: nat)
    requires Reaches(sec, start, n)
    requires forall k :: m <= k < n && DirEnt(sec, start, k).name == name ==> DirEnt(sec, start, k).nr != 0
    ensures Lookup(sec, start, n, name, m) == 0 <==> forall k :: m <= k < n ==> DirEnt(sec, start, k).name != name
    decreases n - m
  {
    if m < n && DirEnt(sec, start, m).name != name { LookupMiss(sec, start, n, name, m + 1); }
  }

  /** A name that only entry k can have. */
  lemma LookupOnly(sec: seq<Sector>, start: nat, n: nat, name: seq<byte>, k: nat)
    requires Reaches(sec, start, n) && start + k / ENTRIES_PER_SECT < |sec|
    requires forall j :: 0 <= j < n && j != k ==> DirEnt(sec, start, j).name != name
    ensures Lookup(sec, start, n, name) == if k < n && DirEnt(sec, start, k).name == name then DirEnt(sec, start, k).nr else 0
  {
    if k < n && DirEnt(sec, start, k).name == name {
      LookupHit(sec, start, n, name, k, 0);
    } else {
      LookupSkip(sec, start, n, name, 0, n);
    }
  }

  lemma ZeroNameIsNoName(g: seq<byte>)
    requires GoodName(g)
    ensures Pad(g) != Zeros(MAX_FILENAME_LEN)
  {
    assert Pad(g)[0] == g[0];
  }

  /** Looking one entry too far, as search_file does, finds nothing more. */
  lemma SearchStopsInTime(sec: seq<Sector>, start: nat, n: nat, total: nat, g: seq<byte>)
    requires DirClean(sec, start, n, total) && total % ENTRIES_PER_SECT == 0 && GoodName(g)
    ensures n <= SearchLimit(DIR_ENTRY_SIZE * n) <= total
    ensures Lookup(sec, start, SearchLimit(DIR_ENTRY_SIZE * n), Pad(g)) == Lookup(sec, start, n, Pad(g))
  {
    ZeroNameIsNoName(g);
    var limit := SearchLimit(DIR_ENTRY_SIZE * n);
    BlocksCover(n, total);
    LookupTail(sec, start, n, limit, Pad(g), 0);
  }

  lemma BlocksCover(n: nat, total: nat)
    requires n <= total && total % ENTRIES_PER_SECT == 0
    ensures n <= SearchLimit(DIR_ENTRY_SIZE * n) <= total
  {
  }

  // ---------------------------------------------------------------------------------------
  // Adding a name

  /** Entry e, the first free one of n or the one behind them, now holds (nr, f). */
  ghost predicate Added(sec: seq<Sector>, sec': seq<Sector>, start: nat, n: nat, total: nat, e: nat, nr: u32, f: seq<byte>) {
    && DirClean(sec, start, n, total) && |sec'| == |sec| && e <= n && e < total && nr != 0 && GoodName(f)
    && DirEnt(sec', start, e) == Entry(nr, Pad(f)) && DirEnt(sec, start, e) == FreeEntry
    && forall k :: 0 <= k < total && k != e ==> DirEnt(sec', start, k) == DirEnt(sec, start, k)
  }

  function NewCount(n: nat, e: nat): nat { if e == n then n + 1 else n }

  /** The new name resolves to its inode and every other name as before. */
  lemma AddedResolves(sec: seq<Sector>, sec': seq<Sector>, start: nat, n: nat, total: nat, e: nat, nr: u32, f: seq<byte>, g: seq<byte>)
    requires Added(sec, sec', start, n, total, e, nr, f) && GoodName(g)
    requires Lookup(sec, start, n, Pad(f)) == 0
    ensures Lookup(sec', start, NewCount(n, e), Pad(g)) == if g == f then nr else Lookup(sec, start, n, Pad(g))
  {
    var n' := NewCount(n, e);
    ZeroNameIsNoName(g);
    ZeroNameIsNoName(f);
    if g == f {
      LookupMiss(sec, start, n, Pad(f), 0);
      LookupHit(sec', start, n', Pad(f), e, 0);
    } else {
      if Pad(f) == Pad(g) { PadInjective(f, g); }
      LookupSame(sec, sec', start, n', Pad(g), 0);
      LookupTail(sec, start, n, n', Pad(g), 0);
    }
  }

  lemma AddedClean(sec: seq<Sector>, sec': seq<Sector>, start: nat, n: nat, total: nat, e: nat, nr: u32, f: seq<byte>)
    requires Added(sec, sec', start, n, total, e, nr, f)
    ensures DirClean(sec', start, NewCount(n, e), total)
  {}

  /** On a clean directory new_dir_entry adds the entry where Added says. */
  lemma NewDirEntryAdds(sec: seq<Sector>, sec': seq<Sector>, start: nat, n: nat, total: nat, nr: u32, f: seq<byte>)
    requires DirClean(sec, start, n, total) && n < total && nr != 0 && GoodName(f)
    requires PatchedFrom(sec, sec', start, SECTOR_SIZE * start + DIR_ENTRY_SIZE * FirstFree(sec, start, n), LeBytes(nr) + f + [0])
    ensures Added(sec, sec', start, n, total, FirstFree(sec, start, n), nr, f)
  {
    var e := FirstFree(sec, start, n);
    FirstFreeMeaning(sec, start, n, 0);
    assert DirEnt(sec, start, e) == FreeEntry;
    forall k | 0 <= k < total ensures DirEnt(sec', start, k) == if k == e then Entry(nr, Pad(f)) else DirEnt(sec, start, k) {
      EntryAfter(sec, sec', start, e, LeBytes(nr) + f + [0], k);
      NewEntryBytes(sec[start + e / ENTRIES_PER_SECT], e % ENTRIES_PER_SECT, nr, f);
    }
  }

  // ---------------------------------------------------------------------------------------
  // Removing a name

  /** Entry m was cleared. */
  ghost predicate Removed(sec: seq<Sector>, sec': seq<Sector>, start: nat, n: nat, total: nat, m: nat) {
    && DirClean(sec, start, n, total) && |sec'| == |sec| && m < n
    && DirEnt(sec', start, m) == FreeEntry
    && forall k :: 0 <= k < total && k != m ==> DirEnt(sec', start, k) == DirEnt(sec, start, k)
  }

  lemma RemoveDirEntryRemoves(sec: seq<Sector>, sec': seq<Sector>, start: nat, n: nat, total: nat, m: nat)
    requires DirClean(sec, start, n, total) && m < n
    requires PatchedFrom(sec, sec', start, SECTOR_SIZE * start + DIR_ENTRY_SIZE * m, Zeros(DIR_ENTRY_SIZE))
    ensures Removed(sec, sec', start, n, total, m)
  {
    forall k | 0 <= k < total ensures DirEnt(sec', start, k) == if k == m then FreeEntry else DirEnt(sec, start, k) {
      EntryAfter(sec, sec', start, m, Zeros(DIR_ENTRY_SIZE), k);
      ClearedEntryBytes(sec[start + m / ENTRIES_PER_SECT], m % ENTRIES_PER_SECT);
    }
  }

  /** With the size kept, every other name resolves as before, and so does the removed one if an
      earlier entry has it too; else it resolves to the next entry that has it, if any. */
  lemma RemovedResolves(sec: seq<Sector>, sec': seq<Sector>, start: nat, n: nat, total: nat, m: nat, g: seq<byte>)
    requires Removed(sec, sec', start, n, total, m) && GoodName(g)
    ensures DirClean(sec', start, n, total)
    ensures (Pad(g) == DirEnt(sec, start, m).name && forall k :: 0 <= k < m ==> DirEnt(sec, start, k).name != Pad(g)) ==>
              Lookup(sec', start, n, Pad(g)) == Lookup(sec, start, n, Pad(g), m + 1)
    ensures Pad(g) != DirEnt(sec, start, m).name ==> Lookup(sec', start, n, Pad(g)) == Lookup(sec, start, n, Pad(g))
    ensures (exists k :: 0 <= k < m && DirEnt(sec, start, k).name == Pad(g)) ==>
              Lookup(sec', start, n, Pad(g)) == Lookup(sec, start, n, Pad(g))
  {
    ZeroNameIsNoName(g);
    RemovedClean(sec, sec', start, n, total, m);
    var name := Pad(g);
    if name != DirEnt(sec, start, m).name {
      OtherNameSame(sec, sec', start, n, total, m, name);
    } else if k0 :| 0 <= k0 < m && DirEnt(sec, start, k0).name == name {
      LookupEarly(sec, sec', start, n, name, k0, 0);
    } else {
      NextOfName(sec, sec', start, n, total, m, name);
    }
  }

  lemma NextOfName(sec: seq<Sector>, sec': seq<Sector>, start: nat, n: nat, total: nat, m: nat, name: seq<byte>)
    requires Removed(sec, sec', start, n, total, m) && name != Zeros(MAX_FILENAME_LEN)
    requires forall k :: 0 <= k < m ==> DirEnt(sec, start, k).name != name
    ensures Lookup(sec', start, n, name) == Lookup(sec, start, n, name, m + 1)
  {
    LookupSkip(sec', start, n, name, 0, m + 1);
    LookupSame(sec, sec', start, n, name, m + 1);
  }

  lemma RemovedClean(sec: seq<Sector>, sec': seq<Sector>, start: nat, n: nat, total: nat, m: nat)
    requires Removed(sec, sec', start, n, total, m)
    ensures DirClean(sec', start, n, total)
  {
  }

  lemma OtherNameSame(sec: seq<Sector>, sec': seq<Sector>, start: nat, n: nat, total: nat, m: nat, name: seq<byte>)
    requires Removed(sec, sec', start, n, total, m) && name != DirEnt(sec, start, m).name && name != Zeros(MAX_FILENAME_LEN)
    ensures Lookup(sec', start, n, name) == Lookup(sec, start, n, name)
  {
    LookupSame(sec, sec', start, n, name, 0);
  }

  lemma {:induction false} LookupSkip(sec: seq<Sector>, start: nat, n: nat, name: seq<byte>, m: nat, m': nat)
    requires Reaches(sec, start, n) && m <= m' <= n && forall k :: m <= k < m' ==> DirEnt(sec, start, k).name != name
    ensures Lookup(sec, start, n, name, m) == Lookup(sec, start, n, name, m')
    decreases m' - m
  {
    if m < m' { LookupSkip(sec, start, n, name, m + 1, m'); }
  }

  lemma {:induction false} LookupEarly(sec: seq<Sector>, sec': seq<Sector>, start: nat, n: nat, name: seq<byte>, k0: nat, m: nat)
    requires Reaches(sec, start, n) && |sec'| == |sec| && m <= k0 < n && DirEnt(sec, start, k0).name == name
    requires forall k :: m <= k <= k0 ==> DirEnt(sec', start, k) == DirEnt(sec, start, k)
    ensures Lookup(sec', start, n, name, m) == Lookup(sec, start, n, name, m)
    decreases k0 - m
  {
    assert DirEnt(sec', start, m) == DirEnt(sec, start, m);
    if m < k0 { LookupEarly(sec, sec', start, n, name, k0, m + 1); }
  }

  ghost predicate IsName(name: seq<byte>) { exists f :: GoodName(f) && name == Pad(f) }

  /** The live ones of the first n entries have names, all different. */
  ghost predicate NamesDistinct(sec: seq<Sector>, start: nat, n: nat)
    requires Reaches(sec, start, n)
  {
    && (forall k :: 0 <= k < n && DirEnt(sec, start, k).nr != 0 ==> IsName(DirEnt(sec, start, k).name))
    && (forall j, k :: 0 <= j < k < n && DirEnt(sec, start, j).nr != 0 && DirEnt(sec, start, k).nr != 0 ==>
          DirEnt(sec, start, j).name != DirEnt(sec, start, k).name)
  }

  /** The entries search_file looks at once the last of n was removed: the directory is then as
      long as there were live entries before it. */
  function ShrunkLimit(sec: seq<Sector>, start: nat, n: nat): nat
    requires n > 0 && Reaches(sec, start, n)
  {
    SearchLimit(DIR_ENTRY_SIZE * LiveBefore(sec, start, n - 1))
  }

  /** No live entry before the last of n lies behind those. */
  ghost predicate StillReached(sec: seq<Sector>, start: nat, n: nat)
    requires n > 0 && Reaches(sec, start, n)
  {
    forall k :: ShrunkLimit(sec, start, n) <= k < n - 1 ==> EntNr(sec, start, k) == 0
  }

  /** Every name but gone is found among now entries as it was among was entries before. */
  ghost predicate NamesKept(sec: seq<Sector>, sec': seq<Sector>, start: nat, was: nat, now: nat, gone: seq<byte>) {
    && Reaches(sec, start, was) && Reaches(sec', start, now)
    && forall g :: GoodName(g) && Pad(g) != gone ==> Lookup(sec', start, now, Pad(g)) == Lookup(sec, start, was, Pad(g))
  }

  /** Removing the last entry and shrinking the directory leaves every other name to search_file as
      it was if and only if no live entry lies behind the entries it then looks at. */
  lemma ShrunkResolves(sec: seq<Sector>, sec': seq<Sector>, start: nat, n: nat, total: nat)
    requires n > 0 && Removed(sec, sec', start, n, total, n - 1) && total % ENTRIES_PER_SECT == 0 && NamesDistinct(sec, start, n)
    ensures NamesKept(sec, sec', start, SearchLimit(DIR_ENTRY_SIZE * n), ShrunkLimit(sec, start, n), DirEnt(sec, start, n - 1).name)
            <==> StillReached(sec, start, n)
  {
    var was, now, gone := SearchLimit(DIR_ENTRY_SIZE * n), ShrunkLimit(sec, start, n), DirEnt(sec, start, n - 1).name;
    ShrunkLimits(sec, start, n, total);
    if StillReached(sec, start, n) {
      forall g | GoodName(g) && Pad(g) != gone ensures Lookup(sec', start, now, Pad(g)) == Lookup(sec, start, was, Pad(g)) {
        ShrunkKeepsName(sec, sec', start, n, total, g);
      }
    } else {
      var g := ShrunkLosesName(sec, sec', start, n, total);
    }
  }

  lemma ShrunkLimits(sec: seq<Sector>, start: nat, n: nat, total: nat)
    requires n > 0 && DirClean(sec, start, n, total) && total % ENTRIES_PER_SECT == 0
    ensures ShrunkLimit(sec, start, n) <= n <= SearchLimit(DIR_ENTRY_SIZE * n) <= total
    ensures Reaches(sec, start, SearchLimit(DIR_ENTRY_SIZE * n)) && Reaches(sec, start, ShrunkLimit(sec, start, n))
  {
    BlocksCover(n, total);
  }

  lemma ShrunkKeepsName(sec: seq<Sector>, sec': seq<Sector>, start: nat, n: nat, total: nat, g: seq<byte>)
    requires n > 0 && Removed(sec, sec', start, n, total, n - 1) && total % ENTRIES_PER_SECT == 0 && StillReached(sec, start, n)
    requires GoodName(g) && Pad(g) != DirEnt(sec, start, n - 1).name
    ensures var was, now := SearchLimit(DIR_ENTRY_SIZE * n), ShrunkLimit(sec, start, n);
            && Reaches(sec, start, was) && Reaches(sec', start, now)
            && Lookup(sec', start, now, Pad(g)) == Lookup(sec, start, was, Pad(g))
  {
    var now := ShrunkLimit(sec, start, n);
    ShrunkLimits(sec, start, n, total);
    SearchStopsInTime(sec, start, n, total, g);
    RemovedResolves(sec, sec', start, n, total, n - 1, g);
    ZeroNameIsNoName(g);
    forall k | now <= k < n ensures DirEnt(sec', start, k).name != Pad(g) {
      if k < n - 1 { assert EntNr(sec, start, k) == 0 && DirEnt(sec, start, k) == FreeEntry; }
    }
    LookupTail(sec', start, now, n, Pad(g), 0);
  }

  /** With a live entry behind them some name is lost. */
  lemma ShrunkLosesName(sec: seq<Sector>, sec': seq<Sector>, start: nat, n: nat, total: nat) returns (g: seq<byte>)
    requires n > 0 && Removed(sec, sec', start, n, total, n - 1) && total % ENTRIES_PER_SECT == 0 && NamesDistinct(sec, start, n)
    requires !StillReached(sec, start, n)
    ensures var was, now := SearchLimit(DIR_ENTRY_SIZE * n), ShrunkLimit(sec, start, n);
            && Reaches(sec, start, was) && Reaches(sec', start, now) && GoodName(g) && Pad(g) != DirEnt(sec, start, n - 1).name
            && Lookup(sec', start, now, Pad(g)) == 0 != Lookup(sec, start, was, Pad(g))
  {
    ShrunkLimits(sec, start, n, total);
    var k :| ShrunkLimit(sec, start, n) <= k < n - 1 && EntNr(sec, start, k) != 0;
    g := LostName(sec, sec', start, n, total, ShrunkLimit(sec, start, n), k);
    SearchStopsInTime(sec, start, n, total, g);
  }

  lemma LostName(sec: seq<Sector>, sec': seq<Sector>, start: nat, n: nat, total: nat, now: nat, k: nat) returns (g: seq<byte>)
    requires n > 0 && Removed(sec, sec', start, n, total, n - 1) && NamesDistinct(sec, start, n)
    requires now <= k < n - 1 && EntNr(sec, start, k) != 0
    ensures GoodName(g) && Pad(g) == DirEnt(sec, start, k).name != DirEnt(sec, start, n - 1).name
    ensures Lookup(sec', start, now, Pad(g)) == 0 != Lookup(sec, start, n, Pad(g))
  {
    var name := DirEnt(sec, start, k).name;
    g :| GoodName(g) && name == Pad(g);
    ZeroNameIsNoName(g);
    NamedOnce(sec, sec', start, n, total, k);
    LookupOnly(sec, start, n, name, k);
    LookupOnly(sec', start, now, name, k);
  }

  lemma NamedOnce(sec: seq<Sector>, sec': seq<Sector>, start: nat, n: nat, total: nat, k: nat)
    requires n > 0 && Removed(sec, sec', start, n, total, n - 1) && NamesDistinct(sec, start, n)
    requires k < n - 1 && DirEnt(sec, start, k).nr != 0 && DirEnt(sec, start, k).name != Zeros(MAX_FILENAME_LEN)
    ensures forall j :: 0 <= j < n && j != k ==> DirEnt(sec, start, j).name != DirEnt(sec, start, k).name
    ensures forall j :: 0 <= j < n && j != k ==> DirEnt(sec', start, j).name != DirEnt(sec, start, k).name
  {
    forall j | 0 <= j < n && j != k
      ensures DirEnt(sec, start, j).name != DirEnt(sec, start, k).name && DirEnt(sec', start, j).name != DirEnt(sec, start, k).name
    {
      if j < n - 1 { assert DirEnt(sec', start, j) == DirEnt(sec, start, j); }
    }
  }

  /** One sector of entries with (nr, f) put into a free place. */
  function WithEntry(b: Sector, j: nat, nr: u32, f: seq<byte>): Sector
    requires j < ENTRIES_PER_SECT && GoodName(f)
  {
    Overlay(b, DIR_ENTRY_SIZE * j, LeBytes(nr) + f + [0])
  }

  lemma WithEntryAt(b: Sector, j: nat, nr: u32, f: seq<byte>, k: nat)
    requires j < ENTRIES_PER_SECT && k < ENTRIES_PER_SECT && GoodName(f) && EntryAt(b, j) == FreeEntry
    ensures EntryAt(WithEntry(b, j, nr, f), k) == if k == j then Entry(nr, Pad(f)) else EntryAt(b, k)
  {
    OverlayEntry(b, j, LeBytes(nr) + f + [0], k);
    NewEntryBytes(b, j, nr, f);
  }

  lemma ZeroSector(j: nat)
    requires j < ENTRIES_PER_SECT
    ensures EntryAt(Zeros(SECTOR_SIZE), j) == FreeEntry
  {
  }

  /** A directory that ends in entry last: a, free entries, b and c. */
  lemma HoledDirectory(last: nat) returns (b: Sector)
    requires 2 < last < ENTRIES_PER_SECT
    ensures forall k :: 0 <= k < ENTRIES_PER_SECT ==> EntryAt(b, k) == HoledEntry(last, k)
  {
    var z: Sector := Zeros(SECTOR_SIZE);
    forall k | 0 <= k < ENTRIES_PER_SECT ensures EntryAt(z, k) == FreeEntry { ZeroSector(k); }
    var b1 := WithEntry(z, 0, 5, [97]);
    forall k | 0 <= k < ENTRIES_PER_SECT ensures EntryAt(b1, k) == if k == 0 then Entry(5, Pad([97])) else FreeEntry { WithEntryAt(z, 0, 5, [97], k); }
    var b2 := WithEntry(b1, last - 1, 6, [98]);
    forall k | 0 <= k < ENTRIES_PER_SECT ensures EntryAt(b2, k) == if k == last - 1 then Entry(6, Pad([98])) else EntryAt(b1, k) { WithEntryAt(b1, last - 1, 6, [98], k); }
    b := WithEntry(b2, last, 7, [99]);
    forall k | 0 <= k < ENTRIES_PER_SECT ensures EntryAt(b, k) == if k == last then Entry(7, Pad([99])) else EntryAt(b2, k) { WithEntryAt(b2, last, 7, [99], k); }
  }

  /** Entry k of that directory. */
  function HoledEntry(last: nat, k: nat): Entry {
    if k == 0 then Entry(5, Pad([97])) else if k == last - 1 then Entry(6, Pad([98]))
    else if k == last then Entry(7, Pad([99])) else FreeEntry
  }

  /** That directory before and after c, the last entry, was removed. */
  lemma HoledAndRemoved(last: nat) returns (sec: seq<Sector>, sec': seq<Sector>)
    requires 2 < last < ENTRIES_PER_SECT - 1
    ensures |sec| == |sec'| == 1 && forall k :: 0 <= k < ENTRIES_PER_SECT ==>
              DirEnt(sec, 0, k) == HoledEntry(last, k) && DirEnt(sec', 0, k) == if k == last then FreeEntry else HoledEntry(last, k)
    ensures Removed(sec, sec', 0, last + 1, ENTRIES_PER_SECT, last) && LiveBefore(sec, 0, last) == 2
  {
    var b := HoledDirectory(last);
    var b' := Overlay(b, DIR_ENTRY_SIZE * last, Zeros(DIR_ENTRY_SIZE));
    sec, sec' := [b], [b'];
    forall k | 0 <= k < ENTRIES_PER_SECT
      ensures DirEnt(sec, 0, k) == EntryAt(b, k) == HoledEntry(last, k) && DirEnt(sec', 0, k) == if k == last then FreeEntry else EntryAt(b, k)
    {
      OverlayEntry(b, last, Zeros(DIR_ENTRY_SIZE), k);
      ClearedEntryBytes(b, last);
    }
    TwoLive(sec, last);
  }

  lemma TwoLive(sec: seq<Sector>, last: nat)
    requires |sec| == 1 && 2 < last < ENTRIES_PER_SECT - 1 && forall k :: 0 <= k < ENTRIES_PER_SECT ==> DirEnt(sec, 0, k) == HoledEntry(last, k)
    ensures LiveBefore(sec, 0, last) == 2
  {
    forall k | 0 <= k < last ensures EntNr(sec, 0, k) == HoledEntry(last, k).nr { assert EntNr(sec, 0, k) == DirEnt(sec, 0, k).nr; }
    LiveOnce(sec, last - 1);
  }

  lemma HoledNames(sec: seq<Sector>, last: nat)
    requires |sec| == 1 && 2 < last < ENTRIES_PER_SECT - 1 && forall k :: 0 <= k < ENTRIES_PER_SECT ==> DirEnt(sec, 0, k) == HoledEntry(last, k)
    ensures NamesDistinct(sec, 0, last + 1)
  {
    Letters();
  }

  lemma Letters()
    ensures Pad([97]) != Pad([98]) && Pad([98]) != Pad([99]) && Pad([97]) != Pad([99])
    ensures IsName(Pad([97])) && IsName(Pad([98])) && IsName(Pad([99]))
  {
    assert Pad([98])[0] == 98 && Pad([97])[0] == 97 && Pad([99])[0] == 99;
    assert GoodName([97]) && GoodName([98]) && GoodName([99]);
  }

  lemma {:induction false} LiveOnce(sec: seq<Sector>, m: nat)
    requires |sec| == 1 && 0 < m < ENTRIES_PER_SECT && EntNr(sec, 0, 0) != 0 && forall k :: 0 < k < m ==> EntNr(sec, 0, k) == 0
    ensures LiveBefore(sec, 0, m) == 1 && LiveBefore(sec, 0, m + 1) == if EntNr(sec, 0, m) != 0 then 2 else 1
  {
    if m == 1 {
      assert LiveBefore(sec, 0, 0) == 0;
    } else {
      LiveOnce(sec, m - 1);
    }
  }

  /** With two free entries before b, removing c leaves a size of two entries, and search_file no
      longer finds b, although it looks at one entry more than that. */
  lemma ShrinkCanCutOff() returns (sec: seq<Sector>, sec': seq<Sector>)
    ensures |sec| == 1 && Removed(sec, sec', 0, 5, ENTRIES_PER_SECT, 4) && ShrunkSize(sec, 0, 5 * DIR_ENTRY_SIZE, 4) == 2 * DIR_ENTRY_SIZE
    ensures Lookup(sec, 0, SearchLimit(5 * DIR_ENTRY_SIZE), Pad([98])) == 6
    ensures Lookup(sec', 0, SearchLimit(2 * DIR_ENTRY_SIZE), Pad([98])) == 0
  {
    sec, sec' := HoledAndRemoved(4);
    Letters();
    ZeroNameIsNoName([98]);
    LookupOnly(sec, 0, SearchLimit(5 * DIR_ENTRY_SIZE), Pad([98]), 3);
    LookupOnly(sec', 0, SearchLimit(2 * DIR_ENTRY_SIZE), Pad([98]), 3);
  }

  /** With one free entry before b the entry looked at in excess is that of b: there is a hole, and
      still no name is lost. */
  lemma OneHoleIsReached() returns (sec: seq<Sector>, sec': seq<Sector>)
    ensures |sec| == 1 && Removed(sec, sec', 0, 4, ENTRIES_PER_SECT, 3) && ShrunkSize(sec, 0, 4 * DIR_ENTRY_SIZE, 3) == 2 * DIR_ENTRY_SIZE
    ensures !NoHoles(LiveMap(sec, 0, 3))
    ensures NamesKept(sec, sec', 0, SearchLimit(4 * DIR_ENTRY_SIZE), SearchLimit(2 * DIR_ENTRY_SIZE), DirEnt(sec, 0, 3).name)
  {
    sec, sec' := HoledAndRemoved(3);
    HasHole(sec);
    HoledNames(sec, 3);
    NothingBehind(sec);
    ShrunkResolves(sec, sec', 0, 4, ENTRIES_PER_SECT);
  }

  lemma HasHole(sec: seq<Sector>)
    requires |sec| == 1 && DirEnt(sec, 0, 1).nr == 0 && DirEnt(sec, 0, 2).nr != 0
    ensures !NoHoles(LiveMap(sec, 0, 3))
  {
    assert EntNr(sec, 0, 1) == DirEnt(sec, 0, 1).nr && EntNr(sec, 0, 2) == DirEnt(sec, 0, 2).nr;
    assert !LiveMap(sec, 0, 3)[1] && LiveMap(sec, 0, 3)[2];
  }

  lemma NothingBehind(sec: seq<Sector>)
    requires |sec| == 1 && LiveBefore(sec, 0, 3) == 2
    ensures ShrunkLimit(sec, 0, 4) == SearchLimit(2 * DIR_ENTRY_SIZE) && StillReached(sec, 0, 4)
  {
  }
}
