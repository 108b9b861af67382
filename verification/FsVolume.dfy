/** The whole volume: what mkfs establishes and every create, write and unlink keeps, and the
    isolation of files that follows for whole runs. */
module FsVolume {
  import opened Basics
  import opened FsDisk
  import opened FsMap
  import opened FsInode
  import opened FsFile

  /** Live files: inode number to slot. Slot m is the extent of 2048 sectors from
      n1stSect + 2048 m on; its bits in the sector map start at 1 + 2048 m. */
  type Files = map<nat, nat>

  function SlotStart(sb: SuperBlock, m: nat): nat { sb.n1stSect + NR_DEFAULT_FILE_SECTS * m }

  function SlotBit(m: nat): nat { 1 + NR_DEFAULT_FILE_SECTS * m }

  /** Slot m lies wholly in the map and, with a sector to spare, on the partition. */
  predicate UsableSlot(sb: SuperBlock, m: nat) {
    SlotBit(m + 1) <= sb.MapBits() && SlotStart(sb, m + 1) < sb.nrSects
  }

  ghost predicate Taken(live: Files, m: nat) { exists x :: x in live && live[x] == m }

  ghost predicate Injective(live: Files) {
    forall x, y :: x in live && y in live && x != y ==> live[x] != live[y]
  }

  predicate FileInode(sb: SuperBlock, ino: Inode, m: nat) {
    ino.start == SlotStart(sb, m) && ino.nrSects == NR_DEFAULT_FILE_SECTS
    && ino.size <= SECTOR_SIZE * NR_DEFAULT_FILE_SECTS
  }

  /** The sector map is bit 0 and the whole slots of the live files. */
  ghost predicate MapIsSlots(sec: seq<Sector>, sb: SuperBlock, live: Files)
    requires HasMap(sec, sb.Smap0(), sb.nrSmapSects)
  {
    forall n :: 0 <= n < sb.MapBits() ==>
      (MapBit(sec, sb.Smap0(), n) <==> n == 0 || Taken(live, (n - 1) / NR_DEFAULT_FILE_SECTS))
  }

  ghost predicate VolumeInv(sec: seq<Sector>, sb: SuperBlock, live: Files) {
    && Formatted(sb) && |sec| == sb.nrSects
    && ROOT_INODE in live && live[ROOT_INODE] == 0 && Injective(live) && MapBit(sec, IMAP0, 0)
    && (forall x :: x in live ==>
          && 1 <= x < BITS_PER_SECT && MapBit(sec, IMAP0, x)
          && UsableSlot(sb, live[x]) && FileInode(sb, DiskInode(sec, sb, x), live[x]))
    && MapIsSlots(sec, sb, live)
  }

  /** Distinct live files occupy disjoint sectors, all behind the metadata and on the disk. */
  lemma ExtentsDisjoint(sec: seq<Sector>, sb: SuperBlock, live: Files, x: nat, y: nat)
    requires VolumeInv(sec, sb, live) && x in live && y in live
    ensures var i := DiskInode(sec, sb, x);
            && sb.n1stSect <= i.start && i.start + i.nrSects < |sec|
            && ExtentOnDisk(sec, sb, i)
    ensures x != y ==>
              var i, j := DiskInode(sec, sb, x), DiskInode(sec, sb, y);
              i.start + i.nrSects <= j.start || j.start + j.nrSects <= i.start
  {
    var a, b := live[x], live[y];
    assert UsableSlot(sb, a) && UsableSlot(sb, b);
    if x != y { assert a != b; SlotsApart(sb, a, b); }
  }

  lemma SlotsApart(sb: SuperBlock, a: nat, b: nat)
    requires a != b
    ensures SlotStart(sb, a) + NR_DEFAULT_FILE_SECTS <= SlotStart(sb, b) || SlotStart(sb, b) + NR_DEFAULT_FILE_SECTS <= SlotStart(sb, a)
  {}

  // ---------------------------------------------------------------------------------------
  // Allocation

  ghost predicate SlotFree(sb: SuperBlock, live: Files) {
    exists m: nat :: UsableSlot(sb, m) && !Taken(live, m)
  }

  lemma BitOfSlot(m: nat, r: nat)
    requires r < NR_DEFAULT_FILE_SECTS
    ensures (SlotBit(m) + r - 1) / NR_DEFAULT_FILE_SECTS == m
  {}

  lemma SlotOrder(sb: SuperBlock, m: nat, m0: nat)
    requires SlotBit(m) <= SlotBit(m0) && UsableSlot(sb, m0)
    ensures UsableSlot(sb, m)
  {}

  lemma OpensOnBoundary(sec: seq<Sector>, sb: SuperBlock, live: Files, f: nat)
    requires HasMap(sec, sb.Smap0(), sb.nrSmapSects) && MapIsSlots(sec, sb, live)
    requires 1 <= f < sb.MapBits() && forall n :: 0 <= n < f ==> MapBit(sec, sb.Smap0(), n)
    requires !Taken(live, (f - 1) / NR_DEFAULT_FILE_SECTS)
    ensures f == SlotBit((f - 1) / NR_DEFAULT_FILE_SECTS)
  {
    if f >= 2 {
      assert MapBit(sec, sb.Smap0(), f - 1);
      assert Taken(live, (f - 2) / NR_DEFAULT_FILE_SECTS);
    }
  }

  /** The first clear bit of the map opens a whole free slot, although alloc_smap_bit looks at
      that bit only. */
  lemma FirstClearOpensSlot(sec: seq<Sector>, sb: SuperBlock, live: Files, f: nat) returns (m: nat)
    requires VolumeInv(sec, sb, live) && SlotFree(sb, live)
    requires FirstClear(sec, sb.Smap0(), sb.nrSmapSects, f)
    ensures f == SlotBit(m) && UsableSlot(sb, m) && !Taken(live, m)
    ensures f + NR_DEFAULT_FILE_SECTS <= sb.MapBits()
    ensures forall n :: f <= n < f + NR_DEFAULT_FILE_SECTS ==> !MapBit(sec, sb.Smap0(), n)
  {
    var m0: nat :| UsableSlot(sb, m0) && !Taken(live, m0);
    BitOfSlot(m0, 0);
    assert !MapBit(sec, sb.Smap0(), SlotBit(m0));
    assert f <= SlotBit(m0) && f != 0;
    m := (f - 1) / NR_DEFAULT_FILE_SECTS;
    assert !Taken(live, m);
    OpensOnBoundary(sec, sb, live, f);
    SlotOrder(sb, m, m0);
    SlotAllClear(sec, sb, live, m);
  }

  lemma SlotAllClear(sec: seq<Sector>, sb: SuperBlock, live: Files, m: nat)
    requires HasMap(sec, sb.Smap0(), sb.nrSmapSects) && MapIsSlots(sec, sb, live) && UsableSlot(sb, m) && !Taken(live, m)
    ensures forall n :: SlotBit(m) <= n < SlotBit(m) + NR_DEFAULT_FILE_SECTS ==> !MapBit(sec, sb.Smap0(), n)
  {
  }

  // ---------------------------------------------------------------------------------------
  // The steps

  function FreshInode(sb: SuperBlock, f: nat): Inode
    requires f >= 1 && sb.n1stSect + f - 1 < 0x1_0000_0000
  {
    Inode(I_REGULAR, 0, sb.n1stSect + f - 1, NR_DEFAULT_FILE_SECTS)
  }

  /** What create_file changes: one inode bit, a run of 2048 sector bits, the new inode, the
      root inode's size and, in the root directory, the bytes at address at. */
  ghost predicate Created(sec: seq<Sector>, sec': seq<Sector>, sb: SuperBlock, num: nat, f: nat, rootSize: u32, at: nat, bytes: seq<byte>) {
    && |sec'| == |sec| && HasInodes(sec, sb) && HasMap(sec, sb.Smap0(), sb.nrSmapSects) && IMAP0 < |sec|
    && f >= 1 && sb.n1stSect + f - 1 < 0x1_0000_0000 && rootSize <= SECTOR_SIZE * NR_DEFAULT_FILE_SECTS
    && InodeNumber(num)
    && FirstClear(sec, IMAP0, 1, num) && RangeSet(sec, sec', IMAP0, 1, num, num + 1)
    && FirstClear(sec, sb.Smap0(), sb.nrSmapSects, f)
    && RangeSet(sec, sec', sb.Smap0(), sb.nrSmapSects, f, f + NR_DEFAULT_FILE_SECTS)
    && (forall m: nat :: InodeNumber(m) ==>
          DiskInode(sec', sb, m) ==
          if m == num then FreshInode(sb, f)
          else if m == ROOT_INODE then DiskInode(sec, sb, m).(size := rootSize)
          else DiskInode(sec, sb, m))
    && OnlyRootBytes(sec, sec', sb, at, bytes)
  }

  /** What do_unlink changes: the file's inode bit, the sector bits its inode names, its inode,
      the root inode's size and, in the root directory, the bytes at address at. */
  ghost predicate Unlinked(sec: seq<Sector>, sec': seq<Sector>, sb: SuperBlock, num: nat, rootSize: u32, at: nat, bytes: seq<byte>) {
    && |sec'| == |sec| && HasInodes(sec, sb) && HasMap(sec, sb.Smap0(), sb.nrSmapSects) && IMAP0 < |sec|
    && InodeNumber(num) && rootSize <= SECTOR_SIZE * NR_DEFAULT_FILE_SECTS
    && RangeCleared(sec, sec', IMAP0, 1, num, num + 1)
    && (var ino := DiskInode(sec, sb, num);
        var b := ino.start - sb.n1stSect + 1;
        RangeCleared(sec, sec', sb.Smap0(), sb.nrSmapSects, b, b + ino.nrSects))
    && (forall m: nat :: InodeNumber(m) ==>
          DiskInode(sec', sb, m) ==
          if m == num then Inode(0, 0, 0, 0)
          else if m == ROOT_INODE then DiskInode(sec, sb, m).(size := rootSize)
          else DiskInode(sec, sb, m))
    && OnlyRootBytes(sec, sec', sb, at, bytes)
  }

  /** Behind the metadata only the given bytes changed, and they lie in the root directory. */
  ghost predicate OnlyRootBytes(sec: seq<Sector>, sec': seq<Sector>, sb: SuperBlock, at: nat, bytes: seq<byte>) {
    && PatchedFrom(sec, sec', sb.n1stSect, at, bytes)
    && SECTOR_SIZE * sb.n1stSect <= at && at + |bytes| <= SECTOR_SIZE * SlotStart(sb, 1)
    && forall s :: SlotStart(sb, 1) <= s < |sec| ==> sec'[s] == sec[s]
  }

  lemma TakenAfterAdd(live: Files, num: nat, m: nat, k: nat)
    requires num !in live
    ensures Taken(live[num := m], k) <==> k == m || Taken(live, k)
  {
    var live' := live[num := m];
    if Taken(live, k) {
      var x :| x in live && live[x] == k;
      assert x in live' && live'[x] == k;
    }
    if k == m { assert num in live' && live'[num] == k; }
  }

  lemma MapAfterCreate(sec: seq<Sector>, sec': seq<Sector>, sb: SuperBlock, live: Files, num: nat, m: nat)
    requires HasMap(sec, sb.Smap0(), sb.nrSmapSects) && |sec'| == |sec| && num !in live
    requires MapIsSlots(sec, sb, live)
    requires RangeSet(sec, sec', sb.Smap0(), sb.nrSmapSects, SlotBit(m), SlotBit(m) + NR_DEFAULT_FILE_SECTS)
    ensures MapIsSlots(sec', sb, live[num := m])
  {
    forall n | 0 <= n < sb.MapBits()
      ensures MapBit(sec', sb.Smap0(), n) <==> n == 0 || Taken(live[num := m], (n - 1) / NR_DEFAULT_FILE_SECTS)
    {
      if n > 0 {
        TakenAfterAdd(live, num, m, (n - 1) / NR_DEFAULT_FILE_SECTS);
        InSlot(n, m);
      }
    }
  }

  lemma InSlot(n: nat, m: nat)
    requires n > 0
    ensures SlotBit(m) <= n < SlotBit(m) + NR_DEFAULT_FILE_SECTS <==> (n - 1) / NR_DEFAULT_FILE_SECTS == m
  {}

  /** Create keeps the invariant and gives the new file a slot of its own. */
  lemma CreateKeeps(sec: seq<Sector>, sec': seq<Sector>, sb: SuperBlock, live: Files, num: nat, f: nat, rootSize: u32, at: nat, bytes: seq<byte>, live': Files)
    requires VolumeInv(sec, sb, live) && SlotFree(sb, live) && Created(sec, sec', sb, num, f, rootSize, at, bytes)
    requires live' == live[num := (f - 1) / NR_DEFAULT_FILE_SECTS]
    ensures num !in live && f == SlotBit((f - 1) / NR_DEFAULT_FILE_SECTS) && !Taken(live, (f - 1) / NR_DEFAULT_FILE_SECTS)
    ensures VolumeInv(sec', sb, live')
  {
    CreateOpensSlot(sec, sb, live, f);
    FreshNumber(sec, sb, live, num);
    CreateAt(sec, sec', sb, live, num, f, rootSize, at, bytes, (f - 1) / NR_DEFAULT_FILE_SECTS);
  }

  lemma CreateOpensSlot(sec: seq<Sector>, sb: SuperBlock, live: Files, f: nat)
    requires VolumeInv(sec, sb, live) && SlotFree(sb, live) && f >= 1 && FirstClear(sec, sb.Smap0(), sb.nrSmapSects, f)
    ensures var m := (f - 1) / NR_DEFAULT_FILE_SECTS;
            f == SlotBit(m) && UsableSlot(sb, m) && !Taken(live, m)
  {
    var m := FirstClearOpensSlot(sec, sb, live, f);
    BitOfSlot(m, 0);
  }

  lemma CreateAt(sec: seq<Sector>, sec': seq<Sector>, sb: SuperBlock, live: Files, num: nat, f: nat, rootSize: u32, at: nat, bytes: seq<byte>, m: nat)
    requires VolumeInv(sec, sb, live) && Created(sec, sec', sb, num, f, rootSize, at, bytes)
    requires num !in live && f == SlotBit(m) && UsableSlot(sb, m) && !Taken(live, m)
    ensures VolumeInv(sec', sb, live[num := m])
  {
    MapAfterCreate(sec, sec', sb, live, num, m);
    CreatedFiles(sec, sec', sb, live, num, f, rootSize, at, bytes, m);
    AddInjective(live, num, m);
  }

  lemma FreshNumber(sec: seq<Sector>, sb: SuperBlock, live: Files, num: nat)
    requires VolumeInv(sec, sb, live) && FirstClear(sec, IMAP0, 1, num)
    ensures num !in live
  {}

  lemma CreatedFiles(sec: seq<Sector>, sec': seq<Sector>, sb: SuperBlock, live: Files, num: nat, f: nat, rootSize: u32, at: nat, bytes: seq<byte>, m: nat)
    requires VolumeInv(sec, sb, live) && Created(sec, sec', sb, num, f, rootSize, at, bytes)
    requires num !in live && f == SlotBit(m) && UsableSlot(sb, m)
    ensures var live' := live[num := m];
            forall x :: x in live' ==>
              && 1 <= x < BITS_PER_SECT && MapBit(sec', IMAP0, x)
              && UsableSlot(sb, live'[x]) && FileInode(sb, DiskInode(sec', sb, x), live'[x])
  {
    var live' := live[num := m];
    forall x | x in live'
      ensures 1 <= x < BITS_PER_SECT && MapBit(sec', IMAP0, x)
      ensures UsableSlot(sb, live'[x]) && FileInode(sb, DiskInode(sec', sb, x), live'[x])
    {
      assert InodeNumber(x);
    }
  }

  lemma AddInjective(live: Files, num: nat, m: nat)
    requires Injective(live) && num !in live && !Taken(live, m)
    ensures Injective(live[num := m])
  {
  }

  lemma MapAfterUnlink(sec: seq<Sector>, sec': seq<Sector>, sb: SuperBlock, live: Files, num: nat)
    requires HasMap(sec, sb.Smap0(), sb.nrSmapSects) && |sec'| == |sec| && num in live && Injective(live)
    requires MapIsSlots(sec, sb, live)
    requires RangeCleared(sec, sec', sb.Smap0(), sb.nrSmapSects, SlotBit(live[num]), SlotBit(live[num]) + NR_DEFAULT_FILE_SECTS)
    ensures MapIsSlots(sec', sb, live - {num})
  {
    var live' := live - {num};
    forall n | 0 <= n < sb.MapBits()
      ensures MapBit(sec', sb.Smap0(), n) <==> n == 0 || Taken(live', (n - 1) / NR_DEFAULT_FILE_SECTS)
    {
      if n > 0 {
        TakenAfterRemove(live, num, (n - 1) / NR_DEFAULT_FILE_SECTS);
        InSlot(n, live[num]);
      }
    }
  }

  lemma TakenAfterRemove(live: Files, num: nat, k: nat)
    requires num in live && Injective(live)
    ensures Taken(live - {num}, k) <==> Taken(live, k) && k != live[num]
  {
    var live' := live - {num};
    if Taken(live, k) && k != live[num] {
      var x :| x in live && live[x] == k;
      assert x in live' && live'[x] == k;
    }
    if Taken(live', k) {
      var x :| x in live' && live'[x] == k;
      assert x in live && live[x] == k && x != num;
    }
  }

  /** Unlink keeps the invariant and gives exactly the file's slot back. */
  lemma UnlinkKeeps(sec: seq<Sector>, sec': seq<Sector>, sb: SuperBlock, live: Files, num: nat, rootSize: u32, at: nat, bytes: seq<byte>)
    requires VolumeInv(sec, sb, live) && num in live && num != ROOT_INODE && Unlinked(sec, sec', sb, num, rootSize, at, bytes)
    ensures VolumeInv(sec', sb, live - {num})
  {
    MapAfterUnlink(sec, sec', sb, live, num);
    var live' := live - {num};
    forall x | x in live'
      ensures 1 <= x < BITS_PER_SECT && MapBit(sec', IMAP0, x)
      ensures UsableSlot(sb, live'[x]) && FileInode(sb, DiskInode(sec', sb, x), live'[x])
    {
      assert x in live && InodeNumber(x) && MapBit(sec, IMAP0, x);
    }
  }

  /** A write to live file num within its capacity. */
  ghost predicate WroteTo(sec: seq<Sector>, sec': seq<Sector>, sb: SuperBlock, num: nat, size: u32, pos: nat, data: seq<byte>) {
    && HasInodes(sec, sb) && InodeNumber(num)
    && (var ino := DiskInode(sec, sb, num);
        && pos + |data| <= Capacity(ino) && size <= Capacity(ino)
        && Wrote(sec, sec', sb, num, ino.(size := size), Base(ino) + pos, data))
  }

  /** What do_rdwt leaves when asked to write data to file x at pos, in capacity or not. */
  ghost predicate AskedToWrite(sec: seq<Sector>, sec': seq<Sector>, sb: SuperBlock, x: nat, pos: nat, data: seq<byte>) {
    && HasInodes(sec, sb) && InodeNumber(x) && pos <= DiskInode(sec, sb, x).size <= Capacity(DiskInode(sec, sb, x))
    && (var ino := DiskInode(sec, sb, x);
        var n := Moved(pos, |data|, Capacity(ino));
        && 0 <= n <= |data| && pos + n < 0x1_0000_0000
        && Wrote(sec, sec', sb, x, Grown(ino, pos + n), Base(ino) + pos, data[..n]))
  }

  /** do_rdwt asked for no more than the capacity takes a write step. */
  lemma DoWriteIsStep(sec: seq<Sector>, sec': seq<Sector>, sb: SuperBlock, num: nat, pos: nat, data: seq<byte>)
    requires AskedToWrite(sec, sec', sb, num, pos, data) && pos + |data| <= Capacity(DiskInode(sec, sb, num))
    ensures Moved(pos, |data|, Capacity(DiskInode(sec, sb, num))) == |data|
    ensures WroteTo(sec, sec', sb, num, Grown(DiskInode(sec, sb, num), pos + |data|).size, pos, data)
  {
    var ino := DiskInode(sec, sb, num);
    MovedWithinLimit(pos, |data|, Capacity(ino));
    assert data[..|data|] == data;
    assert Grown(ino, pos + |data|) == ino.(size := Grown(ino, pos + |data|).size);
  }

  lemma WriteKeeps(sec: seq<Sector>, sec': seq<Sector>, sb: SuperBlock, live: Files, num: nat, size: u32, pos: nat, data: seq<byte>)
    requires VolumeInv(sec, sb, live) && num in live && WroteTo(sec, sec', sb, num, size, pos, data)
    ensures VolumeInv(sec', sb, live)
  {
    SameMaps(sec, sec', sb, live);
    forall x | x in live
      ensures MapBit(sec', IMAP0, x) && FileInode(sb, DiskInode(sec', sb, x), live[x])
    {
      assert InodeNumber(x);
    }
  }

  lemma SameMaps(sec: seq<Sector>, sec': seq<Sector>, sb: SuperBlock, live: Files)
    requires HasMap(sec, sb.Smap0(), sb.nrSmapSects) && |sec'| == |sec| && sb.nrImapSects == 1
    requires forall s :: 0 <= s < sb.Inode0() ==> sec'[s] == sec[s]
    ensures MapIsSlots(sec, sb, live) ==> MapIsSlots(sec', sb, live)
    ensures forall x :: 0 <= x < BITS_PER_SECT ==> (MapBit(sec', IMAP0, x) <==> MapBit(sec, IMAP0, x))
  {
    forall n | 0 <= n < sb.MapBits()
      ensures MapBit(sec', sb.Smap0(), n) <==> MapBit(sec, sb.Smap0(), n)
    {
      assert sb.Smap0() + n / BITS_PER_SECT < sb.Inode0();
    }
  }

  // ---------------------------------------------------------------------------------------
  // Runs

  datatype Event =
    | Create(num: nat, bit: nat, rootSize: u32, at: nat, bytes: seq<byte>)
    | Unlink(num: nat, rootSize: u32, at: nat, bytes: seq<byte>)
    | Write(num: nat, size: u32, pos: nat, data: seq<byte>)

  datatype Volume = Volume(sec: seq<Sector>, live: Files)

  /** One step of a run. A create happens only while a whole slot is free, an unlink only on a
      live file other than the root directory, a write only within the file's capacity. */
  ghost predicate Step(sb: SuperBlock, v: Volume, e: Event, v': Volume) {
    match e
    case Create(num, f, size, at, bytes) =>
      && SlotFree(sb, v.live) && Created(v.sec, v'.sec, sb, num, f, size, at, bytes)
      && v'.live == v.live[num := (f - 1) / NR_DEFAULT_FILE_SECTS]
    case Unlink(num, size, at, bytes) =>
      && num in v.live && num != ROOT_INODE && Unlinked(v.sec, v'.sec, sb, num, size, at, bytes)
      && v'.live == v.live - {num}
    case Write(num, size, pos, data) =>
      num in v.live && WroteTo(v.sec, v'.sec, sb, num, size, pos, data) && v'.live == v.live
  }

  ghost predicate IsRun(sb: SuperBlock, vs: seq<Volume>, es: seq<Event>) {
    |vs| == |es| + 1 && forall i :: 0 <= i < |es| ==> Step(sb, vs[i], es[i], vs[i + 1])
  }

  lemma StepKeeps(sb: SuperBlock, v: Volume, e: Event, v': Volume)
    requires VolumeInv(v.sec, sb, v.live) && Step(sb, v, e, v')
    ensures VolumeInv(v'.sec, sb, v'.live)
  {
    if e.Create? {
      CreateStepKeeps(sb, v, e, v');
    } else if e.Unlink? {
      UnlinkStepKeeps(sb, v, e, v');
    } else {
      WriteStepKeeps(sb, v, e, v');
    }
  }

  lemma CreateStepKeeps(sb: SuperBlock, v: Volume, e: Event, v': Volume)
    requires VolumeInv(v.sec, sb, v.live) && Step(sb, v, e, v') && e.Create?
    ensures VolumeInv(v'.sec, sb, v'.live)
  {
    CreateKeeps(v.sec, v'.sec, sb, v.live, e.num, e.bit, e.rootSize, e.at, e.bytes, v'.live);
  }

  lemma UnlinkStepKeeps(sb: SuperBlock, v: Volume, e: Event, v': Volume)
    requires VolumeInv(v.sec, sb, v.live) && Step(sb, v, e, v') && e.Unlink?
    ensures VolumeInv(v'.sec, sb, v'.live)
  {
    UnlinkKeeps(v.sec, v'.sec, sb, v.live, e.num, e.rootSize, e.at, e.bytes);
  }

  lemma WriteStepKeeps(sb: SuperBlock, v: Volume, e: Event, v': Volume)
    requires VolumeInv(v.sec, sb, v.live) && Step(sb, v, e, v') && e.Write?
    ensures VolumeInv(v'.sec, sb, v'.live)
  {
    WriteKeeps(v.sec, v'.sec, sb, v.live, e.num, e.size, e.pos, e.data);
  }

  /** Every state of a run that starts in a good state is good: files on disjoint extents, and
      a sector map made of whole slots. */
  lemma {:induction false} RunKeeps(sb: SuperBlock, vs: seq<Volume>, es: seq<Event>, n: nat)
    requires IsRun(sb, vs, es) && VolumeInv(vs[0].sec, sb, vs[0].live) && n < |vs|
    ensures VolumeInv(vs[n].sec, sb, vs[n].live)
  {
    if n > 0 {
      RunKeeps(sb, vs, es, n - 1);
      StepKeeps(sb, vs[n - 1], es[n - 1], vs[n]);
    }
  }

  /** Byte o of live file x. */
  function FileByte(sec: seq<Sector>, sb: SuperBlock, x: nat, o: nat): byte
    requires HasInodes(sec, sb) && InodeNumber(x)
    requires Base(DiskInode(sec, sb, x)) + o < SECTOR_SIZE * |sec|
  {
    ByteAt(sec, Base(DiskInode(sec, sb, x)) + o)
  }

  /** The step does not name file x: no write to it, no unlink of it. */
  predicate Spares(e: Event, x: nat) {
    match e
    case Create(_, _, _, _, _) => true
    case Unlink(num, _, _, _) => num != x
    case Write(num, _, _, _) => num != x
  }

  /** File x has the same inode and the same bytes on both disks. */
  ghost predicate SameFile(sec: seq<Sector>, sec': seq<Sector>, sb: SuperBlock, x: nat) {
    && HasInodes(sec, sb) && HasInodes(sec', sb) && |sec'| == |sec| && InodeNumber(x)
    && DiskInode(sec', sb, x) == DiskInode(sec, sb, x)
    && forall o :: 0 <= o < Capacity(DiskInode(sec, sb, x)) && Base(DiskInode(sec, sb, x)) + o < SECTOR_SIZE * |sec| ==>
         FileByte(sec', sb, x, o) == FileByte(sec, sb, x, o)
  }

  lemma WholeSectorsSame(sec: seq<Sector>, sec': seq<Sector>, sb: SuperBlock, x: nat)
    requires HasInodes(sec, sb) && |sec'| == |sec| && InodeNumber(x)
    requires DiskInode(sec', sb, x) == DiskInode(sec, sb, x) && DiskInode(sec, sb, x).start >= SlotStart(sb, 1)
    requires forall s :: SlotStart(sb, 1) <= s < |sec| ==> sec'[s] == sec[s]
    ensures SameFile(sec, sec', sb, x)
  {
  }

  lemma WriteSpares(sec: seq<Sector>, sec': seq<Sector>, sb: SuperBlock, live: Files, num: nat, size: u32, pos: nat, data: seq<byte>, x: nat)
    requires VolumeInv(sec, sb, live) && num in live && x in live && x != num
    requires WroteTo(sec, sec', sb, num, size, pos, data)
    ensures SameFile(sec, sec', sb, x)
  {
    ExtentsDisjoint(sec, sb, live, x, num);
    ExtentsDisjoint(sec, sb, live, num, x);
    WriteMisses(sec, sec', sb, num, size, pos, data, x);
  }

  lemma WriteMisses(sec: seq<Sector>, sec': seq<Sector>, sb: SuperBlock, num: nat, size: u32, pos: nat, data: seq<byte>, x: nat)
    requires WroteTo(sec, sec', sb, num, size, pos, data) && InodeNumber(x) && x != num
    requires var i, j := DiskInode(sec, sb, x), DiskInode(sec, sb, num);
             && sb.Inode0() + 256 <= i.start
             && (i.start + i.nrSects <= j.start || j.start + j.nrSects <= i.start)
    ensures SameFile(sec, sec', sb, x)
  {
    var i, j := DiskInode(sec, sb, x), DiskInode(sec, sb, num);
    forall o | 0 <= o < Capacity(i) && Base(i) + o < SECTOR_SIZE * |sec|
      ensures FileByte(sec', sb, x, o) == FileByte(sec, sb, x, o)
    {
      var a := Base(i) + o;
      assert !(Base(j) + pos <= a < Base(j) + pos + |data|);
      assert ByteAt(sec', a) == ByteAt(sec, a);
    }
  }

  lemma StepSpares(sb: SuperBlock, v: Volume, e: Event, v': Volume, x: nat)
    requires VolumeInv(v.sec, sb, v.live) && Step(sb, v, e, v') && x in v.live && x != ROOT_INODE && Spares(e, x)
    ensures x in v'.live && SameFile(v.sec, v'.sec, sb, x)
  {
    if e.Write? {
      WriteSpares(v.sec, v'.sec, sb, v.live, e.num, e.size, e.pos, e.data, x);
    } else {
      BehindRoot(v.sec, sb, v.live, x);
      if e.Create? { FreshNumber(v.sec, sb, v.live, e.num); }
      WholeSectorsSame(v.sec, v'.sec, sb, x);
    }
  }

  lemma BehindRoot(sec: seq<Sector>, sb: SuperBlock, live: Files, x: nat)
    requires VolumeInv(sec, sb, live) && x in live && x != ROOT_INODE
    ensures InodeNumber(x) && DiskInode(sec, sb, x).start >= SlotStart(sb, 1)
  {
    assert live[x] != live[ROOT_INODE];
    assert FileInode(sb, DiskInode(sec, sb, x), live[x]);
  }

  /** Isolation over whole runs: whatever is created, written or unlinked, a file that no step
      writes or unlinks keeps its inode and every one of its bytes. */
  lemma {:induction false} FileIsolation(sb: SuperBlock, vs: seq<Volume>, es: seq<Event>, n: nat, x: nat)
    requires IsRun(sb, vs, es) && VolumeInv(vs[0].sec, sb, vs[0].live) && n < |vs|
    requires x in vs[0].live && x != ROOT_INODE && forall i :: 0 <= i < n ==> Spares(es[i], x)
    ensures x in vs[n].live && SameFile(vs[0].sec, vs[n].sec, sb, x)
  {
    if n > 0 {
      FileIsolation(sb, vs, es, n - 1, x);
      RunKeeps(sb, vs, es, n - 1);
      IsolationStep(sb, vs[0], vs[n - 1], es[n - 1], vs[n], x);
    } else {
      SameFileReflexive(vs[0].sec, sb, vs[0].live, x);
    }
  }

  lemma IsolationStep(sb: SuperBlock, v0: Volume, v: Volume, e: Event, v': Volume, x: nat)
    requires VolumeInv(v.sec, sb, v.live) && Step(sb, v, e, v') && x in v.live && x != ROOT_INODE && Spares(e, x)
    requires SameFile(v0.sec, v.sec, sb, x)
    ensures x in v'.live && SameFile(v0.sec, v'.sec, sb, x)
  {
    StepSpares(sb, v, e, v', x);
    SameFileTransitive(v0.sec, v.sec, v'.sec, sb, x);
  }

  lemma SameFileReflexive(sec: seq<Sector>, sb: SuperBlock, live: Files, x: nat)
    requires VolumeInv(sec, sb, live) && x in live
    ensures SameFile(sec, sec, sb, x)
  {}

  lemma SameFileTransitive(a: seq<Sector>, b: seq<Sector>, c: seq<Sector>, sb: SuperBlock, x: nat)
    requires SameFile(a, b, sb, x) && SameFile(b, c, sb, x)
    ensures SameFile(a, c, sb, x)
  {
  }

  // ---------------------------------------------------------------------------------------
  // Writing past the capacity

  const FILE_BYTES := SECTOR_SIZE * NR_DEFAULT_FILE_SECTS

  /** How many bytes of a request at pos go behind an extent of the given capacity: those past it,
      up to a sector. */
  function Overrun(pos: nat, len: nat, cap: nat): nat {
    if pos + len <= cap then 0 else if pos + len <= cap + SECTOR_SIZE then pos + len - cap else SECTOR_SIZE
  }

  lemma OverrunMoved(pos: nat, len: nat, cap: nat)
    requires pos <= cap && cap % SECTOR_SIZE == 0
    ensures Moved(pos, len, cap) == if pos + len <= cap then len else cap - pos + Overrun(pos, len, cap)
  {
    var q, r := pos / SECTOR_SIZE, cap / SECTOR_SIZE;
    assert pos == SECTOR_SIZE * q + pos % SECTOR_SIZE && cap == SECTOR_SIZE * r;
    if pos + len >= cap { assert Min(pos + len, cap) / SECTOR_SIZE == r; }
    MovedWithinLimit(pos, len, cap);
  }

  /** The m bytes of the disk from address a on. */
  ghost function Bytes(sec: seq<Sector>, a: nat, m: nat): (bs: seq<byte>)
    requires a + m <= SECTOR_SIZE * |sec|
    ensures |bs| == m && forall o :: 0 <= o < m ==> bs[o] == ByteAt(sec, a + o)
  {
    seq<byte>(m, o requires 0 <= o < m => ByteAt(sec, a + o))
  }

  /** A run of bytes written at address at, seen from addresses base up to base + ext behind it. */
  lemma PatchSeenBehind(sec: seq<Sector>, sec': seq<Sector>, first: nat, at: nat, d: seq<byte>, base: nat, ext: nat, tail: seq<byte>)
    requires PatchedFrom(sec, sec', first, at, d) && SECTOR_SIZE * first <= base && base + ext <= SECTOR_SIZE * |sec|
    requires at <= base <= at + |d| <= base + ext && tail == d[base - at..]
    ensures Bytes(sec', base, ext) == tail + Bytes(sec, base, ext)[|tail|..]
  {
    var now, was := Bytes(sec', base, ext), Bytes(sec, base, ext);
    forall o | 0 <= o < ext ensures now[o] == (tail + was[|tail|..])[o] {
      assert ByteAt(sec', base + o) == if at <= base + o < at + |d| then d[base + o - at] else ByteAt(sec, base + o);
    }
  }

  /** The bytes of a request at pos that go behind the extent: those past its end, up to a sector. */
  function Spill(data: seq<byte>, pos: nat): (d: seq<byte>)
    requires pos <= FILE_BYTES
    ensures |d| == Overrun(pos, |data|, FILE_BYTES)
  {
    if pos + |data| <= FILE_BYTES then [] else data[FILE_BYTES - pos..FILE_BYTES - pos + Overrun(pos, |data|, FILE_BYTES)]
  }

  /** The extent of file y begins where that of file x ends. */
  ghost predicate Adjacent(sec: seq<Sector>, sb: SuperBlock, x: nat, y: nat) {
    && HasInodes(sec, sb) && InodeNumber(x) && InodeNumber(y) && x != y
    && var i, j := DiskInode(sec, sb, x), DiskInode(sec, sb, y);
       && Base(j) == Base(i) + FILE_BYTES && Base(j) + FILE_BYTES < SECTOR_SIZE * |sec| && SECTOR_SIZE * (sb.Inode0() + 256) <= Base(j)
       && Capacity(i) == Capacity(j) == FILE_BYTES && i.size <= FILE_BYTES
  }

  lemma NextExtent(sec: seq<Sector>, sb: SuperBlock, live: Files, x: nat, y: nat)
    requires VolumeInv(sec, sb, live) && x in live && y in live && live[y] == live[x] + 1
    ensures Adjacent(sec, sb, x, y)
  {
    assert FileInode(sb, DiskInode(sec, sb, x), live[x]) && FileInode(sb, DiskInode(sec, sb, y), live[y]) && UsableSlot(sb, live[y]);
  }

  /** File y keeps its inode, and its first bytes become d. */
  ghost predicate HeadBecomes(sec: seq<Sector>, sec': seq<Sector>, sb: SuperBlock, y: nat, d: seq<byte>) {
    && HasInodes(sec, sb) && |sec'| == |sec| && InodeNumber(y) && DiskInode(sec', sb, y) == DiskInode(sec, sb, y)
    && var j := DiskInode(sec, sb, y);
       && Base(j) + Capacity(j) <= SECTOR_SIZE * |sec| && |d| <= Capacity(j)
       && Bytes(sec', Base(j), Capacity(j)) == d + Bytes(sec, Base(j), Capacity(j))[|d|..]
  }

  /** File y in the slot behind that of x: its inode stays, and its first bytes become the bytes past
      the capacity of x, at most a sector of them. */
  lemma OverrunHitsNext(sec: seq<Sector>, sec': seq<Sector>, sb: SuperBlock, x: nat, y: nat, pos: nat, data: seq<byte>)
    requires Adjacent(sec, sb, x, y) && AskedToWrite(sec, sec', sb, x, pos, data) && pos + |data| >= FILE_BYTES
    ensures HeadBecomes(sec, sec', sb, y, Spill(data, pos))
  {
    var i := DiskInode(sec, sb, x);
    var d := SpillMoved(data, pos);
    PatchSeenBehind(sec, sec', sb.Inode0() + 256, Base(i) + pos, d, Base(i) + FILE_BYTES, FILE_BYTES, Spill(data, pos));
  }

  lemma SpillMoved(data: seq<byte>, pos: nat) returns (d: seq<byte>)
    requires pos <= FILE_BYTES <= pos + |data|
    ensures 0 <= Moved(pos, |data|, FILE_BYTES) <= |data| && d == data[..Moved(pos, |data|, FILE_BYTES)]
    ensures FILE_BYTES <= pos + |d| <= FILE_BYTES + SECTOR_SIZE && d[FILE_BYTES - pos..] == Spill(data, pos)
  {
    OverrunMoved(pos, |data|, FILE_BYTES);
    d := data[..Moved(pos, |data|, FILE_BYTES)];
  }

  lemma SameFileIsSameBytes(sec: seq<Sector>, sec': seq<Sector>, sb: SuperBlock, y: nat)
    requires HasInodes(sec, sb) && |sec'| == |sec| && InodeNumber(y) && DiskInode(sec', sb, y) == DiskInode(sec, sb, y)
    requires var j := DiskInode(sec, sb, y); Base(j) + Capacity(j) <= SECTOR_SIZE * |sec|
    ensures var j := DiskInode(sec, sb, y);
            SameFile(sec, sec', sb, y) <==> Bytes(sec', Base(j), Capacity(j)) == Bytes(sec, Base(j), Capacity(j))
  {
    var j := DiskInode(sec, sb, y);
    var now, was := Bytes(sec', Base(j), Capacity(j)), Bytes(sec, Base(j), Capacity(j));
    if now == was {
      forall o | 0 <= o < Capacity(j) ensures FileByte(sec', sb, y, o) == FileByte(sec, sb, y, o) { assert now[o] == was[o]; }
    }
    if SameFile(sec, sec', sb, y) {
      forall o | 0 <= o < Capacity(j) ensures now[o] == was[o] { assert FileByte(sec', sb, y, o) == FileByte(sec, sb, y, o); }
    }
  }

  lemma SameHead(a: seq<byte>, b: seq<byte>, m: nat)
    requires |a| == m <= |b|
    ensures a + b[m..] == b <==> a == b[..m]
  {
    assert b == b[..m] + b[m..];
    if a + b[m..] == b { assert (a + b[m..])[..m] == a; }
  }

  lemma HeadReplaced(sec: seq<Sector>, sec': seq<Sector>, sb: SuperBlock, y: nat, d: seq<byte>)
    requires HeadBecomes(sec, sec', sb, y, d)
    ensures SameFile(sec, sec', sb, y) <==> BeginsWith(sec, sb, y, d)
  {
    var j := DiskInode(sec, sb, y);
    var was := Bytes(sec, Base(j), Capacity(j));
    SameFileIsSameBytes(sec, sec', sb, y);
    SameHead(d, was, |d|);
    assert was[..|d|] == Bytes(sec, Base(j), |d|);
  }

  /** The extent of file y begins with the bytes d. */
  ghost predicate BeginsWith(sec: seq<Sector>, sb: SuperBlock, y: nat, d: seq<byte>) {
    && HasInodes(sec, sb) && InodeNumber(y) && Base(DiskInode(sec, sb, y)) + |d| <= SECTOR_SIZE * |sec|
    && Bytes(sec, Base(DiskInode(sec, sb, y)), |d|) == d
  }

  /** Whatever write is asked of x, do_rdwt leaves the file in the next slot as it was if and only if
      that file begins with the bytes past the capacity anyway. */
  lemma NeighbourKeptExactly(sec: seq<Sector>, sec': seq<Sector>, sb: SuperBlock, live: Files, x: nat, y: nat, pos: nat, data: seq<byte>)
    requires VolumeInv(sec, sb, live) && x in live && y in live && live[y] == live[x] + 1 && AskedToWrite(sec, sec', sb, x, pos, data)
    ensures pos <= FILE_BYTES
    ensures SameFile(sec, sec', sb, y) <==> BeginsWith(sec, sb, y, Spill(data, pos))
  {
    NextExtent(sec, sb, live, x, y);
    if pos + |data| >= FILE_BYTES {
      OverrunHitsNext(sec, sec', sb, x, y, pos, data);
      HeadReplaced(sec, sec', sb, y, Spill(data, pos));
    } else {
      OthersKeptAnyway(sec, sec', sb, live, x, y, pos, data);
    }
  }

  /** Every other file, and within the capacity every file, keeps its inode and bytes. */
  lemma OthersKeptAnyway(sec: seq<Sector>, sec': seq<Sector>, sb: SuperBlock, live: Files, x: nat, z: nat, pos: nat, data: seq<byte>)
    requires VolumeInv(sec, sb, live) && x in live && z in live && z != x && AskedToWrite(sec, sec', sb, x, pos, data)
    requires live[z] != live[x] + 1 || pos + |data| <= Capacity(DiskInode(sec, sb, x))
    ensures SameFile(sec, sec', sb, z)
  {
    TwoFiles(sec, sb, live, x, z);
    NotReached(sec, sec', sb, x, z, live[x], live[z], pos, data);
  }

  lemma TwoFiles(sec: seq<Sector>, sb: SuperBlock, live: Files, x: nat, z: nat)
    requires VolumeInv(sec, sb, live) && x in live && z in live && z != x
    ensures live[x] != live[z] && Formatted(sb) && InodeNumber(x) && InodeNumber(z)
    ensures FileInode(sb, DiskInode(sec, sb, x), live[x]) && FileInode(sb, DiskInode(sec, sb, z), live[z])
  {
  }

  lemma NotReached(sec: seq<Sector>, sec': seq<Sector>, sb: SuperBlock, x: nat, z: nat, a: nat, b: nat, pos: nat, data: seq<byte>)
    requires Formatted(sb) && AskedToWrite(sec, sec', sb, x, pos, data) && InodeNumber(z) && x != z && a != b
    requires FileInode(sb, DiskInode(sec, sb, x), a) && FileInode(sb, DiskInode(sec, sb, z), b)
    requires b != a + 1 || pos + |data| <= Capacity(DiskInode(sec, sb, x))
    ensures SameFile(sec, sec', sb, z)
  {
    var i := DiskInode(sec, sb, x);
    OverrunMoved(pos, |data|, Capacity(i));
    SlotsBehind(sb, a, b);
    WrittenElsewhere(sec, sec', sb, x, z, Base(i) + pos, data[..Moved(pos, |data|, Capacity(i))]);
  }

  lemma SlotsBehind(sb: SuperBlock, a: nat, b: nat)
    requires a != b
    ensures SlotStart(sb, b) + NR_DEFAULT_FILE_SECTS <= SlotStart(sb, a) || SlotStart(sb, a) + NR_DEFAULT_FILE_SECTS <= SlotStart(sb, b)
    ensures b > a + 1 ==> SlotStart(sb, a) + NR_DEFAULT_FILE_SECTS + 1 <= SlotStart(sb, b)
  {
  }

  lemma WrittenElsewhere(sec: seq<Sector>, sec': seq<Sector>, sb: SuperBlock, x: nat, z: nat, at: nat, d: seq<byte>)
    requires HasInodes(sec, sb) && InodeNumber(z) && x != z && |sec'| == |sec| && PatchedFrom(sec, sec', sb.Inode0() + 256, at, d)
    requires DiskInode(sec', sb, z) == DiskInode(sec, sb, z)
    requires var j := DiskInode(sec, sb, z); sb.Inode0() + 256 <= j.start && (Base(j) + Capacity(j) <= at || at + |d| <= Base(j))
    ensures SameFile(sec, sec', sb, z)
  {
    var j := DiskInode(sec, sb, z);
    forall o | 0 <= o < Capacity(j) && Base(j) + o < SECTOR_SIZE * |sec| ensures FileByte(sec', sb, z, o) == FileByte(sec, sb, z, o) {
      assert ByteAt(sec', Base(j) + o) == ByteAt(sec, Base(j) + o);
    }
  }

  /** The volume stays in order if and only if the request is in capacity: past it the size in the
      inode of x exceeds the capacity. */
  lemma VolumeKeptExactly(sec: seq<Sector>, sec': seq<Sector>, sb: SuperBlock, live: Files, x: nat, pos: nat, data: seq<byte>)
    requires VolumeInv(sec, sb, live) && x in live && AskedToWrite(sec, sec', sb, x, pos, data)
    ensures VolumeInv(sec', sb, live) <==> pos + |data| <= FILE_BYTES
  {
    SizeInCapacity(sec, sb, live, x);
    if pos + |data| <= FILE_BYTES {
      DoWriteIsStep(sec, sec', sb, x, pos, data);
      WriteKeeps(sec, sec', sb, live, x, Grown(DiskInode(sec, sb, x), pos + |data|).size, pos, data);
    } else {
      GrownTooFar(sec, sec', sb, x, pos, data);
      if VolumeInv(sec', sb, live) { SizeInCapacity(sec', sb, live, x); }
    }
  }

  lemma SizeInCapacity(sec: seq<Sector>, sb: SuperBlock, live: Files, x: nat)
    requires VolumeInv(sec, sb, live) && x in live
    ensures InodeNumber(x) && HasInodes(sec, sb) && DiskInode(sec, sb, x).size <= Capacity(DiskInode(sec, sb, x)) == FILE_BYTES
  {
    assert FileInode(sb, DiskInode(sec, sb, x), live[x]);
  }

  lemma GrownTooFar(sec: seq<Sector>, sec': seq<Sector>, sb: SuperBlock, x: nat, pos: nat, data: seq<byte>)
    requires AskedToWrite(sec, sec', sb, x, pos, data) && Capacity(DiskInode(sec, sb, x)) == FILE_BYTES < pos + |data|
    ensures HasInodes(sec', sb) && DiskInode(sec', sb, x).size > FILE_BYTES
  {
    MovedTooFar(pos, |data|);
    assert DiskInode(sec', sb, x) == Grown(DiskInode(sec, sb, x), pos + Moved(pos, |data|, FILE_BYTES));
  }

  lemma MovedTooFar(pos: nat, len: nat)
    requires pos <= FILE_BYTES < pos + len
    ensures pos + Moved(pos, len, FILE_BYTES) > FILE_BYTES
  {
    OverrunMoved(pos, len, FILE_BYTES);
  }

  /** At every position of every file with a neighbour there is a request one byte past the capacity
      that spoils the neighbour. */
  lemma WriteCanSpoil(sec: seq<Sector>, sb: SuperBlock, live: Files, x: nat, y: nat, pos: nat) returns (data: seq<byte>)
    requires VolumeInv(sec, sb, live) && x in live && y in live && live[y] == live[x] + 1
    requires InodeNumber(x) && pos <= DiskInode(sec, sb, x).size
    ensures pos + |data| == FILE_BYTES + 1
    ensures forall sec' :: AskedToWrite(sec, sec', sb, x, pos, data) ==> !SameFile(sec, sec', sb, y)
  {
    NextExtent(sec, sb, live, x, y);
    data := Spoiler(sec, sb, x, y, pos);
    forall sec' | AskedToWrite(sec, sec', sb, x, pos, data) ensures !SameFile(sec, sec', sb, y) {
      NeighbourKeptExactly(sec, sec', sb, live, x, y, pos, data);
    }
  }

  /** Data that ends, one byte past the capacity, with a byte other than the first of file y. */
  lemma Spoiler(sec: seq<Sector>, sb: SuperBlock, x: nat, y: nat, pos: nat) returns (data: seq<byte>)
    requires Adjacent(sec, sb, x, y) && pos <= FILE_BYTES
    ensures pos + |data| == FILE_BYTES + 1 && !BeginsWith(sec, sb, y, Spill(data, pos))
  {
    var a := Base(DiskInode(sec, sb, y));
    var c: byte := if ByteAt(sec, a) == 0 then 1 else 0;
    data := seq<byte>(FILE_BYTES - pos, _ => 0) + [c];
    assert Spill(data, pos) == [c];
    assert Bytes(sec, a, 1)[0] == ByteAt(sec, a + 0);
  }

  /** The slots before the one opened by the first clear bit are taken. */
  lemma LowestSlot(sec: seq<Sector>, sb: SuperBlock, live: Files, f: nat, m: nat, j: nat)
    requires HasMap(sec, sb.Smap0(), sb.nrSmapSects) && MapIsSlots(sec, sb, live)
    requires FirstClear(sec, sb.Smap0(), sb.nrSmapSects, f) && f == SlotBit(m) && j < m
    ensures Taken(live, j)
  {
    BitOfSlot(j, 0);
    assert MapBit(sec, sb.Smap0(), SlotBit(j));
  }

  lemma CreatedLowest(sb: SuperBlock, v: Volume, e: Event, v': Volume)
    requires VolumeInv(v.sec, sb, v.live) && Step(sb, v, e, v') && e.Create?
    ensures e.num !in v.live && e.num in v'.live && v'.live == v.live[e.num := v'.live[e.num]]
    ensures !Taken(v.live, v'.live[e.num]) && forall j :: 0 <= j < v'.live[e.num] ==> Taken(v.live, j)
  {
    var m := (e.bit - 1) / NR_DEFAULT_FILE_SECTS;
    CreateOpensSlot(v.sec, sb, v.live, e.bit);
    FreshNumber(v.sec, sb, v.live, e.num);
    forall j | 0 <= j < m ensures Taken(v.live, j) { LowestSlot(v.sec, sb, v.live, e.bit, m, j); }
  }

  /** Exactly the first n slots are taken. */
  ghost predicate FirstSlots(live: Files, n: nat) { forall j: nat :: Taken(live, j) <==> j < n }

  lemma FreshSlots(live: Files)
    requires live == map[ROOT_INODE := 0]
    ensures FirstSlots(live, 1)
  {
    assert ROOT_INODE in live && live[ROOT_INODE] == 0;
  }

  lemma NextFile(sb: SuperBlock, v: Volume, e: Event, v': Volume, n: nat)
    requires VolumeInv(v.sec, sb, v.live) && Step(sb, v, e, v') && e.Create? && FirstSlots(v.live, n)
    ensures e.num !in v.live && v'.live == v.live[e.num := n] && VolumeInv(v'.sec, sb, v'.live) && FirstSlots(v'.live, n + 1)
  {
    CreatedLowest(sb, v, e, v');
    CreateStepKeeps(sb, v, e, v');
    assert v'.live[e.num] == n by { assert Taken(v.live, n) <==> n < n; }
    OneSlotMore(v.live, e.num, n);
  }

  lemma OneSlotMore(live: Files, num: nat, n: nat)
    requires FirstSlots(live, n) && num !in live
    ensures FirstSlots(live[num := n], n + 1)
  {
    var live' := live[num := n];
    forall j: nat ensures Taken(live', j) <==> j < n + 1 {
      if j == n { assert num in live' && live'[num] == j; }
      if j < n {
        assert Taken(live, j);
        var x :| x in live && live[x] == j;
        assert x in live' && live'[x] == j;
      }
      if j > n && Taken(live', j) {
        var x :| x in live' && live'[x] == j;
        assert x in live && live[x] == j;
        assert Taken(live, j);
      }
    }
  }

  /** The first two files of a fresh volume lie next to each other, and a write of one byte more than
      the capacity to the first spoils the second. */
  lemma FirstTwoFiles(sb: SuperBlock, v0: Volume, e1: Event, v1: Volume, e2: Event, v2: Volume) returns (data: seq<byte>)
    requires VolumeInv(v0.sec, sb, v0.live) && v0.live == map[ROOT_INODE := 0]
    requires Step(sb, v0, e1, v1) && e1.Create? && Step(sb, v1, e2, v2) && e2.Create?
    ensures e1.num != e2.num && v2.live == map[ROOT_INODE := 0, e1.num := 1, e2.num := 2] && |data| == FILE_BYTES + 1
    ensures forall sec' :: AskedToWrite(v2.sec, sec', sb, e1.num, 0, data) ==> !SameFile(v2.sec, sec', sb, e2.num)
  {
    FreshSlots(v0.live);
    NextFile(sb, v0, e1, v1, 1);
    NextFile(sb, v1, e2, v2, 2);
    assert e1.num in v2.live;
    data := WriteCanSpoil(v2.sec, sb, v2.live, e1.num, e2.num, 0);
  }
}
