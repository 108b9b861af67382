/** Runs of file system calls: while every removal leaves the root directory in order, all of them
    do, a file keeps its name until it is unlinked, and its inode and bytes until it is written. */
module FsRuns {
  import opened Basics
  import opened FsDisk
  import opened FsMap
  import opened FsInode
  import opened FsDir
  import opened FsVolume
  import opened FsRoot

  datatype Call =
    | Opened(f: seq<byte>, num: nat, bit: nat)             // do_open with O_CREAT of a new name
    | Unlinks(num: nat)                                    // do_unlink
    | Writes(num: nat, size: u32, pos: nat, data: seq<byte>)
    | Nothing                                              // a call that was refused, or a read within the size

  ghost predicate OpenStep(sb: SuperBlock, v: Volume, f: seq<byte>, num: nat, bit: nat, v': Volume) {
    && SlotFree(sb, v.live) && GoodName(f) && CreatedAs(v.sec, v'.sec, sb, num, bit, f) && Resolves(v.sec, sb, f) == 0
    && v'.live == v.live[num := (bit - 1) / NR_DEFAULT_FILE_SECTS]
  }

  /** A removal that cuts off no live entry. */
  ghost predicate UnlinkStep(sb: SuperBlock, v: Volume, num: nat, v': Volume) {
    && num in v.live && num != ROOT_INODE && UnlinkedAs(v.sec, v'.sec, sb, num)
    && ShrinksWell(v.sec, sb, RootFind(v.sec, sb, num)) && v'.live == v.live - {num}
  }

  ghost predicate WriteStep(sb: SuperBlock, v: Volume, num: nat, size: u32, pos: nat, data: seq<byte>, v': Volume) {
    num in v.live && num != ROOT_INODE && WroteTo(v.sec, v'.sec, sb, num, size, pos, data) && v'.live == v.live
  }

  ghost predicate CallStep(sb: SuperBlock, v: Volume, c: Call, v': Volume) {
    match c
    case Opened(f, num, bit) => OpenStep(sb, v, f, num, bit, v')
    case Unlinks(num) => UnlinkStep(sb, v, num, v')
    case Writes(num, size, pos, data) => WriteStep(sb, v, num, size, pos, data, v')
    case Nothing => v' == v
  }

  lemma CallKeeps(sb: SuperBlock, v: Volume, c: Call, v': Volume)
    requires DirInv(v.sec, sb, v.live) && CallStep(sb, v, c, v')
    ensures DirInv(v'.sec, sb, v'.live)
  {
    match c
    case Opened(f, num, bit) => OpenKeeps(sb, v, f, num, bit, v');
    case Unlinks(num) => UnlinksKeep(sb, v, num, v');
    case Writes(num, size, pos, data) => WritesKeep(sb, v, num, size, pos, data, v');
    case Nothing =>
  }

  lemma OpenKeeps(sb: SuperBlock, v: Volume, f: seq<byte>, num: nat, bit: nat, v': Volume)
    requires DirInv(v.sec, sb, v.live) && OpenStep(sb, v, f, num, bit, v')
    ensures DirInv(v'.sec, sb, v'.live)
  {
    CreateKeepsDir(v.sec, v'.sec, sb, v.live, num, bit, f, v'.live);
  }

  lemma UnlinksKeep(sb: SuperBlock, v: Volume, num: nat, v': Volume)
    requires DirInv(v.sec, sb, v.live) && UnlinkStep(sb, v, num, v')
    ensures DirInv(v'.sec, sb, v'.live)
  {
    UnlinkKeepsDir(v.sec, v'.sec, sb, v.live, num);
  }

  lemma WritesKeep(sb: SuperBlock, v: Volume, num: nat, size: u32, pos: nat, data: seq<byte>, v': Volume)
    requires DirInv(v.sec, sb, v.live) && WriteStep(sb, v, num, size, pos, data, v')
    ensures DirInv(v'.sec, sb, v'.live)
  {
    WriteKeepsDir(v.sec, v'.sec, sb, v.live, num, size, pos, data);
  }

  /** The call as a step of the volume. */
  lemma CallSpares(sb: SuperBlock, v: Volume, c: Call, v': Volume, x: nat)
    requires VolumeInv(v.sec, sb, v.live) && CallStep(sb, v, c, v') && x in v.live && x != ROOT_INODE
    requires LeavesAlone(c, x)
    ensures SameFile(v.sec, v'.sec, sb, x)
  {
    if c == Nothing {
      SameFileReflexive(v.sec, sb, v.live, x);
    } else {
      var e := CallIsStep(sb, v, c, v');
      StepSpares(sb, v, e, v', x);
    }
  }

  lemma CallIsStep(sb: SuperBlock, v: Volume, c: Call, v': Volume) returns (e: Event)
    requires CallStep(sb, v, c, v') && c != Nothing
    ensures Step(sb, v, e, v') && forall x :: LeavesAlone(c, x) ==> Spares(e, x)
  {
    match c
    case Opened(f, num, bit) =>
      e := Create(num, bit, RootGrown(v.sec, sb), EntryAddr(sb, RootFree(v.sec, sb)), LeBytes(num) + f + [0]);
    case Unlinks(num) =>
      var m := RootFind(v.sec, sb, num);
      e := Unlink(num, RootShrunk(v.sec, sb, m), EntryAddr(sb, m), Zeros(DIR_ENTRY_SIZE));
    case Writes(num, size, pos, data) => e := Write(num, size, pos, data);
  }

  predicate LeavesAlone(c: Call, x: nat) { c != Unlinks(x) && !(c.Writes? && c.num == x) }

  /** Name g leads to file x. */
  ghost predicate Named(sec: seq<Sector>, sb: SuperBlock, g: seq<byte>, x: nat) {
    OnVolume(sec, sb) && RootCount(sec, sb) <= BITS_PER_SECT && GoodName(g) && Resolves(sec, sb, g) == x
  }

  lemma CallKeepsName(sb: SuperBlock, v: Volume, c: Call, v': Volume, x: nat, g: seq<byte>)
    requires DirInv(v.sec, sb, v.live) && CallStep(sb, v, c, v') && x in v.live && x > 0 && c != Unlinks(x) && Named(v.sec, sb, g, x)
    ensures x in v'.live && Named(v'.sec, sb, g, x)
  {
    match c
    case Opened(f, num, bit) => OpenKeepsName(sb, v, f, num, bit, v', x, g);
    case Unlinks(num) => UnlinkKeepsName(sb, v, num, v', x, g);
    case Writes(num, size, pos, data) => WriteKeepsName(sb, v, num, size, pos, data, v', x, g);
    case Nothing =>
  }

  /** A file that was opened with O_CREAT is regular and empty, its name leads to it, and no map bit of its
      2048 sectors was set before. */
  lemma OpenedIsEmpty(sb: SuperBlock, v: Volume, f: seq<byte>, num: nat, bit: nat, v': Volume)
    requires DirInv(v.sec, sb, v.live) && OpenStep(sb, v, f, num, bit, v')
    ensures HasInodes(v'.sec, sb) && InodeNumber(num) && num !in v.live && num in v'.live && Named(v'.sec, sb, f, num)
    ensures var ino := DiskInode(v'.sec, sb, num);
            && ino.size == 0 && ino.mode == I_REGULAR && ino.nrSects == NR_DEFAULT_FILE_SECTS && ino.start >= sb.n1stSect
            && forall n :: ino.start - sb.n1stSect < n <= ino.start - sb.n1stSect + NR_DEFAULT_FILE_SECTS ==>
                 n < sb.MapBits() && !MapBit(v.sec, sb.Smap0(), n)
  {
    FreshNumber(v.sec, sb, v.live, num);
    CreateResolves(v.sec, v'.sec, sb, v.live, num, bit, f, f);
    var m := FirstClearOpensSlot(v.sec, sb, v.live, bit);
  }

  /** A removal gives back the number and the slot: the inode is zero, its map bits and those of its sectors
      are clear, and a file can be created again. */
  lemma UnlinkGivesBack(sb: SuperBlock, v: Volume, num: nat, v': Volume)
    requires DirInv(v.sec, sb, v.live) && UnlinkStep(sb, v, num, v')
    ensures InodeNumber(num) && num < BITS_PER_SECT && |v'.sec| == |v.sec| && num !in v'.live && SlotFree(sb, v'.live)
    ensures DiskInode(v'.sec, sb, num) == Inode(0, 0, 0, 0) && !MapBit(v'.sec, IMAP0, num)
    ensures var b := DiskInode(v.sec, sb, num).start - sb.n1stSect + 1;
            forall n :: b <= n < b + NR_DEFAULT_FILE_SECTS ==> 0 < n < sb.MapBits() && !MapBit(v'.sec, sb.Smap0(), n)
  {
    BitsOfFile(v.sec, sb, v.live, num);
    NotTakenAfter(v.live, num);
    assert UsableSlot(sb, v.live[num]) && !Taken(v'.live, v.live[num]);
    NumberCleared(v.sec, v'.sec, num);
  }

  lemma BitsOfFile(sec: seq<Sector>, sb: SuperBlock, live: Files, num: nat)
    requires VolumeInv(sec, sb, live) && num in live
    ensures InodeNumber(num) && num < BITS_PER_SECT && UsableSlot(sb, live[num]) && Injective(live)
    ensures var ino := DiskInode(sec, sb, num);
            ino.nrSects == NR_DEFAULT_FILE_SECTS && 0 < ino.start - sb.n1stSect + 1 && ino.start - sb.n1stSect + 1 + ino.nrSects <= sb.MapBits()
  {
    assert FileInode(sb, DiskInode(sec, sb, num), live[num]);
  }

  lemma NumberCleared(sec: seq<Sector>, sec': seq<Sector>, num: nat)
    requires HasMap(sec, IMAP0, 1) && |sec'| == |sec| && num < BITS_PER_SECT && RangeCleared(sec, sec', IMAP0, 1, num, num + 1)
    ensures !MapBit(sec', IMAP0, num)
  {
  }

  lemma NotTakenAfter(live: Files, num: nat)
    requires Injective(live) && num in live
    ensures !Taken(live - {num}, live[num])
  {
  }

  lemma OpenKeepsName(sb: SuperBlock, v: Volume, f: seq<byte>, num: nat, bit: nat, v': Volume, x: nat, g: seq<byte>)
    requires DirInv(v.sec, sb, v.live) && OpenStep(sb, v, f, num, bit, v') && x in v.live && x > 0 && Named(v.sec, sb, g, x)
    ensures x in v'.live && Named(v'.sec, sb, g, x)
  {
    CreateResolves(v.sec, v'.sec, sb, v.live, num, bit, f, g);
  }

  lemma UnlinkKeepsName(sb: SuperBlock, v: Volume, num: nat, v': Volume, x: nat, g: seq<byte>)
    requires DirInv(v.sec, sb, v.live) && UnlinkStep(sb, v, num, v') && x in v.live && x > 0 && x != num && Named(v.sec, sb, g, x)
    ensures x in v'.live && Named(v'.sec, sb, g, x)
  {
    UnlinkResolvesAll(v.sec, v'.sec, sb, v.live, num);
    ShrinksWellReaches(v.sec, sb, v.live.Keys + Consoles(), num);
  }

  lemma WriteKeepsName(sb: SuperBlock, v: Volume, num: nat, size: u32, pos: nat, data: seq<byte>, v': Volume, x: nat, g: seq<byte>)
    requires DirInv(v.sec, sb, v.live) && WriteStep(sb, v, num, size, pos, data, v') && x in v.live && x > 0 && Named(v.sec, sb, g, x)
    ensures x in v'.live && Named(v'.sec, sb, g, x)
  {
    WriteKeepsDir(v.sec, v'.sec, sb, v.live, num, size, pos, data);
    SameNames(v.sec, v'.sec, sb, g);
  }

  ghost predicate IsCallRun(sb: SuperBlock, vs: seq<Volume>, cs: seq<Call>) {
    |vs| == |cs| + 1 && forall i :: 0 <= i < |cs| ==> CallAt(sb, vs, cs, i)
  }

  ghost predicate CallAt(sb: SuperBlock, vs: seq<Volume>, cs: seq<Call>, i: nat) {
    i < |cs| && |vs| == |cs| + 1 && CallStep(sb, vs[i], cs[i], vs[i + 1])
  }

  lemma StepInto(sb: SuperBlock, vs: seq<Volume>, cs: seq<Call>, k: nat, n: nat)
    requires IsCallRun(sb, vs, cs) && n == k + 1 < |vs|
    ensures CallStep(sb, vs[k], cs[k], vs[n])
  {
    assert CallAt(sb, vs, cs, k);
  }

  lemma KeepsInto(sb: SuperBlock, vs: seq<Volume>, cs: seq<Call>, k: nat, n: nat)
    requires IsCallRun(sb, vs, cs) && n == k + 1 < |vs| && DirInv(vs[k].sec, sb, vs[k].live)
    ensures DirInv(vs[n].sec, sb, vs[n].live)
  {
    StepInto(sb, vs, cs, k, n);
    CallKeeps(sb, vs[k], cs[k], vs[n]);
  }

  lemma KeepsNameInto(sb: SuperBlock, vs: seq<Volume>, cs: seq<Call>, k: nat, n: nat, x: nat, g: seq<byte>)
    requires IsCallRun(sb, vs, cs) && n == k + 1 < |vs| && DirInv(vs[k].sec, sb, vs[k].live)
    requires x in vs[k].live && x > 0 && Named(vs[k].sec, sb, g, x) && cs[k] != Unlinks(x)
    ensures x in vs[n].live && Named(vs[n].sec, sb, g, x)
  {
    StepInto(sb, vs, cs, k, n);
    CallKeepsName(sb, vs[k], cs[k], vs[n], x, g);
  }

  lemma SparesInto(sb: SuperBlock, vs: seq<Volume>, cs: seq<Call>, k: nat, n: nat, x: nat)
    requires IsCallRun(sb, vs, cs) && n == k + 1 < |vs| && DirInv(vs[k].sec, sb, vs[k].live)
    requires x in vs[k].live && x != ROOT_INODE && LeavesAlone(cs[k], x)
    ensures SameFile(vs[k].sec, vs[n].sec, sb, x)
  {
    StepInto(sb, vs, cs, k, n);
    CallSpares(sb, vs[k], cs[k], vs[n], x);
  }

  lemma {:induction false} CallsKeep(sb: SuperBlock, vs: seq<Volume>, cs: seq<Call>, n: nat)
    requires IsCallRun(sb, vs, cs) && DirInv(vs[0].sec, sb, vs[0].live) && n < |vs|
    ensures DirInv(vs[n].sec, sb, vs[n].live)
  {
    if n != 0 {
      var k: nat := n - 1;
      CallsKeep(sb, vs, cs, k);
      KeepsInto(sb, vs, cs, k, n);
    }
  }

  /** A file that no call unlinks keeps its name. */
  lemma {:induction false} NameKept(sb: SuperBlock, vs: seq<Volume>, cs: seq<Call>, n: nat, x: nat, g: seq<byte>)
    requires IsCallRun(sb, vs, cs) && DirInv(vs[0].sec, sb, vs[0].live) && n < |vs|
    requires x in vs[0].live && x > 0 && Named(vs[0].sec, sb, g, x) && forall i :: 0 <= i < n ==> cs[i] != Unlinks(x)
    ensures x in vs[n].live && Named(vs[n].sec, sb, g, x)
  {
    if n != 0 {
      var k: nat := n - 1;
      NameKept(sb, vs, cs, k, x, g);
      CallsKeep(sb, vs, cs, k);
      KeepsNameInto(sb, vs, cs, k, n, x, g);
    }
  }

  /** A file that no call unlinks or writes keeps its name, its inode and every one of its bytes. */
  lemma FileKept(sb: SuperBlock, vs: seq<Volume>, cs: seq<Call>, n: nat, x: nat, g: seq<byte>)
    requires IsCallRun(sb, vs, cs) && DirInv(vs[0].sec, sb, vs[0].live) && n < |vs|
    requires x in vs[0].live && x != ROOT_INODE && x > 0 && Named(vs[0].sec, sb, g, x) && forall i :: 0 <= i < n ==> LeavesAlone(cs[i], x)
    ensures x in vs[n].live && Named(vs[n].sec, sb, g, x) && SameFile(vs[0].sec, vs[n].sec, sb, x)
  {
    NameKept(sb, vs, cs, n, x, g);
    BytesKept(sb, vs, cs, n, x, g);
  }

  lemma {:induction false} BytesKept(sb: SuperBlock, vs: seq<Volume>, cs: seq<Call>, n: nat, x: nat, g: seq<byte>)
    requires IsCallRun(sb, vs, cs) && DirInv(vs[0].sec, sb, vs[0].live) && n < |vs|
    requires x in vs[0].live && x != ROOT_INODE && x > 0 && Named(vs[0].sec, sb, g, x) && forall i :: 0 <= i < n ==> LeavesAlone(cs[i], x)
    ensures SameFile(vs[0].sec, vs[n].sec, sb, x)
  {
    if n != 0 {
      var k: nat := n - 1;
      BytesKept(sb, vs, cs, k, x, g);
      NameKept(sb, vs, cs, k, x, g);
      CallsKeep(sb, vs, cs, k);
      SparesInto(sb, vs, cs, k, n, x);
      SameFileTransitive(vs[0].sec, vs[k].sec, vs[n].sec, sb, x);
    } else {
      SameFileReflexive(vs[0].sec, sb, vs[0].live, x);
    }
  }
}
