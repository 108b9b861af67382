/** Reading, writing and seeking in a regular file (kernel/fs.c:1315-1439, kernel/fs.c:1695-1726):
    transfers at any byte position, done one 512-byte sector at a time, against the disk seen as
    one flat array of bytes. */
module FsFile {
  import opened Basics
  import opened FsDisk
  import opened FsInode

  /** An open file: f_desc_table entry. */
  class FileDesc {
    var pos: nat
    const slot: nat
    const rdwr: bool

    constructor (slot: nat, rdwr: bool)
      ensures this.slot == slot && this.rdwr == rdwr && pos == 0
    {
      this.slot, this.rdwr, pos := slot, rdwr, 0;
    }
  }

  // ---------------------------------------------------------------------------------------
  // The disk as a flat array of bytes

  function ByteAt(sec: seq<Sector>, a: nat): byte
    requires a < SECTOR_SIZE * |sec|
  {
    sec[a / SECTOR_SIZE][a % SECTOR_SIZE]
  }

  /** Bytes at up to at + |data| became data, no other byte of the disk changed. */
  ghost predicate Patched(sec: seq<Sector>, sec': seq<Sector>, at: nat, data: seq<byte>) {
    && |sec'| == |sec|
    && forall a: nat :: a < SECTOR_SIZE * |sec| ==>
         ByteAt(sec', a) == if at <= a < at + |data| then data[a - at] else ByteAt(sec, a)
  }

  /** The same for the bytes of the sectors from first on. */
  ghost predicate PatchedFrom(sec: seq<Sector>, sec': seq<Sector>, first: nat, at: nat, data: seq<byte>) {
    && |sec'| == |sec|
    && forall a: nat :: SECTOR_SIZE * first <= a < SECTOR_SIZE * |sec| ==>
         ByteAt(sec', a) == if at <= a < at + |data| then data[a - at] else ByteAt(sec, a)
  }

  // ---------------------------------------------------------------------------------------
  // How much one call transfers

  /** The number of bytes a call moves: all of len, unless the sectors up to the one that holds
      the limited end position run out first. */
  function Moved(pos: nat, len: nat, limit: nat): int
    requires pos <= limit
  {
    var room := SECTOR_SIZE * (Min(pos + len, limit) / SECTOR_SIZE - pos / SECTOR_SIZE + 1) - pos % SECTOR_SIZE;
    if len < room then len else room
  }

  /** A transfer stops at its limit exactly when it was asked to: a request that reaches past
      the limit moves more bytes than lie before it. */
  lemma MovedWithinLimit(pos: nat, len: nat, limit: nat)
    requires pos <= limit
    ensures 0 <= Moved(pos, len, limit) <= len
    ensures pos + len <= limit ==> Moved(pos, len, limit) == len
    ensures pos + Moved(pos, len, limit) <= limit <==> pos + len <= limit
    ensures pos + Moved(pos, len, limit) <= SECTOR_SIZE * (limit / SECTOR_SIZE + 1)
  {
  }

  /** The bytes moved once sector number i of the file has been reached, i counted from the
      sector of the start position. */
  function MovedAfter(pos: nat, len: nat, i: nat): (m: nat)
    ensures m <= len
  {
    if i == 0 then 0 else Min(len, SECTOR_SIZE * i - pos % SECTOR_SIZE)
  }

  // ---------------------------------------------------------------------------------------
  // One sector

  function Overlay(buf: Sector, off: nat, bytes: seq<byte>): Sector
    requires off + |bytes| <= SECTOR_SIZE
  {
    buf[..off] + bytes + buf[off + |bytes|..]
  }

  lemma PatchStep(was: seq<Sector>, sec: seq<Sector>, at: nat, data: seq<byte>, rw: nat, n: nat, s: nat, off: nat)
    requires rw + n <= |data| && s < |sec| && off + n <= SECTOR_SIZE
    requires n > 0 ==> at + rw == SECTOR_SIZE * s + off
    requires Patched(was, sec, at, data[..rw])
    ensures Patched(was, sec[s := Overlay(sec[s], off, data[rw..rw + n])], at, data[..rw + n])
  {
    var sec' := sec[s := Overlay(sec[s], off, data[rw..rw + n])];
    forall a: nat | a < SECTOR_SIZE * |was|
      ensures ByteAt(sec', a) == if at <= a < at + rw + n then data[..rw + n][a - at] else ByteAt(was, a)
    {
      assert a == SECTOR_SIZE * (a / SECTOR_SIZE) + a % SECTOR_SIZE;
      assert ByteAt(sec, a) == if at <= a < at + rw then data[..rw][a - at] else ByteAt(was, a);
    }
  }

  /** got holds the bytes of the disk from at on. */
  ghost predicate Copied(sec: seq<Sector>, at: nat, got: seq<byte>) {
    && at + |got| <= SECTOR_SIZE * |sec|
    && forall a: nat :: at <= a < at + |got| ==> ByteAt(sec, a) == got[a - at]
  }

  lemma CopyStep(sec: seq<Sector>, at: nat, got: seq<byte>, s: nat, off: nat, n: nat)
    requires s < |sec| && off + n <= SECTOR_SIZE && Copied(sec, at, got)
    requires n > 0 ==> at + |got| == SECTOR_SIZE * s + off
    ensures Copied(sec, at, got + sec[s][off..off + n])
  {
  }

  // ---------------------------------------------------------------------------------------
  // do_rdwt

  /** The file's extent lies behind the metadata and is not the last thing on the disk: a
      transfer that ends on a sector boundary also reads the sector after it. */
  ghost predicate ExtentOnDisk(sec: seq<Sector>, sb: SuperBlock, ino: Inode) {
    && sb.Inode0() + 256 <= sb.n1stSect <= ino.start
    && ino.start + ino.nrSects < |sec|
    && ino.size <= SECTOR_SIZE * ino.nrSects < 0x8000_0000 - SECTOR_SIZE
  }

  /** The read loop: copies the sectors' bytes out. */
  method ReadLoop(d: Disk, start: nat, pos: nat, len: nat, sects: nat) returns (rw: nat, got: seq<byte>)
    requires start + pos / SECTOR_SIZE + sects <= |d.sectors| && sects > 0
    ensures rw == MovedAfter(pos, len, sects) && |got| == rw
    ensures Copied(d.sectors, SECTOR_SIZE * start + pos, got)
  {
    rw, got := 0, [];
    var off, left := pos % SECTOR_SIZE, len;
    var i := 0;
    while i < sects
      invariant i <= sects && rw == MovedAfter(pos, len, i) && left == len - rw && |got| == rw
      invariant off == if i == 0 then pos % SECTOR_SIZE else 0
      invariant Copied(d.sectors, SECTOR_SIZE * start + pos, got)
    {
      var s := start + pos / SECTOR_SIZE + i;
      var bytes := Min(left, SECTOR_SIZE - off);
      var buf := d.RdSect(s);
      SectorPosition(start, pos, len, i);
      CopyStep(d.sectors, SECTOR_SIZE * start + pos, got, s, off, bytes);
      got := got + buf[off..off + bytes];
      off, rw, left, i := 0, rw + bytes, left - bytes, i + 1;
    }
  }

  /** While bytes are left, the next one sits at the current offset of the current sector. */
  lemma SectorPosition(start: nat, pos: nat, len: nat, i: nat)
    ensures MovedAfter(pos, len, i) < len ==>
              SECTOR_SIZE * start + pos + MovedAfter(pos, len, i)
              == SECTOR_SIZE * (start + pos / SECTOR_SIZE + i) + if i == 0 then pos % SECTOR_SIZE else 0
  {
  }

  /** The write loop: reads each sector, overlays the caller's bytes and writes it back. */
  method WriteLoop(d: Disk, start: nat, pos: nat, data: seq<byte>, sects: nat) returns (rw: nat)
    requires start + pos / SECTOR_SIZE + sects <= |d.sectors|
    modifies d
    ensures rw == MovedAfter(pos, |data|, sects)
    ensures Patched(old(d.sectors), d.sectors, SECTOR_SIZE * start + pos, data[..rw])
  {
    ghost var was := d.sectors;
    var len := |data|;
    rw := 0;
    var off, left := pos % SECTOR_SIZE, len;
    var i := 0;
    while i < sects
      invariant i <= sects && rw == MovedAfter(pos, len, i) && left == len - rw
      invariant off == if i == 0 then pos % SECTOR_SIZE else 0
      invariant Patched(was, d.sectors, SECTOR_SIZE * start + pos, data[..rw])
    {
      var s := start + pos / SECTOR_SIZE + i;
      var bytes := Min(left, SECTOR_SIZE - off);
      var buf := d.RdSect(s);
      SectorPosition(start, pos, len, i);
      PatchStep(was, d.sectors, SECTOR_SIZE * start + pos, data, rw, bytes, s, off);
      d.WrSect(s, Overlay(buf, off, data[rw..rw + bytes]));
      off, rw, left, i := 0, rw + bytes, left - bytes, i + 1;
    }
  }

  /** A transfer through an open file: the slot is cached and describes a file on the disk. */
  ghost predicate CanTransfer(d: Disk, sb: SuperBlock, table: seq<Slot>, fd: FileDesc)
    reads d, fd
  {
    && Coherent(d.sectors, sb, table)
    && fd.slot < |table| && table[fd.slot].cnt > 0
    && ExtentOnDisk(d.sectors, sb, table[fd.slot].ino)
    && fd.pos <= table[fd.slot].ino.size
  }

  function Base(ino: Inode): nat { SECTOR_SIZE * ino.start }
  function Capacity(ino: Inode): nat { SECTOR_SIZE * ino.nrSects }

  /** The inode after a transfer that ended at position end: any transfer that ends past the
      file's size, a read included, makes the file longer. */
  function Grown(ino: Inode, end: nat): Inode
    requires end < 0x1_0000_0000
  {
    if end > ino.size then ino.(size := end) else ino
  }

  /** The tail of do_rdwt: records the larger size in the table and on the disk. */
  method GrowTo(d: Disk, sb: SuperBlock, table: array<Slot>, r: nat, end: nat)
    requires Coherent(d.sectors, sb, table[..]) && r < table.Length && table[r].cnt > 0 && end < 0x1_0000_0000
    modifies d, table
    ensures var p := old(table[r]);
            && table[..] == old(table[..])[r := p.(ino := Grown(p.ino, end))]
            && OnlyInode(old(d.sectors), d.sectors, sb, p.num, Grown(p.ino, end))
    ensures Coherent(d.sectors, sb, table[..])
  {
    ghost var t, was := table[..], d.sectors;
    if end > table[r].ino.size {
      table[r] := table[r].(ino := table[r].ino.(size := end));
      SyncInode(d, sb, table[r]);
      SyncWritesOne(was, sb, t[r].num, table[r].ino);
      SyncCoherent(was, d.sectors, sb, t, r, table[r].ino);
      assert table[..] == t[r := t[r].(ino := table[r].ino)];
    } else {
      assert t[r := t[r].(ino := t[r].ino)] == t;
    }
  }

  /** What a write changes: the bytes of the run become data, the inode may grow, and nothing
      else on the disk changes. */
  ghost predicate Wrote(sec: seq<Sector>, sec': seq<Sector>, sb: SuperBlock, num: nat, ino: Inode, at: nat, data: seq<byte>)
  {
    && |sec'| == |sec| && HasInodes(sec, sb) && HasInodes(sec', sb)
    && (forall m: nat :: InodeNumber(m) ==> DiskInode(sec', sb, m) == if m == num then ino else DiskInode(sec, sb, m))
    && (forall s :: 0 <= s < sb.Inode0() ==> sec'[s] == sec[s])
    && PatchedFrom(sec, sec', sb.Inode0() + 256, at, data)
  }

  lemma PatchKeepsSector(sec: seq<Sector>, mid: seq<Sector>, at: nat, data: seq<byte>, s: nat)
    requires Patched(sec, mid, at, data) && s < |sec| && SECTOR_SIZE * (s + 1) <= at
    ensures mid[s] == sec[s]
  {
    forall k | 0 <= k < SECTOR_SIZE ensures mid[s][k] == sec[s][k] {
      var a := SECTOR_SIZE * s + k;
      assert a / SECTOR_SIZE == s && a % SECTOR_SIZE == k;
      assert ByteAt(mid, a) == ByteAt(sec, a);
    }
  }

  lemma PatchedThenSynced(sec: seq<Sector>, mid: seq<Sector>, sec': seq<Sector>, sb: SuperBlock, t: seq<Slot>,
                          num: nat, ino: Inode, at: nat, data: seq<byte>)
    requires Coherent(sec, sb, t) && Patched(sec, mid, at, data) && SECTOR_SIZE * (sb.Inode0() + 256) <= at
    ensures Coherent(mid, sb, t)
    ensures OnlyInode(mid, sec', sb, num, ino) ==> Wrote(sec, sec', sb, num, ino, at, data)
  {
    forall s: nat | s < sb.Inode0() + 256 ensures mid[s] == sec[s] { PatchKeepsSector(sec, mid, at, data, s); }
    ElsewhereCoherent(sec, mid, sb, t);
    if OnlyInode(mid, sec', sb, num, ino) {
      forall a: nat | SECTOR_SIZE * (sb.Inode0() + 256) <= a < SECTOR_SIZE * |sec|
        ensures ByteAt(sec', a) == if at <= a < at + |data| then data[a - at] else ByteAt(sec, a)
      {
        assert a / SECTOR_SIZE >= sb.Inode0() + 256;
        assert sec'[a / SECTOR_SIZE] == mid[a / SECTOR_SIZE];
        assert ByteAt(mid, a) == if at <= a < at + |data| then data[a - at] else ByteAt(sec, a);
      }
    }
  }

  /** do_rdwt with the request READ. */
  method DoRead(d: Disk, sb: SuperBlock, table: array<Slot>, fd: FileDesc, len: nat) returns (n: int, got: seq<byte>)
    requires CanTransfer(d, sb, table[..], fd)
    modifies d, table, fd
    ensures var p := old(table[fd.slot]);
            if !fd.rdwr then n == -1 && fd.pos == old(fd.pos) && d.sectors == old(d.sectors) && table[..] == old(table[..])
            else
              && n == Moved(old(fd.pos), len, p.ino.size) && |got| == n && fd.pos == old(fd.pos) + n
              && Copied(old(d.sectors), Base(p.ino) + old(fd.pos), got)
              && n + old(fd.pos) < 0x1_0000_0000
              && table[..] == old(table[..])[fd.slot := p.(ino := Grown(p.ino, fd.pos))]
              && OnlyInode(old(d.sectors), d.sectors, sb, p.num, Grown(p.ino, fd.pos))
    ensures Coherent(d.sectors, sb, table[..])
  {
    if !fd.rdwr { return -1, []; }
    var pin := table[fd.slot].ino;
    var pos := fd.pos;
    MovedWithinLimit(pos, len, pin.size);
    var sects := Min(pos + len, pin.size) / SECTOR_SIZE - pos / SECTOR_SIZE + 1;
    n, got := ReadLoop(d, pin.start, pos, len, sects);
    fd.pos := fd.pos + n;
    GrowTo(d, sb, table, fd.slot, fd.pos);
  }

  /** do_rdwt with the request WRITE. */
  method DoWrite(d: Disk, sb: SuperBlock, table: array<Slot>, fd: FileDesc, data: seq<byte>) returns (n: int)
    requires CanTransfer(d, sb, table[..], fd)
    modifies d, table, fd
    ensures var p := old(table[fd.slot]);
            if !fd.rdwr then n == -1 && fd.pos == old(fd.pos) && d.sectors == old(d.sectors) && table[..] == old(table[..])
            else
              && n == Moved(old(fd.pos), |data|, Capacity(p.ino)) && 0 <= n <= |data| && fd.pos == old(fd.pos) + n
              && n + old(fd.pos) < 0x1_0000_0000
              && table[..] == old(table[..])[fd.slot := p.(ino := Grown(p.ino, fd.pos))]
              && Wrote(old(d.sectors), d.sectors, sb, p.num, Grown(p.ino, fd.pos), Base(p.ino) + old(fd.pos), data[..n])
    ensures Coherent(d.sectors, sb, table[..])
  {
    if !fd.rdwr { return -1; }
    ghost var was, t := d.sectors, table[..];
    var p, pos := table[fd.slot], fd.pos;
    n := WriteData(d, sb, t, p, pos, data);
    ghost var mid := d.sectors;
    fd.pos := fd.pos + n;
    GrowTo(d, sb, table, fd.slot, fd.pos);
    PatchedThenSynced(was, mid, d.sectors, sb, t, p.num, Grown(p.ino, fd.pos), Base(p.ino) + pos, data[..n]);
  }

  /** The data part of a write: the cached inodes stay what they are on the disk. */
  method WriteData(d: Disk, sb: SuperBlock, ghost t: seq<Slot>, p: Slot, pos: nat, data: seq<byte>) returns (n: nat)
    requires Coherent(d.sectors, sb, t) && ExtentOnDisk(d.sectors, sb, p.ino) && pos <= p.ino.size
    modifies d
    ensures n == Moved(pos, |data|, Capacity(p.ino)) && n <= |data| && pos + n < 0x1_0000_0000
    ensures Patched(old(d.sectors), d.sectors, Base(p.ino) + pos, data[..n])
    ensures Coherent(d.sectors, sb, t)
  {
    ghost var was := d.sectors;
    MovedWithinLimit(pos, |data|, Capacity(p.ino));
    var sects := Min(pos + |data|, Capacity(p.ino)) / SECTOR_SIZE - pos / SECTOR_SIZE + 1;
    n := WriteLoop(d, p.ino.start, pos, data, sects);
    PatchedThenSynced(was, d.sectors, d.sectors, sb, t, p.num, p.ino, Base(p.ino) + pos, data[..n]);
  }

  // ---------------------------------------------------------------------------------------
  // do_lseek

  datatype Whence = SeekSet | SeekCur | SeekEnd | OtherWhence

  /** The position moves to off, by off from where it is, or to off behind the end, unless that lies
      outside the file. */
  method DoLseek(table: array<Slot>, fd: FileDesc, off: int, whence: Whence) returns (r: int)
    requires fd.slot < table.Length
    modifies fd`pos
    ensures whence == SeekSet ==> r == if 0 <= off <= table[fd.slot].ino.size then off else -1
    ensures whence == SeekCur ==> r == if 0 <= old(fd.pos) + off <= table[fd.slot].ino.size then old(fd.pos) + off else -1
    ensures whence == SeekEnd ==> r == if 0 <= table[fd.slot].ino.size + off <= table[fd.slot].ino.size then table[fd.slot].ino.size + off else -1
    ensures whence == OtherWhence ==> r == -1
    ensures fd.pos == if r == -1 then old(fd.pos) else r
  {
    var pos: int := fd.pos;
    var size: int := table[fd.slot].ino.size;
    match whence {
      case SeekSet => pos := off;
      case SeekCur => pos := pos + off;
      case SeekEnd => pos := size + off;
      case OtherWhence => return -1;
    }
    if pos > size || pos < 0 { return -1; }
    fd.pos := pos;
    return pos;
  }

  method SeekAndRead(d: Disk, sb: SuperBlock, table: array<Slot>, fd: FileDesc, pos: nat, len: nat) returns (got: seq<byte>)
    requires CanTransfer(d, sb, table[..], fd) && fd.rdwr && pos + len <= table[fd.slot].ino.size
    modifies d, table, fd
    ensures |got| == len && fd.pos == pos + len && Copied(old(d.sectors), old(Base(table[fd.slot].ino)) + pos, got)
  {
    var r := DoLseek(table, fd, pos, SeekSet);
    MovedWithinLimit(pos, len, table[fd.slot].ino.size);
    r, got := DoRead(d, sb, table, fd, len);
  }

  /** A write within capacity, a seek back and a read of the same length give the bytes back. */
  method WriteSeekRead(d: Disk, sb: SuperBlock, table: array<Slot>, fd: FileDesc, data: seq<byte>) returns (got: seq<byte>)
    requires CanTransfer(d, sb, table[..], fd) && fd.rdwr
    requires fd.pos + |data| <= Capacity(table[fd.slot].ino)
    modifies d, table, fd
    ensures got == data && fd.pos == old(fd.pos) + |data|
  {
    var pos := fd.pos;
    ghost var was, ino := d.sectors, table[fd.slot].ino;
    MovedWithinLimit(pos, |data|, Capacity(ino));
    var n := DoWrite(d, sb, table, fd, data);
    assert data[..n] == data;
    ghost var written := d.sectors;
    got := SeekAndRead(d, sb, table, fd, pos, |data|);
    ReadsBack(was, written, sb.Inode0() + 256, Base(ino) + pos, data, got);
  }

  lemma ReadsBack(was: seq<Sector>, sec: seq<Sector>, first: nat, at: nat, data: seq<byte>, got: seq<byte>)
    requires PatchedFrom(was, sec, first, at, data) && SECTOR_SIZE * first <= at && |got| == |data| && Copied(sec, at, got)
    ensures got == data
  {
    forall k | 0 <= k < |got| ensures got[k] == data[k] {
      var a: nat := at + k;
      assert at <= a < at + |data|;
      assert ByteAt(sec, a) == got[a - at];
    }
  }
}
