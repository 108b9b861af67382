/** The bytes a file holds, and what writes, reads and seeks do to them (kernel/fs.c:1315-1439,
    kernel/fs.c:1695-1726). */
module FsBytes {
  import opened Basics
  import opened FsDisk
  import opened FsInode
  import opened FsFile

  /** The bytes of a file, as many as its size says. */
  ghost function Contents(sec: seq<Sector>, ino: Inode): (c: seq<byte>)
    requires Base(ino) + ino.size <= SECTOR_SIZE * |sec|
    ensures |c| == ino.size && forall o :: 0 <= o < |c| ==> c[o] == ByteAt(sec, Base(ino) + o)
  {
    seq<byte>(ino.size, o requires 0 <= o < ino.size => ByteAt(sec, Base(ino) + o))
  }

  /** data laid over the bytes c from pos on; the result is longer if it reaches past the end. */
  ghost predicate LaidOver(c: seq<byte>, c': seq<byte>, pos: nat, data: seq<byte>) {
    && pos <= |c| && |c'| == (if pos + |data| > |c| then pos + |data| else |c|)
    && c'[..pos] == c[..pos] && c'[pos..pos + |data|] == data
    && (pos + |data| <= |c| ==> c'[pos + |data|..] == c[pos + |data|..])
  }

  lemma PatchLaysOver(was: seq<Sector>, sec: seq<Sector>, first: nat, ino: Inode, ino': Inode, pos: nat, data: seq<byte>)
    requires PatchedFrom(was, sec, first, Base(ino) + pos, data) && SECTOR_SIZE * first <= Base(ino) && pos <= ino.size
    requires ino'.start == ino.start && Base(ino) + ino.size <= SECTOR_SIZE * |sec| && Base(ino) + ino'.size <= SECTOR_SIZE * |sec|
    requires ino'.size == if pos + |data| > ino.size then pos + |data| else ino.size
    ensures LaidOver(Contents(was, ino), Contents(sec, ino'), pos, data)
  {
    var c, c' := Contents(was, ino), Contents(sec, ino');
    forall o | 0 <= o < |c'| ensures c'[o] == if pos <= o < pos + |data| then data[o - pos] else c[o] {
      var a: nat := Base(ino) + o;
      assert ByteAt(sec, a) == if Base(ino) + pos <= a < Base(ino) + pos + |data| then data[a - (Base(ino) + pos)] else ByteAt(was, a);
    }
  }

  lemma OnlyInodeKeepsBytes(was: seq<Sector>, sec: seq<Sector>, sb: SuperBlock, num: nat, ino: Inode, ino': Inode)
    requires OnlyInode(was, sec, sb, num, ino') && ExtentOnDisk(was, sb, ino) && ino' == ino
    ensures Base(ino) + ino.size <= SECTOR_SIZE * |sec| && Contents(sec, ino) == Contents(was, ino)
  {
    var c, c' := Contents(was, ino), Contents(sec, ino);
    forall o | 0 <= o < ino.size ensures c'[o] == c[o] {
      var a: nat := Base(ino) + o;
      assert a / SECTOR_SIZE >= ino.start;
    }
  }

  /** A write within the capacity lays its data over the file's bytes at the position and moves the
      position behind them. */
  method WriteWithin(d: Disk, sb: SuperBlock, table: array<Slot>, fd: FileDesc, data: seq<byte>) returns (n: int)
    requires CanTransfer(d, sb, table[..], fd) && fd.rdwr && fd.pos + |data| <= Capacity(table[fd.slot].ino)
    modifies d, table, fd
    ensures n == |data| && fd.pos == old(fd.pos) + |data|
    ensures CanTransfer(d, sb, table[..], fd) && Capacity(table[fd.slot].ino) == old(Capacity(table[fd.slot].ino))
    ensures LaidOver(old(Contents(d.sectors, table[fd.slot].ino)), Contents(d.sectors, table[fd.slot].ino), old(fd.pos), data)
  {
    ghost var was, ino, pos := d.sectors, table[fd.slot].ino, fd.pos;
    MovedWithinLimit(fd.pos, |data|, Capacity(table[fd.slot].ino));
    n := DoWrite(d, sb, table, fd, data);
    assert data[..n] == data;
    PatchLaysOver(was, d.sectors, sb.Inode0() + 256, ino, table[fd.slot].ino, pos, data);
  }

  /** A read within the size gives the file's bytes from the position on, moves the position behind
      them and leaves the file as it was. */
  method ReadWithin(d: Disk, sb: SuperBlock, table: array<Slot>, fd: FileDesc, len: nat) returns (got: seq<byte>)
    requires CanTransfer(d, sb, table[..], fd) && fd.rdwr && fd.pos + len <= table[fd.slot].ino.size
    modifies d, table, fd
    ensures fd.pos == old(fd.pos) + len && CanTransfer(d, sb, table[..], fd)
    ensures got == old(Contents(d.sectors, table[fd.slot].ino))[old(fd.pos)..old(fd.pos) + len]
    ensures table[fd.slot].ino == old(table[fd.slot].ino)
    ensures Contents(d.sectors, table[fd.slot].ino) == old(Contents(d.sectors, table[fd.slot].ino))
  {
    ghost var was, p, pos := d.sectors, table[fd.slot], fd.pos;
    MovedWithinLimit(fd.pos, len, table[fd.slot].ino.size);
    var n;
    n, got := DoRead(d, sb, table, fd, len);
    GotIs(was, p.ino, pos, len, got);
    OnlyInodeKeepsBytes(was, d.sectors, sb, p.num, p.ino, table[fd.slot].ino);
  }

  /** A read that reaches past the size makes the file longer, up to where it stops. */
  method ReadBeyond(d: Disk, sb: SuperBlock, table: array<Slot>, fd: FileDesc, len: nat) returns (n: int, got: seq<byte>)
    requires CanTransfer(d, sb, table[..], fd) && fd.rdwr && fd.pos + len > table[fd.slot].ino.size
    modifies d, table, fd
    ensures fd.pos == old(fd.pos) + n && n <= len && |got| == n && table[fd.slot].ino.size == fd.pos > old(table[fd.slot].ino.size)
  {
    MovedWithinLimit(fd.pos, len, table[fd.slot].ino.size);
    n, got := DoRead(d, sb, table, fd, len);
  }

  lemma GotIs(sec: seq<Sector>, ino: Inode, pos: nat, len: nat, got: seq<byte>)
    requires Base(ino) + ino.size <= SECTOR_SIZE * |sec| && pos + len <= ino.size && |got| == len && Copied(sec, Base(ino) + pos, got)
    ensures got == Contents(sec, ino)[pos..pos + len]
  {
    forall k | 0 <= k < len ensures got[k] == Contents(sec, ino)[pos + k] {
      var a: nat := Base(ino) + pos + k;
      assert ByteAt(sec, a) == got[a - (Base(ino) + pos)];
    }
  }

  // ---------------------------------------------------------------------------------------
  // Seeks

  /** SEEK_CUR by 0 tells the position, SEEK_END by 0 the size. */
  method Tell(table: array<Slot>, fd: FileDesc) returns (pos: int, size: int)
    requires fd.slot < table.Length && fd.pos <= table[fd.slot].ino.size
    modifies fd
    ensures pos == old(fd.pos) && size == table[fd.slot].ino.size == fd.pos
  {
    pos := DoLseek(table, fd, 0, SeekCur);
    size := DoLseek(table, fd, 0, SeekEnd);
  }

  /** SEEK_SET to p and then SEEK_CUR by k lands where SEEK_SET to p + k does, or fails when that fails
      and leaves the position at p. */
  method SetThenMove(table: array<Slot>, fd: FileDesc, p: nat, k: int) returns (r: int, s: int)
    requires fd.slot < table.Length && p <= table[fd.slot].ino.size
    modifies fd
    ensures r == s && fd.pos == if 0 <= p + k <= table[fd.slot].ino.size then r else p
  {
    r := DoLseek(table, fd, p, SeekSet);
    r := DoLseek(table, fd, k, SeekCur);
    s := DoLseek(table, fd, p + k, SeekSet);
  }

  /** What was written is read after a step back by its length. */
  method WriteStepBackRead(d: Disk, sb: SuperBlock, table: array<Slot>, fd: FileDesc, data: seq<byte>) returns (got: seq<byte>)
    requires CanTransfer(d, sb, table[..], fd) && fd.rdwr && fd.pos + |data| <= Capacity(table[fd.slot].ino)
    modifies d, table, fd
    ensures got == data && fd.pos == old(fd.pos) + |data|
  {
    var n := WriteWithin(d, sb, table, fd, data);
    var r := DoLseek(table, fd, -|data|, SeekCur);
    got := ReadWithin(d, sb, table, fd, |data|);
  }

  /** A write after SEEK_END appends: all earlier bytes stay, the data follows them. */
  method Append(d: Disk, sb: SuperBlock, table: array<Slot>, fd: FileDesc, data: seq<byte>) returns (n: int)
    requires CanTransfer(d, sb, table[..], fd) && fd.rdwr && table[fd.slot].ino.size + |data| <= Capacity(table[fd.slot].ino)
    modifies d, table, fd
    ensures n == |data| && CanTransfer(d, sb, table[..], fd)
    ensures Contents(d.sectors, table[fd.slot].ino) == old(Contents(d.sectors, table[fd.slot].ino)) + data
  {
    ghost var c := Contents(d.sectors, table[fd.slot].ino);
    var r := DoLseek(table, fd, 0, SeekEnd);
    n := WriteWithin(d, sb, table, fd, data);
    Appended(c, Contents(d.sectors, table[fd.slot].ino), data);
  }

  lemma Appended(c: seq<byte>, c': seq<byte>, data: seq<byte>)
    requires LaidOver(c, c', |c|, data)
    ensures c' == c + data
  {
    assert c' == c'[..|c|] + c'[|c|..];
  }
}
