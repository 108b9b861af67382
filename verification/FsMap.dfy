/** The sector map and the inode map: bits stored eight to a byte over consecutive sectors.
    Allocation looks for one clear bit and sets a run of bits from there; unlink clears a run in
    three phases (kernel/fs.c:1073-1191, kernel/fs.c:1546-1611). */
module FsMap {
  import opened Basics
  import opened FsDisk

  predicate SectBit(buf: Sector, n: nat)
    requires n < BITS_PER_SECT
  {
    TestBit(buf[n / 8], n % 8)
  }

  /** Bit n of the map that starts at sector m0. */
  predicate MapBit(sec: seq<Sector>, m0: nat, n: nat)
    requires m0 + n / BITS_PER_SECT < |sec|
  {
    SectBit(sec[m0 + n / BITS_PER_SECT], n % BITS_PER_SECT)
  }

  /** The map of k sectors from m0 lies on the disk. */
  ghost predicate HasMap(sec: seq<Sector>, m0: nat, k: nat) { m0 + k <= |sec| }

  /** Bits lo up to hi of the map were set, no other bit of it changed. */
  ghost predicate RangeSet(sec: seq<Sector>, sec': seq<Sector>, m0: nat, k: nat, lo: int, hi: int)
    requires HasMap(sec, m0, k) && |sec'| == |sec|
  {
    forall n :: 0 <= n < k * BITS_PER_SECT ==> (MapBit(sec', m0, n) <==> MapBit(sec, m0, n) || lo <= n < hi)
  }

  /** Bits lo up to hi of the map were cleared, no other bit of it changed. */
  ghost predicate RangeCleared(sec: seq<Sector>, sec': seq<Sector>, m0: nat, k: nat, lo: int, hi: int)
    requires HasMap(sec, m0, k) && |sec'| == |sec|
  {
    forall n :: 0 <= n < k * BITS_PER_SECT ==> (MapBit(sec', m0, n) <==> MapBit(sec, m0, n) && !(lo <= n < hi))
  }

  /** n is the first clear bit among the first k * 4096 bits of the map. */
  ghost predicate FirstClear(sec: seq<Sector>, m0: nat, k: nat, n: nat)
    requires HasMap(sec, m0, k)
  {
    n < k * BITS_PER_SECT && !MapBit(sec, m0, n) && forall i :: 0 <= i < n ==> MapBit(sec, m0, i)
  }

  // ---------------------------------------------------------------------------------------
  // One byte

  /** The scan for the first clear bit of a byte that is not 0xFF. */
  method LowestClear(b: byte) returns (k: nat)
    requires b != 255
    ensures k < 8 && !TestBit(b, k) && forall m :: 0 <= m < k ==> TestBit(b, m)
  {
    FullByte(b);
    k := 0;
    while TestBit(b, k)
      invariant k < 8 && forall m :: 0 <= m < k ==> TestBit(b, m)
      decreases 8 - k
    {
      assert exists m :: k < m < 8 && !TestBit(b, m);
      k := k + 1;
    }
  }

  /** Sets up to left bits of a byte from bit from on. */
  method FillByte(b: byte, from: nat, left: nat) returns (r: byte, rest: nat)
    requires from < 8 && left > 0
    ensures rest == if left >= 8 - from then left - (8 - from) else 0
    ensures forall m :: 0 <= m < 8 ==> (TestBit(r, m) <==> TestBit(b, m) || from <= m < from + left)
  {
    var k := from;
    r, rest := b, left;
    while k < 8
      invariant from <= k <= 8 && rest == left - (k - from) && rest > 0
      invariant forall m :: 0 <= m < 8 ==> (TestBit(r, m) <==> TestBit(b, m) || from <= m < k)
    {
      ByteRange(r, k);
      forall m | 0 <= m < 8 ensures TestBit(SetBit(r, k), m) <==> m == k || TestBit(r, m) { SetBitAt(r, k, m); }
      r := SetBit(r, k);
      rest := rest - 1;
      k := k + 1;
      if rest == 0 { break; }
    }
  }

  /** Clears up to left bits of a byte from bit from on: the first phase of unlink. */
  method EraseByte(b: byte, from: nat, left: nat) returns (r: byte, rest: nat)
    requires from < 8
    ensures rest == if left >= 8 - from then left - (8 - from) else 0
    ensures forall m :: 0 <= m < 8 ==> (TestBit(r, m) <==> TestBit(b, m) && !(from <= m < from + left))
    ensures left == 0 ==> r == b
  {
    var i := from;
    r, rest := b, left;
    while i < 8 && rest > 0
      invariant from <= i <= 8 && rest == left - (i - from)
      invariant left == 0 ==> r == b
      invariant forall m :: 0 <= m < 8 ==> (TestBit(r, m) <==> TestBit(b, m) && !(from <= m < i))
    {
      ByteRange(r, i);
      forall m | 0 <= m < 8 ensures TestBit(ClearBit(r, i), m) <==> m != i && TestBit(r, m) { ClearBitAt(r, i, m); }
      r := ClearBit(r, i);
      i := i + 1;
      rest := rest - 1;
    }
  }

  /** Two sectors that differ in byte j only. */
  lemma ByteUpdate(buf: Sector, j: nat, b: byte, n: nat)
    requires j < SECTOR_SIZE && n < BITS_PER_SECT
    ensures SectBit(buf[j := b], n) <==> if n / 8 == j then TestBit(b, n % 8) else SectBit(buf, n)
  {}

  // ---------------------------------------------------------------------------------------
  // Allocating a run of sectors (kernel/fs.c:1136-1191)

  /** Bits lo up to hi of one sector were set, no other. */
  ghost predicate SectSet(buf: Sector, buf': Sector, lo: int, hi: int) {
    forall n :: 0 <= n < BITS_PER_SECT ==> (SectBit(buf', n) <==> SectBit(buf, n) || lo <= n < hi)
  }

  ghost predicate SectAllSet(buf: Sector, n: nat)
    requires n <= BITS_PER_SECT
  {
    forall m :: 0 <= m < n ==> SectBit(buf, m)
  }

  lemma FullByteInSector(buf: Sector, j: nat, k: nat)
    requires j < SECTOR_SIZE && k <= 8 && SectAllSet(buf, 8 * j)
    requires forall m :: 0 <= m < k ==> TestBit(buf[j], m)
    ensures SectAllSet(buf, 8 * j + k)
  {
  }

  /** Writing byte j so that its bits from k on, up to bit hi of the sector, are set. */
  lemma FilledByte(buf0: Sector, buf: Sector, j: nat, k: nat, b: byte, lo: nat, hi: nat)
    requires j < SECTOR_SIZE && k < 8 && lo <= 8 * j + k < hi
    requires SectSet(buf0, buf, lo, 8 * j + k)
    requires k > 0 ==> lo == 8 * j + k
    requires forall m :: 0 <= m < 8 ==> (TestBit(b, m) <==> TestBit(buf[j], m) || k <= m < hi - 8 * j)
    ensures SectSet(buf0, buf[j := b], lo, if hi < 8 * (j + 1) then hi else 8 * (j + 1))
  {
    var top := if hi < 8 * (j + 1) then hi else 8 * (j + 1);
    var buf': Sector := buf[j := b];
    forall n | 0 <= n < BITS_PER_SECT
      ensures SectBit(buf', n) <==> SectBit(buf0, n) || lo <= n < top
    {
      ByteUpdate(buf, j, b, n);
      assert SectBit(buf, n) <==> SectBit(buf0, n) || lo <= n < 8 * j + k;
      if n / 8 == j {
        assert n == 8 * j + n % 8;
        assert TestBit(b, n % 8) <==> TestBit(buf[j], n % 8) || k <= n % 8 < hi - 8 * j;
      }
    }
  }

  function Beyond(end: int): nat { if end > BITS_PER_SECT then end - BITS_PER_SECT else 0 }

  /** What scanning sector i of the map does: with a start already found its first bits are set;
      otherwise its first clear bit, if any, becomes the start and the bits from there are set. */
  ghost predicate Scanned(buf0: Sector, buf: Sector, i: nat, n1st: nat, free0: nat, free: nat, left0: nat, left: nat) {
    if free0 != 0 then free == free0 && SectSet(buf0, buf, 0, left0) && left == Beyond(left0)
    else if free == 0 then SectAllSet(buf0, BITS_PER_SECT) && buf == buf0 && left == left0
    else
      var c := free + 1 - n1st - BITS_PER_SECT * i;
      && 0 <= c < BITS_PER_SECT && !SectBit(buf0, c) && SectAllSet(buf0, c)
      && SectSet(buf0, buf, c, c + left0) && left == Beyond(c + left0)
  }

  /** The inner loop over one sector of the map. With no start found yet it looks for a clear
      bit; from the start on it sets bits until enough are set or the sector ends. */
  method ScanSector(buf0: Sector, i: nat, n1st: nat, free0: nat, left0: nat)
    returns (buf: Sector, free: nat, left: nat)
    requires left0 > 0 && n1st >= 2
    ensures Scanned(buf0, buf, i, n1st, free0, free, left0, left)
  {
    buf, free, left := buf0, free0, left0;
    var j := 0;
    ghost var c: nat := 0;
    while j < SECTOR_SIZE && left > 0
      invariant j <= SECTOR_SIZE
      invariant free == 0 ==> free0 == 0 && left == left0 && buf == buf0 && SectAllSet(buf0, 8 * j)
      invariant free != 0 && free0 != 0 ==> c == 0 && free == free0
      invariant free != 0 && free0 == 0 ==>
                  && c < BITS_PER_SECT && free == BITS_PER_SECT * i + c - 1 + n1st
                  && !SectBit(buf0, c) && SectAllSet(buf0, c)
      invariant free != 0 ==>
                  && c <= 8 * j && SectSet(buf0, buf, c, if left == 0 then c + left0 else 8 * j)
                  && (if left == 0 then c + left0 <= 8 * j else left == c + left0 - 8 * j)
    {
      var k := 0;
      if free == 0 {
        if buf[j] == 255 {
          FullByte(buf[j]);
          FullByteInSector(buf, j, 8);
          j := j + 1;
          continue;
        }
        k := LowestClear(buf[j]);
        FullByteInSector(buf, j, k);
        free := (i * SECTOR_SIZE + j) * 8 + k - 1 + n1st;
        c := 8 * j + k;
        assert c / 8 == j && c % 8 == k;
      }
      var b, rest := FillByte(buf[j], k, left);
      FilledByte(buf0, buf, j, k, b, c, c + left0);
      buf, left := buf[j := b], rest;
      j := j + 1;
    }
  }

  lemma SetInSector(old_: seq<Sector>, sec: seq<Sector>, m0: nat, k: nat, i: nat, buf: Sector, f: nat, g: nat, h: nat)
    requires |sec| == |old_| && HasMap(sec, m0, k) && i < k
    requires RangeSet(old_, sec, m0, k, f, g) && sec[m0 + i] == old_[m0 + i]
    requires BITS_PER_SECT * i <= g <= h <= BITS_PER_SECT * (i + 1) && f <= g
    requires f == g || g == BITS_PER_SECT * i
    requires SectSet(old_[m0 + i], buf, g - BITS_PER_SECT * i, h - BITS_PER_SECT * i)
    ensures RangeSet(old_, sec[m0 + i := buf], m0, k, f, h)
  {
    var sec' := sec[m0 + i := buf];
    forall n | 0 <= n < k * BITS_PER_SECT
      ensures MapBit(sec', m0, n) <==> MapBit(old_, m0, n) || f <= n < h
    {
      var q, r := n / BITS_PER_SECT, n % BITS_PER_SECT;
      assert n == BITS_PER_SECT * q + r;
      assert MapBit(sec, m0, n) <==> MapBit(old_, m0, n) || f <= n < g;
      if q == i {
        assert SectBit(buf, r) <==>
               SectBit(old_[m0 + i], r) || g - BITS_PER_SECT * i <= r < h - BITS_PER_SECT * i;
      } else {
        assert sec'[m0 + q] == sec[m0 + q];
      }
    }
  }

  /** A start of 0 means that every bit was set and nothing was written. Any other start stands
      for the first clear bit; the count bits from there, as far as the map reaches, are set
      now, and no other bit has changed. */
  ghost predicate SmapAllocated(was: seq<Sector>, sec: seq<Sector>, m0: nat, k: nat, n1st: nat, count: nat, free: nat)
    requires HasMap(was, m0, k) && |sec| == |was|
  {
    if free == 0 then sec == was && forall n :: 0 <= n < k * BITS_PER_SECT ==> MapBit(was, m0, n)
    else
      var f := free + 1 - n1st;
      && f >= 0 && FirstClear(was, m0, k, f)
      && RangeSet(was, sec, m0, k, f, f + count)
  }

  /** alloc_smap_bit: finds the first clear bit of the sector map, sets count bits from there
      without looking at them (as far as the map reaches) and returns the sector the first one
      stands for, or 0 when every bit is set. */
  method AllocSmapBit(d: Disk, sb: SuperBlock, count: nat) returns (free: nat)
    requires HasMap(d.sectors, sb.Smap0(), sb.nrSmapSects) && sb.n1stSect >= 2 && count > 0
    modifies d
    ensures SameOutside(old(d.sectors), d.sectors, sb.Smap0(), sb.Inode0())
    ensures SmapAllocated(old(d.sectors), d.sectors, sb.Smap0(), sb.nrSmapSects, sb.n1stSect, count, free)
  {
    ghost var was := d.sectors;
    var m0 := sb.Smap0();
    free := 0;
    var left := count;
    var i := 0;
    while i < sb.nrSmapSects && left > 0
      invariant i <= sb.nrSmapSects && HasMap(was, m0, sb.nrSmapSects)
      invariant SameOutside(was, d.sectors, m0, m0 + i)
      invariant Progress(was, d.sectors, m0, sb.nrSmapSects, sb.n1stSect, count, i, free, left)
    {
      free, left := AllocInSector(d, was, m0, sb.nrSmapSects, sb.n1stSect, count, i, free, left);
      i := i + 1;
    }
    ProgressDone(was, d.sectors, m0, sb.nrSmapSects, sb.n1stSect, count, i, free, left);
  }

  /** One round of the outer loop: read, scan and, once a start is known, write back. */
  method AllocInSector(d: Disk, ghost was: seq<Sector>, m0: nat, ghost k: nat, n1st: nat, ghost count: nat,
                       i: nat, free: nat, left: nat)
    returns (free': nat, left': nat)
    requires HasMap(was, m0, k) && i < k && left > 0 && n1st >= 2
    requires SameOutside(was, d.sectors, m0, m0 + i)
    requires Progress(was, d.sectors, m0, k, n1st, count, i, free, left)
    modifies d
    ensures SameOutside(was, d.sectors, m0, m0 + i + 1)
    ensures Progress(was, d.sectors, m0, k, n1st, count, i + 1, free', left')
  {
    var buf := d.RdSect(m0 + i);
    var buf';
    buf', free', left' := ScanSector(buf, i, n1st, free, left);
    ScanProgress(was, d.sectors, m0, k, n1st, count, i, free, left, buf', free', left');
    if free' != 0 {
      d.WrSect(m0 + i, buf');
    }
  }

  lemma ProgressDone(was: seq<Sector>, sec: seq<Sector>, m0: nat, k: nat, n1st: nat, count: nat,
                     i: nat, free: nat, left: nat)
    requires HasMap(was, m0, k) && |sec| == |was| && i <= k && (i == k || left == 0) && count > 0
    requires Progress(was, sec, m0, k, n1st, count, i, free, left)
    ensures SmapAllocated(was, sec, m0, k, n1st, count, free)
  {
  }

  /** The first i sectors of the map are dealt with. */
  ghost predicate Progress(was: seq<Sector>, sec: seq<Sector>, m0: nat, k: nat, n1st: nat, count: nat,
                           i: nat, free: nat, left: nat)
    requires HasMap(was, m0, k) && |sec| == |was| && i <= k
  {
    if free == 0 then
      sec == was && left == count && forall n :: 0 <= n < BITS_PER_SECT * i ==> MapBit(was, m0, n)
    else
      var f := free + 1 - n1st;
      && 0 <= f < BITS_PER_SECT * i && FirstClear(was, m0, k, f)
      && RangeSet(was, sec, m0, k, f, if left == 0 then f + count else BITS_PER_SECT * i)
      && (if left == 0 then f + count <= BITS_PER_SECT * i else left == f + count - BITS_PER_SECT * i)
  }

  lemma ScanProgress(was: seq<Sector>, sec: seq<Sector>, m0: nat, k: nat, n1st: nat, count: nat,
                     i: nat, free: nat, left: nat, buf: Sector, free': nat, left': nat)
    requires HasMap(was, m0, k) && |sec| == |was| && i < k && left > 0
    requires Progress(was, sec, m0, k, n1st, count, i, free, left)
    requires sec[m0 + i] == was[m0 + i]
    requires Scanned(was[m0 + i], buf, i, n1st, free, free', left, left')
    ensures Progress(was, if free' != 0 then sec[m0 + i := buf] else sec, m0, k, n1st, count, i + 1, free', left')
  {
    if free' == 0 {
      AllSetSoFar(was, m0, i);
    } else {
      var f: int, g := free' + 1 - n1st, BITS_PER_SECT * i;
      if free == 0 {
        StartFound(was, m0, k, i, f);
        g := f;
      }
      var h := if left' == 0 then f + count else BITS_PER_SECT * (i + 1);
      SectSetShorter(was[m0 + i], buf, g - BITS_PER_SECT * i, g - BITS_PER_SECT * i + left, h - BITS_PER_SECT * i);
      SetInSector(was, sec, m0, k, i, buf, f, g, h);
    }
  }

  lemma SectSetShorter(buf: Sector, buf': Sector, lo: int, hi: int, h: int)
    requires SectSet(buf, buf', lo, hi) && (h == hi || (h == BITS_PER_SECT && hi >= h))
    ensures SectSet(buf, buf', lo, h)
  {}

  lemma StartFound(sec: seq<Sector>, m0: nat, k: nat, i: nat, f: nat)
    requires HasMap(sec, m0, k) && i < k && BITS_PER_SECT * i <= f < BITS_PER_SECT * (i + 1)
    requires forall n :: 0 <= n < BITS_PER_SECT * i ==> MapBit(sec, m0, n)
    requires SectAllSet(sec[m0 + i], f - BITS_PER_SECT * i) && !SectBit(sec[m0 + i], f - BITS_PER_SECT * i)
    ensures FirstClear(sec, m0, k, f)
  {
  }

  lemma AllSetSoFar(sec: seq<Sector>, m0: nat, i: nat)
    requires m0 + i < |sec| && SectAllSet(sec[m0 + i], BITS_PER_SECT)
    requires forall n :: 0 <= n < BITS_PER_SECT * i ==> MapBit(sec, m0, n)
    ensures forall n :: 0 <= n < BITS_PER_SECT * (i + 1) ==> MapBit(sec, m0, n)
  {
  }

  // ---------------------------------------------------------------------------------------
  // Clearing a run of bits (kernel/fs.c:1571-1611)

  /** Integer division of C, which truncates towards zero. */
  function CDiv8(a: int): int { if a >= 0 then a / 8 else -(-a / 8) }

  /** Clearing bits h up to h' in one byte extends the cleared range. */
  lemma ClearedByte(was: seq<Sector>, sec: seq<Sector>, m0: nat, k: nat, s: nat, i: nat, b: byte, lo: nat, h: nat, h': nat)
    requires HasMap(was, m0, k) && |sec| == |was| && m0 <= s < |sec| && i < SECTOR_SIZE
    requires RangeCleared(was, sec, m0, k, lo, h) && lo <= h <= h'
    requires var q := 8 * ((s - m0) * SECTOR_SIZE + i);
             && (h == h' || (q <= h && h' <= q + 8))
             && forall m :: 0 <= m < 8 ==> (TestBit(b, m) <==> TestBit(sec[s][i], m) && !(h <= q + m < h'))
    ensures RangeCleared(was, sec[s := sec[s][i := b]], m0, k, lo, h')
  {
  }

  /** Writes the buffer back and reads the next sector when the sector is used up. */
  method NextSectorIfUsedUp(d: Disk, s: nat, buf: Sector, i: nat) returns (s': nat, buf': Sector, i': nat)
    requires s < |d.sectors| && i <= SECTOR_SIZE && (i == SECTOR_SIZE ==> s + 1 < |d.sectors|)
    modifies d
    ensures |d.sectors| == old(|d.sectors|) && s' < |d.sectors| && i' < SECTOR_SIZE
    ensures s' == (if i == SECTOR_SIZE then s + 1 else s) && i' == (if i == SECTOR_SIZE then 0 else i)
    ensures d.sectors[s' := buf'] == old(d.sectors)[s := buf]
  {
    s', buf', i' := s, buf, i;
    if i == SECTOR_SIZE {
      i' := 0;
      d.WrSect(s, buf);
      s' := s + 1;
      buf' := d.RdSect(s');
    }
  }

  /** The state between two steps of the clear: the buffer holds sector s, bits lo up to h are
      cleared, and byte i of the buffer is the next one. */
  ghost predicate ClearState(was: seq<Sector>, sec: seq<Sector>, m0: nat, k: nat, lo: nat, h: nat,
                             s: nat, buf: Sector, i: nat, q: nat)
  {
    && HasMap(was, m0, k) && |sec| == |was| && m0 + k < |sec| && m0 <= s < |sec| && i <= SECTOR_SIZE
    && q == (s - m0) * SECTOR_SIZE + i
    && RangeCleared(was, sec[s := buf], m0, k, lo, h)
    && SameOutside(was, sec[s := buf], m0, m0 + k)
  }

  /** Clears bits h up to h' of the next byte of the buffer. */
  method ClearInByte(d: Disk, ghost was: seq<Sector>, m0: nat, ghost k: nat, ghost lo: nat, ghost h: nat, ghost h': nat,
                     s: nat, buf: Sector, i: nat, ghost q: nat, b: byte)
    returns (buf': Sector)
    requires ClearState(was, d.sectors, m0, k, lo, h, s, buf, i, q) && i < SECTOR_SIZE
    requires lo <= h <= h' && (h == h' || (8 * q <= h && h' <= 8 * q + 8)) && (h < h' ==> q < k * SECTOR_SIZE)
    requires h == h' ==> b == buf[i]
    requires forall m :: 0 <= m < 8 ==> (TestBit(b, m) <==> TestBit(buf[i], m) && !(h <= 8 * q + m < h'))
    ensures ClearState(was, d.sectors, m0, k, lo, h', s, buf', i + 1, q + 1)
  {
    buf' := buf[i := b];
    ghost var cur := d.sectors[s := buf];
    ClearedByte(was, cur, m0, k, s, i, b, lo, h, h');
    assert d.sectors[s := buf'] == cur[s := cur[s][i := b]];
    if h == h' { assert buf' == buf; }
  }

  lemma ClearLowByte(b: byte, left: nat)
    requires left < 8
    ensures ClearLow(b, left) < 256
    ensures forall m :: 0 <= m < 8 ==> (TestBit(ClearLow(b, left), m) <==> TestBit(b, m) && !(m < left))
    ensures left == 0 ==> ClearLow(b, left) == b
  {
    ByteRange(b, left);
    forall m | 0 <= m < 8 ensures TestBit(ClearLow(b, left), m) <==> TestBit(b, m) && !(m < left) { ClearLowAt(b, left, m); }
  }

  lemma {:induction false} ZeroBits(m: nat)
    ensures !TestBit(0, m)
  {
    if m > 0 { ZeroBits(m - 1); }
  }

  /** The second phase: cnt whole bytes, reading on as sectors are used up. */
  method ClearWholeBytes(d: Disk, ghost was: seq<Sector>, m0: nat, ghost kk: nat, ghost lo: nat, ghost h: nat,
                         s0: nat, buf0: Sector, i0: nat, ghost q: nat, cnt: nat)
    returns (s: nat, buf: Sector, i: nat)
    requires ClearState(was, d.sectors, m0, kk, lo, h, s0, buf0, i0, q)
    requires lo <= h == 8 * q && h + 8 * cnt <= kk * BITS_PER_SECT
    modifies d
    ensures ClearState(was, d.sectors, m0, kk, lo, h + 8 * cnt, s, buf, i, q + cnt)
  {
    s, buf, i := s0, buf0, i0;
    var k := 0;
    while k < cnt
      invariant k <= cnt
      invariant ClearState(was, d.sectors, m0, kk, lo, h + 8 * k, s, buf, i, q + k)
    {
      s, buf, i := NextSectorIfUsedUp(d, s, buf, i);
      ZeroByte();
      buf := ClearInByte(d, was, m0, kk, lo, h + 8 * k, h + 8 * k + 8, s, buf, i, q + k, 0);
      k, i := k + 1, i + 1;
    }
  }

  /** The first phase: the bits of the byte that holds bit start. */
  method ClearFirst(d: Disk, m0: nat, ghost k: nat, start: nat, count: nat) returns (s: nat, buf: Sector, i: nat, left: nat)
    requires HasMap(d.sectors, m0, k) && m0 + k < |d.sectors| && start < k * BITS_PER_SECT && start + count <= k * BITS_PER_SECT
    ensures left == if count >= 8 - start % 8 then count - (8 - start % 8) else 0
    ensures ClearState(d.sectors, d.sectors, m0, k, start, start + count - left, s, buf, i, start / 8 + 1)
  {
    var byteIdx := start / 8;
    s := m0 + byteIdx / SECTOR_SIZE;
    buf := d.RdSect(s);
    assert d.sectors[s := buf] == d.sectors;
    i := byteIdx % SECTOR_SIZE;
    var b: byte;
    b, left := EraseByte(buf[i], start % 8, count);
    FirstByte(buf[i], b, start, count, count - left);
    buf := ClearInByte(d, d.sectors, m0, k, start, start, start + count - left, s, buf, i, byteIdx, b);
    i := i + 1;
  }

  /** The last phase: the low bits of one more byte, and the buffer goes back. */
  method ClearLast(d: Disk, ghost was: seq<Sector>, m0: nat, ghost k: nat, ghost lo: nat, ghost h: nat, ghost h': nat,
                   s0: nat, buf0: Sector, i0: nat, ghost q: nat, left: nat)
    requires ClearState(was, d.sectors, m0, k, lo, h, s0, buf0, i0, q) && left < 8 && h' == h + left && lo <= h
    requires h' <= k * BITS_PER_SECT && (left > 0 ==> h == 8 * q) && q <= k * SECTOR_SIZE
    modifies d
    ensures HasMap(was, m0, k) && |d.sectors| == |was| && RangeCleared(was, d.sectors, m0, k, lo, h') && SameOutside(was, d.sectors, m0, m0 + k)
  {
    var s, buf, i := NextSectorIfUsedUp(d, s0, buf0, i0);
    ClearLowByte(buf[i], left);
    buf := ClearInByte(d, was, m0, k, lo, h, h', s, buf, i, q, ClearLow(buf[i], left));
    d.WrSect(s, buf);
  }

  /** The s-map part of do_unlink: clears exactly bits start up to start + count, for any start
      and count within the map, across any number of sectors. */
  method ClearSmapBits(d: Disk, sb: SuperBlock, start: nat, count: nat)
    requires sb.Smap0() + sb.nrSmapSects < |d.sectors|
    requires start < sb.MapBits() && start + count <= sb.MapBits()
    modifies d
    ensures SameOutside(old(d.sectors), d.sectors, sb.Smap0(), sb.Inode0())
    ensures RangeCleared(old(d.sectors), d.sectors, sb.Smap0(), sb.nrSmapSects, start, start + count)
  {
    ghost var was, k := d.sectors, sb.nrSmapSects;
    var m0 := sb.Smap0();
    var byteCnt := CDiv8(count - (8 - start % 8));
    var s, buf, i, left := ClearFirst(d, m0, k, start, count);
    ghost var q, done := start / 8 + 1, start + count - left;
    if byteCnt > 0 {
      s, buf, i := ClearWholeBytes(d, was, m0, k, start, done, s, buf, i, q, byteCnt);
      left := left - 8 * byteCnt;
      q, done := q + byteCnt, done + 8 * byteCnt;
    }
    ClearLast(d, was, m0, k, start, done, start + count, s, buf, i, q, left);
  }

  lemma ZeroByte()
    ensures forall m :: 0 <= m < 8 ==> !TestBit(0, m)
  {
    forall m | 0 <= m < 8 ensures !TestBit(0, m) { ZeroBits(m); }
  }

  lemma FirstByte(b0: byte, b: byte, start: nat, count: nat, first: nat)
    requires forall m :: 0 <= m < 8 ==> (TestBit(b, m) <==> TestBit(b0, m) && !(start % 8 <= m < start % 8 + count))
    requires first == if count >= 8 - start % 8 then 8 - start % 8 else count
    ensures forall m :: 0 <= m < 8 ==> (TestBit(b, m) <==> TestBit(b0, m) && !(start <= 8 * (start / 8) + m < start + first))
  {
  }

  // ---------------------------------------------------------------------------------------
  // The inode map (kernel/fs.c:1073-1123, kernel/fs.c:1546-1554)

  const IMAP0 := 2

  /** alloc_imap_bit: takes the first clear bit of the map, whose first sector is the only one
      the loop looks at. A full map gives 0, the number that mkfs reserves. */
  method AllocImapBit(d: Disk) returns (nr: nat)
    requires IMAP0 < |d.sectors|
    modifies d
    ensures SameOutside(old(d.sectors), d.sectors, IMAP0, IMAP0 + 1)
    ensures (forall n :: 0 <= n < BITS_PER_SECT ==> MapBit(old(d.sectors), IMAP0, n)) ==>
              nr == 0 && d.sectors == old(d.sectors)
    ensures !(forall n :: 0 <= n < BITS_PER_SECT ==> MapBit(old(d.sectors), IMAP0, n)) ==>
              && FirstClear(old(d.sectors), IMAP0, 1, nr)
              && RangeSet(old(d.sectors), d.sectors, IMAP0, 1, nr, nr + 1)
  {
    ghost var was := d.sectors;
    nr := 0;
    var buf := d.RdSect(IMAP0);
    ghost var buf0 := buf;
    var j := 0;
    while j < SECTOR_SIZE
      invariant j <= SECTOR_SIZE && d.sectors == was && nr == 0
      invariant SectAllSet(buf0, 8 * j)
    {
      if buf[j] != 255 {
        var k := LowestClear(buf[j]);
        FullByteInSector(buf0, j, k);
        nr := j * 8 + k;
        ByteRange(buf[j], k);
        forall m | 0 <= m < 8 ensures TestBit(SetBit(buf[j], k), m) <==> m == k || TestBit(buf[j], m) { SetBitAt(buf[j], k, m); }
        OneBitSet(was, j, k, SetBit(buf[j], k));
        buf := buf[j := SetBit(buf[j], k)];
        d.WrSect(IMAP0, buf);
        return;
      }
      FullByte(buf[j]);
      FullByteInSector(buf0, j, 8);
      j := j + 1;
    }
    AllSetSoFar(was, IMAP0, 0);
  }

  lemma OneBitSet(sec: seq<Sector>, j: nat, k: nat, b: byte)
    requires IMAP0 < |sec| && j < SECTOR_SIZE && k < 8 && !TestBit(sec[IMAP0][j], k) && SectAllSet(sec[IMAP0], 8 * j + k)
    requires forall m :: 0 <= m < 8 ==> (TestBit(b, m) <==> m == k || TestBit(sec[IMAP0][j], m))
    ensures FirstClear(sec, IMAP0, 1, 8 * j + k)
    ensures RangeSet(sec, sec[IMAP0 := sec[IMAP0][j := b]], IMAP0, 1, 8 * j + k, 8 * j + k + 1)
  {
  }

  /** The i-map part of do_unlink. */
  method ClearImapBit(d: Disk, nr: nat)
    requires IMAP0 < |d.sectors| && nr < BITS_PER_SECT
    modifies d
    ensures SameOutside(old(d.sectors), d.sectors, IMAP0, IMAP0 + 1)
    ensures RangeCleared(old(d.sectors), d.sectors, IMAP0, 1, nr, nr + 1)
  {
    ghost var was := d.sectors;
    var buf := d.RdSect(IMAP0);
    var j, k := nr / 8, nr % 8;
    ByteRange(buf[j], k);
    var b := ClearBit(buf[j], k);
    forall m | 0 <= m < 8 ensures TestBit(b, m) <==> m != k && TestBit(buf[j], m) { ClearBitAt(buf[j], k, m); }
    ClearedByte(was, was, IMAP0, 1, IMAP0, j, b, nr, nr, nr + 1);
    buf := buf[j := b];
    d.WrSect(IMAP0, buf);
  }

  // ---------------------------------------------------------------------------------------
  // Clearing undoes allocating

  /** Clearing the run that an allocation set restores the map, provided the run was clear. */
  lemma ClearUndoesAlloc(was: seq<Sector>, mid: seq<Sector>, now: seq<Sector>, m0: nat, k: nat, f: nat, count: nat)
    requires HasMap(was, m0, k) && |was| == |mid| == |now|
    requires RangeSet(was, mid, m0, k, f, f + count) && RangeCleared(mid, now, m0, k, f, f + count)
    ensures (forall n :: 0 <= n < k * BITS_PER_SECT ==> (MapBit(now, m0, n) <==> MapBit(was, m0, n))) <==>
            (forall n :: 0 <= n < k * BITS_PER_SECT && f <= n < f + count ==> !MapBit(was, m0, n))
  {
  }
}
