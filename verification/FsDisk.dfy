/** The disk as a sequence of 512-byte sectors, its layout, and bytes as bit fields
    (kernel/fs.c, include/fs_const.h, include/fs_misc.h). */
module FsDisk {
  import opened Basics

  const SECTOR_SIZE := 512
  const BITS_PER_SECT := 4096
  const NR_DEFAULT_FILE_SECTS := 2048
  const ROOT_INODE := 1

  type Sector = s: seq<byte> | |s| == SECTOR_SIZE witness seq(SECTOR_SIZE, _ => 0)

  /** The fields of the super block that the code uses. */
  datatype SuperBlock = SuperBlock(nrSects: nat, nrImapSects: nat, nrSmapSects: nat, nrInodeSects: nat, n1stSect: nat) {
    function Smap0(): nat { 2 + nrImapSects }
    function Inode0(): nat { 2 + nrImapSects + nrSmapSects }
    function MapBits(): nat { nrSmapSects * BITS_PER_SECT }
  }

  /** The super block mkfs writes for a partition of nrSects sectors (kernel/fs.c:155-179). */
  function MakeSuper(nrSects: nat): SuperBlock {
    var smap := nrSects / BITS_PER_SECT + 1;
    SuperBlock(nrSects, 1, smap, 256, 1 + 1 + 1 + smap + 256)
  }

  /** A super block written by mkfs, on a partition that holds at least the metadata and one
      default file. */
  predicate Formatted(sb: SuperBlock) {
    sb == MakeSuper(sb.nrSects) && sb.n1stSect + NR_DEFAULT_FILE_SECTS < sb.nrSects < 0x1_0000_0000
  }

  class Disk {
    var sectors: seq<Sector>

    constructor (nrSects: nat)
      ensures |sectors| == nrSects
    {
      sectors := seq(nrSects, _ => seq(SECTOR_SIZE, _ => 0));
    }

    method RdSect(n: nat) returns (buf: Sector)
      requires n < |sectors|
      ensures buf == sectors[n]
    {
      buf := sectors[n];
    }

    method WrSect(n: nat, buf: Sector)
      requires n < |sectors|
      modifies this
      ensures sectors == old(sectors)[n := buf]
    {
      sectors := sectors[n := buf];
    }
  }

  /** The two disks agree outside sectors lo up to hi. */
  ghost predicate SameOutside(a: seq<Sector>, b: seq<Sector>, lo: nat, hi: nat) {
    |a| == |b| && forall s :: 0 <= s < |a| && !(lo <= s < hi) ==> a[s] == b[s]
  }

  // ---------------------------------------------------------------------------------------
  // Bytes as bit fields

  /** (b >> k) & 1 */
  predicate TestBit(b: nat, k: nat) {
    if k == 0 then b % 2 == 1 else TestBit(b / 2, k - 1)
  }

  /** b | (1 << k) */
  function SetBit(b: nat, k: nat): nat {
    if k == 0 then b - b % 2 + 1 else b % 2 + 2 * SetBit(b / 2, k - 1)
  }

  /** b & ~(1 << k) */
  function ClearBit(b: nat, k: nat): nat {
    if k == 0 then b - b % 2 else b % 2 + 2 * ClearBit(b / 2, k - 1)
  }

  /** b & (~0 << k) */
  function ClearLow(b: nat, k: nat): nat {
    if k == 0 then b else 2 * ClearLow(b / 2, k - 1)
  }

  function Pow2(n: nat): (p: nat)
    ensures p >= 1
  {
    if n == 0 then 1 else 2 * Pow2(n - 1)
  }

  lemma {:induction false} SetBitAt(b: nat, k: nat, m: nat)
    ensures TestBit(SetBit(b, k), m) <==> m == k || TestBit(b, m)
  {
    if k > 0 && m > 0 { SetBitAt(b / 2, k - 1, m - 1); }
  }

  lemma {:induction false} ClearBitAt(b: nat, k: nat, m: nat)
    ensures TestBit(ClearBit(b, k), m) <==> m != k && TestBit(b, m)
  {
    if k > 0 && m > 0 { ClearBitAt(b / 2, k - 1, m - 1); }
  }

  lemma {:induction false} ClearLowAt(b: nat, k: nat, m: nat)
    ensures TestBit(ClearLow(b, k), m) <==> m >= k && TestBit(b, m)
  {
    if k > 0 && m > 0 { ClearLowAt(b / 2, k - 1, m - 1); }
  }

  /** Setting one of the low n bits of a value of n bits gives a value of n bits. */
  lemma {:induction false} SetBitRange(b: nat, k: nat, n: nat)
    requires b < Pow2(n) && k < n
    ensures SetBit(b, k) < Pow2(n)
  {
    assert Pow2(n) == 2 * Pow2(n - 1) && b == 2 * (b / 2) + b % 2 && b / 2 < Pow2(n - 1);
    if k > 0 { SetBitRange(b / 2, k - 1, n - 1); }
  }

  lemma {:induction false} ClearBitRange(b: nat, k: nat)
    ensures ClearBit(b, k) <= b
  {
    if k > 0 { ClearBitRange(b / 2, k - 1); }
  }

  lemma {:induction false} ClearLowRange(b: nat, k: nat)
    ensures ClearLow(b, k) <= b
  {
    if k > 0 { ClearLowRange(b / 2, k - 1); }
  }

  lemma {:induction false} OnesHaveBit(n: nat, k: nat)
    requires k < n
    ensures TestBit(Pow2(n) - 1, k)
  {
    assert (Pow2(n) - 1) / 2 == Pow2(n - 1) - 1;
    if k > 0 { OnesHaveBit(n - 1, k - 1); }
  }

  /** A value of n bits other than all ones has a clear bit. */
  lemma {:induction false} SomeClearBit(b: nat, n: nat) returns (k: nat)
    requires b < Pow2(n) - 1
    ensures k < n && !TestBit(b, k)
  {
    if b % 2 == 0 {
      k := 0;
    } else {
      k := SomeClearBit(b / 2, n - 1);
      k := k + 1;
    }
  }

  lemma ByteRange(b: byte, k: nat)
    requires k < 8
    ensures SetBit(b, k) < 256 && ClearBit(b, k) < 256 && ClearLow(b, k) < 256
  {
    EightBits();
    SetBitRange(b, k, 8);
    ClearBitRange(b, k);
    ClearLowRange(b, k);
  }

  lemma EightBits()
    ensures Pow2(8) == 256
  {
  }

  lemma FullByte(b: byte)
    ensures b == 255 <==> forall k :: 0 <= k < 8 ==> TestBit(b, k)
  {
    EightBits();
    if b < 255 {
      var k := SomeClearBit(b, 8);
    } else {
      forall k | 0 <= k < 8 ensures TestBit(b, k) { OnesHaveBit(8, k); }
    }
  }
}
