/** The memory manager of kernel/memman.c: an array of free extents shifted and merged in
    place, four first-fit allocators, each with its own address range, and the boot-time set-up. */
module MemMan {
  import opened Basics
  import opened FreeList

  const MEMSTART: u32 := 0x0040_0000
  const KWALL: u32 := 0x0060_0000
  const WALL: u32 := 0x0080_0000
  const UWALL: u32 := 0x0100_0000
  const MEMEND: u32 := 0x0200_0000

  // ---------------------------------------------------------------------------------------
  // Boot-time set-up as functions (kernel/memman.c:17-97)

  predicate Spans(x: Block, w: u32) { x.addr <= w < Wrap(x.End()) }

  /** The first extent from i on that holds the wall address, or the length of the list. */
  function SpanIndex(l: seq<Block>, w: u32, i: nat := 0): (r: nat)
    requires i <= |l|
    ensures i <= r <= |l|
    ensures forall k :: i <= k < r ==> !Spans(l[k], w)
    ensures r < |l| ==> Spans(l[r], w)
    decreases |l| - i
  {
    if i == |l| || Spans(l[i], w) then i else SpanIndex(l, w, i + 1)
  }

  /** The list after the split at wall w: the page below the wall is given up. */
  function SplitAt(l: seq<Block>, w: u32): seq<Block> {
    var i := SpanIndex(l, w);
    if i == |l| || l[i].addr == w then l
    else
      l[..i]
      + [Block(l[i].addr, Wrap(w - PAGE - l[i].addr)), Block(w, Wrap(l[i].End() - w))]
      + l[i + 1..]
  }

  /** A block opened behind the i-th, which is then cut. */
  lemma SplitIs(l: seq<Block>, w: u32, i: nat)
    requires i == SpanIndex(l, w) < |l| && l[i].addr != w
    ensures (l[..i + 1] + [Block(w, Wrap(l[i].End() - w))] + l[i + 1..])[i := Block(l[i].addr, Wrap(w - PAGE - l[i].addr))] == SplitAt(l, w)
  {
  }

  datatype Boot = Boot(blocks: seq<Block>, memstart: u32)

  /** One entry of the loader's report: the memory up to it is freed, its page is skipped. */
  function BootStep(s: Boot, entry: u32): Boot {
    if entry < s.memstart then s
    else Boot(FreeStep(s.blocks, Block(s.memstart, entry - s.memstart)), Wrap(entry + PAGE))
  }

  /** The list and the next start address after the first i entries of the loader's report. */
  function BootAfter(info: seq<u32>, i: nat): Boot
    requires i < |info|
  {
    if i == 0 then Boot([], MEMSTART) else BootStep(BootAfter(info, i - 1), info[i])
  }

  function SplitAll(l: seq<Block>): seq<Block> {
    SplitAt(SplitAt(SplitAt(l, KWALL), WALL), UWALL)
  }

  lemma FreedLength(l: seq<Block>, r: Block)
    ensures |FreeStep(l, r)| <= |l| + 1
  {}

  lemma {:induction false} BootLength(info: seq<u32>, i: nat)
    requires i < |info|
    ensures |BootAfter(info, i).blocks| <= i
  {
    if i > 0 {
      BootLength(info, i - 1);
      var s := BootAfter(info, i - 1);
      if info[i] >= s.memstart { FreedLength(s.blocks, Block(s.memstart, info[i] - s.memstart)); }
    }
  }

  // ---------------------------------------------------------------------------------------
  // One allocation

  /** Address a was returned and list m left behind by a first-fit allocation on list l. */
  predicate AllocSpec(l: seq<Block>, lo: u32, hi: u32, size: u32, a: u32, m: seq<Block>) {
    var i := FirstFit(l, lo, hi, size);
    if i == |l| then a == FAILED && m == l
    else a == l[i].addr && m == Taken(l, i, size)
  }

  /** What an allocation means: it fails only when no extent of the zone is large enough, and
      otherwise hands out free bytes of the zone, which are no longer free, from the extent that has
      the lowest address of all that are large enough. */
  ghost predicate HandedOut(l: seq<Block>, lo: u32, hi: u32, size: u32, a: u32, m: seq<Block>) {
    if a == FAILED
    then m == l && forall k :: 0 <= k < |l| ==> l[k].addr < lo || l[k].addr + size >= hi || l[k].size < size
    else
      && lo <= a && a + size < hi
      && Sorted(m) && (Normal(l) ==> Normal(m)) && IsDifference(m, l, Block(a, size))
      && (forall b :: Block(a, size).Has(b) ==> Covers(l, b))
      && forall k :: 0 <= k < |l| && lo <= l[k].addr < a ==> l[k].addr + size >= hi || l[k].size < size
  }

  lemma AllocMeaning(l: seq<Block>, lo: u32, hi: u32, size: u32, a: u32, m: seq<Block>)
    requires hi < FAILED && AllocSpec(l, lo, hi, size, a, m)
    ensures Sorted(l) ==> HandedOut(l, lo, hi, size, a, m)
  {
    var i := FirstFit(l, lo, hi, size);
    if Sorted(l) {
      if i < |l| {
        assert Fits(l[i], lo, hi, size);
        TakenIsDifference(l, i, size);
        forall k | 0 <= k < |l| && lo <= l[k].addr < a ensures l[k].addr + size >= hi || l[k].size < size {
          assert k < i && !Fits(l[k], lo, hi, size);
        }
      } else {
        assert forall k :: 0 <= k < |l| ==> !Fits(l[k], lo, hi, size);
      }
    }
  }

  // ---------------------------------------------------------------------------------------
  // The manager

  class Manager {
    var frees: nat
    var maxfrees: nat
    var lostsize: u32
    var losts: u32
    const free: array<Block>

    ghost predicate Valid()
      reads this
    {
      free.Length == MEMMAN_FREES && frees <= maxfrees <= MEMMAN_FREES
    }

    ghost function Blocks(): seq<Block>
      reads this, free
      requires Valid()
    {
      free[..frees]
    }

    constructor ()
      ensures Valid() && Blocks() == [] && maxfrees == 0 && lostsize == 0 && losts == 0
      ensures fresh(free)
    {
      free := new Block[MEMMAN_FREES](_ => Block(0, 0));
      frees, maxfrees, lostsize, losts := 0, 0, 0, 0;
    }

    /** Drops entry i and moves the later ones down. */
    method RemoveAt(at: nat)
      requires Valid() && at < frees
      modifies `frees, free
      ensures Valid()
      ensures Blocks() == old(Blocks())[..at] + old(Blocks())[at + 1..]
    {
      frees := frees - 1;
      var i := at;
      while i < frees
        modifies free
        invariant at <= i <= frees
        invariant forall k :: 0 <= k < at || i < k < free.Length ==> free[k] == old(free[k])
        invariant forall k :: at <= k < i ==> free[k] == old(free[k + 1])
      {
        free[i] := free[i + 1];
        i := i + 1;
      }
    }

    /** Moves the entries from i on up by one and counts the new entry. */
    method OpenAt(at: nat)
      requires Valid() && at <= frees < MEMMAN_FREES
      modifies `frees, `maxfrees, free
      ensures Valid()
      ensures frees == old(frees) + 1
      ensures maxfrees == if old(maxfrees) < frees then frees else old(maxfrees)
      ensures Blocks()[..at] == old(Blocks())[..at]
      ensures Blocks()[at + 1..] == old(Blocks())[at..]
    {
      var j := frees;
      while j > at
        modifies free
        invariant at <= j <= frees
        invariant forall k :: 0 <= k < j ==> free[k] == old(free[k])
        invariant forall k :: j < k <= frees ==> free[k] == old(free[k - 1])
      {
        free[j] := free[j - 1];
        j := j - 1;
      }
      frees := frees + 1;
      if maxfrees < frees { maxfrees := frees; }
    }

    method SetAt(i: nat, x: Block)
      requires Valid() && i < frees
      modifies free
      ensures Valid() && Blocks() == old(Blocks())[i := x]
    {
      free[i] := x;
    }

    method FindInsert(addr: u32) returns (i: nat)
      requires Valid()
      ensures i == InsertAt(Blocks(), addr)
    {
      i := 0;
      while i < frees && free[i].addr <= addr
        invariant i <= frees
        invariant InsertAt(Blocks(), addr, i) == InsertAt(Blocks(), addr)
      {
        i := i + 1;
      }
    }

    /** Grows the extent before i by the region, and by extent i when the region reaches it. */
    method MergeBefore(i: nat, addr: u32, size: u32)
      requires Valid() && size > 0 && i == InsertAt(Blocks(), addr) && TouchesBefore(Blocks(), Block(addr, size))
      modifies `frees, free
      ensures Valid() && frees <= old(frees) && Blocks() == Freed(old(Blocks()), Block(addr, size))
    {
      var grown := Wrap(free[i - 1].size + size);
      SetAt(i - 1, Block(free[i - 1].addr, grown));
      if i < frees && Wrap(addr + size) == free[i].addr {
        JoinWithNext(i - 1);
      }
    }

    /** Adds the size of the entry after i to entry i and drops it. */
    method JoinWithNext(i: nat)
      requires Valid() && i + 1 < frees
      modifies `frees, free
      ensures Valid() && frees <= old(frees)
      ensures var l := old(Blocks());
              Blocks() == l[..i] + [Block(l[i].addr, Wrap(l[i].size + l[i + 1].size))] + l[i + 2..]
    {
      ghost var l := Blocks();
      SetAt(i, Block(free[i].addr, Wrap(free[i].size + free[i + 1].size)));
      RemoveAt(i + 1);
    }

    /** memman_free: records the region, merging it with its neighbours, or counts it as lost. */
    method Free(addr: u32, size: u32) returns (r: u32)
      requires Valid()
      modifies this, free
      ensures Valid()
      ensures Blocks() == FreeStep(old(Blocks()), Block(addr, size))
      ensures if HasRoom(old(Blocks()), Block(addr, size))
              then r == 0 && losts == old(losts) && lostsize == old(lostsize)
              else r == FAILED && losts == Wrap(old(losts) + 1) && lostsize == Wrap(old(lostsize) + size)
      ensures maxfrees == if old(maxfrees) < frees then frees else old(maxfrees)
    {
      if size == 0 { return 0; }
      ghost var l := Blocks();
      var i := FindInsert(addr);
      if i > 0 && Wrap(free[i - 1].End()) == addr {
        MergeBefore(i, addr, size);
        return 0;
      }
      if i < frees && Wrap(addr + size) == free[i].addr {
        assert TouchesAfter(l, Block(addr, size)) && !TouchesBefore(l, Block(addr, size));
        SetAt(i, Block(addr, Wrap(free[i].size + size)));
        return 0;
      }
      assert !TouchesAfter(l, Block(addr, size)) && !TouchesBefore(l, Block(addr, size));
      if frees < MEMMAN_FREES {
        Insert(i, addr, size);
        return 0;
      }
      losts := Wrap(losts + 1);
      lostsize := Wrap(lostsize + size);
      return FAILED;
    }

    /** do_free, for a caller that returns memory it owns: unless the table is full and the
        region touches no free neighbour, its bytes and no others become free. */
    method DoFree(addr: u32, size: u32) returns (r: u32)
      requires Valid() && Releasable(Blocks(), Block(addr, size))
      modifies this, free
      ensures Valid() && Sorted(Blocks()) && (Normal(old(Blocks())) ==> Normal(Blocks()))
      ensures r == 0 ==> IsUnion(Blocks(), old(Blocks()), Block(addr, size)) && losts == old(losts)
      ensures r != 0 ==> Blocks() == old(Blocks()) && old(frees) == MEMMAN_FREES && losts == Wrap(old(losts) + 1)
    {
      ghost var l := Blocks();
      r := Free(addr, size);
      FreedIsUnion(l, Block(addr, size));
    }

    method Insert(i: nat, addr: u32, size: u32)
      requires Valid() && i <= frees < MEMMAN_FREES
      modifies `frees, `maxfrees, free
      ensures Valid()
      ensures Blocks() == old(Blocks())[..i] + [Block(addr, size)] + old(Blocks())[i..]
      ensures maxfrees == if old(maxfrees) < frees then frees else old(maxfrees)
    {
      ghost var l := Blocks();
      OpenAt(i);
      free[i] := Block(addr, size);
      assert Blocks() == Blocks()[..i] + [Block(addr, size)] + Blocks()[i + 1..];
      assert Blocks()[..i] == l[..i] && Blocks()[i + 1..] == l[i..];
    }

    /** The body shared by the four allocators: first fit among the extents that start at or
        above lo and whose cut ends below hi. */
    method AllocIn(lo: u32, hi: u32, size: u32) returns (a: u32)
      requires Valid()
      modifies `frees, free
      ensures Valid()
      ensures AllocSpec(old(Blocks()), lo, hi, size, a, Blocks())
    {
      ghost var l := Blocks();
      var i := 0;
      while i < frees
        invariant i <= frees && Blocks() == l
        invariant FirstFit(l, lo, hi, size, i) == FirstFit(l, lo, hi, size)
      {
        if free[i].addr >= lo && Wrap(free[i].addr + size) < hi && free[i].size >= size {
          a := free[i].addr;
          free[i] := Block(Wrap(a + size), free[i].size - size);
          assert Blocks() == l[i := free[i]];
          if free[i].size == 0 {
            RemoveAt(i);
            assert Blocks() == l[..i] + l[i + 1..];
          }
          return;
        }
        i := i + 1;
      }
      a := FAILED;
    }

    /** memman_alloc: memory between 8M and 16M. */
    method Alloc(size: u32) returns (a: u32)
      requires Valid()
      modifies `frees, free
      ensures Valid() && AllocSpec(old(Blocks()), WALL, UWALL, size, a, Blocks())
      ensures Sorted(old(Blocks())) ==> HandedOut(old(Blocks()), WALL, UWALL, size, a, Blocks())
    {
      a := AllocIn(WALL, UWALL, size);
      AllocMeaning(old(Blocks()), WALL, UWALL, size, a, Blocks());
    }

    /** memman_kalloc: memory between 6M and 8M. */
    method KAlloc(size: u32) returns (a: u32)
      requires Valid()
      modifies `frees, free
      ensures Valid() && AllocSpec(old(Blocks()), KWALL, WALL, size, a, Blocks())
      ensures Sorted(old(Blocks())) ==> HandedOut(old(Blocks()), KWALL, WALL, size, a, Blocks())
    {
      a := AllocIn(KWALL, WALL, size);
      AllocMeaning(old(Blocks()), KWALL, WALL, size, a, Blocks());
    }

    /** memman_alloc_4k: a page between 16M and 32M. */
    method Alloc4K() returns (a: u32)
      requires Valid()
      modifies `frees, free
      ensures Valid() && AllocSpec(old(Blocks()), UWALL, MEMEND, PAGE, a, Blocks())
      ensures Sorted(old(Blocks())) ==> HandedOut(old(Blocks()), UWALL, MEMEND, PAGE, a, Blocks())
    {
      a := AllocIn(UWALL, MEMEND, PAGE);
      AllocMeaning(old(Blocks()), UWALL, MEMEND, PAGE, a, Blocks());
    }

    /** memman_kalloc_4k: a page between 4M and 6M. */
    method KAlloc4K() returns (a: u32)
      requires Valid()
      modifies `frees, free
      ensures Valid() && AllocSpec(old(Blocks()), MEMSTART, KWALL, PAGE, a, Blocks())
      ensures Sorted(old(Blocks())) ==> HandedOut(old(Blocks()), MEMSTART, KWALL, PAGE, a, Blocks())
    {
      a := AllocIn(MEMSTART, KWALL, PAGE);
      AllocMeaning(old(Blocks()), MEMSTART, KWALL, PAGE, a, Blocks());
    }

    /** memman_total: the free bytes, modulo 2^32. */
    method FreeTotal() returns (t: u32)
      requires Valid()
      ensures t == Total(Blocks()) % TWO32
    {
      t := 0;
      for i := 0 to frees
        invariant t == Total(Blocks()[..i]) % TWO32
      {
        t := Wrap(t + free[i].size);
        assert Blocks()[..i + 1][..i] == Blocks()[..i];
      }
      assert Blocks()[..frees] == Blocks();
    }

    /** One of the three wall loops of init. */
    method SplitWall(w: u32)
      requires Valid() && frees < MEMMAN_FREES
      modifies `frees, `maxfrees, free
      ensures Valid() && frees <= old(frees) + 1
      ensures Blocks() == SplitAt(old(Blocks()), w)
    {
      ghost var l := Blocks();
      var i := 0;
      while i < frees
        modifies {}
        invariant i <= frees
        invariant SpanIndex(l, w, i) == SpanIndex(l, w)
      {
        if free[i].addr <= w && Wrap(free[i].End()) > w {
          break;
        }
        i := i + 1;
      }
      if i < frees && free[i].addr != w {
        SplitIs(l, w, i);
        Insert(i + 1, w, Wrap(free[i].End() - w));
        SetAt(i, Block(free[i].addr, Wrap(w - PAGE - free[i].addr)));
      }
    }

    method FreeBefore(memstart: u32, entry: u32) returns (next: u32)
      requires Valid() && frees < MEMMAN_FREES
      modifies this, free
      ensures Valid() && losts == old(losts) && lostsize == old(lostsize)
      ensures Boot(Blocks(), next) == BootStep(Boot(old(Blocks()), memstart), entry)
    {
      next := memstart;
      if entry >= memstart {
        var r := Free(memstart, entry - memstart);
        next := Wrap(entry + PAGE);
      }
    }

    /** init: frees the memory between the reported pages, then splits at the three walls.
        info is the loader's 256-word report, info[0] the number of its entries. */
    method Init(info: seq<u32>)
      requires Valid() && |info| == 256 && info[0] < 256
      modifies this, free
      ensures Valid()
      ensures Blocks() == SplitAll(BootAfter(info, info[0]).blocks)
      ensures losts == 0 && lostsize == 0
    {
      frees, maxfrees, lostsize, losts := 0, 0, 0, 0;
      var memstart := MEMSTART;
      var i := 1;
      while i <= info[0]
        invariant 1 <= i <= info[0] + 1
        invariant Valid() && losts == 0 && lostsize == 0
        invariant BootAfter(info, i - 1) == Boot(Blocks(), memstart)
      {
        BootLength(info, i - 1);
        memstart := FreeBefore(memstart, info[i]);
        i := i + 1;
      }
      BootLength(info, info[0]);
      SplitWall(KWALL);
      SplitWall(WALL);
      SplitWall(UWALL);
    }
  }
}
