/** The free list of the physical memory allocator (kernel/memman.c) as a sequence of
    extents, and what the list means: a set of free bytes.

    A list in normal form is sorted, has no empty extent and leaves at least one used byte
    between neighbours. The normal form of a set of bytes is unique (NormalFormUnique), and
    most results below follow from that. */
module FreeList {
  import opened Basics

  const TWO32 := 0x1_0000_0000
  const MEMMAN_FREES := 4090


  /** Unsigned 32-bit addition and subtraction of the C code: the sum or difference of two
      words, reduced modulo 2^32. */
  function Wrap(x: int): u32
    requires -TWO32 <= x < 2 * TWO32
  {
    if x < 0 then x + TWO32 else if x < TWO32 then x else x - TWO32
  }

  datatype Block = Block(addr: u32, size: u32) {
    function End(): int { addr + size }
    predicate Has(b: int) { addr <= b < addr + size }
  }

  ghost predicate Covers(l: seq<Block>, b: int) {
    exists i :: 0 <= i < |l| && l[i].Has(b)
  }

  /** In ascending order, with at least one byte that is not covered between neighbours. */
  ghost predicate Sorted(l: seq<Block>) {
    && (forall i :: 0 <= i < |l| ==> l[i].End() < TWO32)
    && (forall i, j :: 0 <= i < j < |l| ==> l[i].End() < l[j].addr)
  }

  ghost predicate NoneEmpty(l: seq<Block>) { forall i :: 0 <= i < |l| ==> l[i].size > 0 }

  ghost predicate Normal(l: seq<Block>) { Sorted(l) && NoneEmpty(l) }

  /** The region shares no byte with the list. */
  ghost predicate Apart(l: seq<Block>, r: Block) {
    forall i :: 0 <= i < |l| ==> l[i].End() <= r.addr || r.End() <= l[i].addr
  }

  ghost predicate SameBytes(l: seq<Block>, m: seq<Block>) {
    forall b :: Covers(l, b) <==> Covers(m, b)
  }

  /** The empty extents of m are extents of l. */
  ghost predicate NoNewEmpty(l: seq<Block>, m: seq<Block>) { forall y :: y in m && y.size == 0 ==> y in l }

  lemma StillNoneEmpty(l: seq<Block>, m: seq<Block>)
    requires NoneEmpty(l) && NoNewEmpty(l, m)
    ensures NoneEmpty(m)
  {
    forall i | 0 <= i < |m| ensures m[i].size > 0 { assert m[i] in m; }
  }

  /** The bytes of m are those of l and those of r. */
  ghost predicate IsUnion(m: seq<Block>, l: seq<Block>, r: Block) {
    forall b :: Covers(m, b) <==> Covers(l, b) || r.Has(b)
  }

  /** The bytes of m are those of l that are not in r. */
  ghost predicate IsDifference(m: seq<Block>, l: seq<Block>, r: Block) {
    forall b :: Covers(m, b) <==> Covers(l, b) && !r.Has(b)
  }

  // ---------------------------------------------------------------------------------------
  // Uniqueness of the normal form

  /** The byte before the first extent is not covered, nor is the byte after any extent. */
  lemma EdgesUncovered(l: seq<Block>, i: nat)
    requires Sorted(l) && i < |l|
    ensures !Covers(l, l[i].addr - 1) && !Covers(l, l[i].End())
  {}

  lemma SameEnd(l: seq<Block>, m: seq<Block>)
    requires Normal(l) && SameBytes(l, m) && l != [] && m != [] && l[0].addr == m[0].addr
    requires l[0].size > 0
    ensures m[0].size <= l[0].size
  {
    EdgesUncovered(l, 0);
    assert !Covers(m, l[0].End());
    assert !m[0].Has(l[0].End());
  }

  lemma HeadsEqual(l: seq<Block>, m: seq<Block>)
    requires Normal(l) && Normal(m) && SameBytes(l, m) && l != [] && m != []
    ensures l[0] == m[0]
  {
    assert l[0].Has(l[0].addr) && m[0].Has(m[0].addr);
    assert Covers(m, l[0].addr) && Covers(l, m[0].addr);
    assert l[0].addr == m[0].addr;
    SameEnd(l, m);
    SameEnd(m, l);
  }

  lemma TailBytes(l: seq<Block>, b: int)
    requires Normal(l) && l != []
    ensures Covers(l[1..], b) <==> Covers(l, b) && !l[0].Has(b)
  {
  }

  lemma BothEmpty(l: seq<Block>, m: seq<Block>)
    requires Normal(m) && SameBytes(l, m)
    ensures l == [] ==> m == []
  {
    if m != [] {
      assert m[0].Has(m[0].addr);
      assert Covers(m, m[0].addr);
    }
  }

  /** Two normal lists with the same bytes are the same list. */
  lemma {:induction false} NormalFormUnique(l: seq<Block>, m: seq<Block>)
    requires Normal(l) && Normal(m) && SameBytes(l, m)
    ensures l == m
  {
    BothEmpty(l, m);
    BothEmpty(m, l);
    if l != [] {
      HeadsEqual(l, m);
      TailsAgree(l, m);
      NormalFormUnique(l[1..], m[1..]);
      HeadAndTail(l, m);
    }
  }

  lemma TailsAgree(l: seq<Block>, m: seq<Block>)
    requires Normal(l) && Normal(m) && SameBytes(l, m) && l != [] && m != [] && l[0] == m[0]
    ensures Normal(l[1..]) && Normal(m[1..]) && SameBytes(l[1..], m[1..])
  {
    forall b ensures Covers(l[1..], b) <==> Covers(m[1..], b) {
      TailBytes(l, b);
      TailBytes(m, b);
    }
  }

  lemma HeadAndTail(l: seq<Block>, m: seq<Block>)
    requires l != [] && m != [] && l[0] == m[0] && l[1..] == m[1..]
    ensures l == m
  {
    assert l == [l[0]] + l[1..] && m == [m[0]] + m[1..];
  }

  // ---------------------------------------------------------------------------------------
  // Freeing a region (kernel/memman.c:221-276)

  /** The first index from i on whose extent starts after addr. */
  function InsertAt(l: seq<Block>, addr: u32, i: nat := 0): (r: nat)
    requires i <= |l|
    ensures i <= r <= |l|
    ensures forall k :: i <= k < r ==> l[k].addr <= addr
    ensures r < |l| ==> l[r].addr > addr
    decreases |l| - i
  {
    if i == |l| || l[i].addr > addr then i else InsertAt(l, addr, i + 1)
  }

  predicate TouchesBefore(l: seq<Block>, r: Block) {
    var i := InsertAt(l, r.addr);
    0 < i && Wrap(l[i - 1].End()) == r.addr
  }

  predicate TouchesAfter(l: seq<Block>, r: Block) {
    var i := InsertAt(l, r.addr);
    i < |l| && Wrap(r.End()) == l[i].addr
  }

  /** The list after a region was freed into a list that has room for it. */
  function Freed(l: seq<Block>, r: Block): seq<Block> {
    var i := InsertAt(l, r.addr);
    if r.size == 0 then l
    else if TouchesBefore(l, r) then
      var grown := Wrap(l[i - 1].size + r.size);
      if TouchesAfter(l, r)
      then l[..i - 1] + [Block(l[i - 1].addr, Wrap(grown + l[i].size))] + l[i + 1..]
      else l[i - 1 := Block(l[i - 1].addr, grown)]
    else if TouchesAfter(l, r) then l[i := Block(r.addr, Wrap(l[i].size + r.size))]
    else l[..i] + [r] + l[i..]
  }

  /** The free is recorded: an entry is left, or the region merges into a neighbour. */
  predicate HasRoom(l: seq<Block>, r: Block) {
    r.size == 0 || |l| < MEMMAN_FREES || TouchesBefore(l, r) || TouchesAfter(l, r)
  }

  /** Freeing as the kernel does it, a region without room being lost. */
  function FreeStep(l: seq<Block>, r: Block): seq<Block> {
    if HasRoom(l, r) then Freed(l, r) else l
  }

  ghost predicate Releasable(l: seq<Block>, r: Block) {
    Sorted(l) && r.End() < TWO32 && Apart(l, r)
  }

  lemma CoversAppend(a: seq<Block>, c: seq<Block>, b: int)
    ensures Covers(a + c, b) <==> Covers(a, b) || Covers(c, b)
  {
    if Covers(a, b) {
      var i :| 0 <= i < |a| && a[i].Has(b);
      assert (a + c)[i].Has(b);
    }
    if Covers(c, b) {
      var i :| 0 <= i < |c| && c[i].Has(b);
      assert (a + c)[|a| + i].Has(b);
    }
    if Covers(a + c, b) {
      var i :| 0 <= i < |a + c| && (a + c)[i].Has(b);
      assert if i < |a| then a[i].Has(b) else c[i - |a|].Has(b);
    }
  }

  lemma CoversSplit(l: seq<Block>, i: nat, j: nat, b: int)
    requires i <= j <= |l|
    ensures Covers(l, b) <==> Covers(l[..i], b) || Covers(l[i..j], b) || Covers(l[j..], b)
  {
    CoversAppend(l[..i], l[i..j], b);
    CoversAppend(l[..i] + l[i..j], l[j..], b);
    assert l == l[..i] + l[i..j] + l[j..];
  }

  lemma CoversOne(x: Block, b: int)
    ensures Covers([x], b) <==> x.Has(b)
  {
    if x.Has(b) { assert [x][0].Has(b); }
  }

  lemma CoversTwo(x: Block, y: Block, b: int)
    ensures Covers([x, y], b) <==> x.Has(b) || y.Has(b)
  {
    CoversOne(x, b); CoversOne(y, b); CoversAppend([x], [y], b);
    assert [x] + [y] == [x, y];
  }

  /** Replacing l[i..j] by the single extent x. */
  lemma ReplacedBytes(l: seq<Block>, i: nat, j: nat, x: Block, b: int)
    requires i <= j <= |l|
    ensures Covers(l[..i] + [x] + l[j..], b) <==> Covers(l[..i], b) || x.Has(b) || Covers(l[j..], b)
  {
    CoversOne(x, b);
    CoversAppend(l[..i], [x], b);
    CoversAppend(l[..i] + [x], l[j..], b);
  }

  /** Extent x, in place of l[i..j], joins r with the extents it touches. */
  ghost predicate Joins(l: seq<Block>, r: Block, i: nat, j: nat, x: Block) {
    && i <= j <= |l|
    && x.size > 0 && x.End() < TWO32
    && (forall k :: 0 <= k < i ==> l[k].End() < x.addr)
    && (forall k :: j <= k < |l| ==> x.End() < l[k].addr)
    && match j - i {
         case 0 => x == r
         case 1 => x.size == r.size + l[i].size
                   && ((x.addr == l[i].addr && l[i].End() == r.addr) || (x.addr == r.addr && r.End() == l[i].addr))
         case 2 => x.addr == l[i].addr && l[i].End() == r.addr && r.End() == l[i + 1].addr
                   && x.size == l[i].size + r.size + l[i + 1].size
         case _ => false
       }
  }

  /** Within memory the 32-bit sums do not wrap, so touching means what it says. */
  lemma TouchMeaning(l: seq<Block>, r: Block)
    requires Releasable(l, r) && r.size > 0
    ensures var n := InsertAt(l, r.addr);
            && (forall k :: 0 <= k < n ==> l[k].End() <= r.addr)
            && (forall k :: n <= k < |l| ==> r.End() <= l[k].addr)
            && (TouchesBefore(l, r) <==> 0 < n && l[n - 1].End() == r.addr)
            && (TouchesAfter(l, r) <==> n < |l| && r.End() == l[n].addr)
  {
  }

  lemma JoinBoth(l: seq<Block>, r: Block) returns (x: Block)
    requires Releasable(l, r) && r.size > 0 && TouchesBefore(l, r) && TouchesAfter(l, r)
    ensures var n := InsertAt(l, r.addr);
            0 < n < |l| && Joins(l, r, n - 1, n + 1, x) && Freed(l, r) == l[..n - 1] + [x] + l[n + 1..]
  {
    var n := InsertAt(l, r.addr);
    TouchMeaning(l, r);
    x := Block(l[n - 1].addr, l[n - 1].size + r.size + l[n].size);
  }

  lemma JoinBefore(l: seq<Block>, r: Block) returns (x: Block)
    requires Releasable(l, r) && r.size > 0 && TouchesBefore(l, r) && !TouchesAfter(l, r)
    ensures var n := InsertAt(l, r.addr);
            0 < n && Joins(l, r, n - 1, n, x) && Freed(l, r) == l[..n - 1] + [x] + l[n..]
  {
    var n := InsertAt(l, r.addr);
    TouchMeaning(l, r);
    x := Block(l[n - 1].addr, l[n - 1].size + r.size);
    assert Freed(l, r) == l[n - 1 := x];
    if n < |l| { BelowRest(l, n, r.End()); }
  }

  lemma JoinAfter(l: seq<Block>, r: Block) returns (x: Block)
    requires Releasable(l, r) && r.size > 0 && !TouchesBefore(l, r) && TouchesAfter(l, r)
    ensures var n := InsertAt(l, r.addr);
            n < |l| && Joins(l, r, n, n + 1, x) && Freed(l, r) == l[..n] + [x] + l[n + 1..]
  {
    var n := InsertAt(l, r.addr);
    TouchMeaning(l, r);
    x := Block(r.addr, l[n].size + r.size);
    assert Freed(l, r) == l[n := x];
  }

  lemma JoinNone(l: seq<Block>, r: Block)
    requires Releasable(l, r) && r.size > 0 && !TouchesBefore(l, r) && !TouchesAfter(l, r)
    ensures var n := InsertAt(l, r.addr);
            Joins(l, r, n, n, r) && Freed(l, r) == l[..n] + [r] + l[n..]
  {
  }

  lemma BelowRest(l: seq<Block>, n: nat, e: int)
    requires Sorted(l) && n < |l| && e < l[n].addr
    ensures forall k :: n <= k < |l| ==> e < l[k].addr
  {}

  /** Freed puts one joined extent in place of the extents r touches. */
  lemma FreedShape(l: seq<Block>, r: Block) returns (i: nat, j: nat, x: Block)
    requires Releasable(l, r) && r.size > 0
    ensures Joins(l, r, i, j, x) && Freed(l, r) == l[..i] + [x] + l[j..]
  {
    var n := InsertAt(l, r.addr);
    if TouchesBefore(l, r) && TouchesAfter(l, r) {
      x := JoinBoth(l, r);
      i, j := n - 1, n + 1;
    } else if TouchesBefore(l, r) {
      x := JoinBefore(l, r);
      i, j := n - 1, n;
    } else if TouchesAfter(l, r) {
      x := JoinAfter(l, r);
      i, j := n, n + 1;
    } else {
      JoinNone(l, r);
      i, j, x := n, n, r;
    }
  }

  lemma TailSorted(l: seq<Block>, n: nat)
    requires Sorted(l) && n <= |l|
    ensures Sorted(l[n..]) && Sorted(l[..n])
  {
  }

  lemma SortedAppend(a: seq<Block>, c: seq<Block>)
    requires Sorted(a) && Sorted(c)
    requires forall i, j :: 0 <= i < |a| && 0 <= j < |c| ==> a[i].End() < c[j].addr
    ensures Sorted(a + c)
  {}

  lemma JoinedSorted(l: seq<Block>, r: Block, i: nat, j: nat, x: Block)
    requires Sorted(l) && Joins(l, r, i, j, x)
    ensures Sorted(l[..i] + [x] + l[j..]) && NoNewEmpty(l, l[..i] + [x] + l[j..])
  {
    TailSorted(l, i);
    TailSorted(l, j);
    SortedAppend(l[..i], [x]);
    SortedAppend(l[..i] + [x], l[j..]);
  }

  lemma JoinedBytes(l: seq<Block>, r: Block, i: nat, j: nat, x: Block, b: int)
    requires Joins(l, r, i, j, x)
    ensures x.Has(b) <==> r.Has(b) || Covers(l[i..j], b)
  {
  }

  /** Freeing a region keeps the order, leaves no empty extent that was not there before, and adds
      exactly the region's bytes. */
  lemma FreedIsUnion(l: seq<Block>, r: Block)
    requires Releasable(l, r)
    ensures Sorted(Freed(l, r)) && NoNewEmpty(l, Freed(l, r)) && IsUnion(Freed(l, r), l, r)
    ensures Normal(l) ==> Normal(Freed(l, r))
  {
    if r.size > 0 {
      var i, j, x := FreedShape(l, r);
      JoinedSorted(l, r, i, j, x);
      forall b ensures Covers(Freed(l, r), b) <==> Covers(l, b) || r.Has(b) {
        CoversSplit(l, i, j, b);
        ReplacedBytes(l, i, j, x, b);
        JoinedBytes(l, r, i, j, x, b);
      }
    }
    if NoneEmpty(l) { StillNoneEmpty(l, Freed(l, r)); }
  }

  /** The sum of the extents' sizes, what memman_total adds up. */
  function Total(l: seq<Block>): nat {
    if l == [] then 0 else Total(l[..|l| - 1]) + l[|l| - 1].size
  }

  lemma {:induction false} TotalAppend(a: seq<Block>, c: seq<Block>)
    ensures Total(a + c) == Total(a) + Total(c)
  {
    if c == [] {
      assert a + c == a;
    } else {
      assert (a + c)[..|a + c| - 1] == a + c[..|c| - 1];
      TotalAppend(a, c[..|c| - 1]);
    }
  }

  lemma TotalSplit(l: seq<Block>, i: nat, j: nat)
    requires i <= j <= |l|
    ensures Total(l) == Total(l[..i]) + Total(l[i..j]) + Total(l[j..])
  {
    TotalAppend(l[..i], l[i..j]);
    TotalAppend(l[..i] + l[i..j], l[j..]);
    assert l == l[..i] + l[i..j] + l[j..];
  }

  lemma TotalReplaced(l: seq<Block>, i: nat, j: nat, m: seq<Block>)
    requires i <= j <= |l|
    ensures Total(l[..i] + m + l[j..]) == Total(l) - Total(l[i..j]) + Total(m)
  {
    TotalSplit(l, i, j);
    TotalAppend(l[..i], m);
    TotalAppend(l[..i] + m, l[j..]);
  }

  lemma FreedTotal(l: seq<Block>, r: Block)
    requires Releasable(l, r)
    ensures Total(Freed(l, r)) == Total(l) + r.size
  {
    if r.size > 0 {
      var i, j, x := FreedShape(l, r);
      TotalReplaced(l, i, j, [x]);
      TotalOne(x);
      JoinedTotal(l, r, i, j, x);
    }
  }

  lemma TotalOne(x: Block)
    ensures Total([x]) == x.size
  {
  }

  lemma JoinedTotal(l: seq<Block>, r: Block, i: nat, j: nat, x: Block)
    requires Joins(l, r, i, j, x)
    ensures Total(l[i..j]) + r.size == x.size
  {
    if j - i == 1 {
      assert l[i..j] == [l[i]];
      TotalOne(l[i]);
    } else if j - i == 2 {
      assert l[i..j] == [l[i]] + [l[i + 1]];
      TotalAppend([l[i]], [l[i + 1]]);
      TotalOne(l[i]); TotalOne(l[i + 1]);
    }
  }

  // ---------------------------------------------------------------------------------------
  // Allocating from the front of an extent (kernel/memman.c:120-219)

  /** The test the allocators make of an extent; both bounds use 32-bit addition. */
  predicate Fits(x: Block, lo: u32, hi: u32, size: u32) {
    lo <= x.addr && Wrap(x.addr + size) < hi && size <= x.size
  }

  /** The first fitting extent from i on, or the length of the list. */
  function FirstFit(l: seq<Block>, lo: u32, hi: u32, size: u32, i: nat := 0): (r: nat)
    requires i <= |l|
    ensures i <= r <= |l|
    ensures forall k :: i <= k < r ==> !Fits(l[k], lo, hi, size)
    ensures r < |l| ==> Fits(l[r], lo, hi, size)
    decreases |l| - i
  {
    if i == |l| || Fits(l[i], lo, hi, size) then i else FirstFit(l, lo, hi, size, i + 1)
  }

  /** The list after size bytes were cut from the front of extent i. */
  function Taken(l: seq<Block>, i: nat, size: u32): seq<Block>
    requires i < |l| && size <= l[i].size
  {
    if l[i].size == size then l[..i] + l[i + 1..]
    else l[i := Block(Wrap(l[i].addr + size), l[i].size - size)]
  }

  /** The front cut off extent i. */
  function Cut(l: seq<Block>, i: nat, size: u32): Block
    requires i < |l|
  {
    Block(l[i].addr, size)
  }

  /** What is left of extent i, as a list of no or one extent. */
  ghost function Rest(l: seq<Block>, i: nat, size: u32): seq<Block>
    requires Sorted(l) && i < |l| && size <= l[i].size
  {
    if l[i].size == size then [] else [Block(l[i].addr + size, l[i].size - size)]
  }

  lemma TakenShape(l: seq<Block>, i: nat, size: u32)
    requires Sorted(l) && i < |l| && size <= l[i].size
    ensures Taken(l, i, size) == l[..i] + Rest(l, i, size) + l[i + 1..]
  {}

  lemma TakenSorted(l: seq<Block>, i: nat, size: u32)
    requires Sorted(l) && i < |l| && size <= l[i].size
    ensures Taken(l, i, size) == l[..i] + Rest(l, i, size) + l[i + 1..]
    ensures Sorted(Taken(l, i, size)) && NoNewEmpty(l, Taken(l, i, size))
  {
    TakenShape(l, i, size);
    TailSorted(l, i + 1);
    SortedAppend(l[..i], Rest(l, i, size));
    SortedAppend(l[..i] + Rest(l, i, size), l[i + 1..]);
  }

  lemma OthersMissCut(l: seq<Block>, i: nat, b: int)
    requires Sorted(l) && i < |l| && l[i].Has(b)
    ensures !Covers(l[..i], b) && !Covers(l[i + 1..], b)
  {
  }

  lemma TakenBytes(l: seq<Block>, i: nat, size: u32, b: int)
    requires Sorted(l) && i < |l| && size <= l[i].size
    ensures Covers(Taken(l, i, size), b) <==> Covers(l, b) && !Cut(l, i, size).Has(b)
    ensures Cut(l, i, size).Has(b) ==> Covers(l, b)
  {
    var m := Rest(l, i, size);
    TakenSorted(l, i, size);
    CoversSplit(l, i, i + 1, b);
    assert l[i..i + 1] == [l[i]];
    CoversOne(l[i], b);
    CoversAppend(l[..i], m, b);
    CoversAppend(l[..i] + m, l[i + 1..], b);
    if m != [] { CoversOne(m[0], b); assert m == [m[0]]; }
    if l[i].Has(b) { OthersMissCut(l, i, b); }
  }

  /** Allocation keeps the order, leaves no new empty extent and removes exactly the bytes handed
      out, all of which were free. */
  lemma TakenIsDifference(l: seq<Block>, i: nat, size: u32)
    requires Sorted(l) && i < |l| && size <= l[i].size
    ensures Sorted(Taken(l, i, size)) && NoNewEmpty(l, Taken(l, i, size)) && (Normal(l) ==> Normal(Taken(l, i, size)))
    ensures IsDifference(Taken(l, i, size), l, Cut(l, i, size))
    ensures forall b :: Cut(l, i, size).Has(b) ==> Covers(l, b)
    ensures Total(Taken(l, i, size)) == Total(l) - size
  {
    TakenSorted(l, i, size);
    forall b
      ensures Covers(Taken(l, i, size), b) <==> Covers(l, b) && !Cut(l, i, size).Has(b)
      ensures Cut(l, i, size).Has(b) ==> Covers(l, b)
    {
      TakenBytes(l, i, size, b);
    }
    TakenTotal(l, i, size);
    if NoneEmpty(l) { StillNoneEmpty(l, Taken(l, i, size)); }
  }

  lemma TakenTotal(l: seq<Block>, i: nat, size: u32)
    requires Sorted(l) && i < |l| && size <= l[i].size
    ensures Total(Taken(l, i, size)) == Total(l) - size
  {
    var m := Rest(l, i, size);
    TakenShape(l, i, size);
    TotalReplaced(l, i, i + 1, m);
    TotalAt(l, i);
    RestTotal(l, i, size);
  }

  lemma TotalAt(l: seq<Block>, i: nat)
    requires i < |l|
    ensures Total(l[i..i + 1]) == l[i].size
  {
    assert l[i..i + 1] == [l[i]];
    TotalOne(l[i]);
  }

  lemma RestTotal(l: seq<Block>, i: nat, size: u32)
    requires Sorted(l) && i < |l| && size <= l[i].size
    ensures Total(Rest(l, i, size)) == l[i].size - size
  {
    if l[i].size != size { TotalOne(Block(l[i].addr + size, l[i].size - size)); }
  }

  lemma CutApart(l: seq<Block>, i: nat, size: u32)
    requires Sorted(l) && i < |l| && size <= l[i].size
    ensures Apart(Taken(l, i, size), Cut(l, i, size))
  {}

  /** Freeing what was just allocated always finds room and restores the list exactly. */
  lemma FreeUndoesAlloc(l: seq<Block>, i: nat, size: u32)
    requires Normal(l) && |l| <= MEMMAN_FREES && i < |l| && size <= l[i].size
    ensures FreeStep(Taken(l, i, size), Cut(l, i, size)) == l
  {
    var t, c := Taken(l, i, size), Cut(l, i, size);
    TakenIsDifference(l, i, size);
    CutApart(l, i, size);
    if size > 0 {
      if l[i].size > size {
        assert t[i] == Block(l[i].addr + size, l[i].size - size);
        assert InsertAt(t, c.addr) == i;
        assert TouchesAfter(t, c);
      } else {
        assert |t| == |l| - 1;
      }
    }
    assert HasRoom(t, c);
    FreedIsUnion(t, c);
    NormalFormUnique(Freed(t, c), l);
  }

  // ---------------------------------------------------------------------------------------
  // Order of frees

  function FreeRun(l: seq<Block>, rs: seq<Block>): seq<Block>
    decreases |rs|
  {
    if rs == [] then l else FreeRun(FreeStep(l, rs[0]), rs[1..])
  }

  /** No region of the run is lost for lack of room. */
  ghost predicate NothingLost(l: seq<Block>, rs: seq<Block>)
    decreases |rs|
  {
    rs == [] || (HasRoom(l, rs[0]) && NothingLost(FreeStep(l, rs[0]), rs[1..]))
  }

  ghost predicate PairwiseApart(rs: seq<Block>) {
    forall i, j :: 0 <= i < j < |rs| ==> rs[i].End() <= rs[j].addr || rs[j].End() <= rs[i].addr
  }

  ghost predicate AllReleasable(l: seq<Block>, rs: seq<Block>) {
    PairwiseApart(rs) && Normal(l) && forall i :: 0 <= i < |rs| ==> Releasable(l, rs[i])
  }

  /** A region none of whose bytes is covered and which holds no empty extent is apart from the list. */
  lemma ApartByBytes(l: seq<Block>, s: Block)
    requires Sorted(l) && s.size > 0 && forall y :: y in l && y.size == 0 ==> !s.Has(y.addr)
    requires forall b :: s.Has(b) ==> !Covers(l, b)
    ensures Apart(l, s)
  {
    forall i | 0 <= i < |l|
      ensures l[i].End() <= s.addr || s.End() <= l[i].addr
    {
      var b := if s.addr < l[i].addr then l[i].addr else s.addr;
      assert l[i] in l && (s.Has(b) ==> !l[i].Has(b));
    }
  }

  lemma ApartFromUnion(l: seq<Block>, r: Block, s: Block, m: seq<Block>)
    requires Normal(m) && IsUnion(m, l, r)
    requires Apart(l, s) && (r.End() <= s.addr || s.End() <= r.addr) && s.size > 0
    ensures Apart(m, s)
  {
    forall b | s.Has(b) ensures !Covers(m, b) {
      assert forall k :: 0 <= k < |l| ==> !l[k].Has(b);
    }
    ApartByBytes(m, s);
  }

  lemma ConsCovers(rs: seq<Block>, b: int)
    requires rs != []
    ensures Covers(rs, b) <==> rs[0].Has(b) || Covers(rs[1..], b)
  {
  }

  lemma RestReleasable(l: seq<Block>, rs: seq<Block>)
    requires AllReleasable(l, rs) && rs != [] && HasRoom(l, rs[0])
    requires forall i :: 0 <= i < |rs| ==> rs[i].size > 0
    ensures AllReleasable(FreeStep(l, rs[0]), rs[1..])
    ensures IsUnion(FreeStep(l, rs[0]), l, rs[0])
  {
    var m := FreeStep(l, rs[0]);
    FreedIsUnion(l, rs[0]);
    forall i | 0 <= i < |rs[1..]| ensures Releasable(m, rs[1..][i]) {
      ApartFromUnion(l, rs[0], rs[i + 1], m);
    }
  }

  lemma {:induction false} FreeRunIsUnion(l: seq<Block>, rs: seq<Block>)
    requires AllReleasable(l, rs) && NothingLost(l, rs)
    requires forall i :: 0 <= i < |rs| ==> rs[i].size > 0
    ensures Normal(FreeRun(l, rs))
    ensures forall b :: Covers(FreeRun(l, rs), b) <==> Covers(l, b) || Covers(rs, b)
    decreases |rs|
  {
    if rs != [] {
      RestReleasable(l, rs);
      FreeRunIsUnion(FreeStep(l, rs[0]), rs[1..]);
      forall b ensures Covers(FreeRun(l, rs), b) <==> Covers(l, b) || Covers(rs, b) {
        ConsCovers(rs, b);
      }
    }
  }

  /** Freeing the same regions in any two orders that lose nothing gives the same list. */
  lemma FreeOrderIrrelevant(l: seq<Block>, rs: seq<Block>, qs: seq<Block>)
    requires AllReleasable(l, rs) && AllReleasable(l, qs)
    requires forall i :: 0 <= i < |rs| ==> rs[i].size > 0
    requires multiset(rs) == multiset(qs)
    requires NothingLost(l, rs) && NothingLost(l, qs)
    ensures FreeRun(l, rs) == FreeRun(l, qs)
  {
    forall i | 0 <= i < |qs| ensures qs[i].size > 0 {
      assert qs[i] in multiset(qs);
      assert qs[i] in multiset(rs);
    }
    FreeRunIsUnion(l, rs);
    FreeRunIsUnion(l, qs);
    forall b ensures Covers(rs, b) <==> Covers(qs, b) {
      SameMultisetCovers(rs, qs, b);
      SameMultisetCovers(qs, rs, b);
    }
    NormalFormUnique(FreeRun(l, rs), FreeRun(l, qs));
  }

  lemma SameMultisetCovers(rs: seq<Block>, qs: seq<Block>, b: int)
    requires multiset(rs) == multiset(qs)
    ensures Covers(rs, b) ==> Covers(qs, b)
  {
    if Covers(rs, b) {
      var i :| 0 <= i < |rs| && rs[i].Has(b);
      assert rs[i] in multiset(rs);
      assert rs[i] in multiset(qs);
    }
  }
}
