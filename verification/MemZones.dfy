/** What the memory manager guarantees over whole runs: the list that boot builds from the
    loader's report, and then any mix of allocations and frees of what was allocated. */
module MemZones {
  import opened Basics
  import opened FreeList
  import opened MemMan

  // ---------------------------------------------------------------------------------------
  // The list before the wall splits

  lemma AlignedSum(a: int, b: int)
    requires a % PAGE == 0 && b % PAGE == 0
    ensures (a + b) % PAGE == 0 && (a - b) % PAGE == 0
    ensures a < b ==> a + PAGE <= b
  {
    var i, j := a / PAGE, b / PAGE;
    assert a == PAGE * i && b == PAGE * j;
    assert a + b == PAGE * (i + j) && a - b == PAGE * (i - j);
    Multiple(i + j);
    Multiple(i - j);
  }

  lemma Multiple(k: int)
    ensures PAGE * k % PAGE == 0
  {
  }

  ghost predicate PageAligned(l: seq<Block>) {
    forall i :: 0 <= i < |l| ==> l[i].addr % PAGE == 0 && l[i].size % PAGE == 0
  }

  /** Page addresses in ascending order, none at the very end of the address space. */
  ghost predicate GoodReport(info: seq<u32>) {
    && |info| == 256 && info[0] < 256
    && (forall i :: 1 <= i <= info[0] ==> info[i] % PAGE == 0 && info[i] < TWO32 - PAGE)
    && (forall i, j :: 1 <= i < j <= info[0] ==> info[i] < info[j])
  }

  /** Byte b lies in a page that one of the first n entries reports. */
  ghost predicate Reported(info: seq<u32>, n: nat, b: int)
    requires n < |info|
  {
    exists k :: 1 <= k <= n && info[k] <= b < info[k] + PAGE
  }

  /** Byte b is usable memory: above 4M, below some entry and in no reported page. */
  ghost predicate Usable(info: seq<u32>, n: nat, b: int)
    requires n < |info|
  {
    MEMSTART <= b && (exists k :: 1 <= k <= n && b < info[k]) && !Reported(info, n, b)
  }

  lemma FreedAtEnd(l: seq<Block>, r: Block)
    requires Normal(l) && r.size > 0 && forall k :: 0 <= k < |l| ==> l[k].End() < r.addr
    ensures Freed(l, r) == l + [r]
  {
  }

  /** After i entries the list is normal, page aligned, ends before the next start address and
      holds exactly the usable bytes. */
  ghost predicate BootOk(info: seq<u32>, i: nat)
    requires i < |info|
  {
    var s := BootAfter(info, i);
    && Normal(s.blocks) && PageAligned(s.blocks)
    && (forall k :: 0 <= k < |s.blocks| ==> s.blocks[k].End() < s.memstart && MEMSTART <= s.blocks[k].addr)
    && s.memstart == (if i > 0 && info[i] >= MEMSTART then info[i] + PAGE else MEMSTART)
    && forall b :: Covers(s.blocks, b) <==> Usable(info, i, b)
  }

  lemma NewBytes(info: seq<u32>, i: nat, b: int)
    requires GoodReport(info) && 1 <= i <= info[0]
    requires BootOk(info, i - 1) && info[i] >= BootAfter(info, i - 1).memstart
    ensures Usable(info, i, b) <==>
              Usable(info, i - 1, b) || BootAfter(info, i - 1).memstart <= b < info[i]
  {
  }

  lemma SkippedEntry(info: seq<u32>, i: nat, b: int)
    requires GoodReport(info) && 1 <= i <= info[0]
    requires BootOk(info, i - 1) && info[i] < BootAfter(info, i - 1).memstart
    ensures info[i] < MEMSTART && BootAfter(info, i - 1).memstart == MEMSTART
    ensures !Usable(info, i, b) && !Usable(info, i - 1, b)
  {
  }

  lemma {:induction false} BootIsUsable(info: seq<u32>, i: nat)
    requires GoodReport(info) && i <= info[0]
    ensures BootOk(info, i)
  {
    if i > 0 {
      BootIsUsable(info, i - 1);
      BootLength(info, i - 1);
      var s := BootAfter(info, i - 1);
      if info[i] < s.memstart {
        forall b ensures Covers(s.blocks, b) <==> Usable(info, i, b) { SkippedEntry(info, i, b); }
        SkippedEntry(info, i, 0);
      } else {
        BootGrows(info, i);
      }
    }
  }

  lemma AppendAligned(l: seq<Block>, r: Block)
    requires Normal(l) && PageAligned(l) && r.addr % PAGE == 0 && r.size % PAGE == 0
    requires r.size > 0 && r.End() < TWO32 && forall k :: 0 <= k < |l| ==> l[k].End() < r.addr
    ensures Normal(l + [r]) && PageAligned(l + [r])
  {}

  lemma AppendBytes(l: seq<Block>, r: Block, b: int)
    ensures Covers(l + [r], b) <==> Covers(l, b) || r.Has(b)
  {
    CoversAppend(l, [r], b);
    CoversOne(r, b);
  }

  /** The list after entry i, one that is not skipped. */
  lemma GrownList(info: seq<u32>, i: nat)
    requires GoodReport(info) && 1 <= i <= info[0]
    requires BootOk(info, i - 1) && |BootAfter(info, i - 1).blocks| < MEMMAN_FREES
    requires info[i] >= BootAfter(info, i - 1).memstart
    ensures var s := BootAfter(info, i - 1);
            var r := Block(s.memstart, info[i] - s.memstart);
            var t := if r.size > 0 then s.blocks + [r] else s.blocks;
            && BootAfter(info, i) == Boot(t, info[i] + PAGE)
            && Normal(t) && PageAligned(t)
            && forall k :: 0 <= k < |t| ==> t[k].End() < info[i] + PAGE && MEMSTART <= t[k].addr
  {
    NextStart(info, i - 1);
    GrownStep(BootAfter(info, i - 1), info[i]);
  }

  lemma NextStart(info: seq<u32>, i: nat)
    requires GoodReport(info) && i <= info[0] && BootOk(info, i)
    ensures BootAfter(info, i).memstart % PAGE == 0 && BootAfter(info, i).memstart >= MEMSTART
  {
    if i > 0 { AlignedSum(info[i], PAGE); }
  }

  lemma GrownStep(s: Boot, e: u32)
    requires Normal(s.blocks) && PageAligned(s.blocks) && |s.blocks| < MEMMAN_FREES
    requires forall k :: 0 <= k < |s.blocks| ==> s.blocks[k].End() < s.memstart && MEMSTART <= s.blocks[k].addr
    requires MEMSTART <= s.memstart <= e && e + PAGE < TWO32 && e % PAGE == 0 && s.memstart % PAGE == 0
    ensures var r := Block(s.memstart, e - s.memstart);
            var t := if r.size > 0 then s.blocks + [r] else s.blocks;
            && BootStep(s, e) == Boot(t, e + PAGE)
            && Normal(t) && PageAligned(t)
            && forall k :: 0 <= k < |t| ==> t[k].End() < e + PAGE && MEMSTART <= t[k].addr
  {
    var r := Block(s.memstart, e - s.memstart);
    if r.size > 0 {
      FreedAtEnd(s.blocks, r);
      AlignedSum(e, s.memstart);
      AppendAligned(s.blocks, r);
    }
  }

  lemma BootGrows(info: seq<u32>, i: nat)
    requires GoodReport(info) && 1 <= i <= info[0]
    requires BootOk(info, i - 1) && |BootAfter(info, i - 1).blocks| < MEMMAN_FREES
    requires info[i] >= BootAfter(info, i - 1).memstart
    ensures BootOk(info, i)
  {
    GrownList(info, i);
    var s := BootAfter(info, i - 1);
    var r := Block(s.memstart, info[i] - s.memstart);
    forall b ensures Covers(BootAfter(info, i).blocks, b) <==> Usable(info, i, b) {
      NewBytes(info, i, b);
      AppendBytes(s.blocks, r, b);
    }
  }

  // ---------------------------------------------------------------------------------------
  // Splitting at a wall

  /** The pages on both sides of the wall are free but the second page below it is not: an
      extent starts exactly one page below the wall. */
  ghost predicate Narrow(l: seq<Block>, w: u32) {
    Covers(l, w - 1) && Covers(l, w) && !Covers(l, w - PAGE - 1)
  }

  ghost predicate Hole(l: seq<Block>, w: u32, b: int) {
    w - PAGE <= b < w && Covers(l, w - 1) && Covers(l, w)
  }

  lemma SpanInSorted(l: seq<Block>, w: u32)
    requires Sorted(l) && w > 0
    ensures var i := SpanIndex(l, w);
            && (i == |l| ==> !Covers(l, w))
            && (i < |l| && l[i].addr == w ==> !Covers(l, w - 1))
            && (i < |l| && l[i].addr < w ==> Covers(l, w) && Covers(l, w - 1))
  {
  }

  /** The two extents a split puts in place of extent i. */
  ghost function Halves(x: Block, w: u32): seq<Block>
    requires PAGE <= w && x.addr + PAGE <= w < x.End() < TWO32
  {
    [Block(x.addr, w - PAGE - x.addr), Block(w, x.End() - w)]
  }

  lemma SplitShape(l: seq<Block>, w: u32) returns (i: nat)
    requires Sorted(l) && PageAligned(l) && w % PAGE == 0 && Covers(l, w - 1) && Covers(l, w)
    ensures i < |l| && l[i].addr + PAGE <= w < l[i].End()
    ensures SplitAt(l, w) == l[..i] + Halves(l[i], w) + l[i + 1..]
  {
    i := SpanIndex(l, w);
    SpanInSorted(l, w);
    AlignedSum(l[i].addr, w);
  }

  lemma SplitBytes(l: seq<Block>, w: u32, b: int)
    requires Sorted(l) && PageAligned(l) && w % PAGE == 0 && w > 0
    ensures Covers(SplitAt(l, w), b) <==> Covers(l, b) && !Hole(l, w, b)
  {
    if Covers(l, w - 1) && Covers(l, w) {
      var i := SplitShape(l, w);
      HalvesBytes(l, i, w, b);
    } else {
      SpanInSorted(l, w);
    }
  }

  lemma HalvesBytes(l: seq<Block>, i: nat, w: u32, b: int)
    requires Sorted(l) && i < |l| && l[i].addr + PAGE <= w < l[i].End() < TWO32
    ensures Covers(l[..i] + Halves(l[i], w) + l[i + 1..], b) <==> Covers(l, b) && !(w - PAGE <= b < w)
  {
    var h := Halves(l[i], w);
    CoversSplit(l, i, i + 1, b);
    assert l[i..i + 1] == [l[i]];
    CoversOne(l[i], b);
    CoversTwo(h[0], h[1], b);
    CoversAppend(l[..i], h, b);
    CoversAppend(l[..i] + h, l[i + 1..], b);
    if l[i].Has(b) { OthersMissCut(l, i, b); }
  }

  lemma AlignedAppend(a: seq<Block>, c: seq<Block>)
    requires PageAligned(a) && PageAligned(c)
    ensures PageAligned(a + c)
  {}

  lemma HalvesAligned(x: Block, w: u32)
    requires w % PAGE == 0 && x.addr % PAGE == 0 && x.size % PAGE == 0
    requires PAGE <= w && x.addr + PAGE <= w < x.End() < TWO32
    ensures PageAligned(Halves(x, w))
  {
    AlignedSum(x.addr, x.size);
    AlignedSum(w, PAGE);
    AlignedSum(w - PAGE, x.addr);
    AlignedSum(x.addr + x.size, w);
  }

  lemma SplitAligned(l: seq<Block>, w: u32)
    requires Sorted(l) && PageAligned(l) && w % PAGE == 0 && w > 0
    ensures PageAligned(SplitAt(l, w))
  {
    if Covers(l, w - 1) && Covers(l, w) {
      var i := SplitShape(l, w);
      HalvesAligned(l[i], w);
      AlignedAppend(l[..i], Halves(l[i], w));
      AlignedAppend(l[..i] + Halves(l[i], w), l[i + 1..]);
    } else {
      SpanInSorted(l, w);
    }
  }

  lemma HalvesSorted(l: seq<Block>, i: nat, w: u32)
    requires Sorted(l) && i < |l| && PAGE <= w && l[i].addr + PAGE <= w < l[i].End()
    ensures Sorted(l[..i] + Halves(l[i], w) + l[i + 1..])
    ensures NoneEmpty(l[..i] + Halves(l[i], w) + l[i + 1..]) <==> NoneEmpty(l) && l[i].addr + PAGE < w
  {
    HalvesEmpty(l, i, Halves(l[i], w));
  }

  lemma HalvesEmpty(l: seq<Block>, i: nat, h: seq<Block>)
    requires i < |l| && |h| == 2 && h[1].size > 0 && l[i].size > 0
    ensures NoneEmpty(l[..i] + h + l[i + 1..]) <==> NoneEmpty(l) && h[0].size > 0
  {
    var m := l[..i] + h + l[i + 1..];
    assert m[i] == h[0] && m[i + 1] == h[1];
    assert forall k :: 0 <= k < i ==> m[k] == l[k];
    assert forall k {:trigger l[k]} :: i < k < |l| ==> m[k + 1] == l[k];
  }

  /** A split keeps the order, and it leaves an empty extent behind exactly when an extent starts one
      page below the wall and crosses it. */
  lemma SplitNormal(l: seq<Block>, w: u32)
    requires Sorted(l) && PageAligned(l) && w % PAGE == 0 && w > 0
    ensures Sorted(SplitAt(l, w)) && (NoneEmpty(SplitAt(l, w)) <==> NoneEmpty(l) && !Narrow(l, w))
  {
    if Covers(l, w - 1) && Covers(l, w) {
      var i := SplitShape(l, w);
      HalvesSorted(l, i, w);
      if l[i].addr == w - PAGE {
        EdgesUncovered(l, i);
      } else {
        assert l[i].Has(w - PAGE - 1);
      }
    } else {
      SpanInSorted(l, w);
    }
  }

  /** Splitting at one wall does not change whether the list is narrow at a higher one. */
  lemma NarrowElsewhere(l: seq<Block>, w: u32, v: u32)
    requires Sorted(l) && PageAligned(l) && w % PAGE == 0 && w > 0 && w + PAGE < v
    ensures Narrow(SplitAt(l, w), v) <==> Narrow(l, v)
  {
    SplitBytes(l, w, v - 1);
    SplitBytes(l, w, v);
    SplitBytes(l, w, v - PAGE - 1);
  }

  // ---------------------------------------------------------------------------------------
  // The list that boot leaves behind

  ghost predicate NarrowSomewhere(l: seq<Block>) {
    Narrow(l, KWALL) || Narrow(l, WALL) || Narrow(l, UWALL)
  }

  lemma SplitStep(l: seq<Block>, w: u32)
    requires Sorted(l) && PageAligned(l) && w % PAGE == 0 && w > 0
    ensures Sorted(SplitAt(l, w)) && PageAligned(SplitAt(l, w))
    ensures NoneEmpty(SplitAt(l, w)) <==> NoneEmpty(l) && !Narrow(l, w)
    ensures forall b :: Covers(SplitAt(l, w), b) <==> Covers(l, b) && !Hole(l, w, b)
  {
    SplitNormal(l, w);
    SplitAligned(l, w);
    forall b ensures Covers(SplitAt(l, w), b) <==> Covers(l, b) && !Hole(l, w, b) { SplitBytes(l, w, b); }
  }

  /** The bytes the three splits give up: the page below each wall that lay inside an extent. */
  ghost predicate GivenUp(l: seq<Block>, b: int) {
    Hole(l, KWALL, b) || Hole(l, WALL, b) || Hole(l, UWALL, b)
  }

  /** At wall w some neighbouring byte can never be free. */
  ghost predicate Walled(l: seq<Block>, w: int) { !(Covers(l, w - 1) && Covers(l, w)) }

  lemma SplitAllNormal(l: seq<Block>)
    requires Sorted(l) && PageAligned(l)
    ensures Sorted(SplitAll(l)) && PageAligned(SplitAll(l)) && (NoneEmpty(SplitAll(l)) <==> NoneEmpty(l) && !NarrowSomewhere(l))
    ensures forall b :: Covers(SplitAll(l), b) <==> Covers(l, b) && !GivenUp(l, b)
  {
    var l1 := SplitAt(l, KWALL);
    SplitStep(l, KWALL);
    NarrowElsewhere(l, KWALL, WALL);
    var l2 := SplitAt(l1, WALL);
    SplitStep(l1, WALL);
    NarrowElsewhere(l, KWALL, UWALL);
    NarrowElsewhere(l1, WALL, UWALL);
    SplitStep(l2, UWALL);
  }

  /** The pages on both sides of the wall are usable, the second page below it is not. */
  ghost predicate BadReport(info: seq<u32>, w: u32)
    requires |info| == 256 && info[0] < 256
  {
    Usable(info, info[0], w - 1) && Usable(info, info[0], w) && !Usable(info, info[0], w - PAGE - 1)
  }

  /** b is in the page below the wall, and that page has usable neighbours on both sides. */
  ghost predicate InGivenUpPage(info: seq<u32>, w: u32, b: int)
    requires |info| == 256 && info[0] < 256
  {
    w - PAGE <= b < w && Usable(info, info[0], w - 1) && Usable(info, info[0], w)
  }

  lemma WallBytes(info: seq<u32>, l: seq<Block>, b: int)
    requires GoodReport(info) && forall c :: Covers(l, c) <==> Usable(info, info[0], c)
    ensures GivenUp(l, b) <==> InGivenUpPage(info, KWALL, b) || InGivenUpPage(info, WALL, b) || InGivenUpPage(info, UWALL, b)
  {}

  /** A report with one bad page, the second below the 6M wall, and the end of memory. */
  lemma BadReportExists() returns (info: seq<u32>)
    ensures GoodReport(info) && BadReport(info, KWALL) && !Normal(SplitAll(BootAfter(info, info[0]).blocks))
  {
    info := [2, KWALL - 2 * PAGE, MEMEND] + seq<u32>(253, _ => 0);
    BadBelowWall(info);
    BootList(info);
  }

  lemma BadBelowWall(info: seq<u32>)
    requires |info| == 256 && info[0] == 2 && info[1] == KWALL - 2 * PAGE && info[2] == MEMEND
    ensures GoodReport(info) && BadReport(info, KWALL)
  {
    assert info[1] <= KWALL - PAGE - 1 < info[1] + PAGE;
  }

  /** After init the list holds every usable byte but the page below each wall that lies in the
      middle of usable memory, and it never touches both sides of a wall. It is in order, and normal
      exactly when no wall has usable pages on both sides and an unusable page two below. */
  lemma BootList(info: seq<u32>)
    requires GoodReport(info)
    ensures var l := SplitAll(BootAfter(info, info[0]).blocks);
            && Sorted(l) && PageAligned(l) && Walled(l, KWALL) && Walled(l, WALL) && Walled(l, UWALL)
            && (Normal(l) <==> !BadReport(info, KWALL) && !BadReport(info, WALL) && !BadReport(info, UWALL))
            && forall b :: Covers(l, b) <==>
                 && Usable(info, info[0], b)
                 && !InGivenUpPage(info, KWALL, b)
                 && !InGivenUpPage(info, WALL, b)
                 && !InGivenUpPage(info, UWALL, b)
  {
    BootIsUsable(info, info[0]);
    var l := BootAfter(info, info[0]).blocks;
    SplitAllNormal(l);
    forall b ensures Covers(SplitAll(l), b) <==>
        && Usable(info, info[0], b)
        && !InGivenUpPage(info, KWALL, b) && !InGivenUpPage(info, WALL, b) && !InGivenUpPage(info, UWALL, b)
    {
      WallBytes(info, l, b);
    }
  }

  // ---------------------------------------------------------------------------------------
  // Runs of allocations and frees

  datatype Zone = Kernel4K | KernelHeap | UserHeap | User4K {
    function Lo(): u32 {
      match this case Kernel4K => MEMSTART case KernelHeap => KWALL case UserHeap => WALL case User4K => UWALL
    }
    function Hi(): u32 {
      match this case Kernel4K => KWALL case KernelHeap => WALL case UserHeap => UWALL case User4K => MEMEND
    }
    predicate Paged() { Kernel4K? || User4K? }
  }

  /** A region some caller holds and the zone it was asked from. */
  datatype Grant = Grant(zone: Zone, region: Block)

  datatype Heap = Heap(blocks: seq<Block>, grants: seq<Grant>, lost: nat)

  datatype Op = Take(zone: Zone, size: u32) | Give(which: nat)

  function AskSize(z: Zone, size: u32): u32 { if z.Paged() then PAGE else size }

  function TakeStep(h: Heap, z: Zone, size: u32): Heap {
    var i := FirstFit(h.blocks, z.Lo(), z.Hi(), size);
    if i == |h.blocks| then h
    else Heap(Taken(h.blocks, i, size), h.grants + [Grant(z, Cut(h.blocks, i, size))], h.lost)
  }

  /** The four allocators, with their bounds, are the allocations of the four zones. */
  lemma TakeIsAlloc(h: Heap, size: u32, a: u32, m: seq<Block>)
    requires a != FAILED
    ensures AllocSpec(h.blocks, 0x80_0000, 0x100_0000, size, a, m) ==> TookFrom(h, UserHeap, size, a, m)
    ensures AllocSpec(h.blocks, 0x60_0000, 0x80_0000, size, a, m) ==> TookFrom(h, KernelHeap, size, a, m)
    ensures AllocSpec(h.blocks, 0x100_0000, 0x200_0000, PAGE, a, m) ==> TookFrom(h, User4K, PAGE, a, m)
    ensures AllocSpec(h.blocks, 0x40_0000, 0x60_0000, PAGE, a, m) ==> TookFrom(h, Kernel4K, PAGE, a, m)
  {
  }

  predicate TookFrom(h: Heap, z: Zone, size: u32, a: u32, m: seq<Block>) {
    TakeStep(h, z, size) == Heap(m, h.grants + [Grant(z, Block(a, size))], h.lost)
  }

  /** The holder of grant k frees exactly that region. */
  function GiveStep(h: Heap, k: nat): Heap
    requires k < |h.grants|
  {
    var r := h.grants[k].region;
    Heap(FreeStep(h.blocks, r), h.grants[..k] + h.grants[k + 1..],
         h.lost + if HasRoom(h.blocks, r) then 0 else r.size)
  }

  function Step(h: Heap, op: Op): Heap {
    match op
    case Take(z, size) => TakeStep(h, z, AskSize(z, size))
    case Give(k) => if k < |h.grants| then GiveStep(h, k) else h
  }

  function Run(h: Heap, ops: seq<Op>): Heap {
    if ops == [] then h else Step(Run(h, ops[..|ops| - 1]), ops[|ops| - 1])
  }

  function GrantTotal(g: seq<Grant>): nat {
    if g == [] then 0 else GrantTotal(g[..|g| - 1]) + g[|g| - 1].region.size
  }

  lemma {:induction false} GrantTotalAppend(a: seq<Grant>, c: seq<Grant>)
    ensures GrantTotal(a + c) == GrantTotal(a) + GrantTotal(c)
  {
    if c == [] {
      assert a + c == a;
    } else {
      assert (a + c)[..|a + c| - 1] == a + c[..|c| - 1];
      GrantTotalAppend(a, c[..|c| - 1]);
    }
  }

  lemma GrantTotalRemove(g: seq<Grant>, k: nat)
    requires k < |g|
    ensures GrantTotal(g[..k] + g[k + 1..]) == GrantTotal(g) - g[k].region.size
  {
    var head, tail := g[..k], g[k + 1..];
    CutAt(g, k, head, tail);
    GrantTotalMiddle(head, g[k], tail);
  }

  lemma CutAt(g: seq<Grant>, k: nat, head: seq<Grant>, tail: seq<Grant>)
    requires k < |g| && head == g[..k] && tail == g[k + 1..]
    ensures head + [g[k]] + tail == g
  {
  }

  lemma GrantTotalMiddle(head: seq<Grant>, x: Grant, tail: seq<Grant>)
    ensures GrantTotal(head + [x] + tail) == GrantTotal(head + tail) + x.region.size
  {
    GrantTotalAppend(head + [x], tail);
    GrantTotalAppend(head, tail);
    GrantTotalPush(head, x);
  }

  predicate InPagedZone(b: int) { MEMSTART <= b < KWALL || UWALL <= b }

  /** In the two page zones a whole page is free or none of it is. */
  ghost predicate PageUniform(l: seq<Block>) {
    forall b :: InPagedZone(b) ==> (Covers(l, b) <==> Covers(l, b - b % PAGE))
  }

  /** What boot guarantees of the memory it makes available. */
  ghost predicate GoodBase(base: seq<Block>) {
    && Sorted(base) && PageUniform(base)
    && Walled(base, KWALL) && Walled(base, WALL) && Walled(base, UWALL)
  }

  ghost predicate GrantOk(g: Grant, base: seq<Block>) {
    && g.zone.Lo() <= g.region.addr && g.region.End() < g.zone.Hi()
    && (g.zone.Paged() ==> g.region.size == PAGE && g.region.addr % PAGE == 0)
    && forall b :: g.region.Has(b) ==> Covers(base, b)
  }

  /** No empty extent lies where memory was ever available. */
  ghost predicate EmptiesOutside(l: seq<Block>, base: seq<Block>) { forall y :: y in l && y.size == 0 ==> !Covers(base, y.addr) }

  ghost predicate Inv(h: Heap, base: seq<Block>) {
    && Sorted(h.blocks) && PageUniform(h.blocks) && EmptiesOutside(h.blocks, base)
    && (forall b :: Covers(h.blocks, b) ==> Covers(base, b))
    && (forall k :: 0 <= k < |h.grants| ==> GrantOk(h.grants[k], base))
    && (forall k, b :: 0 <= k < |h.grants| && h.grants[k].region.Has(b) ==> !Covers(h.blocks, b))
    && (forall k, m, b :: 0 <= k < m < |h.grants| && h.grants[k].region.Has(b) ==> !h.grants[m].region.Has(b))
    && Total(h.blocks) + GrantTotal(h.grants) + h.lost == Total(base)
  }

  lemma SamePage(a: int)
    requires InPagedZone(a) && a % PAGE != 0
    ensures InPagedZone(a - 1) && (a - 1) - (a - 1) % PAGE == a - a % PAGE
  {}

  lemma UniformAt(l: seq<Block>, b: int)
    requires PageUniform(l) && InPagedZone(b)
    ensures Covers(l, b) <==> Covers(l, b - b % PAGE)
  {}

  /** Where whole pages are free, an extent starts on a page boundary. */
  lemma ExtentAligned(l: seq<Block>, i: nat)
    requires Sorted(l) && PageUniform(l) && i < |l| && l[i].size > 0 && InPagedZone(l[i].addr)
    ensures l[i].addr % PAGE == 0
  {
    var a := l[i].addr;
    EdgesUncovered(l, i);
    assert l[i].Has(a);
    assert Covers(l, a) && !Covers(l, a - 1);
    UniformAt(l, a);
    if a % PAGE != 0 {
      SamePage(a);
      UniformAt(l, a - 1);
    }
  }

  /** Adding or removing whole pages of a page zone, or anything outside, keeps uniformity. */
  lemma UniformUnderPages(l: seq<Block>, m: seq<Block>, g: Grant)
    requires PageUniform(l) && (IsUnion(m, l, g.region) || IsDifference(m, l, g.region))
    requires g.zone.Lo() <= g.region.addr && g.region.End() < g.zone.Hi()
    requires g.zone.Paged() ==> g.region.size == PAGE && g.region.addr % PAGE == 0
    ensures PageUniform(m)
  {
    forall b | InPagedZone(b) ensures Covers(m, b) <==> Covers(m, b - b % PAGE) {
      SamePageHas(g, b);
    }
  }

  lemma SamePageHas(g: Grant, b: int)
    requires g.zone.Lo() <= g.region.addr && g.region.End() < g.zone.Hi()
    requires g.zone.Paged() ==> g.region.size == PAGE && g.region.addr % PAGE == 0
    requires InPagedZone(b)
    ensures g.region.Has(b) <==> g.region.Has(b - b % PAGE)
  {}

  /** Handing out free bytes keeps the invariant. */
  lemma NewGrant(h: Heap, base: seq<Block>, m: seq<Block>, g: Grant)
    requires Inv(h, base) && Sorted(m) && NoNewEmpty(h.blocks, m) && PageUniform(m) && IsDifference(m, h.blocks, g.region)
    requires forall b :: g.region.Has(b) ==> Covers(h.blocks, b)
    requires Total(m) == Total(h.blocks) - g.region.size
    requires GrantOk(g, base)
    ensures Inv(Heap(m, h.grants + [g], h.lost), base)
  {
  }

  lemma GrantTotalPush(gs: seq<Grant>, g: Grant)
    ensures GrantTotal(gs + [g]) == GrantTotal(gs) + g.region.size
  {
  }

  lemma TakeKeeps(h: Heap, base: seq<Block>, z: Zone, size: u32)
    requires GoodBase(base) && Inv(h, base) && size == AskSize(z, size)
    ensures Inv(TakeStep(h, z, size), base)
  {
    var i := FirstFit(h.blocks, z.Lo(), z.Hi(), size);
    if i < |h.blocks| {
      assert Fits(h.blocks[i], z.Lo(), z.Hi(), size);
      TakenIsDifference(h.blocks, i, size);
      var g := Grant(z, Cut(h.blocks, i, size));
      if z.Paged() { ExtentAligned(h.blocks, i); }
      UniformUnderPages(h.blocks, Taken(h.blocks, i, size), g);
      NewGrant(h, base, Taken(h.blocks, i, size), g);
    }
  }

  lemma GiveFrees(h: Heap, base: seq<Block>, k: nat)
    requires GoodBase(base) && Inv(h, base) && k < |h.grants|
    ensures var l, r := h.blocks, h.grants[k].region;
            && Sorted(FreeStep(l, r)) && NoNewEmpty(l, FreeStep(l, r)) && PageUniform(FreeStep(l, r))
            && (HasRoom(l, r) ==> IsUnion(FreeStep(l, r), l, r) && Total(FreeStep(l, r)) == Total(l) + r.size)
  {
    var l, g := h.blocks, h.grants[k];
    if HasRoom(l, g.region) && g.region.size > 0 {
      ApartByBytes(l, g.region);
      FreedIsUnion(l, g.region);
      FreedTotal(l, g.region);
      UniformUnderPages(l, Freed(l, g.region), g);
    }
  }

  lemma GiveKeeps(h: Heap, base: seq<Block>, k: nat)
    requires GoodBase(base) && Inv(h, base) && k < |h.grants|
    ensures Inv(GiveStep(h, k), base)
  {
    GiveFrees(h, base, k);
    GrantTotalRemove(h.grants, k);
    RestApart(h, base, k);
  }

  lemma RestApart(h: Heap, base: seq<Block>, k: nat)
    requires Inv(h, base) && k < |h.grants|
    ensures var gs := h.grants[..k] + h.grants[k + 1..];
            && (forall j :: 0 <= j < |gs| ==> GrantOk(gs[j], base))
            && (forall j, b :: 0 <= j < |gs| && gs[j].region.Has(b) ==>
                  !Covers(h.blocks, b) && !h.grants[k].region.Has(b))
            && (forall j, m, b :: 0 <= j < m < |gs| && gs[j].region.Has(b) ==> !gs[m].region.Has(b))
  {
  }

  lemma EmptiesUncovered(l: seq<Block>)
    requires Sorted(l)
    ensures EmptiesOutside(l, l)
  {
    forall y | y in l && y.size == 0 ensures !Covers(l, y.addr) {
      var i :| 0 <= i < |l| && l[i] == y;
      EdgesUncovered(l, i);
    }
  }

  lemma {:induction false} RunKeeps(base: seq<Block>, ops: seq<Op>)
    requires GoodBase(base)
    ensures Inv(Run(Heap(base, [], 0), ops), base)
  {
    if ops == [] {
      EmptiesUncovered(base);
    } else {
      RunKeeps(base, ops[..|ops| - 1]);
      var h := Run(Heap(base, [], 0), ops[..|ops| - 1]);
      match ops[|ops| - 1]
      case Take(z, size) => TakeKeeps(h, base, z, AskSize(z, size));
      case Give(k) => if k < |h.grants| { GiveKeeps(h, base, k); }
    }
  }

  lemma WallNotCrossed(l: seq<Block>, base: seq<Block>, i: nat, w: int)
    requires Walled(base, w) && i < |l| && forall b :: Covers(l, b) ==> Covers(base, b)
    ensures !(l[i].addr < w < l[i].End())
  {
  }

  /** In every reachable state no free extent crosses a wall, every held region lies in the
      zone it was asked from, page grants are pages, held regions overlap neither each other
      nor the free list, and no byte is gained or lost: free, held and given-up bytes add up. */
  lemma ZoneSeparation(info: seq<u32>, ops: seq<Op>)
    requires GoodReport(info)
    ensures var base := SplitAll(BootAfter(info, info[0]).blocks);
            var h := Run(Heap(base, [], 0), ops);
            && Inv(h, base)
            && forall i :: 0 <= i < |h.blocks| ==>
                 && !(h.blocks[i].addr < KWALL < h.blocks[i].End())
                 && !(h.blocks[i].addr < WALL < h.blocks[i].End())
                 && !(h.blocks[i].addr < UWALL < h.blocks[i].End())
  {
    var base := SplitAll(BootAfter(info, info[0]).blocks);
    BootList(info);
    AlignedUniform(base);
    RunKeeps(base, ops);
    var h := Run(Heap(base, [], 0), ops);
    forall i | 0 <= i < |h.blocks|
      ensures !(h.blocks[i].addr < KWALL < h.blocks[i].End())
      ensures !(h.blocks[i].addr < WALL < h.blocks[i].End())
      ensures !(h.blocks[i].addr < UWALL < h.blocks[i].End())
    {
      WallNotCrossed(h.blocks, base, i, KWALL);
      WallNotCrossed(h.blocks, base, i, WALL);
      WallNotCrossed(h.blocks, base, i, UWALL);
    }
  }

  lemma SamePageInBlock(x: Block, b: int)
    requires x.addr % PAGE == 0 && x.size % PAGE == 0
    ensures x.Has(b) <==> x.Has(b - b % PAGE)
  {
  }

  lemma AlignedUniform(l: seq<Block>)
    requires PageAligned(l)
    ensures PageUniform(l)
  {
    forall b | InPagedZone(b) ensures Covers(l, b) <==> Covers(l, b - b % PAGE) {
      forall i | 0 <= i < |l| ensures l[i].Has(b) <==> l[i].Has(b - b % PAGE) {
        SamePageInBlock(l[i], b);
      }
    }
  }
}
