/** fork_mem_cpy: the child gets the parent's text frames and fresh copies of everything else,
    each copy made through the parent's scratch page (kernel/fork.c:101-184). */
module Fork {
  import opened Basics
  import opened Paging
  import opened PageMap

  const SHARE_BASE: u32 := 0x47FF_F000
  const USER_RW: u32 := 7
  const USER_R: u32 := 5

  function SharePage(): Page { PageOf(SHARE_BASE) }

  // ---------------------------------------------------------------------------------------
  // One page

  /** The kernel frames still needed for tables: those of the child among the table numbers ts,
      and the parent's table for the scratch page. */
  ghost function Missing(mem: Memory, d: nat, ts: set<nat>): set<nat>
    requires d < |mem|
  {
    set i | i in ts && i < ENTRIES && !HasTable(mem, d, i)
  }

  ghost function ShareMissing(mem: Memory, d: nat): nat
    requires d < |mem|
  {
    if HasTable(mem, d, SharePage() / ENTRIES) then 0 else 1
  }

  ghost predicate Enough(mem: Memory, pd: nat, cd: nat, ts: set<nat>, kpool: seq<nat>)
    requires pd < |mem| && cd < |mem|
  {
    |kpool| >= |Missing(mem, cd, ts)| + ShareMissing(mem, pd)
  }

  /** Making the parent's scratch table uses up one frame if it was missing. */
  lemma EnoughAfterShare(mem: Memory, mem': Memory, dirs: set<nat>, pd: nat, cd: nat, ts: set<nat>, kpool: seq<nat>)
    requires pd in dirs && cd in dirs && pd != cd && forall e :: e in dirs ==> e < |mem| && e < |mem'|
    requires Enough(mem, pd, cd, ts, kpool) && TablesAdded(mem, mem', dirs, pd, SharePage() / ENTRIES)
    ensures Enough(mem', pd, cd, ts, TableTaken(mem, kpool, pd, SharePage() / ENTRIES))
  {
    assert Missing(mem', cd, ts) == Missing(mem, cd, ts);
  }

  /** Making one of the child's tables uses up one frame if it was missing. */
  lemma EnoughAfterChild(mem: Memory, mem': Memory, dirs: set<nat>, pd: nat, cd: nat, ts: set<nat>, kpool: seq<nat>, i: nat)
    requires pd in dirs && cd in dirs && pd != cd && forall e :: e in dirs ==> e < |mem| && e < |mem'|
    requires Enough(mem, pd, cd, ts, kpool) && TablesAdded(mem, mem', dirs, cd, i) && i in ts
    ensures Enough(mem', pd, cd, ts, TableTaken(mem, kpool, cd, i))
  {
    assert Missing(mem', cd, ts) == Missing(mem, cd, ts) - {i};
    assert ShareMissing(mem', pd) == ShareMissing(mem, pd);
  }

  lemma NeedsOne(mem: Memory, pd: nat, cd: nat, ts: set<nat>, kpool: seq<nat>, i: nat)
    requires pd < |mem| && cd < |mem| && Enough(mem, pd, cd, ts, kpool) && i in ts && i < ENTRIES && !HasTable(mem, cd, i)
    ensures kpool != []
  {
    assert i in Missing(mem, cd, ts);
  }

  /** get_page_phy_addr: the frame address in the page's table entry. */
  method GetPagePhyAddr(m: Machine, pid: nat, lin: u32) returns (a: u32)
    requires m.Valid() && pid in m.cr3 && m.cr3[pid] != 0 && Trans(m.mem, FrameOf(m.cr3[pid]), PageOf(lin)).Some?
    ensures a == PAGE * Trans(m.mem, FrameOf(m.cr3[pid]), PageOf(lin)).value.frame
  {
    IndexSplit(lin);
    var dir := FrameOf(m.cr3[pid]);
    var t := FrameOf(m.mem[dir][PdeIndex(lin)]);
    a := FrameOf(m.mem[t][PteIndex(lin)]) * PAGE;
  }

  /** memcpy of one page between two pages of the running process. */
  method CopyFrame(m: Machine, pid: nat, to: u32, from: u32)
    requires m.Valid() && pid in m.cr3 && m.cr3[pid] != 0
    requires var d := FrameOf(m.cr3[pid]);
             && Trans(m.mem, d, PageOf(to)).Some? && Trans(m.mem, d, PageOf(from)).Some?
             && Plain(m.mem, m.dirs, Trans(m.mem, d, PageOf(to)).value.frame)
             && Trans(m.mem, d, PageOf(from)).value.frame < |m.mem|
    modifies m`mem
    ensures m.Valid() && SameTrans(old(m.mem), m.mem, m.dirs) && SameDirs(old(m.mem), m.mem, m.dirs)
    ensures var d := FrameOf(m.cr3[pid]);
            m.mem == old(m.mem)[old(Trans(m.mem, d, PageOf(to))).value.frame := old(m.mem)[old(Trans(m.mem, d, PageOf(from))).value.frame]]
    ensures forall g :: Plain(old(m.mem), m.dirs, g) ==> Plain(m.mem, m.dirs, g)
  {
    var a := GetPagePhyAddr(m, pid, to);
    var b := GetPagePhyAddr(m, pid, from);
    assert a / PAGE == Trans(m.mem, FrameOf(m.cr3[pid]), PageOf(to)).value.frame;
    assert b / PAGE == Trans(m.mem, FrameOf(m.cr3[pid]), PageOf(from)).value.frame;
    PlainWrite(m.mem, m.dirs, a / PAGE, m.mem[b / PAGE]);
    m.mem := m.mem[a / PAGE := m.mem[b / PAGE]];
  }

  /** Two live processes with directories of their own. */
  ghost predicate Pair(m: Machine, ppid: nat, pid: nat, pd: nat, cd: nat)
    reads m
  {
    && m.Valid() && ppid in m.cr3 && pid in m.cr3 && m.cr3[ppid] != 0 && m.cr3[pid] != 0
    && FrameOf(m.cr3[ppid]) == pd && FrameOf(m.cr3[pid]) == cd && pd != cd
  }

  /** Only the parent's scratch page may be translated differently, and it is translated to x. */
  ghost predicate OnlyShare(mem: Memory, mem': Memory, dirs: set<nat>, pd: nat, x: Option<Mapping>)
    requires forall d :: d in dirs ==> d < |mem| && d < |mem'|
  {
    forall e, q: Page :: e in dirs ==> Trans(mem', e, q) == if e == pd && q == SharePage() then x else Trans(mem, e, q)
  }

  /** The mapping of the scratch page is cleared. */
  method ClearShare(m: Machine, ppid: nat, pid: nat, ghost pd: nat, ghost cd: nat, ghost ts: set<nat>)
    requires Pair(m, ppid, pid, pd, cd) && Enough(m.mem, pd, cd, ts, m.kpool)
    modifies m`mem, m`kpool, m`upool
    ensures Pair(m, ppid, pid, pd, cd) && Enough(m.mem, pd, cd, ts, m.kpool) && m.upool == old(m.upool)
    ensures Kept(old(m.mem), m.mem, m.dirs, old(m.kpool)) && forall f :: f in m.kpool ==> f in old(m.kpool)
    ensures OnlyShare(old(m.mem), m.mem, m.dirs, pd, None)
  {
    ghost var m0, k0 := m.mem, m.kpool;
    EntryFields(0, 0);
    var r; ghost var wrote, w;
    r, wrote, w := m.LinMappingPhy(SHARE_BASE, 0, ppid, USER_RW, 0);
    EnoughAfterShare(m0, m.mem, m.dirs, pd, cd, ts, k0);
  }

  /** A fresh user frame is mapped at the scratch page, which has none. */
  method MapShare(m: Machine, ppid: nat, pid: nat, ghost pd: nat, ghost cd: nat, ghost ts: set<nat>)
    requires Pair(m, ppid, pid, pd, cd) && m.upool != [] && Enough(m.mem, pd, cd, ts, m.kpool) && Trans(m.mem, pd, SharePage()) == None
    modifies m`mem, m`kpool, m`upool
    ensures Pair(m, ppid, pid, pd, cd) && Enough(m.mem, pd, cd, ts, m.kpool) && m.upool == old(m.upool)[1..]
    ensures Kept(old(m.mem), m.mem, m.dirs, old(m.kpool)) && forall f :: f in m.kpool ==> f in old(m.kpool)
    ensures OnlyShare(old(m.mem), m.mem, m.dirs, pd, Some(Mapping(old(m.upool)[0], USER_RW)))
  {
    ghost var m0, k0, u := m.mem, m.kpool, m.upool[0];
    var r; ghost var wrote, w;
    r, wrote, w := m.LinMappingPhy(SHARE_BASE, MAX_UNSIGNED_INT, ppid, USER_RW, USER_RW);
    EnoughAfterShare(m0, m.mem, m.dirs, pd, cd, ts, k0);
    EntryFields(PAGE * u, USER_RW);
  }

  /** The scratch page of the parent is remapped to a fresh user frame. */
  method FreshShare(m: Machine, ppid: nat, pid: nat, ghost pd: nat, ghost cd: nat, ghost ts: set<nat>)
    requires Pair(m, ppid, pid, pd, cd) && m.upool != [] && Enough(m.mem, pd, cd, ts, m.kpool)
    modifies m`mem, m`kpool, m`upool
    ensures Pair(m, ppid, pid, pd, cd) && Enough(m.mem, pd, cd, ts, m.kpool) && m.upool == old(m.upool)[1..]
    ensures Kept(old(m.mem), m.mem, m.dirs, old(m.kpool)) && forall f :: f in m.kpool ==> f in old(m.kpool)
    ensures OnlyShare(old(m.mem), m.mem, m.dirs, pd, Some(Mapping(old(m.upool)[0], USER_RW)))
  {
    ClearShare(m, ppid, pid, pd, cd, ts);
    MapShare(m, ppid, pid, pd, cd, ts);
  }

  /** One page of a region that is not shared: a fresh frame with the parent's words is mapped
      in the child, and in the parent only the scratch page moves. */
  method CopyPage(m: Machine, ppid: nat, pid: nat, ghost pd: nat, ghost cd: nat, ghost ts: set<nat>, addr: u32)
    requires Pair(m, ppid, pid, pd, cd) && m.upool != [] && Enough(m.mem, pd, cd, ts, m.kpool)
    requires PageOf(addr) / ENTRIES in ts && PageOf(addr) != SharePage()
    requires Trans(m.mem, pd, PageOf(addr)).Some?
    requires var f := Trans(m.mem, pd, PageOf(addr)).value.frame;
             Plain(m.mem, m.dirs, f) && f !in m.kpool && f !in m.upool
    modifies m`mem, m`kpool, m`upool
    ensures Pair(m, ppid, pid, pd, cd) && Enough(m.mem, pd, cd, ts, m.kpool) && m.upool == old(m.upool)[1..]
    ensures forall f :: f in m.kpool ==> f in old(m.kpool)
    ensures forall e, q: Page :: e in m.dirs ==>
              Trans(m.mem, e, q) ==
              if (e == pd && q == SharePage()) || (e == cd && q == PageOf(addr)) then Some(Mapping(old(m.upool)[0], USER_RW))
              else old(Trans(m.mem, e, q))
    ensures KeptBut(old(m.mem), m.mem, m.dirs, old(m.kpool), old(m.upool)[0])
    ensures m.mem[old(m.upool)[0]] == old(m.mem)[old(Trans(m.mem, pd, PageOf(addr))).value.frame]
  {
    ghost var m0, u := m.mem, m.upool[0];
    var a := FillShare(m, ppid, pid, pd, cd, ts, addr);
    ghost var m2 := m.mem;
    MapInChild(m, ppid, pid, pd, cd, ts, addr, a, USER_RW);
    assert m.mem[u] == m2[u];
  }

  /** The first three statements of the loop body: the scratch page gets a fresh frame with the
      words of page addr. The frame's address is what get_page_phy_addr then returns. */
  method FillShare(m: Machine, ppid: nat, pid: nat, ghost pd: nat, ghost cd: nat, ghost ts: set<nat>, addr: u32) returns (a: u32)
    requires Pair(m, ppid, pid, pd, cd) && m.upool != [] && Enough(m.mem, pd, cd, ts, m.kpool)
    requires PageOf(addr) != SharePage() && Trans(m.mem, pd, PageOf(addr)).Some?
    requires var f := Trans(m.mem, pd, PageOf(addr)).value.frame;
             Plain(m.mem, m.dirs, f) && f !in m.kpool && f !in m.upool
    modifies m`mem, m`kpool, m`upool
    ensures Pair(m, ppid, pid, pd, cd) && Enough(m.mem, pd, cd, ts, m.kpool) && m.upool == old(m.upool)[1..]
    ensures forall f :: f in m.kpool ==> f in old(m.kpool)
    ensures forall e, q: Page :: e in m.dirs ==>
              Trans(m.mem, e, q) == if e == pd && q == SharePage() then Some(Mapping(old(m.upool)[0], USER_RW)) else old(Trans(m.mem, e, q))
    ensures KeptBut(old(m.mem), m.mem, m.dirs, old(m.kpool), old(m.upool)[0])
    ensures m.mem[old(m.upool)[0]] == old(m.mem)[old(Trans(m.mem, pd, PageOf(addr))).value.frame]
    ensures Plain(m.mem, m.dirs, old(m.upool)[0]) && old(m.upool)[0] !in m.kpool
    ensures a == PAGE * old(m.upool)[0] && a / PAGE == old(m.upool)[0] && a % PAGE == 0 && a != MAX_UNSIGNED_INT
  {
    ghost var m0, u := m.mem, m.upool[0];
    ghost var f := Trans(m0, pd, PageOf(addr)).value.frame;
    PoolTail(m.mem, m.dirs, m.kpool, m.upool);
    assert Plain(m0, m.dirs, u);
    FreshShare(m, ppid, pid, pd, cd, ts);
    ghost var m1 := m.mem;
    CopyFrame(m, ppid, SHARE_BASE, addr);
    EnoughSameDirs(m1, m.mem, m.dirs, pd, cd, ts, m.kpool);
    a := GetPagePhyAddr(m, ppid, SHARE_BASE);
  }

  /** Plain frames other than u that were not free kernel frames still hold the same words. */
  ghost predicate KeptBut(mem: Memory, mem': Memory, dirs: set<nat>, kpool: seq<nat>, u: nat)
    requires forall d :: d in dirs ==> d < |mem| && d < |mem'|
  {
    && |mem'| == |mem| && u < |mem|
    && (forall f: nat :: Plain(mem, dirs, f) && f !in kpool ==> Plain(mem', dirs, f))
    && (forall f: nat :: Plain(mem, dirs, f) && f !in kpool && f != u ==> mem'[f] == mem[f])
  }

  lemma EnoughSameDirs(mem: Memory, mem': Memory, dirs: set<nat>, pd: nat, cd: nat, ts: set<nat>, kpool: seq<nat>)
    requires pd in dirs && cd in dirs && (forall e :: e in dirs ==> e < |mem|) && SameDirs(mem, mem', dirs)
    requires Enough(mem, pd, cd, ts, kpool)
    ensures Enough(mem', pd, cd, ts, kpool)
  {
    assert Missing(mem', cd, ts) == Missing(mem, cd, ts);
  }

  /** A page address passes lin_mapping_phy's test for a multiple of 1024. */
  lemma PageAligned(a: u32)
    requires a % PAGE == 0
    ensures a % 1024 == 0
  {
    assert a == 1024 * (4 * (a / PAGE));
  }

  /** lin_mapping_phy for the child with the frame given. */
  method MapInChild(m: Machine, ghost ppid: nat, pid: nat, ghost pd: nat, ghost cd: nat, ghost ts: set<nat>, addr: u32, a: u32, attr: u32)
    requires Pair(m, ppid, pid, pd, cd) && Enough(m.mem, pd, cd, ts, m.kpool) && PageOf(addr) / ENTRIES in ts
    requires a % PAGE == 0 && a != MAX_UNSIGNED_INT && attr < PAGE && Present(attr)
    modifies m`mem, m`kpool, m`upool
    ensures Pair(m, ppid, pid, pd, cd) && Enough(m.mem, pd, cd, ts, m.kpool) && m.upool == old(m.upool)
    ensures forall f :: f in m.kpool ==> f in old(m.kpool)
    ensures Kept(old(m.mem), m.mem, m.dirs, old(m.kpool))
    ensures forall e, q: Page :: e in m.dirs ==>
              Trans(m.mem, e, q) == if e == cd && q == PageOf(addr) then Some(Mapping(a / PAGE, attr)) else old(Trans(m.mem, e, q))
  {
    ghost var m0, k0 := m.mem, m.kpool;
    if !HasTable(m.mem, cd, PageOf(addr) / ENTRIES) { NeedsOne(m.mem, pd, cd, ts, m.kpool, PageOf(addr) / ENTRIES); }
    PageAligned(a);
    var r; ghost var wrote, w;
    r, wrote, w := m.LinMappingPhy(addr, a, pid, USER_RW, attr);
    EntryFields(a, attr);
    EnoughAfterChild(m0, m.mem, m.dirs, pd, cd, ts, k0, PageOf(addr) / ENTRIES);
  }

  /** One page of the text region: the parent's frame, read-only. */
  method ShareTextPage(m: Machine, ppid: nat, pid: nat, ghost pd: nat, ghost cd: nat, ghost ts: set<nat>, addr: u32)
    requires Pair(m, ppid, pid, pd, cd) && Enough(m.mem, pd, cd, ts, m.kpool) && PageOf(addr) / ENTRIES in ts
    requires Trans(m.mem, pd, PageOf(addr)).Some? && Trans(m.mem, pd, PageOf(addr)).value.frame < |m.mem|
    modifies m`mem, m`kpool, m`upool
    ensures Pair(m, ppid, pid, pd, cd) && Enough(m.mem, pd, cd, ts, m.kpool) && m.upool == old(m.upool)
    ensures forall f :: f in m.kpool ==> f in old(m.kpool)
    ensures Kept(old(m.mem), m.mem, m.dirs, old(m.kpool))
    ensures forall e, q: Page :: e in m.dirs ==>
              Trans(m.mem, e, q) ==
              if e == cd && q == PageOf(addr) then Some(Mapping(old(Trans(m.mem, pd, PageOf(addr))).value.frame, USER_R))
              else old(Trans(m.mem, e, q))
  {
    var a := GetPagePhyAddr(m, ppid, addr);
    ghost var f := Trans(m.mem, pd, PageOf(addr)).value.frame;
    assert a % PAGE == 0 && a / PAGE == f;
    MapInChild(m, ppid, pid, pd, cd, ts, addr, a, USER_R);
  }

  // ---------------------------------------------------------------------------------------
  // The whole address space

  /** The machine before the copy. */
  datatype Before = Before(mem: Memory, kpool: seq<nat>, upool: seq<nat>, dirs: set<nat>, pd: nat, cd: nat)

  ghost predicate GoodBefore(b: Before) {
    && b.pd in b.dirs && b.cd in b.dirs && b.pd != b.cd
    && WellFormed(b.mem, b.dirs) && PoolOk(b.mem, b.dirs, b.kpool, b.upool)
  }

  /** Page p of the parent is mapped to a frame of its own that holds data. */
  ghost predicate Copyable(b: Before, p: Page)
    requires GoodBefore(b)
  {
    && p != SharePage() && Trans(b.mem, b.pd, p).Some?
    && var f := Trans(b.mem, b.pd, p).value.frame; Plain(b.mem, b.dirs, f) && f !in b.kpool && f !in b.upool
  }

  /** The parent's frame of page p before the copy. */
  ghost function Frame0(b: Before, p: Page): nat
    requires GoodBefore(b) && Copyable(b, p)
  {
    Trans(b.mem, b.pd, p).value.frame
  }

  /** After the text pages and then the pages done were dealt with: text pages share the parent's
      frames, the k-th copied page has the k-th free user frame with the parent's words in it,
      and nothing else is translated differently but the parent's scratch page. */
  ghost predicate Forked(b: Before, mem: Memory, kpool: seq<nat>, upool: seq<nat>, text: seq<Page>, done: seq<Page>) {
    && GoodBefore(b) && |mem| == |b.mem| && |done| <= |b.upool|
    && (forall p :: p in text ==> Copyable(b, p)) && (forall p :: p in done ==> Copyable(b, p))
    && upool == b.upool[|done|..] && (forall f :: f in kpool ==> f in b.kpool)
    && (forall p :: p in text ==> Trans(mem, b.cd, p) == Some(Mapping(Frame0(b, p), USER_R)))
    && (forall k :: 0 <= k < |done| ==> Trans(mem, b.cd, done[k]) == Some(Mapping(b.upool[k], USER_RW)))
    && (forall k :: 0 <= k < |done| ==> b.upool[k] < |mem| && mem[b.upool[k]] == b.mem[Frame0(b, done[k])])
    && (forall f: nat :: Plain(b.mem, b.dirs, f) && f !in b.kpool ==> Plain(mem, b.dirs, f))
    && (forall f: nat :: Plain(b.mem, b.dirs, f) && f !in b.kpool && f !in b.upool ==> mem[f] == b.mem[f])
    && (forall e, q: Page :: e in b.dirs && !(e == b.pd && q == SharePage()) && !(e == b.cd && (q in text || q in done)) ==>
          Trans(mem, e, q) == Trans(b.mem, e, q))
  }

  lemma StillCopyable(b: Before, mem: Memory, kpool: seq<nat>, upool: seq<nat>, text: seq<Page>, done: seq<Page>, p: Page)
    requires Forked(b, mem, kpool, upool, text, done) && Copyable(b, p)
    ensures Trans(mem, b.pd, p) == Trans(b.mem, b.pd, p)
    ensures Plain(mem, b.dirs, Frame0(b, p)) && Frame0(b, p) !in kpool && Frame0(b, p) !in upool
    ensures mem[Frame0(b, p)] == b.mem[Frame0(b, p)]
  {
  }

  /** What copying page p changes, seen from the memory before and after. */
  ghost predicate PageCopied(b: Before, mem: Memory, mem': Memory, kpool: seq<nat>, u: nat, p: Page) {
    && GoodBefore(b) && Copyable(b, p) && |mem'| == |mem| == |b.mem| && u < |mem|
    && KeptBut(mem, mem', b.dirs, kpool, u) && mem'[u] == b.mem[Frame0(b, p)]
    && forall e, q: Page :: e in b.dirs ==>
         Trans(mem', e, q) ==
         if (e == b.pd && q == SharePage()) || (e == b.cd && q == p) then Some(Mapping(u, USER_RW)) else Trans(mem, e, q)
  }

  lemma FreshIndex(b: Before, k: nat)
    requires GoodBefore(b) && k < |b.upool|
    ensures b.upool[k] !in b.kpool && Plain(b.mem, b.dirs, b.upool[k])
    ensures forall i :: 0 <= i < |b.upool| && i != k ==> b.upool[i] != b.upool[k]
  {
    var all := b.kpool + b.upool;
    assert forall i {:trigger b.upool[i]} :: 0 <= i < |b.upool| ==> all[i + |b.kpool|] == b.upool[i];
    assert forall i {:trigger b.kpool[i]} :: 0 <= i < |b.kpool| ==> all[i] == b.kpool[i];
  }

  lemma ForkStep(b: Before, mem: Memory, kpool: seq<nat>, upool: seq<nat>, mem': Memory, kpool': seq<nat>, text: seq<Page>, done: seq<Page>, p: Page)
    requires Forked(b, mem, kpool, upool, text, done) && |done| < |b.upool| && p !in text && p !in done
    requires PageCopied(b, mem, mem', kpool, b.upool[|done|], p) && forall f :: f in kpool' ==> f in kpool
    ensures Forked(b, mem', kpool', upool[1..], text, done + [p])
  {
    var n := |done|;
    var done' := done + [p];
    FreshIndex(b, n);
    forall k | 0 <= k < |done'|
      ensures Trans(mem', b.cd, done'[k]) == Some(Mapping(b.upool[k], USER_RW))
      ensures b.upool[k] < |mem'| && mem'[b.upool[k]] == b.mem[Frame0(b, done'[k])]
    {
      if k < n {
        FreshIndex(b, k);
        assert done'[k] == done[k] && done[k] in done;
        assert Plain(mem, b.dirs, b.upool[k]) && b.upool[k] !in kpool;
      }
    }
    assert b.upool[n] in b.upool;
    assert upool[1..] == b.upool[n + 1..];
  }

  // ---------------------------------------------------------------------------------------
  // The loops

  /** The pages an upward loop from base to limit visits. */
  function UpPages(base: u32, limit: u32): seq<Page>
    requires limit <= KERNEL_LIN_BASE
    decreases limit - base
  {
    if base >= limit then [] else [PageOf(base)] + UpPages(base + PAGE, limit)
  }

  /** The pages the downward stack loop visits. */
  function DownPages(base: u32, limit: u32): seq<Page>
    requires limit >= PAGE
    decreases base - limit
  {
    if base <= limit then [] else [PageOf(base)] + DownPages(base - PAGE, limit)
  }

  /** A run of pages can be copied next. */
  ghost predicate CanCopy(b: Before, ts: set<nat>, text: seq<Page>, done: seq<Page>, pages: seq<Page>) {
    && GoodBefore(b) && |done| + |pages| <= |b.upool|
    && (forall p :: p in pages ==> Copyable(b, p) && p / ENTRIES in ts && p !in text && p !in done)
    && (forall i, j :: 0 <= i < j < |pages| ==> pages[i] != pages[j])
  }

  lemma CopyRest(b: Before, ts: set<nat>, text: seq<Page>, done: seq<Page>, p: Page, rest: seq<Page>)
    requires CanCopy(b, ts, text, done, [p] + rest)
    ensures Copyable(b, p) && p / ENTRIES in ts && p !in text && p !in done && |done| < |b.upool|
    ensures CanCopy(b, ts, text, done + [p], rest)
  {
    var pages := [p] + rest;
    assert pages[0] == p && p in pages;
    forall q | q in rest ensures Copyable(b, q) && q / ENTRIES in ts && q !in text && q !in done + [p] {
      assert q in pages;
      var i :| 0 <= i < |rest| && rest[i] == q;
      assert pages[i + 1] == q;
    }
    assert forall i {:trigger rest[i]} :: 0 <= i < |rest| ==> rest[i] == pages[i + 1];
  }

  /** After n copies the parent's scratch page is on the frame taken last. */
  ghost predicate ScratchAt(b: Before, mem: Memory, n: nat) {
    b.pd < |mem| && (0 < n <= |b.upool| ==> Trans(mem, b.pd, SharePage()) == Some(Mapping(b.upool[n - 1], USER_RW)))
  }

  /** In the midst of the copy loops: done is copied, rest still to come. */
  ghost predicate Copying(m: Machine, ppid: nat, pid: nat, b: Before, ts: set<nat>, text: seq<Page>, done: seq<Page>, rest: seq<Page>)
    reads m
  {
    && Pair(m, ppid, pid, b.pd, b.cd) && m.dirs == b.dirs && Enough(m.mem, b.pd, b.cd, ts, m.kpool)
    && Forked(b, m.mem, m.kpool, m.upool, text, done) && CanCopy(b, ts, text, done, rest)
    && ScratchAt(b, m.mem, |done|)
  }

  /** In the midst of the text loop. */
  ghost predicate Sharing(m: Machine, ppid: nat, pid: nat, b: Before, ts: set<nat>, text: seq<Page>, rest: seq<Page>)
    reads m
  {
    && Pair(m, ppid, pid, b.pd, b.cd) && m.dirs == b.dirs && Enough(m.mem, b.pd, b.cd, ts, m.kpool)
    && Forked(b, m.mem, m.kpool, m.upool, text, [])
    && forall p :: p in rest ==> Copyable(b, p) && p / ENTRIES in ts
  }

  /** One round of a copy loop. */
  method CopyNext(m: Machine, ppid: nat, pid: nat, ghost b: Before, ghost ts: set<nat>, addr: u32, ghost text: seq<Page>, ghost done: seq<Page>, ghost next: seq<Page>, ghost todo: seq<Page>, ghost rest: seq<Page>)
    requires Copying(m, ppid, pid, b, ts, text, done, todo) && todo == [PageOf(addr)] + rest && next == done + [PageOf(addr)]
    modifies m`mem, m`kpool, m`upool
    ensures Copying(m, ppid, pid, b, ts, text, next, rest)
  {
    ghost var m0, k0, u0 := m.mem, m.kpool, m.upool;
    CopyRest(b, ts, text, done, PageOf(addr), rest);
    StillCopyable(b, m.mem, m.kpool, m.upool, text, done, PageOf(addr));
    CopyPage(m, ppid, pid, b.pd, b.cd, ts, addr);
    assert u0[0] == b.upool[|done|];
    assert PageCopied(b, m0, m.mem, k0, u0[0], PageOf(addr));
    ForkStep(b, m0, k0, u0, m.mem, m.kpool, text, done, PageOf(addr));
  }

  /** One round of the text loop. */
  method ShareNext(m: Machine, ppid: nat, pid: nat, ghost b: Before, ghost ts: set<nat>, addr: u32, ghost text: seq<Page>, ghost rest: seq<Page>)
    requires Sharing(m, ppid, pid, b, ts, text, [PageOf(addr)] + rest)
    modifies m`mem, m`kpool, m`upool
    ensures Sharing(m, ppid, pid, b, ts, text + [PageOf(addr)], rest)
  {
    ghost var m0, k0, p := m.mem, m.kpool, PageOf(addr);
    assert p in [p] + rest;
    assert forall q :: q in rest ==> q in [p] + rest;
    StillCopyable(b, m.mem, m.kpool, m.upool, text, [], p);
    ShareTextPage(m, ppid, pid, b.pd, b.cd, ts, addr);
    ShareStep(b, m0, k0, m.mem, m.kpool, m.upool, text, p);
  }

  lemma ShareStep(b: Before, mem: Memory, kpool: seq<nat>, mem': Memory, kpool': seq<nat>, upool: seq<nat>, text: seq<Page>, p: Page)
    requires Forked(b, mem, kpool, upool, text, []) && Copyable(b, p) && (forall f :: f in kpool' ==> f in kpool)
    requires |mem'| == |mem| && Kept(mem, mem', b.dirs, kpool)
    requires forall e, q: Page :: e in b.dirs ==>
               Trans(mem', e, q) == if e == b.cd && q == p then Some(Mapping(Frame0(b, p), USER_R)) else Trans(mem, e, q)
    ensures Forked(b, mem', kpool', upool, text + [p], [])
  {
  }

  /** In a loop at addr: with the pages the loop still visits, now makes up all and rest makes up
      todo. */
  ghost predicate UpLeft(now: seq<Page>, addr: u32, limit: u32, rest: seq<Page>, todo: seq<Page>, all: seq<Page>) {
    && limit <= KERNEL_LIN_BASE && now + UpPages(addr, limit) == all && todo == UpPages(addr, limit) + rest
  }

  ghost predicate DownLeft(now: seq<Page>, addr: u32, limit: u32, rest: seq<Page>, todo: seq<Page>, all: seq<Page>) {
    && limit >= PAGE && now + DownPages(addr, limit) == all && todo == DownPages(addr, limit) + rest
  }

  lemma NextUp(now: seq<Page>, addr: u32, after: u32, limit: u32, rest: seq<Page>, todo: seq<Page>, all: seq<Page>)
      returns (next: seq<Page>, more: seq<Page>)
    requires addr < limit && after == addr + PAGE && UpLeft(now, addr, limit, rest, todo, all)
    ensures todo == [PageOf(addr)] + more && next == now + [PageOf(addr)]
    ensures UpLeft(next, after, limit, rest, more, all)
  {
    next, more := now + [PageOf(addr)], UpPages(after, limit) + rest;
  }

  lemma NextDown(now: seq<Page>, addr: u32, after: u32, limit: u32, rest: seq<Page>, todo: seq<Page>, all: seq<Page>)
      returns (next: seq<Page>, more: seq<Page>)
    requires addr > limit && after == addr - PAGE && DownLeft(now, addr, limit, rest, todo, all)
    ensures todo == [PageOf(addr)] + more && next == now + [PageOf(addr)]
    ensures DownLeft(next, after, limit, rest, more, all)
  {
    next, more := now + [PageOf(addr)], DownPages(after, limit) + rest;
  }

  lemma NoPages(done: seq<Page>, rest: seq<Page>)
    ensures [] + rest == rest && done + [] == done
  {
  }

  lemma UpEnds(now: seq<Page>, addr: u32, limit: u32, rest: seq<Page>, todo: seq<Page>, all: seq<Page>)
    requires addr >= limit && UpLeft(now, addr, limit, rest, todo, all)
    ensures now == all && todo == rest
  {
  }

  /** An upward loop, all being the pages done once it ends. */
  method CopyUp(m: Machine, ppid: nat, pid: nat, ghost b: Before, ghost ts: set<nat>, base: u32, limit: u32, ghost text: seq<Page>, ghost done: seq<Page>, ghost rest: seq<Page>, ghost all: seq<Page>)
    requires limit <= KERNEL_LIN_BASE && Copying(m, ppid, pid, b, ts, text, done, UpPages(base, limit) + rest)
    requires all == done + UpPages(base, limit)
    modifies m`mem, m`kpool, m`upool
    ensures Copying(m, ppid, pid, b, ts, text, all, rest)
  {
    ghost var now, todo := done, UpPages(base, limit) + rest;
    var addr: u32 := base;
    while addr < limit
      invariant UpLeft(now, addr, limit, rest, todo, all)
      invariant Copying(m, ppid, pid, b, ts, text, now, todo)
      decreases limit - addr
    {
      var after: u32 := addr + PAGE;
      ghost var next, more := NextUp(now, addr, after, limit, rest, todo, all);
      CopyNext(m, ppid, pid, b, ts, addr, text, now, next, todo, more);
      now, todo, addr := next, more, after;
    }
    UpEnds(now, addr, limit, rest, todo, all);
  }

  lemma DownEnds(now: seq<Page>, addr: u32, limit: u32, rest: seq<Page>, todo: seq<Page>, all: seq<Page>)
    requires addr <= limit && DownLeft(now, addr, limit, rest, todo, all)
    ensures now == all && todo == rest
  {
  }

  /** The downward loop of the stack. */
  method CopyDown(m: Machine, ppid: nat, pid: nat, ghost b: Before, ghost ts: set<nat>, base: u32, limit: u32, ghost text: seq<Page>, ghost done: seq<Page>, ghost rest: seq<Page>, ghost all: seq<Page>)
    requires limit >= PAGE && Copying(m, ppid, pid, b, ts, text, done, DownPages(base, limit) + rest)
    requires all == done + DownPages(base, limit)
    modifies m`mem, m`kpool, m`upool
    ensures Copying(m, ppid, pid, b, ts, text, all, rest)
  {
    ghost var now, todo := done, DownPages(base, limit) + rest;
    var addr: u32 := base;
    while addr > limit
      invariant DownLeft(now, addr, limit, rest, todo, all)
      invariant Copying(m, ppid, pid, b, ts, text, now, todo)
      decreases addr - limit
    {
      var after: u32 := addr - PAGE;
      ghost var next, more := NextDown(now, addr, after, limit, rest, todo, all);
      CopyNext(m, ppid, pid, b, ts, addr, text, now, next, todo, more);
      now, todo, addr := next, more, after;
    }
    DownEnds(now, addr, limit, rest, todo, all);
  }

  /** The text loop. */
  method ShareUp(m: Machine, ppid: nat, pid: nat, ghost b: Before, ghost ts: set<nat>, base: u32, limit: u32, ghost all: seq<Page>)
    requires limit <= KERNEL_LIN_BASE && all == UpPages(base, limit) && Sharing(m, ppid, pid, b, ts, [], all)
    modifies m`mem, m`kpool, m`upool
    ensures Sharing(m, ppid, pid, b, ts, all, [])
  {
    ghost var now, todo := [], all;
    var addr: u32 := base;
    NoPages(all, all);
    while addr < limit
      invariant UpLeft(now, addr, limit, [], todo, all) && Sharing(m, ppid, pid, b, ts, now, todo)
      decreases limit - addr
    {
      var after: u32 := addr + PAGE;
      ghost var next, more := NextUp(now, addr, after, limit, [], todo, all);
      ShareNext(m, ppid, pid, b, ts, addr, now, more);
      now, todo, addr := next, more, after;
    }
    UpEnds(now, addr, limit, [], todo, all);
  }

  // ---------------------------------------------------------------------------------------
  // fork_mem_cpy

  /** LIN_MEMMAP of the parent. */
  datatype MemMap = MemMap(
    textBase: u32, textLimit: u32, dataBase: u32, dataLimit: u32, vpageBase: u32, vpageLimit: u32,
    heapBase: u32, heapLimit: u32, stackBase: u32, stackLimit: u32, argBase: u32, argLimit: u32)

  /** Regions below the kernel; the stack grows down to no lower than the second page. */
  predicate UserMap(mm: MemMap) {
    && mm.textLimit <= KERNEL_LIN_BASE && mm.dataLimit <= KERNEL_LIN_BASE && mm.vpageLimit <= KERNEL_LIN_BASE
    && mm.heapLimit <= KERNEL_LIN_BASE && mm.argLimit <= KERNEL_LIN_BASE && mm.stackLimit >= PAGE
  }

  function TextPages(mm: MemMap): seq<Page>
    requires UserMap(mm)
  {
    UpPages(mm.textBase, mm.textLimit)
  }

  /** The pages of the five regions that are copied, in the order of the loops. */
  function OwnPages(mm: MemMap): seq<Page>
    requires UserMap(mm)
  {
    UpPages(mm.dataBase, mm.dataLimit) + (UpPages(mm.vpageBase, mm.vpageLimit) + (UpPages(mm.heapBase, mm.heapLimit)
      + (DownPages(mm.stackBase, mm.stackLimit) + (UpPages(mm.argBase, mm.argLimit) + []))))
  }

  /** The upward loop from base reaches page p in round k. */
  ghost predicate UpRound(base: u32, limit: u32, k: nat, p: Page) {
    base + PAGE * k < limit && p == (base + PAGE * k) / PAGE
  }

  ghost predicate ReachedUp(base: u32, limit: u32, p: Page) { exists k: nat :: UpRound(base, limit, k, p) }

  lemma NextUpRound(base: u32, limit: u32, next: u32, k: nat, p: Page)
    requires next == base + PAGE
    ensures UpRound(next, limit, k, p) <==> UpRound(base, limit, k + 1, p)
  {
    assert next + PAGE * k == base + PAGE * (k + 1);
  }

  lemma FirstUpRound(base: u32, limit: u32, p: Page)
    requires base < limit
    ensures UpRound(base, limit, 0, p) <==> p == PageOf(base)
  {
  }

  lemma {:induction false} UpPagesAre(base: u32, limit: u32, p: Page)
    requires limit <= KERNEL_LIN_BASE
    ensures p in UpPages(base, limit) <==> ReachedUp(base, limit, p)
    decreases limit - base
  {
    if base < limit {
      var next: u32 := base + PAGE;
      UpPagesAre(next, limit, p);
      UpReaches(base, limit, next, p);
    } else {
      assert forall k: nat :: !UpRound(base, limit, k, p);
    }
  }

  lemma UpReaches(base: u32, limit: u32, next: u32, p: Page)
    requires base < limit && next == base + PAGE
    ensures ReachedUp(base, limit, p) <==> p == PageOf(base) || ReachedUp(next, limit, p)
  {
    FirstUpRound(base, limit, p);
    if k: nat :| UpRound(base, limit, k, p) && k > 0 { NextUpRound(base, limit, next, k - 1, p); }
    if k: nat :| UpRound(next, limit, k, p) { NextUpRound(base, limit, next, k, p); }
  }

  /** The downward loop from base reaches page p in round k. */
  ghost predicate DownRound(base: u32, limit: u32, k: nat, p: Page) {
    base - PAGE * k > limit && p == (base - PAGE * k) / PAGE
  }

  ghost predicate ReachedDown(base: u32, limit: u32, p: Page) { exists k: nat :: DownRound(base, limit, k, p) }

  lemma NextDownRound(base: u32, limit: u32, next: u32, k: nat, p: Page)
    requires next == base - PAGE
    ensures DownRound(next, limit, k, p) <==> DownRound(base, limit, k + 1, p)
  {
    assert next - PAGE * k == base - PAGE * (k + 1);
  }

  lemma FirstDownRound(base: u32, limit: u32, p: Page)
    requires base > limit
    ensures DownRound(base, limit, 0, p) <==> p == PageOf(base)
  {
  }

  lemma {:induction false} DownPagesAre(base: u32, limit: u32, p: Page)
    requires limit >= PAGE
    ensures p in DownPages(base, limit) <==> ReachedDown(base, limit, p)
    decreases base - limit
  {
    if base > limit {
      var next: u32 := base - PAGE;
      DownPagesAre(next, limit, p);
      DownReaches(base, limit, next, p);
    } else {
      assert forall k: nat :: !DownRound(base, limit, k, p);
    }
  }

  lemma DownReaches(base: u32, limit: u32, next: u32, p: Page)
    requires base > limit && next == base - PAGE
    ensures ReachedDown(base, limit, p) <==> p == PageOf(base) || ReachedDown(next, limit, p)
  {
    FirstDownRound(base, limit, p);
    if k: nat :| DownRound(base, limit, k, p) && k > 0 { NextDownRound(base, limit, next, k - 1, p); }
    if k: nat :| DownRound(next, limit, k, p) { NextDownRound(base, limit, next, k, p); }
  }

  /** The text pages are those the text loop reaches, the copied ones those that the loops over data,
      vpage, heap and arguments reach upwards and the loop over the stack downwards. */
  lemma PagesAre(mm: MemMap, p: Page)
    requires UserMap(mm)
    ensures p in TextPages(mm) <==> ReachedUp(mm.textBase, mm.textLimit, p)
    ensures p in OwnPages(mm) <==>
              || ReachedUp(mm.dataBase, mm.dataLimit, p) || ReachedUp(mm.vpageBase, mm.vpageLimit, p)
              || ReachedUp(mm.heapBase, mm.heapLimit, p) || ReachedDown(mm.stackBase, mm.stackLimit, p)
              || ReachedUp(mm.argBase, mm.argLimit, p)
  {
    UpPagesAre(mm.textBase, mm.textLimit, p);
    UpPagesAre(mm.dataBase, mm.dataLimit, p);
    UpPagesAre(mm.vpageBase, mm.vpageLimit, p);
    UpPagesAre(mm.heapBase, mm.heapLimit, p);
    DownPagesAre(mm.stackBase, mm.stackLimit, p);
    UpPagesAre(mm.argBase, mm.argLimit, p);
  }

  /** Page p begins in an upward region with a page-aligned base. */
  predicate PageWithin(base: u32, limit: u32, p: Page) { base % PAGE == 0 && base <= PAGE * p < limit }

  /** Page p belongs to a region of the process whose base is page-aligned: the stack reaches from its
      base down to above its limit. */
  predicate PageOfProcess(mm: MemMap, p: Page) {
    || PageWithin(mm.textBase, mm.textLimit, p) || PageWithin(mm.dataBase, mm.dataLimit, p)
    || PageWithin(mm.vpageBase, mm.vpageLimit, p) || PageWithin(mm.heapBase, mm.heapLimit, p)
    || PageWithin(mm.argBase, mm.argLimit, p)
    || (mm.stackBase % PAGE == 0 && mm.stackLimit < PAGE * p <= mm.stackBase)
  }

  lemma WithinIsReached(base: u32, limit: u32, p: Page)
    requires PageWithin(base, limit, p)
    ensures ReachedUp(base, limit, p)
  {
    var k: nat := p - base / PAGE;
    assert base == PAGE * (base / PAGE);
    assert base + PAGE * k == PAGE * p;
    assert UpRound(base, limit, k, p);
  }

  lemma StackIsReached(base: u32, limit: u32, p: Page)
    requires base % PAGE == 0 && limit < PAGE * p <= base
    ensures ReachedDown(base, limit, p)
  {
    var k: nat := base / PAGE - p;
    assert base == PAGE * (base / PAGE);
    assert base - PAGE * k == PAGE * p;
    assert DownRound(base, limit, k, p);
  }

  lemma ProcessPagesVisited(mm: MemMap, p: Page)
    requires UserMap(mm) && PageOfProcess(mm, p)
    ensures p in TextPages(mm) || p in OwnPages(mm)
  {
    PagesAre(mm, p);
    if PageWithin(mm.textBase, mm.textLimit, p) { WithinIsReached(mm.textBase, mm.textLimit, p); }
    else if PageWithin(mm.dataBase, mm.dataLimit, p) { WithinIsReached(mm.dataBase, mm.dataLimit, p); }
    else if PageWithin(mm.vpageBase, mm.vpageLimit, p) { WithinIsReached(mm.vpageBase, mm.vpageLimit, p); }
    else if PageWithin(mm.heapBase, mm.heapLimit, p) { WithinIsReached(mm.heapBase, mm.heapLimit, p); }
    else if PageWithin(mm.argBase, mm.argLimit, p) { WithinIsReached(mm.argBase, mm.argLimit, p); }
    else { StackIsReached(mm.stackBase, mm.stackLimit, p); }
  }

  ghost function TablesOf(pages: seq<Page>): set<nat> {
    set p | p in pages :: p / ENTRIES
  }

  /** The process is one fork_mem_cpy can copy: every page of every region mapped to a frame of
      data, no page in two regions, and frames enough. */
  ghost predicate Forkable(b: Before, mm: MemMap) {
    && GoodBefore(b) && UserMap(mm) && |OwnPages(mm)| <= |b.upool|
    && (forall p :: p in TextPages(mm) + OwnPages(mm) ==> Copyable(b, p))
    && (forall p :: p in OwnPages(mm) ==> p !in TextPages(mm))
    && (forall i, j :: 0 <= i < j < |OwnPages(mm)| ==> OwnPages(mm)[i] != OwnPages(mm)[j])
    && Enough(b.mem, b.pd, b.cd, TablesOf(TextPages(mm) + OwnPages(mm)), b.kpool)
  }

  /** What one process reads at word o of page p. */
  ghost function Reads(mem: Memory, d: nat, p: Page, o: nat): Option<u32>
    requires d < |mem| && o < ENTRIES
  {
    var t := Trans(mem, d, p);
    if t == None || t.value.frame >= |mem| then None else Some(mem[t.value.frame][o])
  }

  /** The child's address space is the parent's: every visited page reads the same in the child
      as in the parent, before and after; text frames are shared; the other frames come from the
      free pool, one each; the parent is translated as before but for the scratch page, and no
      third process is translated differently anywhere. The scratch page is left writable on the
      frame of the page copied last, which parent and child then share. */
  ghost predicate AddressSpaceCopied(b: Before, mem: Memory, mm: MemMap)
    requires GoodBefore(b) && UserMap(mm) && |mem| == |b.mem|
  {
    && (forall p, o: nat :: (p in TextPages(mm) || p in OwnPages(mm)) && o < ENTRIES ==>
          Reads(mem, b.cd, p, o) == Reads(mem, b.pd, p, o) == Reads(b.mem, b.pd, p, o) != None)
    && (forall p :: p in TextPages(mm) ==>
          Trans(mem, b.cd, p) != None && Trans(mem, b.pd, p) != None && Trans(mem, b.cd, p).value.frame == Trans(mem, b.pd, p).value.frame && Trans(mem, b.cd, p).value.attr == USER_R)
    && (forall p :: p in OwnPages(mm) ==>
          Trans(mem, b.cd, p) != None && Trans(mem, b.cd, p).value.frame in b.upool && Trans(mem, b.cd, p).value.attr == USER_RW)
    && (forall p, q :: p in OwnPages(mm) && q in OwnPages(mm) && p != q ==>
          Trans(mem, b.cd, p).value.frame != Trans(mem, b.cd, q).value.frame)
    && (forall p: Page :: p != SharePage() ==> Trans(mem, b.pd, p) == Trans(b.mem, b.pd, p))
    && (OwnPages(mm) != [] ==>
          Trans(mem, b.pd, SharePage()) == Trans(mem, b.cd, OwnPages(mm)[|OwnPages(mm)| - 1]) != None)
    && (forall e, p: Page :: e in b.dirs && e != b.pd && e != b.cd ==> Trans(mem, e, p) == Trans(b.mem, e, p))
    && (forall p: Page :: p !in TextPages(mm) && p !in OwnPages(mm) ==> Trans(mem, b.cd, p) == Trans(b.mem, b.cd, p))
  }

  lemma ReadsTheSame(b: Before, mem: Memory, kpool: seq<nat>, upool: seq<nat>, text: seq<Page>, done: seq<Page>, p: Page, o: nat)
    requires Forked(b, mem, kpool, upool, text, done) && (p in text || p in done) && o < ENTRIES
    ensures Reads(mem, b.cd, p, o) == Reads(mem, b.pd, p, o) == Reads(b.mem, b.pd, p, o) != None
  {
  }

  lemma ForkedCopies(b: Before, mem: Memory, kpool: seq<nat>, upool: seq<nat>, mm: MemMap)
    requires GoodBefore(b) && UserMap(mm) && Forked(b, mem, kpool, upool, TextPages(mm), OwnPages(mm)) && ScratchAt(b, mem, |OwnPages(mm)|)
    ensures AddressSpaceCopied(b, mem, mm)
  {
    var text, own := TextPages(mm), OwnPages(mm);
    if own != [] { assert Trans(mem, b.cd, own[|own| - 1]) == Some(Mapping(b.upool[|own| - 1], USER_RW)); }
    forall p, o: nat | (p in text || p in own) && o < ENTRIES
      ensures Reads(mem, b.cd, p, o) == Reads(mem, b.pd, p, o) == Reads(b.mem, b.pd, p, o) != None
    {
      ReadsTheSame(b, mem, kpool, upool, text, own, p, o);
    }
    forall p | p in text
      ensures Trans(mem, b.cd, p) != None && Trans(mem, b.pd, p) != None && Trans(mem, b.cd, p).value.frame == Trans(mem, b.pd, p).value.frame && Trans(mem, b.cd, p).value.attr == USER_R
    {
      StillCopyable(b, mem, kpool, upool, text, own, p);
    }
    forall p, q | p in own && q in own && p != q
      ensures Trans(mem, b.cd, p) != None && Trans(mem, b.cd, p).value.frame in b.upool && Trans(mem, b.cd, p).value.attr == USER_RW
      ensures Trans(mem, b.cd, p).value.frame != Trans(mem, b.cd, q).value.frame
    {
      OwnFramesDistinct(b, mem, kpool, upool, text, own, p, q);
    }
  }

  /** In the fields of LIN_MEMMAP: every page from base to limit of every page-aligned region reads the
      same in the child as in the parent, before and after. */
  lemma EveryPageReadsTheSame(b: Before, mem: Memory, mm: MemMap)
    requires GoodBefore(b) && UserMap(mm) && |mem| == |b.mem| && AddressSpaceCopied(b, mem, mm)
    ensures forall p: Page, o: nat :: PageOfProcess(mm, p) && o < ENTRIES ==>
              Reads(mem, b.cd, p, o) == Reads(mem, b.pd, p, o) == Reads(b.mem, b.pd, p, o) != None
  {
    forall p: Page, o: nat | PageOfProcess(mm, p) && o < ENTRIES
      ensures Reads(mem, b.cd, p, o) == Reads(mem, b.pd, p, o) == Reads(b.mem, b.pd, p, o) != None
    {
      ProcessPagesVisited(mm, p);
    }
  }

  lemma OwnFramesDistinct(b: Before, mem: Memory, kpool: seq<nat>, upool: seq<nat>, text: seq<Page>, done: seq<Page>, p: Page, q: Page)
    requires Forked(b, mem, kpool, upool, text, done) && p in done && q in done && p != q
    ensures Trans(mem, b.cd, p) != None && Trans(mem, b.cd, p).value.frame in b.upool && Trans(mem, b.cd, p).value.attr == USER_RW
    ensures Trans(mem, b.cd, q) != None && Trans(mem, b.cd, p).value.frame != Trans(mem, b.cd, q).value.frame
  {
    var i :| 0 <= i < |done| && done[i] == p;
    var j :| 0 <= j < |done| && done[j] == q;
    FreshIndex(b, i);
    assert Trans(mem, b.cd, done[i]) == Some(Mapping(b.upool[i], USER_RW));
    assert Trans(mem, b.cd, done[j]) == Some(Mapping(b.upool[j], USER_RW));
  }

  lemma StartSharing(m: Machine, ppid: nat, pid: nat, b: Before, mm: MemMap)
    requires Pair(m, ppid, pid, b.pd, b.cd) && b == Before(m.mem, m.kpool, m.upool, m.dirs, b.pd, b.cd) && Forkable(b, mm)
    ensures Sharing(m, ppid, pid, b, TablesOf(TextPages(mm) + OwnPages(mm)), [], TextPages(mm))
    ensures CanCopy(b, TablesOf(TextPages(mm) + OwnPages(mm)), TextPages(mm), [], OwnPages(mm))
  {
    var all := TextPages(mm) + OwnPages(mm);
    forall p | p in TextPages(mm) || p in OwnPages(mm) ensures Copyable(b, p) && p / ENTRIES in TablesOf(all) {
      assert p in all;
    }
  }

  /** fork_mem_cpy */
  method ForkMemCpy(m: Machine, ppid: nat, pid: nat, mm: MemMap, ghost b: Before)
    requires Pair(m, ppid, pid, b.pd, b.cd) && b == Before(m.mem, m.kpool, m.upool, m.dirs, b.pd, b.cd) && Forkable(b, mm)
    modifies m`mem, m`kpool, m`upool
    ensures m.Valid() && |m.mem| == |b.mem| && AddressSpaceCopied(b, m.mem, mm)
    ensures forall p: Page, o: nat :: PageOfProcess(mm, p) && o < ENTRIES ==>
              Reads(m.mem, b.cd, p, o) == Reads(m.mem, b.pd, p, o) == Reads(b.mem, b.pd, p, o) != None
    ensures m.upool == old(m.upool)[|OwnPages(mm)|..]
    ensures forall f: nat :: Plain(b.mem, b.dirs, f) && f !in b.kpool && f !in b.upool ==> m.mem[f] == b.mem[f]
  {
    ghost var text, ts := TextPages(mm), TablesOf(TextPages(mm) + OwnPages(mm));
    StartSharing(m, ppid, pid, b, mm);
    ShareUp(m, ppid, pid, b, ts, mm.textBase, mm.textLimit, text);
    CopyRegions(m, ppid, pid, mm, b, ts, text);
    ForkedCopies(b, m.mem, m.kpool, m.upool, mm);
    EveryPageReadsTheSame(b, m.mem, mm);
  }

  lemma Reassociate(a: seq<Page>, b: seq<Page>, c: seq<Page>, d: seq<Page>, e: seq<Page>)
    ensures [] + a + b + c + d + e == a + (b + (c + (d + (e + []))))
  {
  }

  /** The five copy loops. */
  method CopyRegions(m: Machine, ppid: nat, pid: nat, mm: MemMap, ghost b: Before, ghost ts: set<nat>, ghost text: seq<Page>)
    requires UserMap(mm) && Copying(m, ppid, pid, b, ts, text, [], OwnPages(mm))
    modifies m`mem, m`kpool, m`upool
    ensures Copying(m, ppid, pid, b, ts, text, OwnPages(mm), [])
  {
    ghost var dt, vp, hp, st, ag := UpPages(mm.dataBase, mm.dataLimit), UpPages(mm.vpageBase, mm.vpageLimit),
      UpPages(mm.heapBase, mm.heapLimit), DownPages(mm.stackBase, mm.stackLimit), UpPages(mm.argBase, mm.argLimit);
    CopyUp(m, ppid, pid, b, ts, mm.dataBase, mm.dataLimit, text, [], vp + (hp + (st + (ag + []))), [] + dt);
    CopyUp(m, ppid, pid, b, ts, mm.vpageBase, mm.vpageLimit, text, [] + dt, hp + (st + (ag + [])), [] + dt + vp);
    CopyUp(m, ppid, pid, b, ts, mm.heapBase, mm.heapLimit, text, [] + dt + vp, st + (ag + []), [] + dt + vp + hp);
    StackAndArgs(m, ppid, pid, mm, b, ts, text, [] + dt + vp + hp);
    Reassociate(dt, vp, hp, st, ag);
  }

  method StackAndArgs(m: Machine, ppid: nat, pid: nat, mm: MemMap, ghost b: Before, ghost ts: set<nat>, ghost text: seq<Page>, ghost done: seq<Page>)
    requires UserMap(mm)
    requires Copying(m, ppid, pid, b, ts, text, done, DownPages(mm.stackBase, mm.stackLimit) + (UpPages(mm.argBase, mm.argLimit) + []))
    modifies m`mem, m`kpool, m`upool
    ensures Copying(m, ppid, pid, b, ts, text, done + DownPages(mm.stackBase, mm.stackLimit) + UpPages(mm.argBase, mm.argLimit), [])
  {
    ghost var st, ag := DownPages(mm.stackBase, mm.stackLimit), UpPages(mm.argBase, mm.argLimit);
    CopyDown(m, ppid, pid, b, ts, mm.stackBase, mm.stackLimit, text, done, ag + [], done + st);
    CopyUp(m, ppid, pid, b, ts, mm.argBase, mm.argLimit, text, done + st, [], done + st + ag);
  }
}
