/** The machine whose page tables the kernel edits: physical frames, the two pools of free
    frames, and each process's directory (kernel/pagetbl.c:49-97, kernel/pagetbl.c:350-426). */
module PageMap {
  import opened Basics
  import opened Paging

  /** Free frames are plain, on the memory, and listed once. */
  ghost predicate PoolOk(mem: Memory, dirs: set<nat>, kpool: seq<nat>, upool: seq<nat>)
    requires forall d :: d in dirs ==> d < |mem|
  {
    && Distinct(kpool + upool)
    && (forall f :: f in kpool ==> Plain(mem, dirs, f))
    && (forall f :: f in upool ==> Plain(mem, dirs, f))
  }

  /** Plain frames that were not free kernel frames are still plain and hold the same words. */
  ghost predicate Kept(mem: Memory, mem': Memory, dirs: set<nat>, kpool: seq<nat>)
    requires forall d :: d in dirs ==> d < |mem| && d < |mem'|
  {
    |mem'| == |mem| && forall f: nat :: Plain(mem, dirs, f) && f !in kpool ==> Plain(mem', dirs, f) && mem'[f] == mem[f]
  }

  /** No directory translates any page differently. */
  ghost predicate SameTrans(mem: Memory, mem': Memory, dirs: set<nat>)
    requires forall d :: d in dirs ==> d < |mem| && d < |mem'|
  {
    forall d, p: Page :: d in dirs ==> Trans(mem', d, p) == Trans(mem, d, p)
  }

  /** Page q of directory d translates to entry w, all else as before. */
  ghost predicate OneTrans(mem: Memory, mem': Memory, dirs: set<nat>, d: nat, q: Page, w: u32)
    requires forall d :: d in dirs ==> d < |mem| && d < |mem'|
  {
    forall e, p: Page :: e in dirs ==> Trans(mem', e, p) == if e == d && p == q then MappingOf(w) else Trans(mem, e, p)
  }

  lemma PoolTail(mem: Memory, dirs: set<nat>, kpool: seq<nat>, upool: seq<nat>)
    requires forall d :: d in dirs ==> d < |mem|
    requires PoolOk(mem, dirs, kpool, upool)
    ensures kpool != [] ==> PoolOk(mem, dirs, kpool[1..], upool) && kpool[0] !in kpool[1..] && kpool[0] !in upool
    ensures upool != [] ==> PoolOk(mem, dirs, kpool, upool[1..]) && upool[0] !in upool[1..] && upool[0] !in kpool
  {
    var all := kpool + upool;
    if kpool != [] {
      assert all[1..] == kpool[1..] + upool;
      assert all[0] == kpool[0];
      assert forall i :: 0 <= i < |upool| ==> all[|kpool| + i] == upool[i];
      assert forall i :: 1 <= i < |kpool| ==> all[i] == kpool[i];
    }
    if upool != [] {
      var rest := kpool + upool[1..];
      assert all[|kpool|] == upool[0];
      assert forall i :: 0 <= i < |kpool| ==> all[i] == kpool[i] == rest[i];
      assert forall i {:trigger rest[i]} :: |kpool| <= i < |rest| ==> rest[i] == all[i + 1];
      assert forall i {:trigger upool[i]} :: 1 <= i < |upool| ==> upool[i] == all[i + |kpool|];
    }
  }

  class Machine {
    var mem: Memory
    var cr3: map<nat, u32>
    var kpool: seq<nat>
    var upool: seq<nat>
    ghost var dirs: set<nat>

    ghost predicate Valid()
      reads this
    {
      && |mem| <= PAGES
      && WellFormed(mem, dirs) && PoolOk(mem, dirs, kpool, upool)
      && forall pid :: pid in cr3 && cr3[pid] != 0 ==> FrameOf(cr3[pid]) in dirs
    }

    /** do_kmalloc_4k */
    method KMalloc4K() returns (a: u32)
      requires Valid()
      modifies `kpool
      ensures Valid()
      ensures if old(kpool) == [] then a == FAILED && a % 1024 != 0 && kpool == []
              else a == PAGE * old(kpool)[0] && a % 1024 == 0 && kpool == old(kpool)[1..] && old(kpool)[0] !in kpool && old(kpool)[0] !in upool
    {
      if kpool == [] { return FAILED; }
      PoolTail(mem, dirs, kpool, upool);
      assert Plain(mem, dirs, kpool[0]);
      a := PAGE * kpool[0];
      assert a == 1024 * (4 * kpool[0]);
      kpool := kpool[1..];
    }

    /** do_malloc_4k */
    method UMalloc4K() returns (a: u32)
      requires Valid()
      modifies `upool
      ensures Valid()
      ensures if old(upool) == [] then a == FAILED && a % 1024 != 0 && upool == []
              else a == PAGE * old(upool)[0] && a % 1024 == 0 && upool == old(upool)[1..]
    {
      if upool == [] { return FAILED; }
      PoolTail(mem, dirs, kpool, upool);
      assert Plain(mem, dirs, upool[0]);
      a := PAGE * upool[0];
      assert a == 1024 * (4 * upool[0]);
      upool := upool[1..];
    }

    /** The first half of lin_mapping_phy: finds the page table, or takes a frame for it, zeroes
        it and enters it in the directory. */
    method FindTable(dir: nat, lin: u32, pdeAttr: u32) returns (t: nat)
      requires Valid() && dir in dirs && pdeAttr < PAGE && Present(pdeAttr)
      requires !HasTable(mem, dir, PageOf(lin) / ENTRIES) ==> kpool != []
      modifies `mem, `kpool
      ensures Valid()
      ensures SameTrans(old(mem), mem, dirs) && Kept(old(mem), mem, dirs, old(kpool))
      ensures TablesAdded(old(mem), mem, dirs, dir, PageOf(lin) / ENTRIES) && t == Table(mem, dir, PageOf(lin) / ENTRIES)
      ensures kpool == TableTaken(old(mem), old(kpool), dir, PageOf(lin) / ENTRIES)
    {
      IndexSplit(lin);
      var i := PdeIndex(lin);
      if !Present(mem[dir][i]) {
        ghost var m0, k0 := mem, kpool;
        var a := KMalloc4K();
        t := FrameOf(a);
        PlainWrite(mem, dirs, t, ZeroFrame());
        mem := mem[t := ZeroFrame()];
        EntryFields(a, pdeAttr);
        LinkTable(mem, dirs, dir, i, t, Entry(a, pdeAttr));
        mem := mem[dir := mem[dir][i := Entry(a, pdeAttr)]];
      } else {
        t := FrameOf(mem[dir][i]);
      }
    }

    /** The second half of lin_mapping_phy: one entry of table t. */
    method WriteEntry(ghost dir: nat, lin: u32, t: nat, w: u32)
      requires Valid() && dir in dirs && HasTable(mem, dir, PageOf(lin) / ENTRIES) && t == Table(mem, dir, PageOf(lin) / ENTRIES)
      modifies `mem
      ensures Valid() && OneTrans(old(mem), mem, dirs, dir, PageOf(lin), w)
      ensures Kept(old(mem), mem, dirs, []) && SameDirs(old(mem), mem, dirs)
    {
      IndexSplit(lin);
      WritePte(mem, dirs, dir, PageOf(lin), w);
      mem := mem[t := mem[t][PteIndex(lin) := w]];
    }

    /** lin_mapping_phy. With phy == 0xFFFFFFFF a frame is allocated, unless the page already has
        one. The written entry is returned as a witness, 0 standing for none. */
    method LinMappingPhy(lin: u32, phy: u32, pid: nat, pdeAttr: u32, pteAttr: u32) returns (r: int, ghost wrote: bool, ghost w: u32)
      requires Valid() && pid in cr3 && cr3[pid] != 0
      requires pdeAttr < PAGE && Present(pdeAttr) && pteAttr < PAGE
      requires !HasTable(mem, FrameOf(cr3[pid]), PageOf(lin) / ENTRIES) ==> kpool != []
      modifies `mem, `kpool, `upool
      ensures Valid()
      ensures Kept(old(mem), mem, dirs, old(kpool))
      ensures if wrote then OneTrans(old(mem), mem, dirs, FrameOf(cr3[pid]), PageOf(lin), w) else SameTrans(old(mem), mem, dirs)
      ensures TablesAdded(old(mem), mem, dirs, FrameOf(cr3[pid]), PageOf(lin) / ENTRIES)
      ensures phy != MAX_UNSIGNED_INT ==>
                && upool == old(upool)
                && kpool == TableTaken(old(mem), old(kpool), FrameOf(cr3[pid]), PageOf(lin) / ENTRIES)
                && (if phy % 1024 != 0 then r == -1 && !wrote else r == 0 && wrote && w == Entry(phy, pteAttr))
      ensures phy == MAX_UNSIGNED_INT && old(Trans(mem, FrameOf(cr3[pid]), PageOf(lin))).Some? ==>
                r == 0 && !wrote && upool == old(upool) && kpool == old(kpool)
      ensures phy == MAX_UNSIGNED_INT && old(Trans(mem, FrameOf(cr3[pid]), PageOf(lin))).None? && lin < KERNEL_LIN_BASE ==>
                && kpool == TableTaken(old(mem), old(kpool), FrameOf(cr3[pid]), PageOf(lin) / ENTRIES)
                && (if old(upool) == [] then r == -1 && !wrote && upool == []
                    else r == 0 && wrote && old(upool)[0] < PAGES && w == Entry(PAGE * old(upool)[0], pteAttr) && upool == old(upool)[1..])
      ensures phy == MAX_UNSIGNED_INT && old(Trans(mem, FrameOf(cr3[pid]), PageOf(lin))).None? && lin >= KERNEL_LIN_BASE ==>
                var k := TableTaken(old(mem), old(kpool), FrameOf(cr3[pid]), PageOf(lin) / ENTRIES);
                && upool == old(upool)
                && (if k == [] then r == -1 && !wrote && kpool == []
                    else r == 0 && wrote && k[0] < PAGES && w == Entry(PAGE * k[0], pteAttr) && kpool == k[1..])
    {
      var dir := FrameOf(cr3[pid]);
      wrote, w := false, 0;
      ghost var m0, k0 := mem, kpool;
      var t := FindTable(dir, lin, pdeAttr);
      ghost var m1 := mem;
      IndexSplit(lin);
      var addr := phy;
      if phy == MAX_UNSIGNED_INT {
        if Present(mem[t][PteIndex(lin)]) {
          TranslatesAlready(m0, m1, dirs, dir, PageOf(lin));
          return 0, wrote, w;
        }
        if lin >= KERNEL_LIN_BASE {
          addr := KMalloc4K();
        } else {
          addr := UMalloc4K();
        }
      }
      if addr % 1024 != 0 { return -1, wrote, w; }
      wrote, w := true, Entry(addr, pteAttr);
      WriteEntry(dir, lin, t, Entry(addr, pteAttr));
      ThenEntry(m0, m1, mem, dirs, k0, dir, PageOf(lin), w);
      return 0, wrote, w;
    }

    /** The directory part of init_page_pte: a zeroed frame becomes the process's directory. */
    method NewCr3(pid: nat) returns (d: nat)
      requires Valid() && kpool != [] && kpool[0] != 0
      modifies `mem, `kpool, `cr3, `dirs
      ensures Valid() && d == old(kpool)[0] && kpool == old(kpool)[1..]
      ensures dirs == old(dirs) + {d} && d !in old(dirs) && cr3 == old(cr3)[pid := PAGE * d] && FrameOf(cr3[pid]) == d
      ensures SameTrans(old(mem), mem, old(dirs)) && KernelMapped(mem, d, 0)
      ensures forall i :: 0 <= i < ENTRIES ==> !HasTable(mem, d, i)
      ensures Kept(old(mem), mem, old(dirs), old(kpool))
    {
      assert Plain(mem, dirs, kpool[0]);
      var a := KMalloc4K();
      d := FrameOf(a);
      PlainWrite(mem, dirs, d, ZeroFrame());
      mem := mem[d := ZeroFrame()];
      NewDirectory(mem, dirs, d);
      dirs := dirs + {d};
      cr3 := cr3[pid := a];
    }

    /** init_page_pte: a directory of its own for the process, with exactly the 8 MB kernel range
        mapped to physical memory from 0 on; no other process is affected. */
    method InitPagePte(pid: nat) returns (ghost d: nat)
      requires Valid() && |kpool| >= 3 && kpool[0] != 0
      modifies `mem, `kpool, `upool, `cr3, `dirs
      ensures Valid() && d == old(kpool)[0] && kpool == old(kpool)[3..] && upool == old(upool)
      ensures dirs == old(dirs) + {d} && d !in old(dirs) && cr3.Keys == old(cr3).Keys + {pid} && FrameOf(cr3[pid]) == d
      ensures forall q :: q in old(cr3) && q != pid ==> cr3[q] == old(cr3)[q]
      ensures SameTrans(old(mem), mem, old(dirs)) && KernelMapped(mem, d, KERNEL_SIZE / PAGE)
    {
      ghost var m0, k0 := mem, kpool;
      var dir := NewCr3(pid);
      d := dir;
      var n := 0;
      while n < KERNEL_SIZE / PAGE
        modifies `mem, `kpool, `upool
        invariant 0 <= n <= KERNEL_SIZE / PAGE && Valid() && upool == old(upool) && kpool == k0[1 + KernelTables(n)..]
        invariant dirs == old(dirs) + {d}
        invariant SameTrans(m0, mem, old(dirs)) && KernelMapped(mem, d, n)
        invariant forall i :: 0 <= i < ENTRIES ==> (HasTable(mem, d, i) <==> 768 <= i < 768 + KernelTables(n))
      {
        MapKernelPage(pid, d, n);
        n := n + 1;
      }
    }

    /** One round of the loop of init_page_pte. */
    method MapKernelPage(pid: nat, ghost d: nat, n: nat)
      requires Valid() && pid in cr3 && cr3[pid] != 0 && FrameOf(cr3[pid]) == d && n < KERNEL_SIZE / PAGE
      requires KernelMapped(mem, d, n)
      requires forall i :: 0 <= i < ENTRIES ==> (HasTable(mem, d, i) <==> 768 <= i < 768 + KernelTables(n))
      requires KernelTables(n + 1) > KernelTables(n) ==> kpool != []
      modifies `mem, `kpool, `upool
      ensures Valid() && upool == old(upool)
      ensures kpool == if KernelTables(n + 1) > KernelTables(n) then old(kpool)[1..] else old(kpool)
      ensures forall e, p: Page :: e in dirs && e != d ==> Trans(mem, e, p) == old(Trans(mem, e, p))
      ensures KernelMapped(mem, d, n + 1)
      ensures forall i :: 0 <= i < ENTRIES ==> (HasTable(mem, d, i) <==> 768 <= i < 768 + KernelTables(n + 1))
    {
      ghost var m0 := mem;
      var lin := KERNEL_LIN_BASE + PAGE * n;
      assert PageOf(lin) == PageOf(KERNEL_LIN_BASE) + n && PageOf(lin) / ENTRIES == 768 + n / ENTRIES;
      assert PAGE * n % 1024 == 0;
      var r; ghost var wrote, w;
      r, wrote, w := LinMappingPhy(lin, PAGE * n, pid, PG_P + PG_USU + PG_RWW, PG_P + PG_RWW);
      KernelStep(m0, mem, dirs, d, n, w);
    }
  }

  /** Number of kernel page tables in use after n pages were mapped: one per 1024 pages. */
  function KernelTables(n: nat): nat { (n + ENTRIES - 1) / ENTRIES }

  /** The kernel range as init_page_pte leaves it after n pages: page 3G + k to frame k, present,
      writable, for the system only, and nothing else mapped. */
  ghost predicate KernelMapped(mem: Memory, d: nat, n: nat)
    requires d < |mem|
  {
    forall p: Page :: Trans(mem, d, p) ==
      if PageOf(KERNEL_LIN_BASE) <= p < PageOf(KERNEL_LIN_BASE) + n
      then Some(Mapping(p - PageOf(KERNEL_LIN_BASE), PG_P + PG_RWW)) else None
  }

  /** A zeroed plain frame can become a directory; it maps nothing. */
  lemma NewDirectory(mem: Memory, dirs: set<nat>, f: nat)
    requires WellFormed(mem, dirs) && Plain(mem, dirs, f) && mem[f] == ZeroFrame()
    ensures WellFormed(mem, dirs + {f})
    ensures forall g :: Plain(mem, dirs, g) && g != f ==> Plain(mem, dirs + {f}, g)
    ensures KernelMapped(mem, f, 0)
  {
  }

  lemma KernelStep(mem: Memory, mem': Memory, dirs: set<nat>, d: nat, n: nat, w: u32)
    requires forall e :: e in dirs ==> e < |mem| && e < |mem'|
    requires d in dirs && n < KERNEL_SIZE / PAGE && KernelMapped(mem, d, n)
    requires OneTrans(mem, mem', dirs, d, PageOf(KERNEL_LIN_BASE) + n, w) && w == Entry(PAGE * n, PG_P + PG_RWW)
    ensures KernelMapped(mem', d, n + 1)
  {
  }

  /** At most table i of directory d is new. */
  ghost predicate TablesAdded(mem: Memory, mem': Memory, dirs: set<nat>, d: nat, i: nat)
    requires forall e :: e in dirs ==> e < |mem| && e < |mem'|
  {
    && d in dirs && i < ENTRIES && HasTable(mem', d, i)
    && forall e, j :: e in dirs && 0 <= j < ENTRIES && (e != d || j != i) ==> HasTable(mem', e, j) == HasTable(mem, e, j)
  }

  /** The kernel pool after the page table was found or made. */
  ghost function TableTaken(mem: Memory, kpool: seq<nat>, d: nat, i: nat): seq<nat>
    requires d < |mem| && i < ENTRIES
  {
    if HasTable(mem, d, i) || kpool == [] then kpool else kpool[1..]
  }

  /** A page table costs one frame when it is made, and none afterwards. */
  lemma OneFramePerTable(mem: Memory, kpool: seq<nat>, d: nat, i: nat)
    requires d < |mem| && i < ENTRIES
    ensures HasTable(mem, d, i) ==> TableTaken(mem, kpool, d, i) == kpool
    ensures !HasTable(mem, d, i) && kpool != [] ==> TableTaken(mem, kpool, d, i) == kpool[1..] && |TableTaken(mem, kpool, d, i)| == |kpool| - 1
  {
  }

  /** Finding the table and then writing the entry. */
  lemma ThenEntry(m0: Memory, m1: Memory, m2: Memory, dirs: set<nat>, kpool: seq<nat>, d: nat, p: Page, w: u32)
    requires (forall e :: e in dirs ==> e < |m0| && e < |m1| && e < |m2|) && SameTrans(m0, m1, dirs) && OneTrans(m1, m2, dirs, d, p, w)
    requires Kept(m0, m1, dirs, kpool) && Kept(m1, m2, dirs, []) && SameDirs(m1, m2, dirs)
    ensures Kept(m0, m2, dirs, kpool) && OneTrans(m0, m2, dirs, d, p, w)
    ensures TablesAdded(m0, m1, dirs, d, p / ENTRIES) ==> TablesAdded(m0, m2, dirs, d, p / ENTRIES)
  {
  }

  lemma TranslatesAlready(m0: Memory, m1: Memory, dirs: set<nat>, d: nat, p: Page)
    requires WellFormed(m0, dirs) && WellFormed(m1, dirs) && d in dirs && SameTrans(m0, m1, dirs)
    requires HasTable(m1, d, p / ENTRIES) && Present(m1[Table(m1, d, p / ENTRIES)][p % ENTRIES])
    ensures Trans(m0, d, p).Some? && HasTable(m0, d, p / ENTRIES)
  {
  }
}
