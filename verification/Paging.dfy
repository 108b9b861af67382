/** Two-level page tables held in physical frames (kernel/pagetbl.c), after 32-bit paging as in
    section 4.3 of the Intel 64 and IA-32 SDM, Volume 3A: a directory of 1024 entries, each
    naming a table of 1024 entries, each naming a 4 KB frame. */
module Paging {
  import opened Basics

  const ENTRIES := 1024
  const PAGES := 0x10_0000
  const MAX_UNSIGNED_INT: u32 := 0xFFFF_FFFF
  const KERNEL_LIN_BASE: u32 := 0xC000_0000
  const KERNEL_SIZE: u32 := 0x80_0000

  // attribute bits of directory and table entries
  const PG_P: u32 := 1
  const PG_RWW: u32 := 2
  const PG_USU: u32 := 4

  type Frame = f: seq<u32> | |f| == ENTRIES witness seq(ENTRIES, _ => 0)
  type Memory = seq<Frame>

  /** A page number: a linear address without its 12 offset bits. */
  type Page = p: int | 0 <= p < PAGES

  function PageOf(lin: u32): Page { lin / PAGE }

  /** AddrLin >> 22 */
  function PdeIndex(lin: u32): nat { lin / 0x40_0000 }

  /** (AddrLin & 0x003FFFFF) >> 12 */
  function PteIndex(lin: u32): nat { lin % 0x40_0000 / PAGE }

  lemma IndexSplit(lin: u32)
    ensures PdeIndex(lin) == PageOf(lin) / ENTRIES && PteIndex(lin) == PageOf(lin) % ENTRIES
  {
  }

  predicate Present(w: u32) { w % 2 == 1 }
  function FrameOf(w: u32): nat { w / PAGE }

  /** (addr & 0xFFFFF000) | attr */
  function Entry(addr: u32, attr: u32): u32
    requires attr < PAGE
  {
    addr / PAGE * PAGE + attr
  }

  lemma EntryFields(addr: u32, attr: u32)
    requires attr < PAGE
    ensures FrameOf(Entry(addr, attr)) == addr / PAGE && Entry(addr, attr) % PAGE == attr
    ensures Present(Entry(addr, attr)) <==> Present(attr)
  {
  }

  // ---------------------------------------------------------------------------------------
  // Translation

  datatype Mapping = Mapping(frame: nat, attr: u32)

  function MappingOf(w: u32): Option<Mapping> {
    if Present(w) then Some(Mapping(FrameOf(w), w % PAGE)) else None
  }

  /** What the processor finds for page p under directory d. */
  function Trans(mem: Memory, d: nat, p: Page): Option<Mapping>
    requires d < |mem|
  {
    var pde := mem[d][p / ENTRIES];
    if !Present(pde) || FrameOf(pde) >= |mem| then None
    else MappingOf(mem[FrameOf(pde)][p % ENTRIES])
  }

  predicate HasTable(mem: Memory, d: nat, i: nat)
    requires d < |mem| && i < ENTRIES
  {
    Present(mem[d][i])
  }

  function Table(mem: Memory, d: nat, i: nat): nat
    requires d < |mem| && i < ENTRIES
  {
    FrameOf(mem[d][i])
  }

  /** Directories and tables are where they should be: every table on the memory, none of them a
      directory, and no table used twice. */
  ghost predicate WellFormed(mem: Memory, dirs: set<nat>) {
    && (forall d :: d in dirs ==> d < |mem|)
    && (forall d, i :: d in dirs && 0 <= i < ENTRIES && HasTable(mem, d, i) ==>
          Table(mem, d, i) < |mem| && Table(mem, d, i) !in dirs)
    && (forall d, i, e, j ::
          (d in dirs && e in dirs && 0 <= i < ENTRIES && 0 <= j < ENTRIES && (d != e || i != j)
           && HasTable(mem, d, i) && HasTable(mem, e, j))
          ==> Table(mem, d, i) != Table(mem, e, j))
  }

  /** Frame f is neither a directory nor a table. */
  ghost predicate Plain(mem: Memory, dirs: set<nat>, f: nat)
    requires forall d :: d in dirs ==> d < |mem|
  {
    f < |mem| && f !in dirs && forall d, i :: d in dirs && 0 <= i < ENTRIES && HasTable(mem, d, i) ==> Table(mem, d, i) != f
  }

  function ZeroFrame(): Frame { seq(ENTRIES, _ => 0) }

  // ---------------------------------------------------------------------------------------
  // The two kinds of writes

  /** All directories are the same in both memories. */
  ghost predicate SameDirs(mem: Memory, mem': Memory, dirs: set<nat>)
    requires forall d :: d in dirs ==> d < |mem|
  {
    |mem'| == |mem| && forall d :: d in dirs ==> mem'[d] == mem[d]
  }

  /** Well-formedness looks at directories only. */
  lemma DirsDecide(mem: Memory, mem': Memory, dirs: set<nat>)
    requires WellFormed(mem, dirs) && SameDirs(mem, mem', dirs)
    ensures WellFormed(mem', dirs)
    ensures forall g :: Plain(mem, dirs, g) ==> Plain(mem', dirs, g)
  {
    assert forall d, i :: d in dirs && 0 <= i < ENTRIES ==> HasTable(mem', d, i) == HasTable(mem, d, i);
    assert forall d, i :: d in dirs && 0 <= i < ENTRIES ==> Table(mem', d, i) == Table(mem, d, i);
  }

  /** Writing a plain frame changes no translation. */
  lemma PlainWrite(mem: Memory, dirs: set<nat>, f: nat, c: Frame)
    requires WellFormed(mem, dirs) && Plain(mem, dirs, f)
    ensures WellFormed(mem[f := c], dirs)
    ensures forall d, p: Page :: d in dirs ==> Trans(mem[f := c], d, p) == Trans(mem, d, p)
    ensures forall g :: Plain(mem, dirs, g) ==> Plain(mem[f := c], dirs, g)
  {
    DirsDecide(mem, mem[f := c], dirs);
    forall d, p: Page | d in dirs ensures Trans(mem[f := c], d, p) == Trans(mem, d, p) {
      assert HasTable(mem, d, p / ENTRIES) ==> Table(mem, d, p / ENTRIES) != f;
    }
  }

  /** write_page_pde of a zeroed plain frame: a table is linked, no translation changes. */
  lemma LinkTable(mem: Memory, dirs: set<nat>, d: nat, i: nat, t: nat, w: u32)
    requires WellFormed(mem, dirs) && d in dirs && i < ENTRIES && !HasTable(mem, d, i)
    requires Plain(mem, dirs, t) && mem[t] == ZeroFrame() && FrameOf(w) == t && Present(w)
    ensures var mem' := mem[d := mem[d][i := w]];
            && WellFormed(mem', dirs)
            && (forall e, p: Page :: e in dirs ==> Trans(mem', e, p) == Trans(mem, e, p))
            && HasTable(mem', d, i) && Table(mem', d, i) == t
            && (forall g :: Plain(mem, dirs, g) && g != t ==> Plain(mem', dirs, g))
  {
    var mem' := mem[d := mem[d][i := w]];
    LinkedDirs(mem, dirs, d, i, t, w);
    forall e, p: Page | e in dirs ensures Trans(mem', e, p) == Trans(mem, e, p) {
      if HasTable(mem, e, p / ENTRIES) { assert Table(mem, e, p / ENTRIES) !in dirs; }
    }
  }

  lemma LinkedDirs(mem: Memory, dirs: set<nat>, d: nat, i: nat, t: nat, w: u32)
    requires WellFormed(mem, dirs) && d in dirs && i < ENTRIES && !HasTable(mem, d, i)
    requires Plain(mem, dirs, t) && FrameOf(w) == t && Present(w)
    ensures var mem' := mem[d := mem[d][i := w]];
            && WellFormed(mem', dirs)
            && HasTable(mem', d, i) && Table(mem', d, i) == t
            && (forall g :: Plain(mem, dirs, g) && g != t ==> Plain(mem', dirs, g))
  {
    var mem' := mem[d := mem[d][i := w]];
    assert forall e, j :: e in dirs && 0 <= j < ENTRIES ==> HasTable(mem', e, j) == (HasTable(mem, e, j) || (e == d && j == i));
    assert forall e, j :: e in dirs && 0 <= j < ENTRIES ==> Table(mem', e, j) == if e == d && j == i then t else Table(mem, e, j);
  }

  /** write_page_pte: exactly one page of one directory changes its translation. */
  lemma WritePte(mem: Memory, dirs: set<nat>, d: nat, p: Page, w: u32)
    requires WellFormed(mem, dirs) && d in dirs && HasTable(mem, d, p / ENTRIES)
    ensures var t := Table(mem, d, p / ENTRIES);
            && t < |mem|
            && var mem' := mem[t := mem[t][p % ENTRIES := w]];
            && WellFormed(mem', dirs) && SameDirs(mem, mem', dirs)
            && (forall e, q: Page :: e in dirs ==> Trans(mem', e, q) == if e == d && q == p then MappingOf(w) else Trans(mem, e, q))
            && (forall g :: Plain(mem, dirs, g) ==> Plain(mem', dirs, g))
  {
    var t := Table(mem, d, p / ENTRIES);
    var mem' := mem[t := mem[t][p % ENTRIES := w]];
    assert t !in dirs;
    DirsDecide(mem, mem', dirs);
    forall e, q: Page | e in dirs
      ensures Trans(mem', e, q) == if e == d && q == p then MappingOf(w) else Trans(mem, e, q)
    {
      if HasTable(mem, e, q / ENTRIES) && Table(mem, e, q / ENTRIES) == t {
        assert e == d && q / ENTRIES == p / ENTRIES;
        SamePage(p, q);
      }
    }
  }

  lemma SamePage(p: Page, q: Page)
    requires q / ENTRIES == p / ENTRIES
    ensures q % ENTRIES == p % ENTRIES <==> q == p
  {}
}
