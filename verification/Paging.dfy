/**
  Two-level paging (section 4.3 "32-bit paging" of the Intel SDM, Volume 3A) and the
  recursive self-map that kernel/memory.c edits page tables through.

  Physical memory is a map from (frame, word) pairs to 32-bit words; a word that
  was never written reads as zero.  Addresses are unsigned 32-bit integers, so
  masking and shifting by constants is division and remainder.
 */
module Paging {
  import opened Outcomes

  const PG_SIZE := 4096
  const VLIMIT := 0x1_0000_0000
  const WINDOW := 0xffc0_0000  // the last 4 MB: the page tables seen through the self-map

  type Phys = map<(nat, nat), nat>

  function Entry(m: Phys, f: nat, i: nat): nat {
    if (f, i) in m then m[(f, i)] else 0
  }

  function Put(m: Phys, f: nat, i: nat, w: nat): (r: Phys)
    ensures forall g: nat, j: nat :: Entry(r, g, j) == if (g, j) == (f, i) then w else Entry(m, g, j)
  {
    m[(f, i) := w]
  }

  /** memset of a whole page */
  function ZeroFrame(m: Phys, f: nat): (r: Phys)
    ensures forall g: nat, j: nat :: Entry(r, g, j) == if g == f then 0 else Entry(m, g, j)
  {
    map k | k in m && k.0 != f :: m[k]
  }

  predicate Present(w: nat) { w % 2 == 1 }

  function FrameOf(w: nat): nat { w / PG_SIZE }

  /** paddr | PG_US_U | PG_RW_W | PG_P_1 */
  function MakeEntry(f: nat): (w: nat)
    ensures Present(w) && FrameOf(w) == f
  {
    f * PG_SIZE + 7
  }

  function PdeIdx(va: nat): (i: nat)
    ensures va < VLIMIT ==> i < 1024
  {
    va / 0x40_0000
  }

  function PteIdx(va: nat): (i: nat)
    ensures i < 1024
  {
    va / PG_SIZE % 1024
  }

  function PtePtr(va: nat): nat {
    WINDOW + va / 0x40_0000 * 0x40_0000 / 1024 + PteIdx(va) * 4
  }

  function PdePtr(va: nat): nat {
    0xffff_f000 + PdeIdx(va) * 4
  }

  /** A physical address: frame * PG_SIZE + off. */
  datatype Loc = Loc(frame: nat, off: nat)

  /** The hardware walk from the directory in frame d. */
  function Walk(m: Phys, d: nat, va: nat): Option<Loc>
    requires va < VLIMIT
  {
    var pde := Entry(m, d, PdeIdx(va));
    if !Present(pde) then None
    else
      var pte := Entry(m, FrameOf(pde), PteIdx(va));
      if !Present(pte) then None
      else Some(Loc(FrameOf(pte), va % PG_SIZE))
  }

  /** The last entry of directory d points at d itself. */
  predicate SelfMap(m: Phys, d: nat) {
    Entry(m, d, 1023) == MakeEntry(d)
  }

  // ----- The self-map --------------------------------------------------------------

  lemma PtePtrIndices(va: nat)
    requires va < VLIMIT
    ensures PtePtr(va) < VLIMIT && PtePtr(va) % 4 == 0
    ensures PdeIdx(PtePtr(va)) == 1023 && PteIdx(PtePtr(va)) == PdeIdx(va)
    ensures PtePtr(va) % PG_SIZE == PteIdx(va) * 4
  {
    hide PdeIdx, PteIdx, PtePtr;
    PtePtrIs(va);
    Split(PdeIdx(va), PteIdx(va) * 4);
  }

  lemma PtePtrIs(va: nat)
    ensures PtePtr(va) == WINDOW + PdeIdx(va) * PG_SIZE + PteIdx(va) * 4
  {
    var d := va / 0x40_0000;
    assert d * 0x40_0000 / 1024 == d * PG_SIZE;
  }

  /** A word of the window: its page is that of a table, its offset that of an entry. */
  lemma Split(d: nat, off: nat)
    requires d < 1024 && off < PG_SIZE
    ensures var p := WINDOW + d * PG_SIZE + off; p < VLIMIT && PdeIdx(p) == 1023 && PteIdx(p) == d && p % PG_SIZE == off
  {
    var p := WINDOW + d * PG_SIZE + off;
    assert p / PG_SIZE == 1023 * 1024 + d;
  }

  /** The directory entry is the page table entry of the page table entry. */
  lemma PdePtrIsPtePtrTwice(va: nat)
    requires va < VLIMIT
    ensures PdePtr(va) == PtePtr(PtePtr(va))
  {
    PtePtrIndices(va);
  }

  /** pte_ptr(va) is va's own entry word, reachable exactly when the page table exists. */
  lemma WalkPtePtr(m: Phys, d: nat, va: nat)
    requires va < VLIMIT && SelfMap(m, d)
    ensures PtePtr(va) < VLIMIT
    ensures var pde := Entry(m, d, PdeIdx(va));
            Walk(m, d, PtePtr(va)) == if Present(pde) then Some(Loc(FrameOf(pde), PteIdx(va) * 4)) else None
  {
    PtePtrIndices(va);
  }

  /** pde_ptr(va) is va's own directory entry, always reachable. */
  lemma WalkPdePtr(m: Phys, d: nat, va: nat)
    requires va < VLIMIT && SelfMap(m, d)
    ensures PdePtr(va) < VLIMIT && Walk(m, d, PdePtr(va)) == Some(Loc(d, PdeIdx(va) * 4))
  {
    PtePtrIndices(va);
    PdePtrIsPtePtrTwice(va);
    WalkPtePtr(m, d, PtePtr(va));
  }

  // ----- Mapping one page --------------------------------------------------------------

  /** What page_table_map does to memory: t is the frame a missing page table would take. */
  function MapWords(m: Phys, d: nat, va: nat, f: nat, t: nat): Phys
    requires va < VLIMIT
  {
    var pde := Entry(m, d, PdeIdx(va));
    if Present(pde) then
      Put(m, FrameOf(pde), PteIdx(va), MakeEntry(f))
    else
      Put(ZeroFrame(Put(m, d, PdeIdx(va), MakeEntry(t)), t), t, PteIdx(va), MakeEntry(f))
  }

  predicate SamePage(va: nat, u: nat) {
    va / PG_SIZE == u / PG_SIZE
  }

  /** va and u are translated through the same word of the same page table. */
  predicate SameEntry(m: Phys, d: nat, va: nat, u: nat)
    requires va < VLIMIT && u < VLIMIT
  {
    && PteIdx(va) == PteIdx(u)
    && Present(Entry(m, d, PdeIdx(va))) && Present(Entry(m, d, PdeIdx(u)))
    && FrameOf(Entry(m, d, PdeIdx(va))) == FrameOf(Entry(m, d, PdeIdx(u)))
  }

  /** No entry of directory d below the self-map uses frame g as a page table. */
  ghost predicate NotATable(m: Phys, d: nat, g: nat) {
    forall i: nat :: i < 1023 && Present(Entry(m, d, i)) ==> FrameOf(Entry(m, d, i)) != g
  }

  /** Words outside the entry and the fresh table are untouched, in every frame. */
  lemma MapWritesOnly(m: Phys, d: nat, va: nat, f: nat, t: nat, g: nat, i: nat)
    requires va < WINDOW && i < 1024 && (!Present(Entry(m, d, PdeIdx(va))) ==> t != d)
    ensures var pde := Entry(m, d, PdeIdx(va));
            Entry(MapWords(m, d, va, f, t), g, i) ==
              if Present(pde) then (if g == FrameOf(pde) && i == PteIdx(va) then MakeEntry(f) else Entry(m, g, i))
              else if g == t then (if i == PteIdx(va) then MakeEntry(f) else 0)
              else if g == d && i == PdeIdx(va) then MakeEntry(t)
              else Entry(m, g, i)
  {
  }

  lemma EntryFrame(f: nat)
    ensures Present(MakeEntry(f)) && FrameOf(MakeEntry(f)) == f
  {
  }

  lemma SamePageIndices(va: nat, u: nat)
    ensures SamePage(va, u) <==> PdeIdx(va) == PdeIdx(u) && PteIdx(va) == PteIdx(u)
  {
    PageOfIndices(va);
    PageOfIndices(u);
  }

  lemma PageOfIndices(va: nat)
    ensures va / PG_SIZE == PdeIdx(va) * 1024 + PteIdx(va)
  {
  }

  ghost predicate Translates(m: Phys, m': Phys, d: nat, va: nat, f: nat, u: nat)
    requires va < VLIMIT && u < VLIMIT
  {
    && SelfMap(m', d)
    && Walk(m', d, u) == if SamePage(va, u) || SameEntry(m, d, va, u) then Some(Loc(f, u % PG_SIZE)) else Walk(m, d, u)
  }

  lemma BelowWindow(u: nat)
    requires u < WINDOW
    ensures PdeIdx(u) < 1023 && PteIdx(u) < 1024
  {
  }

  lemma MapInTable(m: Phys, d: nat, va: nat, f: nat, t: nat, u: nat)
    requires va < WINDOW && u < WINDOW && SelfMap(m, d) && NotATable(m, d, d) && Present(Entry(m, d, PdeIdx(va)))
    ensures Translates(m, MapWords(m, d, va, f, t), d, va, f, u)
  {
    hide MapWords, MakeEntry, PdeIdx, PteIdx, FrameOf, Present, Entry, SamePage;
    SamePageIndices(va, u);
    BelowWindow(va);
    BelowWindow(u);
    EntryFrame(f);
    MapWritesOnly(m, d, va, f, t, d, PdeIdx(u));
    MapWritesOnly(m, d, va, f, t, d, 1023);
    MapWritesOnly(m, d, va, f, t, FrameOf(Entry(m, d, PdeIdx(u))), PteIdx(u));
  }

  lemma MapInFresh(m: Phys, d: nat, va: nat, f: nat, t: nat, u: nat)
    requires va < WINDOW && u < WINDOW && SelfMap(m, d) && !Present(Entry(m, d, PdeIdx(va))) && t != d && NotATable(m, d, d)
    requires NotATable(m, d, t)
    ensures Translates(m, MapWords(m, d, va, f, t), d, va, f, u)
  {
    hide MapWords, MakeEntry, PdeIdx, PteIdx, FrameOf, Present, Entry, SamePage;
    SamePageIndices(va, u);
    BelowWindow(va);
    BelowWindow(u);
    EntryFrame(f);
    EntryFrame(t);
    ZeroAbsent();
    MapWritesOnly(m, d, va, f, t, d, PdeIdx(u));
    MapWritesOnly(m, d, va, f, t, d, 1023);
    MapWritesOnly(m, d, va, f, t, t, PteIdx(u));
    MapWritesOnly(m, d, va, f, t, FrameOf(Entry(m, d, PdeIdx(u))), PteIdx(u));
  }

  lemma ZeroAbsent()
    ensures !Present(0)
  {
  }

  /**
    After page_table_map the page translates to the frame; every other page outside the
    window keeps its translation, unless it shares the very entry word (entries 0
    and 768 of the kernel directory share a page table).
   */
  lemma MapTranslates(m: Phys, d: nat, va: nat, f: nat, t: nat, u: nat)
    requires va < WINDOW && u < WINDOW && SelfMap(m, d)
    requires NotATable(m, d, d)
    requires !Present(Entry(m, d, PdeIdx(va))) ==> t != d && NotATable(m, d, t)
    ensures SelfMap(MapWords(m, d, va, f, t), d)
    ensures Walk(MapWords(m, d, va, f, t), d, u) ==
              if SamePage(va, u) || SameEntry(m, d, va, u)
              then Some(Loc(f, u % PG_SIZE))
              else Walk(m, d, u)
  {
    hide MapWords, Present, Entry, Walk;
    if Present(Entry(m, d, PdeIdx(va))) {
      MapInTable(m, d, va, f, t, u);
    } else {
      MapInFresh(m, d, va, f, t, u);
    }
  }

  /** A second mapping of the same page finds the entry present: the "pte repeat" assertion. */
  lemma MapThenPresent(m: Phys, d: nat, va: nat, f: nat, t: nat)
    requires va < WINDOW && t != d
    requires Present(Entry(m, d, PdeIdx(va))) ==> FrameOf(Entry(m, d, PdeIdx(va))) != d
    ensures var n := MapWords(m, d, va, f, t);
            Present(Entry(n, d, PdeIdx(va))) && Present(Entry(n, FrameOf(Entry(n, d, PdeIdx(va))), PteIdx(va)))
  {
  }
}
