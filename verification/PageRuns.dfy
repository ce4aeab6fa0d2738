/**
  All runs of the page level, from the pools mem_pool_init sets up.
 */
module PageRuns {
  import opened Outcomes
  import opened Bitmaps
  import opened AddressSpaces
  import opened PageAllocation
  import opened PageRelease

  // ----- mem_pool_init -------------------------------------------------------------------

  const MEM_BITMAP_BASE := 0xc009_a000
  const MAIN_PCB := 0xc009_e000
  const USED_MEM := 0x10_0000 + 256 * 4096

  /** First byte and length of the three bitmaps, first frame and bits of the two pools. */
  datatype Pools = Pools(kbm: nat, kbm_len: nat, ubm: nat, ubm_len: nat, vbm: nat, vbm_len: nat, kstart: nat, ustart: nat)

  /** all_mem is a uint32_t, and so is the difference. */
  function MemPoolInit(all_mem: nat): Pools {
    var free_pages := (all_mem - USED_MEM) % 0x1_0000_0000 / 4096;
    var kernel_pages := free_pages / 2;
    var user_pages := free_pages - kernel_pages;
    var k, u := kernel_pages / 8, user_pages / 8;
    Pools(MEM_BITMAP_BASE, k, MEM_BITMAP_BASE + k, u, MEM_BITMAP_BASE + k + u, k,
          USED_MEM / 4096, USED_MEM / 4096 + kernel_pages)
  }

  /** The three bitmaps follow each other below the main PCB, and the two pools follow each other inside the memory. */
  predicate GoodLayout(p: Pools, all_mem: nat) {
    && MEM_BITMAP_BASE <= p.kbm && p.kbm + p.kbm_len <= p.ubm && p.ubm + p.ubm_len <= p.vbm
    && p.vbm + p.vbm_len <= MAIN_PCB
    && p.kstart == KERNEL_FRAMES && p.kstart + 8 * p.kbm_len <= p.ustart
    && (p.ustart + 8 * p.ubm_len) * 4096 <= all_mem
  }

  /** 2 MB up to 343 MB and a bit: outside that the bitmaps run into the main PCB, or the subtraction wraps. */
  lemma MemPoolInitLayout(all_mem: nat)
    requires all_mem < 0x1_0000_0000
    ensures GoodLayout(MemPoolInit(all_mem), all_mem) <==> USED_MEM <= all_mem < USED_MEM + 87392 * 4096
  {
  }

  /** The two pools share the free memory evenly and waste less than a byte of bits each; the kernel's virtual pages are as many as its frames. */
  lemma PoolsShareMemory(all_mem: nat)
    requires USED_MEM <= all_mem < 0x1_0000_0000
    ensures var p, last := MemPoolInit(all_mem), all_mem / 4096;
            && 0 <= (last - p.ustart) - (p.ustart - p.kstart) <= 1
            && 0 <= p.ustart - (p.kstart + 8 * p.kbm_len) < 8 && 0 <= last - (p.ustart + 8 * p.ubm_len) < 8
            && p.vbm_len == p.kbm_len
  {
  }

  function Boot(all_mem: nat): World {
    var p := MemPoolInit(all_mem);
    World(Clear(8 * p.kbm_len), Clear(8 * p.ubm_len), p.ustart,
          Space(Clear(8 * p.vbm_len), map[]), map[])
  }

  lemma BootInv(all_mem: nat)
    requires USED_MEM <= all_mem < USED_MEM + 87392 * 4096
    ensures Inv(Boot(all_mem))
  {
    MemPoolInitLayout(all_mem);
    assert forall f :: !KernelBit(Boot(all_mem), f) && !UserBit(Boot(all_mem), f);
  }

  // ----- Steps ------------------------------------------------------------------------------

  datatype Op =
    | GetPages(id: Id, n: nat)            // get_kernel_pages, get_user_pages, and the pages of sys_malloc
    | FreePages(id: Id, v: nat, n: nat)   // mfree_page
    | GetPage(id: Id, v: nat)             // get_a_page
    | Spawn(pid: Pid)                     // process_execute

  /** What the callers see to: they free pages they have, never a directory, and place a page only where none is. */
  ghost predicate Legal(w: World, op: Op) {
    match op
    case GetPages(id, n) => Has(w, id)
    case FreePages(id, v, n) => Mapped(w, id, v, n) && (id.Kernel? ==> forall p <- w.procs :: !(v <= w.procs[p].dir < v + n))
    case GetPage(id, v) => Has(w, id) && 0 <= v - BasePage(id) < |SpaceOf(w, id).virt| && v !in SpaceOf(w, id).pages
    case Spawn(pid) => pid !in w.procs
  }

  ghost function Step(w: World, op: Op): Outcome<World>
    requires Legal(w, op)
  {
    match op
    case GetPages(id, n) => (match MallocPage(w, id, n) case Panic(e) => Panic(e) case Ok((w1, _)) => Ok(w1))
    case FreePages(id, v, n) => Ok(MfreePage(w, id, v, n))
    case GetPage(id, v) => GetAPage(w, id, v)
    case Spawn(pid) => ProcessExecute(w, pid)
  }

  lemma GetAPageCorrect(w: World, id: Id, v: nat)
    requires Inv(w) && Legal(w, GetPage(id, v))
    ensures match GetAPage(w, id, v)
            case Panic(e) => e == BitmapFull
            case Ok(w') => Inv(w') && Placed(w, w', id, v, 1)
  {
    hide Owned, Covered, SpaceGrows, RestKept, AddPage;
    var i := v - BasePage(id);
    var w0 := Reserve(w, id, i, 1);
    assert SpaceInv(SpaceOf(w, id), BasePage(id));
    assert !SpaceOf(w, id).virt[i];
    assert ClearRun(SpaceOf(w, id).virt, i, 1);
    AllocationBegins(w, id, i, 1);
    AddsOne(w0, id, v);
    var r := AddPage(w0, id, v);
    if r.Ok? {
      AllocationEnds(w, r.value, id, i, 1);
      GrownInv(w, r.value, id, v, 1);
    }
  }

  /** A page that is mapped already stops get_a_page on its entry, and only such a page, unless the full pool has done so before. */
  lemma GetAPageTwice(w: World, id: Id, v: nat)
    requires Has(w, id) && 0 <= v - BasePage(id) < |SpaceOf(w, id).virt|
    ensures GetAPage(w, id, v) == Panic(PteRepeat) <==> v in SpaceOf(w, id).pages && !Full(Pool(w, id))
    ensures Full(Pool(w, id)) ==> GetAPage(w, id, v) == Panic(BitmapFull)
  {
  }

  /** The index that get_a_page computes, in unsigned words of 32 bits. */
  function PageIndex(va: nat, start: nat): nat {
    (va - start) % 0x1_0000_0000 / 4096
  }

  /**
    The assertion of get_a_page that the index is not negative holds for every address, because the
    difference wraps around; and the index is one of the bitmap exactly when the page is one of the pool.
   */
  lemma IndexNeverNegative(va: nat, first: nat, bits: nat)
    requires va < 0x1_0000_0000 && first + bits <= 0x10_0000
    ensures 0 <= PageIndex(va, first * 4096) < 0x8000_0000
    ensures PageIndex(va, first * 4096) < bits <==> first <= va / 4096 < first + bits
    ensures first <= va / 4096 ==> PageIndex(va, first * 4096) == va / 4096 - first
  {
    var d := va - first * 4096;
    if va / 4096 < first {
      assert d % 0x1_0000_0000 == d + 0x1_0000_0000;
    } else {
      assert d % 0x1_0000_0000 == d;
    }
  }

  /** A kernel allocation touches the kernel's pages and frames only. */
  ghost predicate KernelGrows(w: World, w': World) {
    && Inv(w') && w'.uf == w.uf && w'.ustart == w.ustart && w'.procs == w.procs
    && Extends(w.kern.pages, w'.kern.pages)
  }

  lemma KernelPagesCorrect(w: World, n: nat)
    requires Inv(w)
    ensures match KernelPages(w, n)
            case Panic(e) => (e == BadPageCount && !(0 < n < MAX_PAGES)) || e == BitmapFull || e == NullPointer
            case Ok((w', v)) => n > 0 && KernelGrows(w, w') && v !in w.kern.pages && v in w'.kern.pages
  {
    MallocPageCorrect(w, Kernel, n);
    var r := KernelPages(w, n);
    if r.Ok? {
      FreshRange(w, Kernel, r.value.1, n);
    }
  }

  /** process_execute adds one process with an empty space of its own and touches no other. */
  lemma ProcessExecuteCorrect(w: World, pid: Pid)
    requires Inv(w) && pid !in w.procs
    ensures match ProcessExecute(w, pid)
            case Panic(e) => e == BitmapFull || e == NullPointer
            case Ok(w') =>
              && Inv(w') && w'.uf == w.uf && w'.ustart == w.ustart && Extends(w.kern.pages, w'.kern.pages)
              && pid in w'.procs && w'.procs == w.procs[pid := w'.procs[pid]]
              && w'.procs[pid].space.pages == map[] && w'.procs[pid].tables == map[]
              && w'.procs[pid].dir !in w.kern.pages
  {
    KernelPagesCorrect(w, 1);
    var r1 := KernelPages(w, 1);
    if r1.Ok? {
      var w1 := r1.value.0;
      KernelPagesCorrect(w1, BITMAP_PAGES);
      var r2 := KernelPages(w1, BITMAP_PAGES);
      if r2.Ok? {
        var w2 := r2.value.0;
        KernelPagesCorrect(w2, 1);
        var r3 := KernelPages(w2, 1);
        if r3.Ok? {
          AddProcess(r3.value.0, pid, r3.value.1);
        }
      }
    }
  }

  /** The n kernel pages from v, none of which was mapped, are what after has over before. */
  ghost predicate Gains(before: map<nat, nat>, after: map<nat, nat>, v: nat, n: nat) {
    && (forall u: nat :: v <= u < v + n ==> u !in before)
    && forall u: nat :: u in after <==> u in before || v <= u < v + n
  }

  lemma KernelPagesTaken(w: World, n: nat)
    requires Inv(w) && KernelPages(w, n).Ok?
    ensures Gains(w.kern.pages, KernelPages(w, n).value.0.kern.pages, KernelPages(w, n).value.1, n) && Inv(KernelPages(w, n).value.0)
  {
    hide Inv, IsFirstFit, NewTable, MallocPage;
    MallocPageCorrect(w, Kernel, n);
    FreshRange(w, Kernel, KernelPages(w, n).value.1, n);
  }

  const BITMAP_BYTES := (0xc000_0000 - 0x804_8000) / 4096 / 8   // one bit for each user page from USER_VADDR_START

  /** A process's bitmap has a bit for each page from USER_VADDR_START to the kernel's half, the stack's last. */
  lemma UserBitmapCovers()
    ensures USER_BITS == 8 * BITMAP_BYTES && USER_BASE * 4096 == 0x804_8000
    ensures USER_BASE + USER_BITS == 0xc000_0000 / 4096 == USER_STACK + 1
  {
  }

  /**
    What process_execute takes of the kernel's pages: one for the PCB, the least run of n from v that holds
    the process's bitmap, and one for the directory, all different and none of them in use before.
   */
  ghost predicate Takes(before: map<nat, nat>, after: map<nat, nat>, pcb: nat, v: nat, n: nat, dir: nat) {
    && (n - 1) * 4096 < BITMAP_BYTES <= n * 4096
    && pcb != dir && !(v <= pcb < v + n) && !(v <= dir < v + n)
    && pcb !in before && dir !in before && (forall u: nat :: v <= u < v + n ==> u !in before)
    && forall u: nat :: u in after <==> u in before || u == pcb || u == dir || v <= u < v + n
  }

  lemma ProcessExecuteTakes(w: World, pid: Pid) returns (pcb: nat, v: nat, n: nat)
    requires Inv(w) && pid !in w.procs && ProcessExecute(w, pid).Ok?
    ensures KernelPages(w, 1).Ok? && KernelPages(KernelPages(w, 1).value.0, BITMAP_PAGES).Ok?
    ensures v == KernelPages(KernelPages(w, 1).value.0, BITMAP_PAGES).value.1 && n == BITMAP_PAGES
    ensures pid in ProcessExecute(w, pid).value.procs
    ensures Takes(w.kern.pages, ProcessExecute(w, pid).value.kern.pages, pcb, v, n, ProcessExecute(w, pid).value.procs[pid].dir)
  {
    hide Inv, KernelPages, Takes, Gains;
    KernelPagesTaken(w, 1);
    var w1 := KernelPages(w, 1).value.0;
    KernelPagesTaken(w1, BITMAP_PAGES);
    var w2 := KernelPages(w1, BITMAP_PAGES).value.0;
    KernelPagesTaken(w2, 1);
    pcb, v, n := KernelPages(w, 1).value.1, KernelPages(w1, BITMAP_PAGES).value.1, BITMAP_PAGES;
    var w3, dir := KernelPages(w2, 1).value.0, KernelPages(w2, 1).value.1;
    GainsThree(w.kern.pages, w1.kern.pages, w2.kern.pages, w3.kern.pages, pcb, v, n, dir);
  }

  lemma GainsThree(k0: map<nat, nat>, k1: map<nat, nat>, k2: map<nat, nat>, k3: map<nat, nat>, pcb: nat, v: nat, n: nat, dir: nat)
    requires Gains(k0, k1, pcb, 1) && Gains(k1, k2, v, n) && Gains(k2, k3, dir, 1) && (n - 1) * 4096 < BITMAP_BYTES <= n * 4096
    ensures Takes(k0, k3, pcb, v, n, dir)
  {
    assert pcb in k1 && pcb in k2 && dir !in k2;
    forall u: nat | v <= u < v + n
      ensures u in k2 && u !in k0
    {
      assert u !in k1;
    }
    forall u: nat
      ensures u in k3 <==> u in k0 || u == pcb || u == dir || v <= u < v + n
    {
      assert u in k1 <==> u in k0 || u == pcb;
      assert u in k2 <==> u in k1 || v <= u < v + n;
      assert u in k3 <==> u in k2 || u == dir;
    }
  }

  lemma AddProcess(w: World, pid: Pid, dir: nat)
    requires Inv(w) && pid !in w.procs && dir in w.kern.pages && forall p <- w.procs :: w.procs[p].dir != dir
    ensures Inv(NewProc(w, pid, dir))
  {
    var w' := NewProc(w, pid, dir);
    assert forall o, f :: Owns(w', o, f) <==> Owns(w, o, f);
    assert forall f :: KernelBit(w', f) <==> KernelBit(w, f);
    assert forall f :: UserBit(w', f) <==> UserBit(w, f);
    forall p <- w'.procs
      ensures ProcInv(w', w'.procs[p])
    {
      assert p != pid ==> ProcInv(w, w.procs[p]);
    }
  }

  lemma StepCorrect(w: World, op: Op)
    requires Inv(w) && Legal(w, op)
    ensures match Step(w, op) case Panic(e) => e != PteRepeat case Ok(w') => Inv(w')
  {
    match op
    case GetPages(id, n) => MallocPageCorrect(w, id, n);
    case FreePages(id, v, n) => MfreePageCorrect(w, id, v, n);
    case GetPage(id, v) => GetAPageCorrect(w, id, v);
    case Spawn(pid) => ProcessExecuteCorrect(w, pid);
  }

  // ----- Runs ----------------------------------------------------------------------------------

  /** ws are the worlds of a run that took the steps ops. */
  ghost predicate IsRun(ws: seq<World>, ops: seq<Op>) {
    && |ws| == |ops| + 1
    && forall i :: 0 <= i < |ops| ==> Legal(ws[i], ops[i]) && Step(ws[i], ops[i]) == Ok(ws[i + 1])
  }

  /** Every world of every run satisfies the invariant. */
  lemma {:induction false} RunInv(ws: seq<World>, ops: seq<Op>, i: nat)
    requires IsRun(ws, ops) && Inv(ws[0]) && i <= |ops|
    ensures Inv(ws[i])
  {
    if i > 0 {
      RunInv(ws, ops, i - 1);
      StepCorrect(ws[i - 1], ops[i - 1]);
    }
  }

  ghost predicate BootedRun(all_mem: nat, ws: seq<World>, ops: seq<Op>) {
    USED_MEM <= all_mem < USED_MEM + 87392 * 4096 && IsRun(ws, ops) && ws[0] == Boot(all_mem)
  }

  /** However a run from boot goes on, it does not stop on a present page table entry. */
  lemma NoPteRepeat(all_mem: nat, ws: seq<World>, ops: seq<Op>, op: Op)
    requires BootedRun(all_mem, ws, ops) && Legal(ws[|ops|], op)
    ensures Step(ws[|ops|], op) != Panic(PteRepeat)
  {
    BootInv(all_mem);
    RunInv(ws, ops, |ops|);
    StepCorrect(ws[|ops|], op);
  }

  /** A frame's bit is set exactly when it backs one mapping or one page table, and then only one. */
  lemma FramesAccounted(all_mem: nat, ws: seq<World>, ops: seq<Op>, f: nat)
    requires BootedRun(all_mem, ws, ops)
    ensures KernelBit(ws[|ops|], f) || UserBit(ws[|ops|], f) <==> exists o :: Owns(ws[|ops|], o, f)
    ensures forall o, o' :: Owns(ws[|ops|], o, f) && Owns(ws[|ops|], o', f) ==> o == o'
  {
    BootInv(all_mem);
    RunInv(ws, ops, |ops|);
  }

  /** No frame of a user page is shared: not between processes, not within one, and not with the kernel. */
  lemma UserFramesSeparate(all_mem: nat, ws: seq<World>, ops: seq<Op>, p: Pid, u: nat)
    requires BootedRun(all_mem, ws, ops)
    requires p in ws[|ops|].procs && u in ws[|ops|].procs[p].space.pages
    ensures var w, f := ws[|ops|], ws[|ops|].procs[p].space.pages[u];
            && (forall q, v :: q in w.procs && v in w.procs[q].space.pages && (q, v) != (p, u) ==>
                  w.procs[q].space.pages[v] != f)
            && (forall q, pd :: q in w.procs && pd in w.procs[q].tables ==> w.procs[q].tables[pd] != f)
            && (forall v <- w.kern.pages :: w.kern.pages[v] != f)
  {
    BootInv(all_mem);
    RunInv(ws, ops, |ops|);
    var w, f := ws[|ops|], ws[|ops|].procs[p].space.pages[u];
    assert Owns(w, UserPage(p, u), f);
    forall q, v | q in w.procs && v in w.procs[q].space.pages && w.procs[q].space.pages[v] == f
      ensures (q, v) == (p, u)
    {
      assert Owns(w, UserPage(q, v), f);
    }
    forall q, pd | q in w.procs && pd in w.procs[q].tables
      ensures w.procs[q].tables[pd] != f
    {
      assert Owns(w, PageTable(q, pd), w.procs[q].tables[pd]);
    }
    forall v <- w.kern.pages
      ensures w.kern.pages[v] != f
    {
      assert Owns(w, KernelPage(v), w.kern.pages[v]);
    }
  }

  /** A page's bit in its virtual bitmap is set exactly when the page is mapped. */
  lemma BitsMatchMappings(all_mem: nat, ws: seq<World>, ops: seq<Op>, id: Id, i: nat)
    requires BootedRun(all_mem, ws, ops) && Has(ws[|ops|], id) && i < |SpaceOf(ws[|ops|], id).virt|
    ensures SpaceOf(ws[|ops|], id).virt[i] <==> BasePage(id) + i in SpaceOf(ws[|ops|], id).pages
  {
    BootInv(all_mem);
    RunInv(ws, ops, |ops|);
    assert SpaceInv(SpaceOf(ws[|ops|], id), BasePage(id));
  }
}
