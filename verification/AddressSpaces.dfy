/**
  The page level of kernel/memory.c: two frame pools, the kernel heap and one address
  space per process.  A space records its virtual bitmap and which frame each mapped
  page has; page numbers and frame numbers are addresses divided by PG_SIZE.

  The functions below are the specifications the methods of module Machine are proved
  against.
 */
module AddressSpaces {
  import opened Outcomes
  import opened Bitmaps

  const K_HEAP := 0xc0100        // K_HEAP_START
  const K_TOP := 0xffc00         // the self-map window
  const USER_BASE := 0x8048      // USER_VADDR_START
  const USER_STACK := 0xbffff    // USER_STACK3_VADDR
  const USER_BITS := 0xb7fb8     // pages from USER_VADDR_START to 0xc0000000
  const KERNEL_FRAMES := 0x200   // first frame of the kernel pool: 1 MB of page tables above the low 1 MB
  const MAX_PAGES := 3840

  type Pid = nat

  /** Whose pool and whose virtual bitmap: PF_KERNEL, or PF_USER of the running process. */
  datatype Id = Kernel | User(pid: Pid)

  datatype Space = Space(virt: seq<bool>, pages: map<nat, nat>)

  /** dir is the kernel page that holds the page directory; tables are the page-table frames. */
  datatype Proc = Proc(space: Space, tables: map<nat, nat>, dir: nat)

  datatype World = World(kf: seq<bool>, uf: seq<bool>, ustart: nat, kern: Space, procs: map<Pid, Proc>)

  predicate Has(w: World, id: Id) {
    id.User? ==> id.pid in w.procs
  }

  function SpaceOf(w: World, id: Id): Space
    requires Has(w, id)
  {
    if id.Kernel? then w.kern else w.procs[id.pid].space
  }

  function WithSpace(w: World, id: Id, s: Space): World
    requires Has(w, id)
  {
    if id.Kernel? then w.(kern := s) else w.(procs := w.procs[id.pid := w.procs[id.pid].(space := s)])
  }

  function BasePage(id: Id): nat {
    if id.Kernel? then K_HEAP else USER_BASE
  }

  function Pool(w: World, id: Id): seq<bool> {
    if id.Kernel? then w.kf else w.uf
  }

  function PoolStart(w: World, id: Id): nat {
    if id.Kernel? then KERNEL_FRAMES else w.ustart
  }

  function WithPool(w: World, id: Id, bits: seq<bool>): World {
    if id.Kernel? then w.(kf := bits) else w.(uf := bits)
  }

  // ----- Allocation -----------------------------------------------------------------

  /** palloc: a pool that is not full gives its first clear bit, so it never answers NULL. */
  function Palloc(bits: seq<bool>): (r: Outcome<nat>)
    ensures r.Ok? ==> r.value < |bits| && !bits[r.value] && forall i: nat :: i < r.value ==> bits[i]
    ensures r == Panic(BitmapFull) <==> Full(bits)
  {
    if Full(bits) then Panic(BitmapFull)
    else
      ScanOne(bits);
      Ok(FirstFit(bits, 1))
  }

  /** The entry for page v. */
  function WithPage(w: World, id: Id, v: nat, f: nat): World
    requires Has(w, id)
  {
    WithSpace(w, id, SpaceOf(w, id).(pages := SpaceOf(w, id).pages[v := f]))
  }

  /** A page table for entry pd of the process's directory, in the t-th frame of the kernel pool. */
  function WithTable(w: World, pid: Pid, pd: nat, t: nat): World
    requires pid in w.procs && t < |w.kf|
  {
    var p := w.procs[pid];
    w.(kf := w.kf[t := true], procs := w.procs[pid := p.(tables := p.tables[pd := KERNEL_FRAMES + t])])
  }

  predicate HasTable(w: World, id: Id, v: nat)
    requires Has(w, id)
  {
    id.User? ==> v / 1024 in w.procs[id.pid].tables
  }

  /** page_table_map of page v to frame f; a missing page table takes a kernel frame. */
  function PageMap(w: World, id: Id, v: nat, f: nat): Outcome<World>
    requires Has(w, id)
  {
    if v in SpaceOf(w, id).pages then Panic(PteRepeat)
    else if HasTable(w, id, v) then Ok(WithPage(w, id, v, f))
    else
      match Palloc(w.kf)
      case Panic(e) => Panic(e)
      case Ok(t) => Ok(WithPage(WithTable(w, id.pid, v / 1024, t), id, v, f))
  }

  /** One turn of malloc_page's loop. */
  function AddPage(w: World, id: Id, v: nat): Outcome<World>
    requires Has(w, id)
  {
    match Palloc(Pool(w, id))
    case Panic(e) => Panic(e)
    case Ok(i) => PageMap(WithPool(w, id, Pool(w, id)[i := true]), id, v, PoolStart(w, id) + i)
  }

  function AddPages(w: World, id: Id, v: nat, n: nat): (r: Outcome<World>)
    requires Has(w, id)
    ensures r.Ok? ==> Has(r.value, id)
    decreases n
  {
    if n == 0 then Ok(w)
    else
      match AddPage(w, id, v)
      case Panic(e) => Panic(e)
      case Ok(w1) => AddPages(w1, id, v + 1, n - 1)
  }

  function SetRange(s: seq<bool>, i: nat, n: nat, value: bool): (r: seq<bool>)
    ensures |r| == |s|
  {
    seq(|s|, j requires 0 <= j < |s| => if i <= j < i + n then value else s[j])
  }

  /** get_virtual_addr sets the bits of the run it found. */
  function Reserve(w: World, id: Id, i: nat, n: nat): (r: World)
    requires Has(w, id)
    ensures Has(r, id)
  {
    WithSpace(w, id, SpaceOf(w, id).(virt := SetRange(SpaceOf(w, id).virt, i, n, true)))
  }

  /** get_virtual_addr: the first fit of n pages, NULL when there is none. */
  function GetVirtualAddr(w: World, id: Id, n: nat): (r: Outcome<(World, Option<nat>)>)
    requires Has(w, id)
    ensures r.Ok? ==> Has(r.value.0, id)
    ensures r.Ok? && n == 1 ==> r.value.1.Some?
  {
    match ScanResult(SpaceOf(w, id).virt, n)
    case Panic(e) => Panic(e)
    case Ok(i) =>
      assert n == 1 ==> i != -1 by { if n == 1 { ScanOne(SpaceOf(w, id).virt); } }
      if i == -1 then Ok((w, None))
      else if id.User? && USER_STACK <= BasePage(id) + i then Panic(StackOverlap)
      else Ok((Reserve(w, id, i, n), Some(BasePage(id) + i)))
  }

  /** malloc_page */
  function MallocPage(w: World, id: Id, n: nat): (r: Outcome<(World, Option<nat>)>)
    requires Has(w, id)
    ensures r.Ok? ==> Has(r.value.0, id)
    ensures r.Ok? && n == 1 ==> r.value.1.Some?
  {
    if !(0 < n < MAX_PAGES) then Panic(BadPageCount)
    else
      match GetVirtualAddr(w, id, n)
      case Panic(e) => Panic(e)
      case Ok((w0, None)) => Ok((w0, None))
      case Ok((w0, Some(v))) =>
        match AddPages(w0, id, v, n)
        case Panic(e) => Panic(e)
        case Ok(w1) => Ok((w1, Some(v)))
  }

  /** get_a_page: one page at a chosen address; nothing checks that the address is free. */
  function GetAPage(w: World, id: Id, v: nat): Outcome<World>
    requires Has(w, id) && BasePage(id) <= v < BasePage(id) + |SpaceOf(w, id).virt|
  {
    AddPage(Reserve(w, id, v - BasePage(id), 1), id, v)
  }

  /** get_kernel_pages where the caller clears the pages, which stops the machine on NULL. */
  function KernelPages(w: World, n: nat): Outcome<(World, nat)> {
    match MallocPage(w, Kernel, n)
    case Panic(e) => Panic(e)
    case Ok((w1, None)) => Panic(NullPointer)
    case Ok((w1, Some(v))) => Ok((w1, v))
  }

  const BITMAP_PAGES := (USER_BITS / 8 + 4095) / 4096

  /** A process with nothing mapped yet. */
  function NewProc(w: World, pid: Pid, dir: nat): World {
    w.(procs := w.procs[pid := Proc(Space(Clear(USER_BITS), map[]), map[], dir)])
  }

  /** process_execute: the PCB, the virtual bitmap and the page directory, then an empty user space. */
  function ProcessExecute(w: World, pid: Pid): Outcome<World> {
    match KernelPages(w, 1)
    case Panic(e) => Panic(e)
    case Ok((w1, pcb)) =>
      match KernelPages(w1, BITMAP_PAGES)
      case Panic(e) => Panic(e)
      case Ok((w2, bits)) =>
        match KernelPages(w2, 1)
        case Panic(e) => Panic(e)
        case Ok((w3, dir)) =>
          Ok(NewProc(w3, pid, dir))
  }

  // ----- Release --------------------------------------------------------------------

  predicate InPools(w: World, f: nat) {
    (w.ustart <= f && f - w.ustart < |w.uf|) || (f < w.ustart && 0 <= f - KERNEL_FRAMES < |w.kf|)
  }

  /** pfree picks the pool by comparing with the first user frame. */
  function Pfree(w: World, f: nat): World
    requires InPools(w, f)
  {
    if w.ustart <= f then w.(uf := w.uf[f - w.ustart := false])
    else w.(kf := w.kf[f - KERNEL_FRAMES := false])
  }

  /** What the callers of mfree_page must see to: the pages are mapped, and to pool frames. */
  predicate Mapped(w: World, id: Id, v: nat, n: nat) {
    && Has(w, id)
    && BasePage(id) <= v && v + n <= BasePage(id) + |SpaceOf(w, id).virt|
    && forall u :: v <= u < v + n ==> u in SpaceOf(w, id).pages && InPools(w, SpaceOf(w, id).pages[u])
  }

  /** One turn of mfree_page's loop. */
  function DropPage(w: World, id: Id, v: nat): World
    requires Mapped(w, id, v, 1)
  {
    var s := SpaceOf(w, id);
    WithSpace(Pfree(w, s.pages[v]), id, s.(pages := s.pages - {v}))
  }

  function DropPages(w: World, id: Id, v: nat, n: nat): (r: World)
    requires Mapped(w, id, v, n)
    ensures Has(r, id) && |SpaceOf(r, id).virt| == |SpaceOf(w, id).virt|
    decreases n
  {
    if n == 0 then w else DropPages(DropPage(w, id, v), id, v + 1, n - 1)
  }

  /** mfree_page, with vaddr_remove for its last step. */
  function MfreePage(w: World, id: Id, v: nat, n: nat): World
    requires Mapped(w, id, v, n)
  {
    var w1 := DropPages(w, id, v, n);
    var s := SpaceOf(w1, id);
    WithSpace(w1, id, s.(virt := SetRange(s.virt, v - BasePage(id), n, false)))
  }

  // ----- The invariant ----------------------------------------------------------------

  /** A page's bit is set exactly when the page is mapped. */
  ghost predicate SpaceInv(s: Space, base: nat) {
    && (forall v <- s.pages :: base <= v < base + |s.virt|)
    && (forall i :: 0 <= i < |s.virt| ==> (s.virt[i] <==> base + i in s.pages))
  }

  /** What a frame can be in use for. */
  datatype Owner = KernelPage(v: nat) | UserPage(pid: Pid, v: nat) | PageTable(pid: Pid, pd: nat)

  ghost predicate Owns(w: World, o: Owner, f: nat) {
    match o
    case KernelPage(v) => v in w.kern.pages && w.kern.pages[v] == f
    case UserPage(p, v) => p in w.procs && v in w.procs[p].space.pages && w.procs[p].space.pages[v] == f
    case PageTable(p, pd) => p in w.procs && pd in w.procs[p].tables && w.procs[p].tables[pd] == f
  }

  /** The bit of frame f in a pool whose first frame is start. */
  ghost predicate BitAt(bits: seq<bool>, start: nat, f: nat) {
    start <= f < start + |bits| && bits[f - start]
  }

  ghost predicate KernelBit(w: World, f: nat) {
    BitAt(w.kf, KERNEL_FRAMES, f)
  }

  ghost predicate UserBit(w: World, f: nat) {
    BitAt(w.uf, w.ustart, f)
  }

  /** What a frame is used for is one thing, and its bit is set; user pages alone have user frames. */
  ghost predicate Owned(w: World) {
    && KERNEL_FRAMES + |w.kf| <= w.ustart
    && (forall o, f :: Owns(w, o, f) ==> if o.UserPage? then UserBit(w, f) else KernelBit(w, f))
    && (forall o, o', f :: Owns(w, o, f) && Owns(w, o', f) ==> o == o')
  }

  /** Every set bit is for something. */
  ghost predicate Covered(w: World) {
    forall f :: KernelBit(w, f) || UserBit(w, f) ==> exists o :: Owns(w, o, f)
  }

  /** Each set bit has exactly one owner. */
  ghost predicate FramesInv(w: World) {
    Owned(w) && Covered(w)
  }

  ghost predicate ProcInv(w: World, p: Proc) {
    && SpaceInv(p.space, USER_BASE) && |p.space.virt| == USER_BITS
    && (forall v <- p.space.pages :: v / 1024 in p.tables)
    && (forall pd <- p.tables :: pd < 768)
    && p.dir in w.kern.pages
  }

  /** No two processes have the same page directory. */
  ghost predicate OwnDirectories(w: World) {
    forall p <- w.procs, q <- w.procs :: p != q ==> w.procs[p].dir != w.procs[q].dir
  }

  ghost predicate Inv(w: World) {
    && FramesInv(w)
    && SpaceInv(w.kern, K_HEAP) && |w.kern.virt| == |w.kf| && K_HEAP + |w.kern.virt| <= K_TOP
    && (forall p <- w.procs :: ProcInv(w, w.procs[p]))
    && OwnDirectories(w)
  }
}
