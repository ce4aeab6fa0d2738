/**
  All runs of the whole memory system: the kernel's heap and the heaps of all processes, process
  creation, and pages taken without a heap, in any order.
 */
module HeapRuns {
  import opened Outcomes
  import opened Bitmaps
  import opened AddressSpaces
  import opened PageAllocation
  import opened PageRelease
  import opened PageRuns
  import opened Arenas
  import opened Heaps

  /**
    The world, and for the kernel and every process its heap, what is allocated from it, and the
    pages it holds that are not the heap's: thread structures, bitmaps, directories, stacks.
   */
  datatype Conf = Conf(w: World, hs: map<Id, Heap>, lives: map<Id, Live>, raw: map<Id, set<nat>>)

  datatype Event =
    | Malloc(id: Id, size: nat)    // sys_malloc
    | Free(id: Id, p: nat)         // sys_free; clients free only what is live
    | Exec(pid: Pid)               // process_execute, with block_desc_init for the new process
    | Place(id: Id, v: nat)        // get_a_page: a process's stack in start_process
    | Take(id: Id, n: nat)         // get_kernel_pages, get_user_pages

  /** The bytes of the caller's frame pool, the most that sys_malloc tries to give. */
  datatype Limits = Limits(kernel: nat, user: nat)

  function Limit(lim: Limits, id: Id): nat {
    if id.Kernel? then lim.kernel else lim.user
  }

  ghost predicate CanHappen(c: Conf, e: Event) {
    match e
    case Malloc(id, _) => id in c.hs && id in c.lives && Has(c.w, id) && |c.hs[id].free| == DESCS
    case Free(id, p) => id in c.hs && id in c.lives && p in c.lives[id] && CanFree(c.w, c.hs[id], id, p)
    case Exec(pid) => pid !in c.w.procs && Kernel in c.raw
    case Place(id, v) => id in c.raw && Legal(c.w, GetPage(id, v))
    case Take(id, n) => id in c.raw && Has(c.w, id)
  }

  function Gets(live: Live, p: nat, size: nat): Live {
    live[p := size]
  }

  function Pages(v: nat, n: nat): (s: set<nat>)
    ensures forall u: nat :: u in s <==> v <= u < v + n
  {
    if n == 0 then {} else Pages(v, n - 1) + {v + n - 1}
  }

  ghost function Next(lim: Limits, c: Conf, e: Event): Outcome<Conf>
    requires CanHappen(c, e)
  {
    match e
    case Malloc(id, size) =>
      (match SysMalloc(c.w, c.hs[id], id, Limit(lim, id), size)
       case Panic(f) => Panic(f)
       case Ok((w, h, None)) => Ok(c.(w := w, hs := c.hs[id := h]))
       case Ok((w, h, Some(p))) => Ok(c.(w := w, hs := c.hs[id := h], lives := c.lives[id := Gets(c.lives[id], p, size)])))
    case Free(id, p) =>
      (match SysFree(c.w, c.hs[id], id, p)
       case Panic(f) => Panic(f)
       case Ok((w, h)) => Ok(c.(w := w, hs := c.hs[id := h], lives := c.lives[id := c.lives[id] - {p}])))
    case Exec(pid) =>
      (match ProcessExecute(c.w, pid)
       case Panic(f) => Panic(f)
       case Ok(w) =>
         Ok(Conf(w, c.hs[User(pid) := EMPTY_HEAP], c.lives[User(pid) := map[]],
                 c.raw[Kernel := c.raw[Kernel] + (w.kern.pages.Keys - c.w.kern.pages.Keys)][User(pid) := {}])))
    case Place(id, v) =>
      (match GetAPage(c.w, id, v)
       case Panic(f) => Panic(f)
       case Ok(w) => Ok(c.(w := w, raw := c.raw[id := c.raw[id] + {v}])))
    case Take(id, n) =>
      (match MallocPage(c.w, id, n)
       case Panic(f) => Panic(f)
       case Ok((w, None)) => Ok(c.(w := w))
       case Ok((w, Some(v))) => Ok(c.(w := w, raw := c.raw[id := c.raw[id] + Pages(v, n)])))
  }

  // ----- The invariant -------------------------------------------------------------------------------

  /** The pages of a space are its heap's and the others, and none is both. */
  ghost predicate Split(w: World, h: Heap, id: Id, raw: set<nat>) {
    && Has(w, id)
    && (forall u: nat :: u in SpaceOf(w, id).pages <==> HeapPage(h, u) || u in raw)
    && (forall u: nat :: u in raw ==> !HeapPage(h, u))
  }

  ghost predicate HeapOk(c: Conf, id: Id)
    requires id in c.hs && id in c.lives && id in c.raw
  {
    HeapInv(c.hs[id], c.lives[id]) && Split(c.w, c.hs[id], id, c.raw[id])
  }

  /** A heap for the kernel and for each process, and for nobody else; page directories are no heap pages. */
  ghost predicate All(c: Conf) {
    && Inv(c.w) && (forall id :: id in c.hs <==> Has(c.w, id)) && c.hs.Keys == c.lives.Keys == c.raw.Keys
    && (forall id <- c.hs :: HeapOk(c, id))
    && (forall p <- c.w.procs :: c.w.procs[p].dir in c.raw[Kernel])
  }

  lemma SoundHere(c: Conf, id: Id)
    requires All(c) && id in c.hs
    ensures Sound(c.w, c.hs[id], id, c.lives[id]) && |c.hs[id].free| == DESCS
  {
    hide Inv, WeakInv, NoneFull, HeapPage;
    assert HeapOk(c, id);
    assert HeapOk(c, Kernel);
    FreeListsCount(c.hs[id], c.lives[id]);
  }

  // ----- Steps that touch one space -----------------------------------------------------------------------

  /** w' differs from w in one space at most, and in the pools. */
  ghost predicate OnlyIn(w: World, w': World, id: Id) {
    && w'.procs.Keys == w.procs.Keys
    && (forall p <- w.procs :: w'.procs[p].dir == w.procs[p].dir)
    && (forall j: Id :: j != id && Has(w, j) ==> SpaceOf(w', j) == SpaceOf(w, j))
  }

  lemma PlacedOnly(w: World, w': World, id: Id, v: nat, n: nat)
    requires Placed(w, w', id, v, n)
    ensures OnlyIn(w, w', id)
  {
  }

  /** The world without the heap's pages, from which Accounts counts. */
  ghost function Bare(w: World, id: Id, raw: set<nat>): World
    requires Has(w, id)
  {
    var s := SpaceOf(w, id);
    WithSpace(w, id, s.(pages := map u | u in s.pages && u in raw :: s.pages[u]))
  }

  lemma BareAccounts(w: World, h: Heap, id: Id, raw: set<nat>)
    requires Split(w, h, id, raw)
    ensures Accounts(Bare(w, id, raw), w, h, id)
  {
    hide HeapPage;
    var w0 := Bare(w, id, raw);
    if id.User? {
      assert w0.procs[id.pid := w.procs[id.pid]] == w.procs;
    }
  }

  lemma AccountsSplit(w: World, w': World, h: Heap, id: Id, raw: set<nat>)
    requires Has(w, id) && Accounts(Bare(w, id, raw), w', h, id) && forall u <- raw :: u in SpaceOf(w, id).pages
    ensures Split(w', h, id, raw) && OnlyIn(w, w', id)
  {
    hide HeapPage;
  }

  lemma SplitKept(w: World, w': World, id: Id, h: Heap, j: Id, raw: set<nat>)
    requires OnlyIn(w, w', id) && j != id && Split(w, h, j, raw)
    ensures Split(w', h, j, raw)
  {
    hide HeapPage;
    assert SpaceOf(w', j) == SpaceOf(w, j);
  }

  lemma HasSame(w: World, w': World, id: Id, j: Id)
    requires OnlyIn(w, w', id)
    ensures Has(w', j) == Has(w, j)
  {
  }

  lemma OtherHeaps(c: Conf, c': Conf, id: Id, j: Id)
    requires All(c) && OnlyIn(c.w, c'.w, id) && j in c.hs && j != id && j in c'.hs && j in c'.lives && j in c'.raw
    requires j in c.lives && j in c.raw && c'.hs[j] == c.hs[j] && c'.lives[j] == c.lives[j] && c'.raw[j] == c.raw[j]
    ensures HeapOk(c', j)
  {
    hide Inv, HeapInv, Split, Has;
    assert HeapOk(c, j);
    SplitKept(c.w, c'.w, id, c.hs[j], j, c.raw[j]);
  }

  /** A step that changes one heap and its space leaves every other heap as it was. */
  lemma OneHeap(c: Conf, id: Id, w: World, h: Heap, live: Live, raw: set<nat>)
    requires All(c) && id in c.hs && Inv(w) && OnlyIn(c.w, w, id) && HeapInv(h, live) && Split(w, h, id, raw)
    requires c.raw[id] <= raw
    ensures All(Conf(w, c.hs[id := h], c.lives[id := live], c.raw[id := raw]))
  {
    hide Inv, HeapInv, Split, Has, HeapOk;
    var c' := Conf(w, c.hs[id := h], c.lives[id := live], c.raw[id := raw]);
    HeapOkIs(c', id);
    forall j
      ensures j in c'.hs <==> Has(c'.w, j)
    {
      HasSame(c.w, w, id, j);
    }
    forall j <- c'.hs
      ensures HeapOk(c', j)
    {
      if j != id {
        OtherHeaps(c, c', id, j);
      }
    }
  }

  lemma HeapOkIs(c: Conf, id: Id)
    requires id in c.hs && id in c.lives && id in c.raw && HeapInv(c.hs[id], c.lives[id]) && Split(c.w, c.hs[id], id, c.raw[id])
    ensures HeapOk(c, id)
  {
  }

  // ----- Every event ----------------------------------------------------------------------------------------

  lemma RawMapped(c: Conf, id: Id)
    requires All(c) && id in c.hs
    ensures Has(c.w, id) && Split(c.w, c.hs[id], id, c.raw[id]) && forall u <- c.raw[id] :: u in SpaceOf(c.w, id).pages
  {
    hide Inv, HeapInv, HeapPage;
    assert HeapOk(c, id);
  }

  lemma SameConf(c: Conf, id: Id)
    requires All(c) && id in c.hs
    ensures id in c.lives && id in c.raw && c.lives[id := c.lives[id]] == c.lives && c.raw[id := c.raw[id]] == c.raw
  {
    hide Inv, HeapOk;
  }

  lemma MallocStep(lim: Limits, c: Conf, id: Id, size: nat)
    requires All(c) && CanHappen(c, Malloc(id, size))
    ensures match Next(lim, c, Malloc(id, size))
            case Panic(f) => f == BadPageCount || f == BitmapFull || f == StackOverlap
            case Ok(c') => All(c')
  {
    hide Inv, HeapInv, Split, SysMalloc, Accounts, All, OnlyIn, Backed, IsFirstFit;
    SameConf(c, id);
    SoundHere(c, id);
    RawMapped(c, id);
    var h, live := c.hs[id], c.lives[id];
    SysMallocSound(c.w, h, id, live, Limit(lim, id), size);
    BareAccounts(c.w, h, id, c.raw[id]);
    MallocAccounts(Bare(c.w, id, c.raw[id]), c.w, h, id, live, Limit(lim, id), size);
    var r := SysMalloc(c.w, h, id, Limit(lim, id), size);
    if r.Ok? {
      var (w, h1, p) := r.value;
      AccountsSplit(c.w, w, h1, id, c.raw[id]);
      OneHeap(c, id, w, h1, if p.None? then live else Gets(live, p.value, size), c.raw[id]);
    }
  }

  lemma FreeStep(lim: Limits, c: Conf, id: Id, p: nat)
    requires All(c) && CanHappen(c, Free(id, p))
    ensures Next(lim, c, Free(id, p)).Ok? && All(Next(lim, c, Free(id, p)).value)
  {
    hide Inv, HeapInv, Split, SysFree, Accounts, All, OnlyIn, Backed, CanFree;
    SameConf(c, id);
    SoundHere(c, id);
    RawMapped(c, id);
    var h, live := c.hs[id], c.lives[id];
    SysFreeSound(c.w, h, id, live, p);
    BareAccounts(c.w, h, id, c.raw[id]);
    FreeAccounts(Bare(c.w, id, c.raw[id]), c.w, h, id, live, p);
    var (w, h1) := SysFree(c.w, h, id, p).value;
    AccountsSplit(c.w, w, h1, id, c.raw[id]);
    OneHeap(c, id, w, h1, live - {p}, c.raw[id]);
  }

  /** Pages taken without the heap are none of the heap's. */
  lemma PlacedSplit(w: World, w': World, h: Heap, id: Id, raw: set<nat>, v: nat, n: nat)
    requires Inv(w) && Split(w, h, id, raw) && Placed(w, w', id, v, n)
    ensures Split(w', h, id, raw + Pages(v, n))
  {
    hide HeapPage, Inv, RestKept;
    FreshRange(w, id, v, n);
  }

  lemma RawStep(c: Conf, id: Id, w: World, v: nat, n: nat)
    requires All(c) && id in c.hs && Inv(w) && Placed(c.w, w, id, v, n)
    ensures id in c.raw && All(c.(w := w, raw := c.raw[id := c.raw[id] + Pages(v, n)]))
  {
    hide Inv, HeapInv, Split, All, OnlyIn, Placed, Has;
    SameConf(c, id);
    HeapHere(c, id);
    PlacedSplit(c.w, w, c.hs[id], id, c.raw[id], v, n);
    PlacedOnly(c.w, w, id, v, n);
    OneHeap(c, id, w, c.hs[id], c.lives[id], c.raw[id] + Pages(v, n));
    assert c.hs[id := c.hs[id]] == c.hs;
  }

  lemma HeapHere(c: Conf, id: Id)
    requires All(c) && id in c.hs
    ensures Inv(c.w) && HeapInv(c.hs[id], c.lives[id]) && Split(c.w, c.hs[id], id, c.raw[id])
  {
    hide Inv, HeapInv, Split;
    assert HeapOk(c, id);
  }

  lemma HasHeap(c: Conf, id: Id)
    requires All(c)
    ensures id in c.hs <==> Has(c.w, id)
  {
  }

  lemma PlaceStep(lim: Limits, c: Conf, id: Id, v: nat)
    requires All(c) && CanHappen(c, Place(id, v))
    ensures match Next(lim, c, Place(id, v)) case Panic(f) => f == BitmapFull case Ok(c') => All(c')
  {
    hide Inv, All, Placed, GetAPage;
    HasHeap(c, id);
    HeapHere(c, id);
    GetAPageCorrect(c.w, id, v);
    var r := GetAPage(c.w, id, v);
    if r.Ok? {
      RawStep(c, id, r.value, v, 1);
      assert Pages(v, 1) == {v};
    }
  }

  lemma TakeStep(lim: Limits, c: Conf, id: Id, n: nat)
    requires All(c) && CanHappen(c, Take(id, n))
    ensures match Next(lim, c, Take(id, n))
            case Panic(f) => f == BadPageCount || f == BitmapFull || f == StackOverlap
            case Ok(c') => All(c')
  {
    hide Inv, All, Placed, MallocPage, IsFirstFit;
    HasHeap(c, id);
    HeapHere(c, id);
    MallocPageCorrect(c.w, id, n);
    var r := MallocPage(c.w, id, n);
    if r.Ok? && r.value.1.Some? {
      RawStep(c, id, r.value.0, r.value.1.value, n);
    }
  }

  // ----- process_execute ------------------------------------------------------------------------------------

  ghost predicate Born(w: World, w': World, pid: Pid) {
    && Inv(w') && Extends(w.kern.pages, w'.kern.pages)
    && pid !in w.procs && pid in w'.procs && w'.procs == w.procs[pid := w'.procs[pid]]
    && w'.procs[pid].space.pages == map[] && w'.procs[pid].dir !in w.kern.pages
  }

  lemma BornSplit(c: Conf, c': Conf, pid: Pid, j: Id)
    requires All(c) && Born(c.w, c'.w, pid) && Kernel in c.raw && Has(c'.w, j)
    requires c' == Conf(c'.w, c.hs[User(pid) := EMPTY_HEAP], c.lives[User(pid) := map[]],
                        c.raw[Kernel := c.raw[Kernel] + (c'.w.kern.pages.Keys - c.w.kern.pages.Keys)][User(pid) := {}])
    ensures j in c'.hs && j in c'.lives && j in c'.raw && HeapOk(c', j)
  {
    hide Inv, HeapPage, HeapInv;
    if j == User(pid) {
      EmptyHeapInv();
      NoHeapPages();
    } else {
      assert HeapOk(c, j);
    }
  }

  lemma NoHeapPages()
    ensures forall u: nat :: !HeapPage(EMPTY_HEAP, u)
  {
  }

  lemma ExecStep(lim: Limits, c: Conf, pid: Pid)
    requires All(c) && CanHappen(c, Exec(pid))
    ensures match Next(lim, c, Exec(pid)) case Panic(f) => f == BitmapFull || f == NullPointer case Ok(c') => All(c')
  {
    hide Inv, ProcessExecute, HeapOk;
    HeapHere(c, Kernel);
    ProcessExecuteCorrect(c.w, pid);
    var r := Next(lim, c, Exec(pid));
    if r.Ok? {
      var c' := r.value;
      forall j | Has(c'.w, j)
        ensures j in c'.hs && j in c'.lives && j in c'.raw && HeapOk(c', j)
      {
        BornSplit(c, c', pid, j);
      }
      BornDirs(c.w, c'.w, pid, c.raw[Kernel]);
    }
  }

  lemma BornDirs(w: World, w': World, pid: Pid, raw: set<nat>)
    requires Born(w, w', pid) && forall p <- w.procs :: w.procs[p].dir in raw
    ensures forall p <- w'.procs :: w'.procs[p].dir in raw + (w'.kern.pages.Keys - w.kern.pages.Keys)
  {
    assert ProcInv(w', w'.procs[pid]);
  }

  lemma StepSound(lim: Limits, c: Conf, e: Event)
    requires All(c) && CanHappen(c, e)
    ensures match Next(lim, c, e)
            case Panic(f) => f == BadPageCount || f == BitmapFull || f == StackOverlap || f == NullPointer
            case Ok(c') => All(c')
  {
    hide All, Next, CanHappen;
    match e
    case Malloc(id, size) => MallocStep(lim, c, id, size);
    case Free(id, p) => FreeStep(lim, c, id, p);
    case Exec(pid) => ExecStep(lim, c, pid);
    case Place(id, v) => PlaceStep(lim, c, id, v);
    case Take(id, n) => TakeStep(lim, c, id, n);
  }

  // ----- Runs ----------------------------------------------------------------------------------------------------

  /** The memory system after boot: an empty kernel heap and no process. */
  function Begin(all_mem: nat): Conf {
    Conf(Boot(all_mem), map[Kernel := EMPTY_HEAP], map[Kernel := map[]], map[Kernel := {}])
  }

  ghost predicate IsRun(lim: Limits, all_mem: nat, cs: seq<Conf>, es: seq<Event>) {
    && |cs| == |es| + 1 && USED_MEM <= all_mem < USED_MEM + 87392 * 4096 && cs[0] == Begin(all_mem)
    && forall i :: 0 <= i < |es| ==> CanHappen(cs[i], es[i]) && Next(lim, cs[i], es[i]) == Ok(cs[i + 1])
  }

  lemma BeginAll(all_mem: nat)
    requires USED_MEM <= all_mem < USED_MEM + 87392 * 4096
    ensures All(Begin(all_mem))
  {
    hide Inv, HeapInv, HeapPage;
    BootInv(all_mem);
    EmptyHeapInv();
    NoHeapPages();
    var c := Begin(all_mem);
    assert HeapOk(c, Kernel);
  }

  /** In every run, every heap is sound in every state. */
  lemma {:induction false} RunSound(lim: Limits, all_mem: nat, cs: seq<Conf>, es: seq<Event>, i: nat)
    requires IsRun(lim, all_mem, cs, es) && i <= |es|
    ensures All(cs[i])
  {
    hide All, Next, CanHappen, Begin;
    if i == 0 {
      BeginAll(all_mem);
    } else {
      RunSound(lim, all_mem, cs, es, i - 1);
      StepSound(lim, cs[i - 1], es[i - 1]);
    }
  }

  lemma RunLength(lim: Limits, all_mem: nat, cs: seq<Conf>, es: seq<Event>)
    requires IsRun(lim, all_mem, cs, es)
    ensures |cs| == |es| + 1
  {
  }

  // ----- What the invariant says ------------------------------------------------------------------------------------

  /** p holds what was asked for, on mapped pages, apart from all other live blocks, headers and free blocks of its heap. */
  ghost predicate Safe(w: World, h: Heap, id: Id, live: Live, p: nat)
    requires p in live
  {
    && live[p] <= Capacity(h, p)
    && (Has(w, id) && forall x: nat :: p <= x < p + Capacity(h, p) ==> x / PAGE in SpaceOf(w, id).pages)
    && (forall q <- live :: q != p ==> Apart(p, Capacity(h, p), q, Capacity(h, q)))
    && (forall a <- h.arenas :: Apart(p, Capacity(h, p), a * PAGE, HEADER))
    && |h.free| == DESCS
    && (forall d, b :: 0 <= d < DESCS && b in h.free[d] ==> Apart(p, Capacity(h, p), b, BlockSize(d)))
  }

  lemma SoundSafe(w: World, h: Heap, id: Id, live: Live, p: nat)
    requires Sound(w, h, id, live) && p in live
    ensures Safe(w, h, id, live, p)
  {
    hide Inv, WeakInv, Apart, Capacity;
    FreeListsCount(h, live);
    LiveBytes(h, live, p);
    forall x: nat | p <= x < p + Capacity(h, p)
      ensures HeapPage(h, x / PAGE)
    {
      assert Covers(h, Block2Arena(p), x / PAGE);
    }
    forall q <- live
      ensures q != p ==> Apart(p, Capacity(h, p), q, Capacity(h, q))
    {
      if q != p {
        LiveApart(h, live, p, q);
      }
    }
    forall a <- h.arenas
      ensures Apart(p, Capacity(h, p), a * PAGE, HEADER)
    {
      LiveApartFromHeaders(h, live, p, a);
    }
    forall d, b | 0 <= d < DESCS && b in h.free[d]
      ensures Apart(p, Capacity(h, p), b, BlockSize(d))
    {
      LiveApartFromFree(h, live, p, d, b);
    }
  }

  /** After any run every live allocation of every heap is safe in its own address space. */
  lemma LiveSafe(lim: Limits, all_mem: nat, cs: seq<Conf>, es: seq<Event>, id: Id, p: nat)
    requires IsRun(lim, all_mem, cs, es) && id in cs[|es|].hs && id in cs[|es|].lives && p in cs[|es|].lives[id]
    ensures Safe(cs[|es|].w, cs[|es|].hs[id], id, cs[|es|].lives[id], p)
  {
    hide All, IsRun, Safe;
    RunLength(lim, all_mem, cs, es);
    RunSound(lim, all_mem, cs, es, |es|);
    SoundHere(cs[|es|], id);
    SoundSafe(cs[|es|].w, cs[|es|].hs[id], id, cs[|es|].lives[id], p);
  }

  /** Live blocks of different heaps never share a frame, so neither can reach the other's bytes. */
  lemma HeapsApart(lim: Limits, all_mem: nat, cs: seq<Conf>, es: seq<Event>, id: Id, p: nat, j: Id, q: nat, x: nat, y: nat)
    requires IsRun(lim, all_mem, cs, es) && id != j && id in cs[|es|].hs && j in cs[|es|].hs
    requires id in cs[|es|].lives && j in cs[|es|].lives && p in cs[|es|].lives[id] && q in cs[|es|].lives[j]
    requires p <= x < p + Capacity(cs[|es|].hs[id], p) && q <= y < q + Capacity(cs[|es|].hs[j], q)
    ensures var w := cs[|es|].w;
            && Has(w, id) && Has(w, j) && x / PAGE in SpaceOf(w, id).pages && y / PAGE in SpaceOf(w, j).pages
            && SpaceOf(w, id).pages[x / PAGE] != SpaceOf(w, j).pages[y / PAGE]
  {
    hide All, IsRun, Capacity, Apart, HeapInv;
    LiveSafe(lim, all_mem, cs, es, id, p);
    LiveSafe(lim, all_mem, cs, es, j, q);
    RunLength(lim, all_mem, cs, es);
    RunSound(lim, all_mem, cs, es, |es|);
    HeapHere(cs[|es|], id);
    var w := cs[|es|].w;
    FramesOfSpaces(w, id, x / PAGE, j, y / PAGE);
  }

  lemma FramesOfSpaces(w: World, id: Id, u: nat, j: Id, v: nat)
    requires Owned(w) && id != j && Has(w, id) && Has(w, j) && u in SpaceOf(w, id).pages && v in SpaceOf(w, j).pages
    ensures SpaceOf(w, id).pages[u] != SpaceOf(w, j).pages[v]
  {
    assert Owns(w, PageOwner(id, u), SpaceOf(w, id).pages[u]);
    assert Owns(w, PageOwner(j, v), SpaceOf(w, j).pages[v]);
  }

  /** After any run a live pointer of any heap can be freed, and doing so fails no assertion. */
  lemma FreeNeverStops(lim: Limits, all_mem: nat, cs: seq<Conf>, es: seq<Event>, id: Id, p: nat)
    requires IsRun(lim, all_mem, cs, es) && id in cs[|es|].hs && id in cs[|es|].lives && p in cs[|es|].lives[id]
    ensures CanHappen(cs[|es|], Free(id, p)) && Next(lim, cs[|es|], Free(id, p)).Ok?
  {
    hide All, IsRun, Next, Sound, CanFree;
    RunLength(lim, all_mem, cs, es);
    RunSound(lim, all_mem, cs, es, |es|);
    SoundHere(cs[|es|], id);
    SysFreeSound(cs[|es|].w, cs[|es|].hs[id], id, cs[|es|].lives[id], p);
    FreeStep(lim, cs[|es|], id, p);
  }

  /** At rest every small arena of every heap counts its own blocks on the free list, and is never all free. */
  lemma CountsExact(lim: Limits, all_mem: nat, cs: seq<Conf>, es: seq<Event>, id: Id, a: nat)
    requires IsRun(lim, all_mem, cs, es) && id in cs[|es|].hs && a in cs[|es|].hs[id].arenas && cs[|es|].hs[id].arenas[a].Small?
    ensures var h := cs[|es|].hs[id];
            var d := h.arenas[a].desc;
            d < |h.free| && h.arenas[a].cnt == |FreeIdx(h, a, d)| && h.arenas[a].cnt < PerArena(d)
  {
    hide All, IsRun, HeapInv, Inv, FreeIdx, PerArena;
    RunLength(lim, all_mem, cs, es);
    RunSound(lim, all_mem, cs, es, |es|);
    SameConf(cs[|es|], id);
    HeapHere(cs[|es|], id);
    ArenaCounts(cs[|es|].hs[id], cs[|es|].lives[id], a);
  }

  lemma ArenaCounts(h: Heap, live: Live, a: nat)
    requires HeapInv(h, live) && a in h.arenas && h.arenas[a].Small?
    ensures h.arenas[a].desc < |h.free| && h.arenas[a].cnt == |FreeIdx(h, a, h.arenas[a].desc)| && h.arenas[a].cnt < PerArena(h.arenas[a].desc)
  {
    assert ArenaInv(h, live, a);
  }

  // ----- Reclamation ----------------------------------------------------------------------------------------------

  /**
    After any run a heap with nothing live, whatever the others hold, has no arena and empty free
    lists, and its space holds exactly the pages that were taken without the heap.
   */
  lemma RunReclaims(lim: Limits, all_mem: nat, cs: seq<Conf>, es: seq<Event>, id: Id)
    requires IsRun(lim, all_mem, cs, es) && id in cs[|es|].hs && id in cs[|es|].lives && cs[|es|].lives[id] == map[]
    ensures var c := cs[|es|];
            && c.hs[id] == EMPTY_HEAP && Has(c.w, id) && id in c.raw && SpaceOf(c.w, id).pages.Keys == c.raw[id]
            && forall i: nat :: i < |SpaceOf(c.w, id).virt| ==> (SpaceOf(c.w, id).virt[i] <==> BasePage(id) + i in c.raw[id])
  {
    hide All, IsRun, HeapInv, HeapPage;
    RunLength(lim, all_mem, cs, es);
    RunSound(lim, all_mem, cs, es, |es|);
    var c := cs[|es|];
    SameConf(c, id);
    HeapHere(c, id);
    NothingLive(c.hs[id]);
    NoHeapPages();
    SpaceFits(c.w, id);
  }

  lemma SpaceFits(w: World, id: Id)
    requires Inv(w) && Has(w, id)
    ensures SpaceInv(SpaceOf(w, id), BasePage(id))
  {
    if id.User? {
      assert ProcInv(w, w.procs[id.pid]);
    }
  }

  /** The frame f backs a page that was taken without a heap. */
  ghost predicate RawFrame(c: Conf, id: Id, f: nat) {
    id in c.raw && Has(c.w, id) && exists u <- c.raw[id] :: u in SpaceOf(c.w, id).pages && SpaceOf(c.w, id).pages[u] == f
  }

  /**
    When nothing at all is live, the kernel frames in use are exactly those of thread structures,
    bitmaps and directories and of page tables, and the user frames exactly those of pages that
    processes took without their heaps.
   */
  lemma AllReclaimed(lim: Limits, all_mem: nat, cs: seq<Conf>, es: seq<Event>, f: nat)
    requires IsRun(lim, all_mem, cs, es) && forall id <- cs[|es|].lives :: cs[|es|].lives[id] == map[]
    ensures var c := cs[|es|];
            && (KernelBit(c.w, f) <==> RawFrame(c, Kernel, f) || exists p, pd :: Owns(c.w, PageTable(p, pd), f))
            && (UserBit(c.w, f) <==> exists p: Pid :: RawFrame(c, User(p), f))
  {
    hide All, IsRun, HeapInv, HeapPage, RawFrame;
    RunLength(lim, all_mem, cs, es);
    RunSound(lim, all_mem, cs, es, |es|);
    var c := cs[|es|];
    forall id | Has(c.w, id)
      ensures id in c.raw && SpaceOf(c.w, id).pages.Keys == c.raw[id]
    {
      HasHeap(c, id);
      SameConf(c, id);
      RunReclaims(lim, all_mem, cs, es, id);
    }
    HasHeap(c, Kernel);
    HeapHere(c, Kernel);
    BitsOfRaw(c, f);
  }

  lemma BitsOfRaw(c: Conf, f: nat)
    requires Inv(c.w) && forall id :: Has(c.w, id) ==> id in c.raw && SpaceOf(c.w, id).pages.Keys == c.raw[id]
    ensures KernelBit(c.w, f) <==> RawFrame(c, Kernel, f) || exists p, pd :: Owns(c.w, PageTable(p, pd), f)
    ensures UserBit(c.w, f) <==> exists p: Pid :: RawFrame(c, User(p), f)
  {
    assert Has(c.w, Kernel);
    if KernelBit(c.w, f) || UserBit(c.w, f) {
      var o :| Owns(c.w, o, f);
      if o.UserPage? {
        assert Has(c.w, User(o.pid)) && RawFrame(c, User(o.pid), f);
      } else if o.KernelPage? {
        assert RawFrame(c, Kernel, f);
      }
    }
    if RawFrame(c, Kernel, f) {
      var u :| u in c.raw[Kernel] && u in c.w.kern.pages && c.w.kern.pages[u] == f;
      assert Owns(c.w, KernelPage(u), f);
    }
    forall p: Pid | RawFrame(c, User(p), f)
      ensures UserBit(c.w, f)
    {
      var u :| u in c.raw[User(p)] && u in c.w.procs[p].space.pages && c.w.procs[p].space.pages[u] == f;
      assert Owns(c.w, UserPage(p, u), f);
    }
  }

  /** An event of the heap id. */
  ghost predicate Of(e: Event, id: Id) {
    (e.Malloc? && e.id == id) || (e.Free? && e.id == id)
  }

  lemma EmptyAccounts(w: World, id: Id)
    requires Has(w, id)
    ensures Accounts(w, w, EMPTY_HEAP, id)
  {
    NoHeapPages();
  }

  lemma OwnAccounts(lim: Limits, w0: World, c: Conf, e: Event, id: Id)
    requires All(c) && CanHappen(c, e) && Of(e, id) && Next(lim, c, e).Ok? && Accounts(w0, c.w, c.hs[id], id)
    ensures id in Next(lim, c, e).value.hs && Accounts(w0, Next(lim, c, e).value.w, Next(lim, c, e).value.hs[id], id)
  {
    hide All, Accounts, SysMalloc, SysFree, Sound, CanFree;
    SoundHere(c, id);
    if e.Malloc? {
      MallocAccounts(w0, c.w, c.hs[id], id, c.lives[id], Limit(lim, id), e.size);
    } else {
      FreeAccounts(w0, c.w, c.hs[id], id, c.lives[id], e.p);
    }
  }

  lemma {:induction false} StretchAccounts(lim: Limits, all_mem: nat, cs: seq<Conf>, es: seq<Event>, id: Id, i: nat, k: nat)
    requires IsRun(lim, all_mem, cs, es) && i <= k <= |es| && id in cs[i].hs && cs[i].hs[id] == EMPTY_HEAP && Has(cs[i].w, id)
    requires forall m :: i <= m < k ==> Of(es[m], id)
    ensures id in cs[k].hs && Accounts(cs[i].w, cs[k].w, cs[k].hs[id], id)
    decreases k
  {
    hide All, Accounts, Next, CanHappen, Of, Begin;
    if k == i {
      EmptyAccounts(cs[i].w, id);
    } else {
      StretchAccounts(lim, all_mem, cs, es, id, i, k - 1);
      RunSound(lim, all_mem, cs, es, k - 1);
      assert Next(lim, cs[k - 1], es[k - 1]) == Ok(cs[k]);
      OwnAccounts(lim, cs[i].w, cs[k - 1], es[k - 1], id);
    }
  }

  /**
    A stretch of any run in which only one heap is used, from nothing live to nothing live, leaves
    no trace: the kernel's heap leaves the whole world as it was, a process's heap all but its page
    tables, and the kernel frames gained are exactly those of the new tables.
   */
  lemma StretchReclaims(lim: Limits, all_mem: nat, cs: seq<Conf>, es: seq<Event>, id: Id, i: nat, k: nat)
    requires IsRun(lim, all_mem, cs, es) && i <= k <= |es| && forall m :: i <= m < k ==> Of(es[m], id)
    requires id in cs[i].hs && id in cs[i].lives && id in cs[k].lives && cs[i].lives[id] == map[] == cs[k].lives[id]
    ensures id.Kernel? ==> cs[k].w == cs[i].w
    ensures id.User? ==>
              && id.pid in cs[i].w.procs && id.pid in cs[k].w.procs
              && var w0, w, t0, t := cs[i].w, cs[k].w, cs[i].w.procs[id.pid].tables, cs[k].w.procs[id.pid].tables;
              && w == w0.(kf := w.kf, procs := w0.procs[id.pid := w0.procs[id.pid].(tables := t)])
              && Extends(t0, t) && forall f :: KernelBit(w, f) <==> KernelBit(w0, f) || NewTable(t0, t, f)
  {
    hide All, Accounts, Of, IsRun, Inv, HeapInv;
    RunLength(lim, all_mem, cs, es);
    RunSound(lim, all_mem, cs, es, i);
    RunSound(lim, all_mem, cs, es, k);
    HeapHere(cs[i], id);
    HasHeap(cs[i], id);
    NothingLive(cs[i].hs[id]);
    StretchAccounts(lim, all_mem, cs, es, id, i, k);
    SoundHere(cs[k], id);
    Reclaimed(cs[i].w, cs[k].w, cs[k].hs[id], id);
  }

  // ----- The stack page -------------------------------------------------------------------------------------------------

  /** With its stack page mapped, whose bit is the last of the bitmap, a process never runs into it. */
  lemma StackNeverHit(w: World, pid: Pid, n: nat)
    requires Inv(w) && pid in w.procs && USER_STACK in w.procs[pid].space.pages
    ensures MallocPage(w, User(pid), n) != Panic(StackOverlap)
  {
    var s := w.procs[pid].space;
    assert ProcInv(w, w.procs[pid]);
    assert s.virt[USER_STACK - USER_BASE];
    MallocPageStops(w, User(pid), n);
  }

  lemma MallocPageStops(w: World, id: Id, n: nat)
    requires Inv(w) && Has(w, id)
    ensures MallocPage(w, id, n) == Panic(StackOverlap) ==>
              n > 0 && FirstFit(SpaceOf(w, id).virt, n) != -1 && USER_STACK <= BasePage(id) + FirstFit(SpaceOf(w, id).virt, n)
  {
    hide Inv, Placed, AddPages, ClearRun, IsFirstFit, FirstFit, Full;
    var i := FirstFit(SpaceOf(w, id).virt, n);
    if n > 0 && i != -1 {
      FitRun(SpaceOf(w, id).virt, n);
      AllocationCorrect(w, id, i, n);
    }
  }

  lemma FitRun(s: seq<bool>, n: nat)
    requires FirstFit(s, n) != -1
    ensures ClearRun(s, FirstFit(s, n), n)
  {
  }

  lemma KeysSame(c: Conf, id: Id)
    requires All(c)
    ensures (id in c.raw <==> id in c.hs) && (id in c.raw <==> Has(c.w, id))
  {
    hide Inv, HeapOk;
  }

  /** start_process maps the stack once, and from then on no sys_malloc of the process stops on it. */
  lemma {:induction false} StackKept(lim: Limits, all_mem: nat, cs: seq<Conf>, es: seq<Event>, pid: Pid, i: nat, k: nat)
    requires IsRun(lim, all_mem, cs, es) && i < k <= |es| && es[i] == Place(User(pid), USER_STACK)
    ensures User(pid) in cs[k].raw && USER_STACK in cs[k].raw[User(pid)]
    decreases k
  {
    hide All, CanHappen, Begin, Next;
    if k == i + 1 {
      assert Next(lim, cs[i], es[i]) == Ok(cs[k]);
      StackPlaced(lim, cs[i], pid);
    } else {
      StackKept(lim, all_mem, cs, es, pid, i, k - 1);
      RunSound(lim, all_mem, cs, es, k - 1);
      KeysSame(cs[k - 1], User(pid));
      NewProcess(cs[k - 1], es[k - 1], pid);
      assert Next(lim, cs[k - 1], es[k - 1]) == Ok(cs[k]);
      RawGrows(lim, cs[k - 1], es[k - 1], User(pid), USER_STACK);
    }
  }

  lemma NewProcess(c: Conf, e: Event, pid: Pid)
    requires CanHappen(c, e) && Has(c.w, User(pid))
    ensures e.Exec? ==> e.pid != pid
  {
  }

  lemma StackPlaced(lim: Limits, c: Conf, pid: Pid)
    requires CanHappen(c, Place(User(pid), USER_STACK)) && Next(lim, c, Place(User(pid), USER_STACK)).Ok?
    ensures var c' := Next(lim, c, Place(User(pid), USER_STACK)).value; User(pid) in c'.raw && USER_STACK in c'.raw[User(pid)]
  {
    hide GetAPage;
  }

  lemma RawGrows(lim: Limits, c: Conf, e: Event, id: Id, u: nat)
    requires CanHappen(c, e) && Next(lim, c, e).Ok? && id in c.raw && u in c.raw[id] && (e.Exec? ==> id != User(e.pid))
    ensures id in Next(lim, c, e).value.raw && u in Next(lim, c, e).value.raw[id]
  {
    hide SysMalloc, SysFree, MallocPage, ProcessExecute, GetAPage;
  }

  lemma NoStackOverlap(lim: Limits, all_mem: nat, cs: seq<Conf>, es: seq<Event>, pid: Pid, i: nat, size: nat)
    requires IsRun(lim, all_mem, cs, es) && i < |es| && es[i] == Place(User(pid), USER_STACK)
    ensures CanHappen(cs[|es|], Malloc(User(pid), size)) && Next(lim, cs[|es|], Malloc(User(pid), size)) != Panic(StackOverlap)
  {
    hide All, IsRun, SysMalloc;
    RunLength(lim, all_mem, cs, es);
    RunSound(lim, all_mem, cs, es, |es|);
    var c := cs[|es|];
    StackKept(lim, all_mem, cs, es, pid, i, |es|);
    KeysSame(c, User(pid));
    SameConf(c, User(pid));
    SoundHere(c, User(pid));
    RawMapped(c, User(pid));
    MallocNoOverlap(c.w, c.hs[User(pid)], pid, c.lives[User(pid)], Limit(lim, User(pid)), size);
  }

  lemma MallocNoOverlap(w: World, h: Heap, pid: Pid, live: Live, limit: nat, size: nat)
    requires Sound(w, h, User(pid), live) && USER_STACK in w.procs[pid].space.pages
    ensures |h.free| == DESCS && SysMalloc(w, h, User(pid), limit, size) != Panic(StackOverlap)
  {
    hide Inv, HeapInv, MallocPage, DescFor;
    SysMallocSound(w, h, User(pid), live, limit, size);
    StackNeverHit(w, pid, PagesFor(size));
    StackNeverHit(w, pid, 1);
  }
}
