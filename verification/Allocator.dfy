/**
  sys_malloc and sys_free as they run, on top of the machine.  The kernel has one set of block
  descriptors and every process its own; the running thread decides which is used.
 */
module Allocator {
  import opened Outcomes
  import opened Bitmaps
  import opened AddressSpaces
  import opened PageRuns
  import opened PageTables
  import opened Arenas
  import opened Heaps
  import opened HeapRuns
  import Paging
  import M = Machine

  class Allocator {
    const m: M.Machine
    const lim: Limits              // the sizes of the two frame pools
    var kernel: Heap
    var user: map<Pid, Heap>

    /** Every descriptor set in memory is the heap hs gives its owner. */
    ghost predicate HeapsAre(hs: map<Id, Heap>)
      reads this
    {
      && Kernel in hs && hs[Kernel] == kernel && (forall p: Pid :: User(p) in hs <==> p in user)
      && (forall p <- user :: hs[User(p)] == user[p])
    }

    /** The machine and all heaps are those of c, and c satisfies the invariant of all runs. */
    ghost predicate Valid(c: Conf)
      reads this, m, m.kfMap.bits, m.ufMap.bits, m.kvMap.bits, m.userBits
    {
      m.Valid() && m.w == c.w && HeapsAre(c.hs) && All(c)
    }

    /** block_desc_init for the kernel: empty free lists. */
    constructor (m: M.Machine, lim: Limits, ghost all_mem: nat)
      requires USED_MEM <= all_mem < USED_MEM + 87392 * 4096 && m.Valid() && m.w == Boot(all_mem)
      ensures Valid(Begin(all_mem)) && this.m == m && this.lim == lim
    {
      hide M.Machine.Valid, All, Boot;
      this.m, this.lim := m, lim;
      kernel, user := EMPTY_HEAP, map[];
      new;
      BeginAll(all_mem);
    }

    ghost function Who(): Id
      reads m
    {
      if m.cur.None? then Kernel else User(m.cur.value)
    }

    /** The heap the running thread uses. */
    function Current(): Heap
      requires m.cur.Some? ==> m.cur.value in user
      reads this, m
    {
      if m.cur.None? then kernel else user[m.cur.value]
    }

    function PoolSize(): nat
      reads m
    {
      if m.cur.None? then lim.kernel else lim.user
    }

    /** The running thread has a heap, and it is sound. */
    lemma Here(c: Conf)
      requires Valid(c)
      ensures m.cur.Some? ==> m.cur.value in user
      ensures Who() in c.hs && Who() in c.lives && Who() in c.raw && c.hs[Who()] == Current() && Has(c.w, Who())
      ensures Sound(m.w, Current(), Who(), c.lives[Who()]) && |Current().free| == DESCS
      ensures PoolSize() == Limit(lim, Who())
    {
      hide Inv, M.Machine.Backed, Stands, Covered, Virts, Dirs, All, Sound;
      StandsRuns(m.mem, m.w, m.cur, m.cr3);
      HasHeap(c, Who());
      SameConf(c, Who());
      SoundHere(c, Who());
    }

    method SetCurrent(h: Heap, ghost hs: map<Id, Heap>)
      requires HeapsAre(hs) && Who() in hs
      modifies this
      ensures HeapsAre(hs[Who() := h])
    {
      if m.cur.None? {
        kernel := h;
      } else {
        user := user[m.cur.value := h];
      }
    }

    /** The search for a class and the loop that puts a new arena's blocks on its free list. */
    method FindDesc(size: nat) returns (d: nat)
      requires size <= 1024
      ensures d == DescFor(size, 0)
    {
      d := 0;
      while size > BlockSize(d)
        invariant 0 <= d < DESCS && DescFor.requires(size, d) && DescFor(size, d) == DescFor(size, 0)
        decreases DESCS - d
      {
        d := d + 1;
      }
    }

    method FillArena(a: nat, d: nat) returns (r: Outcome<seq<nat>>)
      requires d < DESCS
      ensures r == Ok(Blocks(a, d, PerArena(d)))
    {
      var list := [];
      var i := 0;
      while i < PerArena(d)
        invariant i <= PerArena(d) && list == Blocks(a, d, i)
      {
        var b := Arena2Block(a, d, i);
        NewBlocks(a, d);
        assert Blocks(a, d, PerArena(d))[..i] == list && Blocks(a, d, PerArena(d))[i] == b;
        if b in list {
          return Panic(NodeRepeat);
        }
        list := list + [b];
        i := i + 1;
      }
      return Ok(list);
    }
  
    /** The branch of sys_malloc for more than 1024 bytes: whole pages, with the header in front. */
    method MallocLarge(size: nat, h: Heap) returns (r: Outcome<Option<nat>>, h': Heap)
      requires m.Valid()
      modifies m`mem, m`kf, m`uf, m`kvirt, m`uvirt, m`w, m.kfMap.bits, m.ufMap.bits, m.kvMap.bits, m.userBits
      ensures match Heaps.MallocLarge(old(m.w), h, Who(), size)
              case Panic(e) => r == Panic(e)
              case Ok((w1, h1, p)) => r == Ok(p) && h' == h1 && m.w == w1 && m.Valid()
    {
      hide Inv, M.Machine.Agrees, MallocPage;
      h' := h;
      CurrentHas();
      var pages := m.MallocPage(m.cur.Some?, PagesFor(size));
      if pages.Panic? || pages.value.None? {
        r := pages;
        return;
      }
      h' := AddLarge(h, pages.value.value / PAGE, PagesFor(size));
      r := Ok(Some(pages.value.value + HEADER));
    }

    lemma CurrentHas()
      requires m.Valid()
      ensures Has(m.w, Who())
    {
      StandsRuns(m.mem, m.w, m.cur, m.cr3);
    }

    /** The branch for an empty free list: a new arena. */
    method Refill(d: nat, h: Heap) returns (r: Outcome<Heap>)
      requires m.Valid() && d < DESCS == |h.free|
      modifies m`mem, m`kf, m`uf, m`kvirt, m`uvirt, m`w, m.kfMap.bits, m.ufMap.bits, m.kvMap.bits, m.userBits
      ensures match Heaps.Refill(old(m.w), h, Who(), d)
              case Panic(e) => r == Panic(e)
              case Ok((w1, h1)) => r == Ok(h1) && m.w == w1 && m.Valid()
    {
      hide Inv, M.Machine.Agrees, MallocPage;
      CurrentHas();
      if h.free[d] != [] {
        return Ok(h);
      }
      var page := m.MallocPage(m.cur.Some?, 1);
      if page.Panic? {
        return Panic(page.fault);
      }
      var a := page.value.value / PAGE;
      var list := FillArena(a, d);
      assert h.free[d] + list.value == list.value;
      return Ok(Heap(h.arenas[a := Small(d, PerArena(d))], h.free[d := list.value]));
    }

    /** sys_malloc on the running thread's descriptors. */
    method MallocBlock(size: nat, h: Heap, ghost live: Live) returns (r: Outcome<Option<nat>>, h': Heap)
      requires m.Valid() && Sound(m.w, h, Who(), live) && Has(m.w, Who()) && |h.free| == DESCS
      modifies m`mem, m`kf, m`uf, m`kvirt, m`uvirt, m`w, m.kfMap.bits, m.ufMap.bits, m.kvMap.bits, m.userBits
      ensures match Heaps.SysMalloc(old(m.w), h, Who(), PoolSize(), size)
              case Panic(e) => r == Panic(e)
              case Ok((w1, h1, p)) => r == Ok(p) && h' == h1 && m.w == w1 && m.Valid()
    {
      hide Sound, M.Machine.Valid, Heaps.MallocLarge, Heaps.Refill, DescFor, BlockSize;
      h' := h;
      if size > PoolSize() {
        r := Ok(None);
        return;
      }
      if size > 1024 {
        r, h' := MallocLarge(size, h);
        return;
      }
      var d := FindDesc(size);
      RefillReady(m.w, h, Who(), live, d);
      var filled := Refill(d, h);
      if filled.Panic? {
        r := Panic(filled.fault);
        return;
      }
      r, h' := Ok(Some(filled.value.free[d][0])), TakeBlock(filled.value, d);
    }

    /** sys_malloc: one step of the whole memory system, whoever runs. */
    method SysMalloc(size: nat, ghost c: Conf) returns (r: Outcome<Option<nat>>)
      requires Valid(c)
      modifies this, m`mem, m`kf, m`uf, m`kvirt, m`uvirt, m`w, m.kfMap.bits, m.ufMap.bits, m.kvMap.bits, m.userBits
      ensures CanHappen(c, Malloc(Who(), size))
      ensures match Next(lim, c, Malloc(Who(), size))
              case Panic(e) => r == Panic(e)
              case Ok(c') =>
                && Valid(c')
                && r == Ok(Heaps.SysMalloc(c.w, c.hs[Who()], Who(), Limit(lim, Who()), size).value.2)
    {
      hide Sound, M.Machine.Valid, Heaps.SysMalloc, All, Next, CanHappen;
      Here(c);
      MallocEvent(lim, c, Who(), size);
      MallocStep(lim, c, Who(), size);
      var h := Current();
      r, h := MallocBlock(size, h, c.lives[Who()]);
      if r.Ok? {
        SetCurrent(h, c.hs);
      }
    }

    /** The loop of sys_free over the blocks of an arena that is all free: find each, remove each. */
    method EmptyArena(list: seq<nat>, a: nat, d: nat) returns (r: Outcome<seq<nat>>)
      requires d < DESCS && Distinct(list) && forall x <- list :: IsBlock(x, d)
      ensures if forall i: nat :: i < PerArena(d) ==> Arena2Block(a, d, i) in list
              then r == Ok(Without(list, a)) else r == Panic(NodeMissing)
    {
      hide Arena2Block, IsBlock, Block2Arena, PerArena, Filter, Without;
      var rest, i := list, 0;
      FilterNone(list);
      while i < PerArena(d)
        invariant i <= PerArena(d) && rest == Filter(list, BlockSet(a, d, i))
        invariant forall j: nat :: j < i ==> Arena2Block(a, d, j) in list
      {
        var b := Arena2Block(a, d, i);
        NotYet(a, d, i);
        if b !in rest {
          return Panic(NodeMissing);
        }
        FilterMore(list, BlockSet(a, d, i), b);
        rest := RemoveOne(rest, b);
        i := i + 1;
      }
      AllGone(list, a, d);
      FilterPage(list, BlockSet(a, d, PerArena(d)), a);
      return Ok(rest);
    }

    /** The small branch of sys_free. */
    method FreeSmall(p: nat, h: Heap, ghost live: Live) returns (r: Outcome<Heap>)
      requires m.Valid() && Sound(m.w, h, Who(), live) && p in live
      requires CanFree(m.w, h, Who(), p) && h.arenas[Block2Arena(p)].Small?
      modifies m`mem, m`kf, m`uf, m`kvirt, m`uvirt, m`w, m.kfMap.bits, m.ufMap.bits, m.kvMap.bits, m.userBits
      ensures match Heaps.FreeSmall(old(m.w), h, Who(), p)
              case Panic(e) => r == Panic(e)
              case Ok((w1, h1)) => r == Ok(h1) && m.w == w1 && m.Valid()
    {
      hide Sound, M.Machine.Valid, Mapped, MfreePage, Block2Arena, PerArena;
      var a := Block2Arena(p);
      var d := h.arenas[a].desc;
      FreeSmallReady(m.w, h, Who(), live, p);
      var h1 := GiveBlock(h, p);
      if h1.arenas[a].cnt != PerArena(d) {
        return Ok(h1);
      }
      var list := EmptyArena(h1.free[d], a, d);
      if list.Panic? {
        return Panic(list.fault);
      }
      var done := FreePages(a, 1);
      return Ok(Heap(h1.arenas - {a}, h1.free[d := list.value]));
    }

    /** mfree_page for the running thread's pool. */
    method FreePages(a: nat, n: nat) returns (r: Outcome<()>)
      requires m.Valid() && n >= 1 && Mapped(m.w, Who(), a, n)
      requires m.cur.None? ==> forall p <- m.w.procs :: !(a <= m.w.procs[p].dir < a + n)
      modifies m`mem, m`kf, m`uf, m`kvirt, m`uvirt, m`w, m.kfMap.bits, m.ufMap.bits, m.kvMap.bits, m.userBits
      ensures r.Ok? && m.Valid() && m.w == MfreePage(old(m.w), Who(), a, n)
    {
      hide Inv, M.Machine.Agrees, Mapped, MfreePage;
      r := m.MfreePage(m.cur.Some?, a * PAGE, n);
    }

    /** sys_free of NULL or of a live pointer. */
    method SysFree(p: nat, ghost c: Conf) returns (r: Outcome<()>)
      requires Valid(c) && (p == 0 || (Who() in c.lives && p in c.lives[Who()]))
      modifies this, m`mem, m`kf, m`uf, m`kvirt, m`uvirt, m`w, m.kfMap.bits, m.ufMap.bits, m.kvMap.bits, m.userBits
      ensures p == 0 ==> r == Panic(NullPointer)
      ensures p != 0 ==> CanHappen(c, Free(Who(), p)) && Next(lim, c, Free(Who(), p)).Ok?
      ensures p != 0 ==> r == Ok(()) && Valid(Next(lim, c, Free(Who(), p)).value)
    {
      hide Sound, M.Machine.Valid, Heaps.SysFree, All, CanFree, Next, CanHappen;
      if p == 0 {
        return Panic(NullPointer);
      }
      Here(c);
      ghost var live := c.lives[Who()];
      FreeReady(m.w, Current(), Who(), live, p);
      SysFreeSound(m.w, Current(), Who(), live, p);
      FreeEvent(lim, c, Who(), p);
      FreeStep(lim, c, Who(), p);
      if m.cur.None? && p < K_HEAP * PAGE {
        return Panic(BadPointer);
      }
      var h := Current();
      h := FreeBlock(p, h, live);
      SetCurrent(h, c.hs);
      return Ok(());
    }

    /** What sys_free does once it knows the arena. */
    method FreeBlock(p: nat, h: Heap, ghost live: Live) returns (h': Heap)
      requires m.Valid() && Sound(m.w, h, Who(), live) && p in live && CanFree(m.w, h, Who(), p)
      modifies m`mem, m`kf, m`uf, m`kvirt, m`uvirt, m`w, m.kfMap.bits, m.ufMap.bits, m.kvMap.bits, m.userBits
      ensures m.Valid() && Heaps.SysFree(old(m.w), h, Who(), p) == Ok((m.w, h'))
    {
      hide Sound, M.Machine.Valid, Mapped, MfreePage, Heaps.FreeSmall;
      SysFreeSound(m.w, h, Who(), live, p);
      var a := Block2Arena(p);
      if h.arenas[a].Large? {
        LargeReady(m.w, h, Who(), live, p);
        var done := FreePages(a, h.arenas[a].cnt);
        h' := DropLarge(h, a);
      } else {
        var rest := FreeSmall(p, h, live);
        h' := rest.value;
      }
    }

    // ----- Processes and pages without a heap --------------------------------------------------

    /** process_execute: the new process gets empty descriptors, and every other heap stays sound. */
    method Execute(pid: Pid, ghost c: Conf) returns (r: Outcome<()>)
      requires Valid(c) && pid !in c.w.procs
      modifies this, m`mem, m`kf, m`uf, m`kvirt, m`uvirt, m`uvMap, m`uvAddr, m`userBits, m`pgdir, m`w
      modifies m.kfMap.bits, m.ufMap.bits, m.kvMap.bits, m.userBits
      ensures fresh(m.userBits - old(m.userBits))
      ensures CanHappen(c, Exec(pid))
      ensures match Next(lim, c, Exec(pid)) case Panic(e) => r == Panic(e) case Ok(c') => r == Ok(()) && Valid(c')
    {
      hide M.Machine.Valid, All, ProcessExecute, Next, CanHappen, M.Machine.HasBitmap;
      Here(c);
      KeysSame(c, Kernel);
      ExecEvent(lim, c, pid);
      ExecStep(lim, c, pid);
      r := m.ProcessExecute(pid);
      if r.Ok? {
        user := user[pid := EMPTY_HEAP];
      }
    }

    /** A switch of threads: the next one allocates from its own heap, and all heaps are as they were. */
    method Switch(next: Option<Pid>, ghost c: Conf)
      requires Valid(c) && Runs(c.w, next)
      modifies m`cur, m`cr3
      ensures Valid(c) && Who() == if next.Some? then User(next.value) else Kernel
    {
      hide M.Machine.Valid, All;
      m.PageDirActivate(next);
    }

    /** get_a_page for the running thread, as start_process does for the stack. */
    method PlacePage(va: nat, ghost c: Conf) returns (r: Outcome<nat>)
      requires Valid(c) && va % PAGE == 0 && Has(c.w, Who())
      requires BasePage(Who()) <= va / PAGE < BasePage(Who()) + |SpaceOf(c.w, Who()).virt|
      modifies m`mem, m`kf, m`uf, m`kvirt, m`uvirt, m`w, m.kfMap.bits, m.ufMap.bits, m.kvMap.bits, m.userBits
      ensures va / PAGE in SpaceOf(c.w, Who()).pages ==> r == Panic(if Full(Pool(c.w, Who())) then BitmapFull else PteRepeat)
      ensures va / PAGE !in SpaceOf(c.w, Who()).pages ==>
                && CanHappen(c, Place(Who(), va / PAGE))
                && match Next(lim, c, Place(Who(), va / PAGE)) case Panic(e) => r == Panic(e) case Ok(c') => r == Ok(va) && Valid(c')
    {
      hide M.Machine.Valid, All, GetAPage, Inv;
      Here(c);
      GetAPageTwice(c.w, Who(), va / PAGE);
      if va / PAGE !in SpaceOf(c.w, Who()).pages {
        PlaceStep(lim, c, Who(), va / PAGE);
      }
      r := m.GetAPage(m.cur.Some?, va);
    }

    /** The address of the first of n kernel pages, or NULL. */
    ghost function Start(w: World, n: nat): Option<nat>
      requires MallocPage(w, Kernel, n).Ok?
    {
      var v := MallocPage(w, Kernel, n).value.1;
      if v.None? then None else Some(v.value * PAGE)
    }

    /** get_kernel_pages, whoever runs. */
    method TakeKernelPages(n: nat, ghost c: Conf) returns (r: Outcome<Option<nat>>)
      requires Valid(c)
      modifies m`mem, m`kf, m`uf, m`kvirt, m`uvirt, m`w, m.kfMap.bits, m.ufMap.bits, m.kvMap.bits, m.userBits
      ensures CanHappen(c, Take(Kernel, n))
      ensures match Next(lim, c, Take(Kernel, n)) case Panic(e) => r == Panic(e) case Ok(c') => r == Ok(Start(c.w, n)) && Valid(c')
    {
      hide M.Machine.Valid, All, MallocPage;
      KeysSame(c, Kernel);
      TakeStep(lim, c, Kernel, n);
      r := m.GetKernelPages(n);
    }

    /** process_execute, the switch to the new process, and start_process as far as its stack. */
    method StartProcess(pid: Pid, ghost c: Conf) returns (r: Outcome<nat>)
      requires Valid(c) && pid !in c.w.procs
      modifies this, m`mem, m`kf, m`uf, m`kvirt, m`uvirt, m`uvMap, m`uvAddr, m`userBits, m`pgdir, m`w, m`cur, m`cr3
      modifies m.kfMap.bits, m.ufMap.bits, m.kvMap.bits, m.userBits
      ensures fresh(m.userBits - old(m.userBits))
      ensures CanHappen(c, Exec(pid))
      ensures match Next(lim, c, Exec(pid))
              case Panic(e) => r == Panic(e)
              case Ok(c1) =>
                && CanHappen(c1, Place(User(pid), USER_STACK))
                && match Next(lim, c1, Place(User(pid), USER_STACK))
                   case Panic(e) => r == Panic(e)
                   case Ok(c2) => r == Ok(USER_STACK * PAGE) && Valid(c2) && Who() == User(pid)
    {
      hide M.Machine.Valid, Allocator.HeapsAre, All, Next, CanHappen, Runs;
      var started := Execute(pid, c);
      if started.Panic? {
        return Panic(started.fault);
      }
      ghost var c1 := Next(lim, c, Exec(pid)).value;
      NewbornSpace(lim, c, pid, c1);
      Switch(Some(pid), c1);
      r := PlacePage(USER_STACK * PAGE, c1);
    }
  }

  /** The event of a sys_malloc is the call on values. */
  lemma MallocEvent(lim: Limits, c: Conf, id: Id, size: nat)
    requires id in c.hs && id in c.lives && Has(c.w, id) && |c.hs[id].free| == DESCS
    ensures CanHappen(c, Malloc(id, size))
    ensures match SysMalloc(c.w, c.hs[id], id, Limit(lim, id), size)
            case Panic(e) => Next(lim, c, Malloc(id, size)) == Panic(e)
            case Ok((w, h, _)) =>
              Next(lim, c, Malloc(id, size)).Ok? && Next(lim, c, Malloc(id, size)).value.w == w
              && Next(lim, c, Malloc(id, size)).value.hs == c.hs[id := h]
  {
    hide SysMalloc;
  }

  /** That of a process_execute adds an empty heap. */
  lemma ExecEvent(lim: Limits, c: Conf, pid: Pid)
    requires Kernel in c.raw && pid !in c.w.procs
    ensures CanHappen(c, Exec(pid))
    ensures match ProcessExecute(c.w, pid)
            case Panic(e) => Next(lim, c, Exec(pid)) == Panic(e)
            case Ok(w) =>
              Next(lim, c, Exec(pid)).Ok? && Next(lim, c, Exec(pid)).value.w == w
              && Next(lim, c, Exec(pid)).value.hs == c.hs[User(pid) := EMPTY_HEAP]
  {
    hide ProcessExecute;
  }

  /** And that of a sys_free. */
  lemma FreeEvent(lim: Limits, c: Conf, id: Id, p: nat)
    requires id in c.hs && id in c.lives && p in c.lives[id] && CanFree(c.w, c.hs[id], id, p) && SysFree(c.w, c.hs[id], id, p).Ok?
    ensures CanHappen(c, Free(id, p)) && Next(lim, c, Free(id, p)).Ok?
    ensures Next(lim, c, Free(id, p)).value.w == SysFree(c.w, c.hs[id], id, p).value.0
    ensures Next(lim, c, Free(id, p)).value.hs == c.hs[id := SysFree(c.w, c.hs[id], id, p).value.1]
  {
    hide SysFree, CanFree;
  }

  lemma FreeSmallReady(w: World, h: Heap, id: Id, live: Live, p: nat)
    requires Sound(w, h, id, live) && p in live && CanFree(w, h, id, p) && h.arenas[Block2Arena(p)].Small?
    ensures var a := Block2Arena(p);
            var d := h.arenas[a].desc;
            var h1 := GiveBlock(h, p);
            && Distinct(h1.free[d]) && (forall x <- h1.free[d] :: IsBlock(x, d))
            && Mapped(w, id, a, 1) && (id.Kernel? ==> forall q <- w.procs :: !(a <= w.procs[q].dir < a + 1))
  {
    hide Inv;
    GiveInv(h, live, p);
    var a := Block2Arena(p);
    assert ListInv(GiveBlock(h, p), h.arenas[a].desc);
    ArenaMapped(w, h, id, a, 1);
  }

  lemma LargeReady(w: World, h: Heap, id: Id, live: Live, p: nat)
    requires Sound(w, h, id, live) && p in live && CanFree(w, h, id, p) && h.arenas[Block2Arena(p)].Large?
    ensures var a := Block2Arena(p);
            var n := h.arenas[a].cnt;
            n >= 1 && Mapped(w, id, a, n) && (id.Kernel? ==> forall q <- w.procs :: !(a <= w.procs[q].dir < a + n))
  {
    hide Inv;
    var a := Block2Arena(p);
    LargeNotEmpty(h, live, a);
    ArenaMapped(w, h, id, a, h.arenas[a].cnt);
  }

  lemma RefillReady(w: World, h: Heap, id: Id, live: Live, d: nat)
    requires Sound(w, h, id, live) && d < DESCS
    ensures |h.free| == DESCS
    ensures match Heaps.Refill(w, h, id, d) case Panic(_) => true case Ok((w1, h1)) => CanTake(h1, d)
  {
    hide Inv, WeakInv, Heaps.Refill, CanTake;
    FreeListsCount(h, live);
    RefillSound(w, h, id, live, d);
    var r := Heaps.Refill(w, h, id, d);
    if r.Ok? {
      CanTakeBlock(r.value.1, live, d);
    }
  }

  /** The outcome of the step, when it is not a stop. */
  ghost predicate Steps(lim: Limits, c: Conf, e: Event, c': Conf) {
    CanHappen(c, e) && Next(lim, c, e) == Ok(c')
  }

  lemma ThreeSteps(lim: Limits, all_mem: nat, c1: Conf, c2: Conf, c3: Conf, e1: Event, e2: Event, e3: Event)
    requires USED_MEM <= all_mem < USED_MEM + 87392 * 4096
    requires Steps(lim, Begin(all_mem), e1, c1) && Steps(lim, c1, e2, c2) && Steps(lim, c2, e3, c3)
    ensures HeapRuns.IsRun(lim, all_mem, [Begin(all_mem), c1, c2, c3], [e1, e2, e3])
  {
    hide Next, CanHappen, Begin;
  }

  /** A new process has a space with nothing in it, and its stack page is in its bitmap. */
  lemma NewbornSpace(lim: Limits, c: Conf, pid: Pid, c': Conf)
    requires All(c) && Steps(lim, c, Exec(pid), c')
    ensures Runs(c'.w, Some(pid)) && Has(c'.w, User(pid)) && SpaceOf(c'.w, User(pid)).pages == map[]
    ensures BasePage(User(pid)) <= USER_STACK < BasePage(User(pid)) + |SpaceOf(c'.w, User(pid)).virt|
  {
    hide Inv, HeapOk, ProcessExecute;
    ProcessExecuteCorrect(c.w, pid);
    SpaceFits(c'.w, User(pid));
    UserBitmap(c'.w, pid);
  }

  lemma UserBitmap(w: World, pid: Pid)
    requires Inv(w) && pid in w.procs
    ensures |w.procs[pid].space.virt| == USER_BITS
  {
    assert ProcInv(w, w.procs[pid]);
  }

  /**
    From boot to the first sys_malloc of a process, with its stack placed by start_process before: what
    the code does on bitmaps, words and descriptors is a run, and what it returns is live at its end.
   */
  method FirstProcess(all_mem: nat, loaded: Paging.Phys, lim: Limits, pid: Pid, size: nat) returns (r: Outcome<Option<nat>>)
    requires USED_MEM <= all_mem < USED_MEM + 87392 * 4096 && LoaderLeft(loaded)
    ensures r.Ok? ==>
              exists cs: seq<Conf> ::
                && HeapRuns.IsRun(lim, all_mem, cs, [Exec(pid), Place(User(pid), USER_STACK), Malloc(User(pid), size)])
                && User(pid) in cs[3].lives && cs[3].lives[User(pid)] == if r.value.None? then map[] else map[r.value.value := size]
  {
    hide M.Machine.Valid, Allocator.Valid, All, Next, CanHappen, LoaderLeft;
    var m := new M.Machine(all_mem, loaded);
    var a := new Allocator(m, lim, all_mem);
    ghost var id := User(pid);
    var started := a.StartProcess(pid, Begin(all_mem));
    if started.Panic? {
      return Panic(started.fault);
    }
    ghost var c1 := Next(lim, Begin(all_mem), Exec(pid)).value;
    ghost var c2 := Next(lim, c1, Place(id, USER_STACK)).value;
    r := a.SysMalloc(size, c2);
    if r.Ok? {
      ghost var c3 := Next(lim, c2, Malloc(id, size)).value;
      ThreeSteps(lim, all_mem, c1, c2, c3, Exec(pid), Place(id, USER_STACK), Malloc(id, size));
      LivesAfter(lim, Begin(all_mem), c1, c2, c3, pid, size);
    }
  }

  lemma LivesAfter(lim: Limits, c0: Conf, c1: Conf, c2: Conf, c3: Conf, pid: Pid, size: nat)
    requires Steps(lim, c0, Exec(pid), c1) && Steps(lim, c1, Place(User(pid), USER_STACK), c2) && Steps(lim, c2, Malloc(User(pid), size), c3)
    ensures var id := User(pid);
            && id in c2.hs && Has(c2.w, id) && |c2.hs[id].free| == DESCS && id in c3.lives
            && match SysMalloc(c2.w, c2.hs[id], id, Limit(lim, id), size)
               case Panic(_) => false
               case Ok((_, _, p)) => c3.lives[id] == if p.None? then map[] else map[p.value := size]
  {
    hide ProcessExecute, GetAPage, SysMalloc;
  }
}
