/**
  sys_malloc and sys_free of kernel/memory.c over the page level, for the kernel heap
  and for the heap of a process.
 */
module Heaps {
  import opened Outcomes
  import opened Bitmaps
  import opened AddressSpaces
  import opened PageAllocation
  import opened PageRelease
  import opened Arenas

  /** DIV_ROUND_UP(size + sizeof(struct arena), PG_SIZE) */
  function PagesFor(size: nat): (n: nat)
    ensures n >= 1 && HEADER + size <= n * PAGE && (n - 1) * PAGE < HEADER + size
  {
    (size + HEADER + PAGE - 1) / PAGE
  }

  // ----- What the two calls do --------------------------------------------------------------

  function MallocLarge(w: World, h: Heap, id: Id, size: nat): Outcome<(World, Heap, Option<nat>)>
    requires Has(w, id)
  {
    match MallocPage(w, id, PagesFor(size))
    case Panic(e) => Panic(e)
    case Ok((w1, None)) => Ok((w1, h, None))
    case Ok((w1, Some(v))) => Ok((w1, AddLarge(h, v, PagesFor(size)), Some(v * PAGE + HEADER)))
  }

  /** The class's free list refilled from a new page when it is empty. */
  function Refill(w: World, h: Heap, id: Id, d: nat): Outcome<(World, Heap)>
    requires Has(w, id) && d < |h.free|
  {
    if h.free[d] != [] then Ok((w, h))
    else
      match MallocPage(w, id, 1)
      case Panic(e) => Panic(e)
      case Ok((w1, v)) => Ok((w1, AddArena(h, v.value, d)))
  }

  function MallocSmall(w: World, h: Heap, id: Id, size: nat): Outcome<(World, Heap, Option<nat>)>
    requires Has(w, id) && |h.free| == DESCS && size <= 1024
  {
    var d := DescFor(size, 0);
    match Refill(w, h, id, d)
    case Panic(e) => Panic(e)
    case Ok((w1, h1)) =>
      if CanTake(h1, d) then Ok((w1, TakeBlock(h1, d), Some(h1.free[d][0]))) else Panic(NodeMissing)
  }

  /** sys_malloc; pool_size is the size in bytes of the caller's frame pool. */
  function SysMalloc(w: World, h: Heap, id: Id, pool_size: nat, size: nat): Outcome<(World, Heap, Option<nat>)>
    requires Has(w, id) && |h.free| == DESCS
  {
    if size > pool_size then Ok((w, h, None))
    else if size > 1024 then MallocLarge(w, h, id, size)
    else MallocSmall(w, h, id, size)
  }

  /** The loop of sys_free asserts that each block of a full arena is on the free list. */
  predicate AllFound(h: Heap, a: nat, d: nat)
    requires d < |h.free|
  {
    forall i: nat :: i < PerArena(d) ==> Arena2Block(a, d, i) in h.free[d]
  }

  function FreeSmall(w: World, h: Heap, id: Id, p: nat): Outcome<(World, Heap)>
    requires |h.free| == DESCS && Block2Arena(p) in h.arenas && h.arenas[Block2Arena(p)].Small?
    requires h.arenas[Block2Arena(p)].desc < DESCS && Mapped(w, id, Block2Arena(p), 1)
  {
    var a := Block2Arena(p);
    var d := h.arenas[a].desc;
    var h1 := GiveBlock(h, p);
    if h1.arenas[a].cnt != PerArena(d) then Ok((w, h1))
    else if !AllFound(h1, a, d) then Panic(NodeMissing)
    else Ok((MfreePage(w, id, a, 1), DropArena(h1, a)))
  }

  /** The header at the pointer's page is an arena's, and its pages are mapped. */
  predicate CanFree(w: World, h: Heap, id: Id, p: nat) {
    && |h.free| == DESCS && Block2Arena(p) in h.arenas
    && match h.arenas[Block2Arena(p)]
       case Small(d, _) => d < DESCS && Mapped(w, id, Block2Arena(p), 1)
       case Large(n) => Mapped(w, id, Block2Arena(p), n)
  }

  /** sys_free of a pointer that sys_malloc returned. */
  function SysFree(w: World, h: Heap, id: Id, p: nat): Outcome<(World, Heap)>
    requires CanFree(w, h, id, p)
  {
    var a := Block2Arena(p);
    match h.arenas[a]
    case Large(n) => Ok((MfreePage(w, id, a, n), DropLarge(h, a)))
    case Small(_, _) => FreeSmall(w, h, id, p)
  }

  // ----- The invariant of a heap on its pages -----------------------------------------------------

  /** Heap pages are mapped in the heap's space, and none holds a page directory. */
  ghost predicate Backed(w: World, h: Heap, id: Id) {
    && Has(w, id)
    && (forall u: nat :: HeapPage(h, u) ==> u in SpaceOf(w, id).pages)
    && (id.Kernel? ==> forall p <- w.procs :: !HeapPage(h, w.procs[p].dir))
  }

  ghost predicate Sound(w: World, h: Heap, id: Id, live: Live) {
    Inv(w) && HeapInv(h, live) && Backed(w, h, id)
  }

  /** What an allocation of n pages at v means for a heap: they were none of its pages. */
  lemma PlacedFresh(w: World, w': World, h: Heap, id: Id, v: nat, n: nat)
    requires Inv(w) && Backed(w, h, id) && Placed(w, w', id, v, n)
    ensures forall u :: v <= u < v + n ==> !HeapPage(h, u)
    ensures forall u :: v <= u < v + n ==> u in SpaceOf(w', id).pages
    ensures Backed(w', h, id)
    ensures id.Kernel? ==> forall p <- w'.procs :: !(v <= w'.procs[p].dir < v + n)
  {
    FreshRange(w, id, v, n);
    if id.Kernel? {
      forall p <- w'.procs
        ensures !(v <= w'.procs[p].dir < v + n)
      {
        assert ProcInv(w, w.procs[p]);
      }
    }
  }

  lemma MallocLargeSound(w: World, h: Heap, id: Id, live: Live, size: nat)
    requires Sound(w, h, id, live)
    ensures match MallocLarge(w, h, id, size)
            case Panic(e) => e == BadPageCount || e == BitmapFull || e == StackOverlap
            case Ok((w', h', None)) => w' == w && h' == h && IsFirstFit(SpaceOf(w, id).virt, PagesFor(size), -1)
            case Ok((w', h', Some(p))) => p !in live && Sound(w', h', id, live[p := size])
  {
    hide Inv, HeapInv, Placed, IsFirstFit;
    var n := PagesFor(size);
    MallocPageCorrect(w, id, n);
    var r := MallocPage(w, id, n);
    if r.Ok? && r.value.1.Some? {
      var w', v := r.value.0, r.value.1.value;
      PlacedFresh(w, w', h, id, v, n);
      AddLargeInv(h, live, v, n, size);
      AddLargePages(h, live, v, n);
    }
  }

  lemma AddLargePages(h: Heap, live: Live, a: nat, n: nat)
    requires HeapInv(h, live) && n >= 1 && forall u :: a <= u < a + n ==> !HeapPage(h, u)
    ensures forall u: nat :: HeapPage(AddLarge(h, a, n), u) <==> HeapPage(h, u) || a <= u < a + n
  {
    AddCovers(h, AddLarge(h, a, n), live, a, n);
  }

  lemma AddArenaPages(h: Heap, live: Live, a: nat, d: nat)
    requires HeapInv(h, live) && !HeapPage(h, a) && d < DESCS
    ensures forall u: nat :: HeapPage(AddArena(h, a, d), u) <==> HeapPage(h, u) || u == a
  {
    AddCovers(h, AddArena(h, a, d), live, a, 1);
  }

  /** After the refill the list is not empty, and only the arena of its first block may be full. */
  lemma RefillSound(w: World, h: Heap, id: Id, live: Live, d: nat)
    requires Sound(w, h, id, live) && d < DESCS
    ensures match Refill(w, h, id, d)
            case Panic(e) => e == BitmapFull || e == StackOverlap
            case Ok((w', h')) =>
              && Inv(w') && WeakInv(h', live) && Backed(w', h', id)
              && h'.free[d] != [] && FullOnlyAt(h', Block2Arena(h'.free[d][0]))
  {
    hide Inv, WeakInv, Placed, AddArena;
    FreeListsCount(h, live);
    MallocPageCorrect(w, id, 1);
    var r := MallocPage(w, id, 1);
    if h.free[d] == [] && r.Ok? {
      var w', v := r.value.0, r.value.1.value;
      PlacedFresh(w, w', h, id, v, 1);
      AddArenaInv(h, live, v, d);
      AddArenaPages(h, live, v, d);
    }
  }

  lemma MallocSmallSound(w: World, h: Heap, id: Id, live: Live, size: nat)
    requires Sound(w, h, id, live) && size <= 1024
    ensures match MallocSmall(w, h, id, size)
            case Panic(e) => e == BitmapFull || e == StackOverlap
            case Ok((w', h', None)) => false
            case Ok((w', h', Some(p))) => p !in live && Sound(w', h', id, live[p := size])
  {
    hide Inv, WeakInv, Refill, DescFor, BlockSize, FullOnlyAt, Block2Arena;
    FreeListsCount(h, live);
    var d := DescFor(size, 0);
    RefillSound(w, h, id, live, d);
    var r := Refill(w, h, id, d);
    if r.Ok? {
      var h1 := r.value.1;
      FreeListsCount(h1, live);
      TakeInv(h1, live, d, size);
      SameHeapPages(h1, TakeBlock(h1, d));
    }
  }

  /**
    sys_malloc: the pointer is new, the heap stays sound with it, and the only ways to stop are a
    full bitmap, a bad page count, or the stack page.  NULL means the request exceeds the pool or
    no run of pages is long enough.
   */
  lemma SysMallocSound(w: World, h: Heap, id: Id, live: Live, pool_size: nat, size: nat)
    requires Sound(w, h, id, live)
    ensures |h.free| == DESCS
    ensures match SysMalloc(w, h, id, pool_size, size)
            case Panic(e) => e == BadPageCount || e == BitmapFull || e == StackOverlap
            case Ok((w', h', None)) =>
              w' == w && h' == h && (size > pool_size || (size > 1024 && IsFirstFit(SpaceOf(w, id).virt, PagesFor(size), -1)))
            case Ok((w', h', Some(p))) => size <= pool_size && p !in live && Sound(w', h', id, live[p := size])
  {
    hide Inv, WeakInv, MallocLarge, MallocSmall, IsFirstFit;
    FreeListsCount(h, live);
    if size > 1024 {
      MallocLargeSound(w, h, id, live, size);
    } else {
      MallocSmallSound(w, h, id, live, size);
    }
  }

  /** What sys_malloc needs new pages for: a large request, or a small one whose list is empty. */
  function PagesNeeded(h: Heap, size: nat): nat
    requires |h.free| == DESCS
  {
    if size > 1024 then PagesFor(size) else if h.free[DescFor(size, 0)] == [] then 1 else 0
  }

  /**
    sys_malloc stops if and only if the request is within the pool, new pages are needed and malloc_page
    stops on them; it answers NULL if and only if the request exceeds the pool, or is a large one for
    which malloc_page does not stop and no run of pages is long enough.
   */
  lemma SysMallocExact(w: World, h: Heap, id: Id, live: Live, pool_size: nat, size: nat)
    requires Sound(w, h, id, live)
    ensures |h.free| == DESCS
    ensures SysMalloc(w, h, id, pool_size, size).Panic? <==>
              size <= pool_size && PagesNeeded(h, size) > 0 && Stops(w, id, PagesNeeded(h, size))
    ensures SysMalloc(w, h, id, pool_size, size) == Ok((w, h, None)) <==>
              || size > pool_size
              || (size > 1024 && !Stops(w, id, PagesFor(size)) && FirstFit(SpaceOf(w, id).virt, PagesFor(size)) == -1)
  {
    hide Inv, WeakInv, Stops, DescFor, BlockSize, Placed, AddArena, IsFirstFit;
    FreeListsCount(h, live);
    SysMallocSound(w, h, id, live, pool_size, size);
    if size > 1024 {
      MallocPagePanics(w, id, PagesFor(size));
      MallocPageNull(w, id, PagesFor(size));
    } else {
      var d := DescFor(size, 0);
      MallocPagePanics(w, id, 1);
      RefillSound(w, h, id, live, d);
      var r := Refill(w, h, id, d);
      if r.Ok? {
        CanTakeBlock(r.value.1, live, d);
      }
    }
  }

  lemma MallocPageNull(w: World, id: Id, n: nat)
    requires Inv(w) && Has(w, id)
    ensures match MallocPage(w, id, n) case Panic(_) => true case Ok((_, v)) => v.None? <==> FirstFit(SpaceOf(w, id).virt, n) == -1
  {
    hide Inv, FirstFit, AddPages;
  }

  // ----- sys_free --------------------------------------------------------------------------------------

  /** The pages of an arena can be released. */
  lemma ArenaMapped(w: World, h: Heap, id: Id, a: nat, n: nat)
    requires Inv(w) && Backed(w, h, id) && n >= 1 && forall u :: a <= u < a + n ==> Covers(h, a, u)
    ensures Mapped(w, id, a, n)
    ensures id.Kernel? ==> forall p <- w.procs :: !(a <= w.procs[p].dir < a + n)
  {
    forall u | a <= u < a + n
      ensures HeapPage(h, u)
    {
      assert Covers(h, a, u);
    }
    if id.User? {
      assert ProcInv(w, w.procs[id.pid]);
    }
    MappedRange(w, id, a, n);
  }

  /** Releasing the pages of one arena, and that arena from the heap. */
  lemma ReleaseBacked(w: World, h: Heap, h': Heap, id: Id, live: Live, a: nat, n: nat)
    requires Inv(w) && WeakInv(h, live) && Backed(w, h, id) && a in h.arenas && h'.arenas == h.arenas - {a} && n >= 1
    requires forall u: nat :: Covers(h, a, u) <==> a <= u < a + n
    ensures Mapped(w, id, a, n)
    ensures Inv(MfreePage(w, id, a, n)) && Backed(MfreePage(w, id, a, n), h', id) && Released(w, MfreePage(w, id, a, n), id, a, n)
  {
    hide Inv, WeakInv, ArenasApart, Covers, Mapped, MfreePage;
    HeapApart(h, live);
    ArenaMapped(w, h, id, a, n);
    MfreePageCorrect(w, id, a, n);
    FewerHeapPages(h, h', a);
  }

  lemma HeapApart(h: Heap, live: Live)
    requires WeakInv(h, live)
    ensures ArenasApart(h)
  {
  }

  /** A live pointer can be freed: its arena is known and its pages are mapped. */
  lemma FreeReady(w: World, h: Heap, id: Id, live: Live, p: nat)
    requires Sound(w, h, id, live) && p in live
    ensures CanFree(w, h, id, p)
    ensures id.Kernel? ==> p >= K_HEAP * PAGE
  {
    assert LiveInv(h, p, live[p]);
    var a := Block2Arena(p);
    assert ArenaInv(h, live, a);
    ArenaMapped(w, h, id, a, if h.arenas[a].Small? then 1 else h.arenas[a].cnt);
  }

  /** GiveBlock changes a count and a list only. */
  lemma GiveBacked(w: World, h: Heap, id: Id, p: nat)
    requires Backed(w, h, id) && IsSmallBlock(h, p)
    ensures Backed(w, GiveBlock(h, p), id)
  {
    SameHeapPages(h, GiveBlock(h, p));
  }

  lemma FreeSmallSound(w: World, h: Heap, id: Id, live: Live, p: nat)
    requires Sound(w, h, id, live) && p in live && |h.free| == DESCS && IsSmallBlock(h, p)
    requires h.arenas[Block2Arena(p)].desc < DESCS && Mapped(w, id, Block2Arena(p), 1)
    ensures match FreeSmall(w, h, id, p)
            case Panic(e) => false
            case Ok((w', h')) => Sound(w', h', id, live - {p})
  {
    hide Inv, WeakInv, MfreePage, Mapped, AllFound, Block2Arena, PerArena;
    GiveInv(h, live, p);
    GiveBacked(w, h, id, p);
    var a, h1 := Block2Arena(p), GiveBlock(h, p);
    var d := h.arenas[a].desc;
    if h1.arenas[a].cnt == PerArena(d) {
      AllFoundFull(h1, live - {p}, a, d);
      DropInv(h1, live - {p}, a);
      ReleaseBacked(w, h1, DropArena(h1, a), id, live - {p}, a, 1);
    } else {
      NoneFullNow(h1, a);
    }
  }

  lemma NoneFullNow(h: Heap, a: nat)
    requires FullOnlyAt(h, a) && a in h.arenas && h.arenas[a].Small? && h.arenas[a].cnt < PerArena(h.arenas[a].desc)
    ensures NoneFull(h)
  {
  }

  lemma AllFoundFull(h: Heap, live: Live, a: nat, d: nat)
    requires WeakInv(h, live) && a in h.arenas && d < |h.free| && h.arenas[a] == Small(d, PerArena(d))
    ensures AllFound(h, a, d)
  {
    FullArena(h, live, a);
  }

  /** sys_free: a live pointer is given back without failing an assertion, and exactly it is no longer live. */
  lemma SysFreeSound(w: World, h: Heap, id: Id, live: Live, p: nat)
    requires Sound(w, h, id, live) && p in live
    ensures CanFree(w, h, id, p)
    ensures match SysFree(w, h, id, p)
            case Panic(e) => false
            case Ok((w', h')) => Sound(w', h', id, live - {p})
  {
    hide Inv, WeakInv, MfreePage, Mapped, FreeSmall, Block2Arena;
    FreeReady(w, h, id, live, p);
    var a := Block2Arena(p);
    match h.arenas[a]
    case Small(d, _) => FreeSmallSound(w, h, id, live, p);
    case Large(n) =>
      LargeNotEmpty(h, live, a);
      DropLargeInv(h, live, p);
      ReleaseBacked(w, h, DropLarge(h, a), id, live, a, n);
  }

  lemma LargeNotEmpty(h: Heap, live: Live, a: nat)
    requires WeakInv(h, live) && a in h.arenas && h.arenas[a].Large?
    ensures h.arenas[a].cnt >= 1
  {
    assert ArenaInv(h, live, a);
  }

  // ----- Accounting -----------------------------------------------------------------------------------------

  /** Since w0 the heap's space has gained exactly the heap's pages, and no other space any. */
  ghost predicate Accounts(w0: World, w: World, h: Heap, id: Id) {
    && Has(w0, id) && Has(w, id) && w.ustart == w0.ustart
    && |w.kf| == |w0.kf| && |w.uf| == |w0.uf| && |SpaceOf(w, id).virt| == |SpaceOf(w0, id).virt|
    && Extends(SpaceOf(w0, id).pages, SpaceOf(w, id).pages)
    && (forall u: nat :: HeapPage(h, u) ==> u !in SpaceOf(w0, id).pages)
    && (forall u: nat :: u in SpaceOf(w, id).pages <==> u in SpaceOf(w0, id).pages || HeapPage(h, u))
    && match id
       case Kernel => w == w0.(kf := w.kf, kern := w.kern)
       case User(p) =>
         && w == w0.(kf := w.kf, uf := w.uf, procs := w0.procs[p := w0.procs[p].(space := w.procs[p].space, tables := w.procs[p].tables)])
         && Extends(w0.procs[p].tables, w.procs[p].tables)
  }

  lemma AccountsPlaced(w0: World, w: World, w': World, h: Heap, h': Heap, id: Id, v: nat, n: nat)
    requires Accounts(w0, w, h, id) && Inv(w) && Placed(w, w', id, v, n)
    requires forall u: nat :: HeapPage(h', u) <==> HeapPage(h, u) || v <= u < v + n
    ensures Accounts(w0, w', h', id)
  {
    FreshRange(w, id, v, n);
    if id.User? {
      assert w'.procs == w0.procs[id.pid := w'.procs[id.pid]];
    }
  }

  lemma AccountsReleased(w0: World, w: World, w': World, h: Heap, h': Heap, id: Id, v: nat, n: nat)
    requires Accounts(w0, w, h, id) && Released(w, w', id, v, n) && forall u :: v <= u < v + n ==> HeapPage(h, u)
    requires forall u: nat :: HeapPage(h', u) <==> HeapPage(h, u) && !(v <= u < v + n)
    ensures Accounts(w0, w', h', id)
  {
    if id.User? {
      assert w'.procs == w0.procs[id.pid := w'.procs[id.pid]];
    }
  }

  lemma AccountsSame(w0: World, w: World, h: Heap, h': Heap, id: Id)
    requires Accounts(w0, w, h, id) && forall u: nat :: HeapPage(h', u) <==> HeapPage(h, u)
    ensures Accounts(w0, w, h', id)
  {
  }

  lemma MallocAccounts(w0: World, w: World, h: Heap, id: Id, live: Live, pool_size: nat, size: nat)
    requires Sound(w, h, id, live) && Accounts(w0, w, h, id)
    ensures |h.free| == DESCS
    ensures match SysMalloc(w, h, id, pool_size, size) case Panic(_) => true case Ok((w', h', _)) => Accounts(w0, w', h', id)
  {
    hide Inv, WeakInv, Placed, Accounts, AddArena, IsFirstFit, DescFor, BlockSize;
    FreeListsCount(h, live);
    if size > pool_size {
    } else if size > 1024 {
      MallocPageCorrect(w, id, PagesFor(size));
      var r := MallocPage(w, id, PagesFor(size));
      if r.Ok? && r.value.1.Some? {
        var v := r.value.1.value;
        PlacedFresh(w, r.value.0, h, id, v, PagesFor(size));
        AddLargePages(h, live, v, PagesFor(size));
        AccountsPlaced(w0, w, r.value.0, h, AddLarge(h, v, PagesFor(size)), id, v, PagesFor(size));
      }
    } else {
      var d := DescFor(size, 0);
      RefillAccounts(w0, w, h, id, live, d);
      RefillSound(w, h, id, live, d);
      var r := Refill(w, h, id, d);
      if r.Ok? {
        var h1 := r.value.1;
        CanTakeBlock(h1, live, d);
        SameHeapPages(h1, TakeBlock(h1, d));
        AccountsSame(w0, r.value.0, h1, TakeBlock(h1, d), id);
      }
    }
  }

  lemma RefillAccounts(w0: World, w: World, h: Heap, id: Id, live: Live, d: nat)
    requires Sound(w, h, id, live) && Accounts(w0, w, h, id) && d < DESCS
    ensures |h.free| == DESCS
    ensures match Refill(w, h, id, d) case Panic(_) => true case Ok((w', h')) => Accounts(w0, w', h', id)
  {
    hide Inv, WeakInv, Placed, Accounts, AddArena, IsFirstFit;
    FreeListsCount(h, live);
    if h.free[d] == [] {
      MallocPageCorrect(w, id, 1);
      var r := MallocPage(w, id, 1);
      if r.Ok? {
        var v := r.value.1.value;
        PlacedFresh(w, r.value.0, h, id, v, 1);
        AddArenaPages(h, live, v, d);
        AccountsPlaced(w0, w, r.value.0, h, AddArena(h, v, d), id, v, 1);
      }
    }
  }

  /** Releasing one arena. */
  lemma ReleaseAccounts(w0: World, w: World, h: Heap, h': Heap, id: Id, live: Live, a: nat, n: nat)
    requires Inv(w) && WeakInv(h, live) && Backed(w, h, id) && Accounts(w0, w, h, id)
    requires a in h.arenas && h'.arenas == h.arenas - {a} && n >= 1 && forall u: nat :: Covers(h, a, u) <==> a <= u < a + n
    ensures Mapped(w, id, a, n) && Accounts(w0, MfreePage(w, id, a, n), h', id)
  {
    hide Inv, WeakInv, ArenasApart, Accounts, MfreePage, Mapped, Released;
    HeapApart(h, live);
    ReleaseBacked(w, h, h', id, live, a, n);
    FewerHeapPages(h, h', a);
    forall u | a <= u < a + n
      ensures HeapPage(h, u)
    {
      assert Covers(h, a, u);
    }
    AccountsReleased(w0, w, MfreePage(w, id, a, n), h, h', id, a, n);
  }

  lemma FreeAccounts(w0: World, w: World, h: Heap, id: Id, live: Live, p: nat)
    requires Sound(w, h, id, live) && Accounts(w0, w, h, id) && p in live
    ensures CanFree(w, h, id, p)
    ensures match SysFree(w, h, id, p) case Panic(_) => true case Ok((w', h')) => Accounts(w0, w', h', id)
  {
    hide Inv, WeakInv, MfreePage, Mapped, Block2Arena, PerArena, Accounts, AllFound;
    FreeReady(w, h, id, live, p);
    var a := Block2Arena(p);
    match h.arenas[a]
    case Small(d, _) =>
      var h1 := GiveBlock(h, p);
      SameHeapPages(h, h1);
      AccountsSame(w0, w, h, h1, id);
      GiveInv(h, live, p);
      GiveBacked(w, h, id, p);
      ReleaseAccounts(w0, w, h1, DropArena(h1, a), id, live - {p}, a, 1);
    case Large(n) =>
      LargeNotEmpty(h, live, a);
      ReleaseAccounts(w0, w, h, DropLarge(h, a), id, live, a, n);
  }

  // ----- Reclamation -------------------------------------------------------------------------------------------

  lemma SamePages(w0: World, w: World, id: Id)
    requires Accounts(w0, w, EMPTY_HEAP, id) && Inv(w0) && Inv(w)
    ensures SpaceOf(w, id) == SpaceOf(w0, id)
  {
    var s, s0 := SpaceOf(w, id), SpaceOf(w0, id);
    assert s.pages == s0.pages;
    assert SpaceInv(s, BasePage(id)) && SpaceInv(s0, BasePage(id));
    assert s.virt == s0.virt;
  }

  lemma SameUserBits(w0: World, w: World, id: Id)
    requires Accounts(w0, w, EMPTY_HEAP, id) && FramesInv(w0) && FramesInv(w) && SpaceOf(w, id) == SpaceOf(w0, id)
    ensures w.uf == w0.uf
  {
    forall f
      ensures BitAt(w.uf, w.ustart, f) <==> BitAt(w0.uf, w.ustart, f)
    {
      if UserBit(w, f) {
        var o :| Owns(w, o, f);
        assert o.UserPage?;
        assert Owns(w0, o, f);
      }
      if UserBit(w0, f) {
        var o :| Owns(w0, o, f);
        assert o.UserPage?;
        assert Owns(w, o, f);
      }
    }
    SameBits(w.uf, w0.uf, w.ustart);
  }

  lemma SameKernelBits(w0: World, w: World)
    requires w == w0.(kf := w.kf) && |w.kf| == |w0.kf| && FramesInv(w0) && FramesInv(w)
    ensures w.kf == w0.kf
  {
    forall f
      ensures BitAt(w.kf, KERNEL_FRAMES, f) <==> BitAt(w0.kf, KERNEL_FRAMES, f)
    {
      if KernelBit(w, f) {
        var o :| Owns(w, o, f);
        assert Owns(w0, o, f);
      }
      if KernelBit(w0, f) {
        var o :| Owns(w0, o, f);
        assert Owns(w, o, f);
      }
    }
    SameBits(w.kf, w0.kf, KERNEL_FRAMES);
  }

  /** A process keeps the page tables made on the way, and exactly they have taken kernel frames. */
  lemma SameButTables(w0: World, w: World, p: Pid)
    requires Accounts(w0, w, EMPTY_HEAP, User(p)) && FramesInv(w0) && FramesInv(w) && w.procs[p].space == w0.procs[p].space
    ensures forall f :: KernelBit(w, f) <==> KernelBit(w0, f) || NewTable(w0.procs[p].tables, w.procs[p].tables, f)
  {
    forall f
      ensures KernelBit(w, f) <==> KernelBit(w0, f) || NewTable(w0.procs[p].tables, w.procs[p].tables, f)
    {
      if KernelBit(w, f) {
        var o :| Owns(w, o, f);
        assert Owns(w0, o, f) || (o.PageTable? && o.pid == p && o.pd !in w0.procs[p].tables);
      }
      if KernelBit(w0, f) {
        var o :| Owns(w0, o, f);
        assert Owns(w, o, f);
      }
      if NewTable(w0.procs[p].tables, w.procs[p].tables, f) {
        var pd :| pd in w.procs[p].tables && pd !in w0.procs[p].tables && w.procs[p].tables[pd] == f;
        assert Owns(w, PageTable(p, pd), f);
      }
    }
  }

  /**
    With nothing live any more everything is back: for the kernel heap the whole world is as it
    was; for a process only its page tables have grown, and the kernel frames by exactly those.
   */
  lemma Reclaimed(w0: World, w: World, h: Heap, id: Id)
    requires Inv(w0) && Sound(w, h, id, map[]) && Accounts(w0, w, h, id)
    ensures h == EMPTY_HEAP && SpaceOf(w, id) == SpaceOf(w0, id) && w.uf == w0.uf
    ensures id.Kernel? ==> w == w0
    ensures id.User? ==>
              && w == w0.(kf := w.kf, procs := w0.procs[id.pid := w0.procs[id.pid].(tables := w.procs[id.pid].tables)])
              && Extends(w0.procs[id.pid].tables, w.procs[id.pid].tables)
              && forall f :: KernelBit(w, f) <==> KernelBit(w0, f) || NewTable(w0.procs[id.pid].tables, w.procs[id.pid].tables, f)
  {
    hide HeapInv, Owned, Covered;
    NothingLive(h);
    SamePages(w0, w, id);
    SameUserBits(w0, w, id);
    if id.Kernel? {
      SameKernelBits(w0, w);
    } else {
      SameButTables(w0, w, id.pid);
    }
  }
}
