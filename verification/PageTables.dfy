/**
  The words of the page directories and page tables that stand for a World: the
  directory set up by boot/loader.S, one directory per process, and the page tables.
 */
module PageTables {
  import opened Outcomes
  import opened Bitmaps
  import opened Paging
  import opened AddressSpaces
  import opened PageAllocation
  import opened PageRelease

  const KDIR := 0x100           // the kernel page directory, at 0x100000
  const KTABLES := 0x101        // its page tables: entry 768 + k has frame KTABLES + k
  const KERNEL_HALF := 0xc0000  // first page of the kernel half

  /** boot/loader.S: entries 0 and 768 share the first page table; the last entry is the self-map. */
  function KernelDirEntry(i: nat): nat {
    if i == 0 then MakeEntry(KTABLES)
    else if 768 <= i < 1023 then MakeEntry(KTABLES + i - 768)
    else if i == 1023 then MakeEntry(KDIR)
    else 0
  }

  function KernelPte(m: Phys, v: nat): nat
    requires KERNEL_HALF <= v < K_TOP
  {
    Entry(m, KTABLES + v / 1024 - 768, v % 1024)
  }

  /**
    What boot/loader.S leaves: the directory, and the low 1 MB mapped in the first page table.  It
    does not clear the page tables; the heap's entries may hold anything that is not present.
   */
  ghost predicate LoaderLeft(m: Phys) {
    && (forall i: nat :: i < 1024 ==> Entry(m, KDIR, i) == KernelDirEntry(i))
    && (forall j: nat :: j < 256 ==> Entry(m, KTABLES, j) == MakeEntry(j))
    && (forall v :: K_HEAP <= v < K_TOP ==> !Present(KernelPte(m, v)))
  }

  ghost predicate PteIs(word: nat, pages: map<nat, nat>, v: nat) {
    if v in pages then word == MakeEntry(pages[v]) else !Present(word)
  }

  ghost predicate KernelRefined(m: Phys, w: World) {
    && (forall i: nat :: i < 1024 ==> Entry(m, KDIR, i) == KernelDirEntry(i))
    && (forall v :: KERNEL_HALF <= v < K_HEAP ==> KernelPte(m, v) == MakeEntry(v - KERNEL_HALF))
    && (forall v :: K_HEAP <= v < K_TOP ==> PteIs(KernelPte(m, v), w.kern.pages, v))
  }

  /** The kernel half of a directory is the kernel's, and its last entry points at itself. */
  ghost predicate KernelHalfShared(m: Phys, d: nat) {
    && (forall i: nat :: 768 <= i < 1023 ==> Entry(m, d, i) == KernelDirEntry(i))
    && SelfMap(m, d)
  }

  ghost predicate ProcRefined(m: Phys, d: nat, p: Proc) {
    && KernelHalfShared(m, d)
    && (forall pd: nat :: pd < 768 ==>
          if pd in p.tables then Entry(m, d, pd) == MakeEntry(p.tables[pd]) else !Present(Entry(m, d, pd)))
    && (forall v: nat :: v < KERNEL_HALF && v / 1024 in p.tables ==>
          PteIs(Entry(m, p.tables[v / 1024], v % 1024), p.space.pages, v))
  }

  /** What a world needs for its page tables to be told apart. */
  ghost predicate Shape(w: World) {
    && Owned(w) && OwnDirectories(w)
    && (forall v <- w.kern.pages :: K_HEAP <= v < K_TOP)
    && (forall p <- w.procs :: ProcShape(w, w.procs[p]))
  }

  ghost predicate ProcShape(w: World, p: Proc) {
    && p.dir in w.kern.pages
    && (forall pd <- p.tables :: pd < 768)
    && (forall v <- p.space.pages :: v / 1024 in p.tables)
  }

  lemma InvShape(w: World)
    requires Inv(w)
    ensures Shape(w)
  {
    forall p <- w.procs
      ensures ProcShape(w, w.procs[p])
    {
      assert ProcInv(w, w.procs[p]);
    }
  }

  /** The directory a thread runs with: the kernel's, or its process's own. */
  ghost function Dir(w: World, cur: Option<Pid>): nat
    requires cur.Some? ==> cur.value in w.procs && w.procs[cur.value].dir in w.kern.pages
  {
    if cur.None? then KDIR else w.kern.pages[w.procs[cur.value].dir]
  }

  ghost predicate Runs(w: World, cur: Option<Pid>) {
    cur.Some? ==> cur.value in w.procs
  }

  ghost predicate Refines(m: Phys, w: World)
    requires Shape(w)
  {
    && KernelRefined(m, w)
    && forall p <- w.procs :: ProcRefined(m, Dir(w, Some(p)), w.procs[p])
  }

  // ----- Telling frames apart ----------------------------------------------------------

  lemma DirFrame(w: World, p: Pid)
    requires Shape(w) && p in w.procs
    ensures KERNEL_FRAMES <= Dir(w, Some(p)) && KernelBit(w, Dir(w, Some(p)))
    ensures forall q <- w.procs :: q != p ==> Dir(w, Some(q)) != Dir(w, Some(p))
    ensures forall q <- w.procs, pd <- w.procs[q].tables :: w.procs[q].tables[pd] != Dir(w, Some(p))
  {
    assert ProcShape(w, w.procs[p]);
    var d := w.procs[p].dir;
    assert Owns(w, KernelPage(d), Dir(w, Some(p)));
    forall q <- w.procs
      ensures q != p ==> Dir(w, Some(q)) != Dir(w, Some(p))
    {
      assert ProcShape(w, w.procs[q]);
      assert Owns(w, KernelPage(w.procs[q].dir), Dir(w, Some(q)));
    }
    forall q <- w.procs, pd <- w.procs[q].tables
      ensures w.procs[q].tables[pd] != Dir(w, Some(p))
    {
      assert Owns(w, PageTable(q, pd), w.procs[q].tables[pd]);
    }
  }

  lemma TableFrame(w: World, p: Pid, pd: nat)
    requires Shape(w) && p in w.procs && pd in w.procs[p].tables
    ensures KERNEL_FRAMES <= w.procs[p].tables[pd] && KernelBit(w, w.procs[p].tables[pd])
    ensures forall q <- w.procs, qd <- w.procs[q].tables ::
              w.procs[q].tables[qd] == w.procs[p].tables[pd] ==> q == p && qd == pd
  {
    var t := w.procs[p].tables[pd];
    assert Owns(w, PageTable(p, pd), t);
    forall q <- w.procs, qd <- w.procs[q].tables
      ensures w.procs[q].tables[qd] == t ==> q == p && qd == pd
    {
      assert Owns(w, PageTable(q, qd), w.procs[q].tables[qd]);
    }
  }

  /** Page tables and directories: the frames whose words matter. */
  ghost predicate Structural(w: World, g: nat)
    requires Shape(w)
  {
    || KDIR <= g < KERNEL_FRAMES
    || (exists p :: p in w.procs && Dir(w, Some(p)) == g)
    || (exists p, pd :: p in w.procs && pd in w.procs[p].tables && w.procs[p].tables[pd] == g)
  }

  ghost predicate SameWords(m: Phys, m': Phys, g: nat) {
    forall i: nat :: i < 1024 ==> Entry(m', g, i) == Entry(m, g, i)
  }

  lemma KernelKept(m: Phys, m': Phys, w: World, w': World)
    requires KernelRefined(m, w) && w'.kern == w.kern
    requires forall g: nat :: KDIR <= g < KERNEL_FRAMES ==> SameWords(m, m', g)
    ensures KernelRefined(m', w')
  {
    assert SameWords(m, m', KDIR);
    forall v | KERNEL_HALF <= v < K_TOP
      ensures KernelPte(m', v) == KernelPte(m, v)
    {
      assert SameWords(m, m', KTABLES + v / 1024 - 768);
    }
  }

  lemma ProcKept(m: Phys, m': Phys, d: nat, p: Proc)
    requires ProcRefined(m, d, p) && SameWords(m, m', d)
    requires forall pd <- p.tables :: SameWords(m, m', p.tables[pd])
    ensures ProcRefined(m', d, p)
  {
  }

  /** Writing words of any other frame, as clients and memset do, leaves the translation alone. */
  lemma DataWrite(m: Phys, m': Phys, w: World, f: nat)
    requires Shape(w) && Refines(m, w) && !Structural(w, f)
    requires forall g: nat, i: nat :: g != f ==> Entry(m', g, i) == Entry(m, g, i)
    ensures Refines(m', w)
  {
    KernelKept(m, m', w, w);
    forall p <- w.procs
      ensures ProcRefined(m', Dir(w, Some(p)), w.procs[p])
    {
      assert ProcRefined(m, Dir(w, Some(p)), w.procs[p]);
      ProcKept(m, m', Dir(w, Some(p)), w.procs[p]);
    }
  }

  /** A data page of the kernel heap or of a process is not structural. */
  lemma DataPage(w: World, id: Id, v: nat)
    requires Shape(w) && Has(w, id) && v in SpaceOf(w, id).pages
    requires id.Kernel? ==> forall p <- w.procs :: w.procs[p].dir != v
    ensures !Structural(w, SpaceOf(w, id).pages[v])
  {
    var f := SpaceOf(w, id).pages[v];
    var o := if id.Kernel? then KernelPage(v) else UserPage(id.pid, v);
    assert Owns(w, o, f);
    forall p | p in w.procs && Dir(w, Some(p)) == f
      ensures false
    {
      assert ProcShape(w, w.procs[p]);
      assert Owns(w, KernelPage(w.procs[p].dir), f);
    }
    forall p, pd | p in w.procs && pd in w.procs[p].tables && w.procs[p].tables[pd] == f
      ensures false
    {
      assert Owns(w, PageTable(p, pd), f);
    }
  }

  // ----- Translation ---------------------------------------------------------------------

  /** The walk of a process's own directory: user addresses translate exactly as its space says. */
  lemma TranslateUser(m: Phys, w: World, p: Pid, va: nat)
    requires Shape(w) && Refines(m, w) && p in w.procs && va < KERNEL_HALF * PG_SIZE
    ensures Walk(m, Dir(w, Some(p)), va) ==
              var pages := w.procs[p].space.pages;
              if va / PG_SIZE in pages then Some(Loc(pages[va / PG_SIZE], va % PG_SIZE)) else None
  {
    var v := va / PG_SIZE;
    assert ProcShape(w, w.procs[p]) && ProcRefined(m, Dir(w, Some(p)), w.procs[p]);
    assert PdeIdx(va) == v / 1024 && PteIdx(va) == v % 1024;
  }

  /** Present, writable, and open to user mode (section 4.6 of the same manual). */
  predicate UserWritable(word: nat) {
    word % 2 == 1 && word / 2 % 2 == 1 && word / 4 % 2 == 1
  }

  lemma EntryWritable(f: nat)
    ensures UserWritable(MakeEntry(f))
  {
  }

  /** User mode may write every page that is mapped for a process: both entries on the way allow it. */
  lemma UserMayWrite(m: Phys, w: World, p: Pid, va: nat)
    requires Shape(w) && Refines(m, w) && p in w.procs && va < KERNEL_HALF * PG_SIZE && va / PG_SIZE in w.procs[p].space.pages
    ensures var pde := Entry(m, Dir(w, Some(p)), PdeIdx(va));
            UserWritable(pde) && UserWritable(Entry(m, FrameOf(pde), PteIdx(va)))
  {
    hide UserWritable;
    var v := va / PG_SIZE;
    assert ProcShape(w, w.procs[p]) && ProcRefined(m, Dir(w, Some(p)), w.procs[p]);
    assert PdeIdx(va) == v / 1024 && PteIdx(va) == v % 1024;
    EntryWritable(w.procs[p].tables[v / 1024]);
    EntryWritable(w.procs[p].space.pages[v]);
  }

  /** The walk of any directory: kernel heap addresses translate as the kernel's space says, the same in every process. */
  lemma TranslateKernel(m: Phys, w: World, cur: Option<Pid>, va: nat)
    requires Shape(w) && Refines(m, w) && Runs(w, cur) && K_HEAP * PG_SIZE <= va < WINDOW
    ensures cur.Some? ==> w.procs[cur.value].dir in w.kern.pages
    ensures Walk(m, Dir(w, cur), va) ==
              if va / PG_SIZE in w.kern.pages then Some(Loc(w.kern.pages[va / PG_SIZE], va % PG_SIZE)) else None
  {
    var v := va / PG_SIZE;
    if cur.Some? {
      assert ProcShape(w, w.procs[cur.value]) && ProcRefined(m, Dir(w, cur), w.procs[cur.value]);
    }
    assert PdeIdx(va) == v / 1024 && PteIdx(va) == v % 1024;
    assert 768 <= v / 1024 < 1023;
    assert Entry(m, Dir(w, cur), PdeIdx(va)) == MakeEntry(KTABLES + v / 1024 - 768);
    assert PteIs(KernelPte(m, v), w.kern.pages, v);
  }

  /** Only in the kernel directory: the heap's first 3 MB also appear at the bottom of the address space. */
  lemma LowAlias(m: Phys, w: World, va: nat)
    requires Shape(w) && Refines(m, w) && K_HEAP * PG_SIZE <= va < (KERNEL_HALF + 1024) * PG_SIZE
    ensures Walk(m, KDIR, va - KERNEL_HALF * PG_SIZE) == Walk(m, KDIR, va)
  {
    var u := va - KERNEL_HALF * PG_SIZE;
    assert PdeIdx(u) == 0 && PdeIdx(va) == 768 && PteIdx(u) == PteIdx(va);
  }

  /** Every process directory agrees with the kernel's on entries 768 to 1022, and its last entry points at itself. */
  lemma DirectoriesAgree(m: Phys, w: World, p: Pid)
    requires Shape(w) && Refines(m, w) && p in w.procs
    ensures var d := Dir(w, Some(p));
            && d != KDIR && Entry(m, d, 1023) == MakeEntry(d)
            && forall i: nat :: 768 <= i < 1023 ==> Entry(m, d, i) == Entry(m, KDIR, i)
  {
    DirFrame(w, p);
    assert ProcRefined(m, Dir(w, Some(p)), w.procs[p]);
  }

  /** So every address of the kernel half below the self-map means the same in every process, whenever it was mapped. */
  lemma KernelHalfSame(m: Phys, w: World, p: Pid, va: nat)
    requires Shape(w) && Refines(m, w) && p in w.procs && KERNEL_HALF * PG_SIZE <= va < WINDOW
    ensures Walk(m, Dir(w, Some(p)), va) == Walk(m, KDIR, va)
  {
    DirectoriesAgree(m, w, p);
    assert 768 <= PdeIdx(va) < 1023;
  }

  /** Two user addresses on different pages or in different processes never reach the same frame, nor a kernel heap page's. */
  lemma UserWalksApart(m: Phys, w: World, p: Pid, q: Pid, u: nat, v: nat, k: nat)
    requires Shape(w) && Refines(m, w) && p in w.procs && q in w.procs
    requires u < KERNEL_HALF * PG_SIZE && v < KERNEL_HALF * PG_SIZE && K_HEAP * PG_SIZE <= k < WINDOW
    requires Walk(m, Dir(w, Some(p)), u).Some?
    ensures var f := Walk(m, Dir(w, Some(p)), u).value.frame;
            && (Walk(m, Dir(w, Some(q)), v).Some? && (p != q || u / PG_SIZE != v / PG_SIZE) ==>
                  Walk(m, Dir(w, Some(q)), v).value.frame != f)
            && (Walk(m, KDIR, k).Some? ==> Walk(m, KDIR, k).value.frame != f)
            && !Structural(w, f)
  {
    hide Walk, Structural, Refines, OwnDirectories;
    TranslateUser(m, w, p, u);
    TranslateUser(m, w, q, v);
    TranslateKernel(m, w, None, k);
    DataPage(w, User(p), u / PG_SIZE);
    var f := w.procs[p].space.pages[u / PG_SIZE];
    assert Owns(w, UserPage(p, u / PG_SIZE), f);
    if v / PG_SIZE in w.procs[q].space.pages {
      assert Owns(w, UserPage(q, v / PG_SIZE), w.procs[q].space.pages[v / PG_SIZE]);
    }
    if k / PG_SIZE in w.kern.pages {
      assert Owns(w, KernelPage(k / PG_SIZE), w.kern.pages[k / PG_SIZE]);
    }
  }

  /** The current directory, whichever it is, maps itself. */
  lemma CurrentSelfMap(m: Phys, w: World, cur: Option<Pid>)
    requires Shape(w) && Refines(m, w) && Runs(w, cur)
    ensures cur.Some? ==> w.procs[cur.value].dir in w.kern.pages
    ensures SelfMap(m, Dir(w, cur)) && (Dir(w, cur) == KDIR || KernelBit(w, Dir(w, cur)))
  {
    if cur.Some? {
      DirFrame(w, cur.value);
      assert ProcRefined(m, Dir(w, cur), w.procs[cur.value]);
    }
  }

  // ----- Mapping one page -------------------------------------------------------------------

  /** Mapping a kernel page writes one word of a kernel page table, which all directories share. */
  lemma MapKernelPage(m: Phys, w: World, w': World, cur: Option<Pid>, v: nat, f: nat, t: nat)
    requires Shape(w) && Shape(w') && Refines(m, w) && Runs(w, cur) && K_HEAP <= v < K_TOP && v !in w.kern.pages
    requires w'.kern.pages == w.kern.pages[v := f] && w'.procs == w.procs
    ensures cur.Some? ==> w.procs[cur.value].dir in w.kern.pages
    ensures var d, va := Dir(w, cur), v * PG_SIZE;
            && Present(Entry(m, d, PdeIdx(va)))
            && !Present(Entry(m, FrameOf(Entry(m, d, PdeIdx(va))), PteIdx(va)))
            && Refines(MapWords(m, d, va, f, t), w')
  {
    CurrentSelfMap(m, w, cur);
    var d, va := Dir(w, cur), v * PG_SIZE;
    assert PdeIdx(va) == v / 1024 && PteIdx(va) == v % 1024;
    if cur.Some? {
      assert ProcRefined(m, d, w.procs[cur.value]);
    }
    assert Entry(m, d, PdeIdx(va)) == MakeEntry(KTABLES + v / 1024 - 768);
    assert PteIs(KernelPte(m, v), w.kern.pages, v);
    KernelPteWritten(m, w, w', v, MakeEntry(f));
  }

  /** One word of a kernel page table is written, to map v or to unmap it. */
  lemma KernelPteWritten(m: Phys, w: World, w': World, v: nat, word: nat)
    requires Shape(w) && Shape(w') && Refines(m, w) && K_HEAP <= v < K_TOP && w'.procs == w.procs
    requires PteIs(word, w'.kern.pages, v) && (v !in w.kern.pages || v !in w'.kern.pages)
    requires forall u :: u != v ==> (u in w'.kern.pages <==> u in w.kern.pages) && (u in w.kern.pages ==> w'.kern.pages[u] == w.kern.pages[u])
    ensures Refines(Put(m, KTABLES + v / 1024 - 768, v % 1024, word), w')
  {
    var m' := Put(m, KTABLES + v / 1024 - 768, v % 1024, word);
    assert KernelRefined(m', w') by {
      forall u | KERNEL_HALF <= u < K_TOP && u != v
        ensures KernelPte(m', u) == KernelPte(m, u)
      {
      }
    }
    forall p <- w'.procs
      ensures ProcRefined(m', Dir(w', Some(p)), w'.procs[p])
    {
      DirFrame(w, p);
      DirFrame(w', p);
      assert ProcShape(w, w.procs[p]) && ProcShape(w', w.procs[p]) && ProcRefined(m, Dir(w, Some(p)), w.procs[p]);
      forall pd <- w.procs[p].tables
        ensures SameWords(m, m', w.procs[p].tables[pd])
      {
        TableFrame(w, p, pd);
      }
      assert Dir(w', Some(p)) == Dir(w, Some(p));
      ProcKept(m, m', Dir(w, Some(p)), w.procs[p]);
    }
  }

  /** Mapping a user page whose page table exists, or unmapping it, writes one word of that page table. */
  lemma UserPteWritten(m: Phys, w: World, w': World, p: Pid, v: nat, word: nat)
    requires Shape(w) && Shape(w') && Refines(m, w) && p in w.procs && p in w'.procs && v < KERNEL_HALF
    requires v / 1024 in w.procs[p].tables
    requires w'.kern == w.kern && w'.procs == w.procs[p := w.procs[p].(space := w'.procs[p].space)]
    requires PteIs(word, w'.procs[p].space.pages, v)
    requires forall u :: u != v ==>
               (u in w'.procs[p].space.pages <==> u in w.procs[p].space.pages)
               && (u in w.procs[p].space.pages ==> w'.procs[p].space.pages[u] == w.procs[p].space.pages[u])
    ensures Refines(Put(m, w.procs[p].tables[v / 1024], v % 1024, word), w')
  {
    var t := w.procs[p].tables[v / 1024];
    var m' := Put(m, t, v % 1024, word);
    TableFrame(w, p, v / 1024);
    KernelKept(m, m', w, w');
    forall q <- w'.procs
      ensures ProcRefined(m', Dir(w', Some(q)), w'.procs[q])
    {
      DirFrame(w, q);
      assert ProcShape(w, w.procs[q]) && ProcRefined(m, Dir(w, Some(q)), w.procs[q]);
      assert SameWords(m, m', Dir(w, Some(q)));
      if q != p {
        ProcKept(m, m', Dir(w, Some(q)), w.procs[q]);
      } else {
        forall u: nat | u < KERNEL_HALF && u / 1024 in w.procs[p].tables
          ensures PteIs(Entry(m', w.procs[p].tables[u / 1024], u % 1024), w'.procs[p].space.pages, u)
        {
          assert PteIs(Entry(m, w.procs[p].tables[u / 1024], u % 1024), w.procs[p].space.pages, u);
          if u != v && (u / 1024 != v / 1024) {
            TableFrame(w, p, u / 1024);
          }
        }
      }
    }
  }

  /** Mapping a user page: the page table that is there, or a fresh one that starts all clear. */
  lemma MapUserPage(m: Phys, w: World, w': World, p: Pid, v: nat, f: nat, t: nat)
    requires Shape(w) && Shape(w') && Refines(m, w) && p in w.procs && p in w'.procs
    requires v < KERNEL_HALF && v !in w.procs[p].space.pages && w'.kern == w.kern
    requires w'.procs == w.procs[p := w'.procs[p]] && w'.procs[p].dir == w.procs[p].dir
    requires w'.procs[p].space.pages == w.procs[p].space.pages[v := f]
    requires w'.procs[p].tables == if v / 1024 in w.procs[p].tables then w.procs[p].tables else w.procs[p].tables[v / 1024 := t]
    ensures w.procs[p].dir in w.kern.pages
    ensures var d, va := Dir(w, Some(p)), v * PG_SIZE;
            && (Present(Entry(m, d, PdeIdx(va))) <==> v / 1024 in w.procs[p].tables)
            && (Present(Entry(m, d, PdeIdx(va))) ==> !Present(Entry(m, FrameOf(Entry(m, d, PdeIdx(va))), PteIdx(va))))
            && Refines(MapWords(m, d, va, f, t), w')
  {
    var d, va := Dir(w, Some(p)), v * PG_SIZE;
    assert ProcShape(w, w.procs[p]) && ProcRefined(m, d, w.procs[p]);
    assert PdeIdx(va) == v / 1024 && PteIdx(va) == v % 1024;
    if v / 1024 in w.procs[p].tables {
      assert PteIs(Entry(m, w.procs[p].tables[v / 1024], v % 1024), w.procs[p].space.pages, v);
      UserPteWritten(m, w, w', p, v, MakeEntry(f));
    } else {
      DirFrame(w', p);
      assert w'.procs[p].tables[v / 1024] == t;
      FreshTableWords(m, d, v, f, t);
      FreshTable(m, MapWords(m, d, va, f, t), w, w', p, v, f, t);
    }
  }

  /** m' is m with a fresh page table t for page v in directory d, and the page's entry in it. */
  ghost predicate TableAdded(m: Phys, m': Phys, d: nat, v: nat, f: nat, t: nat) {
    forall g: nat, i: nat :: i < 1024 ==>
      Entry(m', g, i) == if g == t then (if i == v % 1024 then MakeEntry(f) else 0)
                         else if g == d && i == v / 1024 then MakeEntry(t)
                         else Entry(m, g, i)
  }

  lemma FreshTableWords(m: Phys, d: nat, v: nat, f: nat, t: nat)
    requires v < KERNEL_HALF && t != d && !Present(Entry(m, d, v / 1024))
    ensures TableAdded(m, MapWords(m, d, v * PG_SIZE, f, t), d, v, f, t)
  {
    var va := v * PG_SIZE;
    assert PdeIdx(va) == v / 1024 && PteIdx(va) == v % 1024;
    forall g: nat, i: nat | i < 1024
      ensures Entry(MapWords(m, d, va, f, t), g, i) == if g == t then (if i == v % 1024 then MakeEntry(f) else 0)
                                                       else if g == d && i == v / 1024 then MakeEntry(t)
                                                       else Entry(m, g, i)
    {
      MapWritesOnly(m, d, va, f, t, g, i);
    }
  }

  lemma FreshTable(m: Phys, m': Phys, w: World, w': World, p: Pid, v: nat, f: nat, t: nat)
    requires Shape(w) && Shape(w') && Refines(m, w) && p in w.procs && p in w'.procs
    requires v < KERNEL_HALF && v / 1024 !in w.procs[p].tables && w'.kern == w.kern
    requires w'.procs == w.procs[p := w'.procs[p]] && w'.procs[p].dir == w.procs[p].dir
    requires w'.procs[p].space.pages == w.procs[p].space.pages[v := f]
    requires w'.procs[p].tables == w.procs[p].tables[v / 1024 := t]
    requires w.procs[p].dir in w.kern.pages && TableAdded(m, m', Dir(w, Some(p)), v, f, t)
    ensures Refines(m', w')
  {
    hide Owned, KernelRefined, ProcRefined;
    TableFrame(w', p, v / 1024);
    DirFrame(w', p);
    KernelKept(m, m', w, w');
    forall q <- w'.procs
      ensures ProcRefined(m', Dir(w', Some(q)), w'.procs[q])
    {
      DirFrame(w', q);
      assert ProcShape(w, w.procs[q]) && ProcRefined(m, Dir(w, Some(q)), w.procs[q]);
      forall pd <- w.procs[q].tables
        ensures SameWords(m, m', w.procs[q].tables[pd])
      {
        TableFrame(w', q, pd);
      }
      if q != p {
        ProcKept(m, m', Dir(w, Some(q)), w.procs[q]);
      } else {
        FreshTableProc(m, m', w, w', p, v, f, t);
      }
    }
  }

  lemma FreshTableProc(m: Phys, m': Phys, w: World, w': World, p: Pid, v: nat, f: nat, t: nat)
    requires Shape(w) && p in w.procs && p in w'.procs && w.procs[p].dir in w.kern.pages
    requires ProcRefined(m, Dir(w, Some(p)), w.procs[p]) && ProcShape(w, w.procs[p])
    requires v / 1024 !in w.procs[p].tables && v < KERNEL_HALF && t != Dir(w, Some(p))
    requires w'.procs[p].space.pages == w.procs[p].space.pages[v := f]
    requires w'.procs[p].tables == w.procs[p].tables[v / 1024 := t]
    requires forall i: nat :: i < 1024 ==> Entry(m', t, i) == if i == v % 1024 then MakeEntry(f) else 0
    requires forall i: nat :: i < 1024 ==>
               Entry(m', Dir(w, Some(p)), i) == if i == v / 1024 then MakeEntry(t) else Entry(m, Dir(w, Some(p)), i)
    requires forall pd <- w.procs[p].tables :: SameWords(m, m', w.procs[p].tables[pd])
    ensures ProcRefined(m', Dir(w, Some(p)), w'.procs[p])
  {
    forall u: nat | u < KERNEL_HALF && u / 1024 in w'.procs[p].tables
      ensures PteIs(Entry(m', w'.procs[p].tables[u / 1024], u % 1024), w'.procs[p].space.pages, u)
    {
      if u / 1024 == v / 1024 {
        assert u != v ==> u % 1024 != v % 1024;
        assert u !in w.procs[p].space.pages;
      } else {
        assert PteIs(Entry(m, w.procs[p].tables[u / 1024], u % 1024), w.procs[p].space.pages, u);
      }
    }
  }

  // ----- Shapes after a step ------------------------------------------------------------------

  /** Adding pages keeps the page tables apart. */
  lemma ShapeGrows(w: World, w': World, id: Id, v: nat, n: nat)
    requires Shape(w) && Owned(w') && Grows(w, w', id, v, n)
    requires if id.Kernel? then K_HEAP <= v && v + n <= K_TOP else v + n <= KERNEL_HALF
    ensures Shape(w')
  {
    forall p <- w'.procs
      ensures ProcShape(w', w'.procs[p])
    {
      assert ProcShape(w, w.procs[p]);
    }
  }

  /** Dropping one page does, unless it is a page directory. */
  lemma ShapeDrop(w: World, id: Id, v: nat)
    requires Shape(w) && Mapped(w, id, v, 1) && Owned(DropPage(w, id, v))
    requires id.Kernel? ==> forall p <- w.procs :: w.procs[p].dir != v
    ensures Shape(DropPage(w, id, v))
  {
    var w' := DropPage(w, id, v);
    forall p <- w'.procs
      ensures ProcShape(w', w'.procs[p])
    {
      assert ProcShape(w, w.procs[p]);
    }
  }

  /** The words of a directory as create_page_dir leaves them. */
  ghost predicate DirReady(m: Phys, f: nat) {
    forall i: nat :: i < 1024 ==>
      Entry(m, f, i) == if i == 1023 then MakeEntry(f) else if 768 <= i then KernelDirEntry(i) else 0
  }

  /** The same before its last entry is set. */
  ghost predicate HalfReady(m: Phys, f: nat) {
    forall i: nat :: i < 1023 ==> Entry(m, f, i) == if 768 <= i then KernelDirEntry(i) else 0
  }

  lemma LastEntry(m: Phys, f: nat)
    requires HalfReady(m, f)
    ensures DirReady(Put(m, f, 1023, MakeEntry(f)), f)
  {
  }

  /** A directory cleared, given the kernel half and pointed at itself makes a process with an empty space. */
  lemma NewProcess(m: Phys, w: World, w': World, pid: Pid, p: Proc)
    requires Shape(w) && Shape(w') && Refines(m, w) && pid !in w.procs && p.dir in w.kern.pages
    requires w' == w.(procs := w.procs[pid := p]) && p.tables == map[] && DirReady(m, w.kern.pages[p.dir])
    ensures Refines(m, w')
  {
    forall q <- w'.procs
      ensures ProcRefined(m, Dir(w', Some(q)), w'.procs[q])
    {
      assert q != pid ==> ProcShape(w, w.procs[q]) && ProcRefined(m, Dir(w, Some(q)), w.procs[q]);
    }
  }

  /** The page numbers a caller can ask for: the kernel's heap, or the user half. */
  predicate InReach(id: Id, v: nat) {
    if id.Kernel? then K_HEAP <= v < K_TOP else v < KERNEL_HALF
  }

  /** Memory m stands for w while directory d is current for cur. */
  ghost predicate Stands(m: Phys, w: World, cur: Option<Pid>, d: nat) {
    && Shape(w) && Runs(w, cur) && Refines(m, w)
    && (cur.Some? ==> w.procs[cur.value].dir in w.kern.pages) && d == Dir(w, cur)
  }

  lemma AddPageFields(w: World, id: Id, v: nat, f: nat, t: nat)
    requires Has(w, id) && AddPage(w, id, v).Ok? && f == PoolStart(w, id) + Palloc(Pool(w, id)).value
    requires !HasTable(w, id, v) ==> t == KERNEL_FRAMES + Palloc(w.kf).value
    ensures var w1 := AddPage(w, id, v).value;
            match id
            case Kernel => w1.kern.pages == w.kern.pages[v := f] && w1.procs == w.procs
            case User(p) =>
              && w1.kern == w.kern && p in w1.procs && w1.procs == w.procs[p := w1.procs[p]]
              && w1.procs[p].dir == w.procs[p].dir && w1.procs[p].space.pages == w.procs[p].space.pages[v := f]
              && w1.procs[p].tables == if v / 1024 in w.procs[p].tables then w.procs[p].tables else w.procs[p].tables[v / 1024 := t]
  {
  }

  lemma AddPageShape(w: World, id: Id, v: nat)
    requires Shape(w) && Covered(w) && Has(w, id) && v !in SpaceOf(w, id).pages && InReach(id, v) && AddPage(w, id, v).Ok?
    ensures Shape(AddPage(w, id, v).value) && Covered(AddPage(w, id, v).value)
  {
    AddPageStep(w, id, v);
    ShapeGrows(w, AddPage(w, id, v).value, id, v, 1);
  }

  lemma AddKernelPage(m: Phys, w: World, cur: Option<Pid>, d: nat, id: Id, v: nat, t: nat)
    requires Stands(m, w, cur, d) && Has(w, id) && (id.User? ==> cur == Some(id.pid)) && InReach(id, v)
    requires v !in SpaceOf(w, id).pages && AddPage(w, id, v).Ok? && Shape(AddPage(w, id, v).value)
    requires !HasTable(w, id, v) ==> t == KERNEL_FRAMES + Palloc(w.kf).value
    requires id.Kernel?
    ensures Stands(MapWords(m, d, v * PG_SIZE, PoolStart(w, id) + Palloc(Pool(w, id)).value, t), AddPage(w, id, v).value, cur, d)
  {
    hide Owned, KernelRefined, ProcRefined, MapWords;
    var w1, f := AddPage(w, id, v).value, PoolStart(w, id) + Palloc(Pool(w, id)).value;
    AddPageFields(w, id, v, f, t);
    MapKernelPage(m, w, w1, cur, v, f, t);
    if cur.Some? {
      assert ProcShape(w1, w1.procs[cur.value]);
    }
  }

  lemma AddUserPage(m: Phys, w: World, cur: Option<Pid>, d: nat, id: Id, v: nat, t: nat)
    requires Stands(m, w, cur, d) && Has(w, id) && (id.User? ==> cur == Some(id.pid)) && InReach(id, v)
    requires v !in SpaceOf(w, id).pages && AddPage(w, id, v).Ok? && Shape(AddPage(w, id, v).value)
    requires !HasTable(w, id, v) ==> t == KERNEL_FRAMES + Palloc(w.kf).value
    requires id.User?
    ensures Stands(MapWords(m, d, v * PG_SIZE, PoolStart(w, id) + Palloc(Pool(w, id)).value, t), AddPage(w, id, v).value, cur, d)
  {
    hide Owned, KernelRefined, ProcRefined, MapWords;
    var w1, f := AddPage(w, id, v).value, PoolStart(w, id) + Palloc(Pool(w, id)).value;
    AddPageFields(w, id, v, f, t);
    var p := id.pid;
    assert id == User(p) && cur == Some(p) && d == Dir(w, Some(p));
    assert HasTable(w, id, v) <==> v / 1024 in w.procs[p].tables;
    MapUserPage(m, w, w1, p, v, f, t);
  }

  /** One turn of malloc_page's loop, on words: t is the frame of the new page table, if one is needed. */
  lemma AddPageStands(m: Phys, w: World, cur: Option<Pid>, d: nat, id: Id, v: nat, t: nat)
    requires Stands(m, w, cur, d) && Has(w, id) && (id.User? ==> cur == Some(id.pid)) && InReach(id, v)
    requires v !in SpaceOf(w, id).pages && AddPage(w, id, v).Ok? && Shape(AddPage(w, id, v).value)
    requires !HasTable(w, id, v) ==> t == KERNEL_FRAMES + Palloc(w.kf).value
    ensures Stands(MapWords(m, d, v * PG_SIZE, PoolStart(w, id) + Palloc(Pool(w, id)).value, t), AddPage(w, id, v).value, cur, d)
  {
    if id.Kernel? {
      AddKernelPage(m, w, cur, d, id, v, t);
    } else {
      AddUserPage(m, w, cur, d, id, v, t);
    }
  }

  /** Before the turn: the page table is there as the world says, and the entry is clear. */
  lemma EntriesOf(m: Phys, w: World, cur: Option<Pid>, d: nat, id: Id, v: nat)
    requires Stands(m, w, cur, d) && Has(w, id) && (id.User? ==> cur == Some(id.pid)) && InReach(id, v)
    ensures SelfMap(m, d) && (d == KDIR || KernelBit(w, d)) && (v in SpaceOf(w, id).pages ==> HasTable(w, id, v))
    ensures var pde := Entry(m, d, PdeIdx(v * PG_SIZE));
            && (Present(pde) <==> HasTable(w, id, v))
            && (Present(pde) ==> PteIs(Entry(m, FrameOf(pde), PteIdx(v * PG_SIZE)), SpaceOf(w, id).pages, v))
  {
    CurrentSelfMap(m, w, cur);
    var va := v * PG_SIZE;
    assert PdeIdx(va) == v / 1024 && PteIdx(va) == v % 1024;
    if cur.Some? {
      assert ProcShape(w, w.procs[cur.value]) && ProcRefined(m, d, w.procs[cur.value]);
    }
    if id.Kernel? {
      assert Entry(m, d, PdeIdx(va)) == MakeEntry(KTABLES + v / 1024 - 768);
      assert PteIs(KernelPte(m, v), w.kern.pages, v);
    } else if HasTable(w, id, v) {
      assert PteIs(Entry(m, w.procs[id.pid].tables[v / 1024], v % 1024), w.procs[id.pid].space.pages, v);
    }
  }

  lemma DropPageShape(w: World, id: Id, v: nat)
    requires Shape(w) && Covered(w) && Mapped(w, id, v, 1)
    requires id.Kernel? ==> forall p <- w.procs :: w.procs[p].dir != v
    ensures Shape(DropPage(w, id, v)) && Covered(DropPage(w, id, v))
  {
    DropPageFrames(w, id, v);
    ShapeDrop(w, id, v);
  }

  lemma DropPageFields(w: World, id: Id, v: nat)
    requires Owned(w) && Mapped(w, id, v, 1)
    ensures var w1 := DropPage(w, id, v);
            match id
            case Kernel => w1.kern.pages == w.kern.pages - {v} && w1.procs == w.procs
            case User(p) =>
              && w1.kern == w.kern && w1.procs == w.procs[p := w.procs[p].(space := w1.procs[p].space)]
              && w1.procs[p].space.pages == w.procs[p].space.pages - {v}
  {
  }

  lemma KernelDirWord(m: Phys, w: World, cur: Option<Pid>, d: nat, v: nat)
    requires Stands(m, w, cur, d) && InReach(Kernel, v)
    ensures 768 <= v / 1024 < 1023 && Entry(m, d, v / 1024) == MakeEntry(KTABLES + v / 1024 - 768)
  {
    if cur.Some? {
      assert ProcRefined(m, d, w.procs[cur.value]);
    }
  }

  lemma DropKernelPage(m: Phys, w: World, cur: Option<Pid>, d: nat, v: nat, word: nat)
    requires Stands(m, w, cur, d) && Mapped(w, Kernel, v, 1) && InReach(Kernel, v) && !Present(word)
    requires Shape(DropPage(w, Kernel, v))
    ensures Present(Entry(m, d, PdeIdx(v * PG_SIZE)))
    ensures Stands(Put(m, FrameOf(Entry(m, d, PdeIdx(v * PG_SIZE))), PteIdx(v * PG_SIZE), word), DropPage(w, Kernel, v), cur, d)
  {
    DropPageFields(w, Kernel, v);
    assert PdeIdx(v * PG_SIZE) == v / 1024 && PteIdx(v * PG_SIZE) == v % 1024;
    KernelDirWord(m, w, cur, d, v);
    var w1 := DropPage(w, Kernel, v);
    KernelPteWritten(m, w, w1, v, word);
    if cur.Some? {
      assert ProcShape(w1, w1.procs[cur.value]);
    }
  }

  lemma DropUserPage(m: Phys, w: World, p: Pid, d: nat, v: nat, word: nat)
    requires Stands(m, w, Some(p), d) && Mapped(w, User(p), v, 1) && InReach(User(p), v) && !Present(word)
    requires Shape(DropPage(w, User(p), v))
    ensures Present(Entry(m, d, PdeIdx(v * PG_SIZE)))
    ensures Stands(Put(m, FrameOf(Entry(m, d, PdeIdx(v * PG_SIZE))), PteIdx(v * PG_SIZE), word), DropPage(w, User(p), v), Some(p), d)
  {
    hide Owned, KernelRefined;
    DropPageFields(w, User(p), v);
    assert PdeIdx(v * PG_SIZE) == v / 1024 && PteIdx(v * PG_SIZE) == v % 1024;
    assert v in w.procs[p].space.pages;
    assert ProcShape(w, w.procs[p]) && ProcRefined(m, d, w.procs[p]);
    assert Entry(m, d, v / 1024) == MakeEntry(w.procs[p].tables[v / 1024]);
    UserPteWritten(m, w, DropPage(w, User(p), v), p, v, word);
  }

  // ----- The fields that are not words ---------------------------------------------------------

  ghost function Virts(w: World): map<Pid, seq<bool>> {
    map p | p in w.procs :: w.procs[p].space.virt
  }

  ghost function Dirs(w: World): map<Pid, nat> {
    map p | p in w.procs :: w.procs[p].dir
  }

  /** What one turn of malloc_page's loop does to everything that is not a word. */
  ghost predicate TurnPools(w: World, id: Id, v: nat, w1: World)
    requires Has(w, id) && Palloc(Pool(w, id)).Ok? && (!HasTable(w, id, v) ==> Palloc(w.kf).Ok?)
  {
    && w1.ustart == w.ustart && w1.kern.virt == w.kern.virt && Virts(w1) == Virts(w) && Dirs(w1) == Dirs(w)
    && w1.uf == (if id.User? then w.uf[Palloc(w.uf).value := true] else w.uf)
    && w1.kf == if id.Kernel? || !HasTable(w, id, v) then w.kf[Palloc(w.kf).value := true] else w.kf
  }

  /** The outcome of the turn, from the outcomes of its two pallocs. */
  ghost function TurnFault(pool: Outcome<nat>, mapped: bool, hasTable: bool, table: Outcome<nat>): Option<Fault> {
    if pool.Panic? then Some(pool.fault)
    else if mapped then Some(PteRepeat)
    else if !hasTable && table.Panic? then Some(table.fault)
    else None
  }

  lemma AddPagePools(w: World, id: Id, v: nat)
    requires Has(w, id)
    ensures match TurnFault(Palloc(Pool(w, id)), v in SpaceOf(w, id).pages, HasTable(w, id, v), Palloc(w.kf))
            case Some(e) => AddPage(w, id, v) == Panic(e)
            case None => AddPage(w, id, v).Ok? && TurnPools(w, id, v, AddPage(w, id, v).value)
  {
  }

  // ----- Virtual bitmaps are not words ---------------------------------------------------------

  /** w and w' differ in virtual bitmaps only. */
  ghost predicate SameFrames(w: World, w': World) {
    && w'.kf == w.kf && w'.uf == w.uf && w'.ustart == w.ustart && w'.kern.pages == w.kern.pages
    && w'.procs.Keys == w.procs.Keys
    && forall p <- w.procs :: w'.procs[p] == w.procs[p].(space := w.procs[p].space.(virt := w'.procs[p].space.virt))
  }

  lemma SameFramesOwned(w: World, w': World)
    requires SameFrames(w, w') && Owned(w)
    ensures Owned(w') && (Covered(w) ==> Covered(w'))
  {
    assert forall o, f :: Owns(w', o, f) <==> Owns(w, o, f);
    assert forall f :: KernelBit(w', f) <==> KernelBit(w, f);
    assert forall f :: UserBit(w', f) <==> UserBit(w, f);
  }

  lemma SameFramesShape(w: World, w': World)
    requires SameFrames(w, w') && Shape(w)
    ensures Shape(w') && Dirs(w') == Dirs(w)
  {
    SameFramesOwned(w, w');
    forall p <- w'.procs
      ensures ProcShape(w', w'.procs[p])
    {
      assert ProcShape(w, w.procs[p]);
    }
  }

  lemma SameFramesStands(m: Phys, w: World, w': World, cur: Option<Pid>, d: nat)
    requires SameFrames(w, w') && Covered(w) && Stands(m, w, cur, d)
    ensures Covered(w') && Stands(m, w', cur, d) && Dirs(w') == Dirs(w)
  {
    SameFramesOwned(w, w');
    SameFramesShape(w, w');
    forall p <- w'.procs
      ensures ProcRefined(m, Dir(w', Some(p)), w'.procs[p])
    {
      assert ProcShape(w, w.procs[p]) && ProcRefined(m, Dir(w, Some(p)), w.procs[p]);
    }
  }

  /** w with the virtual bitmap of one space replaced. */
  ghost function WithVirt(w: World, id: Id, virt: seq<bool>): World
    requires Has(w, id)
  {
    WithSpace(w, id, SpaceOf(w, id).(virt := virt))
  }

  lemma WithVirtFields(w: World, id: Id, virt: seq<bool>)
    requires Has(w, id)
    ensures var w' := WithVirt(w, id, virt);
            && SameFrames(w, w')
            && w'.kern.virt == (if id.Kernel? then virt else w.kern.virt)
            && Virts(w') == if id.Kernel? then Virts(w) else Virts(w)[id.pid := virt]
  {
  }

  lemma SetRangeGrows(s: seq<bool>, i: nat, n: nat, value: bool)
    requires i + n <= |s|
    ensures SetRange(s, i, 0, value) == s && (i + n < |s| ==> SetRange(s, i, n + 1, value) == SetRange(s, i, n, value)[i + n := value])
  {
  }

  lemma AddPagesTurn(w: World, id: Id, v: nat, n: nat)
    requires Has(w, id) && n > 0
    ensures match AddPage(w, id, v)
            case Panic(e) => AddPages(w, id, v, n) == Panic(e)
            case Ok(w1) =>
              && Has(w1, id) && SpaceOf(w1, id).pages.Keys == SpaceOf(w, id).pages.Keys + {v}
              && AddPages(w, id, v, n) == AddPages(w1, id, v + 1, n - 1)
  {
  }

  /** The pages malloc_page is about to map are free and within reach. */
  lemma MallocPageReach(w: World, id: Id, n: nat)
    requires Inv(w) && Has(w, id) && n > 0
    ensures var r := GetVirtualAddr(w, id, n);
            r.Ok? && r.value.1.Some? ==>
              && Has(r.value.0, id)
              && forall u :: r.value.1.value <= u < r.value.1.value + n ==> u !in SpaceOf(r.value.0, id).pages && InReach(id, u)
  {
    var virt := SpaceOf(w, id).virt;
    if !Full(virt) && FirstFit(virt, n) != -1 {
      var i := FirstFit(virt, n);
      AllocationBegins(w, id, i, n);
      if id.User? {
        assert ProcInv(w, w.procs[id.pid]);
      }
    }
  }

  lemma ReachOne(w: World, id: Id, v: nat)
    requires Inv(w) && Has(w, id) && BasePage(id) <= v < BasePage(id) + |SpaceOf(w, id).virt|
    ensures InReach(id, v)
  {
    if id.User? {
      assert ProcInv(w, w.procs[id.pid]);
    }
  }

  /** Before a page is dropped: its entry is reachable, holds the page's frame, and the frame is the pool's. */
  lemma DropPageReady(m: Phys, w: World, cur: Option<Pid>, d: nat, id: Id, v: nat)
    requires Stands(m, w, cur, d) && Mapped(w, id, v, 1) && (id.User? ==> cur == Some(id.pid)) && InReach(id, v)
    ensures SelfMap(m, d) && KERNEL_FRAMES + |w.kf| <= w.ustart
    ensures var pde := Entry(m, d, PdeIdx(v * PG_SIZE));
            Present(pde) && Entry(m, FrameOf(pde), PteIdx(v * PG_SIZE)) == MakeEntry(SpaceOf(w, id).pages[v])
    ensures var f := SpaceOf(w, id).pages[v];
            && BitAt(Pool(w, id), PoolStart(w, id), f)
            && Pfree(w, f) == WithPool(w, id, Pool(w, id)[f - PoolStart(w, id) := false])
  {
    assert v in SpaceOf(w, id).pages;
    EntriesOf(m, w, cur, d, id, v);
    PfreePool(w, id, v);
    if id.User? {
      assert ProcShape(w, w.procs[id.pid]);
    }
  }

  /** One turn of mfree_page's loop. */
  lemma DropPageStands(m: Phys, w: World, cur: Option<Pid>, d: nat, id: Id, v: nat, word: nat)
    requires Covered(w) && Stands(m, w, cur, d) && Mapped(w, id, v, 1) && InReach(id, v) && !Present(word)
    requires (id.User? ==> cur == Some(id.pid)) && (id.Kernel? ==> forall p <- w.procs :: w.procs[p].dir != v)
    ensures var w1 := DropPage(w, id, v);
            && Covered(w1)
            && Stands(Put(m, FrameOf(Entry(m, d, PdeIdx(v * PG_SIZE))), PteIdx(v * PG_SIZE), word), w1, cur, d)
            && w1 == WithSpace(Pfree(w, SpaceOf(w, id).pages[v]), id, SpaceOf(w1, id))
            && w1.kern.virt == w.kern.virt && Virts(w1) == Virts(w) && Dirs(w1) == Dirs(w)
  {
    hide Owned, Covered, Refines, Shape, Mapped;
    DropPageShape(w, id, v);
    match id
    case Kernel => DropKernelPage(m, w, cur, d, v, word);
    case User(p) => DropUserPage(m, w, p, d, v, word);
  }

  lemma StandsRuns(m: Phys, w: World, cur: Option<Pid>, d: nat)
    requires Stands(m, w, cur, d)
    ensures Runs(w, cur)
  {
  }

  lemma MfreePageReach(w: World, id: Id, v: nat, n: nat)
    requires Inv(w) && Mapped(w, id, v, n)
    ensures BasePage(id) <= v && v + n <= BasePage(id) + |SpaceOf(w, id).virt|
    ensures forall u :: v <= u < v + n ==> InReach(id, u)
  {
    if id.User? {
      assert ProcInv(w, w.procs[id.pid]);
    }
  }

  lemma DropPagesTurn(w: World, id: Id, v: nat, n: nat)
    requires Mapped(w, id, v, n) && n > 0
    ensures Mapped(w, id, v, 1)
    ensures var w1 := DropPage(w, id, v);
            && Mapped(w1, id, v + 1, n - 1) && DropPages(w, id, v, n) == DropPages(w1, id, v + 1, n - 1) && Dirs(w1) == Dirs(w)
  {
  }

  lemma DirsKept(w: World, w1: World, id: Id, v: nat, n: nat)
    requires Dirs(w1) == Dirs(w) && forall p <- w.procs :: !(v <= w.procs[p].dir < v + n)
    ensures forall p <- w1.procs :: !(v <= w1.procs[p].dir < v + n)
  {
    forall p <- w1.procs
      ensures !(v <= w1.procs[p].dir < v + n)
    {
      assert Dirs(w1)[p] == w1.procs[p].dir && p in Dirs(w);
    }
  }

  // ----- Writing through a mapped kernel page ----------------------------------------------------

  /** A store to a kernel heap page that is no directory reaches the page's frame and disturbs nothing. */
  lemma KernelStore(m: Phys, w: World, cur: Option<Pid>, d: nat, v: nat, m': Phys)
    requires Stands(m, w, cur, d) && v in w.kern.pages && forall p <- w.procs :: w.procs[p].dir != v
    requires forall g: nat, i: nat :: g != w.kern.pages[v] ==> Entry(m', g, i) == Entry(m, g, i)
    ensures Stands(m', w, cur, d)
  {
    DataPage(w, Kernel, v);
    DataWrite(m, m', w, w.kern.pages[v]);
  }

  lemma KernelWalk(m: Phys, w: World, cur: Option<Pid>, d: nat, v: nat, off: nat)
    requires Stands(m, w, cur, d) && v in w.kern.pages && off < PG_SIZE
    ensures v * PG_SIZE + off < WINDOW
    ensures Walk(m, d, v * PG_SIZE + off) == Some(Loc(w.kern.pages[v], off))
    ensures SelfMap(m, d) && Present(Entry(m, d, PdeIdx(v * PG_SIZE)))
    ensures Entry(m, FrameOf(Entry(m, d, PdeIdx(v * PG_SIZE))), PteIdx(v * PG_SIZE)) == MakeEntry(w.kern.pages[v])
  {
    hide Shape, Refines, Walk, PdeIdx, PteIdx, Present, FrameOf, MakeEntry, Entry, SelfMap;
    KernelPageRange(m, w, cur, d, v);
    PageOffset(v, off);
    TranslateKernel(m, w, cur, v * PG_SIZE + off);
    EntriesOf(m, w, cur, d, Kernel, v);
  }

  lemma KernelPageRange(m: Phys, w: World, cur: Option<Pid>, d: nat, v: nat)
    requires Stands(m, w, cur, d) && v in w.kern.pages
    ensures K_HEAP <= v < K_TOP
  {
  }

  lemma PageOffset(v: nat, off: nat)
    requires off < PG_SIZE
    ensures (v * PG_SIZE + off) / PG_SIZE == v && (v * PG_SIZE + off) % PG_SIZE == off
  {
  }

  lemma KernelHalfEntry(m: Phys, w: World, cur: Option<Pid>, d: nat, i: nat)
    requires Stands(m, w, cur, d) && 768 <= i < 1023
    ensures SelfMap(m, d) && Entry(m, d, i) == KernelDirEntry(i)
  {
    CurrentSelfMap(m, w, cur);
    if cur.Some? {
      assert ProcRefined(m, d, w.procs[cur.value]);
    }
  }

  lemma NewProcFields(w: World, pid: Pid, p: Proc)
    ensures var w' := w.(procs := w.procs[pid := p]);
            Dirs(w') == Dirs(w)[pid := p.dir] && Virts(w') == Virts(w)[pid := p.space.virt]
    ensures pid in Virts(w) <==> pid in w.procs
  {
  }

  lemma NewProcessStands(m: Phys, w: World, w': World, cur: Option<Pid>, d: nat, pid: Pid, p: Proc)
    requires Stands(m, w, cur, d) && Inv(w') && pid !in w.procs && p.dir in w.kern.pages && DirReady(m, w.kern.pages[p.dir])
    requires p.tables == map[] && w' == w.(procs := w.procs[pid := p])
    ensures Covered(w') && Stands(m, w', cur, d)
  {
    hide Owned, Covered, SpaceInv, Refines, DirReady, ProcInv, OwnDirectories, ProcShape;
    InvShape(w');
    NewProcess(m, w, w', pid, p);
  }

  /** Switching directories changes nothing in memory. */
  lemma SwitchStands(m: Phys, w: World, cur: Option<Pid>, d: nat, next: Option<Pid>)
    requires Stands(m, w, cur, d) && Runs(w, next)
    ensures next.Some? ==> w.procs[next.value].dir in w.kern.pages
    ensures Stands(m, w, next, Dir(w, next))
  {
    if next.Some? {
      assert ProcShape(w, w.procs[next.value]);
    }
  }

  /** The pages of a kernel allocation are mapped, and none is a page directory. */
  lemma KernelRangeFresh(w: World, n: nat)
    requires Inv(w)
    ensures match MallocPage(w, Kernel, n)
            case Ok((w1, Some(v))) =>
              && (forall u :: v <= u < v + n ==> u in w1.kern.pages)
              && (forall p <- w1.procs :: !(v <= w1.procs[p].dir < v + n))
            case _ => true
  {
    hide Inv, Placed;
    MallocPageCorrect(w, Kernel, n);
    var r := MallocPage(w, Kernel, n);
    if r.Ok? && r.value.1.Some? {
      AllocatedMapped(w, r.value.0, Kernel, r.value.1.value, n);
    }
  }

  lemma BootKernel(m: Phys, w: World)
    requires LoaderLeft(m) && w.kern.pages == map[]
    ensures KernelRefined(m, w)
  {
    forall v | KERNEL_HALF <= v < K_HEAP
      ensures KernelPte(m, v) == MakeEntry(v - KERNEL_HALF)
    {
      assert v / 1024 == 768 && v % 1024 == v - KERNEL_HALF;
    }
  }

  /** The loader's words stand for a world with nothing mapped and no process. */
  lemma BootStands(m: Phys, w: World)
    requires LoaderLeft(m) && Inv(w) && w.kern.pages == map[] && w.procs == map[]
    ensures Covered(w) && Stands(m, w, None, KDIR) && Virts(w) == map[] && Dirs(w) == map[]
  {
    hide Owned, Covered, LoaderLeft, KernelRefined;
    InvShape(w);
    BootKernel(m, w);
  }
}
