/**
  kernel/memory.c, allocation: malloc_page is all-or-nothing when it returns, takes
  exactly fresh frames, keeps the invariant, and never finds a page table entry present.
 */
module PageAllocation {
  import opened Outcomes
  import opened Bitmaps
  import opened AddressSpaces

  // ----- Adding one page --------------------------------------------------------------

  /** w' has what w has, plus the owner o of a frame f that was free. */
  lemma AddOwner(w: World, w': World, o: Owner, f: nat)
    requires FramesInv(w) && w'.ustart == w.ustart && |w'.kf| == |w.kf| && |w'.uf| == |w.uf|
    requires !KernelBit(w, f) && !UserBit(w, f)
    requires if o.UserPage? then UserBit(w', f) else KernelBit(w', f)
    requires forall g :: KernelBit(w', g) <==> KernelBit(w, g) || (g == f && !o.UserPage?)
    requires forall g :: UserBit(w', g) <==> UserBit(w, g) || (g == f && o.UserPage?)
    requires forall q, g :: Owns(w', q, g) <==> Owns(w, q, g) || (q == o && g == f)
    ensures FramesInv(w')
  {
    forall g | KernelBit(w', g) || UserBit(w', g)
      ensures exists q :: Owns(w', q, g)
    {
      if g == f {
        assert Owns(w', o, f);
      } else {
        var q :| Owns(w, q, g);
        assert Owns(w', q, g);
      }
    }
  }

  /** w' has what w has, without the owner o of frame f. */
  lemma DropOwner(w: World, w': World, o: Owner, f: nat)
    requires FramesInv(w) && w'.ustart == w.ustart && |w'.kf| == |w.kf| && |w'.uf| == |w.uf|
    requires Owns(w, o, f)
    requires forall g :: KernelBit(w', g) <==> KernelBit(w, g) && g != f
    requires forall g :: UserBit(w', g) <==> UserBit(w, g) && g != f
    requires forall q, g :: Owns(w', q, g) <==> Owns(w, q, g) && q != o
    ensures FramesInv(w')
  {
    forall g | KernelBit(w', g) || UserBit(w', g)
      ensures exists q :: Owns(w', q, g)
    {
      var q :| Owns(w, q, g);
      assert Owns(w', q, g);
    }
  }

  function PageOwner(id: Id, v: nat): Owner {
    if id.Kernel? then KernelPage(v) else UserPage(id.pid, v)
  }

  // ----- What an allocation changes ---------------------------------------------------

  ghost predicate TakenBy(pages: map<nat, nat>, v: nat, n: nat, f: nat) {
    exists u :: v <= u < v + n && u in pages && pages[u] == f
  }

  ghost predicate NewTable(before: map<nat, nat>, after: map<nat, nat>, f: nat) {
    exists pd :: pd in after && pd !in before && after[pd] == f
  }

  ghost predicate Extends(before: map<nat, nat>, after: map<nat, nat>) {
    forall k <- before :: k in after && after[k] == before[k]
  }

  /** The n pages from v are new; their frames were free and are exactly the newly set bits of the pool. */
  ghost predicate PagesGrow(bits: seq<bool>, bits': seq<bool>, start: nat, pages: map<nat, nat>, pages': map<nat, nat>,
                            v: nat, n: nat) {
    && |bits'| == |bits|
    && Extends(pages, pages')
    && (forall u :: u in pages' <==> u in pages || v <= u < v + n)
    && (forall u :: v <= u < v + n ==> start <= pages'[u] < start + |bits| && !BitAt(bits, start, pages'[u]))
    && (forall f :: BitAt(bits', start, f) <==> BitAt(bits, start, f) || TakenBy(pages', v, n, f))
  }

  ghost predicate SpaceGrows(w: World, w': World, id: Id, v: nat, n: nat)
    requires Has(w, id) && Has(w', id)
  {
    && w'.ustart == w.ustart
    && PagesGrow(Pool(w, id), Pool(w', id), PoolStart(w, id), SpaceOf(w, id).pages, SpaceOf(w', id).pages, v, n)
  }

  /** The page tables of a process after it got the n pages from v; each new one took a kernel frame. */
  ghost predicate TablesGrow(kf: seq<bool>, kf': seq<bool>, tables: map<nat, nat>, tables': map<nat, nat>, v: nat, n: nat) {
    && |kf'| == |kf|
    && Extends(tables, tables')
    && (forall pd :: pd in tables' <==> pd in tables || exists u :: v <= u < v + n && u / 1024 == pd)
    && (forall f :: BitAt(kf', KERNEL_FRAMES, f) <==> BitAt(kf, KERNEL_FRAMES, f) || NewTable(tables, tables', f))
  }

  /** Everything else is as it was; a user allocation may also take kernel frames, exactly for its new page tables. */
  ghost predicate RestKept(w: World, w': World, id: Id, v: nat, n: nat)
    requires Has(w, id) && Has(w', id)
  {
    match id
    case Kernel => w' == w.(kf := w'.kf, kern := w'.kern)
    case User(pid) =>
      var p, p' := w.procs[pid], w'.procs[pid];
      && w' == w.(kf := w'.kf, uf := w'.uf, procs := w.procs[pid := p'])
      && p'.dir == p.dir && TablesGrow(w.kf, w'.kf, p.tables, p'.tables, v, n)
  }

  ghost predicate Grows(w: World, w': World, id: Id, v: nat, n: nat) {
    Has(w, id) && Has(w', id) && SpaceGrows(w, w', id, v, n) && RestKept(w, w', id, v, n)
  }

  lemma AddTableFrames(w: World, pid: Pid, pd: nat, t: nat)
    requires FramesInv(w) && pid in w.procs && pd !in w.procs[pid].tables && t < |w.kf| && !w.kf[t]
    ensures FramesInv(WithTable(w, pid, pd, t))
  {
    AddOwner(w, WithTable(w, pid, pd, t), PageTable(pid, pd), KERNEL_FRAMES + t);
  }

  /** The bit of a frame just taken for data. */
  function WithFrame(w: World, id: Id, i: nat): World
    requires i < |Pool(w, id)|
  {
    WithPool(w, id, Pool(w, id)[i := true])
  }

  lemma OwnsWithPage(w: World, id: Id, v: nat, f: nat, q: Owner, g: nat)
    requires Has(w, id) && v !in SpaceOf(w, id).pages
    ensures Owns(WithPage(w, id, v, f), q, g) <==> Owns(w, q, g) || (q == PageOwner(id, v) && g == f)
  {
  }

  lemma BitsWithFrame(w: World, id: Id, i: nat, f: nat)
    requires KERNEL_FRAMES + |w.kf| <= w.ustart && i < |Pool(w, id)| && f == PoolStart(w, id) + i
    ensures forall g :: KernelBit(WithFrame(w, id, i), g) <==> KernelBit(w, g) || (g == f && id.Kernel?)
    ensures forall g :: UserBit(WithFrame(w, id, i), g) <==> UserBit(w, g) || (g == f && id.User?)
  {
  }

  lemma AddDataFrames(w: World, id: Id, v: nat, i: nat)
    requires FramesInv(w) && Has(w, id) && v !in SpaceOf(w, id).pages && i < |Pool(w, id)| && !Pool(w, id)[i]
    ensures FramesInv(WithPage(WithFrame(w, id, i), id, v, PoolStart(w, id) + i))
  {
    var f := PoolStart(w, id) + i;
    var w0 := WithFrame(w, id, i);
    var w' := WithPage(w0, id, v, f);
    BitsWithFrame(w, id, i, f);
    forall q, g
      ensures Owns(w', q, g) <==> Owns(w, q, g) || (q == PageOwner(id, v) && g == f)
    {
      OwnsWithPage(w0, id, v, f, q, g);
    }
    forall g
      ensures KernelBit(w', g) == KernelBit(w0, g) && UserBit(w', g) == UserBit(w0, g)
    {
    }
    AddOwner(w, w', PageOwner(id, v), f);
  }

  lemma OnePageGrows(bits: seq<bool>, start: nat, pages: map<nat, nat>, v: nat, i: nat)
    requires v !in pages && i < |bits| && !bits[i]
    ensures PagesGrow(bits, bits[i := true], start, pages, pages[v := start + i], v, 1)
  {
    var pages' := pages[v := start + i];
    forall f
      ensures BitAt(bits[i := true], start, f) <==> BitAt(bits, start, f) || TakenBy(pages', v, 1, f)
    {
      if f == start + i {
        assert v in pages' && pages'[v] == f;
      }
    }
  }

  lemma AddData(w: World, id: Id, v: nat, i: nat)
    requires FramesInv(w) && Has(w, id) && v !in SpaceOf(w, id).pages && i < |Pool(w, id)| && !Pool(w, id)[i]
    ensures var w' := WithPage(WithFrame(w, id, i), id, v, PoolStart(w, id) + i);
            FramesInv(w') && SpaceGrows(w, w', id, v, 1)
  {
    AddDataFrames(w, id, v, i);
    OnePageGrows(Pool(w, id), PoolStart(w, id), SpaceOf(w, id).pages, v, i);
  }

  lemma RestKeptWithPage(w: World, id: Id, v: nat, i: nat)
    requires Has(w, id) && HasTable(w, id, v) && i < |Pool(w, id)|
    ensures RestKept(w, WithPage(WithFrame(w, id, i), id, v, PoolStart(w, id) + i), id, v, 1)
  {
    if id.User? {
      var w' := WithPage(WithFrame(w, id, i), id, v, PoolStart(w, id) + i);
      assert !exists f :: NewTable(w.procs[id.pid].tables, w'.procs[id.pid].tables, f);
    }
  }

  /** The page and its new page table can be added in either order. */
  lemma TableThenPage(w: World, id: Id, v: nat, f: nat, t: nat)
    requires id.User? && Has(w, id) && t < |w.kf|
    ensures WithPage(WithTable(w, id.pid, v / 1024, t), id, v, f) == WithTable(WithPage(w, id, v, f), id.pid, v / 1024, t)
  {
  }

  lemma OneTableGrows(kf: seq<bool>, tables: map<nat, nat>, v: nat, t: nat)
    requires v / 1024 !in tables && t < |kf|
    ensures TablesGrow(kf, kf[t := true], tables, tables[v / 1024 := KERNEL_FRAMES + t], v, 1)
  {
    var pd, after := v / 1024, tables[v / 1024 := KERNEL_FRAMES + t];
    assert v <= v < v + 1;
    forall f
      ensures BitAt(kf[t := true], KERNEL_FRAMES, f) <==> BitAt(kf, KERNEL_FRAMES, f) || NewTable(tables, after, f)
    {
      if f == KERNEL_FRAMES + t {
        assert pd in after && pd !in tables && after[pd] == f;
      }
    }
  }

  lemma RestKeptWithTable(w: World, w1: World, id: Id, v: nat, t: nat)
    requires id.User? && Has(w, id) && !HasTable(w, id, v) && t < |w1.kf|
    requires Has(w1, id) && w1.kf == w.kf
    requires w1 == w.(uf := w1.uf, procs := w.procs[id.pid := w.procs[id.pid].(space := w1.procs[id.pid].space)])
    ensures RestKept(w, WithTable(w1, id.pid, v / 1024, t), id, v, 1)
  {
    var w2 := WithTable(w1, id.pid, v / 1024, t);
    var p, p2 := w.procs[id.pid], w2.procs[id.pid];
    OneTableGrows(w.kf, p.tables, v, t);
    assert w2.procs == w.procs[id.pid := p2];
  }

  lemma SpaceGrowsSame(w: World, w1: World, w2: World, id: Id, v: nat, n: nat)
    requires Has(w, id) && Has(w1, id) && Has(w2, id) && SpaceGrows(w, w1, id, v, n)
    requires SpaceOf(w2, id) == SpaceOf(w1, id) && Pool(w2, id) == Pool(w1, id)
    requires w2.ustart == w1.ustart
    ensures SpaceGrows(w, w2, id, v, n)
  {
  }

  lemma AddWithTable(w: World, id: Id, v: nat, i: nat, t: nat)
    requires FramesInv(w) && Has(w, id) && v !in SpaceOf(w, id).pages && i < |Pool(w, id)| && !Pool(w, id)[i]
    requires !HasTable(w, id, v) && t < |w.kf| && !w.kf[t]
    ensures var w' := WithPage(WithTable(WithFrame(w, id, i), id.pid, v / 1024, t), id, v, PoolStart(w, id) + i);
            FramesInv(w') && Grows(w, w', id, v, 1)
  {
    var w1 := WithPage(WithFrame(w, id, i), id, v, PoolStart(w, id) + i);
    var w2 := WithTable(w1, id.pid, v / 1024, t);
    TableThenPage(WithFrame(w, id, i), id, v, PoolStart(w, id) + i, t);
    assert FramesInv(w2) && SpaceGrows(w, w2, id, v, 1) by {
      AddData(w, id, v, i);
      AddTableFrames(w1, id.pid, v / 1024, t);
      SpaceGrowsSame(w, w1, w2, id, v, 1);
    }
    assert RestKept(w, w2, id, v, 1) by {
      RestKeptWithTable(w, w1, id, v, t);
    }
  }

  /** One page: the only way to stop is a full bitmap, and the frame invariant survives. */
  lemma AddPageStep(w: World, id: Id, v: nat)
    requires FramesInv(w) && Has(w, id) && v !in SpaceOf(w, id).pages
    ensures AddPage(w, id, v).Panic? ==> AddPage(w, id, v).fault == BitmapFull
    ensures AddPage(w, id, v).Ok? ==> FramesInv(AddPage(w, id, v).value) && Grows(w, AddPage(w, id, v).value, id, v, 1)
  {
    var pool := Palloc(Pool(w, id));
    if pool.Ok? {
      var i := pool.value;
      if HasTable(w, id, v) {
        AddData(w, id, v, i);
        RestKeptWithPage(w, id, v, i);
      } else {
        var table := Palloc(w.kf);
        if table.Ok? {
          AddWithTable(w, id, v, i, table.value);
        }
      }
    }
  }

  // ----- Several pages ------------------------------------------------------------------

  lemma PagesGrowTrans(bits: seq<bool>, bits1: seq<bool>, bits2: seq<bool>, start: nat,
                       pages: map<nat, nat>, pages1: map<nat, nat>, pages2: map<nat, nat>, v: nat, n: nat)
    requires PagesGrow(bits, bits1, start, pages, pages1, v, 1)
    requires PagesGrow(bits1, bits2, start, pages1, pages2, v + 1, n)
    ensures PagesGrow(bits, bits2, start, pages, pages2, v, n + 1)
  {
    assert v in pages1 && pages2[v] == pages1[v];
    assert BitAt(bits1, start, pages1[v]) by {
      assert TakenBy(pages1, v, 1, pages1[v]);
    }
    forall f
      ensures TakenBy(pages2, v, n + 1, f) <==> TakenBy(pages1, v, 1, f) || TakenBy(pages2, v + 1, n, f)
    {
      if TakenBy(pages2, v, n + 1, f) {
        var u :| v <= u < v + n + 1 && u in pages2 && pages2[u] == f;
        assert u == v ==> TakenBy(pages1, v, 1, f);
      }
      if TakenBy(pages1, v, 1, f) {
        assert v in pages2 && pages2[v] == f;
      }
    }
  }

  lemma TablesGrowTrans(kf: seq<bool>, kf1: seq<bool>, kf2: seq<bool>,
                        tables: map<nat, nat>, tables1: map<nat, nat>, tables2: map<nat, nat>, v: nat, n: nat)
    requires TablesGrow(kf, kf1, tables, tables1, v, 1)
    requires TablesGrow(kf1, kf2, tables1, tables2, v + 1, n)
    ensures TablesGrow(kf, kf2, tables, tables2, v, n + 1)
  {
    forall f
      ensures NewTable(tables, tables2, f) <==> NewTable(tables, tables1, f) || NewTable(tables1, tables2, f)
    {
      if NewTable(tables, tables2, f) {
        var pd :| pd in tables2 && pd !in tables && tables2[pd] == f;
        assert if pd in tables1 then NewTable(tables, tables1, f) else NewTable(tables1, tables2, f);
      }
      if NewTable(tables, tables1, f) {
        var pd :| pd in tables1 && pd !in tables && tables1[pd] == f;
        assert pd in tables2 && tables2[pd] == f;
      }
      if NewTable(tables1, tables2, f) {
        var pd :| pd in tables2 && pd !in tables1 && tables2[pd] == f;
        assert pd !in tables;
      }
    }
    forall pd
      ensures pd in tables2 <==> pd in tables || exists u :: v <= u < v + n + 1 && u / 1024 == pd
    {
      if pd in tables1 && pd !in tables {
        var u :| v <= u < v + 1 && u / 1024 == pd;
        assert v <= u < v + n + 1;
      }
    }
  }

  lemma GrowsTrans(w: World, w1: World, w2: World, id: Id, v: nat, n: nat)
    requires Grows(w, w1, id, v, 1) && Grows(w1, w2, id, v + 1, n)
    ensures Grows(w, w2, id, v, n + 1)
  {
    PagesGrowTrans(Pool(w, id), Pool(w1, id), Pool(w2, id), PoolStart(w, id),
                   SpaceOf(w, id).pages, SpaceOf(w1, id).pages, SpaceOf(w2, id).pages, v, n);
    if id.User? {
      TablesGrowTrans(w.kf, w1.kf, w2.kf, w.procs[id.pid].tables, w1.procs[id.pid].tables, w2.procs[id.pid].tables, v, n);
    }
  }

  lemma GrowsNone(w: World, id: Id, v: nat)
    requires Has(w, id)
    ensures Grows(w, w, id, v, 0)
  {
    if id.User? {
      var tables := w.procs[id.pid].tables;
      forall f
        ensures !NewTable(tables, tables, f)
      {
      }
    }
  }

  lemma AddPageVirt(w: World, id: Id, v: nat)
    requires Has(w, id)
    ensures var r := AddPage(w, id, v); r.Ok? ==> Has(r.value, id) && SpaceOf(r.value, id).virt == SpaceOf(w, id).virt
  {
  }

  lemma StillUnmapped(w: World, w1: World, id: Id, v: nat, n: nat)
    requires Grows(w, w1, id, v, 1) && forall u :: v <= u < v + n ==> u !in SpaceOf(w, id).pages
    ensures forall u :: v + 1 <= u < v + n ==> u !in SpaceOf(w1, id).pages
  {
  }

  ghost predicate AddsPages(w: World, r: Outcome<World>, id: Id, v: nat, n: nat)
    requires Has(w, id)
  {
    match r
    case Panic(e) => e == BitmapFull
    case Ok(w') => FramesInv(w') && Grows(w, w', id, v, n) && SpaceOf(w', id).virt == SpaceOf(w, id).virt
  }

  lemma AddsOne(w: World, id: Id, v: nat)
    requires FramesInv(w) && Has(w, id) && v !in SpaceOf(w, id).pages
    ensures AddsPages(w, AddPage(w, id, v), id, v, 1)
  {
    AddPageStep(w, id, v);
    AddPageVirt(w, id, v);
  }

  lemma AddsTrans(w: World, w1: World, r: Outcome<World>, id: Id, v: nat, n: nat)
    requires Has(w, id) && AddsPages(w, Ok(w1), id, v, 1) && AddsPages(w1, r, id, v + 1, n)
    ensures AddsPages(w, r, id, v, n + 1)
  {
    if r.Ok? {
      GrowsTrans(w, w1, r.value, id, v, n);
    }
  }

  /** The loop of malloc_page. */
  lemma {:induction false} AddPagesGrows(w: World, id: Id, v: nat, n: nat)
    requires FramesInv(w) && Has(w, id) && forall u :: v <= u < v + n ==> u !in SpaceOf(w, id).pages
    ensures AddsPages(w, AddPages(w, id, v, n), id, v, n)
    decreases n
  {
    hide Owned, Covered, SpaceGrows, RestKept, AddPage;
    if n == 0 {
      GrowsNone(w, id, v);
    } else {
      AddsOne(w, id, v);
      var r := AddPage(w, id, v);
      if r.Ok? {
        StillUnmapped(w, r.value, id, v, n);
        AddPagesGrows(r.value, id, v + 1, n - 1);
        AddsTrans(w, r.value, AddPages(r.value, id, v + 1, n - 1), id, v, n - 1);
      }
    }
  }

  // ----- malloc_page --------------------------------------------------------------------

  /** The n pages from v were free; they are taken and mapped to fresh frames, and nothing else changes. */
  ghost predicate Placed(w: World, w': World, id: Id, v: nat, n: nat) {
    && Has(w, id) && Has(w', id) && BasePage(id) <= v
    && ClearRun(SpaceOf(w, id).virt, v - BasePage(id), n)
    && SpaceOf(w', id).virt == SetRange(SpaceOf(w, id).virt, v - BasePage(id), n, true)
    && Grows(w, w', id, v, n)
  }

  /** ... and v is the first fit. */
  ghost predicate Allocated(w: World, w': World, id: Id, v: nat, n: nat) {
    Placed(w, w', id, v, n) && IsFirstFit(SpaceOf(w, id).virt, n, v - BasePage(id))
  }

  lemma GrownSpaceInv(s: Space, s': Space, base: nat, i: nat, n: nat)
    requires SpaceInv(s, base) && i + n <= |s.virt| && s'.virt == SetRange(s.virt, i, n, true)
    requires forall u :: u in s'.pages <==> u in s.pages || base + i <= u < base + i + n
    ensures SpaceInv(s', base)
  {
  }

  lemma GrownInv(w: World, w': World, id: Id, v: nat, n: nat)
    requires Inv(w) && FramesInv(w') && Placed(w, w', id, v, n)
    ensures Inv(w')
  {
    GrownSpaceInv(SpaceOf(w, id), SpaceOf(w', id), BasePage(id), v - BasePage(id), n);
    forall p <- w'.procs
      ensures ProcInv(w', w'.procs[p])
    {
      assert ProcInv(w, w.procs[p]);
      if id == User(p) {
        var s, s' := w.procs[p].space, w'.procs[p].space;
        forall u <- s'.pages
          ensures u / 1024 in w'.procs[p].tables
        {
          assert u in s.pages ==> u / 1024 in w.procs[p].tables;
        }
      }
    }
  }

  lemma AllocationBegins(w: World, id: Id, i: nat, n: nat)
    requires Inv(w) && Has(w, id) && ClearRun(SpaceOf(w, id).virt, i, n)
    ensures FramesInv(Reserve(w, id, i, n))
    ensures forall u :: BasePage(id) + i <= u < BasePage(id) + i + n ==> u !in SpaceOf(Reserve(w, id, i, n), id).pages
  {
    var w0 := Reserve(w, id, i, n);
    assert forall o, f :: Owns(w0, o, f) <==> Owns(w, o, f);
    assert forall f :: KernelBit(w0, f) <==> KernelBit(w, f);
    assert forall f :: UserBit(w0, f) <==> UserBit(w, f);
    assert SpaceInv(SpaceOf(w, id), BasePage(id));
    forall u | BasePage(id) + i <= u < BasePage(id) + i + n
      ensures u !in SpaceOf(w, id).pages
    {
      assert !SpaceOf(w, id).virt[u - BasePage(id)];
    }
  }

  lemma AllocationEnds(w: World, w': World, id: Id, i: nat, n: nat)
    requires Has(w, id) && ClearRun(SpaceOf(w, id).virt, i, n) && Grows(Reserve(w, id, i, n), w', id, BasePage(id) + i, n)
    requires SpaceOf(w', id).virt == SpaceOf(Reserve(w, id, i, n), id).virt
    ensures Placed(w, w', id, BasePage(id) + i, n)
  {
    var w0 := Reserve(w, id, i, n);
    if id.User? {
      assert w0.procs[id.pid := w'.procs[id.pid]] == w.procs[id.pid := w'.procs[id.pid]];
    }
  }

  lemma AllocationCorrect(w: World, id: Id, i: nat, n: nat)
    requires Inv(w) && Has(w, id) && ClearRun(SpaceOf(w, id).virt, i, n)
    ensures match AddPages(Reserve(w, id, i, n), id, BasePage(id) + i, n)
            case Panic(e) => e == BitmapFull
            case Ok(w') => Inv(w') && Placed(w, w', id, BasePage(id) + i, n)
  {
    hide Owned, Covered, SpaceInv, ProcInv, SpaceGrows, RestKept, ClearRun, AddPage;
    var v, w0 := BasePage(id) + i, Reserve(w, id, i, n);
    AllocationBegins(w, id, i, n);
    AddPagesGrows(w0, id, v, n);
    var r := AddPages(w0, id, v, n);
    if r.Ok? {
      AllocationEnds(w, r.value, id, i, n);
      GrownInv(w, r.value, id, v, n);
    }
  }

  /** malloc_page: all or nothing, first fit, fresh frames, and never a page table entry already present. */
  lemma MallocPageCorrect(w: World, id: Id, n: nat)
    requires Inv(w) && Has(w, id)
    ensures match MallocPage(w, id, n)
            case Panic(e) => (e == BadPageCount && !(0 < n < MAX_PAGES)) || e == BitmapFull || (e == StackOverlap && id.User?)
            case Ok((w', None)) => w' == w && IsFirstFit(SpaceOf(w, id).virt, n, -1)
            case Ok((w', Some(v))) => Inv(w') && Allocated(w, w', id, v, n)
  {
    hide Owned, Covered, SpaceInv, ProcInv, SpaceGrows, RestKept, AddPages;
    var virt := SpaceOf(w, id).virt;
    if 0 < n < MAX_PAGES && !Full(virt) && FirstFit(virt, n) != -1 {
      AllocationCorrect(w, id, FirstFit(virt, n), n);
    }
  }

  // ----- When malloc_page stops the machine ---------------------------------------------

  function FreeCount(bits: seq<bool>): nat {
    if bits == [] then 0 else FreeCount(bits[..|bits| - 1]) + if bits[|bits| - 1] then 0 else 1
  }

  lemma {:induction false} FreeCountTake(bits: seq<bool>, i: nat)
    requires i < |bits| && !bits[i]
    ensures FreeCount(bits) == FreeCount(bits[i := true]) + 1
  {
    var last := |bits| - 1;
    if i == last {
      assert bits[i := true][..last] == bits[..last];
    } else {
      FreeCountTake(bits[..last], i);
      assert bits[i := true][..last] == bits[..last][i := true];
    }
  }

  lemma {:induction false} FreeCountFull(bits: seq<bool>)
    ensures FreeCount(bits) == 0 <==> Full(bits)
  {
    if bits != [] {
      var last := |bits| - 1;
      FreeCountFull(bits[..last]);
      assert Full(bits) <==> Full(bits[..last]) && bits[last] by {
        assert forall i :: 0 <= i < last ==> bits[..last][i] == bits[i];
      }
    }
  }

  /** The page tables the n pages from v still need, when those in have are there. */
  function MissingTables(have: set<nat>, v: nat, n: nat): nat
    decreases n
  {
    if n == 0 then 0
    else (if v / 1024 in have then 0 else 1) + MissingTables(have + {v / 1024}, v + 1, n - 1)
  }

  /** Frames for the pages in their pool, and kernel frames for the missing page tables. */
  predicate Enough(w: World, id: Id, v: nat, n: nat)
    requires Has(w, id)
  {
    && n <= FreeCount(Pool(w, id))
    && (id.User? ==> MissingTables(w.procs[id.pid].tables.Keys, v, n) <= FreeCount(w.kf))
  }

  lemma MissingOne(have: set<nat>, v: nat)
    ensures MissingTables(have, v, 1) == if v / 1024 in have then 0 else 1
  {
    assert MissingTables(have + {v / 1024}, v + 1, 0) == 0;
  }

  lemma AddPageExact(w: World, id: Id, v: nat)
    requires Has(w, id) && v !in SpaceOf(w, id).pages
    ensures AddPage(w, id, v).Ok? <==> Enough(w, id, v, 1)
    ensures AddPage(w, id, v).Ok? ==>
              var w1 := AddPage(w, id, v).value;
              && Has(w1, id) && SpaceOf(w1, id).pages.Keys == SpaceOf(w, id).pages.Keys + {v}
              && FreeCount(Pool(w1, id)) == FreeCount(Pool(w, id)) - 1
              && (id.User? ==> && w1.procs[id.pid].tables.Keys == w.procs[id.pid].tables.Keys + {v / 1024}
                               && FreeCount(w1.kf) == FreeCount(w.kf) - if HasTable(w, id, v) then 0 else 1)
  {
    hide FreeCount, MissingTables, Full;
    FreeCountFull(Pool(w, id));
    FreeCountFull(w.kf);
    if id.User? {
      MissingOne(w.procs[id.pid].tables.Keys, v);
    }
    var pool := Palloc(Pool(w, id));
    if pool.Ok? {
      FreeCountTake(Pool(w, id), pool.value);
      if !HasTable(w, id, v) && Palloc(w.kf).Ok? {
        FreeCountTake(w.kf, Palloc(w.kf).value);
      }
    }
  }

  lemma {:induction false} AddPagesExact(w: World, id: Id, v: nat, n: nat)
    requires Has(w, id) && forall u :: v <= u < v + n ==> u !in SpaceOf(w, id).pages
    ensures AddPages(w, id, v, n).Ok? <==> Enough(w, id, v, n)
    decreases n
  {
    hide AddPage, Palloc, FreeCount;
    if n > 0 {
      AddPageExact(w, id, v);
      var r := AddPage(w, id, v);
      if r.Ok? {
        AddPagesExact(r.value, id, v + 1, n - 1);
      }
    }
  }

  /** A bad count, a full virtual bitmap, the stack page, or too few free frames: malloc_page stops exactly then. */
  predicate Stops(w: World, id: Id, n: nat)
    requires Has(w, id)
  {
    var virt := SpaceOf(w, id).virt;
    var i := FirstFit(virt, n);
    || !(0 < n < MAX_PAGES)
    || Full(virt)
    || (i != -1 && ((id.User? && USER_STACK <= BasePage(id) + i) || !Enough(w, id, BasePage(id) + i, n)))
  }

  lemma MallocPagePanics(w: World, id: Id, n: nat)
    requires Inv(w) && Has(w, id)
    ensures MallocPage(w, id, n).Panic? <==> Stops(w, id, n)
  {
    hide Owned, Covered, SpaceInv, ProcInv, AddPages;
    var virt := SpaceOf(w, id).virt;
    var i := FirstFit(virt, n);
    if 0 < n < MAX_PAGES && !Full(virt) && i != -1 {
      AllocationBegins(w, id, i, n);
      AddPagesExact(Reserve(w, id, i, n), id, BasePage(id) + i, n);
    }
  }
}
