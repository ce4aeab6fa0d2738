/**
  kernel/memory.c, release: mfree_page gives back exactly the frames and the virtual
  pages of its range, and undoes malloc_page.
 */
module PageRelease {
  import opened Outcomes
  import opened Bitmaps
  import opened AddressSpaces
  import opened PageAllocation

  // ----- What a release changes --------------------------------------------------------

  /** The n pages from v are gone, and exactly their frames are free again. */
  ghost predicate PagesShrink(bits: seq<bool>, bits': seq<bool>, start: nat, pages: map<nat, nat>, pages': map<nat, nat>,
                              v: nat, n: nat) {
    && |bits'| == |bits|
    && (forall u :: u in pages' <==> u in pages && !(v <= u < v + n))
    && Extends(pages', pages)
    && (forall f :: BitAt(bits', start, f) <==> BitAt(bits, start, f) && !TakenBy(pages, v, n, f))
  }

  ghost predicate Shrinks(w: World, w': World, id: Id, v: nat, n: nat) {
    && Has(w, id) && Has(w', id)
    && PagesShrink(Pool(w, id), Pool(w', id), PoolStart(w, id), SpaceOf(w, id).pages, SpaceOf(w', id).pages, v, n)
    && w' == WithSpace(WithPool(w, id, Pool(w', id)), id, SpaceOf(w', id))
    && SpaceOf(w', id).virt == SpaceOf(w, id).virt
  }

  /** pfree chooses the pool that palloc took the frame from, and the same bit. */
  lemma PfreePool(w: World, id: Id, v: nat)
    requires Owned(w) && Has(w, id) && v in SpaceOf(w, id).pages
    ensures var f := SpaceOf(w, id).pages[v];
            && BitAt(Pool(w, id), PoolStart(w, id), f) && InPools(w, f)
            && Pfree(w, f) == WithPool(w, id, Pool(w, id)[f - PoolStart(w, id) := false])
  {
    assert Owns(w, PageOwner(id, v), SpaceOf(w, id).pages[v]);
  }

  lemma MappedRange(w: World, id: Id, v: nat, n: nat)
    requires Owned(w) && Has(w, id) && SpaceInv(SpaceOf(w, id), BasePage(id))
    requires n > 0 && forall u :: v <= u < v + n ==> u in SpaceOf(w, id).pages
    ensures Mapped(w, id, v, n)
  {
    assert v in SpaceOf(w, id).pages && v + n - 1 in SpaceOf(w, id).pages;
    forall u | v <= u < v + n
      ensures InPools(w, SpaceOf(w, id).pages[u])
    {
      PfreePool(w, id, u);
    }
  }

  lemma DropPageShrinks(w: World, id: Id, v: nat)
    requires Owned(w) && Mapped(w, id, v, 1)
    ensures Shrinks(w, DropPage(w, id, v), id, v, 1)
  {
    var pages := SpaceOf(w, id).pages;
    assert v in pages;
    PfreePool(w, id, v);
    assert forall f :: TakenBy(pages, v, 1, f) <==> f == pages[v];
  }

  lemma OwnsDropPage(w: World, id: Id, v: nat, q: Owner, g: nat)
    requires Owned(w) && Mapped(w, id, v, 1)
    ensures Owns(DropPage(w, id, v), q, g) <==> Owns(w, q, g) && q != PageOwner(id, v)
  {
  }

  lemma DropPageFrames(w: World, id: Id, v: nat)
    requires FramesInv(w) && Mapped(w, id, v, 1)
    ensures FramesInv(DropPage(w, id, v))
  {
    var w' := DropPage(w, id, v);
    var pages := SpaceOf(w, id).pages;
    assert v in pages;
    PfreePool(w, id, v);
    forall q, g
      ensures Owns(w', q, g) <==> Owns(w, q, g) && q != PageOwner(id, v)
    {
      OwnsDropPage(w, id, v, q, g);
    }
    DropOwner(w, w', PageOwner(id, v), pages[v]);
  }

  lemma PagesShrinkTrans(bits: seq<bool>, bits1: seq<bool>, bits2: seq<bool>, start: nat,
                         pages: map<nat, nat>, pages1: map<nat, nat>, pages2: map<nat, nat>, v: nat, n: nat)
    requires PagesShrink(bits, bits1, start, pages, pages1, v, 1)
    requires PagesShrink(bits1, bits2, start, pages1, pages2, v + 1, n)
    ensures PagesShrink(bits, bits2, start, pages, pages2, v, n + 1)
  {
    forall f
      ensures TakenBy(pages, v, n + 1, f) <==> TakenBy(pages, v, 1, f) || TakenBy(pages1, v + 1, n, f)
    {
      if TakenBy(pages, v, n + 1, f) {
        var u :| v <= u < v + n + 1 && u in pages && pages[u] == f;
        assert if u == v then TakenBy(pages, v, 1, f) else u in pages1 && pages1[u] == f;
      }
      if TakenBy(pages1, v + 1, n, f) {
        var u :| v + 1 <= u < v + 1 + n && u in pages1 && pages1[u] == f;
        assert u in pages && pages[u] == f;
      }
    }
  }

  lemma {:induction false} DropPagesShrinks(w: World, id: Id, v: nat, n: nat)
    requires FramesInv(w) && Mapped(w, id, v, n)
    ensures FramesInv(DropPages(w, id, v, n)) && Shrinks(w, DropPages(w, id, v, n), id, v, n)
    decreases n
  {
    hide Owned, Covered, Pfree;
    if n > 0 {
      var w1 := DropPage(w, id, v);
      DropPageShrinks(w, id, v);
      DropPageFrames(w, id, v);
      DropPagesShrinks(w1, id, v + 1, n - 1);
      var w2 := DropPages(w1, id, v + 1, n - 1);
      PagesShrinkTrans(Pool(w, id), Pool(w1, id), Pool(w2, id), PoolStart(w, id),
                       SpaceOf(w, id).pages, SpaceOf(w1, id).pages, SpaceOf(w2, id).pages, v, n - 1);
    }
  }

  /** Exactly what mfree_page changes. */
  ghost predicate Released(w: World, w': World, id: Id, v: nat, n: nat) {
    && Has(w, id) && Has(w', id) && BasePage(id) <= v
    && PagesShrink(Pool(w, id), Pool(w', id), PoolStart(w, id), SpaceOf(w, id).pages, SpaceOf(w', id).pages, v, n)
    && w' == WithSpace(WithPool(w, id, Pool(w', id)), id, SpaceOf(w', id))
    && SpaceOf(w', id).virt == SetRange(SpaceOf(w, id).virt, v - BasePage(id), n, false)
  }

  /** mfree_page keeps the invariant, as long as no process's page directory is in the range. */
  lemma MfreePageCorrect(w: World, id: Id, v: nat, n: nat)
    requires Inv(w) && Mapped(w, id, v, n)
    requires id.Kernel? ==> forall p <- w.procs :: !(v <= w.procs[p].dir < v + n)
    ensures Inv(MfreePage(w, id, v, n)) && Released(w, MfreePage(w, id, v, n), id, v, n)
  {
    DropPagesShrinks(w, id, v, n);
    var w1, w' := DropPages(w, id, v, n), MfreePage(w, id, v, n);
    assert forall o, f :: Owns(w', o, f) <==> Owns(w1, o, f);
    assert forall f :: KernelBit(w', f) <==> KernelBit(w1, f);
    assert forall f :: UserBit(w', f) <==> UserBit(w1, f);
    assert FramesInv(w');
    assert Released(w, w', id, v, n);
    ReleasedInv(w, w', id, v, n);
  }

  lemma ReleasedInv(w: World, w': World, id: Id, v: nat, n: nat)
    requires Inv(w) && Released(w, w', id, v, n) && FramesInv(w')
    requires id.Kernel? ==> forall p <- w.procs :: !(v <= w.procs[p].dir < v + n)
    ensures Inv(w')
  {
    assert SpaceInv(SpaceOf(w, id), BasePage(id));
    assert SpaceInv(SpaceOf(w', id), BasePage(id));
    forall p <- w'.procs
      ensures ProcInv(w', w'.procs[p])
    {
      assert ProcInv(w, w.procs[p]);
    }
  }

  // ----- malloc_page and mfree_page undo each other --------------------------------------

  lemma SameBits(bits: seq<bool>, bits': seq<bool>, start: nat)
    requires |bits| == |bits'| && forall f :: BitAt(bits, start, f) <==> BitAt(bits', start, f)
    ensures bits == bits'
  {
    forall i | 0 <= i < |bits|
      ensures bits[i] == bits'[i]
    {
      assert BitAt(bits, start, start + i) <==> BitAt(bits', start, start + i);
    }
  }

  lemma GrowShrink(bits: seq<bool>, bits1: seq<bool>, bits2: seq<bool>, start: nat,
                   pages: map<nat, nat>, pages1: map<nat, nat>, pages2: map<nat, nat>, v: nat, n: nat)
    requires PagesGrow(bits, bits1, start, pages, pages1, v, n) && PagesShrink(bits1, bits2, start, pages1, pages2, v, n)
    requires forall u :: v <= u < v + n ==> u !in pages
    ensures bits2 == bits && pages2 == pages
  {
    forall f
      ensures BitAt(bits2, start, f) <==> BitAt(bits, start, f)
    {
      if TakenBy(pages1, v, n, f) {
        var u :| v <= u < v + n && u in pages1 && pages1[u] == f;
        assert !BitAt(bits, start, pages1[u]);
      }
    }
    SameBits(bits2, bits, start);
  }

  /** w2 is w again; after a user allocation it keeps the page tables made on the way, and they are in w1. */
  ghost predicate Undone(w: World, w1: World, w2: World, id: Id, v: nat, n: nat) {
    match id
    case Kernel => w2 == w
    case User(pid) =>
      && pid in w.procs && pid in w1.procs
      && w2 == w.(kf := w1.kf, procs := w.procs[pid := w.procs[pid].(tables := w1.procs[pid].tables)])
      && TablesGrow(w.kf, w1.kf, w.procs[pid].tables, w1.procs[pid].tables, v, n)
  }

  lemma FreshRange(w: World, id: Id, v: nat, n: nat)
    requires Inv(w) && Has(w, id) && BasePage(id) <= v && ClearRun(SpaceOf(w, id).virt, v - BasePage(id), n)
    ensures forall u :: v <= u < v + n ==> u !in SpaceOf(w, id).pages
  {
    assert SpaceInv(SpaceOf(w, id), BasePage(id));
    forall u | v <= u < v + n
      ensures u !in SpaceOf(w, id).pages
    {
      assert !SpaceOf(w, id).virt[u - BasePage(id)];
    }
  }

  lemma ReleaseUndoes(w: World, w1: World, w2: World, id: Id, v: nat, n: nat)
    requires Inv(w) && Placed(w, w1, id, v, n) && Released(w1, w2, id, v, n)
    ensures Undone(w, w1, w2, id, v, n)
  {
    FreshRange(w, id, v, n);
    GrowShrink(Pool(w, id), Pool(w1, id), Pool(w2, id), PoolStart(w, id),
               SpaceOf(w, id).pages, SpaceOf(w1, id).pages, SpaceOf(w2, id).pages, v, n);
    assert SpaceOf(w2, id).virt == SpaceOf(w, id).virt;
    if id.User? {
      assert w2.procs == w.procs[id.pid := w2.procs[id.pid]];
    }
  }

  lemma AllocatedMapped(w: World, w1: World, id: Id, v: nat, n: nat)
    requires Inv(w) && Inv(w1) && Placed(w, w1, id, v, n) && n > 0
    ensures Mapped(w1, id, v, n)
    ensures id.Kernel? ==> forall p <- w1.procs :: !(v <= w1.procs[p].dir < v + n)
  {
    MappedRange(w1, id, v, n);
    FreshRange(w, id, v, n);
    if id.Kernel? {
      forall p <- w1.procs
        ensures !(v <= w1.procs[p].dir < v + n)
      {
        assert ProcInv(w, w.procs[p]);
      }
    }
  }

  /**
    Freeing what malloc_page returned restores both bitmaps and the mappings.  A kernel
    allocation leaves no trace; a user one keeps only the page tables made on the way.
   */
  lemma MallocThenFree(w: World, id: Id, n: nat)
    requires Inv(w) && Has(w, id)
    requires MallocPage(w, id, n).Ok? && MallocPage(w, id, n).value.1.Some?
    ensures var (w1, v) := (MallocPage(w, id, n).value.0, MallocPage(w, id, n).value.1.value);
            Mapped(w1, id, v, n) && Undone(w, w1, MfreePage(w1, id, v, n), id, v, n)
  {
    MallocPageCorrect(w, id, n);
    var w1, v := MallocPage(w, id, n).value.0, MallocPage(w, id, n).value.1.value;
    AllocatedMapped(w, w1, id, v, n);
    MfreePageCorrect(w1, id, v, n);
    ReleaseUndoes(w, w1, MfreePage(w1, id, v, n), id, v, n);
  }
}
