/**
  How well sys_malloc uses its pages, and in which order blocks are handed out: what a caller could
  measure, told in bytes and addresses.
 */
module HeapUse {
  import opened Outcomes
  import opened Bitmaps
  import opened AddressSpaces
  import opened PageAllocation
  import opened PageRelease
  import opened Arenas
  import opened Heaps
  import opened HeapRuns

  function Larger(x: nat, y: nat): nat {
    if x < y then y else x
  }

  lemma SizesGrow(d: nat, e: nat)
    requires d < DESCS && e < DESCS
    ensures d < e ==> 2 * BlockSize(d) <= BlockSize(e)
  {
  }

  lemma ClassFound(size: nat)
    requires size <= 1024
    ensures DescFor(size, 0) < DESCS && size <= BlockSize(DescFor(size, 0)) < 2 * Larger(size, 16)
  {
    hide DescFor;
    SizesDouble(DescFor(size, 0));
  }

  /** The class of a request is the only one that is large enough and less than twice the larger of the request and 16. */
  lemma ClassTight(size: nat, d: nat)
    requires size <= 1024 && d < DESCS
    ensures d == DescFor(size, 0) <==> size <= BlockSize(d) < 2 * Larger(size, 16)
  {
    hide DescFor, BlockSize;
    var e := DescFor(size, 0);
    ClassFound(size);
    SizesGrow(d, e);
    SizesGrow(e, d);
    SizesDouble(0);
    SizesGrow(0, d);
    SizesGrow(0, e);
  }

  /** What a client gets: for up to 1024 bytes less than twice the larger of the request and 16, above that whole pages, one page less of which is not enough. */
  ghost predicate Tight(size: nat, capacity: nat) {
    && size <= capacity
    && if size <= 1024 then capacity < 2 * Larger(size, 16) else (capacity + HEADER) % PAGE == 0 && capacity < size + PAGE
  }

  lemma MallocTight(w: World, h: Heap, id: Id, live: Live, pool_size: nat, size: nat)
    requires Sound(w, h, id, live)
    ensures |h.free| == DESCS
    ensures match SysMalloc(w, h, id, pool_size, size)
            case Panic(_) => true
            case Ok((_, h', p)) => p.Some? ==> Tight(size, Capacity(h', p.value))
  {
    hide Inv, WeakInv, MallocPage, DescFor, BlockSize, CanTake, Block2Arena;
    FreeListsCount(h, live);
    var r := SysMalloc(w, h, id, pool_size, size);
    if r.Ok? && r.value.2.Some? {
      if size > 1024 {
        LargeCapacity(h, r.value.2.value, MallocPage(w, id, PagesFor(size)).value.1.value, PagesFor(size));
      } else {
        var d := DescFor(size, 0);
        ClassFound(size);
        RefillSound(w, h, id, live, d);
        CanTakeBlock(Refill(w, h, id, d).value.1, live, d);
      }
    }
  }

  lemma LargeCapacity(h: Heap, p: nat, a: nat, n: nat)
    requires p == a * PAGE + HEADER && n >= 1
    ensures Capacity(AddLarge(h, a, n), p) == n * PAGE - HEADER
  {
  }

  /** A request for more bytes than the caller's own pool has changes nothing: the kernel's pool for the kernel, the user pool for a process. */
  lemma TooLarge(lim: Limits, c: Conf, id: Id, size: nat)
    requires CanHappen(c, Malloc(id, size)) && size > match id case Kernel => lim.kernel case User(_) => lim.user
    ensures Next(lim, c, Malloc(id, size)).Ok? && Next(lim, c, Malloc(id, size)).value.w == c.w
    ensures Next(lim, c, Malloc(id, size)).value.hs == c.hs && Next(lim, c, Malloc(id, size)).value.lives == c.lives
  {
    assert c.hs[id := c.hs[id]] == c.hs;
  }

  /** Every place for a block of n bytes in the page a is held by a client. */
  ghost predicate PageHeld(live: Live, a: nat, n: nat) {
    forall i: nat :: PlaceFits(i, n) ==> a * PAGE + HEADER + i * n in live
  }

  /**
    A request of up to 1024 bytes takes a page only when no place is left: in every arena with blocks of
    the size that fits the request, every place for one is held.
   */
  lemma PageOnlyWhenFull(w: World, h: Heap, id: Id, live: Live, pool_size: nat, size: nat, a: nat)
    requires Sound(w, h, id, live) && size <= 1024 && a in h.arenas && h.arenas[a].Small?
    requires |h.free| == DESCS && SysMalloc(w, h, id, pool_size, size).Ok? && SysMalloc(w, h, id, pool_size, size).value.0 != w
    requires size <= BlockSize(h.arenas[a].desc) < 2 * Larger(size, 16)
    ensures PageHeld(live, a, BlockSize(h.arenas[a].desc))
  {
    hide Inv, MallocPage, DescFor, CanTake, PlaceFits, LiveInv, ListInv, BlockSize, IsBlock;
    var d := h.arenas[a].desc;
    assert ArenaInv(h, live, a);
    ClassTight(size, d);
    assert h.free[d] == [];
    forall i: nat | PlaceFits(i, BlockSize(d))
      ensures a * PAGE + HEADER + i * BlockSize(d) in live
    {
      PlacesCounted(d, i);
      assert Arena2Block(a, d, i) !in h.free[d];
    }
  }

  /** After any run, in every heap. */
  lemma RunPageOnlyWhenFull(lim: Limits, all_mem: nat, cs: seq<Conf>, es: seq<Event>, id: Id, size: nat, a: nat)
    requires HeapRuns.IsRun(lim, all_mem, cs, es) && size <= 1024 && CanHappen(cs[|es|], Malloc(id, size))
    requires Next(lim, cs[|es|], Malloc(id, size)).Ok? && Next(lim, cs[|es|], Malloc(id, size)).value.w != cs[|es|].w
    requires a in cs[|es|].hs[id].arenas && cs[|es|].hs[id].arenas[a].Small?
    requires size <= BlockSize(cs[|es|].hs[id].arenas[a].desc) < 2 * Larger(size, 16)
    ensures PageHeld(cs[|es|].lives[id], a, BlockSize(cs[|es|].hs[id].arenas[a].desc))
  {
    hide All, HeapRuns.IsRun, Sound, SysMalloc, BlockSize, PageHeld;
    RunLength(lim, all_mem, cs, es);
    RunSound(lim, all_mem, cs, es, |es|);
    var c := cs[|es|];
    SoundHere(c, id);
    PageOnlyWhenFull(c.w, c.hs[id], id, c.lives[id], Limit(lim, id), size, a);
  }

  /** Blocks are taken from the front of the list; a new page gives its first place, and the others follow in the order of their addresses. */
  ghost predicate InOrder(h: Heap, h': Heap, d: nat, p: nat)
    requires d < |h.free| && d < |h'.free|
  {
    if h.free[d] != [] then h.free[d] == [p] + h'.free[d]
    else exists a: nat :: a !in h.arenas && p == a * PAGE + HEADER && forall i :: 0 <= i < |h'.free[d]| ==> h'.free[d][i] == p + (i + 1) * BlockSize(d)
  }

  lemma TakenInOrder(w: World, h: Heap, id: Id, live: Live, pool_size: nat, size: nat, d: nat)
    requires Sound(w, h, id, live) && d < DESCS && size <= BlockSize(d) < 2 * Larger(size, 16) && size <= 1024
    ensures |h.free| == DESCS
    ensures match SysMalloc(w, h, id, pool_size, size)
            case Panic(_) => true
            case Ok((_, h', p)) =>
              && |h'.free| == DESCS && (p.Some? ==> InOrder(h, h', d, p.value))
              && forall e: nat :: e < DESCS && (e != d || p.None?) ==> h'.free[e] == h.free[e]
  {
    hide Inv, WeakInv, MallocPage, DescFor, CanTake, BlockSize, Block2Arena, Placed, PerArena;
    FreeListsCount(h, live);
    ClassTight(size, d);
    RefillSound(w, h, id, live, d);
    var page := MallocPage(w, id, 1);
    var r := Refill(w, h, id, d);
    if size <= pool_size && r.Ok? {
      FreeListsCount(r.value.1, live);
      CanTakeBlock(r.value.1, live, d);
      if h.free[d] == [] {
        MallocPageCorrect(w, id, 1);
        PlacedFresh(w, page.value.0, h, id, page.value.1.value, 1);
        ArenaCovered(h, live, page.value.1.value);
        NewArenaFills(h, page.value.1.value, d);
        PlacesAfter(page.value.1.value, d, r.value.1.free[d]);
      }
    }
  }

  lemma PlacesAfter(a: nat, d: nat, s: seq<nat>)
    requires s != [] && forall i :: 0 <= i < |s| ==> s[i] == a * PAGE + HEADER + i * BlockSize(d)
    ensures s[0] == a * PAGE + HEADER && forall i :: 0 <= i < |s| - 1 ==> s[1..][i] == s[0] + (i + 1) * BlockSize(d)
  {
  }

  /** A freed block goes behind all others of its class; if its arena stays no other list and no other place changes. */
  lemma FreedGoesLast(w: World, h: Heap, id: Id, live: Live, p: nat)
    requires Sound(w, h, id, live) && p in live && Block2Arena(p) in h.arenas && h.arenas[Block2Arena(p)].Small?
    ensures CanFree(w, h, id, p) && SysFree(w, h, id, p).Ok?
    ensures var h' := SysFree(w, h, id, p).value.1;
            var d := h.arenas[Block2Arena(p)].desc;
            && |h'.free| == |h.free| == DESCS && d < DESCS && (forall e: nat :: e < DESCS && e != d ==> h'.free[e] == h.free[e])
            && if Block2Arena(p) in h'.arenas then h'.free[d] == h.free[d] + [p]
               else SameOrder(h.free[d], h'.free[d]) && forall x :: x in h'.free[d] <==> x in h.free[d] && x / PAGE != p / PAGE
  {
    hide Inv, WeakInv, MfreePage, Mapped, AllFound, PerArena;
    FreeReady(w, h, id, live, p);
    SysFreeSound(w, h, id, live, p);
    var d := h.arenas[Block2Arena(p)].desc;
    WithoutLast(h.free[d], p);
    WithoutOrder(h.free[d], Block2Arena(p));
  }

  /** t's elements stand in s in the same order. */
  ghost predicate SameOrder(s: seq<nat>, t: seq<nat>) {
    forall i, j :: 0 <= i < j < |t| ==> exists k, l :: 0 <= k < l < |s| && s[k] == t[i] && s[l] == t[j]
  }

  lemma {:induction false} WithoutLast(s: seq<nat>, p: nat)
    ensures Without(s + [p], Block2Arena(p)) == Without(s, Block2Arena(p))
  {
    if s != [] {
      assert (s + [p])[1..] == s[1..] + [p];
      WithoutLast(s[1..], p);
    } else {
      assert ([] + [p])[1..] == [];
    }
  }

  lemma {:induction false} WithoutOrder(s: seq<nat>, a: nat)
    ensures SameOrder(s, Without(s, a))
  {
    if s != [] {
      var rest, t := Without(s[1..], a), Without(s, a);
      WithoutOrder(s[1..], a);
      forall i, j | 0 <= i < j < |t|
        ensures exists k, l :: 0 <= k < l < |s| && s[k] == t[i] && s[l] == t[j]
      {
        var shift := |t| - |rest|;
        if i >= shift {
          assert t[i] == rest[i - shift] && t[j] == rest[j - shift];
          var k, l :| 0 <= k < l < |s[1..]| && s[1..][k] == rest[i - shift] && s[1..][l] == rest[j - shift];
          assert s[k + 1] == t[i] && s[l + 1] == t[j];
        } else {
          assert t[j] == rest[j - 1] && t[j] in rest && t[j] in s[1..];
          var l :| 0 <= l < |s[1..]| && s[1..][l] == t[j];
          assert s[0] == t[i] && s[l + 1] == t[j];
        }
      }
    }
  }
}
