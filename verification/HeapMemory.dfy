/**
  sys_malloc and sys_free on words of memory: what the code reads from headers, links and descriptors
  and what it writes to them.  Each method leaves words that stand for the heap the step on values gives.
 */
module HeapMemory {
  import opened Outcomes
  import opened Bitmaps
  import opened AddressSpaces
  import opened PageAllocation
  import opened Arenas
  import opened Heaps
  import opened HeapWords

  /** The code of the allocator on the words of one address space. */
  class HeapMemory {
    var mem: Mem
    const descs: nat

    constructor (mem: Mem, descs: nat)
      ensures this.mem == mem && this.descs == descs
    {
      this.mem, this.descs := mem, descs;
    }

    /** block_desc_init */
    method Init()
      modifies this
      ensures Stands(mem, descs, EMPTY_HEAP)
    {
      hide Linked, DescIs, ListIs;
      var d, size := 0, 16;
      while d < DESCS
        invariant 0 <= d <= DESCS && (d < DESCS ==> size == BlockSize(d))
        invariant forall e: nat :: e < d ==> DescIs(mem, descs, e) && ListIs(mem, descs, e, [])
      {
        ghost var before := mem;
        InitDesc(d, size);
        forall e: nat | e < d
          ensures DescIs(mem, descs, e) && ListIs(mem, descs, e, [])
        {
          EmptyKept(before, mem, descs, e);
        }
        d, size := d + 1, size * 2;
      }
    }

    /** One descriptor: its sizes, and list_init. */
    method InitDesc(d: nat, size: nat)
      requires size == BlockSize(d)
      modifies this
      ensures DescIs(mem, descs, d) && ListIs(mem, descs, d, [])
      ensures forall y: nat :: !(DescAt(descs, d) <= y < DescAt(descs, d) + DESC) ==> Word(mem, y) == Word(old(mem), y)
    {
      hide Linked, BlockSize;
      SizePositive(d);
      mem := mem[DescAt(descs, d) := size][DescAt(descs, d) + 4 := (PAGE - HEADER) / size];
      mem := mem[PrevOf(Head(descs, d)) := 0][NextOf(Head(descs, d)) := Tail(descs, d)];
      mem := mem[PrevOf(Tail(descs, d)) := Head(descs, d)][NextOf(Tail(descs, d)) := 0];
      EmptyLinked(mem, descs, d);
    }

    /** list_insert_before */
    method InsertBefore(before: nat, node: nat)
      modifies this
      ensures mem == Insert(old(mem), before, node)
    {
      mem := mem[NextOf(Word(mem, PrevOf(before))) := node];
      mem := mem[PrevOf(node) := Word(mem, PrevOf(before))];
      mem := mem[NextOf(node) := before];
      mem := mem[PrevOf(before) := node];
    }

    /** list_remove */
    method Remove(node: nat)
      modifies this
      ensures mem == Unlink(old(mem), node)
    {
      mem := mem[NextOf(Word(mem, PrevOf(node))) := Word(mem, NextOf(node))];
      mem := mem[PrevOf(Word(mem, NextOf(node))) := Word(mem, PrevOf(node))];
    }

    /** node_find */
    method Find(list: nat, node: nat, ghost d: nat, ghost s: seq<nat>) returns (found: bool)
      requires list == Head(descs, d) && ListIs(mem, descs, d, s) && Tail(descs, d) !in s
      ensures found == (node in s)
    {
      ghost var nodes := Chain(descs, d, s);
      assert Word(mem, NextOf(nodes[0])) == nodes[1] && (s != [] ==> nodes[1] == s[0] && s[0] in s);
      var curr := Word(mem, NextOf(list));
      ghost var i := 1;
      while curr != list + 8
        invariant 1 <= i <= |s| + 1 && curr == nodes[i] && (i <= |s| ==> curr in s)
        invariant forall j :: 0 <= j < i - 1 ==> s[j] != node
        decreases |s| - i
      {
        if curr == node {
          assert s[i - 1] == node;
          return true;
        }
        assert Word(mem, NextOf(nodes[i])) == nodes[i + 1];
        curr, i := Word(mem, NextOf(curr)), i + 1;
        assert i <= |s| ==> s[i - 1] in s;
      }
      return false;
    }

    /** list_empty */
    method IsEmpty(d: nat, ghost s: seq<nat>) returns (b: bool)
      requires ListIs(mem, descs, d, s) && Tail(descs, d) !in s
      ensures b == (s == [])
    {
      ghost var nodes := Chain(descs, d, s);
      assert Word(mem, NextOf(nodes[0])) == nodes[1];
      assert s != [] ==> nodes[1] == s[0] && s[0] in s;
      b := Word(mem, NextOf(Head(descs, d))) == Tail(descs, d);
    }

    /** memset of a new page, its header, and the loop that puts its blocks on the empty list of class d. */
    method FillPage(d: nat, a: nat, ghost h: Heap, ghost live: Live) returns (r: Outcome<()>)
      requires Stands(mem, descs, h) && HeapInv(h, live) && d < DESCS && |h.free| == DESCS && h.free[d] == [] && !HeapPage(h, a)
      requires Outside(descs, AddArena(h, a, d)) && |AddArena(h, a, d).free| == DESCS
      modifies this
      ensures r == Ok(()) && Stands(mem, descs, AddArena(h, a, d))
    {
      hide Stands, HeapInv, Outside, HeapPage, Laid, ListIs, HeaderIs, PerArena, SetHeader, Zeroed, IsBlock, Insert, Arena2Block;
      ghost var h1 := AddArena(h, a, d);
      ghost var h2 := WithList(h1, d, []);
      NewPage(mem, descs, h, live, a, d);
      StandsParts(mem, descs, h);
      var cnt := Word(mem, DescAt(descs, d) + 4);
      mem := Zeroed(mem, a, 1);
      mem := SetHeader(mem, descs, a, Small(d, cnt));
      var i := 0;
      while i < cnt
        invariant 0 <= i <= cnt && Stands(mem, descs, WithList(h1, d, Blocks(a, d, i)))
      {
        ghost var hi := WithList(h1, d, Blocks(a, d, i));
        var b := BlockAt(a, i, hi);
        NextBlock(mem, descs, h1, d, a, i);
        CountRead(mem, descs, hi, a);
        var found := Find(Word(mem, a * PAGE) + 8, b, d, Blocks(a, d, i));
        if found {
          return Panic(NodeRepeat);
        }
        InsertBefore(Word(mem, a * PAGE) + 16, b);
        i := i + 1;
      }
      SameList(h1, d);
      return Ok(());
    }

    /** list_pop of a list that is not empty, and one block less in the arena it came from. */
    method Take(d: nat, ghost h: Heap, ghost live: Live) returns (b: nat)
      requires Stands(mem, descs, h) && WeakInv(h, live) && Outside(descs, h) && d < DESCS == |h.free| && h.free[d] != []
      modifies this
      ensures CanTake(h, d) && b == h.free[d][0] && Stands(mem, descs, TakeBlock(h, d))
    {
      hide Stands, WeakInv, Outside, Laid, IsBlock, Unlink;
      CanTakeBlock(h, live, d);
      SoundLaid(descs, h, live);
      FirstNode(mem, descs, h, d);
      FirstUnlinked(mem, descs, h, live, d);
      b := Word(mem, NextOf(Head(descs, d)));
      Remove(b);
      var a := Block2Arena(b);
      var cnt := Word(mem, a * PAGE + 4);
      CountRead(mem, descs, WithList(h, d, h.free[d][1..]), a);
      CountWritten(mem, descs, WithList(h, d, h.free[d][1..]), a, cnt - 1);
      mem := mem[a * PAGE + 4 := cnt - 1];
    }

    /** arena2block, with the block size read from the arena's descriptor. */
    method BlockAt(a: nat, i: nat, ghost h: Heap) returns (b: nat)
      requires Stands(mem, descs, h) && a in h.arenas && h.arenas[a].Small? && h.arenas[a].desc < DESCS
      ensures b == Arena2Block(a, h.arenas[a].desc, i)
    {
      hide Stands;
      CountRead(mem, descs, h, a);
      StandsParts(mem, descs, h);
      assert DescIs(mem, descs, h.arenas[a].desc);
      b := a * PAGE + HEADER + i * Word(mem, Word(mem, a * PAGE));
    }

    /** sys_free of a small block: onto the list of its arena's class, and one more in the arena; tells whether all are free. */
    method Give(b: nat, ghost h: Heap, ghost live: Live) returns (full: bool)
      requires Stands(mem, descs, h) && HeapInv(h, live) && Outside(descs, h) && b in live && IsSmallBlock(h, b) && |h.free| == DESCS
      modifies this
      ensures Stands(mem, descs, GiveBlock(h, b))
      ensures full == (GiveBlock(h, b).arenas[Block2Arena(b)].cnt == PerArena(h.arenas[Block2Arena(b)].desc))
    {
      hide Stands, HeapInv, Outside, HeapPage, Laid, PerArena, IsBlock, Insert, Block2Arena;
      var a := Block2Arena(b);
      ghost var d := h.arenas[a].desc;
      ghost var listed := WithList(h, d, h.free[d] + [b]);
      GiveAppended(mem, descs, h, live, b);
      CountRead(mem, descs, h, a);
      InsertBefore(Word(mem, a * PAGE) + 16, b);
      CountRead(mem, descs, listed, a);
      var cnt := Word(mem, a * PAGE + 4) + 1;
      CountWritten(mem, descs, listed, a, cnt);
      mem := mem[a * PAGE + 4 := cnt];
      CountRead(mem, descs, GiveBlock(h, b), a);
      StandsParts(mem, descs, GiveBlock(h, b));
      assert DescIs(mem, descs, d);
      full := Word(mem, a * PAGE + 4) == Word(mem, Word(mem, a * PAGE) + 4);
    }

    /** The loop of sys_free over an arena that is all free: each block is found and removed. */
    method Dismantle(a: nat, ghost h: Heap, ghost live: Live) returns (r: Outcome<()>)
      requires Stands(mem, descs, h) && WeakInv(h, live) && Outside(descs, h) && |h.free| == DESCS
      requires a in h.arenas && h.arenas[a].Small? && h.arenas[a].desc < DESCS && h.arenas[a].cnt == PerArena(h.arenas[a].desc)
      modifies this
      ensures r == Ok(()) && Stands(mem, descs, DropArena(h, a))
    {
      hide Stands, WeakInv, Outside, HeapPage, Laid, PerArena, IsBlock, Unlink, Arena2Block, Block2Arena, Filter;
      ghost var d := h.arenas[a].desc;
      SoundLaid(descs, h, live);
      SameList(h, d);
      var i := 0;
      CountRead(mem, descs, h, a);
      StandsParts(mem, descs, h);
      assert DescIs(mem, descs, d);
      var cnt := Word(mem, Word(mem, a * PAGE) + 4);
      FilterNone(h.free[d]);
      while i < cnt
        invariant 0 <= i <= cnt && Stands(mem, descs, WithList(h, d, Filter(h.free[d], BlockSet(a, d, i))))
      {
        ghost var s := Filter(h.free[d], BlockSet(a, d, i));
        var b := BlockAt(a, i, WithList(h, d, s));
        DismantleStep(mem, descs, h, live, a, i);
        CountRead(mem, descs, WithList(h, d, s), a);
        var found := Find(Word(mem, a * PAGE) + 8, b, d, s);
        if !found {
          return Panic(NodeMissing);
        }
        Remove(b);
        i := i + 1;
      }
      DismantleEnd(h, live, a);
      StandsFewer(mem, descs, WithList(h, d, Without(h.free[d], a)), a);
      return Ok(());
    }

    /** The search for a class, on the descriptors' block sizes. */
    method FindDesc(size: nat, ghost h: Heap) returns (d: nat)
      requires Stands(mem, descs, h) && size <= 1024
      ensures d == DescFor(size, 0)
    {
      hide Stands;
      d := 0;
      StandsParts(mem, descs, h);
      assert DescIs(mem, descs, 0);
      while size > Word(mem, DescAt(descs, d))
        invariant 0 <= d < DESCS && DescIs(mem, descs, d) && DescFor.requires(size, d) && DescFor(size, d) == DescFor(size, 0)
        decreases DESCS - d
      {
        d := d + 1;
        assert DescIs(mem, descs, d);
      }
    }

    /** memset of new pages and the header of a large arena. */
    method FillLarge(a: nat, n: nat, ghost h: Heap, ghost live: Live, ghost size: nat)
      requires Stands(mem, descs, h) && HeapInv(h, live) && n >= 1 && HEADER + size <= n * PAGE
      requires (forall u :: a <= u < a + n ==> !HeapPage(h, u)) && Outside(descs, AddLarge(h, a, n))
      modifies this
      ensures Stands(mem, descs, AddLarge(h, a, n))
    {
      hide Stands, HeapInv, Outside, HeapPage, SetHeader, Zeroed;
      LargePages(mem, descs, h, live, a, n, size);
      mem := Zeroed(mem, a, n);
      mem := SetHeader(mem, descs, a, Large(n));
    }

    /**
      sys_malloc on words; got is what malloc_page answers, if it is asked.  The result is the one on
      values, and the words then stand for its heap.
     */
    method SysMalloc(pool_size: nat, size: nat, got: Outcome<Option<nat>>, ghost w: World, ghost id: Id, ghost h: Heap, ghost live: Live)
      returns (r: Outcome<Option<nat>>)
      requires Stands(mem, descs, h) && Sound(w, h, id, live) && DescPlace(descs, id) && |h.free| == DESCS
      requires size <= pool_size && PagesNeeded(h, size) > 0 ==> got == PagesGot(w, id, PagesNeeded(h, size))
      modifies this
      ensures match Heaps.SysMalloc(w, h, id, pool_size, size)
              case Panic(e) => r == Panic(e)
              case Ok((_, h1, p)) => r == Ok(p) && Stands(mem, descs, h1)
    {
      hide Stands, Sound, DescPlace, HeapInv, Outside, HeapPage, MallocPage, DescFor, CanTake, Laid;
      if size > pool_size {
        return Ok(None);
      }
      if size > 1024 {
        if got.Panic? || got.value.None? {
          return got;
        }
        var a := got.value.value;
        LargeReady(w, h, id, live, size, descs);
        FillLarge(a, PagesFor(size), h, live, size);
        return Ok(Some(a * PAGE + HEADER));
      }
      var d := FindDesc(size, h);
      SmallReady(w, h, id, live, d, descs);
      ReadList(mem, descs, h, d);
      var empty := IsEmpty(d, h.free[d]);
      ghost var h1 := h;
      if empty {
        if got.Panic? {
          return got;
        }
        h1 := AddArena(h, got.value.value, d);
        var filled := FillPage(d, got.value.value, h, live);
      }
      var b := Take(d, h1, live);
      return Ok(Some(b));
    }

    /** sys_free of a live pointer, on words: the answer is how many pages go to mfree_page. */
    method SysFree(p: nat, ghost w: World, ghost id: Id, ghost h: Heap, ghost live: Live) returns (r: Outcome<nat>)
      requires Stands(mem, descs, h) && Sound(w, h, id, live) && DescPlace(descs, id) && p in live
      modifies this
      ensures CanFree(w, h, id, p) && Heaps.SysFree(w, h, id, p).Ok? && r.Ok?
      ensures r.value > 0 ==> Mapped(w, id, Block2Arena(p), r.value)
      ensures Heaps.SysFree(w, h, id, p).value.0 == if r.value > 0 then MfreePage(w, id, Block2Arena(p), r.value) else w
      ensures Stands(mem, descs, Heaps.SysFree(w, h, id, p).value.1)
    {
      hide Stands, Sound, DescPlace, HeapInv, Outside, HeapPage, Mapped, MfreePage, Laid, AllFound, PerArena;
      FreeReady(w, h, id, live, p);
      SysFreeSound(w, h, id, live, p);
      FreeParts(w, h, id, live, p, descs, mem);
      var a := Block2Arena(p);
      if Word(mem, a * PAGE) == 0 && Word(mem, a * PAGE + 8) == 1 {
        StandsFewer(mem, descs, h, a);
        return Ok(Word(mem, a * PAGE + 4));
      }
      var full := Give(p, h, live);
      if full {
        var done := Dismantle(a, GiveBlock(h, p), live - {p});
        return Ok(1);
      }
      return Ok(0);
    }

    /** A client writes a word of a block it holds. */
    method Store(x: nat, word: nat, ghost h: Heap, ghost live: Live, ghost p: nat)
      requires Stands(mem, descs, h) && HeapInv(h, live) && Outside(descs, h) && p in live && p <= x < p + Capacity(h, p)
      modifies this
      ensures mem == old(mem)[x := word] && Stands(mem, descs, h)
    {
      hide Stands, HeapInv, Outside, Capacity;
      ClientStore(mem, descs, h, live, p, x, word);
      mem := mem[x := word];
    }
  }

  /** The append of sys_free, with the count still to come. */
  lemma GiveAppended(m: Mem, descs: nat, h: Heap, live: Live, b: nat)
    requires Stands(m, descs, h) && HeapInv(h, live) && Outside(descs, h) && b in live && IsSmallBlock(h, b) && |h.free| == DESCS
    ensures var a := Block2Arena(b);
            var d := h.arenas[a].desc;
            var listed := WithList(h, d, h.free[d] + [b]);
            && Stands(Insert(m, Tail(descs, d), b), descs, listed) && Laid(descs, listed)
            && GiveBlock(h, b) == listed.(arenas := listed.arenas[a := Small(d, h.arenas[a].cnt + 1)])
  {
    hide Stands, NoneFull, WeakInv, Outside, HeapPage, Laid, PerArena, IsBlock, Insert, Block2Arena;
    var a := Block2Arena(b);
    var d, h1 := h.arenas[a].desc, GiveBlock(h, b);
    GiveInv(h, live, b);
    SameHeapPages(h, h1);
    OutsideSame(descs, h, h1);
    SoundLaid(descs, h1, live - {b});
    var listed := WithList(h, d, h.free[d] + [b]);
    LaidFewer(descs, h1, listed);
    ListDistinct(h1, live - {b}, d);
    SameList(h, d);
    assert listed.free[d] == h.free[d] + [b];
    assert WithList(listed, d, h.free[d]).free == h.free;
    AppendStands(m, descs, listed, d, h.free[d], b);
    assert WithList(listed, d, h.free[d] + [b]).free == listed.free;
  }

  lemma OutsideSame(descs: nat, h: Heap, h': Heap)
    requires Outside(descs, h) && forall u: nat :: HeapPage(h', u) <==> HeapPage(h, u)
    ensures Outside(descs, h')
  {
    hide HeapPage;
  }

  lemma ListDistinct(h: Heap, live: Live, d: nat)
    requires WeakInv(h, live) && d < DESCS
    ensures |h.free| == DESCS && Distinct(h.free[d]) && forall x <- h.free[d] :: IsBlock(x, d)
  {
    hide ArenaInv, LiveInv, IsBlock;
    assert ListInv(h, d);
  }

  /** In an arena that is all free the i-th block is still on the list when its turn comes. */
  lemma DismantleStep(m: Mem, descs: nat, h: Heap, live: Live, a: nat, i: nat)
    requires WeakInv(h, live) && Laid(descs, h) && |h.free| == DESCS && a in h.arenas && h.arenas[a].Small? && h.arenas[a].desc < DESCS
    requires h.arenas[a].cnt == PerArena(h.arenas[a].desc) && i < PerArena(h.arenas[a].desc)
    requires var d := h.arenas[a].desc; Stands(m, descs, WithList(h, d, Filter(h.free[d], BlockSet(a, d, i))))
    ensures var d, b := h.arenas[a].desc, Arena2Block(a, h.arenas[a].desc, i);
            var s := Filter(h.free[d], BlockSet(a, d, i));
            && ListIs(m, descs, d, s) && Tail(descs, d) !in s && b in s
            && Stands(Unlink(m, b), descs, WithList(h, d, Filter(h.free[d], BlockSet(a, d, i + 1))))
  {
    hide WeakInv, Laid, Stands, ListIs, Filter, Unlink, PerArena, Arena2Block, IsBlock, RemoveOne;
    var d, b := h.arenas[a].desc, Arena2Block(a, h.arenas[a].desc, i);
    var s := Filter(h.free[d], BlockSet(a, d, i));
    ListDistinct(h, live, d);
    FullArena(h, live, a);
    NotYet(a, d, i);
    FilterDistinct(h.free[d], BlockSet(a, d, i));
    ThatList(m, descs, h, d, s);
    NoTail(descs, h, d);
    var k := RemoveAt(s, b);
    UnlinkStands(m, descs, h, d, s, k);
    FilterMore(h.free[d], BlockSet(a, d, i), b);
  }

  lemma NoTail(descs: nat, h: Heap, d: nat)
    requires Laid(descs, h) && d < DESCS
    ensures |h.free| == DESCS && Tail(descs, d) !in h.free[d]
  {
  }

  lemma DismantleEnd(h: Heap, live: Live, a: nat)
    requires WeakInv(h, live) && |h.free| == DESCS && a in h.arenas && h.arenas[a].Small? && h.arenas[a].desc < DESCS
    ensures var d := h.arenas[a].desc; Filter(h.free[d], BlockSet(a, d, PerArena(d))) == Without(h.free[d], a)
  {
    hide WeakInv, Filter, BlockSet, Without, PerArena, IsBlock;
    var d := h.arenas[a].desc;
    ListDistinct(h, live, d);
    AllGone(h.free[d], a, d);
    FilterPage(h.free[d], BlockSet(a, d, PerArena(d)), a);
  }

  /** A new page with its header written stands for the heap with that arena and nothing on its list yet. */
  lemma NewPage(m: Mem, descs: nat, h: Heap, live: Live, a: nat, d: nat)
    requires Stands(m, descs, h) && HeapInv(h, live) && d < DESCS && |h.free| == DESCS && h.free[d] == [] && !HeapPage(h, a)
    requires Outside(descs, AddArena(h, a, d))
    ensures Laid(descs, AddArena(h, a, d)) && AddArena(h, a, d).free[d] == Blocks(a, d, PerArena(d)) && Distinct(Blocks(a, d, PerArena(d)))
    ensures Stands(SetHeader(Zeroed(m, a, 1), descs, a, Small(d, PerArena(d))), descs, WithList(AddArena(h, a, d), d, Blocks(a, d, 0)))
  {
    hide Stands, WeakInv, HeapPage, Laid, PerArena, SetHeader, Zeroed, IsBlock, Outside, NoneFull;
    var h1 := AddArena(h, a, d);
    AddArenaInv(h, live, a, d);
    SoundLaid(descs, h1, live);
    NewBlocks(a, d);
    assert h.free[d] + Blocks(a, d, PerArena(d)) == Blocks(a, d, PerArena(d));
    PageOutside(descs, h1, live, a);
    FreshPages(m, descs, h, live, a, 1);
    NotThere(h, live, a);
    assert h.arenas - {a} == h.arenas;
    var h2 := h.(arenas := h.arenas[a := Small(d, PerArena(d))]);
    LaidFewer(descs, h1, h2);
    var m1 := Zeroed(m, a, 1);
    HeaderSet(m1, descs, a, Small(d, PerArena(d)));
    assert h2.(arenas := h2.arenas - {a}) == h;
    HeaderStands(m1, SetHeader(m1, descs, a, Small(d, PerArena(d))), descs, h2, a, Small(d, PerArena(d)));
    assert h2.arenas[a := Small(d, PerArena(d))] == h2.arenas;
    assert WithList(h1, d, Blocks(a, d, 0)).free == h2.free && WithList(h1, d, Blocks(a, d, 0)).arenas == h2.arenas;
  }

  lemma NotThere(h: Heap, live: Live, a: nat)
    requires WeakInv(h, live) && !HeapPage(h, a)
    ensures a !in h.arenas
  {
    ArenaCovered(h, live, a);
  }

  lemma PageOutside(descs: nat, h: Heap, live: Live, a: nat)
    requires WeakInv(h, live) && Outside(descs, h) && a in h.arenas
    ensures forall x: nat :: descs <= x < descs + DESC * DESCS ==> x / PAGE != a
  {
    hide WeakInv, HeapPage;
    ArenaCovered(h, live, a);
  }

  /** The i-th block is not on the list yet, and appending it is the next step. */
  lemma NextBlock(m: Mem, descs: nat, h: Heap, d: nat, a: nat, i: nat)
    requires Laid(descs, h) && d < DESCS && i < PerArena(d) && |h.free| == DESCS && h.free[d] == Blocks(a, d, PerArena(d)) && Distinct(h.free[d])
    requires Stands(m, descs, WithList(h, d, Blocks(a, d, i)))
    ensures ListIs(m, descs, d, Blocks(a, d, i)) && Tail(descs, d) !in Blocks(a, d, i) && Arena2Block(a, d, i) !in Blocks(a, d, i)
    ensures Stands(Insert(m, Tail(descs, d), Arena2Block(a, d, i)), descs, WithList(h, d, Blocks(a, d, i + 1)))
  {
    hide Stands, ListIs, Insert, Arena2Block, PerArena;
    var s, b := Blocks(a, d, i), Arena2Block(a, d, i);
    ThatList(m, descs, h, d, s);
    assert s + [b] == h.free[d][..i + 1] == Blocks(a, d, i + 1);
    assert forall j :: 0 <= j < i + 1 ==> (s + [b])[j] == h.free[d][j];
    AppendStands(m, descs, h, d, s, b);
  }

  lemma FirstNode(m: Mem, descs: nat, h: Heap, d: nat)
    requires Stands(m, descs, h) && d < DESCS == |h.free| && h.free[d] != []
    ensures Word(m, NextOf(Head(descs, d))) == h.free[d][0]
  {
    var nodes := Chain(descs, d, h.free[d]);
    assert ListIs(m, descs, d, h.free[d]);
    assert Word(m, NextOf(nodes[0])) == nodes[1];
  }

  lemma FirstUnlinked(m: Mem, descs: nat, h: Heap, live: Live, d: nat)
    requires Stands(m, descs, h) && WeakInv(h, live) && Laid(descs, h) && d < DESCS == |h.free| && h.free[d] != []
    ensures Stands(Unlink(m, h.free[d][0]), descs, WithList(h, d, h.free[d][1..])) && Laid(descs, WithList(h, d, h.free[d][1..]))
  {
    hide Stands, Laid, Unlink, ArenaInv, LiveInv, IsBlock;
    assert ListInv(h, d);
    SameList(h, d);
    UnlinkStands(m, descs, h, d, h.free[d], 0);
    assert h.free[d][..0] + h.free[d][1..] == h.free[d][1..];
    LaidFewer(descs, h, WithList(h, d, h.free[d][1..]));
  }

  /** What the code reads from the header of a small arena. */
  lemma CountRead(m: Mem, descs: nat, h: Heap, a: nat)
    requires Stands(m, descs, h) && a in h.arenas && h.arenas[a].Small?
    ensures Word(m, a * PAGE + 4) == h.arenas[a].cnt && Word(m, a * PAGE) == DescAt(descs, h.arenas[a].desc)
    ensures Word(m, a * PAGE + 8) == 0
  {
    hide ListIs, DescIs;
    assert HeaderIs(m, descs, a, h.arenas[a]);
  }

  /** One word of a small arena's header: its count. */
  lemma CountWritten(m: Mem, descs: nat, h: Heap, a: nat, cnt: nat)
    requires Stands(m, descs, h) && Laid(descs, h) && a in h.arenas && h.arenas[a].Small?
    ensures Stands(m[a * PAGE + 4 := cnt], descs, h.(arenas := h.arenas[a := Small(h.arenas[a].desc, cnt)]))
  {
    hide ListIs, DescIs, Laid;
    assert HeaderIs(m, descs, a, h.arenas[a]);
    var m' := m[a * PAGE + 4 := cnt];
    StandsFewer(m, descs, h, a);
    HeaderStands(m, m', descs, h, a, Small(h.arenas[a].desc, cnt));
  }

  lemma SizePositive(d: nat)
    ensures BlockSize(d) > 0
  {
  }

  lemma EmptyLinked(m: Mem, descs: nat, d: nat)
    requires Word(m, NextOf(Head(descs, d))) == Tail(descs, d) && Word(m, PrevOf(Tail(descs, d))) == Head(descs, d)
    ensures Linked(m, Chain(descs, d, []))
  {
  }

  lemma EmptyKept(m: Mem, m': Mem, descs: nat, e: nat)
    requires DescIs(m, descs, e) && ListIs(m, descs, e, [])
    requires forall y :: DescAt(descs, e) <= y < DescAt(descs, e) + DESC ==> Word(m', y) == Word(m, y)
    ensures DescIs(m', descs, e) && ListIs(m', descs, e, [])
  {
    var nodes := Chain(descs, e, []);
    assert Word(m, NextOf(nodes[0])) == nodes[1] && Word(m, PrevOf(nodes[1])) == nodes[0];
  }

  /** The kernel's descriptors are below its heap; a process's are in its thread structure, above all user pages. */
  predicate DescPlace(descs: nat, id: Id) {
    if id.Kernel? then 0 < descs && descs + DESC * DESCS <= K_HEAP * PAGE else (USER_BASE + USER_BITS) * PAGE <= descs
  }

  lemma PlaceOutside(w: World, h: Heap, id: Id, descs: nat)
    requires Inv(w) && Backed(w, h, id) && DescPlace(descs, id)
    ensures Outside(descs, h)
  {
    hide HeapPage, Owned, Covered;
    if id.User? {
      assert ProcInv(w, w.procs[id.pid]);
    }
    forall x: nat | descs <= x < descs + DESC * DESCS
      ensures !HeapPage(h, x / PAGE)
    {
      assert HeapPage(h, x / PAGE) ==> x / PAGE in SpaceOf(w, id).pages;
    }
  }

  /** What malloc_page answers, as a page number. */
  function PagesGot(w: World, id: Id, n: nat): Outcome<Option<nat>>
    requires Has(w, id)
  {
    match MallocPage(w, id, n) case Panic(e) => Panic(e) case Ok((_, v)) => Ok(v)
  }

  lemma LargePages(m: Mem, descs: nat, h: Heap, live: Live, a: nat, n: nat, size: nat)
    requires Stands(m, descs, h) && HeapInv(h, live) && n >= 1 && HEADER + size <= n * PAGE
    requires (forall u :: a <= u < a + n ==> !HeapPage(h, u)) && Outside(descs, AddLarge(h, a, n))
    ensures Stands(SetHeader(Zeroed(m, a, n), descs, a, Large(n)), descs, AddLarge(h, a, n))
  {
    hide Stands, WeakInv, NoneFull, HeapPage, Laid, SetHeader, Zeroed, Outside, Covers;
    var h1 := AddLarge(h, a, n);
    AddLargeInv(h, live, a, n, size);
    AddLargePages(h, live, a, n);
    SoundLaid(descs, h1, live[a * PAGE + HEADER := size]);
    RangeOutside(descs, h1, a, n);
    FreshPages(m, descs, h, live, a, n);
    NotThere(h, live, a);
    HeaderSet(Zeroed(m, a, n), descs, a, Large(n));
    assert h1.(arenas := h1.arenas - {a}) == h;
    assert h1.arenas[a := Large(n)] == h1.arenas;
    HeaderStands(Zeroed(m, a, n), SetHeader(Zeroed(m, a, n), descs, a, Large(n)), descs, h1, a, Large(n));
  }

  lemma RangeOutside(descs: nat, h: Heap, a: nat, n: nat)
    requires Outside(descs, h) && forall u: nat :: a <= u < a + n ==> HeapPage(h, u)
    ensures forall x: nat :: descs <= x < descs + DESC * DESCS ==> !(a <= x / PAGE < a + n)
  {
    hide HeapPage;
    forall x: nat | descs <= x < descs + DESC * DESCS
      ensures !(a <= x / PAGE < a + n)
    {
      assert !HeapPage(h, x / PAGE);
    }
  }

  lemma LargeReady(w: World, h: Heap, id: Id, live: Live, size: nat, descs: nat)
    requires Sound(w, h, id, live) && DescPlace(descs, id)
    ensures HeapInv(h, live)
    ensures match MallocPage(w, id, PagesFor(size))
            case Panic(_) => true
            case Ok((_, None)) => true
            case Ok((_, Some(a))) => (forall u :: a <= u < a + PagesFor(size) ==> !HeapPage(h, u)) && Outside(descs, AddLarge(h, a, PagesFor(size)))
  {
    hide Inv, HeapInv, HeapPage, DescPlace, Outside, Placed, IsFirstFit;
    var n := PagesFor(size);
    MallocPageCorrect(w, id, n);
    MallocLargeSound(w, h, id, live, size);
    var r := MallocPage(w, id, n);
    if r.Ok? && r.value.1.Some? {
      PlacedFresh(w, r.value.0, h, id, r.value.1.value, n);
      PlaceOutside(r.value.0, AddLarge(h, r.value.1.value, n), id, descs);
    }
  }

  lemma SmallReady(w: World, h: Heap, id: Id, live: Live, d: nat, descs: nat)
    requires Sound(w, h, id, live) && DescPlace(descs, id) && d < DESCS && |h.free| == DESCS
    ensures HeapInv(h, live) && Outside(descs, h) && Laid(descs, h)
    ensures h.free[d] == [] && MallocPage(w, id, 1).Ok? ==>
              MallocPage(w, id, 1).value.1.Some? && !HeapPage(h, MallocPage(w, id, 1).value.1.value)
    ensures match Refill(w, h, id, d)
            case Panic(_) => true
            case Ok((_, h1)) => WeakInv(h1, live) && Outside(descs, h1) && |h1.free| == DESCS && h1.free[d] != [] && CanTake(h1, d)
  {
    hide Inv, WeakInv, NoneFull, HeapPage, DescPlace, Outside, Placed, IsFirstFit, Laid, CanTake;
    PlaceOutside(w, h, id, descs);
    SoundLaid(descs, h, live);
    MallocPageCorrect(w, id, 1);
    RefillSound(w, h, id, live, d);
    var page, r := MallocPage(w, id, 1), Refill(w, h, id, d);
    if h.free[d] == [] && page.Ok? {
      PlacedFresh(w, page.value.0, h, id, page.value.1.value, 1);
    }
    if r.Ok? {
      PlaceOutside(r.value.0, r.value.1, id, descs);
      FreeListsCount(r.value.1, live);
      CanTakeBlock(r.value.1, live, d);
    }
  }

  lemma ReadList(m: Mem, descs: nat, h: Heap, d: nat)
    requires Stands(m, descs, h) && Laid(descs, h) && d < DESCS == |h.free|
    ensures ListIs(m, descs, d, h.free[d]) && Tail(descs, d) !in h.free[d]
  {
    hide ListIs;
  }

  /** What sys_free needs of a live pointer's arena: the two first tests tell a large one from a small one. */
  lemma FreeParts(w: World, h: Heap, id: Id, live: Live, p: nat, descs: nat, m: Mem)
    requires Stands(m, descs, h) && Sound(w, h, id, live) && DescPlace(descs, id) && p in live && CanFree(w, h, id, p)
    ensures HeapInv(h, live) && Outside(descs, h) && |h.free| == DESCS
    ensures var a := Block2Arena(p);
            && (Word(m, a * PAGE) == 0 && Word(m, a * PAGE + 8) == 1 <==> h.arenas[a].Large?)
            && (h.arenas[a].Large? ==> Word(m, a * PAGE + 4) == h.arenas[a].cnt >= 1)
            && (h.arenas[a].Small? ==>
                  && IsSmallBlock(h, p) && h.arenas[a].desc < DESCS
                  && WeakInv(GiveBlock(h, p), live - {p}) && Outside(descs, GiveBlock(h, p)))
            && (h.arenas[a].Small? && GiveBlock(h, p).arenas[a].cnt == PerArena(h.arenas[a].desc) ==>
                  AllFound(GiveBlock(h, p), a, h.arenas[a].desc))
  {
    hide Inv, WeakInv, NoneFull, HeapPage, DescPlace, Outside, ListIs, DescIs, Mapped, AllFound, PerArena;
    PlaceOutside(w, h, id, descs);
    NotZero(descs, h);
    var a := Block2Arena(p);
    assert HeaderIs(m, descs, a, h.arenas[a]);
    if h.arenas[a].Large? {
      LargeNotEmpty(h, live, a);
    } else {
      GiveInv(h, live, p);
      SameHeapPages(h, GiveBlock(h, p));
      OutsideSame(descs, h, GiveBlock(h, p));
      if GiveBlock(h, p).arenas[a].cnt == PerArena(h.arenas[a].desc) {
        AllFoundFull(GiveBlock(h, p), live - {p}, a, h.arenas[a].desc);
      }
    }
  }
}
