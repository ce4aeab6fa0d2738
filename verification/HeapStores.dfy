/**
  Client stores on the machine: a store goes through the current directory to a word of physical
  memory.  Inside a block that the client holds it reaches that block's word in the client's own
  address space, and no word of a page table, a header, a free list or a descriptor of any heap.
 */
module HeapStores {
  import opened Outcomes
  import opened Paging
  import opened AddressSpaces
  import opened PageAllocation
  import opened PageTables
  import opened Arenas
  import opened Heaps
  import opened HeapRuns
  import opened HeapMemory
  import W = HeapWords

  /** The frame behind page v in the address space of id: the kernel's image, its heap, or the process's own page. */
  function FrameAt(w: World, id: Id, v: nat): Option<nat>
    requires Has(w, id)
  {
    if KERNEL_HALF <= v < K_HEAP then Some(v - KERNEL_HALF)
    else if v in SpaceOf(w, id).pages then Some(SpaceOf(w, id).pages[v])
    else if v in w.kern.pages then Some(w.kern.pages[v])
    else None
  }

  /** mem holds the words that the machine's memory shows in the address space of id. */
  ghost predicate Shows(m: Phys, w: World, id: Id, mem: W.Mem)
    requires Has(w, id)
  {
    forall x: nat :: x % 4 == 0 && FrameAt(w, id, x / PAGE).Some? ==>
      W.Word(mem, x) == Entry(m, FrameAt(w, id, x / PAGE).value, x % PAGE / 4)
  }

  /** The frame of a page shows nowhere else: only at that page, and elsewhere only if the page is the kernel's. */
  lemma OnlyFrame(w: World, id: Id, u: nat, j: Id, v: nat)
    requires Owned(w) && Has(w, id) && Has(w, j) && u in SpaceOf(w, id).pages && FrameAt(w, j, v) == Some(SpaceOf(w, id).pages[u])
    ensures v == u && (j == id || id.Kernel?)
  {
    var f := SpaceOf(w, id).pages[u];
    assert Owns(w, PageOwner(id, u), f);
    assert f >= KERNEL_FRAMES;
    if v in SpaceOf(w, j).pages && !(KERNEL_HALF <= v < K_HEAP) {
      assert Owns(w, PageOwner(j, v), SpaceOf(w, j).pages[v]);
    } else if v in w.kern.pages {
      assert Owns(w, KernelPage(v), w.kern.pages[v]);
    }
  }

  lemma PageRanges(w: World, id: Id, v: nat)
    requires Inv(w) && Has(w, id) && v in SpaceOf(w, id).pages
    ensures if id.Kernel? then K_HEAP <= v < K_TOP else v < KERNEL_HALF
  {
    hide Owned, Covered;
    if id.User? {
      assert ProcInv(w, w.procs[id.pid]);
    }
  }

  /** A page of id shows in the space of j: its own, and a kernel page everywhere. */
  lemma ShowsPage(w: World, id: Id, j: Id, v: nat)
    requires Inv(w) && Has(w, id) && Has(w, j) && v in SpaceOf(w, id).pages && (j == id || id.Kernel?)
    ensures FrameAt(w, j, v) == Some(SpaceOf(w, id).pages[v])
  {
    hide Inv;
    PageRanges(w, id, v);
    if v in SpaceOf(w, j).pages {
      PageRanges(w, j, v);
    }
  }

  function Stored(m: Phys, w: World, id: Id, x: nat, word: nat): Phys
    requires Has(w, id) && x / PAGE in SpaceOf(w, id).pages
  {
    Put(m, SpaceOf(w, id).pages[x / PAGE], x % PAGE / 4, word)
  }

  /** A store to a page of id is a store of that word in every space that shows the page, and none in the others. */
  lemma StoreShown(m: Phys, w: World, id: Id, j: Id, x: nat, word: nat, mem: W.Mem)
    requires Inv(w) && Has(w, id) && Has(w, j) && x % 4 == 0 && x / PAGE in SpaceOf(w, id).pages && Shows(m, w, j, mem)
    ensures Shows(Stored(m, w, id, x, word), w, j, if j == id || id.Kernel? then mem[x := word] else mem)
  {
    hide Covered, SpaceInv, ProcInv, Put, FrameAt, Entry;
    var m', mem' := Stored(m, w, id, x, word), if j == id || id.Kernel? then mem[x := word] else mem;
    if j == id || id.Kernel? {
      ShowsPage(w, id, j, x / PAGE);
    }
    forall y: nat | y % 4 == 0 && FrameAt(w, j, y / PAGE).Some?
      ensures W.Word(mem', y) == Entry(m', FrameAt(w, j, y / PAGE).value, y % PAGE / 4)
    {
      if FrameAt(w, j, y / PAGE).value == SpaceOf(w, id).pages[x / PAGE] {
        OnlyFrame(w, id, x / PAGE, j, y / PAGE);
        SameWord(x, y);
      } else {
        assert y != x || !(j == id || id.Kernel?);
      }
    }
  }

  lemma SameWord(x: nat, y: nat)
    requires x % 4 == 0 && y % 4 == 0 && x / PAGE == y / PAGE
    ensures x % PAGE / 4 == y % PAGE / 4 <==> x == y
  {
    WordOffset(x);
    WordOffset(y);
  }

  lemma WordOffset(x: nat)
    requires x % 4 == 0
    ensures x == x / PAGE * PAGE + x % PAGE / 4 * 4
  {
    var k := x / 4;
    assert x == 4 * k && k == k / 1024 * 1024 + k % 1024;
    assert x / PAGE == k / 1024 && x % PAGE == k % 1024 * 4;
  }

  ghost predicate Runner(cur: Option<Pid>, id: Id) {
    id == if cur.None? then Kernel else User(cur.value)
  }

  /** The store goes where the page is mapped, and page tables and directories stay. */
  lemma StoreReaches(m: Phys, w: World, cur: Option<Pid>, d: nat, id: Id, x: nat, word: nat)
    requires Inv(w) && PageTables.Stands(m, w, cur, d) && Runner(cur, id) && Has(w, id) && x / PAGE in SpaceOf(w, id).pages
    requires id.Kernel? ==> forall p <- w.procs :: w.procs[p].dir != x / PAGE
    ensures x < VLIMIT && Walk(m, d, x) == Some(Loc(SpaceOf(w, id).pages[x / PAGE], x % PAGE))
    ensures PageTables.Stands(Stored(m, w, id, x, word), w, cur, d)
  {
    hide Inv, Shape, Refines, Walk, Structural;
    PageRanges(w, id, x / PAGE);
    if id.Kernel? {
      TranslateKernel(m, w, cur, x);
    } else {
      TranslateUser(m, w, id.pid, x);
    }
    DataPage(w, id, x / PAGE);
    DataWrite(m, Stored(m, w, id, x, word), w, SpaceOf(w, id).pages[x / PAGE]);
  }

  /** The words of j's heap are in memory, at j's addresses. */
  ghost predicate InMemory(m: Phys, w: World, j: Id, descs: nat, h: Heap, mem: W.Mem) {
    Has(w, j) && Shows(m, w, j, mem) && W.Stands(mem, descs, h)
  }

  /**
    A store by the running client to a word of a block it holds, with the machine's memory standing for
    the world and for the client's heap: it reaches the block, and memory then still stands for both.
   */
  lemma ClientWrites(m: Phys, w: World, cur: Option<Pid>, d: nat, id: Id, h: Heap, live: Live, descs: nat, mem: W.Mem, p: nat, x: nat, word: nat)
    requires PageTables.Stands(m, w, cur, d) && Runner(cur, id) && Sound(w, h, id, live) && DescPlace(descs, id) && InMemory(m, w, id, descs, h, mem)
    requires p in live && p <= x < p + Capacity(h, p) && x % 4 == 0
    ensures x / PAGE in SpaceOf(w, id).pages && x < VLIMIT && Walk(m, d, x) == Some(Loc(SpaceOf(w, id).pages[x / PAGE], x % PAGE))
    ensures var m' := Stored(m, w, id, x, word);
            PageTables.Stands(m', w, cur, d) && InMemory(m', w, id, descs, h, mem[x := word])
  {
    hide Inv, HeapInv, HeapPage, PageTables.Stands, W.Stands, Shows, Capacity, Stored, Walk, DescPlace;
    BlockPage(w, h, id, live, p, x);
    StoreReaches(m, w, cur, d, id, x, word);
    StoreShown(m, w, id, id, x, word, mem);
    PlaceOutside(w, h, id, descs);
    W.ClientStore(mem, descs, h, live, p, x, word);
  }

  lemma BlockPage(w: World, h: Heap, id: Id, live: Live, p: nat, x: nat)
    requires Sound(w, h, id, live) && p in live && p <= x < p + Capacity(h, p)
    ensures Has(w, id) && HeapPage(h, x / PAGE) && x / PAGE in SpaceOf(w, id).pages
    ensures id.Kernel? ==> forall q <- w.procs :: w.procs[q].dir != x / PAGE
  {
    hide Inv, WeakInv, Capacity, Covers;
    LiveBytes(h, live, p);
    assert Covers(h, Block2Arena(p), x / PAGE);
  }

  /**
    Such a store by id leaves the headers, links and descriptors of every other heap j alone, as long as
    j's descriptors are on no page of id's heap.
   */
  lemma OthersUntouched(m: Phys, w: World, id: Id, h: Heap, live: Live, p: nat, x: nat, word: nat,
                        j: Id, k: Heap, lives: Live, descs: nat, mem: W.Mem)
    requires Sound(w, h, id, live) && p in live && p <= x < p + Capacity(h, p) && x % 4 == 0
    requires j != id && Sound(w, k, j, lives) && InMemory(m, w, j, descs, k, mem) && W.Outside(descs, h)
    ensures Has(w, id) && x / PAGE in SpaceOf(w, id).pages
    ensures InMemory(Stored(m, w, id, x, word), w, j, descs, k, if id.Kernel? then mem[x := word] else mem)
  {
    hide Inv, WeakInv, NoneFull, HeapPage, W.Stands, Shows, Capacity, Stored, W.Used, W.Outside;
    BlockPage(w, h, id, live, p, x);
    StoreShown(m, w, id, j, x, word, mem);
    if id.Kernel? {
      PageRanges(w, id, x / PAGE);
      forall y: nat | W.Used(descs, k, y)
        ensures y != x
      {
        W.UsedPlace(descs, k, lives, y);
        NotThePage(descs, h, x);
        if HeapPage(k, y / PAGE) {
          PageRanges(w, j, y / PAGE);
        }
      }
      W.SameWords(mem, mem[x := word], descs, k);
    }
  }

  lemma NotThePage(descs: nat, h: Heap, x: nat)
    requires W.Outside(descs, h) && HeapPage(h, x / PAGE)
    ensures !(descs <= x < descs + W.DESC * DESCS)
  {
    hide HeapPage;
  }

  /** After any run, with the words in place, whatever a client stores in its blocks leaves its heap and all translations in place. */
  lemma RunStore(lim: Limits, all_mem: nat, cs: seq<Conf>, es: seq<Event>, m: Phys, cur: Option<Pid>, d: nat, id: Id,
                 descs: nat, mem: W.Mem, p: nat, x: nat, word: nat)
    requires HeapRuns.IsRun(lim, all_mem, cs, es) && Runner(cur, id) && DescPlace(descs, id) && x % 4 == 0
    requires PageTables.Stands(m, cs[|es|].w, cur, d) && id in cs[|es|].hs && InMemory(m, cs[|es|].w, id, descs, cs[|es|].hs[id], mem)
    requires id in cs[|es|].lives && p in cs[|es|].lives[id] && p <= x < p + Capacity(cs[|es|].hs[id], p)
    ensures var w := cs[|es|].w;
            && x / PAGE in SpaceOf(w, id).pages && x < VLIMIT && Walk(m, d, x) == Some(Loc(SpaceOf(w, id).pages[x / PAGE], x % PAGE))
            && PageTables.Stands(Stored(m, w, id, x, word), w, cur, d)
            && InMemory(Stored(m, w, id, x, word), w, id, descs, cs[|es|].hs[id], mem[x := word])
  {
    hide HeapRuns.IsRun, All, Sound, PageTables.Stands, InMemory, Walk, Stored, Capacity, DescPlace;
    RunLength(lim, all_mem, cs, es);
    RunSound(lim, all_mem, cs, es, |es|);
    SoundHere(cs[|es|], id);
    ClientWrites(m, cs[|es|].w, cur, d, id, cs[|es|].hs[id], cs[|es|].lives[id], descs, mem, p, x, word);
  }
}
