/**
  The arena allocator on words of memory: headers at the start of arena pages, free lists linked
  through the first two words of the free blocks, and the array of block descriptors.  The memory is
  that of one address space.  A client may write anything inside the blocks it holds.
 */
module HeapWords {
  import opened Outcomes
  import opened Arenas

  /** Words by address; a word that was never written reads as zero. */
  type Mem = map<nat, nat>

  function Word(m: Mem, x: nat): nat {
    if x in m then m[x] else 0
  }

  // ----- Linked lists in words -------------------------------------------------------------------

  /** struct list_node: prev, then next. */
  function PrevOf(x: nat): nat { x }

  function NextOf(x: nat): nat { x + 4 }

  /** Neighbours point at each other. */
  ghost predicate Linked(m: Mem, nodes: seq<nat>) {
    forall i :: 0 <= i < |nodes| - 1 ==> Word(m, NextOf(nodes[i])) == nodes[i + 1] && Word(m, PrevOf(nodes[i + 1])) == nodes[i]
  }

  predicate Gap(x: nat, y: nat) {
    x + 8 <= y || y + 8 <= x
  }

  /** No two nodes overlap. */
  ghost predicate Spaced(nodes: seq<nat>) {
    forall i, j :: 0 <= i < j < |nodes| ==> Gap(nodes[i], nodes[j])
  }

  /** list_insert_before */
  function Insert(m: Mem, before: nat, node: nat): Mem {
    var m1 := m[NextOf(Word(m, PrevOf(before))) := node];
    var m2 := m1[PrevOf(node) := Word(m1, PrevOf(before))];
    var m3 := m2[NextOf(node) := before];
    m3[PrevOf(before) := node]
  }

  /** list_remove */
  function Unlink(m: Mem, node: nat): Mem {
    var m1 := m[NextOf(Word(m, PrevOf(node))) := Word(m, NextOf(node))];
    m1[PrevOf(Word(m1, NextOf(node))) := Word(m1, PrevOf(node))]
  }

  /** The four words written are links of the neighbours and of the node. */
  lemma InsertWrites(m: Mem, nodes: seq<nat>, k: nat, node: nat)
    requires Linked(m, nodes) && Spaced(nodes) && 1 <= k < |nodes| && forall x <- nodes :: Gap(x, node)
    ensures var m' := Insert(m, nodes[k], node);
            forall x :: Word(m', x) == if x == NextOf(nodes[k - 1]) then node else if x == PrevOf(node) then nodes[k - 1]
                                       else if x == NextOf(node) then nodes[k] else if x == PrevOf(nodes[k]) then node else Word(m, x)
  {
    assert Word(m, NextOf(nodes[k - 1])) == nodes[k];
    assert Gap(nodes[k - 1], nodes[k]) && Gap(nodes[k - 1], node) && Gap(nodes[k], node);
  }

  lemma InsertLinked(m: Mem, nodes: seq<nat>, k: nat, node: nat)
    requires Linked(m, nodes) && Spaced(nodes) && 1 <= k < |nodes| && forall x <- nodes :: Gap(x, node)
    ensures Linked(Insert(m, nodes[k], node), nodes[..k] + [node] + nodes[k..])
  {
    hide Insert;
    InsertWrites(m, nodes, k, node);
    var m', all := Insert(m, nodes[k], node), nodes[..k] + [node] + nodes[k..];
    forall i | 0 <= i < |all| - 1
      ensures Word(m', NextOf(all[i])) == all[i + 1] && Word(m', PrevOf(all[i + 1])) == all[i]
    {
      if i < k - 1 {
        assert all[i] == nodes[i] && all[i + 1] == nodes[i + 1];
        assert Gap(nodes[i], nodes[k - 1]) && Gap(nodes[i], node) && Gap(nodes[i + 1], node);
        assert Gap(nodes[i], nodes[k]) && Gap(nodes[i + 1], nodes[k]);
        assert i + 1 < k - 1 ==> Gap(nodes[i + 1], nodes[k - 1]);
      } else if i <= k {
        assert Gap(nodes[k - 1], node) && Gap(nodes[k], node) && Gap(nodes[k - 1], nodes[k]);
      } else {
        assert all[i] == nodes[i - 1] && all[i + 1] == nodes[i];
        assert Gap(nodes[k - 1], nodes[i - 1]) && Gap(nodes[k - 1], nodes[i]) && Gap(nodes[i - 1], node) && Gap(nodes[i], node);
        assert Gap(nodes[k], nodes[i]) && (k < i - 1 ==> Gap(nodes[k], nodes[i - 1]));
      }
    }
  }

  /** The two words written are links of the neighbours. */
  lemma UnlinkWrites(m: Mem, nodes: seq<nat>, k: nat)
    requires Linked(m, nodes) && Spaced(nodes) && 1 <= k < |nodes| - 1
    ensures var m' := Unlink(m, nodes[k]);
            forall x :: Word(m', x) == if x == NextOf(nodes[k - 1]) then nodes[k + 1] else if x == PrevOf(nodes[k + 1]) then nodes[k - 1] else Word(m, x)
  {
    assert Word(m, NextOf(nodes[k - 1])) == nodes[k] && Word(m, NextOf(nodes[k])) == nodes[k + 1];
    assert Gap(nodes[k - 1], nodes[k]) && Gap(nodes[k - 1], nodes[k + 1]) && Gap(nodes[k], nodes[k + 1]);
  }

  lemma UnlinkLinked(m: Mem, nodes: seq<nat>, k: nat)
    requires Linked(m, nodes) && Spaced(nodes) && 1 <= k < |nodes| - 1
    ensures Linked(Unlink(m, nodes[k]), nodes[..k] + nodes[k + 1..])
  {
    hide Unlink;
    UnlinkWrites(m, nodes, k);
    var m', rest := Unlink(m, nodes[k]), nodes[..k] + nodes[k + 1..];
    forall i | 0 <= i < |rest| - 1
      ensures Word(m', NextOf(rest[i])) == rest[i + 1] && Word(m', PrevOf(rest[i + 1])) == rest[i]
    {
      if i < k - 1 {
        assert Gap(nodes[i], nodes[k - 1]) && Gap(nodes[i], nodes[k + 1]) && Gap(nodes[i + 1], nodes[k + 1]);
        assert i + 1 < k - 1 ==> Gap(nodes[i + 1], nodes[k - 1]);
      } else if k <= i {
        assert Gap(nodes[k - 1], nodes[i + 1]) && Gap(nodes[k - 1], nodes[i + 2]) && Gap(nodes[k + 1], nodes[i + 2]);
        assert k < i ==> Gap(nodes[k + 1], nodes[i + 1]);
      }
    }
  }

  // ----- A heap in words -----------------------------------------------------------------------------

  const DESC := 24   // sizeof(struct mem_block_desc): block_size, blocks_per_arena, and the two sentinels

  function DescAt(descs: nat, d: nat): nat { descs + DESC * d }

  function Head(descs: nat, d: nat): nat { DescAt(descs, d) + 8 }

  function Tail(descs: nat, d: nat): nat { DescAt(descs, d) + 16 }

  function Chain(descs: nat, d: nat, s: seq<nat>): seq<nat> {
    [Head(descs, d)] + s + [Tail(descs, d)]
  }

  /** struct arena: desc, cnt, large; a large arena has no descriptor. */
  ghost predicate HeaderIs(m: Mem, descs: nat, a: nat, arena: Arena) {
    match arena
    case Small(d, c) => Word(m, a * PAGE) == DescAt(descs, d) && Word(m, a * PAGE + 4) == c && Word(m, a * PAGE + 8) == 0
    case Large(n) => Word(m, a * PAGE) == 0 && Word(m, a * PAGE + 4) == n && Word(m, a * PAGE + 8) == 1
  }

  /** The header is just these three words. */
  lemma HeaderFilled(a: nat, y: nat)
    ensures y % 4 == 0 && a * PAGE <= y < a * PAGE + HEADER <==> y == a * PAGE || y == a * PAGE + 4 || y == a * PAGE + 8
  {
  }

  ghost predicate DescIs(m: Mem, descs: nat, d: nat) {
    Word(m, DescAt(descs, d)) == BlockSize(d) && Word(m, DescAt(descs, d) + 4) == PerArena(d)
  }

  ghost predicate ListIs(m: Mem, descs: nat, d: nat, s: seq<nat>) {
    Linked(m, Chain(descs, d, s)) && Word(m, PrevOf(Head(descs, d))) == 0 && Word(m, NextOf(Tail(descs, d))) == 0
  }

  /** The words of the descriptors, the headers and the free blocks say what h says. */
  ghost predicate Stands(m: Mem, descs: nat, h: Heap) {
    && |h.free| == DESCS
    && (forall d: nat :: d < DESCS ==> DescIs(m, descs, d))
    && (forall d: nat :: d < DESCS ==> ListIs(m, descs, d, h.free[d]))
    && (forall a <- h.arenas :: HeaderIs(m, descs, a, h.arenas[a]))
  }

  // ----- Where the words are ---------------------------------------------------------------------------

  /** The descriptors are on no page of the heap, and not at address 0. */
  ghost predicate Outside(descs: nat, h: Heap) {
    descs > 0 && forall x: nat :: descs <= x < descs + DESC * DESCS ==> !HeapPage(h, x / PAGE)
  }

  /** x is a node of the list of class d. */
  ghost predicate IsNode(descs: nat, h: Heap, d: nat, x: nat)
    requires |h.free| == DESCS
  {
    d < DESCS && (x == Head(descs, d) || x == Tail(descs, d) || x in h.free[d])
  }

  /** No two of these words are the same. */
  ghost predicate Laid(descs: nat, h: Heap) {
    && |h.free| == DESCS && descs > 0 && (forall d: nat :: d < DESCS ==> Head(descs, d) !in h.free[d] && Tail(descs, d) !in h.free[d])
    && (forall d, e, x, y :: IsNode(descs, h, d, x) && IsNode(descs, h, e, y) && (d != e || x != y) ==> Gap(x, y))
    && (forall d, x, a :: IsNode(descs, h, d, x) && a in h.arenas ==> Apart(x, 8, a * PAGE, HEADER))
    && (forall d, x, e: nat :: IsNode(descs, h, d, x) && e < DESCS ==> Apart(x, 8, DescAt(descs, e), 8))
    && (forall a, e: nat :: a in h.arenas && e < DESCS ==> Apart(a * PAGE, HEADER, DescAt(descs, e), 8))
  }

  /** A free block lies behind the header of its own arena's page. */
  lemma FreeBlockPlace(h: Heap, live: Live, d: nat, x: nat)
    requires WeakInv(h, live) && d < DESCS && x in h.free[d]
    ensures Block2Arena(x) in h.arenas && h.arenas[Block2Arena(x)] == Small(d, h.arenas[Block2Arena(x)].cnt) && IsBlock(x, d)
    ensures Block2Arena(x) * PAGE + HEADER <= x && x + 16 <= Block2Arena(x) * PAGE + PAGE && HeapPage(h, Block2Arena(x))
  {
    hide ArenaInv, LiveInv;
    assert ListInv(h, d);
    Block2ArenaUndoes(Block2Arena(x), d, IndexOf(x, d));
    ArenaCovered(h, live, Block2Arena(x));
    SizeAtLeast(d);
  }

  lemma SizeAtLeast(d: nat)
    ensures BlockSize(d) >= 16
  {
  }

  lemma FreeBlocksGap(h: Heap, live: Live, d: nat, x: nat, e: nat, y: nat)
    requires WeakInv(h, live) && d < DESCS && x in h.free[d] && e < DESCS && y in h.free[e] && (d != e || x != y)
    ensures Gap(x, y)
  {
    hide WeakInv, IsBlock, BlockSize;
    FreeBlockPlace(h, live, d, x);
    FreeBlockPlace(h, live, e, y);
    if Block2Arena(x) == Block2Arena(y) {
      SamePageApart(x, y, d);
      SizeAtLeast(d);
    }
  }

  /** What lies on a page of the heap is apart from the descriptors. */
  lemma DescsApart(descs: nat, h: Heap, a: nat, x: nat, n: nat, e: nat, off: nat, k: nat)
    requires Outside(descs, h) && HeapPage(h, a) && a * PAGE <= x && x + n <= a * PAGE + PAGE && e < DESCS && off + k <= DESC && n > 0 && k > 0
    ensures Apart(x, n, DescAt(descs, e) + off, k)
  {
    var y := DescAt(descs, e) + off;
    var z := if x <= y then y else x;
    PageOf(z, a);
    if descs <= z < descs + DESC * DESCS {
      assert !HeapPage(h, z / PAGE);
    }
  }

  lemma PageOf(z: nat, a: nat)
    ensures a * PAGE <= z < a * PAGE + PAGE ==> z / PAGE == a
  {
  }

  lemma SoundLaid(descs: nat, h: Heap, live: Live)
    requires WeakInv(h, live) && Outside(descs, h)
    ensures Laid(descs, h)
  {
    hide HeapPage, ListInv, ArenaInv, LiveInv, ArenasApart, Outside, Block2Arena;
    NotZero(descs, h);
    forall d: nat | d < DESCS
      ensures Head(descs, d) !in h.free[d] && Tail(descs, d) !in h.free[d]
    {
      NoSentinelFree(descs, h, live, d);
    }
    forall d, e, x, y | IsNode(descs, h, d, x) && IsNode(descs, h, e, y) && (d != e || x != y)
      ensures Gap(x, y)
    {
      NodesGap(descs, h, live, d, x, e, y);
    }
    forall d, x, a | IsNode(descs, h, d, x) && a in h.arenas
      ensures Apart(x, 8, a * PAGE, HEADER)
    {
      NodeHeader(descs, h, live, d, x, a);
    }
    forall d, x, e: nat | IsNode(descs, h, d, x) && e < DESCS
      ensures Apart(x, 8, DescAt(descs, e), 8)
    {
      NodeDesc(descs, h, live, d, x, e);
    }
    forall a, e: nat | a in h.arenas && e < DESCS
      ensures Apart(a * PAGE, HEADER, DescAt(descs, e), 8)
    {
      ArenaCovered(h, live, a);
      DescsApart(descs, h, a, a * PAGE, HEADER, e, 0, 8);
    }
  }

  lemma NoSentinelFree(descs: nat, h: Heap, live: Live, d: nat)
    requires WeakInv(h, live) && Outside(descs, h) && d < DESCS
    ensures Head(descs, d) !in h.free[d] && Tail(descs, d) !in h.free[d]
  {
    hide WeakInv, HeapPage, Block2Arena, Outside;
    FreeListsCount(h, live);
    forall x <- h.free[d]
      ensures x != Head(descs, d) && x != Tail(descs, d)
    {
      FreeBlockPlace(h, live, d, x);
      DescsApart(descs, h, Block2Arena(x), x, 8, d, 8, 16);
    }
  }

  lemma NotZero(descs: nat, h: Heap)
    requires Outside(descs, h)
    ensures descs > 0
  {
  }

  lemma NodesGap(descs: nat, h: Heap, live: Live, d: nat, x: nat, e: nat, y: nat)
    requires WeakInv(h, live) && Outside(descs, h) && IsNode(descs, h, d, x) && IsNode(descs, h, e, y) && (d != e || x != y)
    ensures Gap(x, y)
  {
    hide WeakInv, HeapPage, Block2Arena, Outside;
    FreeListsCount(h, live);
    if x in h.free[d] && y in h.free[e] {
      FreeBlocksGap(h, live, d, x, e, y);
    } else if x in h.free[d] {
      FreeBlockPlace(h, live, d, x);
      DescsApart(descs, h, Block2Arena(x), x, 8, e, y - DescAt(descs, e), 8);
    } else if y in h.free[e] {
      FreeBlockPlace(h, live, e, y);
      DescsApart(descs, h, Block2Arena(y), y, 8, d, x - DescAt(descs, d), 8);
    }
  }

  lemma NodeHeader(descs: nat, h: Heap, live: Live, d: nat, x: nat, a: nat)
    requires WeakInv(h, live) && Outside(descs, h) && IsNode(descs, h, d, x) && a in h.arenas
    ensures Apart(x, 8, a * PAGE, HEADER)
  {
    hide WeakInv, HeapPage, Block2Arena, Outside;
    FreeListsCount(h, live);
    if x in h.free[d] {
      FreeBlockPlace(h, live, d, x);
      BehindHeaders(Block2Arena(x), x, a);
    } else {
      ArenaCovered(h, live, a);
      DescsApart(descs, h, a, a * PAGE, HEADER, d, x - DescAt(descs, d), 8);
    }
  }

  lemma BehindHeaders(b: nat, x: nat, a: nat)
    requires b * PAGE + HEADER <= x && x + 8 <= b * PAGE + PAGE
    ensures Apart(x, 8, a * PAGE, HEADER)
  {
  }

  lemma NodeDesc(descs: nat, h: Heap, live: Live, d: nat, x: nat, e: nat)
    requires WeakInv(h, live) && Outside(descs, h) && IsNode(descs, h, d, x) && e < DESCS
    ensures Apart(x, 8, DescAt(descs, e), 8)
  {
    hide WeakInv, HeapPage, Block2Arena, Outside;
    FreeListsCount(h, live);
    if x in h.free[d] {
      FreeBlockPlace(h, live, d, x);
      DescsApart(descs, h, Block2Arena(x), x, 8, e, 0, 8);
    }
  }

  // ----- Writes that do not matter -----------------------------------------------------------------------

  /** The words that say what h is. */
  ghost predicate Used(descs: nat, h: Heap, x: nat) {
    || descs <= x < descs + DESC * DESCS
    || (exists a :: a in h.arenas && a * PAGE <= x < a * PAGE + HEADER)
    || (exists d: nat, b :: d < |h.free| && b in h.free[d] && b <= x < b + 8)
  }

  lemma SameWords(m: Mem, m': Mem, descs: nat, h: Heap)
    requires Stands(m, descs, h) && forall x :: Used(descs, h, x) ==> Word(m', x) == Word(m, x)
    ensures Stands(m', descs, h)
  {
    hide Linked;
    forall d: nat | d < DESCS
      ensures ListIs(m', descs, d, h.free[d]) && DescIs(m', descs, d)
    {
      assert DescIs(m, descs, d) && ListIs(m, descs, d, h.free[d]);
      assert Used(descs, h, DescAt(descs, d)) && Used(descs, h, DescAt(descs, d) + 4);
      assert Used(descs, h, Head(descs, d)) && Used(descs, h, NextOf(Tail(descs, d)));
      SameLinks(m, m', descs, h, d);
    }
    forall a <- h.arenas
      ensures HeaderIs(m', descs, a, h.arenas[a])
    {
      assert Used(descs, h, a * PAGE) && Used(descs, h, a * PAGE + 4) && Used(descs, h, a * PAGE + 8);
    }
  }

  lemma SameLinks(m: Mem, m': Mem, descs: nat, h: Heap, d: nat)
    requires d < |h.free| == DESCS && Linked(m, Chain(descs, d, h.free[d])) && forall x :: Used(descs, h, x) ==> Word(m', x) == Word(m, x)
    ensures Linked(m', Chain(descs, d, h.free[d]))
  {
    var nodes := Chain(descs, d, h.free[d]);
    forall x <- nodes
      ensures Used(descs, h, PrevOf(x)) && Used(descs, h, NextOf(x))
    {
    }
    forall i | 0 <= i < |nodes| - 1
      ensures Word(m', NextOf(nodes[i])) == nodes[i + 1] && Word(m', PrevOf(nodes[i + 1])) == nodes[i]
    {
      assert nodes[i] in nodes && nodes[i + 1] in nodes;
    }
  }

  /** Whatever a client writes inside a block it holds, the heap's own words stay. */
  lemma ClientStore(m: Mem, descs: nat, h: Heap, live: Live, p: nat, x: nat, word: nat)
    requires Stands(m, descs, h) && HeapInv(h, live) && Outside(descs, h) && p in live && p <= x < p + Capacity(h, p)
    ensures Stands(m[x := word], descs, h)
  {
    hide Stands, Capacity, BlockSize, HeapInv;
    forall y | Used(descs, h, y)
      ensures y != x
    {
      ClientApart(descs, h, live, p, x, y);
    }
    SameWords(m, m[x := word], descs, h);
  }

  lemma ClientApart(descs: nat, h: Heap, live: Live, p: nat, x: nat, y: nat)
    requires HeapInv(h, live) && Outside(descs, h) && p in live && p <= x < p + Capacity(h, p) && Used(descs, h, y)
    ensures x != y
  {
    hide Capacity, BlockSize, WeakInv, NoneFull;
    LiveBytes(h, live, p);
    assert Covers(h, Block2Arena(p), x / PAGE);
    if !(descs <= y < descs + DESC * DESCS) {
      if a :| a in h.arenas && a * PAGE <= y < a * PAGE + HEADER {
        LiveApartFromHeaders(h, live, p, a);
      } else {
        var d: nat, b :| d < |h.free| && b in h.free[d] && b <= y < b + 8;
        FreeListsCount(h, live);
        LiveApartFromFree(h, live, p, d, b);
        SizeAtLeast(d);
      }
    } else {
      assert !HeapPage(h, y / PAGE);
    }
  }

  // ----- Writes to one list or one header ------------------------------------------------------------------

  /** y is in a node of the list of class d. */
  ghost predicate InNode(descs: nat, h: Heap, d: nat, y: nat)
    requires |h.free| == DESCS
  {
    exists z: nat :: IsNode(descs, h, d, z) && z <= y < z + 8
  }

  function WithList(h: Heap, d: nat, s: seq<nat>): Heap
    requires d < |h.free|
  {
    h.(free := h.free[d := s])
  }

  /** Writes to the nodes of one list change nothing that other lists, headers and descriptors say. */
  lemma OneList(m: Mem, m': Mem, descs: nat, h: Heap, d: nat, s: seq<nat>, s': seq<nat>)
    requires Laid(descs, h) && d < DESCS == |h.free| && Stands(m, descs, WithList(h, d, s)) && ListIs(m', descs, d, s')
    requires forall y :: !InNode(descs, h, d, y) ==> Word(m', y) == Word(m, y)
    ensures Stands(m', descs, WithList(h, d, s'))
  {
    hide ListIs, Laid;
    forall e: nat | e < DESCS
      ensures DescIs(m', descs, e) && ListIs(m', descs, e, WithList(h, d, s').free[e])
    {
      assert DescIs(m, descs, e) && ListIs(m, descs, e, WithList(h, d, s).free[e]);
      DescKept(m, m', descs, h, d, e);
      if e != d {
        OtherList(m, m', descs, h, d, e);
      }
    }
    forall a <- h.arenas
      ensures HeaderIs(m', descs, a, h.arenas[a])
    {
      HeaderKept(m, m', descs, h, d, a);
    }
  }

  lemma DescKept(m: Mem, m': Mem, descs: nat, h: Heap, d: nat, e: nat)
    requires Laid(descs, h) && d < DESCS && e < DESCS && DescIs(m, descs, e)
    requires forall y :: !InNode(descs, h, d, y) ==> Word(m', y) == Word(m, y)
    ensures DescIs(m', descs, e)
  {
    var y := DescAt(descs, e);
    assert !InNode(descs, h, d, y) && !InNode(descs, h, d, y + 4);
  }

  lemma HeaderKept(m: Mem, m': Mem, descs: nat, h: Heap, d: nat, a: nat)
    requires Laid(descs, h) && d < DESCS && a in h.arenas && HeaderIs(m, descs, a, h.arenas[a])
    requires forall y :: !InNode(descs, h, d, y) ==> Word(m', y) == Word(m, y)
    ensures HeaderIs(m', descs, a, h.arenas[a])
  {
    var y := a * PAGE;
    assert !InNode(descs, h, d, y) && !InNode(descs, h, d, y + 4) && !InNode(descs, h, d, y + 8);
  }

  lemma OtherList(m: Mem, m': Mem, descs: nat, h: Heap, d: nat, e: nat)
    requires Laid(descs, h) && d < DESCS && e < DESCS && e != d && ListIs(m, descs, e, h.free[e])
    requires forall y :: !InNode(descs, h, d, y) ==> Word(m', y) == Word(m, y)
    ensures ListIs(m', descs, e, h.free[e])
  {
    var nodes := Chain(descs, e, h.free[e]);
    forall x <- nodes
      ensures Word(m', PrevOf(x)) == Word(m, PrevOf(x)) && Word(m', NextOf(x)) == Word(m, NextOf(x))
    {
      NodeKept(m, m', descs, h, d, e, x);
    }
    assert Head(descs, e) in nodes && Tail(descs, e) in nodes;
    forall i | 0 <= i < |nodes| - 1
      ensures Word(m', NextOf(nodes[i])) == nodes[i + 1] && Word(m', PrevOf(nodes[i + 1])) == nodes[i]
    {
      assert nodes[i] in nodes && nodes[i + 1] in nodes;
    }
  }

  lemma NodeKept(m: Mem, m': Mem, descs: nat, h: Heap, d: nat, e: nat, x: nat)
    requires Laid(descs, h) && d != e && IsNode(descs, h, e, x)
    requires forall y :: !InNode(descs, h, d, y) ==> Word(m', y) == Word(m, y)
    ensures Word(m', PrevOf(x)) == Word(m, PrevOf(x)) && Word(m', NextOf(x)) == Word(m, NextOf(x))
  {
    hide IsNode;
    forall z: nat | IsNode(descs, h, d, z)
      ensures Gap(z, x)
    {
    }
    assert !InNode(descs, h, d, PrevOf(x)) && !InNode(descs, h, d, NextOf(x));
  }

  /** The nodes of a list never overlap. */
  lemma ChainSpaced(descs: nat, h: Heap, d: nat, s: seq<nat>)
    requires Laid(descs, h) && d < DESCS && Distinct(s) && forall x <- s :: x in h.free[d]
    ensures Spaced(Chain(descs, d, s))
    ensures forall x <- Chain(descs, d, s) :: IsNode(descs, h, d, x)
  {
    var nodes := Chain(descs, d, s);
    forall i | 0 <= i < |nodes|
      ensures IsNode(descs, h, d, nodes[i])
    {
      assert 0 < i <= |s| ==> nodes[i] == s[i - 1] && s[i - 1] in s;
    }
    forall i, j | 0 <= i < j < |nodes|
      ensures Gap(nodes[i], nodes[j])
    {
      NodesDistinct(descs, h, d, s, i, j);
    }
  }

  lemma NodesDistinct(descs: nat, h: Heap, d: nat, s: seq<nat>, i: nat, j: nat)
    requires Laid(descs, h) && d < DESCS && Distinct(s) && (forall x <- s :: x in h.free[d]) && i < j < |s| + 2
    ensures Gap(Chain(descs, d, s)[i], Chain(descs, d, s)[j])
  {
    var nodes := Chain(descs, d, s);
    var x, y := nodes[i], nodes[j];
    assert i > 0 ==> x == s[i - 1] && s[i - 1] in s;
    assert j <= |s| ==> y == s[j - 1] && s[j - 1] in s;
    assert IsNode(descs, h, d, x) && IsNode(descs, h, d, y);
  }

  /** list_append */
  lemma AppendStands(m: Mem, descs: nat, h: Heap, d: nat, s: seq<nat>, b: nat)
    requires Laid(descs, h) && d < DESCS && Distinct(s + [b]) && (forall x <- s + [b] :: x in h.free[d])
    requires Stands(m, descs, WithList(h, d, s))
    ensures Stands(Insert(m, Tail(descs, d), b), descs, WithList(h, d, s + [b]))
  {
    hide Insert, Laid, ListIs, Stands, InNode;
    LaidLists(descs, h);
    ThatList(m, descs, h, d, s);
    AppendIs(m, descs, h, d, s, b);
    OneList(m, Insert(m, Tail(descs, d), b), descs, h, d, s, s + [b]);
  }

  lemma LaidLists(descs: nat, h: Heap)
    requires Laid(descs, h)
    ensures |h.free| == DESCS
  {
  }

  lemma ThatList(m: Mem, descs: nat, h: Heap, d: nat, s: seq<nat>)
    requires d < DESCS == |h.free| && Stands(m, descs, WithList(h, d, s))
    ensures ListIs(m, descs, d, s)
  {
    hide ListIs;
    assert WithList(h, d, s).free[d] == s;
  }

  lemma AppendIs(m: Mem, descs: nat, h: Heap, d: nat, s: seq<nat>, b: nat)
    requires Laid(descs, h) && d < DESCS && Distinct(s + [b]) && (forall x <- s + [b] :: x in h.free[d]) && ListIs(m, descs, d, s)
    ensures var m' := Insert(m, Tail(descs, d), b);
            ListIs(m', descs, d, s + [b]) && forall y :: !InNode(descs, h, d, y) ==> Word(m', y) == Word(m, y)
  {
    hide Insert, Laid, Linked, IsNode;
    LaidLists(descs, h);
    var nodes, m' := Chain(descs, d, s), Insert(m, Tail(descs, d), b);
    BlockApart(descs, h, d, s, b);
    assert nodes[|s| + 1] == Tail(descs, d) && nodes[0] == Head(descs, d);
    InsertLinked(m, nodes, |s| + 1, b);
    InsertWrites(m, nodes, |s| + 1, b);
    assert nodes[..|s| + 1] + [b] + nodes[|s| + 1..] == Chain(descs, d, s + [b]);
    assert nodes[|s|] in nodes && nodes[|s| + 1] in nodes && nodes[0] in nodes;
    assert Gap(nodes[0], nodes[|s| + 1]) && (|s| > 0 ==> Gap(nodes[0], nodes[|s|])) && Gap(nodes[|s|], nodes[|s| + 1]);
    forall y | !InNode(descs, h, d, y)
      ensures Word(m', y) == Word(m, y)
    {
      assert IsNode(descs, h, d, nodes[|s|]) && IsNode(descs, h, d, nodes[|s| + 1]) && IsNode(descs, h, d, b);
    }
  }

  lemma BlockApart(descs: nat, h: Heap, d: nat, s: seq<nat>, b: nat)
    requires Laid(descs, h) && d < DESCS && Distinct(s + [b]) && (forall x <- s + [b] :: x in h.free[d])
    ensures Spaced(Chain(descs, d, s)) && forall x <- Chain(descs, d, s) :: Gap(x, b)
    ensures IsNode(descs, h, d, b) && forall x <- Chain(descs, d, s) :: IsNode(descs, h, d, x)
  {
    hide Laid, Gap;
    LaidLists(descs, h);
    assert forall i :: 0 <= i < |s| ==> (s + [b])[i] == s[i];
    ChainSpaced(descs, h, d, s + [b]);
    assert forall i :: 0 <= i < |s| ==> s[i] in s + [b];
    ChainSpaced(descs, h, d, s);
    var nodes, all := Chain(descs, d, s), Chain(descs, d, s + [b]);
    assert all[|s| + 1] == b && b in s + [b];
    forall x <- nodes
      ensures Gap(x, b)
    {
      var i :| 0 <= i < |nodes| && nodes[i] == x;
      assert x == all[if i <= |s| then i else i + 1];
      GapSym(x, b);
    }
  }

  lemma GapSym(x: nat, y: nat)
    ensures Gap(x, y) == Gap(y, x)
  {
  }

  /** list_remove of the k-th block of the list. */
  lemma UnlinkStands(m: Mem, descs: nat, h: Heap, d: nat, s: seq<nat>, k: nat)
    requires Laid(descs, h) && d < DESCS && Distinct(s) && k < |s| && (forall x <- s :: x in h.free[d])
    requires Stands(m, descs, WithList(h, d, s))
    ensures Stands(Unlink(m, s[k]), descs, WithList(h, d, s[..k] + s[k + 1..]))
  {
    hide Unlink, Laid, ListIs, Stands, InNode;
    LaidLists(descs, h);
    ThatList(m, descs, h, d, s);
    UnlinkIs(m, descs, h, d, s, k);
    OneList(m, Unlink(m, s[k]), descs, h, d, s, s[..k] + s[k + 1..]);
  }

  lemma UnlinkIs(m: Mem, descs: nat, h: Heap, d: nat, s: seq<nat>, k: nat)
    requires Laid(descs, h) && d < DESCS && Distinct(s) && k < |s| && (forall x <- s :: x in h.free[d]) && ListIs(m, descs, d, s)
    ensures var m' := Unlink(m, s[k]);
            ListIs(m', descs, d, s[..k] + s[k + 1..]) && forall y :: !InNode(descs, h, d, y) ==> Word(m', y) == Word(m, y)
  {
    hide Unlink, Laid, Linked, IsNode;
    LaidLists(descs, h);
    ChainSpaced(descs, h, d, s);
    var nodes, m' := Chain(descs, d, s), Unlink(m, s[k]);
    assert nodes[k + 1] == s[k] && nodes[|s| + 1] == Tail(descs, d) && nodes[0] == Head(descs, d);
    UnlinkLinked(m, nodes, k + 1);
    UnlinkWrites(m, nodes, k + 1);
    assert nodes[..k + 1] + nodes[k + 2..] == Chain(descs, d, s[..k] + s[k + 1..]);
    assert nodes[k] in nodes && nodes[k + 2] in nodes;
    assert (k > 0 ==> Gap(nodes[0], nodes[k])) && Gap(nodes[0], nodes[k + 2]);
    assert Gap(nodes[k], nodes[|s| + 1]) && (k + 2 < |s| + 1 ==> Gap(nodes[k + 2], nodes[|s| + 1]));
    forall y | !InNode(descs, h, d, y)
      ensures Word(m', y) == Word(m, y)
    {
      assert IsNode(descs, h, d, nodes[k]) && IsNode(descs, h, d, nodes[k + 2]);
    }
  }

  /** The three words of a header. */
  function SetHeader(m: Mem, descs: nat, a: nat, arena: Arena): Mem {
    match arena
    case Small(d, c) => m[a * PAGE := DescAt(descs, d)][a * PAGE + 4 := c][a * PAGE + 8 := 0]
    case Large(n) => m[a * PAGE := 0][a * PAGE + 4 := n][a * PAGE + 8 := 1]
  }

  /** Writing a header says nothing else about the heap. */
  lemma HeaderStands(m: Mem, m': Mem, descs: nat, h: Heap, a: nat, arena: Arena)
    requires Laid(descs, h) && a in h.arenas && HeaderIs(m', descs, a, arena)
    requires Stands(m, descs, h.(arenas := h.arenas - {a})) && forall y: nat :: !(a * PAGE <= y < a * PAGE + HEADER) ==> Word(m', y) == Word(m, y)
    ensures Stands(m', descs, h.(arenas := h.arenas[a := arena]))
  {
    hide Laid;
    LaidLists(descs, h);
    forall y | Used(descs, h.(arenas := h.arenas - {a}), y)
      ensures Word(m', y) == Word(m, y)
    {
      HeaderUnused(descs, h, a, y);
    }
    SameWords(m, m', descs, h.(arenas := h.arenas - {a}));
    MoreHeaders(m', descs, h, a, arena);
  }

  lemma MoreHeaders(m: Mem, descs: nat, h: Heap, a: nat, arena: Arena)
    requires Stands(m, descs, h.(arenas := h.arenas - {a})) && HeaderIs(m, descs, a, arena)
    ensures Stands(m, descs, h.(arenas := h.arenas[a := arena]))
  {
    hide ListIs, DescIs, HeaderIs;
    var h0, h1 := h.(arenas := h.arenas - {a}), h.(arenas := h.arenas[a := arena]);
    assert h1.free == h0.free;
    forall b <- h1.arenas
      ensures HeaderIs(m, descs, b, h1.arenas[b])
    {
      assert b != a ==> b in h0.arenas && h0.arenas[b] == h1.arenas[b];
    }
  }

  lemma HeaderUnused(descs: nat, h: Heap, a: nat, y: nat)
    requires Laid(descs, h) && a in h.arenas && Used(descs, h.(arenas := h.arenas - {a}), y)
    ensures !(a * PAGE <= y < a * PAGE + HEADER)
  {
    if descs <= y < descs + DESC * DESCS {
      var e := (y - descs) / DESC;
      assert IsNode(descs, h, e, Head(descs, e)) && IsNode(descs, h, e, Tail(descs, e));
    } else if d: nat, b :| d < |h.free| && b in h.free[d] && b <= y < b + 8 {
      assert IsNode(descs, h, d, b);
    }
  }

  lemma HeaderSet(m: Mem, descs: nat, a: nat, arena: Arena)
    ensures HeaderIs(SetHeader(m, descs, a, arena), descs, a, arena)
    ensures forall y: nat :: !(a * PAGE <= y < a * PAGE + HEADER) ==> Word(SetHeader(m, descs, a, arena), y) == Word(m, y)
  {
  }

  lemma LaidFewer(descs: nat, h: Heap, h': Heap)
    requires Laid(descs, h) && h'.arenas.Keys <= h.arenas.Keys && |h'.free| == DESCS
    requires forall d: nat, x :: d < DESCS && x in h'.free[d] ==> x in h.free[d]
    ensures Laid(descs, h')
  {
    assert forall d, x :: IsNode(descs, h', d, x) ==> IsNode(descs, h, d, x);
  }

  lemma StandsFewer(m: Mem, descs: nat, h: Heap, a: nat)
    requires Stands(m, descs, h)
    ensures Stands(m, descs, h.(arenas := h.arenas - {a}))
  {
    hide ListIs, DescIs, HeaderIs;
  }

  lemma StandsParts(m: Mem, descs: nat, h: Heap)
    requires Stands(m, descs, h)
    ensures |h.free| == DESCS && forall d: nat :: d < DESCS ==> ListIs(m, descs, d, h.free[d]) && DescIs(m, descs, d)
    ensures forall a <- h.arenas :: HeaderIs(m, descs, a, h.arenas[a])
  {
    hide ListIs, DescIs, HeaderIs;
  }

  lemma SameList(h: Heap, d: nat)
    requires d < |h.free|
    ensures WithList(h, d, h.free[d]) == h
  {
    assert h.free[d := h.free[d]] == h.free;
  }

  /** memset of n pages to zero */
  function Zeroed(m: Mem, a: nat, n: nat): (r: Mem)
    ensures forall y: nat :: Word(r, y) == if a * PAGE <= y < (a + n) * PAGE then 0 else Word(m, y)
  {
    map y | y in m && !(a * PAGE <= y < (a + n) * PAGE) :: m[y]
  }

  /** The heap's words are on its pages and in the descriptors. */
  lemma UsedPlace(descs: nat, h: Heap, live: Live, y: nat)
    requires WeakInv(h, live) && Used(descs, h, y)
    ensures descs <= y < descs + DESC * DESCS || HeapPage(h, y / PAGE)
  {
    hide WeakInv, HeapPage, Block2Arena, IsBlock;
    FreeListsCount(h, live);
    if !(descs <= y < descs + DESC * DESCS) {
      if a :| a in h.arenas && a * PAGE <= y < a * PAGE + HEADER {
        ArenaCovered(h, live, a);
        PageOf(y, a);
      } else {
        var d: nat, b :| d < |h.free| && b in h.free[d] && b <= y < b + 8;
        FreeBlockPlace(h, live, d, b);
        PageOf(y, Block2Arena(b));
      }
    }
  }

  /** New pages can be cleared. */
  lemma FreshPages(m: Mem, descs: nat, h: Heap, live: Live, a: nat, n: nat)
    requires Stands(m, descs, h) && WeakInv(h, live) && forall u :: a <= u < a + n ==> !HeapPage(h, u)
    requires forall x: nat :: descs <= x < descs + DESC * DESCS ==> !(a <= x / PAGE < a + n)
    ensures Stands(Zeroed(m, a, n), descs, h)
  {
    hide Stands, WeakInv, HeapPage, Used, Zeroed;
    forall y: nat | Used(descs, h, y)
      ensures !(a * PAGE <= y < (a + n) * PAGE)
    {
      UsedPlace(descs, h, live, y);
      PageRange(y, a, n);
    }
    SameWords(m, Zeroed(m, a, n), descs, h);
  }

  lemma PageRange(y: nat, a: nat, n: nat)
    ensures a * PAGE <= y < (a + n) * PAGE <==> a <= y / PAGE < a + n
  {
  }

  // ----- The words say nothing else -----------------------------------------------------------------------

  lemma {:induction false} SamePrefix(m: Mem, descs: nat, d: nat, s: seq<nat>, t: seq<nat>, i: nat)
    requires ListIs(m, descs, d, s) && ListIs(m, descs, d, t) && i < |s| + 2 && i < |t| + 2
    ensures Chain(descs, d, s)[i] == Chain(descs, d, t)[i]
  {
    if i > 0 {
      SamePrefix(m, descs, d, s, t, i - 1);
      assert Word(m, NextOf(Chain(descs, d, s)[i - 1])) == Chain(descs, d, s)[i];
      assert Word(m, NextOf(Chain(descs, d, t)[i - 1])) == Chain(descs, d, t)[i];
    }
  }

  lemma NotLonger(m: Mem, descs: nat, d: nat, s: seq<nat>, t: seq<nat>)
    requires ListIs(m, descs, d, s) && ListIs(m, descs, d, t) && Tail(descs, d) !in s && Tail(descs, d) !in t
    ensures |t| <= |s|
  {
    if |s| < |t| {
      assert t[|s|] in t;
      SamePrefix(m, descs, d, s, t, |s| + 1);
    }
  }

  lemma SameListRead(m: Mem, descs: nat, d: nat, s: seq<nat>, t: seq<nat>)
    requires ListIs(m, descs, d, s) && ListIs(m, descs, d, t) && Tail(descs, d) !in s && Tail(descs, d) !in t
    ensures s == t
  {
    hide ListIs;
    NotLonger(m, descs, d, s, t);
    NotLonger(m, descs, d, t, s);
    forall i | 0 <= i < |s|
      ensures s[i] == t[i]
    {
      SamePrefix(m, descs, d, s, t, i + 1);
    }
  }

  /** Words stand for one heap only: the headers and links determine counts, classes and lists. */
  lemma StandsUnique(m: Mem, descs: nat, h: Heap, k: Heap)
    requires Stands(m, descs, h) && Stands(m, descs, k) && Laid(descs, h) && Laid(descs, k) && h.arenas.Keys == k.arenas.Keys
    ensures h == k
  {
    hide ListIs, DescIs, IsNode;
    forall a <- h.arenas
      ensures h.arenas[a] == k.arenas[a]
    {
      assert HeaderIs(m, descs, a, h.arenas[a]) && HeaderIs(m, descs, a, k.arenas[a]);
    }
    forall d: nat | d < DESCS
      ensures h.free[d] == k.free[d]
    {
      SameListRead(m, descs, d, h.free[d], k.free[d]);
    }
    assert h.free == k.free && h.arenas == k.arenas;
  }
}
