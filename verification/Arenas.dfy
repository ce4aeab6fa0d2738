/**
  The arena allocator of kernel/memory.c: block geometry, the state of one heap
  (arena headers and the seven free lists), and what sys_malloc and sys_free do to it.
 */
module Arenas {
  import opened Outcomes

  const DESCS := 7
  const HEADER := 12  // sizeof(struct arena) on i386
  const PAGE := 4096

  // ----- Geometry -----------------------------------------------------------------------

  /** block_desc_init: 16, 32, ... 1024 bytes. */
  function BlockSize(d: nat): nat {
    match d
    case 0 => 16 case 1 => 32 case 2 => 64 case 3 => 128 case 4 => 256 case 5 => 512 case _ => 1024
  }

  function PerArena(d: nat): nat {
    (PAGE - HEADER) / BlockSize(d)
  }

  /** arena2block, for the arena at page a. */
  function Arena2Block(a: nat, d: nat, i: nat): nat {
    a * PAGE + HEADER + i * BlockSize(d)
  }

  /** block2arena masks the low 12 bits: the page number of the block. */
  function Block2Arena(b: nat): nat {
    b / PAGE
  }

  function IndexOf(b: nat, d: nat): int {
    (b % PAGE - HEADER) / BlockSize(d)
  }

  /** b is the address of a block of class d in its page. */
  predicate IsBlock(b: nat, d: nat) {
    0 <= IndexOf(b, d) < PerArena(d) && b == Arena2Block(Block2Arena(b), d, IndexOf(b, d))
  }

  /** block2arena undoes arena2block, the index can be read off the address, and blocks stay in their page. */
  lemma Block2ArenaUndoes(a: nat, d: nat, i: nat)
    requires d < DESCS && i < PerArena(d)
    ensures Block2Arena(Arena2Block(a, d, i)) == a && IndexOf(Arena2Block(a, d, i), d) == i
    ensures IsBlock(Arena2Block(a, d, i), d)
    ensures a * PAGE + HEADER <= Arena2Block(a, d, i) && Arena2Block(a, d, i) + BlockSize(d) <= a * PAGE + PAGE
  {
    if
    case d == 0 =>
    case d == 1 =>
    case d == 2 =>
    case d == 3 =>
    case d == 4 =>
    case d == 5 =>
    case d == 6 =>
  }

  lemma BlocksApart(a: nat, d: nat, i: nat, j: nat)
    requires i < j
    ensures Arena2Block(a, d, i) + BlockSize(d) <= Arena2Block(a, d, j)
  {
    if
    case d == 0 =>
    case d == 1 =>
    case d == 2 =>
    case d == 3 =>
    case d == 4 =>
    case d == 5 =>
    case d >= 6 =>
  }

  /** The search of sys_malloc: the smallest class that fits. */
  function DescFor(size: nat, d: nat): (r: nat)
    requires size <= 1024 && d < DESCS && (d == 0 || BlockSize(d - 1) < size)
    ensures r < DESCS && size <= BlockSize(r) && (r == 0 || BlockSize(r - 1) < size)
    decreases DESCS - d
  {
    if size <= BlockSize(d) then d else DescFor(size, d + 1)
  }

  /** The classes: 16 bytes, and each twice the one before. */
  lemma SizesDouble(d: nat)
    requires d < DESCS
    ensures BlockSize(d) == if d == 0 then 16 else 2 * BlockSize(d - 1)
    ensures d == DESCS - 1 <==> BlockSize(d) == 1024
  {
  }

  /** Places for blocks of n bytes in a page: the i-th starts after the header and i blocks, and ends in the page. */
  predicate PlaceFits(i: nat, n: nat) {
    HEADER + i * n + n <= PAGE
  }

  lemma PlacesCounted(d: nat, i: nat)
    requires d < DESCS
    ensures PlaceFits(i, BlockSize(d)) <==> i < PerArena(d)
  {
    if
    case d == 0 =>
    case d == 1 =>
    case d == 2 =>
    case d == 3 =>
    case d == 4 =>
    case d == 5 =>
    case d == 6 =>
  }

  // ----- One heap ---------------------------------------------------------------------------

  datatype Arena = Small(desc: nat, cnt: nat) | Large(cnt: nat)

  /** Arena headers by page number, and the free lists as block addresses. */
  datatype Heap = Heap(arenas: map<nat, Arena>, free: seq<seq<nat>>)

  /** What is allocated: pointer and requested size. */
  type Live = map<nat, nat>

  const EMPTY_HEAP := Heap(map[], [[], [], [], [], [], [], []])

  /** Pages the arena at page a covers. */
  predicate Covers(h: Heap, a: nat, u: nat) {
    a in h.arenas && (match h.arenas[a] case Small(_, _) => u == a case Large(n) => a <= u < a + n)
  }

  ghost predicate HeapPage(h: Heap, u: nat) {
    exists a :: Covers(h, a, u)
  }

  function Blocks(a: nat, d: nat, n: nat): (s: seq<nat>)
    ensures |s| == n && forall i :: 0 <= i < n ==> s[i] == Arena2Block(a, d, i)
  {
    seq(n, i requires 0 <= i < n => Arena2Block(a, d, i))
  }

  /** A new arena of class d at page a: all its blocks go on the free list. */
  function AddArena(h: Heap, a: nat, d: nat): Heap
    requires d < |h.free|
  {
    Heap(h.arenas[a := Small(d, PerArena(d))], h.free[d := h.free[d] + Blocks(a, d, PerArena(d))])
  }

  /** list_pop, and one block less in its arena. */
  predicate CanTake(h: Heap, d: nat) {
    && d < |h.free| && h.free[d] != []
    && Block2Arena(h.free[d][0]) in h.arenas && h.arenas[Block2Arena(h.free[d][0])].Small?
    && h.arenas[Block2Arena(h.free[d][0])].cnt > 0
  }

  function TakeBlock(h: Heap, d: nat): Heap
    requires CanTake(h, d)
  {
    var a := Block2Arena(h.free[d][0]);
    Heap(h.arenas[a := h.arenas[a].(cnt := h.arenas[a].cnt - 1)], h.free[d := h.free[d][1..]])
  }

  /** list_append, and one block more. */
  function GiveBlock(h: Heap, b: nat): Heap
    requires Block2Arena(b) in h.arenas && h.arenas[Block2Arena(b)].Small? && h.arenas[Block2Arena(b)].desc < |h.free|
  {
    var a := Block2Arena(b);
    var d := h.arenas[a].desc;
    Heap(h.arenas[a := Small(d, h.arenas[a].cnt + 1)], h.free[d := h.free[d] + [b]])
  }

  /** A list without the blocks of page a. */
  function Without(s: seq<nat>, a: nat): (r: seq<nat>)
    ensures forall x :: x in r <==> x in s && Block2Arena(x) != a
  {
    if s == [] then [] else (if Block2Arena(s[0]) == a then [] else [s[0]]) + Without(s[1..], a)
  }

  /** A small arena whose blocks are all back is taken apart. */
  function DropArena(h: Heap, a: nat): Heap
    requires a in h.arenas && h.arenas[a].Small? && h.arenas[a].desc < |h.free|
  {
    var d := h.arenas[a].desc;
    Heap(h.arenas - {a}, h.free[d := Without(h.free[d], a)])
  }

  // ----- The invariant ---------------------------------------------------------------------------

  /** Indices of the arena's blocks that are on the free list. */
  ghost function FreeIdx(h: Heap, a: nat, d: nat): set<nat>
    requires d < |h.free|
  {
    set i: nat | i < PerArena(d) && Arena2Block(a, d, i) in h.free[d]
  }

  /** A free list holds distinct blocks of its own class, in arenas of that class. */
  ghost predicate ListInv(h: Heap, d: nat)
    requires d < |h.free|
  {
    && Distinct(h.free[d])
    && forall x <- h.free[d] ::
         && IsBlock(x, d)
         && Block2Arena(x) in h.arenas && h.arenas[Block2Arena(x)].Small? && h.arenas[Block2Arena(x)].desc == d
  }

  /** A small arena counts its free blocks, and each block is either free or live; a large one is live as a whole. */
  ghost predicate ArenaInv(h: Heap, live: Live, a: nat)
    requires a in h.arenas
  {
    match h.arenas[a]
    case Small(d, c) =>
      && d < |h.free| == DESCS
      && c == |FreeIdx(h, a, d)|
      && forall i: nat :: i < PerArena(d) ==>
           (Arena2Block(a, d, i) in h.free[d] <==> Arena2Block(a, d, i) !in live)
    case Large(n) => n >= 1 && a * PAGE + HEADER in live
  }

  /** A live pointer is a block on no free list, or the start of a large arena; what was asked for fits. */
  ghost predicate LiveInv(h: Heap, p: nat, size: nat) {
    var a := Block2Arena(p);
    && a in h.arenas
    && match h.arenas[a]
       case Small(d, _) => d < |h.free| && IsBlock(p, d) && p !in h.free[d] && size <= BlockSize(d)
       case Large(n) => p == a * PAGE + HEADER && HEADER + size <= n * PAGE
  }

  ghost predicate ArenasApart(h: Heap) {
    forall a, b, u :: Covers(h, a, u) && Covers(h, b, u) ==> a == b
  }

  ghost predicate WeakInv(h: Heap, live: Live) {
    && |h.free| == DESCS && ArenasApart(h)
    && (forall d: nat :: d < DESCS ==> ListInv(h, d))
    && (forall a <- h.arenas :: ArenaInv(h, live, a))
    && (forall p <- live :: LiveInv(h, p, live[p]))
  }

  /** At rest no small arena has all its blocks free. */
  ghost predicate NoneFull(h: Heap) {
    forall a <- h.arenas :: h.arenas[a].Small? ==> h.arenas[a].cnt < PerArena(h.arenas[a].desc)
  }

  ghost predicate HeapInv(h: Heap, live: Live) {
    WeakInv(h, live) && NoneFull(h)
  }

  lemma FreeListsCount(h: Heap, live: Live)
    requires WeakInv(h, live)
    ensures |h.free| == DESCS
  {
  }

  lemma EmptyHeapInv()
    ensures HeapInv(EMPTY_HEAP, map[])
  {
  }

  // ----- Counting ---------------------------------------------------------------------------------

  ghost function Below(n: nat): (s: set<nat>)
    ensures |s| == n && forall i: nat :: i in s <==> i < n
  {
    if n == 0 then {} else Below(n - 1) + {n - 1}
  }

  lemma {:induction false} SubsetSize(s: set<nat>, t: set<nat>)
    requires s <= t
    ensures |s| <= |t| && (|s| == |t| ==> s == t)
    decreases s
  {
    if s != {} {
      var x :| x in s;
      SubsetSize(s - {x}, t - {x});
    }
  }

  /** An arena that counts all its blocks as free has them all on the list. */
  lemma FreeIdxBound(h: Heap, a: nat, d: nat)
    requires d < |h.free|
    ensures |FreeIdx(h, a, d)| <= PerArena(d)
    ensures |FreeIdx(h, a, d)| == PerArena(d) ==> forall i: nat :: i < PerArena(d) ==> Arena2Block(a, d, i) in h.free[d]
  {
    SubsetSize(FreeIdx(h, a, d), Below(PerArena(d)));
    if |FreeIdx(h, a, d)| == PerArena(d) {
      forall i: nat | i < PerArena(d)
        ensures Arena2Block(a, d, i) in h.free[d]
      {
        assert i in Below(PerArena(d));
      }
    }
  }

  // ----- Steps keep the invariant -------------------------------------------------------------------

  /** Only the arena at page a may have all its blocks free. */
  ghost predicate FullOnlyAt(h: Heap, a: nat) {
    forall b <- h.arenas :: b != a && h.arenas[b].Small? ==> h.arenas[b].cnt < PerArena(h.arenas[b].desc)
  }

  /** An arena whose header and blocks nobody touched keeps its invariant. */
  lemma ArenaKept(h: Heap, h': Heap, live: Live, live': Live, b: nat)
    requires b in h.arenas && b in h'.arenas && h'.arenas[b] == h.arenas[b] && ArenaInv(h, live, b) && |h'.free| == DESCS
    requires h.arenas[b].Small? ==>
               forall x: nat :: Block2Arena(x) == b ==> (x in h'.free[h.arenas[b].desc] <==> x in h.free[h.arenas[b].desc])
    requires forall x: nat :: Block2Arena(x) == b ==> (x in live' <==> x in live)
    ensures ArenaInv(h', live', b)
  {
    match h.arenas[b]
    case Small(d, c) =>
      forall i: nat | i < PerArena(d)
        ensures Block2Arena(Arena2Block(b, d, i)) == b
      {
        Block2ArenaUndoes(b, d, i);
      }
      assert FreeIdx(h', b, d) == FreeIdx(h, b, d);
    case Large(n) =>
      assert Block2Arena(b * PAGE + HEADER) == b;
  }

  lemma NewBlocks(a: nat, d: nat)
    requires d < DESCS
    ensures var s := Blocks(a, d, PerArena(d));
            && |s| >= 3 && Distinct(s) && forall x <- s :: IsBlock(x, d) && Block2Arena(x) == a
  {
    var s := Blocks(a, d, PerArena(d));
    forall i | 0 <= i < |s|
      ensures IsBlock(s[i], d) && Block2Arena(s[i]) == a
    {
      Block2ArenaUndoes(a, d, i);
    }
    forall i, j | 0 <= i < j < |s|
      ensures s[i] != s[j]
    {
      Block2ArenaUndoes(a, d, i);
      Block2ArenaUndoes(a, d, j);
    }
  }

  lemma NewArena(h: Heap, live: Live, a: nat, d: nat)
    requires d < DESCS == |h.free| && a in h.arenas && h.arenas[a] == Small(d, PerArena(d))
    requires h.free[d] == Blocks(a, d, PerArena(d)) && forall x: nat :: Block2Arena(x) == a ==> x !in live
    ensures ArenaInv(h, live, a)
  {
    forall i: nat | i < PerArena(d)
      ensures Arena2Block(a, d, i) in h.free[d] && Arena2Block(a, d, i) !in live
    {
      Block2ArenaUndoes(a, d, i);
      assert h.free[d][i] == Arena2Block(a, d, i);
    }
    assert FreeIdx(h, a, d) == Below(PerArena(d));
  }

  lemma ArenaCovered(h: Heap, live: Live, a: nat)
    requires WeakInv(h, live)
    ensures a in h.arenas ==> Covers(h, a, a) && HeapPage(h, a)
  {
    if a in h.arenas {
      assert ArenaInv(h, live, a);
      assert Covers(h, a, a);
    }
  }

  /** A new arena on pages no arena covers. */
  lemma AddCovers(h: Heap, h': Heap, live: Live, a: nat, n: nat)
    requires WeakInv(h, live) && n >= 1 && forall u :: a <= u < a + n ==> !HeapPage(h, u)
    requires a in h'.arenas && h'.arenas == h.arenas[a := h'.arenas[a]]
    requires match h'.arenas[a] case Small(_, _) => true case Large(k) => k == n
    ensures ArenasApart(h') && forall u: nat :: HeapPage(h', u) <==> HeapPage(h, u) || Covers(h', a, u)
  {
    ArenaCovered(h, live, a);
    forall b, u | b != a
      ensures Covers(h', b, u) <==> Covers(h, b, u)
    {
    }
    forall u: nat
      ensures HeapPage(h', u) <==> HeapPage(h, u) || Covers(h', a, u)
    {
      if HeapPage(h, u) {
        var b :| Covers(h, b, u);
        assert Covers(h', b, u);
      }
      if HeapPage(h', u) {
        var b :| Covers(h', b, u);
        assert b != a ==> Covers(h, b, u);
      }
    }
    forall b, c, u | Covers(h', b, u) && Covers(h', c, u)
      ensures b == c
    {
      assert b != a ==> HeapPage(h, u) by { assert b != a ==> Covers(h, b, u); }
      assert c != a ==> HeapPage(h, u) by { assert c != a ==> Covers(h, c, u); }
    }
  }

  lemma AddArenaInv(h: Heap, live: Live, a: nat, d: nat)
    requires HeapInv(h, live) && d < DESCS && !HeapPage(h, a) && h.free[d] == []
    ensures WeakInv(AddArena(h, a, d), live) && FullOnlyAt(AddArena(h, a, d), a)
    ensures AddArena(h, a, d).free[d] != [] && Block2Arena(AddArena(h, a, d).free[d][0]) == a
  {
    hide BlockSize, Arena2Block, Block2Arena, IndexOf, IsBlock, FreeIdx, ArenasApart, Covers;
    var h' := AddArena(h, a, d);
    ArenaCovered(h, live, a);
    NewBlocks(a, d);
    assert h'.free[d] == Blocks(a, d, PerArena(d));
    AddCovers(h, h', live, a, 1);
    forall e: nat | e < DESCS
      ensures ListInv(h', e)
    {
      assert ListInv(h, e);
    }
    forall b <- h'.arenas
      ensures ArenaInv(h', live, b)
    {
      if b == a {
        forall x: nat | Block2Arena(x) == a
          ensures x !in live
        {
          assert x in live ==> LiveInv(h, x, live[x]);
        }
        NewArena(h', live, a, d);
      } else {
        assert ArenaInv(h, live, b);
        ArenaKept(h, h', live, live, b);
      }
    }
    forall p <- live
      ensures LiveInv(h', p, live[p])
    {
      assert LiveInv(h, p, live[p]);
    }
  }

  lemma SameCovers(h: Heap, h': Heap, live: Live)
    requires WeakInv(h, live)
    requires forall b :: b in h'.arenas ==> b in h.arenas && (h'.arenas[b] == h.arenas[b] || (h'.arenas[b].Small? && h.arenas[b].Small?))
    ensures ArenasApart(h')
  {
    forall b, c, u | Covers(h', b, u) && Covers(h', c, u)
      ensures b == c
    {
      assert Covers(h, b, u) && Covers(h, c, u);
    }
  }

  /** Adding or removing one block of the arena at page a moves one index in or out. */
  lemma FreeIdxStep(h: Heap, h': Heap, b: nat, d: nat)
    requires d < |h.free| == |h'.free| && d < DESCS && IsBlock(b, d) && b in h.free[d] && b !in h'.free[d]
    requires forall x :: x != b ==> (x in h'.free[d] <==> x in h.free[d])
    ensures |FreeIdx(h', Block2Arena(b), d)| == |FreeIdx(h, Block2Arena(b), d)| - 1
  {
    var a, i := Block2Arena(b), IndexOf(b, d);
    forall j: nat | j < PerArena(d) && j != i
      ensures Arena2Block(a, d, j) != b
    {
      Block2ArenaUndoes(a, d, j);
    }
    assert FreeIdx(h', a, d) == FreeIdx(h, a, d) - {i};
  }

  /** The block an arena gains or loses changes hands between the free list and the live pointers. */
  lemma ArenaStep(h: Heap, h': Heap, live: Live, live': Live, b: nat, d: nat)
    requires d < |h.free| == |h'.free| == DESCS && IsBlock(b, d)
    requires Block2Arena(b) in h.arenas && Block2Arena(b) in h'.arenas
    requires h.arenas[Block2Arena(b)].Small? && h.arenas[Block2Arena(b)].desc == d
    requires h'.arenas[Block2Arena(b)].Small? && h'.arenas[Block2Arena(b)].desc == d
    requires ArenaInv(h, live, Block2Arena(b)) && b in h.free[d] && b !in h'.free[d] && b in live'
    requires forall x :: x != b ==> (x in h'.free[d] <==> x in h.free[d]) && (x in live' <==> x in live)
    requires h'.arenas[Block2Arena(b)].cnt == h.arenas[Block2Arena(b)].cnt - 1
    ensures ArenaInv(h', live', Block2Arena(b))
  {
    FreeIdxStep(h, h', b, d);
  }

  lemma PopList(s: seq<nat>)
    requires Distinct(s) && s != []
    ensures Distinct(s[1..]) && s[0] !in s[1..] && forall x :: x in s <==> x == s[0] || x in s[1..]
  {
    assert s == [s[0]] + s[1..];
  }

  lemma CanTakeBlock(h: Heap, live: Live, d: nat)
    requires WeakInv(h, live) && d < DESCS && h.free[d] != []
    ensures CanTake(h, d) && h.arenas[Block2Arena(h.free[d][0])].desc == d && IsBlock(h.free[d][0], d)
    ensures h.free[d][0] !in live && h.arenas[Block2Arena(h.free[d][0])].cnt <= PerArena(d)
  {
    var b := h.free[d][0];
    var a := Block2Arena(b);
    assert ListInv(h, d) && ArenaInv(h, live, a);
    assert IndexOf(b, d) in FreeIdx(h, a, d);
    FreeIdxBound(h, a, d);
  }

  /** sys_malloc's last step: the first free block becomes live, and its arena is not full any more. */
  lemma TakeInv(h: Heap, live: Live, d: nat, size: nat)
    requires WeakInv(h, live) && d < DESCS && h.free[d] != [] && size <= BlockSize(d)
    requires FullOnlyAt(h, Block2Arena(h.free[d][0]))
    ensures CanTake(h, d) && h.free[d][0] !in live
    ensures HeapInv(TakeBlock(h, d), live[h.free[d][0] := size])
  {
    hide BlockSize, Arena2Block, Block2Arena, IndexOf, IsBlock, FreeIdx;
    CanTakeBlock(h, live, d);
    var b := h.free[d][0];
    var a, h', live' := Block2Arena(b), TakeBlock(h, d), live[b := size];
    assert ListInv(h, d);
    PopList(h.free[d]);
    SameCovers(h, h', live);
    forall e: nat | e < DESCS
      ensures ListInv(h', e)
    {
      assert ListInv(h, e);
    }
    forall c <- h'.arenas
      ensures ArenaInv(h', live', c)
    {
      assert ArenaInv(h, live, c);
      if c == a {
        ArenaStep(h, h', live, live', b, d);
      } else {
        ArenaKept(h, h', live, live', c);
      }
    }
    forall p <- live'
      ensures LiveInv(h', p, live'[p])
    {
      assert p != b ==> LiveInv(h, p, live[p]);
    }
  }

  lemma AppendList(s: seq<nat>, b: nat)
    requires Distinct(s) && b !in s
    ensures Distinct(s + [b])
  {
  }

  ghost predicate IsSmallBlock(h: Heap, b: nat) {
    Block2Arena(b) in h.arenas && h.arenas[Block2Arena(b)].Small? && h.arenas[Block2Arena(b)].desc < |h.free|
  }

  /** sys_free of a small block: it is on the free list and no longer live. */
  lemma GiveInv(h: Heap, live: Live, b: nat)
    requires HeapInv(h, live) && b in live && IsSmallBlock(h, b)
    ensures WeakInv(GiveBlock(h, b), live - {b}) && FullOnlyAt(GiveBlock(h, b), Block2Arena(b))
  {
    hide BlockSize, Arena2Block, Block2Arena, IndexOf, IsBlock, FreeIdx;
    var a, h', live' := Block2Arena(b), GiveBlock(h, b), live - {b};
    var d := h.arenas[a].desc;
    assert LiveInv(h, b, live[b]) && ListInv(h, d);
    AppendList(h.free[d], b);
    SameCovers(h, h', live);
    forall e: nat | e < DESCS
      ensures ListInv(h', e)
    {
      assert ListInv(h, e);
    }
    forall c <- h'.arenas
      ensures ArenaInv(h', live', c)
    {
      assert ArenaInv(h, live, c);
      if c == a {
        GiveStep(h, h', live, live', b, d);
      } else {
        ArenaKept(h, h', live, live', c);
      }
    }
    forall p <- live'
      ensures LiveInv(h', p, live'[p])
    {
      assert LiveInv(h, p, live[p]);
    }
  }

  lemma GiveStep(h: Heap, h': Heap, live: Live, live': Live, b: nat, d: nat)
    requires d < |h.free| == |h'.free| == DESCS && IsBlock(b, d)
    requires Block2Arena(b) in h.arenas && Block2Arena(b) in h'.arenas
    requires h.arenas[Block2Arena(b)].Small? && h.arenas[Block2Arena(b)].desc == d
    requires h'.arenas[Block2Arena(b)] == Small(d, h.arenas[Block2Arena(b)].cnt + 1)
    requires ArenaInv(h, live, Block2Arena(b)) && b !in h.free[d] && b in h'.free[d] && b !in live'
    requires forall x :: x != b ==> (x in h'.free[d] <==> x in h.free[d]) && (x in live' <==> x in live)
    ensures ArenaInv(h', live', Block2Arena(b))
  {
    FreeIdxStep(h', h, b, d);
  }

  lemma {:induction false} WithoutDistinct(s: seq<nat>, a: nat)
    requires Distinct(s)
    ensures Distinct(Without(s, a))
  {
    if s != [] {
      PopList(s);
      WithoutDistinct(s[1..], a);
    }
  }

  /** An arena with all blocks free: every one of them is found on the list, and none is live. */
  lemma FullArena(h: Heap, live: Live, a: nat)
    requires WeakInv(h, live) && a in h.arenas && h.arenas[a].Small? && h.arenas[a].desc < |h.free|
    requires h.arenas[a].cnt == PerArena(h.arenas[a].desc)
    ensures var d := h.arenas[a].desc; forall i: nat :: i < PerArena(d) ==> Arena2Block(a, d, i) in h.free[d]
    ensures forall p <- live :: Block2Arena(p) != a
  {
    assert ArenaInv(h, live, a);
    FreeIdxBound(h, a, h.arenas[a].desc);
    forall p <- live
      ensures Block2Arena(p) != a
    {
      assert LiveInv(h, p, live[p]);
    }
  }

  /** Taking a full arena apart leaves nothing of it. */
  lemma DropInv(h: Heap, live: Live, a: nat)
    requires WeakInv(h, live) && a in h.arenas && h.arenas[a].Small? && h.arenas[a].desc < |h.free|
    requires h.arenas[a].cnt == PerArena(h.arenas[a].desc) && FullOnlyAt(h, a)
    ensures HeapInv(DropArena(h, a), live)
  {
    hide BlockSize, Arena2Block, Block2Arena, IndexOf, IsBlock, FreeIdx;
    var d, h' := h.arenas[a].desc, DropArena(h, a);
    FullArena(h, live, a);
    assert ListInv(h, d);
    WithoutDistinct(h.free[d], a);
    SameCovers(h, h', live);
    forall e: nat | e < DESCS
      ensures ListInv(h', e)
    {
      assert ListInv(h, e);
    }
    forall c <- h'.arenas
      ensures ArenaInv(h', live, c)
    {
      assert ArenaInv(h, live, c);
      ArenaKept(h, h', live, live, c);
    }
    forall p <- live
      ensures LiveInv(h', p, live[p])
    {
      assert LiveInv(h, p, live[p]);
    }
  }

  /** A new arena is used up: its blocks stand one behind the other from the header on, and one more would not fit. */
  lemma NewArenaFills(h: Heap, a: nat, d: nat)
    requires d < DESCS == |h.free| && h.free[d] == []
    ensures var list := AddArena(h, a, d).free[d];
            && |list| > 0 && PlaceFits(|list| - 1, BlockSize(d)) && !PlaceFits(|list|, BlockSize(d))
            && (forall i :: 0 <= i < |list| ==> list[i] == a * PAGE + HEADER + i * BlockSize(d))
            && AddArena(h, a, d).arenas[a] == Small(d, |list|)
  {
    hide BlockSize, PlaceFits;
    NewBlocks(a, d);
    PlacesCounted(d, PerArena(d) - 1);
    PlacesCounted(d, PerArena(d));
    assert h.free[d] + Blocks(a, d, PerArena(d)) == Blocks(a, d, PerArena(d));
  }

  function AddLarge(h: Heap, a: nat, n: nat): Heap {
    h.(arenas := h.arenas[a := Large(n)])
  }

  /** A large allocation: the pages are one arena, the pointer is a + 1. */
  lemma AddLargeInv(h: Heap, live: Live, a: nat, n: nat, size: nat)
    requires HeapInv(h, live) && n >= 1 && HEADER + size <= n * PAGE && forall u :: a <= u < a + n ==> !HeapPage(h, u)
    ensures a * PAGE + HEADER !in live && HeapInv(AddLarge(h, a, n), live[a * PAGE + HEADER := size])
  {
    hide BlockSize, Arena2Block, IndexOf, IsBlock, FreeIdx;
    var p0 := a * PAGE + HEADER;
    var h', live' := AddLarge(h, a, n), live[p0 := size];
    assert Block2Arena(p0) == a;
    ArenaCovered(h, live, a);
    AddCovers(h, h', live, a, n);
    assert p0 in live ==> LiveInv(h, p0, live[p0]);
    forall e: nat | e < DESCS
      ensures ListInv(h', e)
    {
      assert ListInv(h, e);
    }
    forall c <- h'.arenas
      ensures ArenaInv(h', live', c)
    {
      if c != a {
        assert ArenaInv(h, live, c);
        ArenaKept(h, h', live, live', c);
      }
    }
    forall p <- live'
      ensures LiveInv(h', p, live'[p])
    {
      assert p != p0 ==> LiveInv(h, p, live[p]);
    }
  }

  function DropLarge(h: Heap, a: nat): Heap {
    h.(arenas := h.arenas - {a})
  }

  lemma DropLargeInv(h: Heap, live: Live, p0: nat)
    requires HeapInv(h, live) && p0 in live && Block2Arena(p0) in h.arenas && h.arenas[Block2Arena(p0)].Large?
    ensures HeapInv(DropLarge(h, Block2Arena(p0)), live - {p0})
  {
    hide LiveInv, BlockSize, PerArena, Arena2Block, Block2Arena, IndexOf, IsBlock, FreeIdx, ArenasApart, Covers, Distinct;
    var a := Block2Arena(p0);
    var h', live' := DropLarge(h, a), live - {p0};
    SameCovers(h, h', live);
    LargeLeft(h, live, p0);
    forall e: nat | e < DESCS
      ensures ListInv(h', e)
    {
      assert ListInv(h, e);
    }
    forall c <- h'.arenas
      ensures ArenaInv(h', live', c)
    {
      assert ArenaInv(h, live, c) && c != a;
      ArenaKept(h, h', live, live', c);
    }
  }

  /** The other live pointers are not in the large arena. */
  lemma LargeLeft(h: Heap, live: Live, p0: nat)
    requires (forall p <- live :: LiveInv(h, p, live[p])) && p0 in live && Block2Arena(p0) in h.arenas && h.arenas[Block2Arena(p0)].Large?
    ensures forall p <- live :: p != p0 ==> Block2Arena(p) != Block2Arena(p0) && LiveInv(DropLarge(h, Block2Arena(p0)), p, live[p])
  {
    hide BlockSize, Block2Arena, IsBlock;
    assert LiveInv(h, p0, live[p0]);
  }

  // ----- Which pages ------------------------------------------------------------------------------------

  /** Taking and giving blocks changes no page. */
  lemma SameHeapPages(h: Heap, h': Heap)
    requires h'.arenas.Keys == h.arenas.Keys
    requires forall a <- h.arenas :: h'.arenas[a] == h.arenas[a] || (h'.arenas[a].Small? && h.arenas[a].Small?)
    ensures forall u: nat :: HeapPage(h', u) <==> HeapPage(h, u)
  {
    forall a, u
      ensures Covers(h', a, u) <==> Covers(h, a, u)
    {
    }
  }

  /** Removing an arena removes exactly its pages. */
  lemma FewerHeapPages(h: Heap, h': Heap, a: nat)
    requires ArenasApart(h) && a in h.arenas && h'.arenas == h.arenas - {a}
    ensures forall u: nat :: HeapPage(h', u) <==> HeapPage(h, u) && !Covers(h, a, u)
  {
    forall u: nat
      ensures HeapPage(h', u) <==> HeapPage(h, u) && !Covers(h, a, u)
    {
      if HeapPage(h', u) {
        var b :| Covers(h', b, u);
        assert Covers(h, b, u);
      }
      if HeapPage(h, u) && !Covers(h, a, u) {
        var b :| Covers(h, b, u);
        assert Covers(h', b, u);
      }
    }
  }

  // ----- What the invariant means for clients -----------------------------------------------------------

  /** Bytes a live pointer can use: its block, or everything after the header of its large arena. */
  function Capacity(h: Heap, p: nat): nat {
    var a := Block2Arena(p);
    if a !in h.arenas then 0
    else match h.arenas[a] case Small(d, _) => BlockSize(d) case Large(n) => if n == 0 then 0 else n * PAGE - HEADER
  }

  predicate Apart(p: nat, n: nat, q: nat, k: nat) {
    p + n <= q || q + k <= p
  }

  lemma {:induction false} LiveBytes(h: Heap, live: Live, p: nat)
    requires HeapInv(h, live) && p in live
    ensures live[p] <= Capacity(h, p) && Capacity(h, p) > 0
    ensures forall x: nat :: p <= x < p + Capacity(h, p) ==> Covers(h, Block2Arena(p), x / PAGE)
    ensures Block2Arena(p) * PAGE + HEADER <= p
  {
    assert LiveInv(h, p, live[p]);
    var a := Block2Arena(p);
    assert ArenaInv(h, live, a);
    match h.arenas[a]
    case Small(d, _) => Block2ArenaUndoes(a, d, IndexOf(p, d));
    case Large(n) =>
  }

  /** Ranges on the pages of different arenas do not meet. */
  lemma ArenaRangesApart(h: Heap, a: nat, p: nat, n: nat, b: nat, q: nat, k: nat)
    requires ArenasApart(h) && a != b && n > 0 && k > 0
    requires forall x: nat :: p <= x < p + n ==> Covers(h, a, x / PAGE)
    requires forall x: nat :: q <= x < q + k ==> Covers(h, b, x / PAGE)
    ensures Apart(p, n, q, k)
  {
    var x := if p <= q then q else p;
    assert p <= x < p + n ==> Covers(h, a, x / PAGE);
    assert q <= x < q + k ==> Covers(h, b, x / PAGE);
  }

  lemma SamePageApart(p: nat, q: nat, d: nat)
    requires IsBlock(p, d) && IsBlock(q, d) && Block2Arena(p) == Block2Arena(q) && p != q
    ensures Apart(p, BlockSize(d), q, BlockSize(d))
  {
    var a, i, j := Block2Arena(p), IndexOf(p, d), IndexOf(q, d);
    if i < j {
      BlocksApart(a, d, i, j);
    } else {
      BlocksApart(a, d, j, i);
    }
  }

  /** Two different live pointers never share a byte. */
  lemma LiveApart(h: Heap, live: Live, p: nat, q: nat)
    requires HeapInv(h, live) && p in live && q in live && p != q
    ensures Apart(p, Capacity(h, p), q, Capacity(h, q))
  {
    LiveBytes(h, live, p);
    LiveBytes(h, live, q);
    assert LiveInv(h, p, live[p]) && LiveInv(h, q, live[q]);
    var a, b := Block2Arena(p), Block2Arena(q);
    if a == b {
      SamePageApart(p, q, h.arenas[a].desc);
    } else {
      ArenaRangesApart(h, a, p, Capacity(h, p), b, q, Capacity(h, q));
    }
  }

  /** No live byte lies in any arena's header. */
  lemma LiveApartFromHeaders(h: Heap, live: Live, p: nat, a: nat)
    requires HeapInv(h, live) && p in live && a in h.arenas
    ensures Apart(p, Capacity(h, p), a * PAGE, HEADER)
  {
    LiveBytes(h, live, p);
    ArenaCovered(h, live, a);
    if a != Block2Arena(p) {
      ArenaRangesApart(h, Block2Arena(p), p, Capacity(h, p), a, a * PAGE, HEADER);
    }
  }

  /** No live byte lies in a free block. */
  lemma LiveApartFromFree(h: Heap, live: Live, p: nat, d: nat, b: nat)
    requires HeapInv(h, live) && p in live && d < DESCS && b in h.free[d]
    ensures Apart(p, Capacity(h, p), b, BlockSize(d))
  {
    LiveBytes(h, live, p);
    assert ListInv(h, d) && LiveInv(h, p, live[p]);
    var a := Block2Arena(b);
    Block2ArenaUndoes(a, d, IndexOf(b, d));
    ArenaCovered(h, live, a);
    if a == Block2Arena(p) {
      SamePageApart(p, b, d);
    } else {
      ArenaRangesApart(h, Block2Arena(p), p, Capacity(h, p), a, b, BlockSize(d));
    }
  }

  lemma MissingIdx(s: set<nat>, n: nat) returns (i: nat)
    requires |s| < n
    ensures i < n && i !in s
  {
    if Below(n) <= s {
      SubsetSize(Below(n), s);
    }
    i :| i in Below(n) && i !in s;
  }

  /** Every arena at rest has something live in it. */
  lemma SomethingLive(h: Heap, live: Live, a: nat) returns (p: nat)
    requires HeapInv(h, live) && a in h.arenas
    ensures p in live && Block2Arena(p) == a
  {
    assert ArenaInv(h, live, a);
    match h.arenas[a]
    case Large(n) => p := a * PAGE + HEADER;
    case Small(d, c) =>
      var i := MissingIdx(FreeIdx(h, a, d), PerArena(d));
      Block2ArenaUndoes(a, d, i);
      p := Arena2Block(a, d, i);
  }

  lemma HeadIn(s: seq<nat>)
    ensures s == [] || s[0] in s
  {
  }

  /** With nothing live there is no arena left, and every free list is empty. */
  lemma NothingLive(h: Heap)
    requires HeapInv(h, map[])
    ensures h == EMPTY_HEAP
  {
    if a :| a in h.arenas {
      var p := SomethingLive(h, map[], a);
    }
    forall d: nat | d < DESCS
      ensures h.free[d] == []
    {
      assert ListInv(h, d);
      HeadIn(h.free[d]);
    }
    assert h.free == EMPTY_HEAP.free;
  }

  // ----- list_remove on a list of distinct blocks ------------------------------------------

  function RemoveOne(s: seq<nat>, x: nat): seq<nat> {
    if s == [] then [] else if s[0] == x then s[1..] else [s[0]] + RemoveOne(s[1..], x)
  }

  function Filter(s: seq<nat>, gone: set<nat>): (r: seq<nat>)
    ensures forall x :: x in r <==> x in s && x !in gone
  {
    if s == [] then [] else (if s[0] in gone then [] else [s[0]]) + Filter(s[1..], gone)
  }

  lemma {:induction false} RemoveAbsent(s: seq<nat>, x: nat)
    requires x !in s
    ensures RemoveOne(s, x) == s
  {
    if s != [] {
      RemoveAbsent(s[1..], x);
    }
  }

  lemma FilterFirst(s: seq<nat>, gone: set<nat>)
    requires s != []
    ensures Filter(s, gone) == if s[0] in gone then Filter(s[1..], gone) else [s[0]] + Filter(s[1..], gone)
  {
  }

  lemma RemoveFirst(x: nat, rest: seq<nat>, y: nat)
    ensures RemoveOne([y] + rest, x) == if y == x then rest else [y] + RemoveOne(rest, x)
  {
    assert ([y] + rest)[1..] == rest;
  }

  lemma {:induction false} FilterMore(s: seq<nat>, gone: set<nat>, x: nat)
    requires Distinct(s) && x !in gone
    ensures RemoveOne(Filter(s, gone), x) == Filter(s, gone + {x})
  {
    hide Filter, RemoveOne, Distinct;
    if s == [] {
      FilterEmpty(gone);
      FilterEmpty(gone + {x});
      RemoveAbsent([], x);
    } else {
      PopList(s);
      FilterFirst(s, gone);
      FilterFirst(s, gone + {x});
      RemoveFirst(x, Filter(s[1..], gone), s[0]);
      if s[0] == x {
        FilterAbsent(s[1..], gone, x);
      } else {
        FilterMore(s[1..], gone, x);
      }
    }
  }

  lemma FilterEmpty(gone: set<nat>)
    ensures Filter([], gone) == []
  {
  }

  lemma {:induction false} FilterAbsent(s: seq<nat>, gone: set<nat>, x: nat)
    requires x !in s
    ensures Filter(s, gone + {x}) == Filter(s, gone)
  {
    if s != [] {
      FilterAbsent(s[1..], gone, x);
    }
  }

  lemma {:induction false} FilterNone(s: seq<nat>)
    ensures Filter(s, {}) == s
  {
    if s != [] {
      FilterNone(s[1..]);
    }
  }

  /** Removing every block of a page is the list without that page. */
  lemma {:induction false} FilterPage(s: seq<nat>, gone: set<nat>, a: nat)
    requires forall x <- s :: x in gone <==> Block2Arena(x) == a
    ensures Filter(s, gone) == Without(s, a)
  {
    if s != [] {
      FilterPage(s[1..], gone, a);
    }
  }

  /** The addresses of the first n blocks of an arena. */
  ghost function BlockSet(a: nat, d: nat, n: nat): (r: set<nat>)
    ensures forall x :: x in r <==> exists i: nat :: i < n && x == Arena2Block(a, d, i)
  {
    if n == 0 then {} else BlockSet(a, d, n - 1) + {Arena2Block(a, d, n - 1)}
  }

  lemma NotYet(a: nat, d: nat, i: nat)
    requires d < DESCS && i < PerArena(d)
    ensures Arena2Block(a, d, i) !in BlockSet(a, d, i)
  {
    forall j: nat | j < i
      ensures Arena2Block(a, d, j) != Arena2Block(a, d, i)
    {
      Block2ArenaUndoes(a, d, i);
      Block2ArenaUndoes(a, d, j);
    }
  }

  lemma AllGone(list: seq<nat>, a: nat, d: nat)
    requires d < DESCS && forall x <- list :: IsBlock(x, d)
    ensures forall x <- list :: x in BlockSet(a, d, PerArena(d)) <==> Block2Arena(x) == a
  {
    forall x <- list
      ensures x in BlockSet(a, d, PerArena(d)) <==> Block2Arena(x) == a
    {
      if x in BlockSet(a, d, PerArena(d)) {
        var i: nat :| i < PerArena(d) && x == Arena2Block(a, d, i);
        Block2ArenaUndoes(a, d, i);
      }
    }
  }

  /** Removing an element of a list of distinct blocks closes the gap at its place. */
  lemma RemoveAt(s: seq<nat>, x: nat) returns (k: nat)
    requires Distinct(s) && x in s
    ensures k < |s| && s[k] == x && RemoveOne(s, x) == s[..k] + s[k + 1..]
  {
    hide RemoveOne;
    k :| 0 <= k < |s| && s[k] == x;
    RemoveIndex(s, k);
  }

  lemma {:induction false} RemoveIndex(s: seq<nat>, k: nat)
    requires Distinct(s) && k < |s|
    ensures RemoveOne(s, s[k]) == s[..k] + s[k + 1..]
    decreases k
  {
    if k == 0 {
      assert s[..0] + s[1..] == s[1..];
    } else {
      RemoveIndex(s[1..], k - 1);
      GapClosed(s, k - 1);
    }
  }

  lemma GapClosed(s: seq<nat>, j: nat)
    requires j + 1 < |s|
    ensures [s[0]] + (s[1..][..j] + s[1..][j + 1..]) == s[..j + 1] + s[j + 2..]
  {
  }

  lemma {:induction false} FilterDistinct(s: seq<nat>, gone: set<nat>)
    requires Distinct(s)
    ensures Distinct(Filter(s, gone))
  {
    if s != [] {
      PopList(s);
      FilterDistinct(s[1..], gone);
    }
  }
}
