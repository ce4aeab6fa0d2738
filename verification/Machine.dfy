/**
  The page level of kernel/memory.c and userprog/process.c as it runs: bitmaps and
  words of physical memory, edited in place through the self-map of whatever
  directory is current.  The ghost field w is the world the words stand for.
 */
module Machine {
  import opened Outcomes
  import opened Bitmaps
  import opened Paging
  import opened AddressSpaces
  import opened PageAllocation
  import opened PageRelease
  import opened PageRuns
  import opened PageTables

  lemma BootFields(all_mem: nat)
    requires USED_MEM <= all_mem < USED_MEM + 87392 * 4096
    ensures var p, w := MemPoolInit(all_mem), Boot(all_mem);
            && w.kf == Clear(p.kbm_len * 8) && w.uf == Clear(p.ubm_len * 8)
            && w.kern == Space(Clear(p.kbm_len * 8), map[]) && w.procs == map[] && Virts(w) == map[] && Dirs(w) == map[]
  {
  }

  lemma BitmapFits(before: map<nat, nat>, after: map<nat, nat>, pcb: nat, v: nat, n: nat, dir: nat)
    requires Takes(before, after, pcb, v, n, dir)
    ensures USER_BITS / 8 <= n * PG_SIZE
  {
  }

  class Machine {
    var mem: Phys
    const kfMap: Bitmap            // the kernel's and the user's frames
    const ufMap: Bitmap
    const kvMap: Bitmap            // the kernel's virtual pages, and each process's
    var uvMap: map<Pid, Bitmap>
    var uvAddr: map<Pid, nat>      // where the bytes of a process's bitmap are
    var ustart: nat
    var pgdir: map<Pid, nat>
    var cur: Option<Pid>   // the process the running thread belongs to, if any
    var cr3: nat           // frame of the current page directory
    ghost var kf: seq<bool>
    ghost var uf: seq<bool>
    ghost var kvirt: seq<bool>
    ghost var uvirt: map<Pid, seq<bool>>
    ghost var userBits: set<array<bv8>>   // the arrays of the processes' bitmaps
    ghost var w: World

    /** kf, uf, kvirt and uvirt are what the bitmaps hold, and no two bitmaps share an array. */
    ghost predicate Backed()
      reads `kf, `uf, `kvirt, `uvirt, `uvMap, `userBits, kfMap.bits, ufMap.bits, kvMap.bits, userBits
    {
      && kf == kfMap.Contents() && uf == ufMap.Contents() && kvirt == kvMap.Contents() && uvMap.Keys == uvirt.Keys
      && (forall p <- uvMap :: uvMap[p].bits in userBits && uvMap[p].Contents() == uvirt[p])
      && kfMap.bits != ufMap.bits && kfMap.bits != kvMap.bits && ufMap.bits != kvMap.bits
      && {kfMap.bits, ufMap.bits, kvMap.bits} !! userBits
      && (forall p <- uvMap, q <- uvMap :: p != q ==> uvMap[p].bits != uvMap[q].bits)
    }

    /** The fields and the words say what the world says. */
    ghost predicate Agrees()
      reads this, kfMap.bits, ufMap.bits, kvMap.bits, userBits
    {
      && Backed()
      && kf == w.kf && uf == w.uf && ustart == w.ustart && kvirt == w.kern.virt
      && uvirt == Virts(w)
      && pgdir == Dirs(w)
      && Covered(w) && Stands(mem, w, cur, cr3)
    }

    ghost predicate Valid()
      reads this, kfMap.bits, ufMap.bits, kvMap.bits, userBits
    {
      Inv(w) && Agrees()
    }

    /** The machine after boot/loader.S and mem_pool_init, running the main thread on the kernel directory. */
    constructor (all_mem: nat, loaded: Phys)
      requires USED_MEM <= all_mem < USED_MEM + 87392 * 4096 && LoaderLeft(loaded)
      ensures Valid() && w == Boot(all_mem) && cur == None
      ensures fresh(kfMap.bits) && fresh(ufMap.bits) && fresh(kvMap.bits) && uvMap == map[] && userBits == {}
    {
      hide Machine.Backed, Covered, Stands, Inv, Virts, Dirs, LoaderLeft, Boot, MemPoolInit, Unpack, Clear;
      BootInv(all_mem);
      BootFields(all_mem);
      BootStands(loaded, Boot(all_mem));
      var p := MemPoolInit(all_mem);
      mem, cur, cr3 := loaded, None, KDIR;
      kfMap := new Bitmap(p.kbm_len);
      ufMap := new Bitmap(p.ubm_len);
      kvMap := new Bitmap(p.kbm_len);
      uvMap, uvAddr, userBits, ustart, pgdir := map[], map[], {}, Boot(all_mem).ustart, map[];
      kf, uf, kvirt, uvirt := Boot(all_mem).kf, Boot(all_mem).uf, Boot(all_mem).kern.virt, map[];
      w := Boot(all_mem);
      new;
      ClearPools();
      Becomes(Boot(all_mem));
    }

    /** The three bitmap_init of mem_pool_init. */
    method ClearPools()
      requires kfMap.bits != ufMap.bits && kfMap.bits != kvMap.bits && ufMap.bits != kvMap.bits
      requires kf == Clear(kfMap.bits.Length * 8) && uf == Clear(ufMap.bits.Length * 8) && kvirt == Clear(kvMap.bits.Length * 8)
      requires uvMap == map[] && uvirt == map[] && userBits == {}
      modifies kfMap.bits, ufMap.bits, kvMap.bits
      ensures Backed()
    {
      hide Unpack, Clear;
      kfMap.Init();
      ufMap.Init();
      kvMap.Init();
    }

    /** From here on the fields and the words stand for w1. */
    ghost method Becomes(w1: World)
      requires Backed() && Covered(w1) && Stands(mem, w1, cur, cr3)
      requires kf == w1.kf && uf == w1.uf && ustart == w1.ustart && kvirt == w1.kern.virt && uvirt == Virts(w1) && pgdir == Dirs(w1)
      modifies `w
      ensures Agrees() && w == w1
    {
      hide Machine.Backed, Covered, Stands, Virts, Dirs;
      w := w1;
    }

    /** PF_KERNEL, or PF_USER in the running process. */
    ghost function Caller(user: bool): Id
      requires user ==> cur.Some?
      reads this
    {
      if user then User(cur.value) else Kernel
    }

    // ----- Memory through the current directory ------------------------------------------

    method Load(va: nat) returns (word: nat)
      requires va < VLIMIT && Walk(mem, cr3, va).Some?
      ensures var pa := Walk(mem, cr3, va).value; word == Entry(mem, pa.frame, pa.off / 4)
    {
      var pa := Walk(mem, cr3, va).value;
      word := Entry(mem, pa.frame, pa.off / 4);
    }

    method Store(va: nat, word: nat)
      requires va < VLIMIT && Walk(mem, cr3, va).Some?
      modifies `mem
      ensures var pa := Walk(old(mem), cr3, va).value; mem == Put(old(mem), pa.frame, pa.off / 4, word)
    {
      var pa := Walk(mem, cr3, va).value;
      mem := Put(mem, pa.frame, pa.off / 4, word);
    }

    /** memset of one page to zero */
    method ClearPage(va: nat)
      requires va < VLIMIT && va % PG_SIZE == 0 && Walk(mem, cr3, va).Some?
      modifies `mem
      ensures mem == ZeroFrame(old(mem), Walk(old(mem), cr3, va).value.frame)
    {
      mem := ZeroFrame(mem, Walk(mem, cr3, va).value.frame);
    }

    /** *pde_ptr(va) */
    method LoadPde(va: nat) returns (word: nat)
      requires va < VLIMIT && SelfMap(mem, cr3)
      ensures word == Entry(mem, cr3, PdeIdx(va))
    {
      WalkPdePtr(mem, cr3, va);
      word := Load(PdePtr(va));
    }

    method StorePde(va: nat, word: nat)
      requires va < VLIMIT && SelfMap(mem, cr3)
      modifies `mem
      ensures mem == Put(old(mem), cr3, PdeIdx(va), word)
    {
      WalkPdePtr(mem, cr3, va);
      Store(PdePtr(va), word);
    }

    ghost function TableOf(va: nat): nat
      requires va < VLIMIT
      reads this
    {
      FrameOf(Entry(mem, cr3, PdeIdx(va)))
    }

    /** *pte_ptr(va): does not fault, because the page table is there. */
    method LoadPte(va: nat) returns (word: nat)
      requires va < VLIMIT && SelfMap(mem, cr3) && Present(Entry(mem, cr3, PdeIdx(va)))
      ensures word == Entry(mem, TableOf(va), PteIdx(va))
    {
      WalkPtePtr(mem, cr3, va);
      word := Load(PtePtr(va));
    }

    method StorePte(va: nat, word: nat)
      requires va < VLIMIT && SelfMap(mem, cr3) && Present(Entry(mem, cr3, PdeIdx(va)))
      modifies `mem
      ensures mem == Put(old(mem), old(TableOf(va)), PteIdx(va), word)
    {
      WalkPtePtr(mem, cr3, va);
      Store(PtePtr(va), word);
    }

    /** memset of the page that pte_ptr(va) lies in: the whole page table. */
    method ClearTable(va: nat)
      requires va < VLIMIT && SelfMap(mem, cr3) && Present(Entry(mem, cr3, PdeIdx(va)))
      modifies `mem
      ensures mem == ZeroFrame(old(mem), old(TableOf(va)))
    {
      PtePtrIndices(va);
      var page := PtePtr(va) / PG_SIZE * PG_SIZE;
      assert PdeIdx(page) == 1023 && PteIdx(page) == PdeIdx(va);
      ClearPage(page);
    }

    /** addr_v2p */
    method AddrV2P(va: nat) returns (pa: Loc)
      requires va < VLIMIT && SelfMap(mem, cr3) && Present(Entry(mem, cr3, PdeIdx(va)))
      ensures pa == Loc(FrameOf(Entry(mem, TableOf(va), PteIdx(va))), va % PG_SIZE)
    {
      var pte := LoadPte(va);
      pa := Loc(pte / PG_SIZE, va % PG_SIZE);
    }

    // ----- Allocation ----------------------------------------------------------------------

    /** palloc; the answer NULL is there in the code, but a scan for one bit never comes back empty. */
    method Palloc(user: bool) returns (r: Outcome<nat>)
      requires Backed()
      modifies `kf, `uf, kfMap.bits, ufMap.bits
      ensures Backed()
      ensures match AddressSpaces.Palloc(if user then old(uf) else old(kf))
              case Panic(e) => r == Panic(e) && kf == old(kf) && uf == old(uf)
              case Ok(i) =>
                && r == Ok((if user then ustart else KERNEL_FRAMES) + i)
                && kf == (if user then old(kf) else old(kf)[i := true])
                && uf == (if user then old(uf)[i := true] else old(uf))
    {
      hide Machine.Backed, FirstFit;
      var scan := ScanFrames(user);
      if scan.Panic? {
        return Panic(scan.fault);
      }
      ScanOne(if user then uf else kf);
      SetFrameBit(user, scan.value, true);
      return Ok((if user then ustart else KERNEL_FRAMES) + scan.value);
    }

    /** The scan of a frame pool for one bit. */
    method ScanFrames(user: bool) returns (r: Outcome<int>)
      requires Backed()
      ensures Backed() && r == ScanResult(if user then uf else kf, 1)
    {
      hide Unpack, FirstFit;
      if user {
        r := ufMap.Scan(1);
      } else {
        r := kfMap.Scan(1);
      }
    }

    /** bitmap_set in a frame pool. */
    method SetFrameBit(user: bool, i: nat, value: bool)
      requires Backed() && i < |if user then uf else kf|
      modifies `kf, `uf, kfMap.bits, ufMap.bits
      ensures Backed()
      ensures kf == (if user then old(kf) else old(kf)[i := value]) && uf == (if user then old(uf)[i := value] else old(uf))
    {
      hide Unpack;
      if user {
        ufMap.Set(i, value);
        uf := uf[i := value];
      } else {
        kfMap.Set(i, value);
        kf := kf[i := value];
      }
    }

    /** page_table_map: every access to a table goes through the self-map, and none can fault. */
    method PageTableMap(va: nat, f: nat) returns (r: Outcome<()>)
      requires va < WINDOW && va % PG_SIZE == 0 && SelfMap(mem, cr3) && Backed()
      requires cr3 < KERNEL_FRAMES || BitAt(kf, KERNEL_FRAMES, cr3)
      modifies `mem, `kf, `uf, kfMap.bits, ufMap.bits
      ensures uf == old(uf) && Backed()
      ensures var pde := Entry(old(mem), cr3, PdeIdx(va));
              if Present(pde) then
                && kf == old(kf)
                && if Present(Entry(old(mem), FrameOf(pde), PteIdx(va))) then r == Panic(PteRepeat)
                   else r == Ok(()) && mem == MapWords(old(mem), cr3, va, f, 0)
              else
                match AddressSpaces.Palloc(old(kf))
                case Panic(e) => r == Panic(e)
                case Ok(t) => r == Ok(()) && kf == old(kf)[t := true] && mem == MapWords(old(mem), cr3, va, f, KERNEL_FRAMES + t)
    {
      var pde := LoadPde(va);
      if Present(pde) {
        var pte := LoadPte(va);
        if Present(pte) {
          return Panic(PteRepeat);
        }
        StorePte(va, MakeEntry(f));
      } else {
        var table := Palloc(false);
        if table.Panic? {
          return Panic(table.fault);
        }
        StorePde(va, MakeEntry(table.value));
        ClearTable(va);
        var pte := LoadPte(va);
        if Present(pte) {
          return Panic(PteRepeat);
        }
        StorePte(va, MakeEntry(f));
      }
      return Ok(());
    }

    /** The body of malloc_page's loop. */
    method AddOnePage(user: bool, va: nat) returns (r: Outcome<()>)
      requires Agrees() && (user ==> cur.Some?) && va % PG_SIZE == 0 && InReach(Caller(user), va / PG_SIZE)
      modifies `mem, `kf, `uf, `w, kfMap.bits, ufMap.bits
      ensures match AddPage(old(w), Caller(user), va / PG_SIZE)
              case Panic(e) => r == Panic(e)
              case Ok(w1) => r == Ok(()) && Agrees() && w == w1
    {
      hide Machine.Backed, Shape, Covered, Refines, AddPage, AddressSpaces.Palloc, MapWords, Virts, Dirs, Present, FrameOf, Entry, MakeEntry, PdeIdx, PteIdx;
      ghost var id, v := Caller(user), va / PG_SIZE;
      ghost var turn := AddPage(w, id, v);
      ghost var pool, has, table := AddressSpaces.Palloc(Pool(w, id)), HasTable(w, id, v), AddressSpaces.Palloc(w.kf);
      EntriesOf(mem, w, cur, cr3, id, v);
      ghost var mapped := v in SpaceOf(w, id).pages;
      AddPagePools(w, id, v);
      var page := Palloc(user);
      if page.Panic? {
        assert TurnFault(pool, mapped, has, table) == Some(page.fault);
        return Panic(page.fault);
      }
      r := PageTableMap(va, page.value);
      if r.Panic? {
        assert TurnFault(pool, mapped, has, table) == Some(r.fault);
      } else {
        assert TurnFault(pool, mapped, has, table) == None;
        assert turn.Ok? && TurnPools(w, id, v, turn.value);
        ghost var t := if has then 0 else KERNEL_FRAMES + table.value;
        assert mem == MapWords(old(mem), cr3, va, PoolStart(w, id) + pool.value, t);
        assert kf == turn.value.kf;
        assert uf == turn.value.uf;
        AddPageShape(w, id, v);
        AddPageStands(old(mem), w, cur, cr3, id, v, t);
        assert Stands(mem, turn.value, cur, cr3);
        Becomes(turn.value);
      }
    }
  
    /** bitmap_set in a virtual pool. */
    method SetVirtualBit(user: bool, i: nat, value: bool)
      requires Backed() && (user ==> cur.Some? && cur.value in uvirt) && i < |if user then uvirt[cur.value] else kvirt|
      modifies `kvirt, `uvirt, kvMap.bits, userBits
      ensures Backed()
      ensures kvirt == (if user then old(kvirt) else old(kvirt)[i := value])
      ensures uvirt == (if user then old(uvirt)[cur.value := old(uvirt)[cur.value][i := value]] else old(uvirt))
    {
      hide Unpack;
      if user {
        uvMap[cur.value].Set(i, value);
        uvirt := uvirt[cur.value := uvirt[cur.value][i := value]];
      } else {
        kvMap.Set(i, value);
        kvirt := kvirt[i := value];
      }
    }

    /** The loops of bitmap_set in get_virtual_addr and vaddr_remove: n bits from i of the caller's virtual bitmap. */
    method SetVirtualBits(user: bool, i: nat, n: nat, value: bool)
      requires Backed() && (user ==> cur.Some? && cur.value in uvirt) && i + n <= |if user then uvirt[cur.value] else kvirt|
      modifies `kvirt, `uvirt, kvMap.bits, userBits
      ensures Backed()
      ensures kvirt == (if user then old(kvirt) else SetRange(old(kvirt), i, n, value))
      ensures uvirt == (if user then old(uvirt)[cur.value := SetRange(old(uvirt)[cur.value], i, n, value)] else old(uvirt))
    {
      hide Machine.Backed, SetRange;
      var cnt := 0;
      if user {
        SetRangeGrows(uvirt[cur.value], i, 0, value);
        assert uvirt[cur.value := uvirt[cur.value]] == uvirt;
      } else {
        SetRangeGrows(kvirt, i, 0, value);
      }
      while cnt < n
        invariant cnt <= n && Backed()
        invariant kvirt == (if user then old(kvirt) else SetRange(old(kvirt), i, cnt, value))
        invariant uvirt == (if user then old(uvirt)[cur.value := SetRange(old(uvirt)[cur.value], i, cnt, value)] else old(uvirt))
      {
        SetRangeGrows(if user then old(uvirt)[cur.value] else old(kvirt), i, cnt, value);
        SetVirtualBit(user, i + cnt, value);
        cnt := cnt + 1;
      }
    }

    method SetVirtual(user: bool, i: nat, n: nat, value: bool)
      requires Agrees() && (user ==> cur.Some?) && i + n <= |SpaceOf(w, Caller(user)).virt|
      modifies `kvirt, `uvirt, `w, kvMap.bits, userBits
      ensures Agrees() && w == WithVirt(old(w), Caller(user), SetRange(SpaceOf(old(w), Caller(user)).virt, i, n, value))
    {
      hide Machine.Backed, Stands, Covered, SameFrames, SetRange;
      StandsRuns(mem, w, cur, cr3);
      ghost var id := Caller(user);
      ghost var virt := SetRange(SpaceOf(w, id).virt, i, n, value);
      WithVirtFields(w, id, virt);
      SameFramesStands(mem, w, WithVirt(w, id, virt), cur, cr3);
      SetVirtualBits(user, i, n, value);
      Becomes(WithVirt(w, id, virt));
    }

    /** The scan of the caller's virtual bitmap; a kernel thread's user bitmap has no bits at all. */
    method ScanVirtual(user: bool, n: nat) returns (r: Outcome<int>)
      requires n >= 1 && Agrees() && (user && cur.Some? ==> cur.value in uvirt)
      ensures Agrees() && r == ScanResult(if !user then kvirt else if cur.Some? then uvirt[cur.value] else [], n)
    {
      if !user {
        r := kvMap.Scan(n);
      } else if cur.Some? {
        r := uvMap[cur.value].Scan(n);
      } else {
        r := Panic(BitmapFull);
      }
    }

    /** get_virtual_addr */
    method GetVirtualAddr(user: bool, n: nat) returns (r: Outcome<Option<nat>>)
      requires Agrees() && n >= 1
      modifies `kvirt, `uvirt, `w, kvMap.bits, userBits
      ensures user && cur.None? ==> r == Panic(BitmapFull)
      ensures (user ==> cur.Some?) ==>
                match AddressSpaces.GetVirtualAddr(old(w), Caller(user), n)
                case Panic(e) => r == Panic(e)
                case Ok((w1, None)) => r == Ok(None) && Agrees() && w == w1
                case Ok((w1, Some(v))) => r == Ok(Some(v * PG_SIZE)) && Agrees() && w == w1
    {
      hide Machine.Backed, Stands, Covered, IsFirstFit;
      StandsRuns(mem, w, cur, cr3);
      var scan := ScanVirtual(user, n);
      if scan.Panic? {
        return Panic(scan.fault);
      }
      if scan.value == -1 {
        return Ok(None);
      }
      var i := scan.value;
      SetVirtual(user, i, n, true);
      if user && USER_STACK <= USER_BASE + i {
        return Panic(StackOverlap);
      }
      return Ok(Some(((if user then USER_BASE else K_HEAP) + i) * PG_SIZE));
    }

    /** The loop of malloc_page, from the address va on. */
    method AddRange(user: bool, start: nat, n: nat) returns (r: Outcome<()>)
      requires Agrees() && (user ==> cur.Some?) && start % PG_SIZE == 0
      requires forall u :: start / PG_SIZE <= u < start / PG_SIZE + n ==> u !in SpaceOf(w, Caller(user)).pages && InReach(Caller(user), u)
      modifies `mem, `kf, `uf, `w, kfMap.bits, ufMap.bits
      ensures match AddPages(old(w), Caller(user), start / PG_SIZE, n)
              case Panic(e) => r == Panic(e)
              case Ok(w1) => r == Ok(()) && Agrees() && w == w1
    {
      hide Machine.Backed, Covered, Refines, Shape, AddPage;
      ghost var id, v := Caller(user), start / PG_SIZE;
      var va, cnt := start, n;
      while cnt > 0
        invariant 0 <= cnt <= n && va == (v + n - cnt) * PG_SIZE && Agrees() && Has(w, id)
        invariant AddPages(w, id, va / PG_SIZE, cnt) == AddPages(old(w), id, v, n)
        invariant forall u :: va / PG_SIZE <= u < v + n ==> u !in SpaceOf(w, id).pages && InReach(id, u)
      {
        AddPagesTurn(w, id, va / PG_SIZE, cnt);
        var turn := AddOnePage(user, va);
        if turn.Panic? {
          return Panic(turn.fault);
        }
        va, cnt := va + PG_SIZE, cnt - 1;
      }
      return Ok(());
    }

    /** malloc_page */
    method MallocPage(user: bool, n: nat) returns (r: Outcome<Option<nat>>)
      requires Valid()
      modifies `mem, `kf, `uf, `kvirt, `uvirt, `w, kfMap.bits, ufMap.bits, kvMap.bits, userBits
      ensures user && cur.None? ==> r == Panic(if 0 < n < MAX_PAGES then BitmapFull else BadPageCount)
      ensures (user ==> cur.Some?) ==>
                match AddressSpaces.MallocPage(old(w), Caller(user), n)
                case Panic(e) => r == Panic(e)
                case Ok((w1, None)) => r == Ok(None) && Valid() && w == w1
                case Ok((w1, Some(v))) => r == Ok(Some(v * PG_SIZE)) && Valid() && w == w1
    {
      hide Machine.Backed, Stands, Covered, Inv, AddressSpaces.GetVirtualAddr, AddPages, Placed, IsFirstFit, FirstFit;
      StandsRuns(mem, w, cur, cr3);
      if !(0 < n < MAX_PAGES) {
        return Panic(BadPageCount);
      }
      if user ==> cur.Some? {
        MallocPageReach(w, Caller(user), n);
        MallocPageCorrect(w, Caller(user), n);
      }
      var start := GetVirtualAddr(user, n);
      if start.Panic? || start.value.None? {
        return start;
      }
      var done := AddRange(user, start.value.value, n);
      if done.Panic? {
        return Panic(done.fault);
      }
      return start;
    }
  
    /** get_a_page: user pages for a process, kernel pages for a kernel thread, and nothing else. */
    method GetAPage(user: bool, va: nat) returns (r: Outcome<nat>)
      requires Valid() && va % PG_SIZE == 0
      requires user == cur.Some? ==>
                 var v := va / PG_SIZE;
                 BasePage(Caller(user)) <= v < BasePage(Caller(user)) + |SpaceOf(w, Caller(user)).virt|
      modifies `mem, `kf, `uf, `kvirt, `uvirt, `w, kfMap.bits, ufMap.bits, kvMap.bits, userBits
      ensures user != cur.Some? ==> r == Panic(WrongContext)
      ensures user == cur.Some? ==>
                match AddressSpaces.GetAPage(old(w), Caller(user), va / PG_SIZE)
                case Panic(e) => r == Panic(e)
                case Ok(w1) => r == Ok(va) && Valid() && w == w1
    {
      hide Machine.Backed, Stands, Covered, Inv, AddPage, Placed;
      if user != cur.Some? {
        return Panic(WrongContext);
      }
      StandsRuns(mem, w, cur, cr3);
      ghost var id, v := Caller(user), va / PG_SIZE;
      if v !in SpaceOf(w, id).pages {
        GetAPageCorrect(w, id, v);
      } else {
        GetAPageTwice(w, id, v);
      }
      ReachOne(w, id, v);
      SetVirtual(user, va / PG_SIZE - if user then USER_BASE else K_HEAP, 1, true);
      var turn := AddOnePage(user, va);
      if turn.Panic? {
        return Panic(turn.fault);
      }
      return Ok(va);
    }

    // ----- Release ---------------------------------------------------------------------------

    /** pfree */
    method Pfree(f: nat)
      requires KERNEL_FRAMES + |kf| <= ustart && Backed()
      requires (ustart <= f < ustart + |uf|) || (KERNEL_FRAMES <= f < KERNEL_FRAMES + |kf|)
      modifies `kf, `uf, kfMap.bits, ufMap.bits
      ensures if ustart <= f then uf == old(uf)[f - ustart := false] && kf == old(kf)
              else kf == old(kf)[f - KERNEL_FRAMES := false] && uf == old(uf)
      ensures Backed()
    {
      hide Machine.Backed;
      if f >= ustart {
        SetFrameBit(true, f - ustart, false);
      } else {
        SetFrameBit(false, f - KERNEL_FRAMES, false);
      }
    }

    /** page_table_pte_remove: the entry keeps its frame and loses its present bit. */
    method PteRemove(va: nat)
      requires va < VLIMIT && SelfMap(mem, cr3) && Present(Entry(mem, cr3, PdeIdx(va)))
      modifies `mem
      ensures exists word :: !Present(word) && mem == Put(old(mem), old(TableOf(va)), PteIdx(va), word)
    {
      var pte := LoadPte(va);
      var word := pte - pte % 2;
      StorePte(va, word);
      assert !Present(word);
    }

    /** The body of mfree_page's loop. */
    method DropOnePage(user: bool, va: nat)
      requires Agrees() && (user ==> cur.Some?) && va % PG_SIZE == 0 && InReach(Caller(user), va / PG_SIZE)
      requires Mapped(w, Caller(user), va / PG_SIZE, 1)
      requires !user ==> forall p <- w.procs :: w.procs[p].dir != va / PG_SIZE
      modifies `mem, `kf, `uf, `w, kfMap.bits, ufMap.bits
      ensures Agrees() && w == DropPage(old(w), Caller(user), va / PG_SIZE)
    {
      hide Machine.Backed, Stands, Covered, DropPage, Mapped, Virts, Dirs, Put, Walk;
      StandsRuns(mem, w, cur, cr3);
      ghost var id, v := Caller(user), va / PG_SIZE;
      DropPageReady(mem, w, cur, cr3, id, v);
      var pa := AddrV2P(va);
      Pfree(pa.frame);
      PteRemove(va);
      ghost var word :| !Present(word) && mem == Put(old(mem), old(TableOf(va)), PteIdx(va), word);
      DropPageStands(old(mem), w, cur, cr3, id, v, word);
      Becomes(DropPage(w, id, v));
    }

    /** The loop of mfree_page. */
    method DropRange(user: bool, va: nat, n: nat)
      requires Agrees() && (user ==> cur.Some?) && va % PG_SIZE == 0 && Mapped(w, Caller(user), va / PG_SIZE, n)
      requires forall u :: va / PG_SIZE <= u < va / PG_SIZE + n ==> InReach(Caller(user), u)
      requires !user ==> forall p <- w.procs :: !(va / PG_SIZE <= w.procs[p].dir < va / PG_SIZE + n)
      modifies `mem, `kf, `uf, `w, kfMap.bits, ufMap.bits
      ensures Agrees() && w == DropPages(old(w), Caller(user), va / PG_SIZE, n)
    {
      hide Machine.Backed, Stands, Covered, DropPage, Mapped, Virts, Dirs;
      ghost var id, v := Caller(user), va / PG_SIZE;
      var page, cnt := va, n;
      while cnt > 0
        invariant 0 <= cnt <= n && page == (v + n - cnt) * PG_SIZE && Agrees()
        invariant Mapped(w, id, page / PG_SIZE, cnt)
        invariant DropPages(w, id, page / PG_SIZE, cnt) == DropPages(old(w), id, v, n)
        invariant Dirs(w) == Dirs(old(w))
      {
        DropPagesTurn(w, id, page / PG_SIZE, cnt);
        if !user {
          DirsKept(old(w), w, id, v, n);
        }
        DropOnePage(user, page);
        page, cnt := page + PG_SIZE, cnt - 1;
      }
    }

    /** mfree_page, with vaddr_remove; the caller must have the pages, and they must not be a page directory. */
    method MfreePage(user: bool, va: nat, n: nat) returns (r: Outcome<()>)
      requires Valid() && (user ==> cur.Some?)
      requires n >= 1 && va % PG_SIZE == 0 ==> Mapped(w, Caller(user), va / PG_SIZE, n)
      requires !user ==> forall p <- w.procs :: !(va / PG_SIZE <= w.procs[p].dir < va / PG_SIZE + n)
      modifies `mem, `kf, `uf, `kvirt, `uvirt, `w, kfMap.bits, ufMap.bits, kvMap.bits, userBits
      ensures r.Ok? <==> n >= 1 && va % PG_SIZE == 0
      ensures r.Ok? ==> Valid() && w == AddressSpaces.MfreePage(old(w), Caller(user), va / PG_SIZE, n)
    {
      hide Machine.Backed, Stands, Covered, Inv, DropPages, Mapped, Released, Virts, Dirs;
      if n == 0 {
        return Panic(BadPageCount);
      }
      if va % PG_SIZE != 0 {
        return Panic(BadAlignment);
      }
      StandsRuns(mem, w, cur, cr3);
      ghost var id, v := Caller(user), va / PG_SIZE;
      MfreePageCorrect(w, id, v, n);
      MfreePageReach(w, id, v, n);
      DropRange(user, va, n);
      SetVirtual(user, va / PG_SIZE - if user then USER_BASE else K_HEAP, n, false);
      return Ok(());
    }

    // ----- Kernel pages and processes ------------------------------------------------------------

    ghost predicate Cleared(v: nat, n: nat)
      reads this
    {
      forall u, i: nat :: v <= u < v + n && i < 1024 ==> u in w.kern.pages && Entry(mem, w.kern.pages[u], i) == 0
    }

    /** One page of a memset: other kernel pages keep their words. */
    method ClearKernelPage(va: nat)
      requires Valid() && va % PG_SIZE == 0 && va / PG_SIZE in w.kern.pages
      requires forall p <- w.procs :: w.procs[p].dir != va / PG_SIZE
      modifies `mem
      ensures Valid()
      ensures mem == ZeroFrame(old(mem), w.kern.pages[va / PG_SIZE])
    {
      hide Machine.Backed, Stands, Covered, Inv;
      ghost var v := va / PG_SIZE;
      KernelWalk(mem, w, cur, cr3, v, 0);
      ClearPage(va);
      KernelStore(old(mem), w, cur, cr3, v, mem);
    }

    /** get_kernel_pages: malloc_page, then the pages cleared; the lock around it is taken by one thread at a time. */
    method GetKernelPages(n: nat) returns (r: Outcome<Option<nat>>)
      requires Valid()
      modifies `mem, `kf, `uf, `kvirt, `uvirt, `w, kfMap.bits, ufMap.bits, kvMap.bits, userBits
      ensures match AddressSpaces.MallocPage(old(w), Kernel, n)
              case Panic(e) => r == Panic(e)
              case Ok((w1, None)) => r == Ok(None) && Valid() && w == w1
              case Ok((w1, Some(v))) => r == Ok(Some(v * PG_SIZE)) && Valid() && w == w1 && Cleared(v, n)
    {
      hide Machine.Backed, Stands, Covered, Inv, AddressSpaces.MallocPage;
      KernelRangeFresh(w, n);
      r := MallocPage(false, n);
      if r.Panic? || r.value.None? {
        return;
      }
      ghost var v := r.value.value / PG_SIZE;
      var k := 0;
      while k < n
        invariant 0 <= k <= n && Valid() && w == AddressSpaces.MallocPage(old(w), Kernel, n).value.0
        invariant Cleared(v, k)
      {
        ClearKernelPage(r.value.value + k * PG_SIZE);
        k := k + 1;
      }
    }
  
    /** A word of a kernel heap page that is no directory, written through its address. */
    method StoreKernelWord(va: nat, word: nat)
      requires Valid() && va % 4 == 0 && va / PG_SIZE in w.kern.pages
      requires forall p <- w.procs :: w.procs[p].dir != va / PG_SIZE
      modifies `mem
      ensures Valid() && mem == Put(old(mem), w.kern.pages[va / PG_SIZE], va % PG_SIZE / 4, word)
    {
      hide Machine.Backed, Stands, Covered, Inv;
      KernelWalk(mem, w, cur, cr3, va / PG_SIZE, va % PG_SIZE);
      Store(va, word);
      KernelStore(old(mem), w, cur, cr3, va / PG_SIZE, mem);
    }

    lemma ClearedOne(v: nat)
      requires Cleared(v, 1) && v in w.kern.pages
      ensures forall i: nat :: i < 1024 ==> Entry(mem, w.kern.pages[v], i) == 0
    {
    }

    /** The address of word k of the page at va. */
    method WordAt(va: nat, k: nat) returns (addr: nat)
      requires va % PG_SIZE == 0 && k < 1024
      ensures addr % 4 == 0 && addr / PG_SIZE == va / PG_SIZE && addr % PG_SIZE / 4 == k
    {
      addr := va + k * 4;
    }

    /** The memcpy of create_page_dir: the upper 256 words of the current directory, word by word. */
    method CopyKernelHalf(va: nat)
      requires Valid() && va % PG_SIZE == 0 && va / PG_SIZE in w.kern.pages
      requires forall i: nat :: i < 1024 ==> Entry(mem, w.kern.pages[va / PG_SIZE], i) == 0
      requires forall p <- w.procs :: w.procs[p].dir != va / PG_SIZE
      modifies `mem
      ensures Valid() && HalfReady(mem, w.kern.pages[va / PG_SIZE])
    {
      hide Machine.Backed, Stands, Covered, Inv, KernelDirEntry;
      ghost var f := w.kern.pages[va / PG_SIZE];
      var k := 768;
      while k < 1024
        invariant 768 <= k <= 1024 && Valid()
        invariant forall i: nat :: i < 768 ==> Entry(mem, f, i) == 0
        invariant forall i: nat :: 768 <= i < k && i != 1023 ==> Entry(mem, f, i) == KernelDirEntry(i)
      {
        KernelHalfEntry(mem, w, cur, cr3, if k < 1023 then k else 768);
        assert PdeIdx(k * 0x40_0000) == k;
        var word := LoadPde(k * 0x40_0000);
        var to := WordAt(va, k);
        StoreKernelWord(to, word);
        k := k + 1;
      }
    }

    /** addr_v2p of a kernel heap page. */
    method FrameOfPage(va: nat) returns (f: nat)
      requires Valid() && va % PG_SIZE == 0 && va / PG_SIZE in w.kern.pages
      ensures f == w.kern.pages[va / PG_SIZE]
    {
      hide Machine.Backed, Stands, Covered, Inv, Walk, Virts, Dirs;
      KernelWalk(mem, w, cur, cr3, va / PG_SIZE, 0);
      var pa := AddrV2P(va);
      f := pa.frame;
    }

    /** The kernel half copied and the last entry pointed at the directory itself. */
    method FillDirectory(va: nat)
      requires Valid() && va % PG_SIZE == 0 && va / PG_SIZE in w.kern.pages
      requires forall i: nat :: i < 1024 ==> Entry(mem, w.kern.pages[va / PG_SIZE], i) == 0
      requires forall p <- w.procs :: w.procs[p].dir != va / PG_SIZE
      modifies `mem
      ensures Valid() && DirReady(mem, w.kern.pages[va / PG_SIZE])
    {
      hide Machine.Backed, Stands, Covered, Inv, HalfReady, DirReady, Put, MakeEntry, Virts, Dirs;
      CopyKernelHalf(va);
      var f := FrameOfPage(va);
      LastEntry(mem, f);
      var last := WordAt(va, 1023);
      StoreKernelWord(last, MakeEntry(f));
    }

    /**
      create_page_dir: a cleared kernel page gets the kernel half of the current directory,
      whichever that is, and its last entry pointed at itself.
     */
    method CreatePageDir() returns (r: Outcome<nat>)
      requires Valid()
      modifies `mem, `kf, `uf, `kvirt, `uvirt, `w, kfMap.bits, ufMap.bits, kvMap.bits, userBits
      ensures match KernelPages(old(w), 1)
              case Panic(e) => r == Panic(e)
              case Ok((w1, v)) =>
                && r == Ok(v * PG_SIZE) && Valid() && w == w1 && v in w.kern.pages && DirReady(mem, w.kern.pages[v])
    {
      hide Machine.Backed, Stands, Covered, Inv, AddressSpaces.MallocPage, DirReady, Cleared;
      KernelRangeFresh(w, 1);
      var page := GetKernelPages(1);
      if page.Panic? {
        return Panic(page.fault);
      }
      var va := page.value.value;
      ClearedOne(va / PG_SIZE);
      FillDirectory(va);
      return Ok(va);
    }

    /** create_user_vaddr_bitmap's bitmap, all clear. */
    method AddUserMap(pid: Pid)
      requires Backed() && pid !in uvirt
      modifies `uvMap, `uvirt, `userBits
      ensures Backed() && uvirt == old(uvirt)[pid := Clear(USER_BITS)] && fresh(userBits - old(userBits))
      ensures pid in uvMap && uvMap[pid].bits.Length == USER_BITS / 8
    {
      hide Unpack, Clear;
      var bitmap := NewUserMap();
      uvMap, userBits := uvMap[pid := bitmap], userBits + {bitmap.bits};
      uvirt := uvirt[pid := Clear(USER_BITS)];
    }

    method NewUserMap() returns (bitmap: Bitmap)
      ensures fresh(bitmap) && fresh(bitmap.bits) && bitmap.bits.Length == USER_BITS / 8 && bitmap.Contents() == Clear(USER_BITS)
    {
      hide Unpack, Clear;
      bitmap := new Bitmap(USER_BITS / 8);
      bitmap.Init();
    }

    /** The PCB's pointers: where the bytes of the bitmap are, and the directory. */
    method SetPointers(pid: Pid, bytes: nat, dir: nat)
      requires Backed()
      modifies `uvAddr, `pgdir
      ensures Backed() && uvAddr == old(uvAddr)[pid := bytes] && pgdir == old(pgdir)[pid := dir]
    {
      hide Machine.Backed;
      uvAddr, pgdir := uvAddr[pid := bytes], pgdir[pid := dir];
    }

    /** The assignments to the new PCB: an empty virtual bitmap and the directory. */
    method FillPcb(pid: Pid, bytes: nat, dir: nat)
      requires Valid() && pid !in w.procs && dir / PG_SIZE in w.kern.pages && DirReady(mem, w.kern.pages[dir / PG_SIZE])
      requires Inv(NewProc(w, pid, dir / PG_SIZE))
      modifies `uvMap, `uvAddr, `uvirt, `userBits, `pgdir, `w
      ensures Valid() && w == NewProc(old(w), pid, dir / PG_SIZE) && fresh(userBits - old(userBits))
      ensures uvAddr == old(uvAddr)[pid := bytes] && pid in uvMap && uvMap[pid].bits.Length == USER_BITS / 8
    {
      hide Machine.Backed, Stands, Covered, Inv, DirReady, Virts, Dirs;
      ghost var w1 := NewProc(w, pid, dir / PG_SIZE);
      NewProcFields(w, pid, w1.procs[pid]);
      NewProcessStands(mem, w, w1, cur, cr3, pid, w1.procs[pid]);
      AddUserMap(pid);
      SetPointers(pid, bytes, dir / PG_SIZE);
      Becomes(w1);
    }

    /** The new process's bitmap lies in a run of pages that was taken for it, beside a PCB and a directory, and fits there. */
    ghost predicate HasBitmap(pid: Pid, before: map<nat, nat>)
      reads this
    {
      && pid in w.procs && pid in uvMap && pid in uvAddr && uvAddr[pid] % PG_SIZE == 0
      && exists pcb: nat, n: nat ::
           && Takes(before, w.kern.pages, pcb, uvAddr[pid] / PG_SIZE, n, w.procs[pid].dir)
           && uvMap[pid].bits.Length <= n * PG_SIZE
    }

    lemma BitmapPlaced(pid: Pid, was: World)
      requires Inv(was) && pid !in was.procs && AddressSpaces.ProcessExecute(was, pid) == Ok(w) && pid in uvMap && pid in uvAddr
      requires uvMap[pid].bits.Length == USER_BITS / 8 && KernelPages(was, 1).Ok?
      requires KernelPages(KernelPages(was, 1).value.0, BITMAP_PAGES).Ok?
      requires uvAddr[pid] == KernelPages(KernelPages(was, 1).value.0, BITMAP_PAGES).value.1 * PG_SIZE
      ensures HasBitmap(pid, was.kern.pages)
    {
      hide Inv, KernelPages, AddressSpaces.ProcessExecute, Takes;
      var pcb, v, n := ProcessExecuteTakes(was, pid);
      assert uvAddr[pid] / PG_SIZE == v;
      assert Takes(was.kern.pages, w.kern.pages, pcb, uvAddr[pid] / PG_SIZE, n, w.procs[pid].dir);
      BitmapFits(was.kern.pages, w.kern.pages, pcb, v, n, w.procs[pid].dir);
    }

    /** process_execute, as far as memory goes: the PCB, the virtual bitmap, the directory. */
    method ProcessExecute(pid: Pid) returns (r: Outcome<()>)
      requires Valid() && pid !in w.procs
      modifies `mem, `kf, `uf, `kvirt, `uvirt, `uvMap, `uvAddr, `userBits, `pgdir, `w, kfMap.bits, ufMap.bits, kvMap.bits, userBits
      ensures fresh(userBits - old(userBits))
      ensures r.Ok? ==> HasBitmap(pid, old(w.kern.pages))
      ensures match AddressSpaces.ProcessExecute(old(w), pid)
              case Panic(e) => r == Panic(e)
              case Ok(w1) => r == Ok(()) && Valid() && w == w1
    {
      hide Machine.Agrees, Inv, AddressSpaces.MallocPage, NewProc, DirReady, Cleared, HasBitmap;
      ghost var was := w;
      ProcessExecuteCorrect(w, pid);
      KernelPagesCorrect(w, 1);
      var pcb := GetKernelPages(1);
      if pcb.Panic? {
        return Panic(pcb.fault);
      }
      KernelPagesCorrect(w, BITMAP_PAGES);
      var bits := GetKernelPages(BITMAP_PAGES);
      if bits.Panic? {
        return Panic(bits.fault);
      }
      if bits.value.None? {
        return Panic(NullPointer);
      }
      KernelPagesCorrect(w, 1);
      var dir := CreatePageDir();
      if dir.Panic? {
        return Panic(dir.fault);
      }
      FillPcb(pid, bits.value.value, dir.value);
      BitmapPlaced(pid, was);
      return Ok(());
    }

    /** page_dir_activate: cr3 comes from the current tables' own translation of the directory's address. */
    method PageDirActivate(next: Option<Pid>)
      requires Valid() && Runs(w, next)
      modifies `cur, `cr3
      ensures Valid() && cur == next
    {
      hide Machine.Backed, Covered, Inv, Refines, Shape;
      SwitchStands(mem, w, cur, cr3, next);
      if next.Some? {
        assert pgdir[next.value] == w.procs[next.value].dir;
        KernelWalk(mem, w, cur, cr3, w.procs[next.value].dir, 0);
        var pa := AddrV2P(pgdir[next.value] * PG_SIZE);
        cr3 := pa.frame;
      } else {
        cr3 := KDIR;
      }
      cur := next;
    }
  }
}
