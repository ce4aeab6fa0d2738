/**
  thread_start looks for the new thread's tag on the ready list with interrupts on, and the timer
  may come in the middle of the search.  The search stays on the list exactly as long as the thread
  it stands on has not blocked; with interrupts off, as in process_execute, nothing can go wrong.
 */
module Searches {
  import opened Outcomes
  import opened Scheduling
  import opened Locks
  import opened LockRuns

  // ----- When the search stays on the list --------------------------------------------------------

  /** After any run, the next turn of a search leaves the ready list if and only if the thread it stands on is blocked. */
  lemma SearchExact(sts: seq<Sys>, acts: seq<Action>, main: Tid)
    requires IsRun(sts, acts, main) && At(sts[|acts|], sts[|acts|].s.cur).Seek?
    ensures var st := sts[|acts|];
            && Runnable(st)
            && (Statement(st) == Panic(OffList) <==> Astray(st))
            && (Statement(st).Panic? ==> Statement(st) == Panic(OffList))
  {
    hide SysInv, IsRun, SeekReady, Astray;
    RunLength(sts, acts, main);
    RunInv(sts, acts, main, |acts|);
    var st := sts[|acts|];
    InvRunnable(st);
    var pc := At(st, st.s.cur);
    SeekStep(st, pc.t, pc.priority, pc.at);
  }

  /** The running thread goes on by itself for at most n statements. */
  ghost function Alone(st: Sys, n: nat): Outcome<Sys>
    requires SysInv(st)
    decreases n
  {
    if n == 0 || At(st, st.s.cur).Out? then Ok(st)
    else
      InvRunnable(st);
      NextStep(st);
      match Statement(st) case Panic(e) => Panic(e) case Ok(st') => Alone(st', n - 1)
  }

  function CursorAt(list: seq<Tid>, k: nat): Cursor {
    if k < |list| then OnTag(list[k]) else OnTail
  }

  lemma AfterIs(list: seq<Tid>, k: nat)
    requires Distinct(list) && k < |list|
    ensures list[k] in list && After(list, list[k]) == CursorAt(list, k + 1)
  {
    IndexUnique(list, list[k], k);
  }

  /** One turn of the search, while the cursor stands on the list. */
  lemma SearchTurn(st: Sys, t: Tid, priority: nat, k: nat)
    requires SysInv(st) && k <= |st.s.ready| && At(st, st.s.cur) == Seek(t, priority, CursorAt(st.s.ready, k))
    ensures Runnable(st) && StartReady(st.s, t, priority).Ok?
    ensures Statement(st) == if k < |st.s.ready| then Ok(Goto(st, Seek(t, priority, CursorAt(st.s.ready, k + 1))))
                             else Ok(Goto(st, Pending(t)).(s := StartReady(st.s, t, priority).value))
  {
    hide SysInv, StartReady, SchedInv;
    InvRunnable(st);
    SeekPlace(st);
    StartReadyEffect(st.s, t, priority);
    if k < |st.s.ready| {
      ReadyDistinct(st.s);
      AfterIs(st.s.ready, k);
      Tagged(st, k);
    }
  }

  /** A search that nothing interrupts passes every tag once and ends in the append. */
  lemma {:induction false} UninterruptedSearch(st: Sys, t: Tid, priority: nat, k: nat)
    requires SysInv(st) && k <= |st.s.ready| && At(st, st.s.cur) == Seek(t, priority, CursorAt(st.s.ready, k))
    ensures Known(st.s) && StartReady(st.s, t, priority).Ok?
    ensures Alone(st, |st.s.ready| - k + 1) == Ok(Goto(st, Pending(t)).(s := StartReady(st.s, t, priority).value))
    decreases |st.s.ready| - k
  {
    hide SysInv, StartReady, Statement, SeekReady;
    SearchTurn(st, t, priority, k);
    SeekStep(st, t, priority, CursorAt(st.s.ready, k));
    NextStep(st);
    if k < |st.s.ready| {
      var st' := Goto(st, Seek(t, priority, CursorAt(st.s.ready, k + 1)));
      UninterruptedSearch(st', t, priority, k + 1);
      assert Goto(st', Pending(t)).pc == Goto(st, Pending(t)).pc;
    }
  }

  lemma ReadyDistinct(s: Sched)
    requires SchedInv(s)
    ensures Distinct(s.ready)
  {
  }

  lemma Tagged(st: Sys, k: nat)
    requires SysInv(st) && k < |st.s.ready| && At(st, st.s.cur).Seek?
    ensures st.s.ready[k] != At(st, st.s.cur).t
  {
    SeekPlace(st);
    assert st.s.ready[k] in st.s.ready;
  }

  // ----- Threads created with interrupts off ----------------------------------------------------------

  ghost predicate NoSearch(st: Sys) {
    forall t :: !At(st, t).Seek?
  }

  lemma NextMovePlace(me: Tid, pc: Pc, k: Lock, d: nat)
    requires LockOf(pc).Some? && NextMove(me, pc, k, d).Ok?
    ensures !NextMove(me, pc, k, d).value.pc.Seek?
  {
  }

  lemma PlaceTaken(st: Sys, st': Sys, pc: Pc)
    requires NoSearch(st) && !pc.Seek? && (st'.pc == st.pc[st.s.cur := pc] || st'.pc == st.pc)
    ensures NoSearch(st')
  {
    forall t
      ensures !At(st', t).Seek?
    {
      assert !At(st, t).Seek?;
    }
  }

  lemma NotSeeking(st: Sys)
    requires NoSearch(st)
    ensures !At(st, st.s.cur).Seek?
  {
  }

  lemma StatementPlace(st: Sys)
    requires Runnable(st) && NoSearch(st) && Statement(st).Ok?
    ensures NoSearch(Statement(st).value)
  {
    hide NextMove, Block, Unblock, StartAll, After, NoSearch;
    var pc := At(st, st.s.cur);
    NotSeeking(st);
    if LockOf(pc).Some? && !pc.Down? && !pc.Retest? && !pc.Up? {
      var l := LockOf(pc).value;
      NextMovePlace(st.s.cur, pc, st.locks[l], Depth(st, st.s.cur, l));
    }
    PlaceTaken(st, Statement(st).value, At(Statement(st).value, st.s.cur));
  }

  lemma NoSearchStep(st: Sys, a: Action)
    requires Runnable(st) && Enabled(st, a) && NoSearch(st) && !a.Spawn? && Locks.Do(st, a).Ok?
    ensures NoSearch(Locks.Do(st, a).value)
  {
    hide Statement, Block, Unblock, Tick, StartReady, StartAll;
    if a == Next {
      StatementPlace(st);
    } else {
      PlaceTaken(st, Locks.Do(st, a).value, At(Locks.Do(st, a).value, st.s.cur));
    }
  }

  lemma {:induction false} NoSearchRun(sts: seq<Sys>, acts: seq<Action>, main: Tid, n: nat)
    requires IsRun(sts, acts, main) && n < |sts| && forall a <- acts :: !a.Spawn?
    ensures NoSearch(sts[n])
  {
    hide Locks.Do, Enabled, Runnable, NoSearch, Boot;
    if n == 0 {
      BootNoSearch(sts[0], main);
    } else {
      NoSearchRun(sts, acts, main, n - 1);
      assert acts[n - 1] in acts && Locks.Do(sts[n - 1], acts[n - 1]) == Ok(sts[n]);
      NoSearchStep(sts[n - 1], acts[n - 1]);
    }
  }

  lemma BootNoSearch(st: Sys, main: Tid)
    requires Boot(st, main)
    ensures NoSearch(st)
  {
  }

  /** In a run whose threads are all created with interrupts off, only an empty ready list stops the machine. */
  lemma InterruptsOffSafe(sts: seq<Sys>, acts: seq<Action>, main: Tid, a: Action)
    requires IsRun(sts, acts, main) && (forall b <- acts :: !b.Spawn?)
    ensures var st := sts[|acts|];
            && Runnable(st)
            && (Enabled(st, a) && Locks.Do(st, a).Panic? ==> Locks.Do(st, a) == Panic(NoReadyThread) && st.s.ready == [])
  {
    hide Locks.Do, Enabled, Runnable, IsRun;
    RunLength(sts, acts, main);
    AssertionsHold(sts, acts, main, a);
    NoSearchRun(sts, acts, main, |acts|);
  }

  // ----- A search that goes astray -----------------------------------------------------------------------

  ghost predicate Reachable(st: Sys, main: Tid) {
    exists sts, acts :: IsRun(sts, acts, main) && sts[|acts|] == st
  }

  lemma BootReachable(st: Sys, main: Tid)
    requires Boot(st, main)
    ensures Reachable(st, main)
  {
    assert IsRun([st], [], main);
  }

  lemma Extend(st: Sys, main: Tid, a: Action)
    requires Reachable(st, main) && Runnable(st) && Enabled(st, a) && Locks.Do(st, a).Ok?
    ensures Reachable(Locks.Do(st, a).value, main)
  {
    hide Locks.Do, Enabled, Runnable, Boot;
    var sts, acts :| IsRun(sts, acts, main) && sts[|acts|] == st;
    var st' := Locks.Do(st, a).value;
    var sts', acts' := sts + [st'], acts + [a];
    forall i | 0 <= i < |acts'|
      ensures Runnable(sts'[i]) && Enabled(sts'[i], acts'[i]) && Locks.Do(sts'[i], acts'[i]) == Ok(sts'[i + 1])
    {
      if i < |acts| {
        assert sts'[i] == sts[i] && sts'[i + 1] == sts[i + 1] && acts'[i] == acts[i];
      }
    }
    assert IsRun(sts', acts', main) && sts'[|acts'|] == st';
  }

  /** Two threads at most, one lock, no ioqueue. */
  function Small(s: Sched, k: Lock, pc: map<Tid, Pc>, depth: map<(Tid, LockId), nat>): Sys {
    Sys(s, map[0 := k], map[], map[], pc, depth)
  }

  function Solo(ticks: nat): Sched {
    Sched(0, [], [0], map[0 := Task(Running, 31, ticks, 0)], 0)
  }

  /** Equal field by field. */
  ghost predicate Same(a: Sys, b: Sys) {
    && a.s.cur == b.s.cur && a.s.ready == b.s.ready && a.s.all == b.s.all && a.s.tasks == b.s.tasks && a.s.clock == b.s.clock
    && a.locks == b.locks && a.slots == b.slots && a.guard == b.guard && a.pc == b.pc && a.depth == b.depth
  }

  /** The step a from st leads to st'. */
  ghost predicate Leads(st: Sys, a: Action, st': Sys) {
    Runnable(st) && Enabled(st, a) && Locks.Do(st, a).Ok? && Same(Locks.Do(st, a).value, st')
  }

  lemma Go(st: Sys, a: Action, st': Sys)
    requires Reachable(st, 0) && Leads(st, a, st')
    ensures Reachable(st', 0)
  {
    hide Reachable, Locks.Do, Enabled, Runnable;
    Extend(st, 0, a);
  }

  /** A statement of lock_acquire outside the semaphore. */
  lemma MoveLeads(s: Sched, k: Lock, pcs: map<Tid, Pc>, depth: map<(Tid, LockId), nat>)
    requires Known(s) && (forall t <- k.waiters :: t in s.tasks) && s.cur in pcs && (s.cur, 0) in depth
    requires LockOf(pcs[s.cur]) == Some(0) && !pcs[s.cur].Down? && !pcs[s.cur].Retest? && !pcs[s.cur].Up?
    requires NextMove(s.cur, pcs[s.cur], k, depth[(s.cur, 0)]).Ok?
    ensures var mv := NextMove(s.cur, pcs[s.cur], k, depth[(s.cur, 0)]).value;
            Leads(Small(s, k, pcs, depth), Next, Small(s, mv.k, pcs[s.cur := mv.pc], depth[(s.cur, 0) := mv.d]))
  {
    hide NextMove, LockOf, SemaDown, SemaUp, SeekReady, SeekOnAll;
    LockNamed(pcs[s.cur]);
  }

  lemma AcquireLeads(s: Sched, k: Lock, pcs: map<Tid, Pc>, depth: map<(Tid, LockId), nat>)
    requires Known(s) && (forall t <- k.waiters :: t in s.tasks) && (s.cur in pcs ==> pcs[s.cur] == Out) && (s.cur, 0) !in depth
    ensures Leads(Small(s, k, pcs, depth), Acquire(0), Small(s, k, pcs[s.cur := AcqTest(0)], depth[(s.cur, 0) := 0]))
  {
    hide Statement;
  }

  lemma TakeLeads(s: Sched, k: Lock, pcs: map<Tid, Pc>, depth: map<(Tid, LockId), nat>)
    requires Known(s) && (forall t <- k.waiters :: t in s.tasks) && s.cur in pcs && pcs[s.cur] == Down(0) && (s.cur, 0) in depth
    requires k.value == 1
    ensures Leads(Small(s, k, pcs, depth), Next, Small(s, k.(value := 0), pcs[s.cur := SetHolder(0)], depth))
  {
    hide NextMove, SemaUp, SeekReady, SeekOnAll, Block;
  }

  lemma MoveReach(s: Sched, k: Lock, pcs: map<Tid, Pc>, depth: map<(Tid, LockId), nat>, pc: Pc, k': Lock, d: nat)
    requires Known(s) && (forall t <- k.waiters :: t in s.tasks) && s.cur in pcs && (s.cur, 0) in depth
    requires LockOf(pcs[s.cur]) == Some(0) && !pcs[s.cur].Down? && !pcs[s.cur].Retest? && !pcs[s.cur].Up?
    requires NextMove(s.cur, pcs[s.cur], k, depth[(s.cur, 0)]) == Ok(Move(pc, k', d)) && Reachable(Small(s, k, pcs, depth), 0)
    ensures Reachable(Small(s, k', pcs[s.cur := pc], depth[(s.cur, 0) := d]), 0)
  {
    hide Reachable, Leads, Small, NextMove, LockOf;
    MoveLeads(s, k, pcs, depth);
    Go(Small(s, k, pcs, depth), Next, Small(s, k', pcs[s.cur := pc], depth[(s.cur, 0) := d]));
  }

  /** From sema_down to the end of lock_acquire. */
  lemma TakeReach(s: Sched, pcs: map<Tid, Pc>, depth: map<(Tid, LockId), nat>)
    requires Known(s) && s.cur in pcs && pcs[s.cur] == Down(0) && (s.cur, 0) in depth && depth[(s.cur, 0)] == 0
    requires Reachable(Small(s, Lock(None, 1, [], 0), pcs, depth), 0)
    ensures Reachable(Small(s, Lock(Some(s.cur), 0, [], 1), pcs[s.cur := Out], depth[(s.cur, 0) := 1]), 0)
  {
    hide Reachable, Leads, Small;
    var got, me := Lock(None, 0, [], 0), s.cur;
    var claimed := Lock(Some(me), 0, [], 0);
    TakeLeads(s, Lock(None, 1, [], 0), pcs, depth);
    var p1 := pcs[me := SetHolder(0)];
    Go(Small(s, Lock(None, 1, [], 0), pcs, depth), Next, Small(s, got, p1, depth));
    MoveReach(s, got, p1, depth, CheckZero(0), claimed, 0);
    var p2 := p1[me := CheckZero(0)];
    assert depth[(me, 0) := 0] == depth;
    MoveReach(s, claimed, p2, depth, SetOne(0), claimed, 0);
    var p3 := p2[me := SetOne(0)];
    MoveReach(s, claimed, p3, depth, Out, Lock(Some(me), 0, [], 1), 1);
    assert p3[me := Out] == pcs[me := Out];
  }

  /** The main thread takes the lock. */
  lemma TakesLock()
    ensures Reachable(Small(Solo(31), Lock(Some(0), 0, [], 1), map[0 := Out], map[(0, 0) := 1]), 0)
  {
    hide Reachable, Leads, Boot, Small;
    var s, free := Solo(31), Lock(None, 1, [], 0);
    SoloBoots();
    BootReachable(Small(s, free, map[], map[]), 0);
    AcquireLeads(s, free, map[], map[]);
    var p1: map<Tid, Pc>, d1: map<(Tid, LockId), nat> := map[][0 := AcqTest(0)], map[][(0, 0) := 0];
    Go(Small(s, free, map[], map[]), Acquire(0), Small(s, free, p1, d1));
    MoveReach(s, free, p1, d1, Down(0), free, 0);
    var p2 := p1[0 := Down(0)];
    assert d1[(0, 0) := 0] == d1;
    TakeReach(s, p2, d1);
    assert p2[0 := Out] == map[0 := Out] && d1[(0, 0) := 1] == map[(0, 0) := 1];
  }

  lemma SoloBoots()
    ensures Boot(Small(Solo(31), Lock(None, 1, [], 0), map[], map[]), 0)
  {
  }

  /** s after n ticks of the running thread's slice. */
  function Aged(s: Sched, n: nat): Sched
    requires s.cur in s.tasks && n <= s.tasks[s.cur].ticks
  {
    var me := s.tasks[s.cur];
    s.(tasks := s.tasks[s.cur := me.(ticks := me.ticks - n, elapsed := me.elapsed + n)], clock := s.clock + n)
  }

  lemma TickLeads(s: Sched, k: Lock, pcs: map<Tid, Pc>, depth: map<(Tid, LockId), nat>)
    requires Known(s) && (forall t <- k.waiters :: t in s.tasks) && s.tasks[s.cur].ticks > 0
    requires s.cur in pcs && LockOf(pcs[s.cur]) == None && !pcs[s.cur].Parked?
    ensures Leads(Small(s, k, pcs, depth), Timer, Small(Aged(s, 1), k, pcs, depth))
  {
    hide Statement, LockOf, Schedule;
    LockNamed(pcs[s.cur]);
  }

  lemma {:induction false} TicksReach(s: Sched, k: Lock, pcs: map<Tid, Pc>, depth: map<(Tid, LockId), nat>, n: nat)
    requires Known(s) && k.waiters == [] && n <= s.tasks[s.cur].ticks && Reachable(Small(s, k, pcs, depth), 0)
    requires s.cur in pcs && LockOf(pcs[s.cur]) == None && !pcs[s.cur].Parked?
    ensures Reachable(Small(Aged(s, n), k, pcs, depth), 0)
  {
    hide Reachable, Leads, Small, LockOf;
    if n == 0 {
      AgedNone(s);
    } else {
      TicksReach(s, k, pcs, depth, n - 1);
      var s1 := Aged(s, n - 1);
      TickLeads(s1, k, pcs, depth);
      AgedMore(s, n - 1);
      Go(Small(s1, k, pcs, depth), Timer, Small(Aged(s1, 1), k, pcs, depth));
    }
  }

  lemma AgedNone(s: Sched)
    requires s.cur in s.tasks
    ensures Aged(s, 0) == s
  {
    assert s.tasks[s.cur := s.tasks[s.cur]] == s.tasks;
  }

  lemma AgedMore(s: Sched, n: nat)
    requires s.cur in s.tasks && n < s.tasks[s.cur].ticks
    ensures Aged(Aged(s, n), 1) == Aged(s, n + 1)
  {
    assert Aged(Aged(s, n), 1).tasks == Aged(s, n + 1).tasks;
  }

  /** Two threads: the main thread and thread 1, one running and the other as told. */
  function Pair(cur: Tid, ready: seq<Tid>, t0: Task, t1: Task, clock: nat): Sched {
    Sched(cur, ready, [0, 1], map[0 := t0, 1 := t1], clock)
  }

  function Idle1(): Task {
    Task(Ready, 31, 31, 0)
  }

  /** Thread 1 is started, and the main thread begins thread_start for a third: the search stands on thread 1's tag. */
  lemma SearchBegins()
    ensures Reachable(Small(Pair(0, [1], Task(Running, 31, 31, 0), Idle1(), 0), Lock(Some(0), 0, [], 1),
                            map[0 := Seek(2, 31, OnTag(1))], map[(0, 0) := 1]), 0)
  {
    hide Reachable, Leads, Boot;
    var k, d: map<(Tid, LockId), nat> := Lock(Some(0), 0, [], 1), map[(0, 0) := 1];
    var s1, s2 := Solo(31), Pair(0, [1], Task(Running, 31, 31, 0), Idle1(), 0);
    TakesLock();
    EnlistLeads(s1, s2, k, d);
    Go(Small(s1, k, map[0 := Out], d), Execute(1, 31), Small(s2, k, map[0 := Out], d));
    SpawnLeads(s2, k, d);
    Go(Small(s2, k, map[0 := Out], d), Spawn(2, 31), Small(s2, k, map[0 := Seek(2, 31, OnTag(1))], d));
  }

  lemma EnlistLeads(s1: Sched, s2: Sched, k: Lock, d: map<(Tid, LockId), nat>)
    requires s1 == Solo(31) && s2 == Pair(0, [1], Task(Running, 31, 31, 0), Idle1(), 0) && k.waiters == []
    ensures Leads(Small(s1, k, map[0 := Out], d), Execute(1, 31), Small(s2, k, map[0 := Out], d))
  {
  }

  lemma SpawnLeads(s: Sched, k: Lock, d: map<(Tid, LockId), nat>)
    requires s == Pair(0, [1], Task(Running, 31, 31, 0), Idle1(), 0) && k.waiters == []
    ensures Leads(Small(s, k, map[0 := Out], d), Spawn(2, 31), Small(s, k, map[0 := Seek(2, 31, OnTag(1))], d))
  {
  }

  /** The slice of the main thread ends, and thread 1 runs. */
  lemma SwitchLeads(k: Lock, pcs: map<Tid, Pc>, d: map<(Tid, LockId), nat>)
    requires k.waiters == [] && pcs == map[0 := Seek(2, 31, OnTag(1))]
    ensures Leads(Small(Pair(0, [1], Task(Running, 31, 0, 31), Idle1(), 31), k, pcs, d), Timer,
                  Small(Pair(1, [0], Task(Ready, 31, 31, 32), Task(Running, 31, 31, 0), 32), k, pcs, d))
  {
    hide Statement;
  }

  /** Thread 1 finds the lock taken: its tag goes to the waiters, and the main thread runs again. */
  lemma BlockLeads(k: Lock, pcs: map<Tid, Pc>, d: map<(Tid, LockId), nat>)
    requires k.waiters == [] && k.value == 0 && 1 in pcs && pcs[1] == Down(0) && (1, 0) in d
    ensures Leads(Small(Pair(1, [0], Task(Ready, 31, 31, 32), Task(Running, 31, 31, 0), 32), k, pcs, d), Next,
                  Small(Pair(0, [], Task(Running, 31, 31, 32), Task(Blocked, 31, 31, 0), 32), k.(waiters := [1]), pcs[1 := Retest(0)], d))
  {
    hide NextMove, SemaUp, SeekReady, SeekOnAll;
    var s := Pair(1, [0], Task(Ready, 31, 31, 32), Task(Running, 31, 31, 0), 32);
    assert k.waiters + [1] == [1];
    assert Block(s).Ok? && Block(s).value.cur == 0 && Block(s).value.ready == [];
  }

  lemma SearchPreempted()
    ensures Reachable(Small(Pair(1, [0], Task(Ready, 31, 31, 32), Task(Running, 31, 31, 0), 32), Lock(Some(0), 0, [], 1),
                            map[0 := Seek(2, 31, OnTag(1))], map[(0, 0) := 1]), 0)
  {
    hide Reachable, Leads, Small;
    var k, d: map<(Tid, LockId), nat> := Lock(Some(0), 0, [], 1), map[(0, 0) := 1];
    var pcs: map<Tid, Pc> := map[0 := Seek(2, 31, OnTag(1))];
    SearchBegins();
    var s := Pair(0, [1], Task(Running, 31, 31, 0), Idle1(), 0);
    TicksReach(s, k, pcs, d, 31);
    var s1 := Pair(0, [1], Task(Running, 31, 0, 31), Idle1(), 31);
    assert Aged(s, 31).tasks == s1.tasks;
    SwitchLeads(k, pcs, d);
    Go(Small(s1, k, pcs, d), Timer, Small(Pair(1, [0], Task(Ready, 31, 31, 32), Task(Running, 31, 31, 0), 32), k, pcs, d));
  }

  lemma TestMove(k: Lock)
    requires k.holder == Some(0)
    ensures NextMove(1, AcqTest(0), k, 0) == Ok(Move(Down(0), k, 0))
  {
  }

  /** Thread 1 calls lock_acquire, finds the lock taken and blocks. */
  lemma HolderOfTagBlocks(s: Sched, k: Lock, pcs: map<Tid, Pc>, d: map<(Tid, LockId), nat>)
    requires s == Pair(1, [0], Task(Ready, 31, 31, 32), Task(Running, 31, 31, 0), 32) && Known(s)
    requires k.waiters == [] && k.value == 0 && k.holder == Some(0) && 1 !in pcs && (1, 0) !in d
    requires Reachable(Small(s, k, pcs, d), 0)
    ensures Reachable(Small(Pair(0, [], Task(Running, 31, 31, 32), Task(Blocked, 31, 31, 0), 32), k.(waiters := [1]),
                            pcs[1 := Retest(0)], d[(1, 0) := 0]), 0)
  {
    hide Reachable, Leads, NextMove, Small, Known;
    AcquireLeads(s, k, pcs, d);
    var p1, d1 := pcs[1 := AcqTest(0)], d[(1, 0) := 0];
    Go(Small(s, k, pcs, d), Acquire(0), Small(s, k, p1, d1));
    TestMove(k);
    MoveReach(s, k, p1, d1, Down(0), k, 0);
    var p2 := p1[1 := Down(0)];
    assert d1[(1, 0) := 0] == d1 && p2[1 := Retest(0)] == pcs[1 := Retest(0)];
    BlockLeads(k, p2, d1);
    Go(Small(s, k, p2, d1), Next,
       Small(Pair(0, [], Task(Running, 31, 31, 32), Task(Blocked, 31, 31, 0), 32), k.(waiters := [1]), p2[1 := Retest(0)], d1));
  }

  /**
    A run from boot in which thread_start's search is lost: preempted on the tag of thread 1, which
    then blocks on a lock.  The tag is now the last of the lock's waiters, so its link leads to that
    list's tail and not to the ready list's.
   */
  lemma SearchLost() returns (st: Sys)
    ensures Reachable(st, 0) && At(st, st.s.cur) == Seek(2, 31, OnTag(1))
    ensures st.locks == map[0 := Lock(Some(0), 0, [1], 1)] && st.s.ready == []
    ensures Runnable(st) && Statement(st) == Panic(OffList)
  {
    hide Reachable, NextMove, SemaDown, SemaUp;
    var k, d: map<(Tid, LockId), nat> := Lock(Some(0), 0, [], 1), map[(0, 0) := 1];
    var pcs: map<Tid, Pc> := map[0 := Seek(2, 31, OnTag(1))];
    SearchPreempted();
    HolderOfTagBlocks(Pair(1, [0], Task(Ready, 31, 31, 32), Task(Running, 31, 31, 0), 32), k, pcs, d);
    st := Small(Pair(0, [], Task(Running, 31, 31, 32), Task(Blocked, 31, 31, 0), 32), k.(waiters := [1]), pcs[1 := Retest(0)], d[(1, 0) := 0]);
  }
}
