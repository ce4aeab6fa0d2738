/**
  Runs of the thread system of Locks: every state that the steps can reach from boot, whatever
  the clock, the threads and the interrupt handlers do.
 */
module LockRuns {
  import opened Outcomes
  import opened Scheduling
  import opened Locks

  // ----- Every step ------------------------------------------------------------------------------

  lemma TimerStep(st: Sys)
    requires SysInv(st) && Runnable(st) && Enabled(st, Timer)
    ensures Locks.Do(st, Timer).Ok? && SysInv(Locks.Do(st, Timer).value)
  {
    hide SysInv, Tick, IsBlocked, SameTasks;
    Parts(st);
    TickInv(st.s);
    TickEffect(st.s);
    TimerInv(st, Tick(st.s).value);
  }

  lemma Parts(st: Sys)
    requires SysInv(st)
    ensures SchedInv(st.s) && Runnable(st)
  {
    InvRunnable(st);
  }

  /** The search of thread_start stands on the tag of a thread that has blocked, so on no tag of the ready list. */
  ghost predicate Astray(st: Sys) {
    var pc := At(st, st.s.cur);
    pc.Seek? && pc.at.OnTag? && IsBlocked(st.s, pc.at.u)
  }

  /** What can stop the machine: nobody to run, or a search that has gone astray. */
  ghost predicate CanStop(st: Sys, a: Action, e: Fault) {
    (e == NoReadyThread && st.s.ready == []) || (e == OffList && a == Next && Astray(st))
  }

  /** One turn of the search on the ready list: it leaves the list exactly when the thread it stands on has blocked. */
  lemma SeekStep(st: Sys, t: Tid, priority: nat, at: Cursor)
    requires SysInv(st) && Known(st.s) && At(st, st.s.cur) == Seek(t, priority, at)
    ensures match SeekReady(st, t, priority, at)
            case Panic(e) => e == OffList && Astray(st)
            case Ok(st') => SysInv(st') && !Astray(st)
  {
    hide LockInv, SlotInv, SysInv;
    SeekPlace(st);
    Readiness(st, st.s.cur);
    match at
    case OnTag(u) =>
      Readiness(st, u);
      if u in st.s.ready {
        AfterOther(st.s.ready, u);
        ReadyKnown(st.s);
        GotoInv(st, Seek(t, priority, After(st.s.ready, u)));
      }
    case OnTail =>
      StartReadyEffect(st.s, t, priority);
      SpawnInv(st, t, StartReady(st.s, t, priority).value);
  }

  lemma SeekPlace(st: Sys)
    requires SysInv(st)
    ensures SchedInv(st.s) && st.s.cur in st.s.tasks && Starting(st.s, st.s.cur, At(st, st.s.cur))
    ensures NewOf(At(st, st.s.cur)).Some? ==> forall u :: u != st.s.cur ==> NewOf(At(st, u)) != NewOf(At(st, st.s.cur))
  {
    hide LockInv, SlotInv;
    assert PlaceInv(st, st.s.cur) && FreshInv(st);
  }

  lemma AfterOther(list: seq<Tid>, u: Tid)
    requires u in list
    ensures After(list, u).OnTag? ==> After(list, u).u in list
  {
  }

  lemma ReadyKnown(s: Sched)
    requires SchedInv(s)
    ensures forall t <- s.ready :: t in s.tasks && t != s.cur
  {
  }

  /** One turn of the search on the list of all threads never leaves it. */
  lemma SeekAllStep(st: Sys, t: Tid, at: Cursor)
    requires SysInv(st) && At(st, st.s.cur) == SeekAll(t, at)
    ensures SeekOnAll(st, t, at).Ok? && SysInv(SeekOnAll(st, t, at).value)
  {
    hide LockInv, SlotInv, SysInv, SchedInv;
    SeekPlace(st);
    match at
    case OnTag(u) =>
      AfterOther(st.s.all, u);
      GotoInv(st, SeekAll(t, After(st.s.all, u)));
    case OnTail => RegisterInv(st, t);
  }

  lemma PendingStep(st: Sys, t: Tid)
    requires SysInv(st) && At(st, st.s.cur) == Pending(t)
    ensures SysInv(Goto(st, SeekAll(t, First(st.s.all))))
  {
    hide LockInv, SlotInv, SysInv, SchedInv;
    SeekPlace(st);
    GotoInv(st, SeekAll(t, First(st.s.all)));
  }

  lemma NextStep(st: Sys)
    requires SysInv(st) && Runnable(st) && !At(st, st.s.cur).Out?
    ensures match Statement(st) case Panic(e) => CanStop(st, Next, e) case Ok(st') => SysInv(st') && !Astray(st)
  {
    hide SysInv, SemaDown, SemaUp, NextMove, LockOf, SeekReady, SeekOnAll, IsBlocked;
    var pc := At(st, st.s.cur);
    assert LockOf(pc).Some? ==> LockOf(pc).value in st.locks;
    LockNamed(pc);
    match pc
    case Seek(t, priority, at) => SeekStep(st, t, priority, at);
    case Pending(t) => PendingStep(st, t);
    case SeekAll(t, at) => SeekAllStep(st, t, at);
    case Parked(_) => UnparkInv(st);
    case Down(l) => SemaDownInv(st, l);
    case Retest(l) => SemaDownInv(st, l);
    case Up(l) => SemaUpInv(st, l);
    case _ => StatementInv(st);
  }

  lemma LockNamed(pc: Pc)
    ensures LockOf(pc).None? <==> pc.Out? || pc.Seek? || pc.Pending? || pc.SeekAll? || pc.Parked?
    ensures pc.Down? || pc.Retest? || pc.Up? ==> LockOf(pc) == Some(pc.l)
  {
  }

  lemma FreshPage(st: Sys, t: Tid)
    requires NewPage(st, t)
    ensures t !in st.s.tasks && forall u :: NewOf(At(st, u)) != Some(t)
  {
  }

  lemma SpawnStep(st: Sys, t: Tid, priority: nat)
    requires SysInv(st) && Runnable(st) && Enabled(st, Spawn(t, priority))
    ensures Locks.Do(st, Spawn(t, priority)).Ok? && SysInv(Locks.Do(st, Spawn(t, priority)).value)
  {
    hide SysInv, SchedInv, NewPage, IsBlocked;
    Parts(st);
    FreshPage(st, t);
    ReadyKnown(st.s);
    GotoInv(st, Seek(t, priority, First(st.s.ready)));
  }

  /** process_execute's end: with interrupts off both searches are right and nothing can stop them. */
  lemma ExecuteStep(st: Sys, t: Tid, priority: nat)
    requires SysInv(st) && Runnable(st) && Enabled(st, Execute(t, priority))
    ensures Locks.Do(st, Execute(t, priority)).Ok? && SysInv(Locks.Do(st, Execute(t, priority)).value)
  {
    hide SysInv, NewPage, StartReady, StartAll, IsBlocked, SchedInv, Runnable;
    Parts(st);
    InvKnown(st.s);
    FreshPage(st, t);
    GotoInv(st, Seek(t, priority, OnTail));
    NotListed(st, t);
    EnlistInv(st, Goto(st, Seek(t, priority, OnTail)), t, priority);
  }

  lemma EnlistInv(st: Sys, st1: Sys, t: Tid, priority: nat)
    requires SysInv(st1) && SchedInv(st.s) && st1 == Goto(st, Seek(t, priority, OnTail)) && t !in st.s.tasks && t !in st.s.all
    ensures Known(st.s) && Enlist(st, t, priority).Ok? && SysInv(Enlist(st, t, priority).value)
  {
    hide SysInv, StartReady, StartAll, IsBlocked, SchedInv, LockOf;
    InvKnown(st.s);
    StartReadyEffect(st.s, t, priority);
    var s1 := StartReady(st.s, t, priority).value;
    SpawnInv(st1, t, s1);
    var st2 := Goto(st1, Pending(t)).(s := s1);
    RegisterInv(st2, t);
    assert Goto(st2, Out).pc == Goto(st, Out).pc;
  }

  lemma NotListed(st: Sys, t: Tid)
    requires SysInv(st) && t !in st.s.tasks
    ensures t !in st.s.all
  {
  }

  lemma WaitStep(st: Sys, slot: Slot)
    requires SysInv(st) && Runnable(st) && Enabled(st, Wait(slot))
    ensures match Locks.Do(st, Wait(slot)) case Panic(e) => e == NoReadyThread && st.s.ready == [] case Ok(st') => SysInv(st')
  {
    hide SysInv, Block, IsBlocked, SameTasks, SchedInv, Runnable;
    Parts(st);
    InvKnown(st.s);
    SlotFree(st, slot);
    ParkInv(st, slot);
    BlockInv(st.s);
    if Block(st.s).Ok? {
      BlockEffect(st.s);
      FillSlotInv(Goto(st, Parked(slot)), slot, Block(st.s).value);
    }
  }

  lemma WakeStep(st: Sys, slot: Slot)
    requires SysInv(st) && Runnable(st) && Enabled(st, Wake(slot))
    ensures Locks.Do(st, Wake(slot)).Ok? && SysInv(Locks.Do(st, Wake(slot)).value)
  {
    hide SysInv, Unblock, SameTasks, SchedInv, Runnable;
    Parts(st);
    InvKnown(st.s);
    var t := st.slots[slot].value;
    SlotBlocked(st, slot, t);
    UnblockInv(st.s, t);
    UnblockEffect(st.s, t);
    EmptySlotInv(st, slot, Unblock(st.s, t).value);
  }

  lemma SlotBlocked(st: Sys, slot: Slot, t: Tid)
    requires SysInv(st) && slot in st.slots
    ensures st.slots[slot] == Some(t) <==> IsBlocked(st.s, t) && At(st, t) == Parked(slot)
  {
    hide LockInv, SchedInv, FreshInv, PlaceInv;
    assert SlotInv(st, slot);
  }

  /** Every step keeps the invariant; it stops only when nobody is ready or thread_start's search is astray. */
  lemma DoInv(st: Sys, a: Action)
    requires SysInv(st) && Runnable(st) && Enabled(st, a)
    ensures match Locks.Do(st, a) case Panic(e) => CanStop(st, a, e) case Ok(st') => SysInv(st') && (a == Next ==> !Astray(st))
  {
    hide SysInv, Statement, IoqWait, Unblock, Enlist, Tick, Astray, NewPage;
    match a
    case Timer => TimerStep(st);
    case Next => NextStep(st);
    case Acquire(l) => CallInv(st, l, AcqTest(l));
    case Release(l) => CallInv(st, l, RelAssert(l));
    case Spawn(t, priority) => SpawnStep(st, t, priority);
    case Execute(t, priority) => ExecuteStep(st, t, priority);
    case Wait(slot) => WaitStep(st, slot);
    case Wake(slot) => WakeStep(st, slot);
  }

  // ----- Boot ----------------------------------------------------------------------------------------

  /** lock_init, and sema_init with value 1. */
  function LockInit(): Lock {
    Lock(None, 1, [], 0)
  }

  /** make_main_thread, with every lock and every ioqueue slot initialised. */
  ghost predicate Boot(st: Sys, main: Tid) {
    && st.s == Sched(main, [], [main], map[main := Task(Running, 31, 31, 0)], st.s.clock)
    && (forall l <- st.locks :: st.locks[l] == LockInit())
    && (forall slot <- st.slots :: st.slots[slot] == None && slot in st.guard && st.guard[slot] in st.locks)
    && st.pc == map[] && st.depth == map[]
  }

  lemma BootInv(st: Sys, main: Tid)
    requires Boot(st, main)
    ensures SysInv(st)
  {
    forall l <- st.locks
      ensures LockInv(st, l)
    {
      assert NobodyInside(st, l);
      assert forall t <- st.s.tasks :: ThreadInv(st, t, l);
    }
  }

  // ----- Runs ------------------------------------------------------------------------------------------

  ghost predicate IsRun(sts: seq<Sys>, acts: seq<Action>, main: Tid) {
    && |sts| == |acts| + 1 && Boot(sts[0], main)
    && forall i :: 0 <= i < |acts| ==>
         Runnable(sts[i]) && Enabled(sts[i], acts[i]) && Locks.Do(sts[i], acts[i]) == Ok(sts[i + 1])
  }

  lemma {:induction false} RunInv(sts: seq<Sys>, acts: seq<Action>, main: Tid, n: nat)
    requires IsRun(sts, acts, main) && n < |sts|
    ensures SysInv(sts[n])
  {
    hide SysInv, Locks.Do, Enabled, Runnable, Boot;
    if n == 0 {
      BootInv(sts[0], main);
    } else {
      RunInv(sts, acts, main, n - 1);
      DoInv(sts[n - 1], acts[n - 1]);
    }
  }

  /**
    In no run does an assertion fail, except that nobody is ready when the last thread blocks; and
    what else can go wrong is that thread_start's search stands on the tag of a thread that has blocked.
   */
  lemma AssertionsHold(sts: seq<Sys>, acts: seq<Action>, main: Tid, a: Action)
    requires IsRun(sts, acts, main)
    ensures var st := sts[|acts|];
            && Runnable(st)
            && (Enabled(st, a) && Locks.Do(st, a).Panic? ==> CanStop(st, a, Locks.Do(st, a).fault))
  {
    hide SysInv, Locks.Do, Enabled, Runnable, IsRun, CanStop;
    RunLength(sts, acts, main);
    RunInv(sts, acts, main, |acts|);
    InvRunnable(sts[|acts|]);
    if Enabled(sts[|acts|], a) {
      DoInv(sts[|acts|], a);
    }
  }

  lemma RunLength(sts: seq<Sys>, acts: seq<Action>, main: Tid)
    requires IsRun(sts, acts, main)
    ensures |sts| == |acts| + 1
  {
  }

  // ----- What the invariant says ---------------------------------------------------------------------------

  ghost function InsideSet(st: Sys, l: LockId): set<Tid> {
    set t <- st.s.tasks | Inside(st, t, l)
  }

  /** The semaphore's value plus the number of threads between sema_down and sema_up is one, always. */
  lemma MutualExclusion(sts: seq<Sys>, acts: seq<Action>, main: Tid, n: nat, l: LockId)
    requires IsRun(sts, acts, main) && n < |sts| && l in sts[n].locks
    ensures sts[n].locks[l].value + |InsideSet(sts[n], l)| == 1
  {
    hide IsRun, Inside;
    RunInv(sts, acts, main, n);
    var st := sts[n];
    assert LockInv(st, l) && Exclusive(st, l);
    var inside := InsideSet(st, l);
    if st.locks[l].value == 1 {
      assert inside == {};
    } else {
      var t :| t in st.s.tasks && Inside(st, t, l);
      assert inside == {t};
    }
  }

  /** At rest the holder's repeat count is its nesting depth, and only a holder is nested at all. */
  lemma RepeatIsDepth(sts: seq<Sys>, acts: seq<Action>, main: Tid, n: nat, l: LockId, t: Tid)
    requires IsRun(sts, acts, main) && n < |sts| && l in sts[n].locks && t in sts[n].s.tasks && At(sts[n], t) == Out
    ensures var st, k := sts[n], sts[n].locks[l];
            && (Depth(st, t, l) > 0 <==> k.holder == Some(t))
            && (k.holder == Some(t) ==> k.repeat == Depth(st, t, l) && k.value == 0)
  {
    hide IsRun;
    RunInv(sts, acts, main, n);
    var st := sts[n];
    assert LockInv(st, l) && ThreadInv(st, t, l) && Exclusive(st, l);
    assert Inside(st, t, l) == (Depth(st, t, l) > 0);
  }

  /** A free semaphore with a queue has a woken thread that is ready or running and has yet to test the value. */
  lemma WakeupsKept(sts: seq<Sys>, acts: seq<Action>, main: Tid, n: nat, l: LockId)
    requires IsRun(sts, acts, main) && n < |sts| && l in sts[n].locks
    requires sts[n].locks[l].value == 1 && sts[n].locks[l].waiters != []
    ensures exists t :: t in sts[n].s.tasks && At(sts[n], t) == Retest(l) && (t == sts[n].s.cur || t in sts[n].s.ready)
  {
    hide IsRun;
    RunInv(sts, acts, main, n);
    var st := sts[n];
    assert LockInv(st, l) && NoLostWakeup(st, l);
    var t :| Woken(st, t, l);
    assert t in st.s.tasks && At(st, t) == Retest(l) && (t == st.s.cur || t in st.s.ready);
  }

  // ----- Where a thread's tag is ------------------------------------------------------------------------------

  datatype Place = OnReady | OnQueue(l: LockId) | InSlot(slot: Slot)

  ghost function PlacesOf(st: Sys, t: Tid): set<Place> {
    (if t in st.s.ready then {OnReady} else {})
    + (set l <- st.locks | t in st.locks[l].waiters :: OnQueue(l))
    + (set k <- st.slots | st.slots[k] == Some(t) :: InSlot(k))
  }

  lemma QueuedThere(st: Sys, t: Tid, l: LockId)
    requires SysInv(st) && l in st.locks
    ensures t in st.locks[l].waiters <==> IsBlocked(st.s, t) && At(st, t) == Retest(l)
  {
    hide FreshInv, PlaceInv, SlotInv, Exclusive, NoLostWakeup, ThreadInv, SchedInv;
    assert LockInv(st, l) && QueueInv(st, l);
  }

  lemma BlockedAt(st: Sys, t: Tid)
    requires SysInv(st) && IsBlocked(st.s, t)
    ensures || (At(st, t).Retest? && At(st, t).l in st.locks)
            || (At(st, t).Parked? && At(st, t).slot in st.slots)
  {
    hide LockInv, SlotInv, FreshInv;
    assert PlaceInv(st, t);
  }

  lemma Readiness(st: Sys, t: Tid)
    requires SysInv(st) && t in st.s.tasks
    ensures t == st.s.cur ==> !IsBlocked(st.s, t) && t !in st.s.ready
    ensures t != st.s.cur ==> (t in st.s.ready <==> !IsBlocked(st.s, t))
  {
  }

  /** The running thread is on no list; every other one is on the ready list, or blocked and in one queue or slot. */
  lemma OnePlace(st: Sys, t: Tid)
    requires SysInv(st) && t in st.s.tasks
    ensures t == st.s.cur ==> PlacesOf(st, t) == {}
    ensures t != st.s.cur && !IsBlocked(st.s, t) ==> PlacesOf(st, t) == {OnReady}
    ensures IsBlocked(st.s, t) ==> exists p :: p != OnReady && PlacesOf(st, t) == {p}
  {
    hide SysInv, IsBlocked, At;
    Readiness(st, t);
    forall l <- st.locks
      ensures t in st.locks[l].waiters <==> IsBlocked(st.s, t) && At(st, t) == Retest(l)
    {
      QueuedThere(st, t, l);
    }
    forall k <- st.slots
      ensures st.slots[k] == Some(t) <==> IsBlocked(st.s, t) && At(st, t) == Parked(k)
    {
      SlotBlocked(st, k, t);
    }
    if IsBlocked(st.s, t) {
      BlockedAt(st, t);
      var p := if At(st, t).Retest? then OnQueue(At(st, t).l) else InSlot(At(st, t).slot);
      assert PlacesOf(st, t) == {p};
    }
  }

  /** In every reachable state a thread's tag is on at most one list, and on none exactly when the thread runs. */
  lemma TagOnOneList(sts: seq<Sys>, acts: seq<Action>, main: Tid, n: nat, t: Tid)
    requires IsRun(sts, acts, main) && n < |sts| && t in sts[n].s.tasks
    ensures var st := sts[n];
            && |PlacesOf(st, t)| == (if st.s.tasks[t].status.Running? then 0 else 1)
            && (st.s.tasks[t].status.Running? <==> t == st.s.cur)
            && (OnReady in PlacesOf(st, t) <==> st.s.tasks[t].status.Ready?)
            && Distinct(st.s.ready)
  {
    hide IsRun, PlacesOf;
    RunInv(sts, acts, main, n);
    OnePlace(sts[n], t);
    Readiness(sts[n], t);
    if IsBlocked(sts[n].s, t) {
      var p :| p != OnReady && PlacesOf(sts[n], t) == {p};
      assert |{p}| == 1;
    }
  }
}
