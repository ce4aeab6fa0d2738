/**
  thread/sync.c under preemption.  Code with interrupts off is one step; every statement of
  lock_acquire and lock_release outside such code is a step of its own, and the timer may come
  between any two.  Each thread carries its place in the code.  thread_start searches two lists with
  interrupts on, so each load of a link there is a step as well.
 */
module Locks {
  import opened Outcomes
  import opened Scheduling

  type LockId = nat
  type Slot = nat

  datatype Lock = Lock(holder: Option<Tid>, value: nat, waiters: seq<Tid>, repeat: nat)

  /** Where node_find stands: on a thread's tag, or on the tail of the list it started on. */
  datatype Cursor = OnTag(u: Tid) | OnTail

  /** head.next */
  function First(list: seq<Tid>): Cursor {
    if list == [] then OnTail else OnTag(list[0])
  }

  /** The next link of u's tag while the tag is on the list. */
  function After(list: seq<Tid>, u: Tid): Cursor
    requires u in list
  {
    var i := IndexIn(list, u);
    if i + 1 < |list| then OnTag(list[i + 1]) else OnTail
  }

  /** Where a thread is.  r is the register of a read-modify-write of holder_repeat_cnt. */
  datatype Pc =
    | Out                          // in client code
    | AcqTest(l: LockId)           // lock_acquire: before the test of holder
    | Down(l: LockId)              // before sema_down
    | Retest(l: LockId)            // in sema_down's loop after a block, interrupts off
    | SetHolder(l: LockId)
    | CheckZero(l: LockId)
    | SetOne(l: LockId)
    | IncLoad(l: LockId)
    | IncStore(l: LockId, r: nat)
    | RelAssert(l: LockId)         // lock_release: before its first assertion
    | RelTest(l: LockId)
    | DecLoad(l: LockId)
    | DecStore(l: LockId, r: nat)
    | RelAssertOne(l: LockId)
    | ClearHolder(l: LockId)
    | ClearRepeat(l: LockId)
    | Up(l: LockId)                // before sema_up
    | Seek(t: Tid, priority: nat, at: Cursor)   // thread_start: in node_find on the ready list
    | Pending(t: Tid)                           // after the first append
    | SeekAll(t: Tid, at: Cursor)               // in node_find on the list of all threads
    | Parked(slot: Slot)           // in ioq_wait after the block, interrupts off

  /** guard says which lock an ioqueue slot is waited on under; depth counts acquisitions not yet released. */
  datatype Sys = Sys(s: Sched, locks: map<LockId, Lock>, slots: map<Slot, Option<Tid>>, guard: map<Slot, LockId>,
                     pc: map<Tid, Pc>, depth: map<(Tid, LockId), nat>)

  function At(st: Sys, t: Tid): Pc {
    if t in st.pc then st.pc[t] else Out
  }

  function Depth(st: Sys, t: Tid, l: LockId): nat {
    if (t, l) in st.depth then st.depth[(t, l)] else 0
  }

  /** The current thread's place, its depth at l and the lock l change; nothing else does. */
  function Moved(st: Sys, l: LockId, pc: Pc, k: Lock, d: nat): Sys {
    st.(pc := st.pc[st.s.cur := pc], locks := st.locks[l := k], depth := st.depth[(st.s.cur, l) := d])
  }

  function Goto(st: Sys, pc: Pc): Sys {
    st.(pc := st.pc[st.s.cur := pc])
  }

  // ----- Steps -----------------------------------------------------------------------------------

  /** What one statement does: the thread's next place, the lock, and the depth. */
  datatype Move = Move(pc: Pc, k: Lock, d: nat)

  /** The statements of lock_acquire and lock_release that run with interrupts on. */
  function NextMove(me: Tid, pc: Pc, k: Lock, d: nat): Outcome<Move> {
    match pc
    case AcqTest(l) => Ok(Move(if k.holder != Some(me) then Down(l) else IncLoad(l), k, d))
    case SetHolder(l) => Ok(Move(CheckZero(l), k.(holder := Some(me)), d))
    case CheckZero(l) => if k.repeat != 0 then Panic(BadRepeatCount) else Ok(Move(SetOne(l), k, d))
    case SetOne(l) => Ok(Move(Out, k.(repeat := 1), d + 1))
    case IncLoad(l) => Ok(Move(IncStore(l, k.repeat), k, d))
    case IncStore(l, r) => Ok(Move(Out, k.(repeat := r + 1), d + 1))
    case RelAssert(l) => if k.holder != Some(me) then Panic(NotHolder) else Ok(Move(RelTest(l), k, d))
    case RelTest(l) => Ok(Move(if k.repeat > 1 then DecLoad(l) else RelAssertOne(l), k, d))
    case DecLoad(l) => Ok(Move(DecStore(l, k.repeat), k, d))
    case DecStore(l, r) => if r == 0 || d == 0 then Panic(BadRepeatCount) else Ok(Move(Out, k.(repeat := r - 1), d - 1))
    case RelAssertOne(l) => if k.repeat != 1 then Panic(BadRepeatCount) else Ok(Move(ClearHolder(l), k, d))
    case ClearHolder(l) => Ok(Move(ClearRepeat(l), k.(holder := None), d))
    case ClearRepeat(l) => Ok(Move(Up(l), k.(repeat := 0), d))
    case _ => Ok(Move(pc, k, d))
  }

  /** How many statements are left before the semaphore or the end. */
  function Left(pc: Pc): nat {
    match pc
    case RelAssert(_) => 6
    case AcqTest(_) => 5
    case RelTest(_) => 5
    case RelAssertOne(_) => 4
    case SetHolder(_) => 3
    case ClearHolder(_) => 3
    case CheckZero(_) => 2
    case IncLoad(_) => 2
    case DecLoad(_) => 2
    case ClearRepeat(_) => 2
    case SetOne(_) => 1
    case IncStore(_, _) => 1
    case DecStore(_, _) => 1
    case _ => 0
  }

  /** The statements from pc on with interrupts off, up to the semaphore or the end. */
  function Through(me: Tid, pc: Pc, k: Lock, d: nat): (r: Outcome<Move>)
    ensures r.Ok? ==> r.value.k.value == k.value && r.value.k.waiters == k.waiters
    decreases Left(pc)
  {
    if Left(pc) == 0 then Ok(Move(pc, k, d))
    else
      match NextMove(me, pc, k, d)
      case Panic(e) => Panic(e)
      case Ok(mv) => Through(me, mv.pc, mv.k, mv.d)
  }

  /** lock_acquire of a free lock, once the semaphore is taken, and lock_release of a lock held once. */
  lemma ThroughOnce(me: Tid, l: LockId)
    ensures Through(me, AcqTest(l), Lock(None, 1, [], 0), 0) == Ok(Move(Down(l), Lock(None, 1, [], 0), 0))
    ensures Through(me, SetHolder(l), Lock(None, 0, [], 0), 0) == Ok(Move(Out, Lock(Some(me), 0, [], 1), 1))
    ensures Through(me, RelAssert(l), Lock(Some(me), 0, [], 1), 1) == Ok(Move(Up(l), Lock(None, 0, [], 0), 1))
  {
    ThroughAcquire(me, l);
    ThroughRelease(me, l);
  }

  lemma ThroughAcquire(me: Tid, l: LockId)
    ensures Through(me, SetHolder(l), Lock(None, 0, [], 0), 0) == Ok(Move(Out, Lock(Some(me), 0, [], 1), 1))
  {
    var taken := Lock(Some(me), 0, [], 0);
    assert Through(me, SetOne(l), taken, 0) == Through(me, Out, Lock(Some(me), 0, [], 1), 1);
    assert Through(me, CheckZero(l), taken, 0) == Through(me, SetOne(l), taken, 0);
  }

  lemma ThroughRelease(me: Tid, l: LockId)
    ensures Through(me, RelAssert(l), Lock(Some(me), 0, [], 1), 1) == Ok(Move(Up(l), Lock(None, 0, [], 0), 1))
  {
    var held, freed := Lock(Some(me), 0, [], 1), Lock(None, 0, [], 1);
    assert Through(me, ClearRepeat(l), freed, 1) == Through(me, Up(l), Lock(None, 0, [], 0), 1);
    assert Through(me, ClearHolder(l), held, 1) == Through(me, ClearRepeat(l), freed, 1);
    assert Through(me, RelAssertOne(l), held, 1) == Through(me, ClearHolder(l), held, 1);
    assert Through(me, RelTest(l), held, 1) == Through(me, RelAssertOne(l), held, 1);
  }

  /** One turn of sema_down's loop, or its end: the last part tells whether the semaphore was taken. */
  function DownOn(s: Sched, k: Lock): Outcome<(Sched, Lock, bool)>
    requires Known(s)
  {
    if k.value == 0 then
      if s.cur in k.waiters then Panic(NodeRepeat)
      else
        match Block(s)
        case Panic(e) => Panic(e)
        case Ok(s1) => Ok((s1, k.(waiters := k.waiters + [s.cur]), false))
    else if k.value != 1 then Panic(BadValue)
    else Ok((s, k.(value := 0), true))
  }

  function SemaDown(st: Sys, l: LockId): Outcome<Sys>
    requires l in st.locks && Known(st.s)
  {
    match DownOn(st.s, st.locks[l])
    case Panic(e) => Panic(e)
    case Ok((s1, k, taken)) =>
      Ok(Moved(st, l, if taken then SetHolder(l) else Retest(l), k, Depth(st, st.s.cur, l)).(s := s1))
  }

  /** sema_up */
  function UpOn(s: Sched, k: Lock): Outcome<(Sched, Lock)>
    requires Known(s) && (k.waiters != [] ==> k.waiters[0] in s.tasks)
  {
    if k.value != 0 then Panic(BadValue)
    else if k.waiters == [] then Ok((s, k.(value := 1)))
    else
      match Unblock(s, k.waiters[0])
      case Panic(e) => Panic(e)
      case Ok(s1) => Ok((s1, k.(value := 1, waiters := k.waiters[1..])))
  }

  /** sema_up at the end of lock_release: the thread is one level less deep. */
  function SemaUp(st: Sys, l: LockId): Outcome<Sys>
    requires l in st.locks && Known(st.s) && (st.locks[l].waiters != [] ==> st.locks[l].waiters[0] in st.s.tasks)
  {
    var d := Depth(st, st.s.cur, l);
    if d == 0 then Panic(BadValue)
    else
      match UpOn(st.s, st.locks[l])
      case Panic(e) => Panic(e)
      case Ok((s1, k)) => Ok(Moved(st, l, Out, k, d - 1).(s := s1))
  }

  /**
    One turn of node_find on the ready list, or the append after it.  The step stops when the thread it
    stands on has gone to another list or to none; where the links of its tag lead then is not followed.
   */
  function SeekReady(st: Sys, t: Tid, priority: nat, at: Cursor): Outcome<Sys>
    requires Known(st.s)
  {
    match at
    case OnTag(u) =>
      if u == t then Panic(NodeRepeat)
      else if u !in st.s.ready then Panic(OffList)
      else Ok(Goto(st, Seek(t, priority, After(st.s.ready, u))))
    case OnTail =>
      match StartReady(st.s, t, priority)
      case Panic(e) => Panic(e)
      case Ok(s1) => Ok(Goto(st, Pending(t)).(s := s1))
  }

  /** The same on the list of all threads, which no tag ever leaves. */
  function SeekOnAll(st: Sys, t: Tid, at: Cursor): Outcome<Sys> {
    match at
    case OnTag(u) =>
      if u == t then Panic(NodeRepeat)
      else if u !in st.s.all then Panic(OffList)
      else Ok(Goto(st, SeekAll(t, After(st.s.all, u))))
    case OnTail => (match StartAll(st.s, t) case Panic(e) => Panic(e) case Ok(s1) => Ok(Goto(st, Out).(s := s1)))
  }

  /** The end of process_execute: both searches and both appends with interrupts off. */
  function Enlist(st: Sys, t: Tid, priority: nat): Outcome<Sys>
    requires Known(st.s)
  {
    match StartReady(st.s, t, priority)
    case Panic(e) => Panic(e)
    case Ok(s1) =>
      match StartAll(s1, t)
      case Panic(e) => Panic(e)
      case Ok(s2) => Ok(Goto(st, Out).(s := s2))
  }

  /** The running thread's next statement. */
  function Statement(st: Sys): Outcome<Sys>
    requires Runnable(st)
  {
    var me := st.s.cur;
    var pc := At(st, me);
    match pc
    case Seek(t, priority, at) => SeekReady(st, t, priority, at)
    case Pending(t) => Ok(Goto(st, SeekAll(t, First(st.s.all))))
    case SeekAll(t, at) => SeekOnAll(st, t, at)
    case Parked(_) => Ok(Goto(st, Out))
    case Down(l) => SemaDown(st, l)
    case Retest(l) => SemaDown(st, l)
    case Up(l) => SemaUp(st, l)
    case _ =>
      if LockOf(pc).None? then Ok(st)
      else
        var l := LockOf(pc).value;
        match NextMove(me, pc, st.locks[l], Depth(st, me, l))
        case Panic(e) => Panic(e)
        case Ok(mv) => Ok(Moved(st, l, mv.pc, mv.k, mv.d))
  }

  /** The lock a place in the code is about. */
  function LockOf(pc: Pc): Option<LockId> {
    match pc
    case Out => None
    case Seek(_, _, _) => None
    case Pending(_) => None
    case SeekAll(_, _) => None
    case Parked(_) => None
    case AcqTest(l) => Some(l) case Down(l) => Some(l) case Retest(l) => Some(l) case SetHolder(l) => Some(l)
    case CheckZero(l) => Some(l) case SetOne(l) => Some(l) case IncLoad(l) => Some(l) case IncStore(l, _) => Some(l)
    case RelAssert(l) => Some(l) case RelTest(l) => Some(l) case DecLoad(l) => Some(l) case DecStore(l, _) => Some(l)
    case RelAssertOne(l) => Some(l) case ClearHolder(l) => Some(l) case ClearRepeat(l) => Some(l) case Up(l) => Some(l)
  }

  predicate Runnable(st: Sys) {
    && Known(st.s)
    && (forall l <- st.locks, t <- st.locks[l].waiters :: t in st.s.tasks)
    && (LockOf(At(st, st.s.cur)).Some? ==> LockOf(At(st, st.s.cur)).value in st.locks)
  }

  /** What happens next: the clock, the running thread's next statement or call, or a wakeup of an ioqueue slot. */
  datatype Action =
    | Timer
    | Next
    | Acquire(l: LockId)
    | Release(l: LockId)
    | Spawn(t: Tid, priority: nat)     // thread_start
    | Execute(t: Tid, priority: nat)   // process_execute
    | Wait(slot: Slot)
    | Wake(slot: Slot)

  /** Interrupts are off from a blocked thread's resumption until it is through the code it blocked in. */
  predicate InterruptsOn(st: Sys) {
    !At(st, st.s.cur).Retest? && !At(st, st.s.cur).Parked?
  }

  /** The thread that a place in thread_start is about. */
  function NewOf(pc: Pc): Option<Tid> {
    match pc
    case Seek(t, _, _) => Some(t)
    case Pending(t) => Some(t)
    case SeekAll(t, _) => Some(t)
    case _ => None
  }

  /** A page just allocated for a thread structure belongs to no thread, and to no thread_start under way. */
  predicate NewPage(st: Sys, t: Tid) {
    t !in st.s.tasks && forall u <- st.pc :: NewOf(st.pc[u]) != Some(t)
  }

  /** What clients keep to: they release only what they hold, and wait on a slot only under its lock. */
  predicate Enabled(st: Sys, a: Action) {
    match a
    case Timer => InterruptsOn(st)
    case Next => !At(st, st.s.cur).Out?
    case Acquire(l) => At(st, st.s.cur).Out? && l in st.locks
    case Release(l) => At(st, st.s.cur).Out? && l in st.locks && Depth(st, st.s.cur, l) > 0
    case Spawn(t, _) => At(st, st.s.cur).Out? && NewPage(st, t)
    case Execute(t, _) => At(st, st.s.cur).Out? && NewPage(st, t)
    case Wait(slot) =>
      At(st, st.s.cur).Out? && slot in st.slots && slot in st.guard && Depth(st, st.s.cur, st.guard[slot]) > 0
    case Wake(slot) => slot in st.slots && st.slots[slot].Some? && st.slots[slot].value in st.s.tasks
  }

  /** ioq_wait */
  function IoqWait(st: Sys, slot: Slot): Outcome<Sys>
    requires Known(st.s) && slot in st.slots
  {
    if st.slots[slot].Some? then Panic(SlotTaken)
    else
      match Block(st.s)
      case Panic(e) => Panic(e)
      case Ok(s1) => Ok(Goto(st, Parked(slot)).(slots := st.slots[slot := Some(st.s.cur)], s := s1))
  }

  function Do(st: Sys, a: Action): Outcome<Sys>
    requires Runnable(st) && Enabled(st, a)
  {
    match a
    case Timer => (match Tick(st.s) case Panic(e) => Panic(e) case Ok(s1) => Ok(st.(s := s1)))
    case Next => Statement(st)
    case Acquire(l) => Ok(Moved(st, l, AcqTest(l), st.locks[l], Depth(st, st.s.cur, l)))
    case Release(l) => Ok(Moved(st, l, RelAssert(l), st.locks[l], Depth(st, st.s.cur, l)))
    case Spawn(t, priority) => Ok(Goto(st, Seek(t, priority, First(st.s.ready))))
    case Execute(t, priority) => Enlist(st, t, priority)
    case Wait(slot) => IoqWait(st, slot)
    case Wake(slot) =>
      (match Unblock(st.s, st.slots[slot].value)
       case Panic(e) => Panic(e)
       case Ok(s1) => Ok(st.(s := s1, slots := st.slots[slot := None])))
  }

  // ----- The invariant --------------------------------------------------------------------------------

  /** A thread's business with one lock, as far as its place in the code says. */
  datatype Phase = Rest | Wants | Got | Claimed | Holds | HoldsReg(r: nat) | Nested | NestedReg(r: nat) | Last | Freed | Gone

  function PhaseOf(pc: Pc, l: LockId): Phase {
    if LockOf(pc) != Some(l) then Rest
    else
      match pc
      case Down(_) => Wants
      case Retest(_) => Wants
      case SetHolder(_) => Got
      case CheckZero(_) => Claimed
      case SetOne(_) => Claimed
      case IncLoad(_) => Holds
      case IncStore(_, r) => HoldsReg(r)
      case RelAssert(_) => Holds
      case RelTest(_) => Holds
      case DecLoad(_) => Nested
      case DecStore(_, r) => NestedReg(r)
      case RelAssertOne(_) => Last
      case ClearHolder(_) => Last
      case ClearRepeat(_) => Freed
      case Up(_) => Gone
      case _ => Rest
  }

  /** Past sema_down and not yet through sema_up. */
  predicate Inside(st: Sys, t: Tid, l: LockId) {
    Depth(st, t, l) > 0 || PhaseOf(At(st, t), l).Got? || PhaseOf(At(st, t), l).Claimed?
  }

  /** What the lock's fields say about t, by t's phase; at rest the count is the nesting depth. */
  predicate FieldsFit(k: Lock, t: Tid, d: nat, ph: Phase) {
    match ph
    case Rest => if d > 0 then k.holder == Some(t) && k.repeat == d else k.holder != Some(t)
    case Wants => d == 0 && k.holder != Some(t)
    case Got => d == 0 && k.holder == None && k.repeat == 0
    case Claimed => d == 0 && k.holder == Some(t) && k.repeat == 0
    case Holds => d > 0 && k.holder == Some(t) && k.repeat == d
    case HoldsReg(r) => d > 0 && k.holder == Some(t) && k.repeat == d == r
    case Nested => d > 1 && k.holder == Some(t) && k.repeat == d
    case NestedReg(r) => d > 1 && k.holder == Some(t) && k.repeat == d == r
    case Last => d == 1 && k.holder == Some(t) && k.repeat == 1
    case Freed => d == 1 && k.holder == None && k.repeat == 1
    case Gone => d == 1 && k.holder == None && k.repeat == 0
  }

  ghost predicate ThreadInv(st: Sys, t: Tid, l: LockId)
    requires l in st.locks
  {
    FieldsFit(st.locks[l], t, Depth(st, t, l), PhaseOf(At(st, t), l))
  }

  ghost predicate NobodyInside(st: Sys, l: LockId) {
    forall t <- st.s.tasks :: !Inside(st, t, l)
  }

  /** Value plus the number of threads inside is one. */
  ghost predicate Exclusive(st: Sys, l: LockId)
    requires l in st.locks
  {
    && (forall t <- st.s.tasks, u <- st.s.tasks :: Inside(st, t, l) && Inside(st, u, l) ==> t == u)
    && st.locks[l].value <= 1 && (st.locks[l].value == 1 <==> NobodyInside(st, l))
    && (NobodyInside(st, l) ==> st.locks[l].holder == None && st.locks[l].repeat == 0)
  }

  /** The queue holds exactly the threads blocked in this sema_down, each once. */
  ghost predicate QueueInv(st: Sys, l: LockId)
    requires l in st.locks
  {
    && Distinct(st.locks[l].waiters)
    && forall t :: t in st.locks[l].waiters <==> IsBlocked(st.s, t) && At(st, t) == Retest(l)
  }

  /** A thread popped by sema_up that has yet to test the value again. */
  ghost predicate Woken(st: Sys, t: Tid, l: LockId) {
    t in st.s.tasks && !IsBlocked(st.s, t) && At(st, t) == Retest(l)
  }

  ghost predicate NoLostWakeup(st: Sys, l: LockId)
    requires l in st.locks
  {
    st.locks[l].value == 1 && st.locks[l].waiters != [] ==> exists t :: Woken(st, t, l)
  }

  ghost predicate LockInv(st: Sys, l: LockId)
    requires l in st.locks
  {
    && Exclusive(st, l) && QueueInv(st, l) && NoLostWakeup(st, l)
    && forall t <- st.s.tasks :: ThreadInv(st, t, l)
  }

  /** A slot names a thread exactly when that thread is blocked in ioq_wait on it, holding the slot's lock. */
  ghost predicate SlotInv(st: Sys, slot: Slot)
    requires slot in st.slots
  {
    && slot in st.guard && st.guard[slot] in st.locks
    && (forall t: Tid :: st.slots[slot] == Some(t) <==>
          IsBlocked(st.s, t) && At(st, t) == Parked(slot))
    && (forall t <- st.s.tasks :: At(st, t) == Parked(slot) ==> Depth(st, t, st.guard[slot]) > 0)
  }

  /** A blocked thread is in sema_down's loop or in ioq_wait, so on one queue or in one slot. */
  ghost predicate PlaceInv(st: Sys, t: Tid) {
    && (IsBlocked(st.s, t) ==> At(st, t).Retest? || (At(st, t).Parked? && At(st, t).slot in st.slots))
    && (LockOf(At(st, t)).Some? ==> LockOf(At(st, t)).value in st.locks)
    && Starting(st.s, t, At(st, t))
  }

  /** In thread_start: the new thread is on neither list, then on one; the cursor is on a tag of a thread that exists. */
  ghost predicate Starting(s: Sched, t: Tid, pc: Pc) {
    match pc
    case Seek(n, _, at) => n !in s.tasks && (at.OnTag? ==> at.u in s.tasks && at.u != t)
    case Pending(n) => n in s.tasks && n !in s.all
    case SeekAll(n, at) => n in s.tasks && n !in s.all && (at.OnTag? ==> at.u in s.all)
    case _ => true
  }

  /** Threads that do not exist yet have no place and hold nothing. */
  ghost predicate FreshInv(st: Sys) {
    && (forall t :: t !in st.s.tasks ==> At(st, t) == Out && t !in st.s.all && forall l :: Depth(st, t, l) == 0)
    && (forall t, u :: NewOf(At(st, t)).Some? && NewOf(At(st, u)) == NewOf(At(st, t)) ==> t == u)
  }

  ghost predicate SysInv(st: Sys) {
    && SchedInv(st.s) && FreshInv(st)
    && (forall t :: PlaceInv(st, t))
    && (forall l <- st.locks :: LockInv(st, l))
    && (forall slot <- st.slots :: SlotInv(st, slot))
  }

  lemma InvRunnable(st: Sys)
    requires SysInv(st)
    ensures Runnable(st)
  {
    forall l <- st.locks, t <- st.locks[l].waiters
      ensures t in st.s.tasks
    {
      assert LockInv(st, l);
    }
    assert PlaceInv(st, st.s.cur);
  }

  // ----- Steps that move one thread and touch one lock -------------------------------------------------

  predicate InsideAt(d: nat, ph: Phase) {
    d > 0 || ph.Got? || ph.Claimed?
  }

  /** What such a step may do, told by the thread, its two places, the lock before and after, and the two depths. */
  predicate GoodMove(me: Tid, l: LockId, pc0: Pc, k0: Lock, d0: nat, pc: Pc, k: Lock, d: nat) {
    var in0, in1 := InsideAt(d0, PhaseOf(pc0, l)), InsideAt(d, PhaseOf(pc, l));
    && (pc.Out? || LockOf(pc) == Some(l)) && (pc0.Out? || LockOf(pc0) == Some(l))
    && k.waiters == k0.waiters && FieldsFit(k, me, d, PhaseOf(pc, l))
    && (|| (k.value == k0.value && in0 == in1)
        || (k0.value == 1 && k.value == 0 && !in0 && in1)
        || (k0.value == 0 && k.value == 1 && in0 && !in1 && k.holder == None && k.repeat == 0))
    && (in0 || (k.holder == k0.holder && k.repeat == k0.repeat))
    && (k.holder == k0.holder || k.holder == None || k.holder == Some(me))
    && (k.value == 1 ==> pc0 != Retest(l))
  }

  ghost predicate CanMove(st: Sys, l: LockId, pc: Pc, k: Lock, d: nat)
    requires l in st.locks
  {
    GoodMove(st.s.cur, l, At(st, st.s.cur), st.locks[l], Depth(st, st.s.cur, l), pc, k, d)
  }

  /** As far as lock j goes, no thread has moved. */
  ghost predicate SameView(st: Sys, st': Sys, j: LockId) {
    forall t :: && Depth(st', t, j) == Depth(st, t, j)
                && PhaseOf(At(st', t), j) == PhaseOf(At(st, t), j)
                && (At(st', t) == Retest(j) <==> At(st, t) == Retest(j))
  }

  /** A lock nobody touched, with nobody blocked or woken, keeps its invariant. */
  lemma LockFrame(st: Sys, st': Sys, j: LockId)
    requires j in st.locks && j in st'.locks && st'.locks[j] == st.locks[j] && LockInv(st, j)
    requires st'.s.tasks.Keys == st.s.tasks.Keys && forall t :: IsBlocked(st'.s, t) <==> IsBlocked(st.s, t)
    requires SameView(st, st', j)
    ensures LockInv(st', j)
  {
    hide FieldsFit, PhaseOf, At, Depth, IsBlocked;
    forall t
      ensures Inside(st', t, j) == Inside(st, t, j) && (Woken(st, t, j) ==> Woken(st', t, j))
    {
      assert Depth(st', t, j) == Depth(st, t, j);
    }
    forall t <- st'.s.tasks
      ensures ThreadInv(st', t, j)
    {
      assert ThreadInv(st, t, j);
      assert Depth(st', t, j) == Depth(st, t, j);
    }
    assert Exclusive(st, j) && QueueInv(st, j) && NoLostWakeup(st, j);
    assert NobodyInside(st', j) == NobodyInside(st, j);
    forall t
      ensures t in st'.locks[j].waiters <==> IsBlocked(st'.s, t) && At(st', t) == Retest(j)
    {
      assert Depth(st', t, j) == Depth(st, t, j);
    }
  }

  lemma MovedOther(st: Sys, l: LockId, pc: Pc, k: Lock, d: nat, j: LockId)
    requires l in st.locks && CanMove(st, l, pc, k, d) && j in st.locks && j != l && LockInv(st, j)
    ensures LockInv(Moved(st, l, pc, k, d), j)
  {
    hide LockInv, FieldsFit, Inside;
    LockFrame(st, Moved(st, l, pc, k, d), j);
  }

  lemma MovedThreads(st: Sys, l: LockId, pc: Pc, k: Lock, d: nat)
    requires l in st.locks && LockInv(st, l) && st.s.cur in st.s.tasks && CanMove(st, l, pc, k, d)
    ensures forall t <- st.s.tasks :: ThreadInv(Moved(st, l, pc, k, d), t, l)
  {
    hide QueueInv, NoLostWakeup, LockOf, PhaseOf;
    var st', me := Moved(st, l, pc, k, d), st.s.cur;
    forall t <- st.s.tasks
      ensures ThreadInv(st', t, l)
    {
      assert ThreadInv(st, t, l);
    }
  }

  lemma MovedExclusive(st: Sys, l: LockId, pc: Pc, k: Lock, d: nat)
    requires l in st.locks && LockInv(st, l) && st.s.cur in st.s.tasks && CanMove(st, l, pc, k, d)
    ensures Exclusive(Moved(st, l, pc, k, d), l)
  {
    hide QueueInv, NoLostWakeup, LockOf, PhaseOf, FieldsFit, ThreadInv;
    var st', me := Moved(st, l, pc, k, d), st.s.cur;
    forall t | t != me
      ensures Inside(st', t, l) == Inside(st, t, l)
    {
    }
    assert Inside(st', me, l) == (d > 0 || PhaseOf(pc, l).Got? || PhaseOf(pc, l).Claimed?);
    assert Exclusive(st, l);
  }

  /** When the value comes back to one with threads still queued, one has already been woken. */
  ghost predicate WakerReady(st: Sys, l: LockId, k: Lock)
    requires l in st.locks
  {
    st.locks[l].value == 0 && k.value == 1 && k.waiters != [] ==> exists t :: t != st.s.cur && Woken(st, t, l)
  }

  lemma MovedLock(st: Sys, l: LockId, pc: Pc, k: Lock, d: nat)
    requires l in st.locks && LockInv(st, l) && st.s.cur in st.s.tasks && CanMove(st, l, pc, k, d)
    requires !IsBlocked(st.s, st.s.cur) && WakerReady(st, l, k)
    ensures LockInv(Moved(st, l, pc, k, d), l)
  {
    hide LockOf, PhaseOf, FieldsFit, ThreadInv, Exclusive, Depth, IsBlocked;
    var st', me := Moved(st, l, pc, k, d), st.s.cur;
    MovedThreads(st, l, pc, k, d);
    MovedExclusive(st, l, pc, k, d);
    assert QueueInv(st, l) && NoLostWakeup(st, l);
    assert forall t :: t != me ==> At(st', t) == At(st, t);
    if k.value == 1 && k.waiters != [] {
      var t :| t != me && Woken(st, t, l);
      assert Woken(st', t, l);
    }
  }

  lemma MovedPlaces(st: Sys, l: LockId, pc: Pc, k: Lock, d: nat)
    requires SysInv(st) && l in st.locks && CanMove(st, l, pc, k, d)
    ensures FreshInv(Moved(st, l, pc, k, d)) && forall t :: PlaceInv(Moved(st, l, pc, k, d), t)
  {
    hide LockInv, SlotInv, FieldsFit, Inside, PhaseOf;
    var st', me := Moved(st, l, pc, k, d), st.s.cur;
    assert me in st.s.tasks && !IsBlocked(st.s, me) && At(st', me) == pc;
    forall t | t != me
      ensures At(st', t) == At(st, t) && forall j :: Depth(st', t, j) == Depth(st, t, j)
    {
    }
    assert FreshInv(st);
    forall t | t !in st'.s.tasks
      ensures At(st', t) == Out && t !in st'.s.all && forall j :: Depth(st', t, j) == 0
    {
      forall j
        ensures Depth(st', t, j) == 0
      {
        assert Depth(st, t, j) == 0;
      }
    }
    forall t
      ensures PlaceInv(st', t)
    {
      assert PlaceInv(st, t);
    }
  }

  lemma NotParked(pc: Pc, l: LockId)
    requires pc.Out? || LockOf(pc) == Some(l)
    ensures !pc.Parked?
  {
  }

  lemma MoveNotParked(st: Sys, l: LockId, pc: Pc, k: Lock, d: nat)
    requires l in st.locks && CanMove(st, l, pc, k, d)
    ensures !pc.Parked? && !At(st, st.s.cur).Parked?
  {
    hide LockOf, FieldsFit, PhaseOf, At, Depth;
    NotParked(pc, l);
    NotParked(At(st, st.s.cur), l);
  }

  lemma MovedSlots(st: Sys, l: LockId, pc: Pc, k: Lock, d: nat, slot: Slot)
    requires SysInv(st) && l in st.locks && CanMove(st, l, pc, k, d) && slot in st.slots
    ensures SlotInv(Moved(st, l, pc, k, d), slot)
  {
    hide LockInv, CanMove, SchedInv, FreshInv, PlaceInv, IsBlocked;
    var st', me := Moved(st, l, pc, k, d), st.s.cur;
    MoveNotParked(st, l, pc, k, d);
    assert SlotInv(st, slot);
    assert At(st', me) == pc && forall t :: t != me ==> At(st', t) == At(st, t);
    assert forall t, j :: t != me ==> Depth(st', t, j) == Depth(st, t, j);
  }

  lemma MovedInv(st: Sys, l: LockId, pc: Pc, k: Lock, d: nat)
    requires SysInv(st) && l in st.locks && CanMove(st, l, pc, k, d) && WakerReady(st, l, k)
    ensures SysInv(Moved(st, l, pc, k, d))
  {
    hide LockInv, SlotInv, PlaceInv, FreshInv, CanMove, WakerReady;
    var st', me := Moved(st, l, pc, k, d), st.s.cur;
    assert LockInv(st, l) && !IsBlocked(st.s, me);
    forall j <- st'.locks
      ensures LockInv(st', j)
    {
      if j == l {
        MovedLock(st, l, pc, k, d);
      } else {
        assert LockInv(st, j);
        MovedOther(st, l, pc, k, d, j);
      }
    }
    MovedPlaces(st, l, pc, k, d);
    forall slot <- st'.slots
      ensures SlotInv(st', slot)
    {
      MovedSlots(st, l, pc, k, d, slot);
    }
  }

  // ----- Statements of lock_acquire and lock_release -----------------------------------------------------

  /** From a place whose fields fit, no assertion fails and the move is a good one. */
  lemma NextMoveGood(me: Tid, l: LockId, pc: Pc, k: Lock, d: nat)
    requires LockOf(pc) == Some(l) && FieldsFit(k, me, d, PhaseOf(pc, l)) && k.value <= 1
    requires !pc.Down? && !pc.Retest? && !pc.Up?
    requires k.value == 1 ==> !InsideAt(d, PhaseOf(pc, l))
    ensures NextMove(me, pc, k, d).Ok?
    ensures var mv := NextMove(me, pc, k, d).value; GoodMove(me, l, pc, k, d, mv.pc, mv.k, mv.d)
  {
  }

  lemma StatementInv(st: Sys)
    requires SysInv(st) && Runnable(st)
    requires LockOf(At(st, st.s.cur)).Some? && !At(st, st.s.cur).Down? && !At(st, st.s.cur).Retest? && !At(st, st.s.cur).Up?
    ensures Statement(st).Ok? && SysInv(Statement(st).value)
  {
    hide FreshInv, PlaceInv, SlotInv, QueueInv, NoLostWakeup, FieldsFit, PhaseOf, NextMove, SemaDown, SemaUp, SchedInv;
    var me := st.s.cur;
    var pc := At(st, me);
    var l := LockOf(pc).value;
    InvKnown(st.s);
    assert LockInv(st, l) && ThreadInv(st, me, l) && Exclusive(st, l);
    assert Inside(st, me, l) == InsideAt(Depth(st, me, l), PhaseOf(pc, l));
    NextMoveGood(me, l, pc, st.locks[l], Depth(st, me, l));
    var mv := NextMove(me, pc, st.locks[l], Depth(st, me, l)).value;
    GoodMoveValue(me, l, pc, st.locks[l], Depth(st, me, l), mv);
    MovedInv(st, l, mv.pc, mv.k, mv.d);
  }

  lemma GoodMoveValue(me: Tid, l: LockId, pc: Pc, k: Lock, d: nat, mv: Move)
    requires NextMove(me, pc, k, d) == Ok(mv)
    ensures mv.k.value == k.value
  {
  }

  // ----- sema_down ------------------------------------------------------------------------------------------

  lemma TakeInv(st: Sys, l: LockId)
    requires SysInv(st) && l in st.locks && st.locks[l].value == 1
    requires At(st, st.s.cur) == Down(l) || At(st, st.s.cur) == Retest(l)
    ensures SysInv(Moved(st, l, SetHolder(l), st.locks[l].(value := 0), Depth(st, st.s.cur, l)))
  {
    hide FreshInv, PlaceInv, SlotInv, QueueInv, NoLostWakeup, SchedInv;
    InvKnown(st.s);
    assert LockInv(st, l) && ThreadInv(st, st.s.cur, l) && Exclusive(st, l);
    assert !Inside(st, st.s.cur, l);
    MovedInv(st, l, SetHolder(l), st.locks[l].(value := 0), Depth(st, st.s.cur, l));
  }

  /** Blocking or waking a thread is nothing to a lock that the thread is not waiting for. */
  lemma EnqueueOther(st: Sys, st': Sys, me: Tid, j: LockId)
    requires j in st.locks && j in st'.locks && st'.locks[j] == st.locks[j] && LockInv(st, j)
    requires st'.pc == st.pc && st'.depth == st.depth && At(st, me) != Retest(j)
    requires st'.s.tasks.Keys == st.s.tasks.Keys && forall t :: t != me ==> (IsBlocked(st'.s, t) <==> IsBlocked(st.s, t))
    ensures LockInv(st', j)
  {
    hide FieldsFit, PhaseOf, IsBlocked;
    assert Exclusive(st, j) && QueueInv(st, j) && NoLostWakeup(st, j);
    forall t
      ensures Inside(st', t, j) == Inside(st, t, j) && At(st', t) == At(st, t) && (Woken(st, t, j) ==> Woken(st', t, j))
    {
    }
    assert NobodyInside(st', j) == NobodyInside(st, j);
    forall t <- st'.s.tasks
      ensures ThreadInv(st', t, j)
    {
      assert ThreadInv(st, t, j);
    }
  }

  /** The thread joins the queue and blocks. */
  lemma EnqueueLock(st: Sys, st': Sys, l: LockId)
    requires l in st.locks && LockInv(st, l) && At(st, st.s.cur) == Retest(l) && !IsBlocked(st.s, st.s.cur)
    requires st.s.cur in st.s.tasks && st.locks[l].value == 0
    requires st' == st.(s := st'.s, locks := st.locks[l := st.locks[l].(waiters := st.locks[l].waiters + [st.s.cur])])
    requires SameTasks(st.s, st'.s) && forall t :: IsBlocked(st'.s, t) <==> IsBlocked(st.s, t) || t == st.s.cur
    ensures LockInv(st', l)
  {
    hide FieldsFit, PhaseOf, IsBlocked;
    assert Exclusive(st, l) && QueueInv(st, l);
    forall t
      ensures Inside(st', t, l) == Inside(st, t, l) && At(st', t) == At(st, t)
    {
    }
    assert NobodyInside(st', l) == NobodyInside(st, l);
    forall t <- st'.s.tasks
      ensures ThreadInv(st', t, l)
    {
      assert ThreadInv(st, t, l);
      FieldsIgnoreQueue(st.locks[l], st'.locks[l], t, Depth(st, t, l), PhaseOf(At(st, t), l));
    }
  }

  lemma FieldsIgnoreQueue(k: Lock, k': Lock, t: Tid, d: nat, ph: Phase)
    requires k'.holder == k.holder && k'.repeat == k.repeat && FieldsFit(k, t, d, ph)
    ensures FieldsFit(k', t, d, ph)
  {
  }

  /** Nobody moved, no task changed, and every blocked thread still is where a blocked thread can be. */
  lemma PlacesKept(st: Sys, st': Sys)
    requires SysInv(st) && SameTasks(st.s, st'.s) && st'.pc == st.pc && st'.depth == st.depth
    requires st'.locks.Keys == st.locks.Keys && st'.slots.Keys == st.slots.Keys && st'.guard == st.guard
    requires forall t :: IsBlocked(st'.s, t) ==> IsBlocked(st.s, t) || At(st, t).Retest? || (At(st, t).Parked? && At(st, t).slot in st.slots)
    ensures FreshInv(st') && forall t :: PlaceInv(st', t)
  {
    hide LockInv, SlotInv, IsBlocked, SchedInv;
    assert forall t :: At(st', t) == At(st, t);
    assert forall t, l :: Depth(st', t, l) == Depth(st, t, l);
    assert FreshInv(st);
    forall t
      ensures PlaceInv(st', t)
    {
      assert PlaceInv(st, t);
    }
  }

  lemma EnqueueInv(st: Sys, l: LockId, s1: Sched)
    requires SysInv(st) && l in st.locks && At(st, st.s.cur) == Retest(l) && st.locks[l].value == 0 && SchedInv(s1)
    requires SameTasks(st.s, s1) && forall t :: IsBlocked(s1, t) <==> IsBlocked(st.s, t) || t == st.s.cur
    ensures SysInv(st.(s := s1, locks := st.locks[l := st.locks[l].(waiters := st.locks[l].waiters + [st.s.cur])]))
  {
    hide LockInv, FreshInv, PlaceInv, SlotInv, SchedInv;
    var st' := st.(s := s1, locks := st.locks[l := st.locks[l].(waiters := st.locks[l].waiters + [st.s.cur])]);
    RunsUnblocked(st.s);
    PlacesKept(st, st');
    forall j <- st'.locks
      ensures LockInv(st', j)
    {
      assert LockInv(st, j);
      if j == l {
        EnqueueLock(st, st', l);
      } else {
        EnqueueOther(st, st', st.s.cur, j);
      }
    }
    forall slot <- st'.slots
      ensures SlotInv(st', slot)
    {
      assert SlotInv(st, slot);
      SlotsKept(st, st', st.s.cur, slot);
    }
  }

  lemma ToRetest(st: Sys, l: LockId)
    requires SysInv(st) && l in st.locks && st.locks[l].value == 0
    requires At(st, st.s.cur) == Down(l) || At(st, st.s.cur) == Retest(l)
    ensures SysInv(Moved(st, l, Retest(l), st.locks[l], Depth(st, st.s.cur, l)))
  {
    hide FreshInv, PlaceInv, SlotInv, NoLostWakeup, QueueInv, Exclusive, SchedInv;
    RunsUnblocked(st.s);
    assert LockInv(st, l) && ThreadInv(st, st.s.cur, l);
    MovedInv(st, l, Retest(l), st.locks[l], Depth(st, st.s.cur, l));
  }

  /** No thread is queued twice: the assertion of sema_down. */
  lemma NotQueued(st: Sys, l: LockId)
    requires SysInv(st) && l in st.locks
    ensures st.s.cur !in st.locks[l].waiters && st.locks[l].value <= 1
  {
    assert LockInv(st, l) && QueueInv(st, l) && Exclusive(st, l);
    RunsUnblocked(st.s);
  }

  /** sema_down: it takes the semaphore or queues the thread; it stops only when nobody is left to run. */
  lemma SemaDownInv(st: Sys, l: LockId)
    requires SysInv(st) && l in st.locks && Known(st.s)
    requires At(st, st.s.cur) == Down(l) || At(st, st.s.cur) == Retest(l)
    ensures match SemaDown(st, l) case Panic(e) => e == NoReadyThread && st.s.ready == [] case Ok(st') => SysInv(st')
  {
    NotQueued(st, l);
    if st.locks[l].value == 1 {
      TakeInv(st, l);
    } else {
      QueueUp(st, l);
    }
  }

  lemma QueueUp(st: Sys, l: LockId)
    requires SysInv(st) && l in st.locks && Known(st.s) && st.locks[l].value == 0 && st.s.cur !in st.locks[l].waiters
    requires At(st, st.s.cur) == Down(l) || At(st, st.s.cur) == Retest(l)
    ensures match SemaDown(st, l) case Panic(e) => e == NoReadyThread && st.s.ready == [] case Ok(st') => SysInv(st')
  {
    hide FreshInv, PlaceInv, SlotInv, LockInv, SchedInv, Block, IsBlocked, SameTasks;
    var me, k, d := st.s.cur, st.locks[l], Depth(st, st.s.cur, l);
    var st1 := Moved(st, l, Retest(l), k, d);
    ToRetest(st, l);
    BlockInv(st.s);
    var r := Block(st.s);
    if r.Ok? {
      BlockEffect(st.s);
      EnqueueInv(st1, l, r.value);
      assert st1.locks[l := k.(waiters := k.waiters + [me])] == st.locks[l := k.(waiters := k.waiters + [me])];
    }
  }

  lemma RunsUnblocked(s: Sched)
    requires SchedInv(s)
    ensures s.cur in s.tasks && !IsBlocked(s, s.cur)
  {
  }

  // ----- sema_up --------------------------------------------------------------------------------------------

  /** The first thread of the queue leaves it and is ready. */
  lemma DequeueLock(st: Sys, st': Sys, l: LockId)
    requires l in st.locks && LockInv(st, l) && st.locks[l].waiters != [] && st.locks[l].value == 0
    requires st' == st.(s := st'.s, locks := st.locks[l := st.locks[l].(waiters := st.locks[l].waiters[1..])])
    requires SameTasks(st.s, st'.s) && forall t :: IsBlocked(st'.s, t) <==> IsBlocked(st.s, t) && t != st.locks[l].waiters[0]
    ensures LockInv(st', l) && Woken(st', st.locks[l].waiters[0], l)
  {
    hide FieldsFit, PhaseOf;
    assert Exclusive(st, l) && QueueInv(st, l);
    var q := st.locks[l].waiters;
    assert q == [q[0]] + q[1..] && q[0] in q;
    forall t
      ensures Inside(st', t, l) == Inside(st, t, l) && At(st', t) == At(st, t)
    {
    }
    assert NobodyInside(st', l) == NobodyInside(st, l);
    forall t <- st'.s.tasks
      ensures ThreadInv(st', t, l)
    {
      assert ThreadInv(st, t, l);
      FieldsIgnoreQueue(st.locks[l], st'.locks[l], t, Depth(st, t, l), PhaseOf(At(st, t), l));
    }
  }

  lemma DequeueInv(st: Sys, l: LockId, s1: Sched)
    requires SysInv(st) && l in st.locks && st.locks[l].waiters != [] && st.locks[l].value == 0 && SchedInv(s1)
    requires SameTasks(st.s, s1) && forall t :: IsBlocked(s1, t) <==> IsBlocked(st.s, t) && t != st.locks[l].waiters[0]
    ensures var st' := st.(s := s1, locks := st.locks[l := st.locks[l].(waiters := st.locks[l].waiters[1..])]);
            SysInv(st') && Woken(st', st.locks[l].waiters[0], l)
  {
    hide LockInv, FreshInv, PlaceInv, Woken, SchedInv, SlotInv;
    var w := st.locks[l].waiters[0];
    var st' := st.(s := s1, locks := st.locks[l := st.locks[l].(waiters := st.locks[l].waiters[1..])]);
    HeadBlocked(st, l);
    PlacesKept(st, st');
    forall j <- st'.locks
      ensures LockInv(st', j)
    {
      assert LockInv(st, j);
      if j == l {
        DequeueLock(st, st', l);
      } else {
        EnqueueOther(st, st', w, j);
      }
    }
    assert LockInv(st, l);
    DequeueLock(st, st', l);
    forall slot <- st'.slots
      ensures SlotInv(st', slot)
    {
      assert SlotInv(st, slot);
      SlotsKept(st, st', w, slot);
    }
  }

  lemma HeadBlocked(st: Sys, l: LockId)
    requires SysInv(st) && l in st.locks && st.locks[l].waiters != []
    ensures IsBlocked(st.s, st.locks[l].waiters[0]) && At(st, st.locks[l].waiters[0]) == Retest(l)
    ensures st.locks[l].waiters[0] in st.s.tasks && st.locks[l].waiters[0] != st.s.cur
  {
    assert LockInv(st, l) && QueueInv(st, l);
    assert st.locks[l].waiters[0] in st.locks[l].waiters;
  }

  lemma UpGood(me: Tid, l: LockId, k: Lock, d: nat)
    requires k.value == 0 && FieldsFit(k, me, d, PhaseOf(Up(l), l))
    ensures d == 1 && GoodMove(me, l, Up(l), k, d, Out, k.(value := 1), 0)
  {
  }

  lemma UpDeep(k: Lock, me: Tid, l: LockId, d: nat)
    requires FieldsFit(k, me, d, PhaseOf(Up(l), l))
    ensures d == 1
  {
  }

  /** sema_up's assertion on the value, and the step from which nobody is inside. */
  lemma UpMove(st: Sys, l: LockId)
    requires SysInv(st) && l in st.locks && At(st, st.s.cur) == Up(l)
    ensures st.locks[l].value == 0 && Depth(st, st.s.cur, l) == 1
    ensures CanMove(st, l, Out, st.locks[l].(value := 1), 0)
  {
    hide FreshInv, PlaceInv, SlotInv, SchedInv, NoLostWakeup, QueueInv, GoodMove, FieldsFit, PhaseOf, At, Depth, LockOf;
    RunsUnblocked(st.s);
    assert LockInv(st, l) && ThreadInv(st, st.s.cur, l) && Exclusive(st, l);
    UpDeep(st.locks[l], st.s.cur, l, Depth(st, st.s.cur, l));
    assert Inside(st, st.s.cur, l);
    UpGood(st.s.cur, l, st.locks[l], Depth(st, st.s.cur, l));
  }

  lemma UpAndLeave(st: Sys, l: LockId)
    requires SysInv(st) && l in st.locks && At(st, st.s.cur) == Up(l)
    requires st.locks[l].waiters == [] || exists t :: t != st.s.cur && Woken(st, t, l)
    ensures SysInv(Moved(st, l, Out, st.locks[l].(value := 1), 0))
  {
    hide SysInv, CanMove;
    UpMove(st, l);
    MovedInv(st, l, Out, st.locks[l].(value := 1), 0);
  }

  lemma SemaUpInv(st: Sys, l: LockId)
    requires SysInv(st) && Runnable(st) && l in st.locks && At(st, st.s.cur) == Up(l)
    requires st.locks[l].waiters != [] ==> st.locks[l].waiters[0] in st.s.tasks
    ensures SemaUp(st, l).Ok? && SysInv(SemaUp(st, l).value)
  {
    hide FreshInv, PlaceInv, SlotInv, LockInv, SchedInv, Woken, Unblock, IsBlocked, SameTasks, CanMove;
    var me, k := st.s.cur, st.locks[l];
    UpMove(st, l);
    if k.waiters == [] {
      UpAndLeave(st, l);
    } else {
      HeadBlocked(st, l);
      ReadyToUnblock(st.s, k.waiters[0]);
      UnblockInv(st.s, k.waiters[0]);
      UnblockEffect(st.s, k.waiters[0]);
      var s1 := Unblock(st.s, k.waiters[0]).value;
      var st1 := st.(s := s1, locks := st.locks[l := k.(waiters := k.waiters[1..])]);
      DequeueInv(st, l, s1);
      UpAndLeave(st1, l);
      assert st1.locks[l := st1.locks[l].(value := 1)] == st.locks[l := k.(value := 1, waiters := k.waiters[1..])];
    }
  }

  lemma ReadyToUnblock(s: Sched, t: Tid)
    requires IsBlocked(s, t)
    ensures t in s.tasks && s.tasks[t].status.Blocked?
  {
  }

  // ----- The other steps ----------------------------------------------------------------------------------------

  lemma SlotsKept(st: Sys, st': Sys, me: Tid, slot: Slot)
    requires slot in st.slots && slot in st'.slots && SlotInv(st, slot) && st'.slots[slot] == st.slots[slot] && st'.guard == st.guard
    requires st'.locks.Keys == st.locks.Keys && forall t <- st'.s.tasks :: t in st.s.tasks || At(st', t) == Out
    requires forall t :: t != me ==> (IsBlocked(st'.s, t) <==> IsBlocked(st.s, t)) && At(st', t) == At(st, t)
    requires forall t, l :: Depth(st', t, l) == Depth(st, t, l)
    requires At(st', me) == Parked(slot) ==> At(st, me) == Parked(slot) && (IsBlocked(st'.s, me) <==> IsBlocked(st.s, me))
    requires At(st, me) == Parked(slot) && IsBlocked(st.s, me) ==> At(st', me) == Parked(slot)
    ensures SlotInv(st', slot)
  {
    hide IsBlocked, At, Depth;
  }

  lemma TimerInv(st: Sys, s1: Sched)
    requires SysInv(st) && SchedInv(s1) && SameTasks(st.s, s1) && forall t :: IsBlocked(s1, t) <==> IsBlocked(st.s, t)
    ensures SysInv(st.(s := s1))
  {
    hide LockInv, SchedInv, FreshInv, PlaceInv, SlotInv;
    var st' := st.(s := s1);
    PlacesKept(st, st');
    forall j <- st'.locks
      ensures LockInv(st', j)
    {
      assert LockInv(st, j);
      LockFrame(st, st', j);
    }
    forall slot <- st'.slots
      ensures SlotInv(st', slot)
    {
      assert SlotInv(st, slot);
      SlotsKept(st, st', st.s.cur, slot);
    }
  }

  lemma CallInv(st: Sys, l: LockId, pc: Pc)
    requires SysInv(st) && l in st.locks && At(st, st.s.cur) == Out
    requires pc == AcqTest(l) || (pc == RelAssert(l) && Depth(st, st.s.cur, l) > 0)
    ensures SysInv(Moved(st, l, pc, st.locks[l], Depth(st, st.s.cur, l)))
  {
    hide SchedInv, FreshInv, PlaceInv, SlotInv, QueueInv, Exclusive, NoLostWakeup;
    RunsUnblocked(st.s);
    assert LockInv(st, l) && ThreadInv(st, st.s.cur, l);
    MovedInv(st, l, pc, st.locks[l], Depth(st, st.s.cur, l));
  }

  /** The running thread moves between places that are about no lock. */
  lemma GotoLocks(st: Sys, pc: Pc, j: LockId)
    requires j in st.locks && LockInv(st, j) && LockOf(pc) == None && LockOf(At(st, st.s.cur)) == None
    ensures LockInv(Goto(st, pc), j)
  {
    hide LockInv, FieldsFit;
    LockFrame(st, Goto(st, pc), j);
  }

  lemma UnparkInv(st: Sys)
    requires SysInv(st) && At(st, st.s.cur).Parked?
    ensures SysInv(Goto(st, Out))
  {
    hide LockInv, SchedInv, SlotInv;
    var st' := Goto(st, Out);
    RunsUnblocked(st.s);
    GotoPlaces(st, Out);
    forall j <- st'.locks
      ensures LockInv(st', j)
    {
      assert LockInv(st, j);
      GotoLocks(st, Out, j);
    }
    forall slot <- st'.slots
      ensures SlotInv(st', slot)
    {
      assert SlotInv(st, slot);
      SlotsKept(st, st', st.s.cur, slot);
    }
  }

  lemma GotoPlaces(st: Sys, pc: Pc)
    requires SysInv(st) && LockOf(pc) == None && NewOf(pc) == None && st.s.cur in st.s.tasks && !IsBlocked(st.s, st.s.cur)
    ensures FreshInv(Goto(st, pc)) && forall t :: PlaceInv(Goto(st, pc), t)
  {
    hide LockInv, SchedInv, SlotInv;
    var st' := Goto(st, pc);
    assert forall t, l :: Depth(st', t, l) == Depth(st, t, l);
    assert At(st', st.s.cur) == pc && forall t :: t != st.s.cur ==> At(st', t) == At(st, t);
    assert FreshInv(st);
    forall t
      ensures PlaceInv(st', t)
    {
      assert PlaceInv(st, t);
    }
  }

  /** The running thread is about to block in ioq_wait; it is not blocked yet, so no slot names it. */
  lemma ParkSlot(st: Sys, st': Sys, slot: Slot, k: Slot)
    requires k in st.slots && SlotInv(st, k) && st' == Goto(st, Parked(slot)) && slot in st.guard
    requires !IsBlocked(st.s, st.s.cur) && Depth(st, st.s.cur, st.guard[slot]) > 0
    ensures SlotInv(st', k)
  {
    hide IsBlocked;
    assert forall t, l :: Depth(st', t, l) == Depth(st, t, l);
    assert At(st', st.s.cur) == Parked(slot) && forall t :: t != st.s.cur ==> At(st', t) == At(st, t);
  }

  lemma ParkInv(st: Sys, slot: Slot)
    requires SysInv(st) && At(st, st.s.cur) == Out && slot in st.slots && slot in st.guard
    requires Depth(st, st.s.cur, st.guard[slot]) > 0
    ensures SysInv(Goto(st, Parked(slot)))
  {
    hide LockInv, SchedInv, FreshInv, PlaceInv, SlotInv, IsBlocked;
    var st' := Goto(st, Parked(slot));
    RunsUnblocked(st.s);
    GotoPlaces(st, Parked(slot));
    forall j <- st'.locks
      ensures LockInv(st', j)
    {
      assert LockInv(st, j);
      GotoLocks(st, Parked(slot), j);
    }
    forall k <- st'.slots
      ensures SlotInv(st', k)
    {
      assert SlotInv(st, k);
      ParkSlot(st, st', slot, k);
    }
  }

  /** ioq_wait's assertion: whoever holds the slot's lock finds the slot free. */
  lemma SlotFree(st: Sys, slot: Slot)
    requires SysInv(st) && slot in st.slots && slot in st.guard && Depth(st, st.s.cur, st.guard[slot]) > 0
    ensures st.slots[slot] == None
  {
    hide SchedInv;
    RunsUnblocked(st.s);
    assert SlotInv(st, slot);
    var l := st.guard[slot];
    assert LockInv(st, l) && Exclusive(st, l);
    assert Inside(st, st.s.cur, l);
    assert forall t <- st.s.tasks :: At(st, t) == Parked(slot) ==> Inside(st, t, l);
  }

  /** What the slots say when one thread blocks or wakes while its place stays Parked. */
  lemma SlotsUpdated(st: Sys, st': Sys, me: Tid, slot: Slot, k: Slot)
    requires slot in st.slots && k in st'.slots && k in st.slots && SlotInv(st, k) && At(st, me) == Parked(slot)
    requires st'.pc == st.pc && st'.depth == st.depth && st'.guard == st.guard && st'.locks == st.locks
    requires SameTasks(st.s, st'.s) && forall t :: t != me ==> (IsBlocked(st'.s, t) <==> IsBlocked(st.s, t))
    requires st'.slots == st.slots[slot := if IsBlocked(st'.s, me) then Some(me) else None]
    requires st.slots[slot] == if IsBlocked(st.s, me) then Some(me) else None
    ensures SlotInv(st', k)
  {
    hide IsBlocked;
    assert forall t :: At(st', t) == At(st, t);
    assert forall t, l :: Depth(st', t, l) == Depth(st, t, l);
  }

  /** Blocking in ioq_wait: the slot names the thread. */
  lemma FillSlotInv(st: Sys, slot: Slot, s1: Sched)
    requires SysInv(st) && slot in st.slots && st.slots[slot] == None && At(st, st.s.cur) == Parked(slot) && SchedInv(s1)
    requires SameTasks(st.s, s1) && forall t :: IsBlocked(s1, t) <==> IsBlocked(st.s, t) || t == st.s.cur
    ensures SysInv(st.(s := s1, slots := st.slots[slot := Some(st.s.cur)]))
  {
    hide LockInv, SchedInv, FreshInv, PlaceInv, SlotInv, IsBlocked;
    var me, st' := st.s.cur, st.(s := s1, slots := st.slots[slot := Some(st.s.cur)]);
    RunsUnblocked(st.s);
    PlacesKept(st, st');
    forall j <- st'.locks
      ensures LockInv(st', j)
    {
      assert LockInv(st, j);
      EnqueueOther(st, st', me, j);
    }
    forall k <- st'.slots
      ensures SlotInv(st', k)
    {
      assert SlotInv(st, k);
      SlotsUpdated(st, st', me, slot, k);
    }
  }

  /** wakeup: the slot is empty again and its thread is ready. */
  lemma EmptySlotInv(st: Sys, slot: Slot, s1: Sched)
    requires SysInv(st) && slot in st.slots && st.slots[slot].Some? && SchedInv(s1)
    requires SameTasks(st.s, s1) && forall t :: IsBlocked(s1, t) <==> IsBlocked(st.s, t) && t != st.slots[slot].value
    ensures SysInv(st.(s := s1, slots := st.slots[slot := None]))
  {
    hide LockInv, SchedInv, FreshInv, PlaceInv;
    var w, st' := st.slots[slot].value, st.(s := s1, slots := st.slots[slot := None]);
    assert SlotInv(st, slot);
    PlacesKept(st, st');
    forall j <- st'.locks
      ensures LockInv(st', j)
    {
      assert LockInv(st, j);
      EnqueueOther(st, st', w, j);
    }
    forall k <- st'.slots
      ensures SlotInv(st', k)
    {
      assert SlotInv(st, k);
      SlotsUpdated(st, st', w, slot, k);
    }
  }

  // ----- thread_start ----------------------------------------------------------------------------------------------

  /** The lock's holder is a thread that exists. */
  lemma HolderExists(st: Sys, l: LockId)
    requires l in st.locks && LockInv(st, l)
    ensures st.locks[l].holder.Some? ==> st.locks[l].holder.value in st.s.tasks
  {
    hide QueueInv, NoLostWakeup, PhaseOf;
    assert Exclusive(st, l);
    if !NobodyInside(st, l) {
      var t :| t in st.s.tasks && Inside(st, t, l);
      assert ThreadInv(st, t, l);
    }
  }

  lemma SpawnLock(st: Sys, st': Sys, t: Tid, j: LockId)
    requires j in st.locks && j in st'.locks && st'.locks[j] == st.locks[j] && LockInv(st, j)
    requires SameView(st, st', j) && PhaseOf(At(st, t), j) == Rest && Depth(st, t, j) == 0
    requires t !in st.s.tasks && st'.s.tasks.Keys == st.s.tasks.Keys + {t}
    requires forall u :: IsBlocked(st'.s, u) <==> IsBlocked(st.s, u)
    ensures LockInv(st', j)
  {
    hide IsBlocked, FieldsFit, PhaseOf, At, Depth;
    HolderExists(st, j);
    assert Exclusive(st, j) && QueueInv(st, j) && NoLostWakeup(st, j);
    forall u
      ensures Inside(st', u, j) == Inside(st, u, j) && (Woken(st, u, j) ==> Woken(st', u, j))
      ensures u in st'.locks[j].waiters <==> IsBlocked(st'.s, u) && At(st', u) == Retest(j)
    {
      assert Depth(st', u, j) == Depth(st, u, j);
    }
    assert NobodyInside(st', j) == NobodyInside(st, j) by {
      assert !Inside(st, t, j);
      if NobodyInside(st, j) {
        forall u <- st'.s.tasks
          ensures !Inside(st', u, j)
        {
        }
      }
    }
    forall u <- st'.s.tasks
      ensures ThreadInv(st', u, j)
    {
      assert Depth(st', u, j) == Depth(st, u, j);
      if u == t {
        RestFits(st.locks[j], t);
      } else {
        assert ThreadInv(st, u, j);
      }
    }
  }

  lemma RestFits(k: Lock, t: Tid)
    requires k.holder != Some(t)
    ensures FieldsFit(k, t, 0, Rest)
  {
  }

  lemma StartReadyEffect(s: Sched, t: Tid, priority: nat)
    requires SchedInv(s) && t !in s.tasks
    ensures StartReady(s, t, priority).Ok?
    ensures var s1 := StartReady(s, t, priority).value;
            && SchedInv(s1) && s1.tasks.Keys == s.tasks.Keys + {t} && s1.all == s.all && s1.cur == s.cur
            && forall u :: IsBlocked(s1, u) <==> IsBlocked(s, u)
  {
    StartInv(s, t, priority);
  }

  /** The running thread moves between places of client code and thread_start. */
  lemma GotoInv(st: Sys, pc: Pc)
    requires SysInv(st) && LockOf(pc) == None && !pc.Parked? && LockOf(At(st, st.s.cur)) == None && !At(st, st.s.cur).Parked?
    requires Starting(st.s, st.s.cur, pc) && (NewOf(pc).Some? ==> forall u :: u != st.s.cur ==> NewOf(At(st, u)) != NewOf(pc))
    ensures SysInv(Goto(st, pc))
  {
    hide LockInv, SchedInv, SlotInv, Starting, NewOf, LockOf;
    var me, st' := st.s.cur, Goto(st, pc);
    RunsUnblocked(st.s);
    assert At(st', me) == pc && forall u :: u != me ==> At(st', u) == At(st, u);
    assert forall u, l :: Depth(st', u, l) == Depth(st, u, l);
    assert FreshInv(st);
    forall u
      ensures PlaceInv(st', u)
    {
      assert PlaceInv(st, u);
    }
    forall j <- st'.locks
      ensures LockInv(st', j)
    {
      assert LockInv(st, j);
      GotoLocks(st, pc, j);
    }
    forall slot <- st'.slots
      ensures SlotInv(st', slot)
    {
      assert SlotInv(st, slot);
      SlotsKept(st, st', me, slot);
    }
  }

  lemma SpawnPlaces(st: Sys, t: Tid, st': Sys)
    requires SysInv(st) && NewOf(At(st, st.s.cur)) == Some(t) && t !in st.s.tasks && st.s.cur in st.s.tasks
    requires !IsBlocked(st.s, st.s.cur) && st' == Goto(st, Pending(t)).(s := st'.s)
    requires st'.s.tasks.Keys == st.s.tasks.Keys + {t} && st'.s.all == st.s.all && st'.s.cur == st.s.cur
    requires forall u :: IsBlocked(st'.s, u) <==> IsBlocked(st.s, u)
    ensures FreshInv(st') && forall u :: PlaceInv(st', u)
  {
    hide LockInv, SchedInv, SlotInv, IsBlocked;
    var me := st.s.cur;
    assert FreshInv(st);
    assert At(st', me) == Pending(t) && forall u :: u != me ==> At(st', u) == At(st, u);
    assert forall u, l :: Depth(st', u, l) == Depth(st, u, l);
    forall u
      ensures PlaceInv(st', u)
    {
      assert PlaceInv(st, u);
      if u != me {
        assert NewOf(At(st, u)) != Some(t);
      }
    }
  }

  lemma SpawnInv(st: Sys, t: Tid, s1: Sched)
    requires SysInv(st) && NewOf(At(st, st.s.cur)) == Some(t) && t !in st.s.tasks && SchedInv(s1)
    requires s1.tasks.Keys == st.s.tasks.Keys + {t} && s1.all == st.s.all && s1.cur == st.s.cur
    requires forall u :: IsBlocked(s1, u) <==> IsBlocked(st.s, u)
    ensures SysInv(Goto(st, Pending(t)).(s := s1))
  {
    hide LockInv, SchedInv, SlotInv, PlaceInv, IsBlocked;
    var me, st' := st.s.cur, Goto(st, Pending(t)).(s := s1);
    RunsUnblocked(st.s);
    assert FreshInv(st);
    SpawnPlaces(st, t, st');
    assert At(st', me) == Pending(t) && forall u :: u != me ==> At(st', u) == At(st, u);
    assert forall u, l :: Depth(st', u, l) == Depth(st, u, l);
    forall j <- st'.locks
      ensures LockInv(st', j)
    {
      assert LockInv(st, j);
      SpawnLock(st, st', t, j);
    }
    forall slot <- st'.slots
      ensures SlotInv(st', slot)
    {
      assert SlotInv(st, slot);
      SlotsKept(st, st', me, slot);
    }
  }

  lemma RegisterPlaces(st: Sys, t: Tid, st': Sys)
    requires SysInv(st) && NewOf(At(st, st.s.cur)) == Some(t) && t in st.s.tasks && st.s.cur in st.s.tasks
    requires !IsBlocked(st.s, st.s.cur) && st' == Goto(st, Out).(s := st.s.(all := st.s.all + [t]))
    ensures FreshInv(st') && forall u :: PlaceInv(st', u)
  {
    hide LockInv, SchedInv, SlotInv;
    var me := st.s.cur;
    assert FreshInv(st);
    assert At(st', me) == Out && forall u :: u != me ==> At(st', u) == At(st, u);
    assert forall u, l :: Depth(st', u, l) == Depth(st, u, l);
    forall u
      ensures PlaceInv(st', u)
    {
      assert PlaceInv(st, u);
      if u != me {
        assert NewOf(At(st, u)) != Some(t);
      }
    }
  }

  lemma RegisterSched(s: Sched, t: Tid)
    requires SchedInv(s) && t !in s.all
    ensures StartAll(s, t) == Ok(s.(all := s.all + [t])) && SchedInv(s.(all := s.all + [t]))
  {
  }

  lemma RegisterInv(st: Sys, t: Tid)
    requires SysInv(st) && NewOf(At(st, st.s.cur)) == Some(t) && t in st.s.tasks && t !in st.s.all
    ensures StartAll(st.s, t).Ok? && SysInv(Goto(st, Out).(s := StartAll(st.s, t).value))
  {
    hide LockInv, SlotInv, PlaceInv, FreshInv, SchedInv;
    var me := st.s.cur;
    RunsUnblocked(st.s);
    RegisterSched(st.s, t);
    var s1 := st.s.(all := st.s.all + [t]);
    var st' := Goto(st, Out).(s := s1);
    RegisterPlaces(st, t, st');
    assert At(st', me) == Out && forall u :: u != me ==> At(st', u) == At(st, u);
    assert forall u, l :: Depth(st', u, l) == Depth(st, u, l);
    forall j <- st'.locks
      ensures LockInv(st', j)
    {
      assert LockInv(st, j);
      GotoLocks(st, Out, j);
      LockFrame(Goto(st, Out), st', j);
    }
    forall slot <- st'.slots
      ensures SlotInv(st', slot)
    {
      assert SlotInv(st, slot);
      SlotsKept(st, st', me, slot);
    }
  }
}
