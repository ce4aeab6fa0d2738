/**
  thread/thread.c and device/timer.c: tasks, the ready list and time slices.  Everything here
  runs with interrupts off, so each function is one step.
 */
module Scheduling {
  import opened Outcomes

  type Tid = nat

  /** TASK_BLOCKED, TASK_WAITING and TASK_HANGING are all Blocked: nothing tells them apart. */
  datatype Status = Running | Ready | Blocked

  datatype Task = Task(status: Status, priority: nat, ticks: nat, elapsed: nat)

  datatype Sched = Sched(cur: Tid, ready: seq<Tid>, all: seq<Tid>, tasks: map<Tid, Task>, clock: nat)

  /** Every tag on a list, and the running thread, belongs to a task. */
  predicate Known(s: Sched) {
    s.cur in s.tasks && forall t <- s.ready :: t in s.tasks
  }

  function WithStatus(s: Sched, t: Tid, status: Status): (r: Sched)
    requires t in s.tasks
    ensures Known(s) ==> Known(r)
  {
    s.(tasks := s.tasks[t := s.tasks[t].(status := status)])
  }

  /** The first half of schedule: a running thread goes to the end of the ready list with a new slice. */
  function Requeue(s: Sched): (r: Outcome<Sched>)
    requires Known(s)
    ensures r.Ok? ==> Known(r.value)
  {
    var me := s.tasks[s.cur];
    if !me.status.Running? then Ok(s)
    else if s.cur in s.ready then Panic(NodeRepeat)
    else Ok(s.(ready := s.ready + [s.cur], tasks := s.tasks[s.cur := me.(ticks := me.priority, status := Ready)]))
  }

  /** The second half: the head of the ready list runs. */
  function Dispatch(s: Sched): (r: Outcome<Sched>)
    requires Known(s)
    ensures r.Ok? ==> Known(r.value)
  {
    if s.ready == [] then Panic(NoReadyThread)
    else
      assert s.ready[0] in s.ready;
      Ok(WithStatus(s, s.ready[0], Running).(cur := s.ready[0], ready := s.ready[1..]))
  }

  function Schedule(s: Sched): (r: Outcome<Sched>)
    requires Known(s)
    ensures r.Ok? ==> Known(r.value)
  {
    match Requeue(s) case Panic(e) => Panic(e) case Ok(s1) => Dispatch(s1)
  }

  /** thread_block */
  function Block(s: Sched): (r: Outcome<Sched>)
    requires Known(s)
    ensures r.Ok? ==> Known(r.value)
  {
    Schedule(WithStatus(s, s.cur, Blocked))
  }

  /** thread_unblock: to the front of the ready list. */
  function Unblock(s: Sched, t: Tid): (r: Outcome<Sched>)
    requires Known(s) && t in s.tasks
    ensures r.Ok? ==> Known(r.value)
  {
    if !s.tasks[t].status.Blocked? then Panic(BadStatus)
    else if t in s.ready then Panic(NodeRepeat)
    else Ok(WithStatus(s, t, Ready).(ready := [t] + s.ready))
  }

  /** init_thread and the first append of thread_start. */
  function StartReady(s: Sched, t: Tid, priority: nat): (r: Outcome<Sched>)
    requires Known(s)
    ensures r.Ok? ==> Known(r.value)
  {
    if t in s.ready then Panic(NodeRepeat)
    else Ok(s.(ready := s.ready + [t], tasks := s.tasks[t := Task(Ready, priority, priority, 0)]))
  }

  /** The second append of thread_start. */
  function StartAll(s: Sched, t: Tid): (r: Outcome<Sched>)
    ensures r.Ok? && Known(s) ==> Known(r.value)
  {
    if t in s.all then Panic(NodeRepeat) else Ok(s.(all := s.all + [t]))
  }

  /** intr_timer_handler */
  function Tick(s: Sched): (r: Outcome<Sched>)
    requires Known(s)
    ensures r.Ok? ==> Known(r.value)
  {
    var me := s.tasks[s.cur];
    var me1 := me.(elapsed := me.elapsed + 1);
    var s1 := s.(tasks := s.tasks[s.cur := me1], clock := s.clock + 1);
    if me.ticks == 0 then Schedule(s1)
    else Ok(s1.(tasks := s1.tasks[s.cur := me1.(ticks := me.ticks - 1)]))
  }

  // ----- The invariant -------------------------------------------------------------------------

  /** Exactly one thread runs, and the ready list holds each READY thread once and nobody else. */
  ghost predicate SchedInv(s: Sched) {
    && Known(s) && Distinct(s.ready) && Distinct(s.all)
    && s.tasks[s.cur].status.Running?
    && (forall t <- s.tasks :: s.tasks[t].status.Running? ==> t == s.cur)
    && (forall t <- s.tasks :: t in s.ready <==> s.tasks[t].status.Ready?)
  }

  /** Between the two halves of schedule nobody runs. */
  ghost predicate Switching(s: Sched) {
    && Known(s) && Distinct(s.ready) && Distinct(s.all)
    && (forall t <- s.tasks :: !s.tasks[t].status.Running?)
    && (forall t <- s.tasks :: t in s.ready <==> s.tasks[t].status.Ready?)
  }

  lemma DispatchInv(s: Sched)
    requires Switching(s)
    ensures match Dispatch(s) case Panic(e) => e == NoReadyThread && s.ready == [] case Ok(s') => SchedInv(s')
  {
    if s.ready != [] {
      var t, rest := s.ready[0], s.ready[1..];
      assert s.ready == [t] + rest;
      assert t !in rest;
    }
  }

  lemma RequeueInv(s: Sched)
    requires SchedInv(s)
    ensures Requeue(s).Ok? && Switching(Requeue(s).value) && Requeue(s).value.ready == s.ready + [s.cur]
  {
  }

  /** Preempting always finds somebody to run: at worst the thread itself. */
  lemma ScheduleInv(s: Sched)
    requires SchedInv(s)
    ensures Schedule(s).Ok? && SchedInv(Schedule(s).value)
  {
    RequeueInv(s);
    DispatchInv(Requeue(s).value);
  }

  lemma BlockInv(s: Sched)
    requires SchedInv(s)
    ensures match Block(s)
            case Panic(e) => e == NoReadyThread && s.ready == []
            case Ok(s') => SchedInv(s') && s'.tasks[s.cur].status.Blocked?
  {
    DispatchInv(WithStatus(s, s.cur, Blocked));
  }

  lemma UnblockInv(s: Sched, t: Tid)
    requires SchedInv(s) && t in s.tasks && s.tasks[t].status.Blocked?
    ensures Unblock(s, t).Ok? && SchedInv(Unblock(s, t).value)
  {
    var s' := Unblock(s, t).value;
    assert s'.ready == [t] + s.ready;
  }

  lemma TickInv(s: Sched)
    requires SchedInv(s)
    ensures Tick(s).Ok? && SchedInv(Tick(s).value)
  {
    var me1 := s.tasks[s.cur].(elapsed := s.tasks[s.cur].elapsed + 1);
    ScheduleInv(s.(tasks := s.tasks[s.cur := me1], clock := s.clock + 1));
  }

  lemma StartInv(s: Sched, t: Tid, priority: nat)
    requires SchedInv(s) && t !in s.tasks
    ensures StartReady(s, t, priority).Ok? && SchedInv(StartReady(s, t, priority).value)
    ensures t !in s.all ==> StartAll(s, t).Ok? && SchedInv(StartAll(s, t).value)
  {
  }

  // ----- Who is blocked ---------------------------------------------------------------------------

  ghost predicate IsBlocked(s: Sched, t: Tid) {
    t in s.tasks && s.tasks[t].status.Blocked?
  }

  /** Same tasks on the same all-list, and nobody became or stopped being blocked, except as told. */
  ghost predicate SameTasks(s: Sched, s': Sched) {
    s'.tasks.Keys == s.tasks.Keys && s'.all == s.all
  }

  lemma TickEffect(s: Sched)
    requires SchedInv(s) && Tick(s).Ok?
    ensures SameTasks(s, Tick(s).value) && forall t :: IsBlocked(Tick(s).value, t) <==> IsBlocked(s, t)
  {
    var me1 := s.tasks[s.cur].(elapsed := s.tasks[s.cur].elapsed + 1);
    ScheduleEffect(s.(tasks := s.tasks[s.cur := me1], clock := s.clock + 1));
  }

  lemma ScheduleEffect(s: Sched)
    requires SchedInv(s) && Schedule(s).Ok?
    ensures SameTasks(s, Schedule(s).value) && forall t :: IsBlocked(Schedule(s).value, t) <==> IsBlocked(s, t)
  {
    RequeueInv(s);
    DispatchEffect(Requeue(s).value);
  }

  lemma DispatchEffect(s: Sched)
    requires Switching(s) && Dispatch(s).Ok?
    ensures SameTasks(s, Dispatch(s).value) && forall t :: IsBlocked(Dispatch(s).value, t) <==> IsBlocked(s, t)
  {
    assert s.ready[0] in s.ready;
  }

  lemma BlockEffect(s: Sched)
    requires SchedInv(s) && Block(s).Ok?
    ensures SameTasks(s, Block(s).value) && forall t :: IsBlocked(Block(s).value, t) <==> IsBlocked(s, t) || t == s.cur
  {
    DispatchEffect(WithStatus(s, s.cur, Blocked));
  }

  lemma UnblockEffect(s: Sched, t: Tid)
    requires SchedInv(s) && t in s.tasks && Unblock(s, t).Ok?
    ensures SameTasks(s, Unblock(s, t).value) && Unblock(s, t).value.cur == s.cur
    ensures forall u :: IsBlocked(Unblock(s, t).value, u) <==> IsBlocked(s, u) && u != t
  {
  }

  // ----- Time slices ----------------------------------------------------------------------------

  ghost function Ticks(s: Sched, n: nat): (r: Sched)
    requires SchedInv(s)
    ensures SchedInv(r)
    decreases n
  {
    if n == 0 then s
    else
      TickInv(s);
      Ticks(Tick(s).value, n - 1)
  }

  lemma {:induction false} TicksAdd(s: Sched, a: nat, b: nat)
    requires SchedInv(s)
    ensures Ticks(s, a + b) == Ticks(Ticks(s, a), b)
    decreases a
  {
    hide SchedInv, Tick;
    InvKnown(s);
    if a > 0 {
      TickInv(s);
      TicksAdd(Tick(s).value, a - 1, b);
    }
  }

  /** The thread runs on while its slice lasts. */
  lemma {:induction false} SliceLasts(s: Sched, n: nat)
    requires SchedInv(s) && n <= s.tasks[s.cur].ticks
    ensures var r := Ticks(s, n);
            && r.cur == s.cur && r.ready == s.ready && r.tasks.Keys == s.tasks.Keys
            && r.tasks[s.cur].ticks == s.tasks[s.cur].ticks - n
            && (forall t <- s.tasks :: t != s.cur ==> r.tasks[t] == s.tasks[t])
            && r.tasks[s.cur].priority == s.tasks[s.cur].priority
    decreases n
  {
    if n > 0 {
      TickInv(s);
      SliceLasts(Tick(s).value, n - 1);
    }
  }

  /** When it is over the head of the ready list runs, the thread is last, and no other slice has changed. */
  lemma SliceEnds(s: Sched)
    requires SchedInv(s) && s.ready != []
    ensures var r := Ticks(s, s.tasks[s.cur].ticks + 1);
            && r.cur == s.ready[0] && r.ready == s.ready[1..] + [s.cur] && r.tasks.Keys == s.tasks.Keys
            && (forall t <- s.tasks :: t != s.cur ==> r.tasks[t].ticks == s.tasks[t].ticks)
            && r.tasks[s.cur].ticks == s.tasks[s.cur].priority
            && (forall t <- s.tasks :: r.tasks[t].priority == s.tasks[t].priority)
  {
    var c := s.tasks[s.cur].ticks;
    SliceLasts(s, c);
    TicksAdd(s, c, 1);
    var m := Ticks(s, c);
    TickInv(m);
    assert Ticks(m, 1) == Ticks(Tick(m).value, 0) == Tick(m).value;
    assert (s.ready + [s.cur])[1..] == s.ready[1..] + [s.cur];
  }

  /** The slices of the first k threads of the ready list. */
  function SlicesAhead(s: Sched, k: nat): nat
    requires Known(s) && k <= |s.ready|
  {
    if k == 0 then 0
    else
      assert s.ready[k - 1] in s.ready;
      SlicesAhead(s, k - 1) + s.tasks[s.ready[k - 1]].ticks + 1
  }

  lemma {:induction false} SlicesMoveUp(s: Sched, r: Sched, k: nat)
    requires SchedInv(s) && SchedInv(r) && 0 < k <= |s.ready| && r.cur == s.ready[0] && r.ready == s.ready[1..] + [s.cur]
    requires r.tasks.Keys == s.tasks.Keys && forall t <- s.tasks :: t != s.cur ==> r.tasks[t].ticks == s.tasks[t].ticks
    ensures SlicesAhead(s, k) == s.tasks[s.ready[0]].ticks + 1 + SlicesAhead(r, k - 1)
  {
    if k > 1 {
      SlicesMoveUp(s, r, k - 1);
      assert r.ready[k - 2] == s.ready[k - 1] && s.ready[k - 1] in s.ready;
    } else {
      assert SlicesAhead(s, 0) == 0;
    }
  }

  lemma InvKnown(s: Sched)
    requires SchedInv(s)
    ensures Known(s)
  {
  }

  lemma NoSlices(s: Sched)
    requires Known(s)
    ensures SlicesAhead(s, 0) == 0
  {
  }

  lemma ReadyNotRunning(s: Sched, k: nat)
    requires SchedInv(s) && k < |s.ready|
    ensures s.ready[k] != s.cur && s.ready[k] in s.tasks && s.ready[0] in s.tasks && s.ready[0] != s.cur
    ensures k > 0 ==> s.ready[0] != s.ready[k]
  {
    assert s.ready[k] in s.ready && s.ready[0] in s.ready;
  }

  /**
    In a run of timer ticks only, the k-th ready thread is dispatched after exactly the rest of the
    current slice and the slices ahead of it, and not before.
   */
  lemma {:induction false} DispatchedExactly(s: Sched, k: nat)
    requires SchedInv(s) && k < |s.ready|
    ensures var n := s.tasks[s.cur].ticks + 1 + SlicesAhead(s, k);
            && Ticks(s, n).cur == s.ready[k]
            && (forall i: nat :: i < n ==> Ticks(s, i).cur != s.ready[k])
            && s.ready[k] in s.tasks && s.ready[k] in Ticks(s, n).tasks
            && Ticks(s, n).tasks[s.ready[k]].ticks == s.tasks[s.ready[k]].ticks
            && Ticks(s, n).tasks[s.ready[k]].priority == s.tasks[s.ready[k]].priority
    decreases k
  {
    hide SchedInv, Tick, SlicesAhead;
    InvKnown(s);
    var c, t := s.tasks[s.cur].ticks, s.ready[k];
    var n := c + 1 + SlicesAhead(s, k);
    var r := Ticks(s, c + 1);
    InvKnown(r);
    SliceEnds(s);
    ReadyNotRunning(s, k);
    if k == 0 {
      NoSlices(s);
    } else {
      assert r.ready[k - 1] == t;
      SlicesMoveUp(s, r, k);
      DispatchedExactly(r, k - 1);
      TicksAdd(s, c + 1, SlicesAhead(s, k));
    }
    forall i: nat | i < n
      ensures Ticks(s, i).cur != t
    {
      if i <= c {
        SliceLasts(s, i);
      } else {
        TicksAdd(s, c + 1, i - (c + 1));
      }
    }
  }

  lemma {:induction false} TicksBlock(s: Sched, n: nat, t: Tid)
    requires SchedInv(s)
    ensures IsBlocked(Ticks(s, n), t) <==> IsBlocked(s, t)
    ensures t in Ticks(s, n).tasks <==> t in s.tasks
    decreases n
  {
    hide SchedInv, Tick;
    InvKnown(s);
    if n > 0 {
      TickInv(s);
      TickEffect(s);
      TicksBlock(Tick(s).value, n - 1, t);
    }
  }

  /** Somebody else can run: once the slice is over, somebody else does. */
  lemma OthersRun(s: Sched, t: Tid)
    requires SchedInv(s) && t in s.tasks && t != s.cur && !IsBlocked(s, t)
    ensures s.ready != [] && Ticks(s, s.tasks[s.cur].ticks + 1).cur != s.cur
  {
    assert t in s.ready;
    SliceEnds(s);
    ReadyNotRunning(s, 0);
  }

  /** The k-th ready thread, once dispatched, runs for as many ticks as its slice has and one more, and then another thread does. */
  lemma WholeSlice(s: Sched, k: nat, i: nat)
    requires SchedInv(s) && k < |s.ready| && s.ready[k] in s.tasks && i <= s.tasks[s.ready[k]].ticks + 1
    ensures var n := s.tasks[s.cur].ticks + 1 + SlicesAhead(s, k);
            Ticks(s, n + i).cur == s.ready[k] <==> i <= s.tasks[s.ready[k]].ticks
  {
    hide SchedInv, Tick, SlicesAhead, Ticks;
    InvKnown(s);
    var t, n := s.ready[k], s.tasks[s.cur].ticks + 1 + SlicesAhead(s, k);
    DispatchedExactly(s, k);
    TicksAdd(s, n, i);
    var q := Ticks(s, n);
    InvKnown(q);
    if i <= q.tasks[t].ticks {
      SliceLasts(q, i);
    } else {
      RunningOther(s, k);
      TicksBlock(s, n, s.cur);
      OthersRun(q, s.cur);
    }
  }

  lemma RunningOther(s: Sched, k: nat)
    requires SchedInv(s) && k < |s.ready|
    ensures s.cur in s.tasks && s.ready[k] != s.cur && !IsBlocked(s, s.cur)
  {
    ReadyNotRunning(s, k);
  }

  /**
    A thread preempted at the end of its slice gets a new one: it waits for the slices of all others, and
    then runs for its priority plus one ticks.
   */
  lemma SliceRefilled(s: Sched, i: nat)
    requires SchedInv(s) && s.ready != [] && i <= s.tasks[s.cur].priority + 1
    ensures var c := s.tasks[s.cur].ticks + 1;
            var r := Ticks(s, c);
            && Known(r) && |r.ready| == |s.ready| && r.ready[|s.ready| - 1] == s.cur
            && var n := c + r.tasks[r.cur].ticks + 1 + SlicesAhead(r, |s.ready| - 1);
            && (forall j: nat :: c <= j < n ==> Ticks(s, j).cur != s.cur)
            && (Ticks(s, n + i).cur == s.cur <==> i <= s.tasks[s.cur].priority)
  {
    hide SchedInv, Tick, SlicesAhead, Ticks;
    InvKnown(s);
    var c := s.tasks[s.cur].ticks + 1;
    var r, k := Ticks(s, c), |s.ready| - 1;
    SliceEnds(s);
    InvKnown(r);
    DispatchedExactly(r, k);
    WholeSlice(r, k, i);
    var m := r.tasks[r.cur].ticks + 1 + SlicesAhead(r, k);
    TicksAdd(s, c, m + i);
    forall j: nat | c <= j < c + m
      ensures Ticks(s, j).cur != s.cur
    {
      TicksAdd(s, c, j - c);
    }
  }

  /** With nobody else to run it goes on at once, with a new slice all the same. */
  lemma SliceAlone(s: Sched)
    requires SchedInv(s) && s.ready == [] && s.tasks[s.cur].ticks == 0
    ensures Tick(s).Ok? && Tick(s).value.cur == s.cur && Tick(s).value.ready == []
    ensures Tick(s).value.tasks[s.cur].ticks == s.tasks[s.cur].priority
  {
  }

  /** A new thread is last on both lists, and its first slice is its priority. */
  lemma StartedLast(s: Sched, t: Tid, priority: nat)
    requires SchedInv(s) && t !in s.tasks
    ensures t !in s.all ==> StartAll(s, t) == Ok(s.(all := s.all + [t]))
    ensures StartReady(s, t, priority).Ok?
    ensures var r := StartReady(s, t, priority).value;
            r.ready == s.ready + [t] && r.cur == s.cur && t in r.tasks && r.tasks[t].ticks == r.tasks[t].priority == priority
  {
  }

  /** A tick is counted once, for the running thread and on the clock. */
  lemma TickCounted(s: Sched)
    requires SchedInv(s) && Tick(s).Ok?
    ensures Tick(s).value.clock == s.clock + 1 && Tick(s).value.tasks.Keys == s.tasks.Keys
    ensures forall t <- s.tasks :: Tick(s).value.tasks[t].elapsed == s.tasks[t].elapsed + if t == s.cur then 1 else 0
  {
  }

  // ----- Positions on the ready list ---------------------------------------------------------------

  datatype Op = OpTick | OpBlock | OpUnblock(t: Tid) | OpStart(t: Tid, priority: nat)

  ghost predicate CanDo(s: Sched, op: Op) {
    match op
    case OpTick => true
    case OpBlock => s.ready != []
    case OpUnblock(t) => t in s.tasks && s.tasks[t].status.Blocked?
    case OpStart(t, _) => t !in s.tasks && t !in s.all
  }

  ghost function Do(s: Sched, op: Op): (r: Sched)
    requires SchedInv(s) && CanDo(s, op)
    ensures SchedInv(r)
  {
    match op
    case OpTick => TickInv(s); Tick(s).value
    case OpBlock => BlockInv(s); Block(s).value
    case OpUnblock(t) => UnblockInv(s, t); Unblock(s, t).value
    case OpStart(t, priority) => StartInv(s, t, priority); StartReady(s, t, priority).value
  }

  /** Does the step put a thread on the CPU? */
  ghost predicate Dispatches(s: Sched, op: Op)
    requires Known(s)
  {
    op.OpBlock? || (op.OpTick? && s.tasks[s.cur].ticks == 0)
  }

  function IndexIn(s: seq<Tid>, t: Tid): (i: nat)
    requires t in s
    ensures i < |s| && s[i] == t
  {
    if s[0] == t then 0 else 1 + IndexIn(s[1..], t)
  }

  lemma IndexUnique(s: seq<Tid>, t: Tid, i: nat)
    requires Distinct(s) && i < |s| && s[i] == t
    ensures t in s && IndexIn(s, t) == i
  {
  }

  /** A dispatch moves a waiting thread up by one, an unblocking moves it down by one, nothing else moves it. */
  lemma PositionStep(s: Sched, op: Op, t: Tid)
    requires SchedInv(s) && CanDo(s, op) && t in s.ready && t in Do(s, op).ready
    requires Dispatches(s, op) ==> s.ready[0] != t
    ensures IndexIn(Do(s, op).ready, t) + (if Dispatches(s, op) then 1 else 0)
            == IndexIn(s.ready, t) + (if op.OpUnblock? then 1 else 0)
  {
    var i, r := IndexIn(s.ready, t), Do(s, op).ready;
    if op.OpUnblock? {
      assert r == [op.t] + s.ready;
      IndexUnique(r, t, i + 1);
    } else if op.OpBlock? {
      assert r == s.ready[1..];
      IndexUnique(r, t, i - 1);
    } else if op.OpTick? && Dispatches(s, op) {
      assert r == (s.ready + [s.cur])[1..];
      IndexUnique(r, t, i - 1);
    } else {
      IndexUnique(r, t, i);
    }
  }

  /** A run during which t is never dispatched. */
  ghost predicate Waits(ss: seq<Sched>, ops: seq<Op>, t: Tid) {
    && |ss| == |ops| + 1
    && (forall i :: 0 <= i < |ss| ==> SchedInv(ss[i]) && t in ss[i].ready)
    && forall i :: 0 <= i < |ops| ==>
         CanDo(ss[i], ops[i]) && ss[i + 1] == Do(ss[i], ops[i]) && (Dispatches(ss[i], ops[i]) ==> ss[i].ready[0] != t)
  }

  ghost function CountDispatches(ss: seq<Sched>, ops: seq<Op>, n: nat): nat
    requires n <= |ops| == |ss| - 1 && forall i :: 0 <= i < |ss| ==> Known(ss[i])
  {
    if n == 0 then 0 else CountDispatches(ss, ops, n - 1) + if Dispatches(ss[n - 1], ops[n - 1]) then 1 else 0
  }

  function CountUnblocks(ops: seq<Op>, n: nat): nat
    requires n <= |ops|
  {
    if n == 0 then 0 else CountUnblocks(ops, n - 1) + if ops[n - 1].OpUnblock? then 1 else 0
  }

  /**
    While a thread waits, its place plus the dispatches so far is its first place plus the
    unblockings so far; so it waits for at most that many dispatches.
   */
  lemma {:induction false} PositionLaw(ss: seq<Sched>, ops: seq<Op>, t: Tid, n: nat)
    requires Waits(ss, ops, t) && n <= |ops|
    ensures IndexIn(ss[n].ready, t) + CountDispatches(ss, ops, n) == IndexIn(ss[0].ready, t) + CountUnblocks(ops, n)
  {
    if n > 0 {
      PositionLaw(ss, ops, t, n - 1);
      PositionStep(ss[n - 1], ops[n - 1], t);
    }
  }
}
