/**
  What the past of a run says about its locks, told from the outside: who was blocked when, which calls
  were begun and which have returned.
 */
module LockHistories {
  import opened Outcomes
  import opened Scheduling
  import opened Locks
  import opened LockRuns

  // ----- Semaphores are first come, first served ---------------------------------------------------

  /** t sleeps in sema_down on l. */
  ghost predicate Sleeps(st: Sys, t: Tid, l: LockId) {
    IsBlocked(st.s, t) && At(st, t) == Retest(l)
  }

  /** The thread that falls asleep on l between two states, if any. */
  ghost function FallsAsleep(st: Sys, st': Sys, l: LockId): seq<Tid> {
    if exists t :: !Sleeps(st, t, l) && Sleeps(st', t, l) then
      var t :| !Sleeps(st, t, l) && Sleeps(st', t, l);
      [t]
    else []
  }

  ghost function Awakes(st: Sys, st': Sys, l: LockId): seq<Tid> {
    FallsAsleep(st', st, l)
  }

  /** All threads that have fallen asleep on l in the first n steps, in that order. */
  ghost function Slept(sts: seq<Sys>, l: LockId, n: nat): seq<Tid>
    requires n < |sts|
  {
    if n == 0 then [] else Slept(sts, l, n - 1) + FallsAsleep(sts[n - 1], sts[n], l)
  }

  /** And all that were woken. */
  ghost function Awoken(sts: seq<Sys>, l: LockId, n: nat): seq<Tid>
    requires n < |sts|
  {
    if n == 0 then [] else Awoken(sts, l, n - 1) + Awakes(sts[n - 1], sts[n], l)
  }

  /** The step from st to st' leaves the queue, or appends the running thread, or takes the first off. */
  ghost predicate QueueMoves(st: Sys, st': Sys, l: LockId)
    requires l in st.locks && l in st'.locks
  {
    var q, q' := st.locks[l].waiters, st'.locks[l].waiters;
    || q' == q
    || (q' == q + [st.s.cur] && st.s.cur !in q)
    || (q != [] && q == [q[0]] + q')
  }

  lemma DownMoves(st: Sys, j: LockId, l: LockId)
    requires Known(st.s) && j in st.locks && l in st.locks && SemaDown(st, j).Ok?
    ensures l in SemaDown(st, j).value.locks && QueueMoves(st, SemaDown(st, j).value, l)
  {
    hide Block;
  }

  lemma UpMoves(st: Sys, j: LockId, l: LockId)
    requires Known(st.s) && j in st.locks && l in st.locks && (st.locks[j].waiters != [] ==> st.locks[j].waiters[0] in st.s.tasks)
    requires SemaUp(st, j).Ok?
    ensures l in SemaUp(st, j).value.locks && QueueMoves(st, SemaUp(st, j).value, l)
  {
    hide Unblock;
  }

  lemma NextMoveWaiters(me: Tid, pc: Pc, k: Lock, d: nat)
    requires NextMove(me, pc, k, d).Ok?
    ensures NextMove(me, pc, k, d).value.k.waiters == k.waiters
  {
  }

  lemma StatementMoves(st: Sys, l: LockId)
    requires Runnable(st) && Statement(st).Ok? && l in st.locks
    ensures l in Statement(st).value.locks && QueueMoves(st, Statement(st).value, l)
  {
    hide SemaDown, SemaUp, NextMove, StartReady, StartAll, Locks.After, IndexIn;
    var pc := At(st, st.s.cur);
    if LockOf(pc).Some? {
      var j := LockOf(pc).value;
      if pc.Down? || pc.Retest? {
        DownMoves(st, j, l);
      } else if pc.Up? {
        HeadTask(st, j);
        UpMoves(st, j, l);
      } else {
        NextMoveWaiters(st.s.cur, pc, st.locks[j], Depth(st, st.s.cur, j));
      }
    }
  }

  lemma HeadTask(st: Sys, j: LockId)
    requires Runnable(st) && j in st.locks
    ensures st.locks[j].waiters != [] ==> st.locks[j].waiters[0] in st.s.tasks
  {
    assert st.locks[j].waiters != [] ==> st.locks[j].waiters[0] in st.locks[j].waiters;
  }

  lemma DoMoves(st: Sys, a: Action, l: LockId)
    requires Runnable(st) && Enabled(st, a) && Locks.Do(st, a).Ok? && l in st.locks
    ensures l in Locks.Do(st, a).value.locks && QueueMoves(st, Locks.Do(st, a).value, l)
  {
    hide Statement, Tick, Block, Unblock, StartReady, StartAll;
    if a.Next? {
      StatementMoves(st, l);
    }
  }

  /** One step: what the queue was and who fell asleep is who was woken and what the queue is. */
  lemma QueueStep(st: Sys, a: Action, l: LockId)
    requires SysInv(st) && Runnable(st) && Enabled(st, a) && Locks.Do(st, a).Ok? && l in st.locks
    ensures l in Locks.Do(st, a).value.locks
    ensures var st' := Locks.Do(st, a).value;
            st.locks[l].waiters + FallsAsleep(st, st', l) == Awakes(st, st', l) + st'.locks[l].waiters
  {
    hide SysInv, Runnable, Enabled, Locks.Do, Sleeps, QueueMoves;
    DoMoves(st, a, l);
    DoInv(st, a);
    var st' := Locks.Do(st, a).value;
    forall t
      ensures t in st.locks[l].waiters <==> Sleeps(st, t, l)
      ensures t in st'.locks[l].waiters <==> Sleeps(st', t, l)
    {
      SleeperQueued(st, t, l);
      SleeperQueued(st', t, l);
    }
    QueueDistinct(st, l);
    MovesSleepers(st, st', l);
  }

  lemma SleeperQueued(st: Sys, t: Tid, l: LockId)
    requires SysInv(st) && l in st.locks
    ensures t in st.locks[l].waiters <==> Sleeps(st, t, l)
  {
    hide SysInv;
    QueuedThere(st, t, l);
  }

  lemma QueueDistinct(st: Sys, l: LockId)
    requires SysInv(st) && l in st.locks
    ensures Distinct(st.locks[l].waiters)
  {
    hide SchedInv, FreshInv, PlaceInv, SlotInv, Exclusive, NoLostWakeup, ThreadInv;
    assert LockInv(st, l) && QueueInv(st, l);
  }

  lemma MovesSleepers(st: Sys, st': Sys, l: LockId)
    requires l in st.locks && l in st'.locks && QueueMoves(st, st', l) && Distinct(st.locks[l].waiters)
    requires forall t :: t in st.locks[l].waiters <==> Sleeps(st, t, l)
    requires forall t :: t in st'.locks[l].waiters <==> Sleeps(st', t, l)
    ensures st.locks[l].waiters + FallsAsleep(st, st', l) == Awakes(st, st', l) + st'.locks[l].waiters
  {
    hide Sleeps;
    var q, q' := st.locks[l].waiters, st'.locks[l].waiters;
    if q' == q {
      assert FallsAsleep(st, st', l) == [] == Awakes(st, st', l);
    } else if q' == q + [st.s.cur] && st.s.cur !in q {
      assert st.s.cur in q' && forall t :: t in q' <==> t in q || t == st.s.cur;
      assert !Sleeps(st, st.s.cur, l) && Sleeps(st', st.s.cur, l);
      assert FallsAsleep(st, st', l) == [st.s.cur] && Awakes(st, st', l) == [];
    } else {
      forall i | 0 <= i < |q'|
        ensures q'[i] != q[0]
      {
        assert q[i + 1] == q'[i];
      }
      assert q[0] in q && q[0] !in q' && forall t :: t in q <==> t == q[0] || t in q';
      assert Sleeps(st, q[0], l) && !Sleeps(st', q[0], l);
      assert FallsAsleep(st, st', l) == [] && Awakes(st, st', l) == [q[0]];
    }
  }

  /**
    In any run those who fell asleep on a semaphore are, in that order, those who were woken and then
    those who still sleep: the queue.  So threads are woken in the order in which they blocked.
   */
  lemma {:induction false} FirstComeFirstServed(sts: seq<Sys>, acts: seq<Action>, main: Tid, l: LockId, n: nat)
    requires IsRun(sts, acts, main) && n < |sts| && l in sts[0].locks
    ensures l in sts[n].locks && Slept(sts, l, n) == Awoken(sts, l, n) + sts[n].locks[l].waiters
    ensures Awoken(sts, l, n) <= Slept(sts, l, n)
  {
    hide Locks.Do, Enabled, Runnable, SysInv, Boot, FallsAsleep, Awakes;
    if n == 0 {
      BootQueue(sts[0], main, l);
    } else {
      FirstComeFirstServed(sts, acts, main, l, n - 1);
      RunInv(sts, acts, main, n - 1);
      assert Locks.Do(sts[n - 1], acts[n - 1]) == Ok(sts[n]);
      QueueStep(sts[n - 1], acts[n - 1], l);
      var f, w, q, q' := FallsAsleep(sts[n - 1], sts[n], l), Awakes(sts[n - 1], sts[n], l), sts[n - 1].locks[l].waiters, sts[n].locks[l].waiters;
      assert (Awoken(sts, l, n - 1) + q) + f == Awoken(sts, l, n - 1) + (q + f);
      assert Awoken(sts, l, n - 1) + (w + q') == (Awoken(sts, l, n - 1) + w) + q';
    }
  }

  lemma BootQueue(st: Sys, main: Tid, l: LockId)
    requires Boot(st, main) && l in st.locks
    ensures st.locks[l].waiters == []
  {
  }

  // ----- Depth is what has been acquired and not released ---------------------------------------------------

  /** The last call that t has made in the first n steps. */
  ghost function LastCall(sts: seq<Sys>, acts: seq<Action>, t: Tid, n: nat): Option<Action>
    requires n <= |acts| <= |sts|
  {
    if n == 0 then None
    else if sts[n - 1].s.cur == t && acts[n - 1] != Timer && acts[n - 1] != Next && !acts[n - 1].Wake? then Some(acts[n - 1])
    else LastCall(sts, acts, t, n - 1)
  }

  /** Step i brings t back from a call to its own code. */
  ghost predicate Returns(sts: seq<Sys>, acts: seq<Action>, t: Tid, i: nat)
    requires i < |acts| < |sts|
  {
    sts[i].s.cur == t && acts[i] == Next && At(sts[i + 1], t) == Out
  }

  /** The calls a that t has made and that have returned, within n steps. */
  ghost function Returned(sts: seq<Sys>, acts: seq<Action>, t: Tid, a: Action, n: nat): nat
    requires n <= |acts| < |sts|
  {
    if n == 0 then 0
    else Returned(sts, acts, t, a, n - 1) + if Returns(sts, acts, t, n - 1) && LastCall(sts, acts, t, n - 1) == Some(a) then 1 else 0
  }

  /** The call that a place in the code belongs to. */
  ghost predicate InCall(pc: Pc, a: Action) {
    match pc
    case Out => true
    case AcqTest(l) => a == Acquire(l)
    case Down(l) => a == Acquire(l)
    case Retest(l) => a == Acquire(l)
    case SetHolder(l) => a == Acquire(l)
    case CheckZero(l) => a == Acquire(l)
    case SetOne(l) => a == Acquire(l)
    case IncLoad(l) => a == Acquire(l)
    case IncStore(l, _) => a == Acquire(l)
    case Seek(t, _, _) => a.Spawn?
    case Pending(t) => a.Spawn?
    case SeekAll(t, _) => a.Spawn?
    case Parked(slot) => a == Wait(slot)
    case _ => a == Release(LockOf(pc).value)
  }

  /** What one statement of the call a does to the depth of its thread at l. */
  ghost predicate DepthMoves(st: Sys, st': Sys, a: Action, l: LockId) {
    var me := st.s.cur;
    var d, d', back := Depth(st, me, l), Depth(st', me, l), At(st', me) == Out;
    && InCall(At(st', me), a)
    && d' + (if back && a == Release(l) then 1 else 0) == d + if back && a == Acquire(l) then 1 else 0
  }

  /** No other thread's place or depth changes. */
  ghost predicate OnlyMine(st: Sys, st': Sys, l: LockId) {
    forall t :: t != st.s.cur ==> At(st', t) == At(st, t) && Depth(st', t, l) == Depth(st, t, l)
  }

  lemma MoveDepth(me: Tid, pc: Pc, k: Lock, d: nat, a: Action)
    requires LockOf(pc).Some? && !pc.Down? && !pc.Retest? && !pc.Up? && InCall(pc, a) && NextMove(me, pc, k, d).Ok?
    ensures var m := NextMove(me, pc, k, d).value;
            && InCall(m.pc, a) && (m.pc == Out || LockOf(m.pc) == LockOf(pc))
            && m.d + (if m.pc == Out && a.Release? then 1 else 0) == d + if m.pc == Out && a.Acquire? then 1 else 0
    ensures a == Acquire(LockOf(pc).value) || a == Release(LockOf(pc).value)
  {
  }

  /** Where a statement can change places and depths. */
  ghost predicate Changes(st: Sys, st': Sys, j: Option<LockId>) {
    && st'.pc == st.pc[st.s.cur := At(st', st.s.cur)]
    && st'.depth == if j.Some? then st.depth[(st.s.cur, j.value) := Depth(st', st.s.cur, j.value)] else st.depth
  }

  lemma SemaChanges(st: Sys, j: LockId, up: bool)
    requires Known(st.s) && j in st.locks && (st.locks[j].waiters != [] ==> st.locks[j].waiters[0] in st.s.tasks)
    requires if up then SemaUp(st, j).Ok? else SemaDown(st, j).Ok?
    ensures var st' := if up then SemaUp(st, j).value else SemaDown(st, j).value;
            var me := st.s.cur;
            && Changes(st, st', Some(j))
            && (up ==> At(st', me) == Out && Depth(st', me, j) + 1 == Depth(st, me, j))
            && (!up ==> (At(st', me) == SetHolder(j) || At(st', me) == Retest(j)) && Depth(st', me, j) == Depth(st, me, j))
  {
    hide DownOn, UpOn;
  }

  lemma MoveChanges(st: Sys, j: LockId, pc: Pc, k: Lock, d: nat)
    ensures Changes(st, Moved(st, j, pc, k, d), Some(j)) && At(Moved(st, j, pc, k, d), st.s.cur) == pc
    ensures Depth(Moved(st, j, pc, k, d), st.s.cur, j) == d
  {
  }

  lemma GotoChanges(st: Sys, pc: Pc, s: Sched)
    ensures Changes(st, Goto(st, pc).(s := s), None) && At(Goto(st, pc).(s := s), st.s.cur) == pc
    ensures Changes(st, Goto(st, pc), None) && At(Goto(st, pc), st.s.cur) == pc
  {
  }

  /** The searches of thread_start and the return from ioq_wait. */
  lemma OtherStatement(st: Sys, a: Action)
    requires Runnable(st) && Statement(st).Ok? && At(st, st.s.cur) != Out && LockOf(At(st, st.s.cur)).None? && InCall(At(st, st.s.cur), a)
    ensures Changes(st, Statement(st).value, None) && InCall(At(Statement(st).value, st.s.cur), a) && !a.Acquire? && !a.Release?
  {
    hide Changes, Goto, StartReady, StartAll, Locks.After, IndexIn;
    var pc := At(st, st.s.cur);
    match pc
    case Seek(t, priority, at) =>
      if at.OnTag? {
        GotoChanges(st, Seek(t, priority, Locks.After(st.s.ready, at.u)), st.s);
      } else {
        GotoChanges(st, Pending(t), StartReady(st.s, t, priority).value);
      }
    case Pending(t) => GotoChanges(st, SeekAll(t, First(st.s.all)), st.s);
    case SeekAll(t, at) =>
      if at.OnTag? {
        GotoChanges(st, SeekAll(t, Locks.After(st.s.all, at.u)), st.s);
      } else {
        GotoChanges(st, Out, StartAll(st.s, t).value);
      }
    case Parked(slot) => GotoChanges(st, Out, st.s);
    case _ =>
  }

  lemma LockStatement(st: Sys, a: Action, j: LockId)
    requires Runnable(st) && Statement(st).Ok? && LockOf(At(st, st.s.cur)) == Some(j) && InCall(At(st, st.s.cur), a)
    ensures var st', me := Statement(st).value, st.s.cur;
            var back := At(st', me) == Out;
            && Changes(st, st', Some(j)) && InCall(At(st', me), a) && (a == Acquire(j) || a == Release(j))
            && Depth(st', me, j) + (if back && a.Release? then 1 else 0) == Depth(st, me, j) + if back && a.Acquire? then 1 else 0
  {
    hide Changes, Moved, NextMove, SemaDown, SemaUp, Depth;
    var pc := At(st, st.s.cur);
    HeadTask(st, j);
    if pc.Down? || pc.Retest? {
      SemaChanges(st, j, false);
    } else if pc.Up? {
      SemaChanges(st, j, true);
    } else {
      MoveDepth(st.s.cur, pc, st.locks[j], Depth(st, st.s.cur, j), a);
      var m := NextMove(st.s.cur, pc, st.locks[j], Depth(st, st.s.cur, j)).value;
      MoveChanges(st, j, m.pc, m.k, m.d);
    }
  }

  lemma ChangesMine(st: Sys, st': Sys, j: Option<LockId>, l: LockId)
    requires Changes(st, st', j)
    ensures OnlyMine(st, st', l) && (j != Some(l) ==> Depth(st', st.s.cur, l) == Depth(st, st.s.cur, l))
  {
  }

  lemma StatementDepth(st: Sys, a: Action, l: LockId)
    requires Runnable(st) && Statement(st).Ok? && At(st, st.s.cur) != Out && InCall(At(st, st.s.cur), a)
    ensures DepthMoves(st, Statement(st).value, a, l) && OnlyMine(st, Statement(st).value, l)
  {
    hide Changes, Statement, InCall, Runnable, OnlyMine, Depth;
    var j := LockOf(At(st, st.s.cur));
    if j.Some? {
      LockStatement(st, a, j.value);
    } else {
      OtherStatement(st, a);
    }
    ChangesMine(st, Statement(st).value, j, l);
  }

  lemma DoDepth(st: Sys, a: Action, t: Tid, l: LockId)
    requires Runnable(st) && Enabled(st, a) && Locks.Do(st, a).Ok? && (t != st.s.cur || a != Next)
    ensures Depth(Locks.Do(st, a).value, t, l) == Depth(st, t, l)
    ensures var pc, pc' := At(st, t), At(Locks.Do(st, a).value, t);
            if t == st.s.cur && a != Timer && !a.Wake? then InCall(pc', a) else pc' == pc
  {
    hide Statement, Tick, Block, Unblock, StartReady, StartAll, InCall;
    if a == Next {
      var b := CallIs(At(st, st.s.cur));
      NextIs(st);
      StatementDepth(st, b, l);
    } else if t == st.s.cur {
      CallsBegin(a);
    }
  }

  lemma CallsBegin(a: Action)
    ensures (a.Acquire? ==> InCall(AcqTest(a.l), a)) && (a.Release? ==> InCall(RelAssert(a.l), a)) && InCall(Out, a)
    ensures (a.Spawn? ==> forall at :: InCall(Seek(a.t, a.priority, at), a)) && (a.Wait? ==> InCall(Parked(a.slot), a))
  {
  }

  lemma CallIs(pc: Pc) returns (a: Action)
    ensures pc != Out ==> InCall(pc, a)
  {
    if NewOf(pc).Some? {
      a := Spawn(NewOf(pc).value, 0);
    } else if pc.Parked? {
      a := Wait(pc.slot);
    } else if LockOf(pc).None? {
      a := Timer;
    } else if InCall(pc, Acquire(LockOf(pc).value)) {
      a := Acquire(LockOf(pc).value);
    } else {
      a := Release(LockOf(pc).value);
    }
  }

  /**
    In any run a thread's depth at a lock is the number of its lock_acquire calls that have returned less
    the number of its lock_release calls that have; and the place it is at belongs to its last call.
   */
  lemma {:induction false} DepthCounts(sts: seq<Sys>, acts: seq<Action>, main: Tid, t: Tid, l: LockId, n: nat)
    requires IsRun(sts, acts, main) && n <= |acts|
    ensures Depth(sts[n], t, l) + Returned(sts, acts, t, Release(l), n) == Returned(sts, acts, t, Acquire(l), n)
    ensures At(sts[n], t) != Out ==> LastCall(sts, acts, t, n).Some? && InCall(At(sts[n], t), LastCall(sts, acts, t, n).value)
  {
    hide Locks.Do, Runnable, Boot, Depth, At, InCall;
    if n == 0 {
      BootDepth(sts[0], main, t, l);
    } else {
      DepthCounts(sts, acts, main, t, l, n - 1);
      var st, a := sts[n - 1], acts[n - 1];
      assert Locks.Do(st, a) == Ok(sts[n]);
      if t == st.s.cur && a == Next {
        NextIs(st);
        StatementDepth(st, LastCall(sts, acts, t, n - 1).value, l);
      } else {
        DoDepth(st, a, t, l);
      }
    }
  }

  lemma NextIs(st: Sys)
    requires Runnable(st) && Enabled(st, Next)
    ensures Locks.Do(st, Next) == Statement(st) && At(st, st.s.cur) != Out
  {
    hide Statement;
  }

  lemma BootDepth(st: Sys, main: Tid, t: Tid, l: LockId)
    requires Boot(st, main)
    ensures Depth(st, t, l) == 0 && At(st, t) == Out
  {
  }

  /** At rest, the holder's count is what it has acquired and not released, and nobody else has anything. */
  lemma HolderCounts(sts: seq<Sys>, acts: seq<Action>, main: Tid, n: nat, l: LockId, t: Tid)
    requires IsRun(sts, acts, main) && n <= |acts| && l in sts[n].locks && t in sts[n].s.tasks && At(sts[n], t) == Out
    ensures var k, got, gave := sts[n].locks[l], Returned(sts, acts, t, Acquire(l), n), Returned(sts, acts, t, Release(l), n);
            && gave <= got && (k.holder == Some(t) <==> gave < got)
            && (k.holder == Some(t) ==> k.repeat == got - gave)
  {
    hide IsRun, Returned;
    RunLength(sts, acts, main);
    DepthCounts(sts, acts, main, t, l, n);
    RepeatIsDepth(sts, acts, main, n, l, t);
  }
}
