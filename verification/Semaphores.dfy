/**
  thread/sync.c on links: every semaphore has its own list of waiters, and a thread has one
  general_tag for the ready list and all of these.  That the tag is never linked into two lists at
  once is what keeps the lists apart.
 */
module Semaphores {
  import opened Outcomes
  import opened Lists
  import opened Scheduling
  import opened Locks
  import opened LockRuns
  import opened Threads

  class Semaphore {
    var value: nat
    const waiters: List
    ghost var waitIds: seq<Tid>

    /** The waiters are a list of their own. */
    ghost predicate Aside(sched: Scheduler)
      reads this, waiters, sched, sched.ready, sched.all
    {
      && waiters != sched.ready && waiters != sched.all
      && waiters.Nodes() !! sched.ready.Nodes() && waiters.Nodes() !! sched.all.Nodes()
    }

    /** sema_init */
    constructor (initial: nat)
      ensures value == initial && waitIds == [] && waiters.Valid() && waiters.elems == []
      ensures fresh(waiters) && fresh(waiters.head) && fresh(waiters.tail)
    {
      value, waitIds := initial, [];
      waiters := new List();
    }

    /** sema_down from its start, or from a resumption inside its loop, to where it returns or switches threads. */
    method Down(sched: Scheduler, ghost k: Lock) returns (r: Outcome<bool>)
      requires sched.Valid() && Known(sched.State()) && sched.cur !in sched.readyIds
      requires k.value == value && k.waiters == waitIds && Queues(waiters, waitIds, sched.general) && Aside(sched)
      modifies this, waiters, waiters.Nodes(), sched, sched.ready, sched.ready.Nodes(), sched.general[sched.cur]
      ensures match DownOn(old(sched.State()), k)
              case Panic(e) => r == Panic(e)
              case Ok((s1, k1, taken)) =>
                && r == Ok(taken) && sched.Valid() && sched.State() == s1 && sched.Kept()
                && value == k1.value && waitIds == k1.waiters && Queues(waiters, waitIds, sched.general)
    {
      hide Scheduler.Valid, Queues, Block;
      var me := sched.cur;
      if value == 0 {
        sched.TagFree(me);
        var a := AppendTag(waiters, waitIds, sched.general, me);
        if a.Panic? { return Panic(a.fault); }
        waitIds := waitIds + [me];
        var b := sched.Block();
        if b.Panic? { return Panic(b.fault); }
        return Ok(false);
      }
      value := value - 1;
      if value != 0 { return Panic(BadValue); }
      return Ok(true);
    }

    /** The first waiter comes off the list and goes to the front of the ready list. */
    method WakeFirst(sched: Scheduler) returns (r: Outcome<()>)
      requires sched.Valid() && Known(sched.State()) && waitIds != [] && waitIds[0] in sched.tasks
      requires Queues(waiters, waitIds, sched.general) && Aside(sched)
      modifies `waitIds, waiters, waiters.Nodes(), sched, sched.ready, sched.ready.Nodes()
      ensures match Unblock(old(sched.State()), old(waitIds[0]))
              case Panic(e) => r == Panic(e)
              case Ok(s1) =>
                && r == Ok(()) && sched.Valid() && sched.State() == s1 && sched.Kept()
                && waitIds == old(waitIds)[1..] && Queues(waiters, waitIds, sched.general)
      ensures value == old(value)
    {
      hide Scheduler.Valid, Queues, Unblock;
      sched.TagsKnown();
      HeadTag(waiters, waitIds, sched.general);
      var t := PopTag(waiters, waitIds, sched.general);
      waitIds := waitIds[1..];
      r := sched.Unblock(t);
    }

    method SetValue(v: nat, sched: Scheduler)
      requires sched.Valid() && Queues(waiters, waitIds, sched.general)
      modifies `value
      ensures value == v && sched.Valid() && Queues(waiters, waitIds, sched.general)
    {
      hide Queues;
      sched.ListsApart();
      QueueNodes(waiters, waitIds, sched.general);
      value := v;
    }

    /** sema_up */
    method Up(sched: Scheduler, ghost k: Lock) returns (r: Outcome<()>)
      requires sched.Valid() && Known(sched.State()) && k.value == value && k.waiters == waitIds
      requires Queues(waiters, waitIds, sched.general) && Aside(sched) && (waitIds != [] ==> waitIds[0] in sched.tasks)
      modifies this, waiters, waiters.Nodes(), sched, sched.ready, sched.ready.Nodes()
      ensures match UpOn(old(sched.State()), k)
              case Panic(e) => r == Panic(e)
              case Ok((s1, k1)) =>
                && r == Ok(()) && sched.Valid() && sched.State() == s1 && sched.Kept()
                && value == k1.value && waitIds == k1.waiters && Queues(waiters, waitIds, sched.general)
    {
      hide Scheduler.Valid, Queues, Unblock;
      if value != 0 { return Panic(BadValue); }
      var none := NoWaiters(sched);
      if !none {
        r := WakeFirst(sched);
        if r.Panic? { return; }
      }
      SetValue(value + 1, sched);
      if value != 1 { return Panic(BadValue); }
      return Ok(());
    }

    /** list_empty of the waiters. */
    method NoWaiters(sched: Scheduler) returns (none: bool)
      requires Queues(waiters, waitIds, sched.general) && sched.Valid()
      ensures none == (waitIds == []) && Queues(waiters, waitIds, sched.general) && sched.Valid()
    {
      none := waiters.Empty();
    }
  }

  lemma HeadTag(list: List, ids: seq<Tid>, tag: map<Tid, Node>)
    requires Queues(list, ids, tag) && ids != []
    ensures ids[0] in tag && tag[ids[0]] in list.Nodes()
  {
    hide List.Valid;
    assert list.elems[0] == tag[ids[0]];
  }

  lemma QueueNodes(list: List, ids: seq<Tid>, tag: map<Tid, Node>)
    requires Queues(list, ids, tag)
    ensures forall t <- ids :: t in tag && tag[t] in list.Nodes()
    ensures forall n <- list.Nodes() :: n == list.head || n == list.tail || exists t :: t in ids && t in tag && n == tag[t]
  {
    hide List.Valid;
    forall t <- ids
      ensures t in tag && tag[t] in list.Nodes()
    {
      var i :| 0 <= i < |ids| && ids[i] == t;
      assert list.elems[i] == tag[t];
    }
    forall n <- list.elems
      ensures exists t :: t in ids && t in tag && n == tag[t]
    {
      var i :| 0 <= i < |list.elems| && list.elems[i] == n;
      assert ids[i] in ids;
    }
  }

  /** The semaphore's fields and links say what k says. */
  ghost predicate Stands(sema: Semaphore, k: Lock, general: map<Tid, Node>)
    reads sema, sema.waiters, sema.waiters.Nodes()
  {
    sema.value == k.value && sema.waitIds == k.waiters && Queues(sema.waiters, sema.waitIds, general)
  }

  /** Two lists of general_tags with no thread in common and different sentinels share no node. */
  lemma NoSharedNode(a: List, ids: seq<Tid>, b: List, others: seq<Tid>, tag: map<Tid, Node>)
    requires Queues(a, ids, tag) && Queues(b, others, tag) && {a.head, a.tail} !! {b.head, b.tail}
    requires forall t <- ids :: t !in others
    ensures a.Nodes() !! b.Nodes()
  {
    hide Queues;
    QueueNodes(a, ids, tag);
    QueueNodes(b, others, tag);
    TagsUnique(a, ids, tag);
    TagsUnique(b, others, tag);
  }

  lemma TagsUnique(a: List, ids: seq<Tid>, tag: map<Tid, Node>)
    requires Queues(a, ids, tag)
    ensures Injective(tag) && forall t <- tag :: tag[t] != a.head && tag[t] != a.tail
  {
    hide List.Valid;
  }

  /** Every list has sentinels of its own, and no semaphore is there twice. */
  ghost predicate Shape(ready: List, all: List, enlist: map<Tid, Node>, semas: map<LockId, Semaphore>) {
    && (forall l <- semas ::
          && semas[l].waiters != ready && semas[l].waiters != all
          && {semas[l].waiters.head, semas[l].waiters.tail} !! {ready.head, ready.tail, all.head, all.tail}
          && forall t <- enlist :: enlist[t] != semas[l].waiters.head && enlist[t] != semas[l].waiters.tail)
    && (forall l <- semas, j <- semas :: l != j ==>
          && semas[l] != semas[j] && semas[l].waiters != semas[j].waiters
          && {semas[l].waiters.head, semas[l].waiters.tail} !! {semas[j].waiters.head, semas[j].waiters.tail})
  }

  /** All threads and all locks. */
  class Kernel {
    const sched: Scheduler
    const semas: map<LockId, Semaphore>

    /** Lists, tags and fields say what st says. */
    ghost predicate Valid(st: Sys)
      reads sched, sched.ready, sched.ready.Nodes(), sched.all, sched.all.Nodes()
      reads set l <- semas :: semas[l]
      reads set l <- semas :: semas[l].waiters
      reads set l <- semas, n <- semas[l].waiters.Nodes() :: n
    {
      && SysInv(st) && sched.Valid() && sched.State() == st.s && semas.Keys == st.locks.Keys && Shape(sched.ready, sched.all, sched.enlist, semas)
      && forall l <- semas :: Stands(semas[l], st.locks[l], sched.general)
    }

    /** The state after boot: the main thread alone, every lock initialised. */
    constructor (sched: Scheduler, semas: map<LockId, Semaphore>, ghost st: Sys)
      requires sched.Valid() && Boot(st, sched.cur) && sched.State() == st.s && semas.Keys == st.locks.Keys
      requires Shape(sched.ready, sched.all, sched.enlist, semas) && forall l <- semas :: Stands(semas[l], LockInit(), sched.general)
      ensures Valid(st) && this.sched == sched && this.semas == semas
    {
      hide SysInv;
      BootInv(st, sched.cur);
      this.sched, this.semas := sched, semas;
    }

    /** The waiters of l share no node with the scheduler's lists. */
    lemma Separate(st: Sys, l: LockId)
      requires Valid(st) && l in semas
      ensures Queues(semas[l].waiters, semas[l].waitIds, sched.general) && semas[l].Aside(sched)
      ensures semas[l].value == st.locks[l].value && semas[l].waitIds == st.locks[l].waiters && Known(st.s)
    {
      hide Queues, SysInv, Scheduler.Valid;
      assert Stands(semas[l], st.locks[l], sched.general);
      Parts(st);
      forall t <- semas[l].waitIds
        ensures t !in sched.readyIds
      {
        QueuedThere(st, t, l);
        Readiness(st, t);
      }
      sched.ReadyQueue();
      NoSharedNode(semas[l].waiters, semas[l].waitIds, sched.ready, sched.readyIds, sched.general);
      NotOnAll(semas[l].waiters, semas[l].waitIds, sched);
    }

    /** The waiters of another lock j share no node with those of l or the ready list. */
    lemma OtherLists(st: Sys, l: LockId, j: LockId)
      requires Valid(st) && l in semas && j in semas && l != j
      ensures semas[j] != semas[l] && semas[j].waiters != semas[l].waiters && semas[j].waiters != sched.ready
      ensures semas[j].waiters.Nodes() !! semas[l].waiters.Nodes() && semas[j].waiters.Nodes() !! sched.ready.Nodes()
    {
      hide Queues, SysInv, Scheduler.Valid;
      Separate(st, l);
      Separate(st, j);
      forall t <- semas[l].waitIds
        ensures t !in semas[j].waitIds
      {
        QueuedThere(st, t, l);
        QueuedThere(st, t, j);
      }
      NoSharedNode(semas[l].waiters, semas[l].waitIds, semas[j].waiters, semas[j].waitIds, sched.general);
    }

    /** The running thread's tag is on no list at all. */
    lemma RunningTagFree(st: Sys, j: LockId)
      requires Valid(st) && j in semas
      ensures sched.cur in sched.general && sched.cur !in sched.readyIds && sched.general[sched.cur] !in semas[j].waiters.Nodes()
    {
      hide Queues, SysInv, Scheduler.Valid;
      Separate(st, j);
      Parts(st);
      sched.TagsKnown();
      QueuedThere(st, st.s.cur, j);
      Readiness(st, st.s.cur);
      TagOff(semas[j].waiters, semas[j].waitIds, sched.general, sched.cur);
    }

    method DownLinks(l: LockId, ghost st: Sys) returns (r: Outcome<bool>)
      requires Valid(st) && l in semas
      modifies semas[l], semas[l].waiters, semas[l].waiters.Nodes(), sched, sched.ready, sched.ready.Nodes(), sched.general[sched.cur]
      ensures Known(st.s)
      ensures match DownOn(st.s, st.locks[l])
              case Panic(e) => r == Panic(e)
              case Ok((s1, k1, taken)) =>
                && r == Ok(taken) && sched.Valid() && sched.State() == s1 && sched.enlist == old(sched.enlist)
                && forall j <- semas :: Stands(semas[j], st.locks[l := k1][j], sched.general)
    {
      hide SysInv, Queues, Scheduler.Valid, DownOn, Shape;
      Separate(st, l);
      RunningTagFree(st, l);
      forall j <- semas | j != l
        ensures semas[j] != semas[l] && semas[j].waiters != semas[l].waiters && semas[j].waiters != sched.ready
        ensures semas[j].waiters.Nodes() !! semas[l].waiters.Nodes() && semas[j].waiters.Nodes() !! sched.ready.Nodes()
        ensures sched.general[sched.cur] !in semas[j].waiters.Nodes() && Stands(semas[j], st.locks[j], sched.general)
      {
        OtherLists(st, l, j);
        RunningTagFree(st, j);
      }
      r := semas[l].Down(sched, st.locks[l]);
      if r.Ok? {
        forall j <- semas | j != l
          ensures Stands(semas[j], st.locks[j], sched.general)
        {
          assert forall i :: 0 <= i < |old(semas[j].waiters.elems)| ==> old(semas[j].waiters.elems[i]) in old(semas[j].waiters.Nodes());
        }
      }
    }

    /** sema_down on lock l by the running thread: the links follow the step, and every list stays apart from every other. */
    method Down(l: LockId, ghost st: Sys) returns (r: Outcome<()>)
      requires Valid(st) && l in semas && (At(st, st.s.cur) == Locks.Down(l) || At(st, st.s.cur) == Retest(l))
      modifies semas[l], semas[l].waiters, semas[l].waiters.Nodes(), sched, sched.ready, sched.ready.Nodes(), sched.general[sched.cur]
      ensures Known(st.s) && l in st.locks
      ensures match SemaDown(st, l)
              case Panic(e) => r == Panic(e) && e == NoReadyThread
              case Ok(st') => r == Ok(()) && Valid(st')
    {
      hide SysInv, Stands, Scheduler.Valid, DownOn, SemaDown, Shape;
      Parts(st);
      InvKnown(st.s);
      SemaDownInv(st, l);
      DownFields(st, l);
      var d := DownLinks(l, st);
      if d.Panic? { return Panic(d.fault); }
      r := Ok(());
    }

    method UpLinks(l: LockId, ghost st: Sys) returns (r: Outcome<()>)
      requires Valid(st) && l in semas
      modifies semas[l], semas[l].waiters, semas[l].waiters.Nodes(), sched, sched.ready, sched.ready.Nodes()
      ensures Known(st.s) && (st.locks[l].waiters != [] ==> st.locks[l].waiters[0] in st.s.tasks)
      ensures match UpOn(st.s, st.locks[l])
              case Panic(e) => r == Panic(e)
              case Ok((s1, k1)) =>
                && r == Ok(()) && sched.Valid() && sched.State() == s1 && sched.enlist == old(sched.enlist)
                && forall j <- semas :: Stands(semas[j], st.locks[l := k1][j], sched.general)
    {
      hide SysInv, Queues, Scheduler.Valid, UpOn, Shape;
      Separate(st, l);
      HeadExists(st, l);
      forall j <- semas | j != l
        ensures semas[j] != semas[l] && semas[j].waiters != semas[l].waiters && semas[j].waiters != sched.ready
        ensures semas[j].waiters.Nodes() !! semas[l].waiters.Nodes() && semas[j].waiters.Nodes() !! sched.ready.Nodes()
        ensures Stands(semas[j], st.locks[j], sched.general)
      {
        OtherLists(st, l, j);
      }
      r := semas[l].Up(sched, st.locks[l]);
      if r.Ok? {
        forall j <- semas | j != l
          ensures Stands(semas[j], st.locks[j], sched.general)
        {
          assert forall i :: 0 <= i < |old(semas[j].waiters.elems)| ==> old(semas[j].waiters.elems[i]) in old(semas[j].waiters.Nodes());
        }
      }
    }

    /** sema_up at the end of lock_release. */
    method Up(l: LockId, ghost st: Sys) returns (r: Outcome<()>)
      requires Valid(st) && l in semas && At(st, st.s.cur) == Locks.Up(l)
      modifies semas[l], semas[l].waiters, semas[l].waiters.Nodes(), sched, sched.ready, sched.ready.Nodes()
      ensures l in st.locks && Known(st.s) && (st.locks[l].waiters != [] ==> st.locks[l].waiters[0] in st.s.tasks)
      ensures r == Ok(()) && SemaUp(st, l).Ok? && Valid(SemaUp(st, l).value)
    {
      hide SysInv, Stands, Scheduler.Valid, UpOn, Runnable, SemaUp, Shape;
      Parts(st);
      HeadExists(st, l);
      SemaUpInv(st, l);
      UpFields(st, l);
      r := UpLinks(l, st);
    }

    method TimerLinks(ghost st: Sys) returns (r: Outcome<()>)
      requires Valid(st) && Known(st.s)
      modifies sched, sched.ready, sched.ready.Nodes(), sched.general[sched.cur]
      ensures match Tick(st.s)
              case Panic(e) => r == Panic(e)
              case Ok(s1) =>
                && r == Ok(()) && sched.Valid() && sched.State() == s1 && sched.enlist == old(sched.enlist)
                && forall j <- semas :: Stands(semas[j], st.locks[j], sched.general)
    {
      hide SysInv, Queues, Scheduler.Valid, Tick, Shape;
      sched.TagsKnown();
      forall j <- semas
        ensures semas[j].waiters != sched.ready && semas[j].waiters.Nodes() !! sched.ready.Nodes()
        ensures sched.general[sched.cur] !in semas[j].waiters.Nodes() && Stands(semas[j], st.locks[j], sched.general)
      {
        Separate(st, j);
        RunningTagFree(st, j);
      }
      r := sched.TimerHandler();
      if r.Ok? {
        forall j <- semas
          ensures Stands(semas[j], st.locks[j], sched.general)
        {
          assert forall i :: 0 <= i < |old(semas[j].waiters.elems)| ==> old(semas[j].waiters.elems[i]) in old(semas[j].waiters.Nodes());
        }
      }
    }

    /** The timer interrupt. */
    method Timer(ghost st: Sys) returns (r: Outcome<()>)
      requires Valid(st) && Runnable(st) && Enabled(st, Action.Timer)
      modifies sched, sched.ready, sched.ready.Nodes(), sched.general[sched.cur]
      ensures r == Ok(()) && Locks.Do(st, Action.Timer).Ok? && Valid(Locks.Do(st, Action.Timer).value)
    {
      hide SysInv, Stands, Scheduler.Valid, Tick;
      TimerStep(st);
      r := TimerLinks(st);
    }

    method ExecuteLinks(t: Tid, priority: nat, ghost st: Sys) returns (r: Outcome<()>)
      requires Valid(st) && Known(st.s) && t !in st.s.tasks && t !in st.s.ready && t !in st.s.all
      modifies sched, sched.ready, sched.ready.Nodes(), sched.all, sched.all.Nodes()
      ensures r == Ok(()) && sched.Valid() && Shape(sched.ready, sched.all, sched.enlist, semas)
      ensures sched.State() == Sched(st.s.cur, st.s.ready + [t], st.s.all + [t], st.s.tasks[t := Task(Ready, priority, priority, 0)], st.s.clock)
      ensures forall j <- semas :: Stands(semas[j], st.locks[j], sched.general)
    {
      hide SysInv, Scheduler.Valid, Queues;
      sched.TagsKnown();
      ghost var tags := sched.general;
      forall j <- semas
        ensures semas[j].Aside(sched) && Queues(semas[j].waiters, semas[j].waitIds, tags)
      {
        Separate(st, j);
      }
      r := sched.Enlist(t, priority);
      forall j <- semas
        ensures Stands(semas[j], st.locks[j], sched.general)
      {
        assert forall i :: 0 <= i < |old(semas[j].waiters.elems)| ==> old(semas[j].waiters.elems[i]) in old(semas[j].waiters.Nodes());
        MoreTags(semas[j].waiters, semas[j].waitIds, tags, t, sched.general[t]);
      }
    }

    /** The end of process_execute: a new thread with two tags of its own. */
    method Execute(t: Tid, priority: nat, ghost st: Sys) returns (r: Outcome<()>)
      requires Valid(st) && Runnable(st) && Enabled(st, Action.Execute(t, priority))
      modifies sched, sched.ready, sched.ready.Nodes(), sched.all, sched.all.Nodes()
      ensures r == Ok(()) && Locks.Do(st, Action.Execute(t, priority)).Ok? && Valid(Locks.Do(st, Action.Execute(t, priority)).value)
    {
      hide SysInv, Stands, Scheduler.Valid, Shape, Runnable;
      ExecuteStep(st, t, priority);
      Parts(st);
      InvKnown(st.s);
      FreshPage(st, t);
      NotListed(st, t);
      NotReady(st.s, t);
      r := ExecuteLinks(t, priority, st);
    }

    /**
      A thread's general_tag is on the ready list exactly when the thread is ready, and on a
      semaphore's list exactly when it is blocked there; and no two of these lists share a node.
     */
    lemma TagOnOneList(st: Sys, t: Tid, l: LockId, j: LockId)
      requires Valid(st) && t in st.s.tasks && l in semas && j in semas
      ensures t in sched.general && (sched.general[t] in sched.ready.elems <==> st.s.tasks[t].status.Ready?)
      ensures sched.general[t] in semas[l].waiters.elems <==> IsBlocked(st.s, t) && At(st, t) == Retest(l)
      ensures sched.ready.Nodes() !! semas[l].waiters.Nodes() && (l != j ==> semas[l].waiters.Nodes() !! semas[j].waiters.Nodes())
    {
      hide Queues, SysInv, Scheduler.Valid, Shape;
      Separate(st, l);
      if l != j {
        OtherLists(st, j, l);
      }
      Parts(st);
      sched.TagsKnown();
      sched.ReadyQueue();
      ListedTag(sched.ready, sched.readyIds, sched.general, t);
      ListedTag(semas[l].waiters, semas[l].waitIds, sched.general, t);
      QueuedThere(st, t, l);
      Readiness(st, t);
    }

    /**
      From the tag of a thread that waits for lock l, the links lead from waiter to waiter to the tail of
      that list and then to NULL, and meet neither a tag nor the tail of the ready list: a search of the
      ready list that has come to such a tag and goes on undisturbed never ends where it should.
     */
    lemma LinksLeadAway(st: Sys, u: Tid, l: LockId) returns (i: nat)
      requires Valid(st) && l in semas && u in st.locks[l].waiters
      ensures var list := semas[l].waiters;
              && u in sched.general && 1 <= i <= |list.elems| && list.At(i) == sched.general[u]
              && (forall j :: i <= j <= |list.elems| ==> list.At(j).next == list.At(j + 1))
              && list.At(|list.elems| + 1) == list.tail && list.tail.next == null
              && (forall j :: i <= j <= |list.elems| + 1 ==> list.At(j) !in sched.ready.Nodes())
    {
      hide SysInv, Scheduler.Valid, Shape;
      Separate(st, l);
      var list := semas[l].waiters;
      var k :| 0 <= k < |semas[l].waitIds| && semas[l].waitIds[k] == u;
      i := k + 1;
      forall j | i <= j <= |list.elems| + 1
        ensures list.At(j) in list.Nodes()
      {
        if j <= |list.elems| {
          assert list.elems[j - 1] in list.elems;
        }
      }
    }
  }

  lemma NotReady(s: Sched, t: Tid)
    requires SchedInv(s) && t !in s.tasks
    ensures t !in s.ready
  {
  }

  lemma ListedTag(list: List, ids: seq<Tid>, tag: map<Tid, Node>, t: Tid)
    requires Queues(list, ids, tag) && t in tag
    ensures tag[t] in list.elems <==> t in ids
  {
    hide List.Valid;
    TagListed(list, ids, tag, t);
  }

  lemma DownFields(st: Sys, l: LockId)
    requires l in st.locks && Known(st.s)
    ensures match DownOn(st.s, st.locks[l])
            case Panic(e) => SemaDown(st, l) == Panic(e)
            case Ok((s1, k1, _)) => SemaDown(st, l).Ok? && SemaDown(st, l).value.s == s1 && SemaDown(st, l).value.locks == st.locks[l := k1]
  {
    hide DownOn;
  }

  lemma UpFields(st: Sys, l: LockId)
    requires l in st.locks && Known(st.s) && (st.locks[l].waiters != [] ==> st.locks[l].waiters[0] in st.s.tasks) && SemaUp(st, l).Ok?
    ensures UpOn(st.s, st.locks[l]).Ok?
    ensures var (s1, k1) := UpOn(st.s, st.locks[l]).value; SemaUp(st, l).value.s == s1 && SemaUp(st, l).value.locks == st.locks[l := k1]
  {
    hide UpOn;
  }

  lemma HeadExists(st: Sys, l: LockId)
    requires SysInv(st) && l in st.locks
    ensures st.locks[l].waiters != [] ==> st.locks[l].waiters[0] in st.s.tasks
  {
    hide SysInv;
    if st.locks[l].waiters != [] {
      HeadBlocked(st, l);
    }
  }

  lemma TagOff(list: List, ids: seq<Tid>, tag: map<Tid, Node>, t: Tid)
    requires Queues(list, ids, tag) && t in tag && t !in ids
    ensures tag[t] !in list.Nodes()
  {
    hide List.Valid;
    TagListed(list, ids, tag, t);
  }

  lemma NotOnAll(list: List, ids: seq<Tid>, sched: Scheduler)
    requires sched.Valid() && Queues(list, ids, sched.general) && {list.head, list.tail} !! {sched.all.head, sched.all.tail}
    requires forall t <- sched.enlist :: sched.enlist[t] != list.head && sched.enlist[t] != list.tail
    ensures list.Nodes() !! sched.all.Nodes()
  {
    hide Queues;
    sched.AllQueue();
    QueueNodes(list, ids, sched.general);
    QueueNodes(sched.all, sched.allIds, sched.enlist);
  }
}
