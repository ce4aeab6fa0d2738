/**
  thread/thread.c and device/timer.c as they are written: the ready list and the list of all threads
  are linked through tags inside the thread structures.  Each method is proved to do on the links
  what the step does on sequences; what the steps keep is proved in Scheduling, Locks and LockRuns.
 */
module Threads {
  import opened Outcomes
  import opened Lists
  import opened Scheduling

  /** The list holds the tags of the threads ids, in that order. */
  ghost predicate Holds(list: List, ids: seq<Tid>, tag: map<Tid, Node>)
    reads list`elems
  {
    |list.elems| == |ids| && forall i :: 0 <= i < |ids| ==> ids[i] in tag && list.elems[i] == tag[ids[i]]
  }

  ghost predicate Injective(tag: map<Tid, Node>) {
    forall t, u :: t in tag && u in tag && tag[t] == tag[u] ==> t == u
  }

  /** A tag is on the list exactly when its thread is in the sequence. */
  lemma TagListed(list: List, ids: seq<Tid>, tag: map<Tid, Node>, t: Tid)
    requires Holds(list, ids, tag) && Injective(tag) && t in tag
    ensures tag[t] in list.elems <==> t in ids
  {
    if tag[t] in list.elems {
      var i :| 0 <= i < |list.elems| && list.elems[i] == tag[t];
      assert ids[i] == t;
    }
    if t in ids {
      var i :| 0 <= i < |ids| && ids[i] == t;
      assert list.elems[i] == tag[t];
    }
  }

  /** The list holds the tags of ids, and no tag is one of its sentinels. */
  ghost predicate Queues(list: List, ids: seq<Tid>, tag: map<Tid, Node>)
    reads list, list.Nodes()
  {
    list.Valid() && Holds(list, ids, tag) && Injective(tag) && forall t <- tag :: tag[t] != list.head && tag[t] != list.tail
  }

  /** list_append after the search that must not find the tag. */
  method AppendTag(list: List, ghost ids: seq<Tid>, tag: map<Tid, Node>, t: Tid) returns (r: Outcome<()>)
    requires Queues(list, ids, tag) && t in tag
    modifies list, list.Nodes(), tag[t]
    ensures if t in ids then r == Panic(NodeRepeat)
            else r == Ok(()) && Queues(list, ids + [t], tag) && list.Nodes() == old(list.Nodes()) + {tag[t]}
  {
    TagListed(list, ids, tag, t);
    var found := list.Find(tag[t]);
    if found { return Panic(NodeRepeat); }
    list.Append(tag[t]);
    return Ok(());
  }

  /** list_push after the same search. */
  method PushTag(list: List, ghost ids: seq<Tid>, tag: map<Tid, Node>, t: Tid) returns (r: Outcome<()>)
    requires Queues(list, ids, tag) && t in tag
    modifies list, list.Nodes(), tag[t]
    ensures if t in ids then r == Panic(NodeRepeat)
            else r == Ok(()) && Queues(list, [t] + ids, tag) && list.Nodes() == old(list.Nodes()) + {tag[t]}
  {
    TagListed(list, ids, tag, t);
    var found := list.Find(tag[t]);
    if found { return Panic(NodeRepeat); }
    list.Push(tag[t]);
    return Ok(());
  }

  /** list_pop, and elem2entry: the thread whose tag came off. */
  method PopTag(list: List, ghost ids: seq<Tid>, tag: map<Tid, Node>) returns (t: Tid)
    requires Queues(list, ids, tag) && ids != []
    modifies list, list.Nodes()
    ensures t == ids[0] && t in tag && Queues(list, ids[1..], tag) && list.Nodes() <= old(list.Nodes()) - {tag[t]}
  {
    assert list.elems[0] == tag[ids[0]];
    var top := list.Pop();
    t :| t in tag && tag[t] == top;
  }

  lemma EmptyQueue(list: List, t: Tid, node: Node)
    requires list.Valid() && list.elems == [] && node != list.head && node != list.tail
    ensures Queues(list, [], map[t := node]) && list.Nodes() == {list.head, list.tail}
  {
  }

  /** A new structure's tag is on no list. */
  lemma MoreTags(list: List, ids: seq<Tid>, tag: map<Tid, Node>, t: Tid, node: Node)
    requires Queues(list, ids, tag) && t !in tag && node != list.head && node != list.tail
    requires forall u <- tag :: tag[u] != node
    ensures Queues(list, ids, tag[t := node])
  {
    hide List.Valid;
  }

  /** Tags of one kind are not tags of the other, nor sentinels of the other list. */
  ghost predicate TagsApart(general: map<Tid, Node>, enlist: map<Tid, Node>, r: set<Node>, a: set<Node>) {
    && (forall t <- general :: general[t] !in a)
    && (forall t <- enlist :: enlist[t] !in r)
    && (forall t <- general, u <- enlist :: general[t] != enlist[u])
  }

  lemma MoreApart(general: map<Tid, Node>, enlist: map<Tid, Node>, r: set<Node>, a: set<Node>, t: Tid, n: Node, m: Node)
    requires TagsApart(general, enlist, r, a) && n !in a && m !in r && n != m
    requires (forall u <- general :: general[u] != m) && (forall u <- enlist :: enlist[u] != n)
    ensures TagsApart(general[t := n], enlist[t := m], r, a)
  {
  }

  lemma MainAlone(main: Tid)
    ensures SchedInv(Sched(main, [], [main], map[main := Task(Running, 31, 31, 0)], 0))
  {
  }

  /** thread_ready_list, thread_all_list, the thread structures with their two tags, and the tick counter. */
  class Scheduler {
    const ready: List
    const all: List
    var cur: Tid
    var tasks: map<Tid, Task>
    var general: map<Tid, Node>
    var enlist: map<Tid, Node>
    var clock: nat
    ghost var readyIds: seq<Tid>
    ghost var allIds: seq<Tid>

    ghost function State(): Sched
      reads this
    {
      Sched(cur, readyIds, allIds, tasks, clock)
    }

    twostate predicate Kept()
      reads this
    {
      general == old(general) && enlist == old(enlist)
    }

    /** The two lists are different lists, and each thread has one tag of each kind. */
    ghost predicate Apart()
      reads this
    {
      && ready != all && general.Keys == enlist.Keys == tasks.Keys && {ready.head, ready.tail} !! {all.head, all.tail}
      && TagsApart(general, enlist, {ready.head, ready.tail}, {all.head, all.tail})
    }

    ghost predicate Valid()
      reads this, ready, ready.Nodes(), all, all.Nodes()
    {
      Apart() && Queues(ready, readyIds, general) && Queues(all, allIds, enlist)
    }

    /** A general_tag is not on the list of all threads, and the two lists share no node. */
    lemma ListsApart()
      requires Valid()
      ensures ready.Nodes() !! all.Nodes() && forall t <- general :: general[t] !in all.Nodes()
      ensures forall t <- enlist :: enlist[t] !in ready.Nodes()
    {
    }

    lemma ReadyQueue()
      requires Valid()
      ensures Queues(ready, readyIds, general)
    {
    }

    lemma AllQueue()
      requires Valid()
      ensures Queues(all, allIds, enlist) && forall t <- general, u <- enlist :: general[t] != enlist[u]
      ensures forall t <- general :: general[t] != all.head && general[t] != all.tail
    {
    }

    lemma TagsKnown()
      requires Valid()
      ensures general.Keys == tasks.Keys
    {
    }

    /** The tag of a thread that is not ready is on neither list. */
    lemma TagFree(t: Tid)
      requires Valid() && t in tasks && t !in readyIds
      ensures t in general && general[t] !in ready.Nodes() && general[t] !in all.Nodes()
    {
      TagListed(ready, readyIds, general, t);
    }

    /** thread_init: two empty lists, and the structure of the main thread, which runs. */
    constructor (main: Tid)
      ensures Valid() && fresh(ready) && fresh(ready.Nodes()) && fresh(all) && fresh(all.Nodes())
      ensures State() == Sched(main, [], [], map[main := Task(Running, 31, 31, 0)], 0)
      ensures fresh(general[main]) && fresh(enlist[main])
    {
      hide List.Valid, Queues;
      ready := new List();
      all := new List();
      var tag := new Node();
      var allTag := new Node();
      cur, tasks, clock := main, map[main := Task(Running, 31, 31, 0)], 0;
      general, enlist := map[main := tag], map[main := allTag];
      readyIds, allIds := [], [];
      new;
      EmptyQueue(ready, main, tag);
      EmptyQueue(all, main, allTag);
      assert Apart();
    }

    /** make_main_thread, after which the invariant of the steps holds. */
    method MakeMain() returns (r: Outcome<()>)
      requires Valid() && State() == Sched(cur, [], [], map[cur := Task(Running, 31, 31, 0)], 0)
      modifies `allIds, all, all.Nodes(), enlist[cur]
      ensures r == Ok(()) && Valid() && State() == old(State()).(all := [cur]) && SchedInv(State()) && Kept()
    {
      hide Queues, SchedInv;
      r := AppendAll(cur);
      MainAlone(cur);
    }

    method AppendAll(t: Tid) returns (r: Outcome<()>)
      requires Valid() && t in tasks
      modifies `allIds, all, all.Nodes(), enlist[t]
      ensures if old(t in allIds) then r == Panic(NodeRepeat)
              else r == Ok(()) && Valid() && State() == old(State()).(all := old(allIds) + [t])
      ensures Kept()
    {
      hide Queues;
      ListsApart();
      r := AppendTag(all, allIds, enlist, t);
      allIds := allIds + [t];
    }

    method AppendReady(t: Tid) returns (r: Outcome<()>)
      requires Valid() && t in tasks
      modifies `readyIds, ready, ready.Nodes(), general[t]
      ensures if old(t in readyIds) then r == Panic(NodeRepeat)
              else r == Ok(()) && Valid() && State() == old(State()).(ready := old(readyIds) + [t])
      ensures r.Ok? ==> Kept() && ready.Nodes() <= old(ready.Nodes()) + {general[t]}
    {
      hide Queues;
      ListsApart();
      r := AppendTag(ready, readyIds, general, t);
      readyIds := readyIds + [t];
    }

    method PushReady(t: Tid) returns (r: Outcome<()>)
      requires Valid() && t in tasks
      modifies `readyIds, ready, ready.Nodes(), general[t]
      ensures if old(t in readyIds) then r == Panic(NodeRepeat)
              else r == Ok(()) && Valid() && State() == old(State()).(ready := [t] + old(readyIds))
      ensures r.Ok? ==> Kept() && ready.Nodes() <= old(ready.Nodes()) + {general[t]}
    {
      hide Queues;
      ListsApart();
      r := PushTag(ready, readyIds, general, t);
      readyIds := [t] + readyIds;
    }

    method PopReady() returns (t: Tid)
      requires Valid() && readyIds != []
      modifies `readyIds, ready, ready.Nodes()
      ensures Valid() && t in tasks && t == old(readyIds)[0] && State() == old(State()).(ready := old(readyIds)[1..])
      ensures Kept() && ready.Nodes() <= old(ready.Nodes())
    {
      hide Queues;
      ListsApart();
      t := PopTag(ready, readyIds, general);
      readyIds := readyIds[1..];
    }

    method SetTask(t: Tid, task: Task)
      requires Valid() && t in tasks
      modifies `tasks
      ensures Valid() && State() == old(State()).(tasks := old(tasks)[t := task]) && Kept() && ready.Nodes() == old(ready.Nodes())
    {
      hide Queues;
      ListsApart();
      tasks := tasks[t := task];
      assert tasks.Keys == old(tasks).Keys;
    }

    method ReadyEmpty() returns (none: bool)
      requires Valid()
      ensures Valid() && none == (readyIds == [])
    {
      none := ready.Empty();
    }

    /** The tag that schedule puts on the ready list: the running thread's, unless it blocks. */
    ghost function Requeued(): set<Node>
      requires Valid() && Known(State())
      reads this, ready, ready.Nodes(), all, all.Nodes()
    {
      if tasks[cur].status.Running? then {general[cur]} else {}
    }

    /** The first half of schedule. */
    method Requeue() returns (r: Outcome<()>)
      requires Valid() && Known(State())
      modifies `tasks, `readyIds, ready, ready.Nodes(), Requeued()
      ensures match Scheduling.Requeue(old(State()))
              case Panic(e) => r == Panic(e)
              case Ok(s) => r == Ok(()) && Valid() && State() == s
      ensures r.Ok? ==> Kept() && ready.Nodes() <= old(ready.Nodes() + Requeued()) && cur == old(cur)
    {
      hide Scheduler.Valid;
      r := Ok(());
      if tasks[cur].status.Running? {
        r := AppendReady(cur);
        if r.Panic? { return; }
        SetTask(cur, tasks[cur].(ticks := tasks[cur].priority, status := Ready));
      }
    }

    /** The second half; process_activate and switch_to are the change of cur. */
    method Dispatch() returns (r: Outcome<()>)
      requires Valid() && Known(State())
      modifies `cur, `tasks, `readyIds, ready, ready.Nodes()
      ensures match Scheduling.Dispatch(old(State()))
              case Panic(e) => r == Panic(e)
              case Ok(s) => r == Ok(()) && Valid() && State() == s
      ensures Kept() && ready.Nodes() <= old(ready.Nodes())
    {
      hide Scheduler.Valid;
      var none := ReadyEmpty();
      if none { return Panic(NoReadyThread); }
      var next := PopReady();
      SetTask(next, tasks[next].(status := Running));
      Switch(next);
      return Ok(());
    }

    method Schedule() returns (r: Outcome<()>)
      requires Valid() && Known(State())
      modifies this, ready, ready.Nodes(), Requeued()
      ensures match Scheduling.Schedule(old(State()))
              case Panic(e) => r == Panic(e)
              case Ok(s) => r == Ok(()) && Valid() && State() == s
      ensures r.Ok? ==> Kept() && ready.Nodes() <= old(ready.Nodes() + Requeued())
    {
      hide Scheduler.Valid, Scheduling.Requeue, Scheduling.Dispatch;
      r := Requeue();
      if r.Panic? { return; }
      r := Dispatch();
    }

    /** thread_block */
    method Block() returns (r: Outcome<()>)
      requires Valid() && Known(State())
      modifies this, ready, ready.Nodes()
      ensures match Scheduling.Block(old(State()))
              case Panic(e) => r == Panic(e)
              case Ok(s) => r == Ok(()) && Valid() && State() == s
      ensures r.Ok? ==> Kept() && ready.Nodes() <= old(ready.Nodes())
    {
      hide Scheduler.Valid, Scheduling.Schedule;
      SetTask(cur, tasks[cur].(status := Blocked));
      r := Schedule();
    }

    /** thread_unblock */
    method Unblock(t: Tid) returns (r: Outcome<()>)
      requires Valid() && Known(State()) && t in tasks
      modifies this, ready, ready.Nodes(), general[t]
      ensures match Scheduling.Unblock(old(State()), t)
              case Panic(e) => r == Panic(e)
              case Ok(s) => r == Ok(()) && Valid() && State() == s
      ensures r.Ok? ==> Kept() && ready.Nodes() <= old(ready.Nodes()) + {general[t]}
    {
      hide Scheduler.Valid;
      if !tasks[t].status.Blocked? { return Panic(BadStatus); }
      r := PushReady(t);
      if r.Panic? { return; }
      SetTask(t, tasks[t].(status := Ready));
    }

    /** intr_timer_handler */
    method TimerHandler() returns (r: Outcome<()>)
      requires Valid() && Known(State())
      modifies this, ready, ready.Nodes(), Requeued()
      ensures match Tick(old(State()))
              case Panic(e) => r == Panic(e)
              case Ok(s) => r == Ok(()) && Valid() && State() == s
      ensures r.Ok? ==> Kept() && ready.Nodes() <= old(ready.Nodes() + Requeued())
    {
      hide Scheduler.Valid, Scheduling.Schedule;
      SetTask(cur, tasks[cur].(elapsed := tasks[cur].elapsed + 1));
      CountTick();
      if tasks[cur].ticks == 0 {
        r := Schedule();
      } else {
        SetTask(cur, tasks[cur].(ticks := tasks[cur].ticks - 1));
        r := Ok(());
      }
    }

    /** The tag of the thread that a waiter slot names. */
    ghost function TagOf(slot: Option<Tid>): set<Node>
      reads this
    {
      if slot.Some? && slot.value in general then {general[slot.value]} else {}
    }

    /** A node that no list of the scheduler has, and no thread. */
    ghost predicate Unused(n: Node)
      reads this
    {
      && n !in {ready.head, ready.tail, all.head, all.tail}
      && (forall u <- general :: general[u] != n) && (forall u <- enlist :: enlist[u] != n)
    }

    /** init_thread: a structure with two tags that are on no list. */
    method NewThread(t: Tid, priority: nat, tag: Node, allTag: Node)
      requires Valid() && t !in tasks && Unused(tag) && Unused(allTag) && tag != allTag
      modifies `tasks, `general, `enlist
      ensures Valid() && State() == old(State()).(tasks := old(tasks)[t := Task(Ready, priority, priority, 0)])
      ensures general == old(general)[t := tag] && enlist == old(enlist)[t := allTag]
      ensures ready.Nodes() == old(ready.Nodes()) && all.Nodes() == old(all.Nodes())
    {
      hide Queues, TagsApart;
      ListsApart();
      MoreTags(ready, readyIds, general, t, tag);
      MoreTags(all, allIds, enlist, t, allTag);
      MoreApart(general, enlist, {ready.head, ready.tail}, {all.head, all.tail}, t, tag, allTag);
      general, enlist := general[t := tag], enlist[t := allTag];
      tasks := tasks[t := Task(Ready, priority, priority, 0)];
    }

    /** The end of process_execute, with interrupts off; a new thread is on neither list before it. */
    method Enlist(t: Tid, priority: nat) returns (r: Outcome<()>)
      requires Valid() && Known(State()) && t !in tasks && t !in readyIds && t !in allIds
      modifies this, ready, ready.Nodes(), all, all.Nodes()
      ensures r == Ok(()) && Valid() && cur == old(cur) && clock == old(clock)
      ensures readyIds == old(readyIds) + [t] && allIds == old(allIds) + [t]
      ensures tasks == old(tasks)[t := Task(Ready, priority, priority, 0)]
      ensures t in general && t in enlist && fresh(general[t]) && fresh(enlist[t])
      ensures general == old(general)[t := general[t]] && enlist == old(enlist)[t := enlist[t]]
    {
      hide Scheduler.Valid;
      var tag := new Node();
      var allTag := new Node();
      NewThread(t, priority, tag, allTag);
      r := AppendReady(t);
      r := AppendAll(t);
    }

    /** switch_to */
    method Switch(next: Tid)
      requires Valid()
      modifies `cur
      ensures Valid() && State() == old(State()).(cur := next) && Kept() && ready.Nodes() == old(ready.Nodes())
    {
      hide Queues;
      ListsApart();
      cur := next;
    }

    method CountTick()
      requires Valid()
      modifies `clock
      ensures Valid() && State() == old(State()).(clock := old(clock) + 1) && Kept() && ready.Nodes() == old(ready.Nodes())
    {
      hide Queues;
      ListsApart();
      clock := clock + 1;
    }
  }
}
