/**
  device/ioqueue.c: the 64-byte ring.  head is where the next byte goes and tail where the next
  one comes from; one place always stays free, so the ring is a FIFO of capacity 63.
 */
module IoQueues {
  import opened Outcomes
  import opened Scheduling
  import Threads

  const BUFSIZE := 64

  type Byte = b: int | 0 <= b < 256

  datatype Ring = Ring(buf: seq<Byte>, head: nat, tail: nat)

  predicate RingOk(r: Ring) {
    |r.buf| == BUFSIZE && r.head < BUFSIZE && r.tail < BUFSIZE
  }

  function NextPos(pos: nat): (r: nat)
    ensures r < BUFSIZE
  {
    (pos + 1) % BUFSIZE
  }

  predicate Full(r: Ring) {
    NextPos(r.head) == r.tail
  }

  predicate Empty(r: Ring) {
    r.head == r.tail
  }

  /** The bytes in the ring, oldest first. */
  function Queue(r: Ring): seq<Byte>
    requires RingOk(r)
  {
    if r.tail <= r.head then r.buf[r.tail..r.head] else r.buf[r.tail..] + r.buf[..r.head]
  }

  function Put(r: Ring, b: Byte): Ring
    requires RingOk(r)
  {
    Ring(r.buf[r.head := b], NextPos(r.head), r.tail)
  }

  function Take(r: Ring): Ring {
    r.(tail := NextPos(r.tail))
  }

  /** The two tests are exact: the ring is empty with no byte in it and full with 63. */
  lemma TestsExact(r: Ring)
    requires RingOk(r)
    ensures |Queue(r)| <= 63
    ensures Empty(r) <==> Queue(r) == []
    ensures Full(r) <==> |Queue(r)| == 63
  {
  }

  lemma PutAppends(r: Ring, b: Byte)
    requires RingOk(r) && !Full(r)
    ensures RingOk(Put(r, b)) && Queue(Put(r, b)) == Queue(r) + [b]
  {
    var r' := Put(r, b);
    if r.tail <= r.head && r.head == BUFSIZE - 1 {
      assert Queue(r') == r'.buf[r.tail..] + r'.buf[..0];
    }
  }

  lemma TakePops(r: Ring)
    requires RingOk(r) && !Empty(r)
    ensures RingOk(Take(r)) && Queue(r) == [r.buf[r.tail]] + Queue(Take(r))
  {
    hide NextPos, Queue;
    NextPosIs(r.tail);
    var t, h := r.tail, r.head;
    if t < h {
      FirstOff(r.buf, t, h);
      QueueIs(r, r.buf[t..h]);
      QueueIs(Take(r), r.buf[t + 1..h]);
    } else if t == BUFSIZE - 1 {
      QueueIs(r, [r.buf[t]] + r.buf[..h]);
      QueueIs(Take(r), r.buf[..h]);
    } else {
      Wrapped(r.buf, t, h);
      QueueIs(r, r.buf[t..] + r.buf[..h]);
      QueueIs(Take(r), r.buf[t + 1..] + r.buf[..h]);
    }
  }

  lemma QueueIs(r: Ring, q: seq<Byte>)
    requires RingOk(r) && q == if r.tail <= r.head then r.buf[r.tail..r.head] else r.buf[r.tail..] + r.buf[..r.head]
    ensures Queue(r) == q
  {
  }

  lemma Wrapped(s: seq<Byte>, t: nat, h: nat)
    requires t < |s| && h <= |s|
    ensures s[t..] + s[..h] == [s[t]] + (s[t + 1..] + s[..h])
  {
  }

  lemma FirstOff(s: seq<Byte>, i: nat, k: nat)
    requires i < k <= |s|
    ensures s[i..k] == [s[i]] + s[i + 1..k]
  {
  }

  lemma NextPosIs(pos: nat)
    requires pos < BUFSIZE
    ensures NextPos(pos) == if pos == BUFSIZE - 1 then 0 else pos + 1
  {
  }

  // ----- FIFO, whoever the callers are -----------------------------------------------------------

  /** What gets through ioq_putchar and ioq_getchar, in the order in which it does; each is done with interrupts off. */
  datatype Op = PutOp(b: Byte) | TakeOp

  predicate CanDo(r: Ring, op: Op) {
    match op case PutOp(_) => !Full(r) case TakeOp => !Empty(r)
  }

  function Apply(r: Ring, op: Op): Ring
    requires RingOk(r)
  {
    match op case PutOp(b) => Put(r, b) case TakeOp => Take(r)
  }

  ghost predicate IsHistory(rs: seq<Ring>, ops: seq<Op>) {
    && |rs| == |ops| + 1 && RingOk(rs[0])
    && forall i :: 0 <= i < |ops| ==> RingOk(rs[i]) && CanDo(rs[i], ops[i]) && rs[i + 1] == Apply(rs[i], ops[i])
  }

  function PutBytes(ops: seq<Op>, n: nat): seq<Byte>
    requires n <= |ops|
  {
    if n == 0 then [] else PutBytes(ops, n - 1) + if ops[n - 1].PutOp? then [ops[n - 1].b] else []
  }

  function TakenBytes(rs: seq<Ring>, ops: seq<Op>, n: nat): seq<Byte>
    requires n <= |ops| < |rs| && forall i :: 0 <= i < |ops| ==> RingOk(rs[i])
  {
    if n == 0 then []
    else TakenBytes(rs, ops, n - 1) + if ops[n - 1].TakeOp? then [rs[n - 1].buf[rs[n - 1].tail]] else []
  }

  /** For any interleaving of any producers and consumers: what was there and what was put is what was taken and what is left. */
  lemma {:induction false} FifoOrder(rs: seq<Ring>, ops: seq<Op>, n: nat)
    requires IsHistory(rs, ops) && n <= |ops|
    ensures RingOk(rs[n]) && Queue(rs[0]) + PutBytes(ops, n) == TakenBytes(rs, ops, n) + Queue(rs[n])
  {
    hide Queue, Put, Take, Full, Empty;
    if n > 0 {
      FifoOrder(rs, ops, n - 1);
      var r, op := rs[n - 1], ops[n - 1];
      if op.PutOp? {
        PutAppends(r, op.b);
        assert Queue(rs[0]) + (PutBytes(ops, n - 1) + [op.b]) == (Queue(rs[0]) + PutBytes(ops, n - 1)) + [op.b];
        assert TakenBytes(rs, ops, n - 1) + (Queue(r) + [op.b]) == (TakenBytes(rs, ops, n - 1) + Queue(r)) + [op.b];
      } else {
        TakePops(r);
        assert TakenBytes(rs, ops, n - 1) + ([r.buf[r.tail]] + Queue(Take(r)))
            == (TakenBytes(rs, ops, n - 1) + [r.buf[r.tail]]) + Queue(Take(r));
      }
    }
  }

  // ----- The object ------------------------------------------------------------------------------

  /** wakeup of a waiter slot, if it names a thread. */
  function Wake(s: Sched, slot: Option<Tid>): (r: Outcome<Sched>)
    requires Known(s) && (slot.Some? ==> slot.value in s.tasks)
    ensures r.Ok? ==> Known(r.value)
  {
    match slot case None => Ok(s) case Some(t) => Unblock(s, t)
  }

  /** struct ioqueue without its lock. */
  class IoQueue {
    const buf: array<Byte>
    var head: nat
    var tail: nat
    var producer: Option<Tid>
    var consumer: Option<Tid>

    ghost predicate Valid()
      reads this, buf
    {
      RingOk(State())
    }

    ghost function State(): Ring
      reads this, buf
    {
      Ring(buf[..], head, tail)
    }

    /** ioqueue_init */
    constructor ()
      ensures Valid() && fresh(buf) && Queue(State()) == [] && producer == consumer == None
    {
      buf := new Byte[BUFSIZE];
      head, tail, producer, consumer := 0, 0, None, None;
    }

    /** ioq_full */
    function IsFull(): (full: bool)
      requires Valid()
      reads this, buf
      ensures full <==> |Queue(State())| == 63
    {
      TestsExact(State());
      NextPos(head) == tail
    }

    /** ioq_empty */
    function IsEmpty(): (empty: bool)
      requires Valid()
      reads this, buf
      ensures empty <==> Queue(State()) == []
    {
      TestsExact(State());
      head == tail
    }

    /** The byte goes to head, which moves on. */
    method Store(b: Byte, ghost sched: Threads.Scheduler)
      requires Valid() && |Queue(State())| < 63 && sched.Valid()
      modifies this`head, buf
      ensures Valid() && State() == Put(old(State()), b) && Queue(State()) == old(Queue(State())) + [b] && sched.Valid()
      ensures sched.State() == old(sched.State())
    {
      hide Threads.Queues, Queue, Threads.TagsApart;
      sched.ListsApart();
      TestsExact(State());
      PutAppends(State(), b);
      buf[head] := b;
      head := NextPos(head);
    }

    /** The byte at tail, which moves on. */
    method Fetch(ghost sched: Threads.Scheduler) returns (b: Byte)
      requires Valid() && Queue(State()) != [] && sched.Valid()
      modifies this`tail
      ensures Valid() && State() == Take(old(State())) && old(Queue(State())) == [b] + Queue(State()) && sched.Valid()
      ensures sched.State() == old(sched.State())
    {
      hide Threads.Queues, Queue, Threads.TagsApart;
      sched.ListsApart();
      TestsExact(State());
      TakePops(State());
      b := buf[tail];
      tail := NextPos(tail);
    }

    /** wakeup */
    method WakeUp(slot: Option<Tid>, sched: Threads.Scheduler) returns (r: Outcome<()>)
      requires Valid() && sched.Valid() && Known(sched.State()) && (slot.Some? ==> slot.value in sched.tasks)
      modifies sched, sched.ready, sched.ready.Nodes(), sched.TagOf(slot)
      ensures Valid() && State() == old(State()) && consumer == old(consumer) && producer == old(producer)
      ensures match Wake(old(sched.State()), slot)
              case Panic(e) => r == Panic(e)
              case Ok(s) => r == Ok(()) && sched.Valid() && sched.State() == s
    {
      hide Threads.Scheduler.Valid, Queue, Unblock;
      sched.TagsKnown();
      r := Ok(());
      if slot.Some? {
        r := sched.Unblock(slot.value);
      }
    }

    method ClearConsumer(ghost sched: Threads.Scheduler)
      requires sched.Valid()
      modifies this`consumer
      ensures consumer == None && sched.Valid() && sched.State() == old(sched.State())
    {
      hide Threads.Queues, Threads.TagsApart;
      sched.ListsApart();
      consumer := None;
    }

    method ClearProducer(ghost sched: Threads.Scheduler)
      requires sched.Valid()
      modifies this`producer
      ensures producer == None && sched.Valid() && sched.State() == old(sched.State())
    {
      hide Threads.Queues, Threads.TagsApart;
      sched.ListsApart();
      producer := None;
    }

    /** ioq_putchar once there is room. */
    method PutChar(sched: Threads.Scheduler, b: Byte) returns (r: Outcome<()>)
      requires Valid() && |Queue(State())| < 63
      requires sched.Valid() && Known(sched.State()) && (consumer.Some? ==> consumer.value in sched.tasks)
      modifies this`head, this`consumer, buf, sched, sched.ready, sched.ready.Nodes(), sched.TagOf(consumer)
      ensures match Wake(old(sched.State()), old(consumer))
              case Panic(e) => r == Panic(e)
              case Ok(s) => r == Ok(()) && sched.Valid() && sched.State() == s && consumer == None
      ensures Valid() && State() == Put(old(State()), b) && Queue(State()) == old(Queue(State())) + [b]
    {
      hide Threads.Scheduler.Valid, Queue, Wake, RingOk, Put;
      Store(b, sched);
      r := WakeUp(consumer, sched);
      if r.Ok? { ClearConsumer(sched); }
    }

    /** ioq_getchar once there is a byte. */
    method GetChar(sched: Threads.Scheduler) returns (r: Outcome<Byte>)
      requires Valid() && Queue(State()) != []
      requires sched.Valid() && Known(sched.State()) && (producer.Some? ==> producer.value in sched.tasks)
      modifies this`tail, this`producer, sched, sched.ready, sched.ready.Nodes(), sched.TagOf(producer)
      ensures match Wake(old(sched.State()), old(producer))
              case Panic(e) => r == Panic(e)
              case Ok(s) => r == Ok(old(Queue(State())[0])) && sched.Valid() && sched.State() == s && producer == None
      ensures Valid() && State() == Take(old(State())) && Queue(State()) == old(Queue(State()))[1..]
    {
      hide Threads.Scheduler.Valid, Queue, Wake, RingOk, Take;
      var b := Fetch(sched);
      var u := WakeUp(producer, sched);
      if u.Ok? { ClearProducer(sched); }
      r := if u.Ok? then Ok(b) else Panic(u.fault);
    }
  }
}
