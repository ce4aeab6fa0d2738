/**
  The keyboard pipeline: scancode bytes come in by interrupt, one consumer thread calls
  ioq_getchar, and other threads run in between.  ioq_getchar runs with interrupts off, so its
  code from one switch of threads to the next is one step.
 */
module KeyboardRuns {
  import opened Outcomes
  import opened Scheduling
  import Locks
  import opened IoQueues
  import opened Keyboards

  /** Where the consumer is: outside ioq_getchar, waiting inside lock_acquire, or inside ioq_wait. */
  datatype Stage = Idle | Queued | Waiting

  /**
    log and got are histories: each decoded character with whether the queue was full when it
    came, and the bytes that ioq_getchar has returned.
   */
  datatype Line = Line(s: Sched, k: Kbd, ring: Ring, consumer: Option<Tid>, producer: Option<Tid>, lock: Locks.Lock,
                       stage: Stage, scanned: seq<Byte>, log: seq<(Byte, bool)>, got: seq<Byte>)

  predicate Sane(x: Line, c: Tid) {
    && Known(x.s) && RingOk(x.ring) && c in x.s.tasks
    && (x.consumer.Some? ==> x.consumer.value in x.s.tasks)
    && (x.producer.Some? ==> x.producer.value in x.s.tasks)
    && forall t <- x.lock.waiters :: t in x.s.tasks
  }

  // ----- The interrupt handler --------------------------------------------------------------------

  /** intr_keyboard_handler with ioq_putchar. */
  function Scan(x: Line, c: Tid, b: Byte): Outcome<Line>
    requires Sane(x, c)
  {
    var (k1, ch) := Handle(x.k, b);
    var x1 := x.(k := k1, scanned := x.scanned + [b]);
    if ch == 0 then Ok(x1)
    else if Full(x.ring) then Ok(x1.(log := x.log + [(ch, true)]))
    else
      match Wake(x.s, x.consumer)
      case Panic(e) => Panic(e)
      case Ok(s1) => Ok(x1.(ring := Put(x.ring, ch), s := s1, consumer := None, log := x.log + [(ch, false)]))
  }

  // ----- ioq_getchar ----------------------------------------------------------------------------------

  /** ioq_wait: the slot names the consumer, which blocks. */
  function WaitForByte(x: Line, c: Tid): Outcome<Line>
    requires Sane(x, c)
  {
    if x.consumer.Some? then Panic(SlotTaken)
    else
      match Block(x.s)
      case Panic(e) => Panic(e)
      case Ok(s1) => Ok(x.(s := s1, consumer := Some(c), stage := Waiting))
  }

  /** sema_down and the rest of lock_acquire, then ioq_wait; the queue has one lock, number 0. */
  function Lower(x: Line, c: Tid): Outcome<Line>
    requires Sane(x, c)
  {
    match Locks.DownOn(x.s, x.lock)
    case Panic(e) => Panic(e)
    case Ok((s1, k, taken)) =>
      if !taken then Ok(x.(s := s1, lock := k, stage := Queued))
      else
        match Locks.Through(c, Locks.SetHolder(0), k, 0)
        case Panic(e) => Panic(e)
        case Ok(mv) => WaitForByte(x.(lock := mv.k), c)
  }

  /** The test of the loop: lock and wait when there is nothing, otherwise take a byte. */
  function Loop(x: Line, c: Tid): Outcome<Line>
    requires Sane(x, c)
  {
    if Empty(x.ring) then
      match Locks.Through(c, Locks.AcqTest(0), x.lock, x.lock.repeat)
      case Panic(e) => Panic(e)
      case Ok(mv) => if mv.pc.Down? then Lower(x, c) else WaitForByte(x.(lock := mv.k), c)
    else
      match Wake(x.s, x.producer)
      case Panic(e) => Panic(e)
      case Ok(s1) => Ok(x.(s := s1, producer := None, ring := Take(x.ring), got := x.got + [x.ring.buf[x.ring.tail]], stage := Idle))
  }

  /** lock_release, then the loop again. */
  function Raise(x: Line, c: Tid): Outcome<Line>
    requires Sane(x, c)
  {
    match Locks.Through(c, Locks.RelAssert(0), x.lock, x.lock.repeat)
    case Panic(e) => Panic(e)
    case Ok(mv) =>
      if !mv.pc.Up? then Loop(x.(lock := mv.k), c)
      else
        match Released(x, mv.k)
        case Panic(e) => Panic(e)
        case Ok((s1, k1)) => Loop(x.(s := s1, lock := k1), c)
  }

  function Released(x: Line, k: Locks.Lock): (r: Outcome<(Sched, Locks.Lock)>)
    requires Known(x.s) && (forall t <- k.waiters :: t in x.s.tasks)
    ensures r.Ok? ==> Known(r.value.0) && r.value.0.tasks.Keys == x.s.tasks.Keys && forall t <- r.value.1.waiters :: t in k.waiters
  {
    Locks.UpOn(x.s, k)
  }

  /** The consumer runs ioq_getchar from where it is to its return or to the next switch of threads. */
  function Turn(x: Line, c: Tid): Outcome<Line>
    requires Sane(x, c)
  {
    match x.stage case Idle => Loop(x, c) case Queued => Lower(x, c) case Waiting => Raise(x, c)
  }

  // ----- Steps ---------------------------------------------------------------------------------------------

  datatype Action =
    | Key(b: Byte)
    | Consume
    | Timer
    | OtherBlock
    | OtherUnblock(t: Tid)
    | Start(t: Tid, priority: nat)

  /** Interrupts are off while the consumer runs inside ioq_getchar; nobody else wakes it from there. */
  predicate Enabled(x: Line, c: Tid, a: Action) {
    match a
    case Key(_) => x.s.cur != c || x.stage.Idle?
    case Consume => x.s.cur == c
    case Timer => x.s.cur != c || x.stage.Idle?
    case OtherBlock => x.s.cur != c || x.stage.Idle?
    case OtherUnblock(t) => t in x.s.tasks && x.s.tasks[t].status.Blocked? && (t != c || x.stage.Idle?)
    case Start(t, _) => t !in x.s.tasks
  }

  function With(x: Line, r: Outcome<Sched>): Outcome<Line> {
    match r case Panic(e) => Panic(e) case Ok(s1) => Ok(x.(s := s1))
  }

  function Do(x: Line, c: Tid, a: Action): Outcome<Line>
    requires Sane(x, c) && Enabled(x, c, a)
  {
    match a
    case Key(b) => Scan(x, c, b)
    case Consume => Turn(x, c)
    case Timer => With(x, Tick(x.s))
    case OtherBlock => With(x, Block(x.s))
    case OtherUnblock(t) => With(x, Unblock(x.s, t))
    case Start(t, priority) => With(x, StartReady(x.s, t, priority))
  }

  // ----- The invariant ---------------------------------------------------------------------------------------

  function Chars(log: seq<(Byte, bool)>): seq<Byte> {
    if log == [] then [] else Chars(log[..|log| - 1]) + [log[|log| - 1].0]
  }

  /** The characters that did not find the queue full. */
  function Accepted(log: seq<(Byte, bool)>): seq<Byte> {
    if log == [] then []
    else Accepted(log[..|log| - 1]) + if log[|log| - 1].1 then [] else [log[|log| - 1].0]
  }

  /** Nothing is lost, invented or reordered between the decoder and the consumer. */
  ghost predicate StreamInv(x: Line) {
    && RingOk(x.ring) && x.k == After(x.scanned) && Chars(x.log) == Decoded(x.scanned)
    && Accepted(x.log) == x.got + Queue(x.ring)
  }

  /** The consumer waits exactly while there is nothing to read; the slot names it and it holds the lock, once. */
  ghost predicate WaitInv(x: Line, c: Tid) {
    && RingOk(x.ring) && c in x.s.tasks && x.producer == None && x.lock.waiters == []
    && (if x.stage.Waiting? then
          && x.lock == Locks.Lock(Some(c), 0, [], 1)
          && (IsBlocked(x.s, c) <==> Queue(x.ring) == [])
          && x.consumer == (if IsBlocked(x.s, c) then Some(c) else None)
        else
          x.stage.Idle? && x.lock == Locks.Lock(None, 1, [], 0) && x.consumer == None)
  }

  ghost predicate LineInv(x: Line, c: Tid) {
    SchedInv(x.s) && StreamInv(x) && WaitInv(x, c)
  }

  lemma InvSane(x: Line, c: Tid)
    requires LineInv(x, c)
    ensures Sane(x, c)
  {
  }

  // ----- Steps keep it -----------------------------------------------------------------------------------------

  lemma LogStep(log: seq<(Byte, bool)>, ch: Byte, full: bool)
    ensures Chars(log + [(ch, full)]) == Chars(log) + [ch]
    ensures Accepted(log + [(ch, full)]) == Accepted(log) + if full then [] else [ch]
  {
    assert (log + [(ch, full)])[..|log|] == log;
  }

  lemma ScanStream(x: Line, c: Tid, b: Byte)
    requires StreamInv(x) && Sane(x, c) && Scan(x, c, b).Ok?
    ensures StreamInv(Scan(x, c, b).value)
  {
    hide Handle, After, Decoded, Wake, Queue, RingOk, Put, Full;
    var ch := Handle(x.k, b).1;
    AfterStep(x.scanned, b);
    DecodedStep(x.scanned, b);
    if ch != 0 {
      LogStep(x.log, ch, Full(x.ring));
      if !Full(x.ring) {
        PutAppends(x.ring, ch);
      }
    }
  }

  lemma WakeConsumer(s: Sched, t: Tid)
    requires SchedInv(s) && IsBlocked(s, t)
    ensures Known(s) && t in s.tasks && Wake(s, Some(t)).Ok?
    ensures var s1 := Wake(s, Some(t)).value;
            SchedInv(s1) && s1.cur == s.cur && s1.tasks.Keys == s.tasks.Keys && forall u :: IsBlocked(s1, u) <==> IsBlocked(s, u) && u != t
    ensures Wake(s, Some(t)).value.ready == [t] + s.ready
  {
    UnblockInv(s, t);
    UnblockEffect(s, t);
  }

  lemma ScanWait(x: Line, c: Tid, b: Byte)
    requires SchedInv(x.s) && WaitInv(x, c) && Sane(x, c)
    ensures Scan(x, c, b).Ok? && SchedInv(Scan(x, c, b).value.s) && WaitInv(Scan(x, c, b).value, c)
  {
    hide Handle, Wake, Queue, RingOk, Put, SchedInv, IsBlocked, Full, Known;
    var ch := Handle(x.k, b).1;
    if ch != 0 && !Full(x.ring) {
      PutAppends(x.ring, ch);
      if x.consumer.Some? {
        WakeConsumer(x.s, c);
      } else {
        WakeNobody(x.s);
      }
    }
  }

  lemma WakeNobody(s: Sched)
    requires Known(s)
    ensures Wake(s, None) == Ok(s)
  {
  }

  /** Blocking on an empty queue: from a free lock. */
  lemma BlockWait(x: Line, c: Tid)
    requires LineInv(x, c) && x.stage.Idle? && x.s.cur == c && Sane(x, c) && Empty(x.ring)
    ensures match Loop(x, c) case Panic(e) => e == NoReadyThread && x.s.ready == [] case Ok(x') => LineInv(x', c) && x'.got == x.got
  {
    hide StreamInv, SchedInv, Block, Known, Queue, IsBlocked, Locks.Through;
    TestsExact(x.ring);
    Locks.ThroughOnce(c, 0);
    BlockInv(x.s);
    if Block(x.s).Ok? {
      BlockEffect(x.s);
      var x' := Loop(x, c).value;
      assert x' == x.(s := Block(x.s).value, consumer := Some(c), stage := Waiting, lock := Locks.Lock(Some(c), 0, [], 1));
      SameStream(x, x');
    }
  }

  lemma SameStream(x: Line, x': Line)
    requires StreamInv(x) && x'.ring == x.ring && x'.k == x.k && x'.scanned == x.scanned && x'.log == x.log && x'.got == x.got
    ensures StreamInv(x')
  {
  }

  lemma TakeStream(x: Line, x': Line)
    requires StreamInv(x) && !Empty(x.ring) && x'.k == x.k && x'.scanned == x.scanned && x'.log == x.log
    requires x'.ring == Take(x.ring) && x'.got == x.got + [x.ring.buf[x.ring.tail]]
    ensures StreamInv(x')
  {
    hide Queue, Take, After, Decoded, Chars, Accepted;
    TakePops(x.ring);
    assert x.got + ([x.ring.buf[x.ring.tail]] + Queue(Take(x.ring))) == x'.got + Queue(Take(x.ring));
  }

  /** A byte is there: it is returned at once. */
  lemma TakeByte(x: Line, c: Tid)
    requires LineInv(x, c) && x.stage.Idle? && Sane(x, c) && !Empty(x.ring)
    ensures Loop(x, c).Ok? && LineInv(Loop(x, c).value, c)
    ensures Loop(x, c).value.got == x.got + [Queue(x.ring)[0]] && Loop(x, c).value.stage.Idle?
  {
    hide StreamInv, SchedInv, Known, Queue, IsBlocked, Take, Wake, Locks.Through;
    TestsExact(x.ring);
    TakePops(x.ring);
    WakeNobody(x.s);
    TakeStream(x, Loop(x, c).value);
  }

  /** lock_release by the waiting consumer frees the lock; the loop test then decides. */
  lemma RaiseLoops(x: Line, c: Tid)
    requires LineInv(x, c) && x.stage.Waiting? && x.s.cur == c && Sane(x, c)
    ensures var x1 := x.(lock := Locks.Lock(None, 1, [], 0));
            && Sane(x1, c) && Turn(x, c) == Loop(x1, c) && !Empty(x.ring) && Loop(x1, c) == Loop(x1.(stage := Idle), c)
            && LineInv(x1.(stage := Idle), c)
  {
    hide StreamInv, Queue, Take, Locks.Through, Lower, WaitForByte;
    TestsExact(x.ring);
    Locks.ThroughOnce(c, 0);
    SameStream(x, x.(lock := Locks.Lock(None, 1, [], 0), stage := Idle));
  }

  lemma TurnInv(x: Line, c: Tid)
    requires LineInv(x, c) && x.s.cur == c && Sane(x, c)
    ensures match Turn(x, c) case Panic(e) => e == NoReadyThread && x.s.ready == [] case Ok(x') => LineInv(x', c)
  {
    hide LineInv, Loop, Raise, Lower, Empty, Locks.Through;
    StageIs(x, c);
    if x.stage.Waiting? {
      RaiseLoops(x, c);
      TakeByte(x.(lock := Locks.Lock(None, 1, [], 0), stage := Idle), c);
    } else if Empty(x.ring) {
      BlockWait(x, c);
    } else {
      TakeByte(x, c);
    }
  }

  lemma StageIs(x: Line, c: Tid)
    requires LineInv(x, c)
    ensures !x.stage.Queued?
  {
  }

  /** A step of the scheduler that neither blocks nor wakes the consumer inside ioq_getchar. */
  lemma SchedStep(x: Line, c: Tid, s1: Sched)
    requires LineInv(x, c) && SchedInv(s1) && c in s1.tasks
    requires x.stage.Waiting? ==> (IsBlocked(s1, c) <==> IsBlocked(x.s, c))
    ensures LineInv(x.(s := s1), c)
  {
    hide StreamInv, SchedInv, IsBlocked, Queue;
    SameStream(x, x.(s := s1));
  }

  lemma OtherInv(x: Line, c: Tid, a: Action)
    requires LineInv(x, c) && Sane(x, c) && Enabled(x, c, a) && !a.Key? && !a.Consume?
    ensures match Do(x, c, a) case Panic(e) => e == NoReadyThread && x.s.ready == [] case Ok(x') => LineInv(x', c)
  {
    hide StreamInv, WaitInv, Queue;
    assert WaitInv(x, c);
    match a
    case Timer =>
      TickInv(x.s);
      TickEffect(x.s);
      SchedStep(x, c, Tick(x.s).value);
    case OtherBlock =>
      BlockInv(x.s);
      if Block(x.s).Ok? {
        BlockEffect(x.s);
        SchedStep(x, c, Block(x.s).value);
      }
    case OtherUnblock(t) =>
      UnblockInv(x.s, t);
      UnblockEffect(x.s, t);
      SchedStep(x, c, Unblock(x.s, t).value);
    case Start(t, priority) =>
      StartInv(x.s, t, priority);
      SchedStep(x, c, StartReady(x.s, t, priority).value);
  }

  lemma DoInv(x: Line, c: Tid, a: Action)
    requires LineInv(x, c) && Sane(x, c) && Enabled(x, c, a)
    ensures match Do(x, c, a) case Panic(e) => e == NoReadyThread && x.s.ready == [] case Ok(x') => LineInv(x', c)
  {
    hide Scan, Turn, SchedInv, StreamInv, WaitInv, Tick, Block, Unblock, StartReady;
    match a
    case Key(b) =>
      ScanWait(x, c, b);
      ScanStream(x, c, b);
    case Consume => TurnInv(x, c);
    case _ => OtherInv(x, c, a);
  }

  // ----- Runs -----------------------------------------------------------------------------------------------------

  /** ioqueue_init, keyboard flags clear, nobody in ioq_getchar; the scheduler in any state it can be in. */
  ghost predicate Begin(x: Line, c: Tid) {
    && SchedInv(x.s) && c in x.s.tasks && x.k == START && RingOk(x.ring) && x.ring.head == x.ring.tail == 0
    && x.consumer == None && x.producer == None && x.lock == Locks.Lock(None, 1, [], 0) && x.stage.Idle?
    && x.scanned == [] && x.log == [] && x.got == []
  }

  ghost predicate IsRun(xs: seq<Line>, acts: seq<Action>, c: Tid) {
    && |xs| == |acts| + 1 && Begin(xs[0], c)
    && forall i :: 0 <= i < |acts| ==>
         Sane(xs[i], c) && Enabled(xs[i], c, acts[i]) && Do(xs[i], c, acts[i]) == Ok(xs[i + 1])
  }

  lemma {:induction false} RunInv(xs: seq<Line>, acts: seq<Action>, c: Tid, n: nat)
    requires IsRun(xs, acts, c) && n < |xs|
    ensures LineInv(xs[n], c)
  {
    hide LineInv, Do, Enabled, Sane, Begin;
    if n == 0 {
      BeginInv(xs[0], c);
    } else {
      RunInv(xs, acts, c, n - 1);
      DoInv(xs[n - 1], c, acts[n - 1]);
    }
  }

  lemma BeginInv(x: Line, c: Tid)
    requires Begin(x, c)
    ensures LineInv(x, c)
  {
  }

  /**
    In every run: the characters decoded from the bytes so far are the logged ones; those that did
    not find the queue full are what the consumer got followed by what is still queued.
   */
  lemma StreamExact(xs: seq<Line>, acts: seq<Action>, c: Tid, n: nat)
    requires IsRun(xs, acts, c) && n < |xs|
    ensures var x := xs[n];
            && RingOk(x.ring) && |Queue(x.ring)| <= 63
            && Chars(x.log) == Decoded(x.scanned)
            && Accepted(x.log) == x.got + Queue(x.ring)
            && x.got <= Accepted(x.log)
  {
    hide IsRun, SchedInv, WaitInv;
    RunInv(xs, acts, c, n);
    TestsExact(xs[n].ring);
  }

  /** A character is dropped exactly when 63 are queued, and a byte without a character adds nothing. */
  lemma DroppedOnlyWhenFull(x: Line, c: Tid, b: Byte)
    requires LineInv(x, c) && Sane(x, c)
    ensures var ch, x' := LastChar(x.scanned + [b]), Scan(x, c, b);
            && x'.Ok? && x'.value.got == x.got
            && Queue(x'.value.ring) == Queue(x.ring) + (if ch == 0 || |Queue(x.ring)| == 63 then [] else [ch])
            && x'.value.log == x.log + (if ch == 0 then [] else [(ch, |Queue(x.ring)| == 63)])
  {
    hide Handle, Queue, RingOk, Put, Full, SchedInv, After, LastChar, IsBlocked, Wake, Decoded, Accepted, Chars;
    ScanWait(x, c, b);
    CharExact(x.scanned, b);
    TestsExact(x.ring);
    var ch := Handle(x.k, b).1;
    if ch != 0 && !Full(x.ring) {
      PutAppends(x.ring, ch);
    }
  }

  /** No wakeup is lost: a waiting consumer is blocked exactly while the queue is empty, and then the slot names it. */
  lemma NoWakeupLost(xs: seq<Line>, acts: seq<Action>, c: Tid, n: nat)
    requires IsRun(xs, acts, c) && n < |xs|
    ensures var x := xs[n];
            && RingOk(x.ring) && c in x.s.tasks
            && (x.consumer.Some? ==> x.consumer == Some(c) && x.stage.Waiting? && IsBlocked(x.s, c) && Queue(x.ring) == [])
            && (x.stage.Waiting? && Queue(x.ring) != [] ==> c == x.s.cur || c in x.s.ready)
            && (x.stage.Waiting? && Queue(x.ring) == [] ==> x.consumer == Some(c))
  {
    hide IsRun, StreamInv;
    RunInv(xs, acts, c, n);
  }

  /** A consumer woken inside ioq_getchar returns the oldest byte on its first turn: it never waits twice. */
  lemma WokenReturns(x: Line, c: Tid)
    requires LineInv(x, c) && x.stage.Waiting? && x.s.cur == c && Sane(x, c)
    ensures Queue(x.ring) != [] && Turn(x, c).Ok? && Turn(x, c).value.stage.Idle?
    ensures Turn(x, c).value.got == x.got + [Queue(x.ring)[0]]
  {
    hide LineInv, Loop, Empty, Turn, Queue;
    RaiseLoops(x, c);
    RingThere(x, c);
    TestsExact(x.ring);
    TakeByte(x.(lock := Locks.Lock(None, 1, [], 0), stage := Idle), c);
  }

  lemma RingThere(x: Line, c: Tid)
    requires LineInv(x, c)
    ensures RingOk(x.ring)
  {
  }

  /** In every run no assertion of the pipeline fails, except that nobody is ready when the last thread blocks. */
  lemma AssertionsHold(xs: seq<Line>, acts: seq<Action>, c: Tid, a: Action)
    requires IsRun(xs, acts, c)
    ensures var x := xs[|acts|];
            && Sane(x, c)
            && (Enabled(x, c, a) && Do(x, c, a).Panic? ==> Do(x, c, a) == Panic(NoReadyThread) && x.s.ready == [])
  {
    hide LineInv, Do, Enabled, Sane;
    RunInv(xs, acts, c, |acts|);
    InvSane(xs[|acts|], c);
    if Enabled(xs[|acts|], c, a) {
      DoInv(xs[|acts|], c, a);
    }
  }

  /** A key pressed while the consumer waits gives it the CPU when the running thread's slice is over, not before. */
  lemma DeliveredNext(x: Line, c: Tid, b: Byte)
    requires LineInv(x, c) && Sane(x, c) && x.stage.Waiting? && IsBlocked(x.s, c) && LastChar(x.scanned + [b]) != 0
    ensures Scan(x, c, b).Ok?
    ensures var s1 := Scan(x, c, b).value.s;
            && SchedInv(s1) && s1.cur == x.s.cur
            && Ticks(s1, x.s.tasks[x.s.cur].ticks + 1).cur == c
            && forall i: nat :: i < x.s.tasks[x.s.cur].ticks + 1 ==> Ticks(s1, i).cur != c
  {
    hide Handle, Queue, RingOk, Put, Full, After, LastChar, Wake, Decoded, Accepted, Chars, Ticks, StreamInv;
    ScanWait(x, c, b);
    AfterOf(x);
    CharExact(x.scanned, b);
    RingThere(x, c);
    TestsExact(x.ring);
    WakeConsumer(x.s, c);
    var s1 := Scan(x, c, b).value.s;
    assert s1.ready == [c] + x.s.ready;
    WokenSlice(x.s, c);
    DispatchedExactly(s1, 0);
    NoSlices(s1);
  }

  lemma AfterOf(x: Line)
    requires StreamInv(x)
    ensures x.k == After(x.scanned)
  {
  }

  lemma WokenSlice(s: Sched, t: Tid)
    requires SchedInv(s) && IsBlocked(s, t) && Wake(s, Some(t)).Ok?
    ensures var s1 := Wake(s, Some(t)).value; s1.cur in s1.tasks && s1.tasks[s1.cur].ticks == s.tasks[s.cur].ticks
  {
  }
}
