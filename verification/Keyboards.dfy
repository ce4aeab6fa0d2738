/**
  device/keyboard.c: the scancode state machine.  History predicates over the whole byte stream
  say what its flags and characters mean; the handler is proved to compute exactly that.
 */
module Keyboards {
  import opened Outcomes
  import opened IoQueues
  import opened Scheduling
  import Threads

  const ESC: Byte := 27
  const BACKSPACE: Byte := 8
  const TAB: Byte := 9
  const ENTER: Byte := 13

  /** keymap, row by row: what a make code shows alone and with shift, in ASCII; 0 for a key that shows nothing. */
  function Keymap(code: nat): (Byte, Byte)
    requires code < 0x3b
  {
    if code < 0x10 then DigitKeys(code)
    else if code < 0x1e then TopKeys(code)
    else if code < 0x2b then HomeKeys(code)
    else BottomKeys(code)
  }

  function DigitKeys(code: nat): (Byte, Byte) {
    match code
    case 0x01 => (ESC, ESC) case 0x02 => (49, 33) case 0x03 => (50, 64) case 0x04 => (51, 35)
    case 0x05 => (52, 36) case 0x06 => (53, 37) case 0x07 => (54, 94) case 0x08 => (55, 38)
    case 0x09 => (56, 42) case 0x0a => (57, 40) case 0x0b => (48, 41) case 0x0c => (45, 95)
    case 0x0d => (61, 43) case 0x0e => (BACKSPACE, BACKSPACE) case 0x0f => (TAB, TAB)
    case _ => (0, 0)
  }

  function TopKeys(code: nat): (Byte, Byte) {
    match code
    case 0x10 => (113, 81) case 0x11 => (119, 87) case 0x12 => (101, 69) case 0x13 => (114, 82)
    case 0x14 => (116, 84) case 0x15 => (121, 89) case 0x16 => (117, 85) case 0x17 => (105, 73)
    case 0x18 => (111, 79) case 0x19 => (112, 80) case 0x1a => (91, 123) case 0x1b => (93, 125)
    case 0x1c => (ENTER, ENTER)
    case _ => (0, 0)
  }

  function HomeKeys(code: nat): (Byte, Byte) {
    match code
    case 0x1e => (97, 65) case 0x1f => (115, 83) case 0x20 => (100, 68) case 0x21 => (102, 70)
    case 0x22 => (103, 71) case 0x23 => (104, 72) case 0x24 => (106, 74) case 0x25 => (107, 75)
    case 0x26 => (108, 76) case 0x27 => (59, 58) case 0x28 => (39, 34) case 0x29 => (96, 126)
    case _ => (0, 0)
  }

  function BottomKeys(code: nat): (Byte, Byte) {
    match code
    case 0x2b => (92, 124) case 0x2c => (122, 90) case 0x2d => (120, 88) case 0x2e => (99, 67)
    case 0x2f => (118, 86) case 0x30 => (98, 66) case 0x31 => (110, 78) case 0x32 => (109, 77)
    case 0x33 => (44, 60) case 0x34 => (46, 62) case 0x35 => (47, 63) case 0x37 => (42, 42)
    case 0x39 => (32, 32)
    case _ => (0, 0)
  }

  /** The scancodes of the keys that show two characters. */
  predicate TwoChar(code: nat) {
    code < 0x0e || code in {0x29, 0x1a, 0x1b, 0x2b, 0x27, 0x28, 0x33, 0x34, 0x35}
  }

  /** The table and the classification fit: on every other key the second character is the capital of the first, or the same. */
  lemma KeymapCase(code: nat)
    requires code < 0x3b && !TwoChar(code)
    ensures var k := Keymap(code); k.0 == k.1 || (97 <= k.0 <= 122 && k.1 == k.0 - 32)
  {
  }

  datatype Kbd = Kbd(ctrl: bool, shift: bool, alt: bool, caps: bool, ext: bool)

  /** intr_keyboard_handler: the new flags, and the character to queue or 0. */
  function Handle(k: Kbd, byte: Byte): (Kbd, Byte) {
    if byte == 0xe0 then (k.(ext := true), 0)
    else
      var code: nat := if k.ext then 0xe000 + byte else byte;
      var k1 := k.(ext := false);
      if byte >= 0x80 then (Released(k1, code - 0x80), 0)
      else if MakeCode(code) then Pressed(k1, code)
      else (k1, 0)
  }

  /** The make codes that the handler knows. */
  predicate MakeCode(code: nat) {
    0 < code < 0x3b || code == 0xe038 || code == 0xe01d
  }

  function Released(k: Kbd, make: nat): Kbd {
    if make == 0x1d || make == 0xe01d then k.(ctrl := false)
    else if make == 0x2a || make == 0x36 then k.(shift := false)
    else if make == 0x38 || make == 0xe038 then k.(alt := false)
    else k
  }

  function Pressed(k: Kbd, code: nat): (Kbd, Byte)
    requires MakeCode(code)
  {
    var upper := if TwoChar(code) then k.shift else k.shift != k.caps;
    var index := code % 256;
    var c := if upper then Keymap(index).1 else Keymap(index).0;
    if c != 0 then (k, c) else (PressedFlag(k, index), 0)
  }

  /** code is the low byte of a scancode by now, so the tests for 0xe01d and 0xe038 never succeed. */
  function PressedFlag(k: Kbd, code: nat): Kbd {
    if code == 0x1d || code == 0xe01d then k.(ctrl := true)
    else if code == 0x2a || code == 0x36 then k.(shift := true)
    else if code == 0x38 || code == 0xe038 then k.(alt := true)
    else if code == 0x3a then k.(caps := !k.caps)
    else k
  }

  // ----- What a byte stream means ------------------------------------------------------------------

  /** All flags start clear: they are uninitialised globals of the kernel image. */
  const START := Kbd(false, false, false, false, false)

  function After(bytes: seq<Byte>): Kbd {
    if bytes == [] then START else Handle(After(bytes[..|bytes| - 1]), bytes[|bytes| - 1]).0
  }

  predicate Extended(bytes: seq<Byte>, i: nat)
    requires i < |bytes|
  {
    i > 0 && bytes[i - 1] == 0xe0
  }

  predicate ShiftPress(bytes: seq<Byte>, i: nat)
    requires i < |bytes|
  {
    !Extended(bytes, i) && (bytes[i] == 0x2a || bytes[i] == 0x36)
  }

  predicate ShiftRelease(bytes: seq<Byte>, i: nat)
    requires i < |bytes|
  {
    !Extended(bytes, i) && (bytes[i] == 0xaa || bytes[i] == 0xb6)
  }

  /** The last shift event, if there was one, was a press. */
  predicate ShiftDown(bytes: seq<Byte>) {
    exists i: nat | i < |bytes| :: ShiftPress(bytes, i) && forall j: nat | i < j < |bytes| :: !ShiftRelease(bytes, j)
  }

  /** The last of the bytes press and press + 0x80 was the press, whatever came before it. */
  predicate LastWas(bytes: seq<Byte>, press: Byte)
    requires press < 0x80
  {
    exists i: nat | i < |bytes| :: bytes[i] == press && forall j: nat | i < j < |bytes| :: bytes[j] != press + 0x80
  }

  function CapsPresses(bytes: seq<Byte>): nat {
    if bytes == [] then 0
    else
      var n := |bytes| - 1;
      CapsPresses(bytes[..n]) + if bytes[n] == 0x3a && !Extended(bytes, n) then 1 else 0
  }

  /** The character of the last byte, from the events before it; 0 for none. */
  function LastChar(bytes: seq<Byte>): Byte
    requires bytes != []
  {
    var n := |bytes| - 1;
    var b := bytes[n];
    if Extended(bytes, n) || b >= 0x3b then 0
    else
      var down, caps := ShiftDown(bytes[..n]), CapsPresses(bytes[..n]) % 2 == 1;
      var upper := if TwoChar(b) then down else down != caps;
      if upper then Keymap(b).1 else Keymap(b).0
  }

  // ----- The machine computes it --------------------------------------------------------------------

  lemma ShiftStep(bytes: seq<Byte>, b: Byte)
    ensures var s := bytes + [b];
            ShiftDown(s) <==> ShiftPress(s, |bytes|) || (ShiftDown(bytes) && !ShiftRelease(s, |bytes|))
  {
    var s, n := bytes + [b], |bytes|;
    assert forall i: nat | i < n :: ShiftPress(s, i) == ShiftPress(bytes, i) && ShiftRelease(s, i) == ShiftRelease(bytes, i);
    if ShiftDown(bytes) && !ShiftRelease(s, n) {
      var i: nat :| i < n && ShiftPress(bytes, i) && forall j: nat | i < j < n :: !ShiftRelease(bytes, j);
      assert ShiftPress(s, i) && forall j: nat | i < j < |s| :: !ShiftRelease(s, j);
    }
    if ShiftDown(s) && !ShiftPress(s, n) {
      var i: nat :| i < |s| && ShiftPress(s, i) && forall j: nat | i < j < |s| :: !ShiftRelease(s, j);
      assert ShiftPress(bytes, i) && forall j: nat | i < j < n :: !ShiftRelease(bytes, j);
    }
  }

  lemma LastStep(bytes: seq<Byte>, b: Byte, press: Byte)
    requires press < 0x80
    ensures LastWas(bytes + [b], press) <==> b == press || (LastWas(bytes, press) && b != press + 0x80)
  {
    var s, n := bytes + [b], |bytes|;
    if b == press {
      assert s[n] == press;
    }
    if LastWas(bytes, press) && b != press + 0x80 {
      var i: nat :| i < n && bytes[i] == press && forall j: nat | i < j < n :: bytes[j] != press + 0x80;
      assert s[i] == press && forall j: nat | i < j < |s| :: s[j] != press + 0x80;
    }
    if LastWas(s, press) && b != press {
      var i: nat :| i < |s| && s[i] == press && forall j: nat | i < j < |s| :: s[j] != press + 0x80;
      assert s[n] == b && i < n && bytes[i] == press;
      assert forall j: nat | i < j < n :: bytes[j] == s[j] != press + 0x80;
    }
  }

  lemma CapsStep(bytes: seq<Byte>, b: Byte)
    ensures CapsPresses(bytes + [b])
            == CapsPresses(bytes) + if b == 0x3a && !Extended(bytes + [b], |bytes|) then 1 else 0
  {
    assert (bytes + [b])[..|bytes|] == bytes;
  }

  /** What one byte does to each flag. */
  lemma HandleFlags(k: Kbd, b: Byte)
    ensures var k', c := Handle(k, b).0, Handle(k, b).1;
            && k'.ext == (b == 0xe0)
            && k'.shift == ((!k.ext && (b == 0x2a || b == 0x36)) || (k.shift && !(!k.ext && (b == 0xaa || b == 0xb6))))
            && k'.ctrl == (b == 0x1d || (k.ctrl && b != 0x9d))
            && k'.alt == (b == 0x38 || (k.alt && b != 0xb8))
            && k'.caps == (k.caps != (b == 0x3a && !k.ext))
  {
    hide Keymap, TwoChar;
    if b < 0x3b {
      KeymapZeros(b);
    }
  }

  /** The keys without a character are exactly the control keys. */
  lemma KeymapZeros(code: nat)
    requires code < 0x3b
    ensures Keymap(code).0 == 0 <==> code in {0, 0x1d, 0x2a, 0x36, 0x38, 0x3a}
    ensures Keymap(code).1 == 0 <==> code in {0, 0x1d, 0x2a, 0x36, 0x38, 0x3a}
  {
  }

  lemma HandleChar(k: Kbd, b: Byte)
    ensures Handle(k, b).1 ==
            if k.ext || b >= 0x3b then 0
            else if (if TwoChar(b) then k.shift else k.shift != k.caps) then Keymap(b).1 else Keymap(b).0
  {
    hide Keymap, TwoChar;
    if b < 0x3b {
      KeymapZeros(b);
    }
  }

  /**
    For every byte stream: the extension flag says whether the last byte was 0xe0, so a prefix
    affects only the next byte that is not one; shift says whether the last shift event was a
    press; ctrl and alt likewise for either of their keys; caps is the parity of its presses.
   */
  lemma {:induction false} FlagsExact(bytes: seq<Byte>)
    ensures var k := After(bytes);
            && k.ext == (bytes != [] && bytes[|bytes| - 1] == 0xe0)
            && k.shift == ShiftDown(bytes)
            && k.ctrl == LastWas(bytes, 0x1d) && k.alt == LastWas(bytes, 0x38)
            && k.caps == (CapsPresses(bytes) % 2 == 1)
  {
    hide Handle, ShiftDown, LastWas, CapsPresses, After;
    if bytes == [] {
      NoEvents();
    } else {
      var n := |bytes| - 1;
      var pre, b := bytes[..n], bytes[n];
      assert bytes == pre + [b];
      FlagsExact(pre);
      AfterStep(pre, b);
      HandleFlags(After(pre), b);
      ShiftStep(pre, b);
      LastStep(pre, b, 0x1d);
      LastStep(pre, b, 0x38);
      CapsStep(pre, b);
    }
  }

  lemma NoEvents()
    ensures !ShiftDown([]) && !LastWas([], 0x1d) && !LastWas([], 0x38) && CapsPresses([]) == 0 && After([]) == START
  {
  }

  /** For every byte stream, the character that its last byte produces is the decoded one. */
  lemma CharExact(bytes: seq<Byte>, b: Byte)
    ensures Handle(After(bytes), b).1 == LastChar(bytes + [b])
  {
    hide Handle, ShiftDown, LastWas;
    FlagsExact(bytes);
    HandleChar(After(bytes), b);
    assert (bytes + [b])[..|bytes|] == bytes;
  }

  /** A make code of the table that follows no prefix. */
  predicate Plain(bytes: seq<Byte>, b: Byte) {
    b < 0x3b && !(bytes != [] && bytes[|bytes| - 1] == 0xe0)
  }

  /** A letter key gives the capital exactly when one of shift and caps lock is on, but not both. */
  lemma LettersExact(bytes: seq<Byte>, b: Byte)
    requires Plain(bytes, b) && 97 <= Keymap(b).0 <= 122
    ensures Handle(After(bytes), b).1 == if ShiftDown(bytes) != (CapsPresses(bytes) % 2 == 1) then Keymap(b).0 - 32 else Keymap(b).0
  {
    hide Handle, ShiftDown, LastWas, CapsPresses, After;
    FlagsExact(bytes);
    HandleChar(After(bytes), b);
  }

  /** Every other key with two different characters gives the second exactly when shift is down, whatever caps lock says. */
  lemma SymbolsExact(bytes: seq<Byte>, b: Byte)
    requires Plain(bytes, b) && Keymap(b).0 != Keymap(b).1 && !(97 <= Keymap(b).0 <= 122)
    ensures Handle(After(bytes), b).1 == if ShiftDown(bytes) then Keymap(b).1 else Keymap(b).0
  {
    hide Handle, ShiftDown, LastWas, CapsPresses, After;
    FlagsExact(bytes);
    HandleChar(After(bytes), b);
  }

  /** And a key with one character gives it, whatever is held. */
  lemma SingleExact(bytes: seq<Byte>, b: Byte)
    requires Plain(bytes, b) && Keymap(b).0 == Keymap(b).1
    ensures Handle(After(bytes), b).1 == Keymap(b).0
  {
    hide Handle, ShiftDown, LastWas, CapsPresses, After, Keymap;
    FlagsExact(bytes);
    HandleChar(After(bytes), b);
  }

  /** The key shows the one character alone and the other with shift. */
  predicate Shows(code: nat, alone: char, shifted: char) {
    code < 0x3b && Keymap(code).0 == alone as int && Keymap(code).1 == shifted as int
  }

  /** Every other byte gives nothing. */
  lemma SilentExact(bytes: seq<Byte>, b: Byte)
    requires !Plain(bytes, b)
    ensures Handle(After(bytes), b).1 == 0
  {
    hide Handle, ShiftDown, LastWas, CapsPresses, After, Keymap;
    FlagsExact(bytes);
    HandleChar(After(bytes), b);
  }

  /** What the four rows of a keyboard spell. */
  lemma DigitRow()
    ensures Shows(0x02, '1', '!') && Shows(0x03, '2', '@') && Shows(0x04, '3', '#') && Shows(0x05, '4', '$')
    ensures Shows(0x06, '5', '%') && Shows(0x07, '6', '^') && Shows(0x08, '7', '&') && Shows(0x09, '8', '*')
    ensures Shows(0x0a, '9', '(') && Shows(0x0b, '0', ')') && Shows(0x0c, '-', '_') && Shows(0x0d, '=', '+')
  {
  }

  lemma TopRow()
    ensures Shows(0x10, 'q', 'Q') && Shows(0x11, 'w', 'W') && Shows(0x12, 'e', 'E') && Shows(0x13, 'r', 'R')
    ensures Shows(0x14, 't', 'T') && Shows(0x15, 'y', 'Y') && Shows(0x16, 'u', 'U') && Shows(0x17, 'i', 'I')
    ensures Shows(0x18, 'o', 'O') && Shows(0x19, 'p', 'P') && Shows(0x1a, '[', '{') && Shows(0x1b, ']', '}')
  {
  }

  lemma HomeRow()
    ensures Shows(0x1e, 'a', 'A') && Shows(0x1f, 's', 'S') && Shows(0x20, 'd', 'D') && Shows(0x21, 'f', 'F')
    ensures Shows(0x22, 'g', 'G') && Shows(0x23, 'h', 'H') && Shows(0x24, 'j', 'J') && Shows(0x25, 'k', 'K')
    ensures Shows(0x26, 'l', 'L') && Shows(0x27, ';', ':') && Shows(0x28, '\'', '"') && Shows(0x29, '`', '~')
  {
  }

  lemma BottomRow()
    ensures Shows(0x2b, '\\', '|') && Shows(0x2c, 'z', 'Z') && Shows(0x2d, 'x', 'X') && Shows(0x2e, 'c', 'C')
    ensures Shows(0x2f, 'v', 'V') && Shows(0x30, 'b', 'B') && Shows(0x31, 'n', 'N') && Shows(0x32, 'm', 'M')
    ensures Shows(0x33, ',', '<') && Shows(0x34, '.', '>') && Shows(0x35, '/', '?')
  {
  }

  /** And the keys that show the same with shift. */
  lemma SingleKeys()
    ensures Keymap(0x01) == (27, 27) && Keymap(0x0e) == (8, 8) && Keymap(0x0f) == (9, 9) && Keymap(0x1c) == (13, 13)
    ensures Keymap(0x37) == (42, 42) && Keymap(0x39) == (32, 32)
  {
  }

  /** A prefix reaches no further than the next byte: two streams that agree on the flags agree from there on. */
  lemma PrefixConsumed(bytes: seq<Byte>, b: Byte)
    requires b != 0xe0
    ensures !After(bytes + [b]).ext
  {
    FlagsExact(bytes + [b]);
  }

  /** The decoded stream: the characters of all bytes that have one, in order. */
  function Decoded(bytes: seq<Byte>): seq<Byte> {
    if bytes == [] then []
    else Decoded(bytes[..|bytes| - 1]) + if LastChar(bytes) != 0 then [LastChar(bytes)] else []
  }

  lemma DecodedStep(bytes: seq<Byte>, b: Byte)
    ensures Decoded(bytes + [b]) == Decoded(bytes) + if Handle(After(bytes), b).1 != 0 then [Handle(After(bytes), b).1] else []
  {
    hide Handle, LastChar, After;
    CharExact(bytes, b);
    assert (bytes + [b])[..|bytes|] == bytes;
  }

  lemma AfterStep(bytes: seq<Byte>, b: Byte)
    ensures After(bytes + [b]) == Handle(After(bytes), b).0
  {
    assert (bytes + [b])[..|bytes|] == bytes;
  }

  // ----- The handler -----------------------------------------------------------------------------------

  class Keyboard {
    var ctrl: bool
    var shift: bool
    var alt: bool
    var caps: bool
    var ext: bool
    const queue: IoQueue

    ghost function State(): Kbd
      reads this
    {
      Kbd(ctrl, shift, alt, caps, ext)
    }

    /** keyboard_init */
    constructor ()
      ensures State() == START && fresh(queue) && fresh(queue.buf) && queue.Valid() && Queue(queue.State()) == []
      ensures queue.producer == queue.consumer == None
    {
      ctrl, shift, alt, caps, ext := false, false, false, false, false;
      queue := new IoQueue();
    }

    /** What queueing the character c, or nothing when c is 0, leaves behind. */
    twostate predicate Queued(c: Byte, sched: Threads.Scheduler, new r: Outcome<()>)
      reads this, queue, queue.buf, sched, sched.ready, sched.ready.Nodes(), sched.all, sched.all.Nodes()
    {
      && old(queue.Valid()) && queue.Valid()
      && old(Known(sched.State()) && (queue.consumer.Some? ==> queue.consumer.value in sched.tasks))
      && if c != 0 && old(|Queue(queue.State())|) < 63 then
        && Queue(queue.State()) == old(Queue(queue.State())) + [c]
        && match Wake(old(sched.State()), old(queue.consumer))
           case Panic(e) => r == Panic(e)
           case Ok(s) => r == Ok(()) && sched.Valid() && sched.State() == s && queue.consumer == None
      else
        && r == Ok(()) && queue.State() == old(queue.State()) && sched.Valid() && sched.State() == old(sched.State())
        && queue.consumer == old(queue.consumer)
    }

    /** A key is let go: its flag is cleared whichever of its codes came, and no other flag changes. */
    method Release(make: nat, ghost sched: Threads.Scheduler)
      requires sched.Valid()
      modifies this
      ensures ctrl == (old(ctrl) && make != 0x1d && make != 0xe01d)
      ensures shift == (old(shift) && make != 0x2a && make != 0x36)
      ensures alt == (old(alt) && make != 0x38 && make != 0xe038)
      ensures caps == old(caps) && ext == old(ext) && sched.Valid() && sched.State() == old(sched.State())
    {
      hide Threads.Queues, Threads.TagsApart;
      sched.ListsApart();
      if make == 0x1d || make == 0xe01d {
        ctrl := false;
      } else if make == 0x2a || make == 0x36 {
        shift := false;
      } else if make == 0x38 || make == 0xe038 {
        alt := false;
      }
    }

    /** A key that shows nothing is pressed. */
    method SetFlag(code: nat, ghost sched: Threads.Scheduler)
      requires sched.Valid() && code < 0x3b
      modifies this
      ensures State() == PressedFlag(old(State()), code) && sched.Valid() && sched.State() == old(sched.State())
    {
      hide Threads.Queues, Threads.TagsApart;
      sched.ListsApart();
      if code == 0x1d || code == 0xe01d {
        ctrl := true;
      } else if code == 0x2a || code == 0x36 {
        shift := true;
      } else if code == 0x38 || code == 0xe038 {
        alt := true;
      } else if code == 0x3a {
        caps := !caps;
      }
    }

    method SetExt(value: bool, ghost sched: Threads.Scheduler)
      requires sched.Valid()
      modifies `ext
      ensures State() == old(State()).(ext := value) && sched.Valid() && sched.State() == old(sched.State())
    {
      hide Threads.Queues, Threads.TagsApart;
      sched.ListsApart();
      ext := value;
    }

    method Press(scancode: nat, sched: Threads.Scheduler) returns (r: Outcome<()>)
      requires MakeCode(scancode)
      requires queue.Valid() && sched.Valid()
      requires Known(sched.State()) && (queue.consumer.Some? ==> queue.consumer.value in sched.tasks)
      modifies this, queue`head, queue`consumer, queue.buf, sched, sched.ready, sched.ready.Nodes(), sched.TagOf(queue.consumer)
      ensures State() == Pressed(old(State()), scancode).0 && queue.Valid()
      ensures Queued(Pressed(old(State()), scancode).1, sched, r)
    {
      hide Keymap, TwoChar, Wake, Queue, RingOk, Put, Known, Threads.Scheduler.Valid;
      var upper := false;
      if TwoChar(scancode) {
        if shift { upper := true; }
      } else {
        upper := shift != caps;
      }
      var index := scancode % 256;
      var c := if upper then Keymap(index).1 else Keymap(index).0;
      if c != 0 {
        if queue.IsFull() { return Ok(()); }
        TestsExact(queue.State());
        r := queue.PutChar(sched, c);
        return;
      }
      SetFlag(index, sched);
      r := Ok(());
    }

    /** A byte comes in: the flags change, and a character goes to the queue unless the queue is full. */
    method Handler(byte: Byte, sched: Threads.Scheduler) returns (r: Outcome<()>)
      requires queue.Valid() && sched.Valid()
      requires Known(sched.State()) && (queue.consumer.Some? ==> queue.consumer.value in sched.tasks)
      modifies this, queue`head, queue`consumer, queue.buf, sched, sched.ready, sched.ready.Nodes(), sched.TagOf(queue.consumer)
      ensures State() == Handle(old(State()), byte).0 && queue.Valid()
      ensures Queued(Handle(old(State()), byte).1, sched, r)
    {
      hide Keymap, TwoChar, Wake, Queue, RingOk, Put, Known, Pressed, Threads.Scheduler.Valid;
      r := Ok(());
      var scancode: nat := byte;
      if scancode == 0xe0 {
        SetExt(true, sched);
        return;
      }
      if ext {
        scancode := 0xe000 + scancode;
        SetExt(false, sched);
      }
      label Coded:
      if byte >= 0x80 {
        Release(scancode - 0x80, sched);
      } else if MakeCode(scancode) {
        r := Press(scancode, sched);
        assert Queued@Coded(Pressed(old@Coded(State()), scancode).1, sched, r);
      }
    }
  }
}
