/** The interrupt-driven transmit ring: a buffer of 128 bytes with free-running 32-bit indices, filled by the
    mainline and drained by a handler, in front of a transmitter that discards what it cannot take. */
module TxRing {
  import opened Words
  import opened Wrappers

  const SIZE := 128

  // ----- what the driver means: a queue, the transmitter, and the interrupt enable -----

  /** `staged` is a byte already in the buffer that the head index does not cover yet. */
  datatype Driver = Driver(pending: seq<byte>, staged: Option<byte>, armed: bool, done: bool, irqs: nat,
                           busy: bool, line: seq<byte>, lost: nat)

  /** Mainline stores a byte, then moves the head past it; mainline arms the interrupt; the handler runs; the
      transmitter finishes a byte. */
  datatype Event = Store(c: byte) | Publish | Arm | Irq | Finish

  /** The mainline does one thing after another; the interrupt is a level, up while the transmitter is idle and
      the enable is set, and may come between any two of them. */
  predicate Possible(s: Driver, e: Event) {
    match e
    case Store(c) => s.staged.None?
    case Publish => s.staged.Some?
    case Arm => s.staged.None?
    case Irq => s.armed && !s.busy
    case Finish => s.busy
  }

  /** What the queue holds after c is stored in the slot its next byte goes to: on a full ring that slot is
      some older byte's too. */
  function Stored(pending: seq<byte>, c: byte): (r: seq<byte>)
    ensures |r| == |pending|
    ensures |pending| < SIZE ==> r == pending
  {
    seq(|pending|, i requires 0 <= i < |pending| => if i % SIZE == |pending| % SIZE then c else pending[i])
  }

  /** The count in flight is a 32-bit difference, so a queue of 2^32 bytes reads as an empty one. */
  function Published(pending: seq<byte>, c: byte): seq<byte> {
    if |pending| + 1 == 0x1_0000_0000 then [] else pending + [c]
  }

  /** A write to a busy transmitter is discarded. */
  function Transmit(s: Driver, b: byte): Driver {
    if s.busy then s.(lost := s.lost + 1) else s.(busy := true, line := s.line + [b])
  }

  function Handle(s: Driver): Driver {
    var s1 := s.(irqs := s.irqs + 1);
    var s2 := if s1.pending != [] then Transmit(s1, s1.pending[0]).(pending := s1.pending[1..]) else s1;
    if s2.pending == [] then s2.(armed := false, done := true) else s2
  }

  function Next(s: Driver, e: Event): Driver {
    match e
    case Store(c) => s.(pending := Stored(s.pending, c), staged := Some(c))
    case Publish => if s.staged.None? then s else s.(pending := Published(s.pending, s.staged.value), staged := None)
    case Arm => s.(irqs := 0, done := false, armed := true)
    case Irq => Handle(s)
    case Finish => s.(busy := false)
  }

  function Run(s: Driver, events: seq<Event>): Driver {
    if events == [] then s else Next(Run(s, events[..|events| - 1]), events[|events| - 1])
  }

  predicate PossibleRun(s: Driver, events: seq<Event>) {
    events == []
    || (PossibleRun(s, events[..|events| - 1]) && Possible(Run(s, events[..|events| - 1]), events[|events| - 1]))
  }

  // ----- the ring itself -----

  /** n bytes of the buffer from index `tail` on, each index wrapped and then masked. */
  function Slots(buf: seq<byte>, tail: word, n: nat): seq<byte>
    requires |buf| == SIZE
  {
    seq(n, i requires i >= 0 => buf[Wrap(tail + i) % SIZE])
  }

  class Ring {
    const txbuf: array<byte>
    var head: word
    var tail: word
    var irqCount: word
    var done: bool
    // the UART, as the program sees it
    var etbei: bool
    var busy: bool
    var line: seq<byte>
    ghost var lost: nat
    ghost var irqs: nat
    ghost var staged: Option<byte>

    function Outstanding(): nat
      reads `head, `tail
    {
      Wrap(head - tail)
    }

    ghost predicate Valid()
      reads `head, `irqCount, `irqs, `staged, txbuf
    {
      && txbuf.Length == SIZE && irqCount == Wrap(irqs)
      && (staged.Some? ==> txbuf[head % SIZE] == staged.value)
    }

    function SlotOf(i: nat): nat
      reads `tail
    {
      Wrap(tail + i) % SIZE
    }

    ghost function Contents(): (s: seq<byte>)
      requires txbuf.Length == SIZE
      reads `head, `tail, txbuf
      ensures |s| == Outstanding()
      ensures forall i :: 0 <= i < |s| ==> s[i] == txbuf[SlotOf(i)]
    {
      Slots(txbuf[..], tail, Outstanding())
    }

    ghost function State(): Driver
      requires Valid()
      reads this, txbuf
    {
      Driver(Contents(), staged, etbei, done, irqs, busy, line, lost)
    }

    constructor ()
      ensures Valid() && fresh(txbuf)
      ensures State() == Driver([], None, false, false, 0, false, [], 0)
    {
      txbuf := new byte[SIZE](_ => 0);
      head, tail, irqCount, done, etbei, busy, line := 0, 0, 0, false, false, false, [];
      lost, irqs, staged := 0, 0, None;
    }

    method StoreByte(c: byte)
      requires Valid() && staged.None?
      modifies `staged, txbuf
      ensures Valid() && State() == Next(old(State()), Store(c))
    {
      ghost var was, n := Contents(), Outstanding();
      txbuf[head % SIZE] := c;
      staged := Some(c);
      forall i | 0 <= i < n ensures Contents()[i] == Stored(was, c)[i] { SlotsMeet(head, tail, i); }
    }

    method PublishByte()
      requires Valid() && staged.Some?
      modifies `head, `staged
      ensures Valid() && State() == Next(old(State()), Publish)
    {
      ghost var was, n := Contents(), Outstanding();
      NextSlot(head, tail);
      assert SlotOf(n) == head % SIZE;
      head := Wrap(head + 1);
      staged := None;
      assert forall i :: 0 <= i < Outstanding() ==> Contents()[i] == Published(was, old(staged).value)[i];
    }

    method TxQueue(c: byte)
      requires Valid() && staged.None?
      modifies this, txbuf
      ensures Valid() && State() == Next(Next(old(State()), Store(c)), Publish)
    {
      StoreByte(c);
      PublishByte();
    }

    method ArmInterrupt()
      requires Valid()
      modifies this
      ensures Valid() && State() == Next(old(State()), Arm)
    {
      irqCount, done := 0, false;
      irqs := 0;
      etbei := true;
    }

    method WriteThr(b: byte)
      modifies `busy, `line, `lost
      ensures if old(busy) then lost == old(lost) + 1 && busy && line == old(line)
              else lost == old(lost) && busy && line == old(line) + [b]
    {
      if busy { lost := lost + 1; } else { busy, line := true, line + [b]; }
    }

    // The oldest byte leaves the ring.
    method Advance()
      requires Valid() && head != tail
      modifies `tail
      ensures Contents() == old(Contents())[1..]
    {
      FirstSlot(head, tail);
      SlotsShift(txbuf[..], tail, Outstanding());
      tail := Wrap(tail + 1);
      hide Slots;
    }

    // The oldest byte goes to the transmitter.
    method SendOldest()
      requires Valid() && head != tail
      modifies `tail, `busy, `line, `lost
      ensures var s := old(State());
              s.pending != [] && State() == Transmit(s, s.pending[0]).(pending := s.pending[1..])
    {
      FirstSlot(head, tail);
      hide Contents;
      WriteThr(txbuf[tail % SIZE]);
      Advance();
    }

    lemma Shows()
      requires Valid()
      ensures State().done == done && irqCount == Wrap(State().irqs) && State().line == line
    {}

    method CountInterrupt()
      requires Valid()
      modifies `irqCount, `irqs
      ensures Valid()
      ensures var s := old(State()); State() == s.(irqs := s.irqs + 1)
    {
      hide Contents;
      irqCount := Wrap(irqCount + 1);
      irqs := irqs + 1;
      CountWraps(irqs - 1);
    }

    method DisarmIfEmpty()
      requires Valid()
      modifies `etbei, `done
      ensures Valid()
      ensures var s := old(State()); State() == if s.pending == [] then s.(armed := false, done := true) else s
    {
      hide Contents;
      Emptiness(head, tail);
      if tail == head { etbei, done := false, true; }
    }

    lemma NothingPending()
      requires Valid()
      ensures State().pending == [] <==> head == tail
    {
      Emptiness(head, tail);
    }

    method Handler()
      requires Valid()
      modifies this
      ensures Valid() && State() == Next(old(State()), Irq)
    {
      hide Contents, Transmit, Valid, State;
      CountInterrupt();
      NothingPending();
      if tail != head { SendOldest(); }
      DisarmIfEmpty();
    }

    method ByteFinished()
      requires Valid()
      modifies `busy
      ensures Valid() && State() == Next(old(State()), Finish)
    {
      busy := false;
    }
  }

  // ----- the wrapped indices -----

  lemma NextSlot(head: word, tail: word)
    ensures var n := Wrap(head - tail);
            && Wrap(tail + n) == head
            && Wrap(Wrap(head + 1) - tail) == if n + 1 == 0x1_0000_0000 then 0 else n + 1
  {
    if head >= tail {
      assert Wrap(head - tail) == head - tail;
    } else {
      assert Wrap(head - tail) == head - tail + 0x1_0000_0000;
    }
  }

  lemma WrapSlot(x: int)
    ensures Wrap(x) % SIZE == x % SIZE
  {
    assert x == SIZE * (0x200_0000 * (x / 0x1_0000_0000)) + Wrap(x);
  }

  lemma SlotsMeet(head: word, tail: word, i: nat)
    ensures Wrap(tail + i) % SIZE == head % SIZE <==> i % SIZE == Wrap(head - tail) % SIZE
  {
    WrapSlot(tail + i);
    WrapSlot(head - tail);
    SlotsAlike(tail, i, head);
    hide Wrap;
  }

  lemma SlotsAlike(tail: int, i: int, head: int)
    ensures (tail + i) % SIZE == head % SIZE <==> i % SIZE == (head - tail) % SIZE
  {}

  lemma FirstSlot(head: word, tail: word)
    requires head != tail
    ensures Wrap(head - tail) > 0 && Wrap(head - Wrap(tail + 1)) == Wrap(head - tail) - 1
    ensures Wrap(tail + 0) == tail
  {}

  lemma Emptiness(head: word, tail: word)
    ensures Wrap(head - tail) == 0 <==> head == tail
  {}

  lemma SlotsShift(buf: seq<byte>, tail: word, n: nat)
    requires |buf| == SIZE && n > 0
    ensures Slots(buf, Wrap(tail + 1), n - 1) == Slots(buf, tail, n)[1..]
  {
    var s, t := Slots(buf, Wrap(tail + 1), n - 1), Slots(buf, tail, n)[1..];
    forall i | 0 <= i < n - 1 ensures s[i] == t[i] { ShiftSlot(tail, i); }
  }

  lemma ShiftSlot(tail: word, i: nat)
    ensures Wrap(Wrap(tail + 1) + i) == Wrap(tail + (i + 1))
  {}

  lemma CountWraps(n: nat)
    ensures Wrap(Wrap(n) + 1) == Wrap(n + 1)
  {}

  // ----- every interleaving -----

  /** Everything the mainline stored, in order. */
  function Queued(events: seq<Event>): seq<byte> {
    if events == [] then []
    else
      var last := events[|events| - 1];
      Queued(events[..|events| - 1]) + if last.Store? then [last.c] else []
  }

  /** What the buffer holds: the queue, and the byte the head does not cover yet. */
  function Held(s: Driver): seq<byte> {
    s.pending + if s.staged.Some? then [s.staged.value] else []
  }

  /** The mainline's bound: it stores only into a ring with a free slot. */
  predicate Roomy(s: Driver, e: Event) { e.Store? ==> |s.pending| < SIZE }

  predicate RoomyRun(s: Driver, events: seq<Event>) {
    events == []
    || (RoomyRun(s, events[..|events| - 1]) && Roomy(Run(s, events[..|events| - 1]), events[|events| - 1]))
  }

  function Interrupts(events: seq<Event>): nat {
    if events == [] then 0
    else Interrupts(events[..|events| - 1]) + if events[|events| - 1].Irq? then 1 else 0
  }

  function Finishes(events: seq<Event>): nat {
    if events == [] then 0
    else Finishes(events[..|events| - 1]) + if events[|events| - 1].Finish? then 1 else 0
  }

  /** First in, first out, and nothing lost: for any interleaving of storing, publishing, arming, interrupts and
      the transmitter, the bytes handed over and the bytes still in the ring are what was stored, in order. */
  lemma {:induction false} Fifo(s: Driver, events: seq<Event>)
    requires PossibleRun(s, events) && RoomyRun(s, events) && |Held(s)| <= SIZE
    ensures var t := Run(s, events);
            && t.line + Held(t) == s.line + Held(s) + Queued(events)
            && t.lost == s.lost
            && |Held(t)| <= SIZE
  {
    if events == [] {
      assert s.line + Held(s) + [] == s.line + Held(s);
    } else {
      var front, last := events[..|events| - 1], events[|events| - 1];
      Fifo(s, front);
      var t := Run(s, front);
      LastPossible(s, events);
      RunSnoc(s, events);
      hide Run, PossibleRun, RoomyRun, Possible, Roomy, Held;
      HandedOver(t, last);
      Joined(s.line + Held(s), Queued(front), if last.Store? then [last.c] else []);
    }
  }

  lemma Joined(a: seq<byte>, b: seq<byte>, c: seq<byte>)
    ensures a + b + c == a + (b + c)
  {}

  lemma LastPossible(s: Driver, events: seq<Event>)
    requires events != [] && PossibleRun(s, events)
    ensures Possible(Run(s, events[..|events| - 1]), events[|events| - 1])
    ensures PossibleRun(s, events[..|events| - 1])
    ensures RoomyRun(s, events) ==> RoomyRun(s, events[..|events| - 1])
    ensures RoomyRun(s, events) ==> Roomy(Run(s, events[..|events| - 1]), events[|events| - 1])
  {}

  lemma RunSnoc(s: Driver, events: seq<Event>)
    requires events != []
    ensures Run(s, events) == Next(Run(s, events[..|events| - 1]), events[|events| - 1])
  {}

  lemma HandedOver(t: Driver, e: Event)
    requires Possible(t, e) && Roomy(t, e) && |Held(t)| <= SIZE
    ensures Next(t, e).line + Held(Next(t, e)) == t.line + Held(t) + if e.Store? then [e.c] else []
    ensures Next(t, e).lost == t.lost
    ensures |Held(Next(t, e))| <= SIZE
  {
    match e
    case Store(c) =>
    case Publish =>
    case Irq =>
      if t.pending != [] {
        var after := if t.staged.Some? then [t.staged.value] else [];
        assert t.line + [t.pending[0]] + (t.pending[1..] + after) == t.line + (t.pending + after);
      }
    case Arm =>
    case Finish =>
  }

  /** What the mainline arms: n bytes queued, the transmitter idle or still on an earlier byte. */
  predicate Armed(s: Driver) { s.armed && !s.done && s.irqs == 0 }

  predicate OnlyDraining(events: seq<Event>) {
    forall i :: 0 <= i < |events| ==> events[i].Irq? || events[i].Finish?
  }

  /** Interrupts a transfer of n bytes takes: one per byte, and one even for none. */
  function Needed(n: nat): nat { if n == 0 then 1 else n }

  // After k interrupts of a transfer started from s.
  predicate Drained(s: Driver, t: Driver, k: nat) {
    && k <= Needed(|s.pending|)
    && t.irqs == k
    && (t.done <==> k == Needed(|s.pending|)) && (t.armed <==> !t.done)
    && t.lost == s.lost
    && (if s.pending == [] then t.pending == [] && t.line == s.line
        else k <= |s.pending| && t.pending == s.pending[k..] && t.line == s.line + s.pending[..k])
  }

  lemma DrainStep(s: Driver, t: Driver, k: nat, e: Event)
    requires Drained(s, t, k) && Possible(t, e) && (e.Irq? || e.Finish?)
    ensures Drained(s, Next(t, e), k + if e.Irq? then 1 else 0)
  {
    if e.Irq? && s.pending != [] {
      assert t.pending[0] == s.pending[k] && t.pending[1..] == s.pending[k + 1..];
      assert s.line + s.pending[..k] + [s.pending[k]] == s.line + s.pending[..k + 1];
    }
  }

  /** With nothing queued after arming, the transfer is a countdown: after k interrupts exactly the first k
      bytes have been handed over, and it is done exactly when one interrupt per byte has been taken. */
  lemma {:induction false} Drains(s: Driver, events: seq<Event>)
    requires Armed(s) && PossibleRun(s, events) && OnlyDraining(events)
    ensures Drained(s, Run(s, events), Interrupts(events))
  {
    if events == [] {
      assert s.line + s.pending[..0] == s.line;
    } else {
      var front, last := events[..|events| - 1], events[|events| - 1];
      Drains(s, front);
      LastPossible(s, events);
      RunSnoc(s, events);
      DrainStep(s, Run(s, front), Interrupts(front), last);
      hide Drained, Run, PossibleRun, Possible;
    }
  }

  /** The two checks of the program: the transfer is reported done only with every byte handed over in order,
      and then the interrupt count is one per byte exactly when there was a byte to send. */
  lemma DoneMeansSent(s: Driver, events: seq<Event>)
    requires Armed(s) && PossibleRun(s, events) && OnlyDraining(events) && Run(s, events).done
    ensures var t := Run(s, events);
            && t.line == s.line + s.pending && t.pending == [] && t.lost == s.lost && !t.armed
            && (t.irqs == |s.pending| <==> s.pending != [])
  {
    Drains(s, events);
    hide Run, PossibleRun;
    assert s.pending[..|s.pending|] == s.pending;
    assert s.line + [] == s.line;
  }

  predicate Stalled(t: Driver) { !Possible(t, Irq) && !Possible(t, Finish) }

  /** It does finish: until it is done something can happen, and no run of interrupts and completed bytes is
      longer than two per byte and one. */
  lemma DrainFinishes(s: Driver, events: seq<Event>)
    requires Armed(s) && PossibleRun(s, events) && OnlyDraining(events)
    ensures |events| <= 2 * Needed(|s.pending|) + 1
    ensures Stalled(Run(s, events)) ==> Run(s, events).done
  {
    Drains(s, events);
    FinishesFollow(s, events);
    hide Run, PossibleRun;
  }

  lemma {:induction false} FinishesFollow(s: Driver, events: seq<Event>)
    requires PossibleRun(s, events) && OnlyDraining(events)
    ensures |events| == Interrupts(events) + Finishes(events)
    ensures Finishes(events) + (if Run(s, events).busy then 1 else 0) <= Interrupts(events) + if s.busy then 1 else 0
  {
    if events != [] {
      var front, last := events[..|events| - 1], events[|events| - 1];
      FinishesFollow(s, front);
      LastPossible(s, events);
      RunSnoc(s, events);
      assert last == events[|events| - 1] && (last.Irq? || last.Finish?);
      hide Run, PossibleRun;
    }
  }

  /** Nothing is sent once the interrupt is off: bytes queued afterwards stay in the ring until it is armed
      again. */
  lemma {:induction false} DisarmedKeepsRing(s: Driver, events: seq<Event>)
    requires !s.armed && PossibleRun(s, events) && RoomyRun(s, events) && |Held(s)| <= SIZE
    requires forall i :: 0 <= i < |events| ==> !events[i].Arm?
    ensures var t := Run(s, events);
            !t.armed && t.line == s.line && Held(t) == Held(s) + Queued(events)
  {
    NeverArmed(s, events);
    Fifo(s, events);
    var t := Run(s, events);
    assert (t.line + Held(t))[|s.line|..] == Held(t);
    assert s.line + Held(s) + Queued(events) == s.line + (Held(s) + Queued(events));
    assert (s.line + (Held(s) + Queued(events)))[|s.line|..] == Held(s) + Queued(events);
  }

  lemma {:induction false} NeverArmed(s: Driver, events: seq<Event>)
    requires !s.armed && PossibleRun(s, events)
    requires forall i :: 0 <= i < |events| ==> !events[i].Arm?
    ensures !Run(s, events).armed && Run(s, events).line == s.line
  {
    if events != [] {
      NeverArmed(s, events[..|events| - 1]);
      LastPossible(s, events);
      RunSnoc(s, events);
      assert !events[|events| - 1].Arm?;
      hide Run, PossibleRun;
    }
  }

  /** Without the mainline's bound: a queued byte joins the queue and leaves the rest alone exactly when no older
      byte in its slot differs from it; a ring with a free slot holds none, and the oldest of a full one is lost. */
  lemma QueueExact(s: Driver, c: byte)
    requires |s.pending| + 1 < 0x1_0000_0000
    ensures var t := Next(Next(s, Store(c)), Publish);
            && (t.pending == s.pending + [c]
                <==> forall i :: 0 <= i < |s.pending| && i % SIZE == |s.pending| % SIZE ==> s.pending[i] == c)
            && (|s.pending| < 128 ==> t.pending == s.pending + [c])
            && (|s.pending| == 128 ==> t.pending == [c] + s.pending[1..] + [c])
  {
    var r := Stored(s.pending, c);
    var t := Next(Next(s, Store(c)), Publish);
    assert t.pending == r + [c] && t.pending[..|r|] == r && (s.pending + [c])[..|r|] == s.pending;
    if t.pending == s.pending + [c] {
      forall i | 0 <= i < |r| && i % SIZE == |r| % SIZE ensures s.pending[i] == c { assert r[i] == c; }
    }
  }

  // ----- the program -----

  /** The interrupt or the end of a byte, where the hardware can raise it; nothing happens otherwise. */
  function Play(s: Driver, ticks: seq<Event>): Driver {
    if ticks == [] then s
    else
      var t, last := Play(s, ticks[..|ticks| - 1]), ticks[|ticks| - 1];
      if Possible(t, last) then Next(t, last) else t
  }

  lemma {:induction false} PlayRuns(s: Driver, ticks: seq<Event>) returns (events: seq<Event>)
    requires OnlyDraining(ticks)
    ensures PossibleRun(s, events) && OnlyDraining(events) && Run(s, events) == Play(s, ticks)
  {
    if ticks == [] {
      events := [];
    } else {
      var last := ticks[|ticks| - 1];
      var front := PlayRuns(s, ticks[..|ticks| - 1]);
      events := front;
      if Possible(Run(s, front), last) {
        events := front + [last];
        assert events[..|events| - 1] == front;
      }
      hide Possible, Next;
    }
  }

  method QueueMessage(msg: seq<byte>) returns (ring: Ring)
    requires |msg| <= SIZE
    ensures fresh(ring) && fresh(ring.txbuf) && ring.Valid()
    ensures ring.State() == Driver(msg, None, false, false, 0, false, [], 0)
  {
    ring := new Ring();
    for i := 0 to |msg|
      invariant fresh(ring) && fresh(ring.txbuf) && ring.Valid()
      invariant ring.State() == Driver(msg[..i], None, false, false, 0, false, [], 0)
    {
      ring.TxQueue(msg[i]);
      assert msg[..i] + [msg[i]] == msg[..i + 1];
    }
    assert msg[..|msg|] == msg;
  }

  method TakeTick(ring: Ring, tick: Event)
    requires ring.Valid() && (tick.Irq? || tick.Finish?)
    modifies ring
    ensures ring.Valid()
    ensures var s := old(ring.State()); ring.State() == if Possible(s, tick) then Next(s, tick) else s
  {
    if tick.Irq? && ring.etbei && !ring.busy {
      ring.Handler();
    } else if tick.Finish? && ring.busy {
      ring.ByteFinished();
    }
  }

  // Take the ticks as they come.
  method TakeTicks(ring: Ring, ticks: seq<Event>)
    requires ring.Valid() && OnlyDraining(ticks)
    modifies ring
    ensures ring.Valid() && ring.State() == Play(old(ring.State()), ticks)
  {
    hide Possible, Next, Ring.Contents, Ring.State, Ring.Valid, OnlyDraining;
    ghost var start := ring.State();
    PlayOn(start, [], Finish);
    for i := 0 to |ticks|
      invariant ring.Valid() && ring.State() == Play(start, ticks[..i])
      modifies ring
    {
      assert ticks[..i + 1] == ticks[..i] + [ticks[i]];
      PlayOn(start, ticks[..i], ticks[i]);
      IsTick(ticks, i);
      TakeTick(ring, ticks[i]);
    }
    assert ticks[..|ticks|] == ticks;
  }

  lemma PlayOn(s: Driver, ticks: seq<Event>, e: Event)
    ensures Play(s, []) == s
    ensures Play(s, ticks + [e])
         == if Possible(Play(s, ticks), e) then Next(Play(s, ticks), e) else Play(s, ticks)
  {
    assert (ticks + [e])[..|ticks|] == ticks;
    hide Possible, Next;
  }

  /** Queue the message, arm, and look at what the hardware has done in the meantime: a transfer seen done has put
      the whole message on the line, and one not done has handed over one byte per interrupt so far. */
  method SendMessage(msg: seq<byte>, ticks: seq<Event>) returns (done: bool, count: word, line: seq<byte>)
    requires |msg| <= SIZE && OnlyDraining(ticks)
    ensures var t := Play(Driver(msg, None, true, false, 0, false, [], 0), ticks);
            done == t.done && count == Wrap(t.irqs) && line == t.line
    ensures done ==> line == msg && count == Needed(|msg|)
    ensures !done ==> count < Needed(|msg|) && line == msg[..count]
  {
    hide Possible, Next, Play, Ring.Contents, OnlyDraining, Ring.State, Ring.Valid;
    var ring := QueueMessage(msg);
    ring.ArmInterrupt();
    ArmedWith(msg);
    TakeTicks(ring, ticks);
    done, count, line := ring.done, ring.irqCount, ring.line;
    ring.Shows();
    PlayDrained(msg, ticks);
  }

  lemma ArmedWith(msg: seq<byte>)
    ensures Next(Driver(msg, None, false, false, 0, false, [], 0), Arm)
         == Driver(msg, None, true, false, 0, false, [], 0)
  {}

  lemma IsTick(ticks: seq<Event>, i: nat)
    requires OnlyDraining(ticks) && i < |ticks|
    ensures ticks[i].Irq? || ticks[i].Finish?
  {}

  lemma PlayDrained(msg: seq<byte>, ticks: seq<Event>)
    requires |msg| <= SIZE && OnlyDraining(ticks)
    ensures var t := Play(Driver(msg, None, true, false, 0, false, [], 0), ticks);
            && t.irqs <= SIZE
            && (t.done ==> t.line == msg && t.irqs == Needed(|msg|))
            && (!t.done ==> t.irqs < Needed(|msg|) && t.irqs <= |msg| && t.line == msg[..t.irqs])
  {
    var start := Driver(msg, None, true, false, 0, false, [], 0);
    var events := PlayRuns(start, ticks);
    Drains(start, events);
    hide Play, Run, PossibleRun, OnlyDraining;
    assert msg[..|msg|] == msg;
  }
}
