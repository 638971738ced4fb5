/** The serial receiver: hunt for a falling edge, then sample each data bit in the middle of its
    window, for any number of clocks per bit.  It decodes every sequence of 8N1 frames, with any gaps,
    exactly when the sender's bit length passes two inequalities. */
module UartRx {
  import opened Powers

  // ----- the receiver -----

  function Mask(b: nat): bv8 {
    if b == 0 then 1 else if b == 1 then 2 else if b == 2 then 4 else if b == 3 then 8
    else if b == 4 then 16 else if b == 5 then 32 else if b == 6 then 64 else if b == 7 then 128 else 0
  }

  predicate Bit(v: bv8, b: nat) { v & Mask(b) != 0 }

  function SetBit(v: bv8, b: nat): bv8 { v | Mask(b) }

  /** Clocks from the falling edge to the sample of data bit b. */
  function SampleAt(c: nat, b: nat): nat { 3 * c / 2 + b * c }

  datatype Rx = Rx(idle: bool, prev: bool, cnt: nat, bit: nat, byte: bv8)

  const RESET := Rx(true, true, 0, 0, 0)

  /** One sample; a frame's byte comes out with the sample of its last bit. */
  function Sample(c: nat, s: Rx, tx: bool): (Rx, seq<bv8>) {
    if s.idle then
      if s.prev && !tx then (Rx(false, tx, 0, 0, 0), []) else (s.(prev := tx), [])
    else if s.cnt + 1 == SampleAt(c, s.bit) then
      var value := if tx then SetBit(s.byte, s.bit) else s.byte;
      if s.bit + 1 == 8 then (Rx(true, tx, s.cnt + 1, 8, value), [value])
      else (Rx(false, tx, s.cnt + 1, s.bit + 1, value), [])
    else (s.(cnt := s.cnt + 1, prev := tx), [])
  }

  function Samples(c: nat, s: Rx, line: seq<bool>): (Rx, seq<bv8>) {
    if line == [] then (s, [])
    else
      var (s1, out) := Samples(c, s, line[..|line| - 1]);
      var (s2, more) := Sample(c, s1, line[|line| - 1]);
      (s2, out + more)
  }

  class Receiver {
    const clksPerBit: nat
    var idle: bool
    var prev: bool
    var cnt: nat
    var bit: nat
    var byte: bv8
    var received: seq<bv8>      // where completed bytes go: the console checker, the terminal

    constructor (clksPerBit: nat)
      ensures this.clksPerBit == clksPerBit && State() == RESET && received == []
    {
      this.clksPerBit := clksPerBit;
      idle, prev, cnt, bit, byte, received := true, true, 0, 0, 0, [];
    }

    function State(): Rx
      reads this
    {
      Rx(idle, prev, cnt, bit, byte)
    }

    method TakeSample(tx: bool)
      modifies this
      ensures State() == Sample(clksPerBit, old(State()), tx).0
      ensures received == old(received) + Sample(clksPerBit, old(State()), tx).1
    {
      hide SetBit, SampleAt;
      if idle {
        if prev && !tx { idle, cnt, bit, byte := false, 0, 0, 0; }
      } else {
        cnt := cnt + 1;
        if cnt == SampleAt(clksPerBit, bit) {
          if tx { byte := SetBit(byte, bit); }
          bit := bit + 1;
          if bit == 8 {
            idle := true;
            received := received + [byte];
          }
        }
      }
      prev := tx;
    }
  }

  lemma {:induction false} SamplesSplit(c: nat, s: Rx, a: seq<bool>, b: seq<bool>)
    ensures Samples(c, s, a + b).0 == Samples(c, Samples(c, s, a).0, b).0
    ensures Samples(c, s, a + b).1 == Samples(c, s, a).1 + Samples(c, Samples(c, s, a).0, b).1
  {
    hide Sample;
    if b == [] {
      assert a + b == a;
    } else {
      var front := b[..|b| - 1];
      assert (a + b)[..|a + b| - 1] == a + front;
      SamplesSplit(c, s, a, front);
    }
  }

  // ----- one frame, whatever is on the line -----

  lemma SamplePoints(c: nat, b: nat)
    ensures SampleAt(c, b + 1) == SampleAt(c, b) + c
    ensures c > 0 ==> SampleAt(c, b) > 0
  {
    assert (b + 1) * c == b * c + c;
  }

  lemma {:induction false} SamplePointsGrow(c: nat, i: nat, j: nat)
    requires i <= j
    ensures SampleAt(c, i) + (j - i) * c == SampleAt(c, j)
  {
    assert j * c == i * c + (j - i) * c;
  }

  lemma SamplePointsOrdered(c: nat, i: nat, j: nat)
    requires i <= j
    ensures SampleAt(c, i) <= SampleAt(c, j)
  {
    SamplePointsGrow(c, i, j);
    hide SampleAt;
    assert (j - i) * c >= 0;
  }

  /** The line at time t; it reads low where nothing is given. */
  predicate At(line: seq<bool>, t: nat) { t < |line| && line[t] }

  /** What the first k sample points of a line starting at a falling edge spell. */
  function Sampled(c: nat, line: seq<bool>, k: nat): bv8 {
    if k == 0 then 0
    else
      var before := Sampled(c, line, k - 1);
      if At(line, SampleAt(c, k - 1)) then SetBit(before, k - 1) else before
  }

  // After the sample at time t of the frame, with the first k data bits taken.
  ghost predicate Midframe(c: nat, line: seq<bool>, t: nat, k: nat, s: Rx) {
    s == Rx(false, At(line, t), t, k, Sampled(c, line, k))
  }

  lemma SamplesSnoc(c: nat, s: Rx, line: seq<bool>, t: nat)
    requires t < |line|
    ensures var (s1, out) := Samples(c, s, line[..t]);
            Samples(c, s, line[..t + 1]) == (Sample(c, s1, At(line, t)).0, out + Sample(c, s1, At(line, t)).1)
  {
    hide Sample;
    var here := line[..t + 1];
    assert here[..|here| - 1] == line[..t];
  }

  lemma FirstEdge(c: nat, s: Rx, line: seq<bool>)
    requires s.idle && s.prev && line != [] && !line[0]
    ensures Midframe(c, line, 0, 0, Samples(c, s, line[..1]).0) && Samples(c, s, line[..1]).1 == []
  {
    SamplesSnoc(c, s, line, 0);
    assert line[..0] == [];
    assert Samples(c, s, []) == (s, []);
  }

  /** Between sample points nothing is taken; at one, its bit is. */
  lemma {:induction false} Advance(c: nat, s: Rx, line: seq<bool>, t: nat, k: nat)
    requires c > 0 && s.idle && s.prev && line != [] && !line[0]
    requires k < 8 && t < |line| && t < SampleAt(c, k) && (k > 0 ==> SampleAt(c, k - 1) <= t)
    ensures Midframe(c, line, t, k, Samples(c, s, line[..t + 1]).0) && Samples(c, s, line[..t + 1]).1 == []
    decreases t
  {
    hide SampleAt, Samples, SetBit, At;
    if k > 0 { SamplePoints(c, k - 1); }
    if k > 1 { SamplePoints(c, k - 2); }
    if t == 0 {
      FirstEdge(c, s, line);
    } else {
      var j := if k > 0 && SampleAt(c, k - 1) == t then k - 1 else k;
      Advance(c, s, line, t - 1, j);
      SamplesSnoc(c, s, line, t);
    }
  }

  /** From idle, on any line that falls and is long enough, exactly one byte comes out by the last
      sample point: the one the eight sample points spell. */
  lemma FrameSampled(c: nat, s: Rx, line: seq<bool>)
    requires c > 0 && s.idle && s.prev && |line| > SampleAt(c, 7) && !line[0]
    ensures var last := SampleAt(c, 7);
            var (s1, out) := Samples(c, s, line[..last + 1]);
            s1.idle && s1.prev == line[last] && out == [Sampled(c, line, 8)]
  {
    hide SampleAt, Samples, SetBit;
    var last := SampleAt(c, 7);
    SamplePoints(c, 6);
    SamplePoints(c, 7);
    Advance(c, s, line, last - 1, 7);
    SamplesSnoc(c, s, line, last);
  }

  // ----- bytes and their bits -----

  function Low(k: nat): bv8 {
    if k == 0 then 0 else if k == 1 then 1 else if k == 2 then 3 else if k == 3 then 7 else if k == 4 then 15
    else if k == 5 then 31 else if k == 6 then 63 else if k == 7 then 127 else 255
  }

  function And(v: bv8, w: bv8): bv8 { v & w }

  lemma NoBits(v: bv8)
    ensures And(v, Low(0)) == 0
  {}

  lemma AllBits(v: bv8)
    ensures And(v, Low(8)) == v
  {}

  lemma LowGrows(v: bv8, w: bv8, k: nat)
    requires k < 8
    ensures And(v, Low(k)) == And(w, Low(k)) && (Bit(v, k) <==> Bit(w, k))
       <==> And(v, Low(k + 1)) == And(w, Low(k + 1))
  {}

  lemma SetBitBits(v: bv8, k: nat)
    requires k < 8 && v == And(v, Low(k))
    ensures !Bit(v, k) && Bit(SetBit(v, k), k)
    ensures And(SetBit(v, k), Low(k)) == v && SetBit(v, k) == And(SetBit(v, k), Low(k + 1))
    ensures v == And(v, Low(k + 1))
  {}

  /** Eight samples spell v exactly when each is v's bit. */
  lemma {:induction false} SpellsLow(c: nat, line: seq<bool>, v: bv8, k: nat)
    requires k <= 8
    ensures Sampled(c, line, k) == And(Sampled(c, line, k), Low(k))
    ensures Sampled(c, line, k) == And(v, Low(k))
        <==> forall b :: 0 <= b < k ==> (At(line, SampleAt(c, b)) <==> Bit(v, b))
  {
    hide Bit, SetBit, And, Low, SampleAt, At;
    if k == 0 {
      NoBits(v);
      NoBits(0);
    } else {
      SpellsLow(c, line, v, k - 1);
      SetBitBits(Sampled(c, line, k - 1), k - 1);
      LowGrows(Sampled(c, line, k), v, k - 1);
    }
  }

  lemma SpellsExactly(c: nat, line: seq<bool>, v: bv8)
    ensures Sampled(c, line, 8) == v <==> forall b :: 0 <= b < 8 ==> (At(line, SampleAt(c, b)) <==> Bit(v, b))
  {
    hide *;
    SpellsLow(c, line, v, 8);
    AllBits(v);
  }

  // ----- frames on the line -----

  /** The level t clocks into an 8N1 frame of v, each bit d clocks long: start, eight bits, stop. */
  predicate Level(v: bv8, d: nat, t: nat) {
    if t < d then false
    else if t < 2 * d then Bit(v, 0)
    else if t < 3 * d then Bit(v, 1)
    else if t < 4 * d then Bit(v, 2)
    else if t < 5 * d then Bit(v, 3)
    else if t < 6 * d then Bit(v, 4)
    else if t < 7 * d then Bit(v, 5)
    else if t < 8 * d then Bit(v, 6)
    else if t < 9 * d then Bit(v, 7)
    else true
  }

  /** A frame and then `gap` clocks of idle line. */
  function Frame(v: bv8, d: nat, gap: nat): (line: seq<bool>)
    ensures |line| == 10 * d + gap
  {
    seq(10 * d + gap, (t: nat) => Level(v, d, t))
  }

  datatype Sent = Sent(value: bv8, gap: nat)

  function Line(sent: seq<Sent>, d: nat): seq<bool> {
    if sent == [] then []
    else
      var last := sent[|sent| - 1];
      Line(sent[..|sent| - 1], d) + Frame(last.value, d, last.gap)
  }

  function Values(sent: seq<Sent>): seq<bv8> {
    seq(|sent|, i requires 0 <= i < |sent| => sent[i].value)
  }

  /** Where the first and the last sample must fall in the sender's frame: inside data bits 0 and 7. */
  predicate InTolerance(c: nat, d: nat) {
    d <= SampleAt(c, 0) < 2 * d && 8 * d <= SampleAt(c, 7) < 9 * d
  }

  /** Time t falls in data bit b of a frame. */
  predicate InBit(d: nat, b: nat, t: nat) { (b + 1) * d <= t < (b + 2) * d }

  /** The two end bits settle the six between them. */
  lemma EndBitsSettleAll(c: nat, d: nat)
    ensures InTolerance(c, d) <==> forall b :: 0 <= b < 8 ==> InBit(d, b, SampleAt(c, b))
  {
    if forall b :: 0 <= b < 8 ==> InBit(d, b, SampleAt(c, b)) {
      assert InBit(d, 0, SampleAt(c, 0)) && InBit(d, 7, SampleAt(c, 7));
    }
    if InTolerance(c, d) {
      forall b | 0 <= b < 8 ensures InBit(d, b, SampleAt(c, b)) { BitBetween(c, d, b); }
    }
  }

  lemma BitBetween(c: nat, d: nat, b: nat)
    requires b < 8 && InTolerance(c, d)
    ensures InBit(d, b, SampleAt(c, b))
  {
    SamplePointsGrow(c, 0, b);
    SamplePointsGrow(c, b, 7);
    var first, x, last := SampleAt(c, 0), SampleAt(c, b), SampleAt(c, 7);
    hide SampleAt;
    if b == 0 {} else if b == 1 {} else if b == 2 {} else if b == 3 {}
    else if b == 4 {} else if b == 5 {} else if b == 6 {} else {}
  }

  lemma LevelInBit(v: bv8, d: nat, b: nat, t: nat)
    requires b < 8 && InBit(d, b, t)
    ensures Level(v, d, t) <==> Bit(v, b)
  {
    hide Bit;
    if b == 0 {} else if b == 1 {} else if b == 2 {} else if b == 3 {}
    else if b == 4 {} else if b == 5 {} else if b == 6 {} else {}
  }

  /** Data bit b has weight 2^b: what is set when it is taken, and what is sent for it. */
  lemma BitIsBinary(v: bv8, b: nat)
    requires b < 8
    ensures Bit(v, b) <==> (v as nat) / Power(b) % 2 == 1
    ensures SetBit(0, b) as nat == Power(b)
  {
    LowPowers();
    hide Power;
    if b == 0 { Bit0(v); } else if b == 1 { Bit1(v); } else if b == 2 { Bit2(v); } else if b == 3 { Bit3(v); }
    else if b == 4 { Bit4(v); } else if b == 5 { Bit5(v); } else if b == 6 { Bit6(v); } else { Bit7(v); }
    hide Bit;
  }

  lemma LowPowers()
    ensures Power(0) == 1 && Power(1) == 2 && Power(2) == 4 && Power(3) == 8
    ensures Power(4) == 16 && Power(5) == 32 && Power(6) == 64 && Power(7) == 128
  {
    assert Power(1) == 2 * Power(0) && Power(2) == 2 * Power(1) && Power(3) == 2 * Power(2);
    assert Power(4) == 2 * Power(3) && Power(5) == 2 * Power(4) && Power(6) == 2 * Power(5) && Power(7) == 2 * Power(6);
  }

  lemma Bit0(v: bv8)
    ensures Bit(v, 0) <==> (v as nat) / 1 % 2 == 1
  {}

  lemma Bit1(v: bv8)
    ensures Bit(v, 1) <==> (v as nat) / 2 % 2 == 1
  {}

  lemma Bit2(v: bv8)
    ensures Bit(v, 2) <==> (v as nat) / 4 % 2 == 1
  {}

  lemma Bit3(v: bv8)
    ensures Bit(v, 3) <==> (v as nat) / 8 % 2 == 1
  {}

  lemma Bit4(v: bv8)
    ensures Bit(v, 4) <==> (v as nat) / 16 % 2 == 1
  {}

  lemma Bit5(v: bv8)
    ensures Bit(v, 5) <==> (v as nat) / 32 % 2 == 1
  {}

  lemma Bit6(v: bv8)
    ensures Bit(v, 6) <==> (v as nat) / 64 % 2 == 1
  {}

  lemma Bit7(v: bv8)
    ensures Bit(v, 7) <==> (v as nat) / 128 % 2 == 1
  {}

  /** A frame on the line, in numbers: low for a bit, the eight bits of the value from the lowest up, high for a
      bit. */
  lemma FrameLevels(v: bv8, d: nat, t: nat)
    requires t < 10 * d
    ensures t < d ==> !Level(v, d, t)
    ensures forall b :: 0 <= b < 8 && (b + 1) * d <= t < (b + 2) * d ==>
              (Level(v, d, t) <==> (v as nat) / Power(b) % 2 == 1)
    ensures t >= 9 * d ==> Level(v, d, t)
  {
    hide Bit, Power;
    forall b | 0 <= b < 8 && (b + 1) * d <= t < (b + 2) * d
      ensures Level(v, d, t) <==> (v as nat) / Power(b) % 2 == 1
    {
      LevelInBit(v, d, b, t);
      BitIsBinary(v, b);
    }
  }

  /** The tolerance, in clocks per bit alone. */
  lemma ToleranceInClocks(c: nat, d: nat)
    ensures InTolerance(c, d) <==> d <= 3 * c / 2 < 2 * d && 8 * d <= 3 * c / 2 + 7 * c < 9 * d
  {}

  lemma LevelEnds(v: bv8, d: nat, t: nat)
    ensures t < d ==> !Level(v, d, t)
    ensures t >= 9 * d ==> t < d || Level(v, d, t)
  {}

  // ----- after the last sample: no falling edge before the next frame -----

  predicate NeverFalls(prev: bool, line: seq<bool>) {
    && (prev ==> forall i :: 0 <= i < |line| ==> line[i])
    && forall i, j :: 0 <= i < j < |line| && line[i] ==> line[j]
  }

  lemma {:induction false} IdleThrough(c: nat, s: Rx, line: seq<bool>)
    requires s.idle && NeverFalls(s.prev, line)
    ensures var (s1, out) := Samples(c, s, line);
            s1 == s.(prev := if line == [] then s.prev else line[|line| - 1]) && out == []
  {
    if line != [] {
      var front := line[..|line| - 1];
      assert line[|line| - 1] || front == [] || !front[|front| - 1];
      IdleThrough(c, s, front);
    }
  }

  // The receiver is between frames, and will see the next start bit.
  predicate Ready(s: Rx) { s.idle && s.prev }

  lemma TailNeverFalls(v: bv8, d: nat, gap: nat, from: nat)
    requires d > 0 && 8 * d <= from < 9 * d
    ensures var line := Frame(v, d, gap);
            NeverFalls(line[from], line[from + 1..])
  {
    hide Bit;
    var line := Frame(v, d, gap);
    assert forall t :: 8 * d <= t < |line| ==> line[t] == if t < 9 * d then Bit(v, 7) else true;
  }

  /** One frame with any gap after it gives its byte and leaves the receiver ready, though it stopped
      listening part-way through the last data bit. */
  lemma FrameDecodes(c: nat, d: nat, s: Rx, v: bv8, gap: nat)
    requires c > 0 && d > 0 && InTolerance(c, d) && Ready(s)
    ensures var (s1, out) := Samples(c, s, Frame(v, d, gap));
            Ready(s1) && out == [v]
  {
    hide Samples, Sampled, Level, Bit, NeverFalls;
    var line := Frame(v, d, gap);
    var last := SampleAt(c, 7);
    LevelEnds(v, d, 0);
    LevelEnds(v, d, |line| - 1);
    FrameSampled(c, s, line);
    EndBitsSettleAll(c, d);
    forall b | 0 <= b < 8 ensures At(line, SampleAt(c, b)) <==> Bit(v, b) {
      assert InBit(d, b, SampleAt(c, b));
      SamplePointsOrdered(c, b, 7);
      LevelInBit(v, d, b, SampleAt(c, b));
    }
    SpellsExactly(c, line, v);
    TailNeverFalls(v, d, gap, last);
    var s1 := Samples(c, s, line[..last + 1]).0;
    IdleThrough(c, s1, line[last + 1..]);
    SamplesSplit(c, s, line[..last + 1], line[last + 1..]);
    assert line[..last + 1] + line[last + 1..] == line;
  }

  /** Any sequence of frames with any gaps, none included, is decoded exactly. */
  lemma {:induction false} LineDecodes(c: nat, d: nat, s: Rx, sent: seq<Sent>)
    requires c > 0 && d > 0 && InTolerance(c, d) && Ready(s)
    ensures var (s1, out) := Samples(c, s, Line(sent, d));
            Ready(s1) && out == Values(sent)
  {
    hide InTolerance, Ready, Frame, Samples;
    if sent == [] {
      NothingHeard(c, s);
    } else {
      var front, last := sent[..|sent| - 1], sent[|sent| - 1];
      LineDecodes(c, d, s, front);
      var s1 := Samples(c, s, Line(front, d)).0;
      FrameDecodes(c, d, s1, last.value, last.gap);
      SamplesSplit(c, s, Line(front, d), Frame(last.value, d, last.gap));
      assert Values(sent) == Values(front) + [last.value];
    }
  }

  lemma NothingHeard(c: nat, s: Rx)
    ensures Samples(c, s, []) == (s, [])
  {}

  // ----- outside the tolerance -----

  lemma OneBit(b: nat, b': nat)
    requires b < 8 && b' < 8
    ensures Bit(Mask(b), b') <==> b == b'
  {}

  /** A sample outside its bit's window reads the wrong level for some byte: the one with only that bit
      set, or no bit at all if the sample is past the data bits. */
  lemma WrongWindow(c: nat, d: nat, b: nat, gap: nat) returns (v: bv8)
    requires b < 8 && !InBit(d, b, SampleAt(c, b)) && gap > SampleAt(c, 7)
    ensures var t := SampleAt(c, b);
            t < |Frame(v, d, gap)| && (At(Frame(v, d, gap), t) <==> !Bit(v, b))
  {
    var t := SampleAt(c, b);
    SamplePointsOrdered(c, b, 7);
    hide SampleAt;
    if t >= 9 * d {
      v := 0;
      NoBitSet(b);
      hide Bit;
    } else {
      v := Mask(b);
      OneBit(b, 0); OneBit(b, 1); OneBit(b, 2); OneBit(b, 3);
      OneBit(b, 4); OneBit(b, 5); OneBit(b, 6); OneBit(b, 7);
      hide Bit, Mask;
      if b == 0 {} else if b == 1 {} else if b == 2 {} else if b == 3 {}
      else if b == 4 {} else if b == 5 {} else if b == 6 {} else {}
    }
  }

  lemma NoBitSet(b: nat)
    ensures !Bit(0, b)
  {}

  /** Outside the tolerance some byte, sent alone on an otherwise idle line, comes out as another. */
  lemma Misread(c: nat, d: nat, s: Rx, gap: nat) returns (v: bv8)
    requires c > 0 && d > 0 && !InTolerance(c, d) && Ready(s) && gap > SampleAt(c, 7)
    ensures var out := Samples(c, s, Frame(v, d, gap)).1;
            out != [] && out[0] != v
  {
    hide Samples, Sampled, Level, Bit, InBit, SampleAt, At;
    EndBitsSettleAll(c, d);
    var b: nat :| b < 8 && !InBit(d, b, SampleAt(c, b));
    v := WrongWindow(c, d, b, gap);
    var line, last := Frame(v, d, gap), SampleAt(c, 7);
    LevelEnds(v, d, 0);
    FrameSampled(c, s, line);
    SpellsExactly(c, line, v);
    SamplesSplit(c, s, line[..last + 1], line[last + 1..]);
    assert line[..last + 1] + line[last + 1..] == line;
  }

  /** Every sequence of frames is decoded exactly if and only if the bit lengths are in tolerance. */
  lemma DecodesExactlyInTolerance(c: nat, d: nat)
    requires c > 0 && d > 0
    ensures InTolerance(c, d) <==> forall sent :: Samples(c, RESET, Line(sent, d)).1 == Values(sent)
  {
    if InTolerance(c, d) {
      forall sent ensures Samples(c, RESET, Line(sent, d)).1 == Values(sent) { LineDecodes(c, d, RESET, sent); }
    } else {
      var gap := SampleAt(c, 7) + 1;
      var v := Misread(c, d, RESET, gap);
      hide *;
      OneFrame(v, gap, d);
      var sent := [Sent(v, gap)];
      assert Samples(c, RESET, Line(sent, d)).1 != Values(sent);
    }
  }

  lemma OneFrame(v: bv8, gap: nat, d: nat)
    ensures Line([Sent(v, gap)], d) == Frame(v, d, gap)
    ensures Values([Sent(v, gap)]) == [v]
  {
    hide Frame;
    var sent := [Sent(v, gap)];
    assert sent[..0] == [];
    assert Line([], d) == [];
    assert Line(sent, d) == [] + Frame(v, d, gap);
  }

  /** A sender at the receiver's own rate is always in tolerance, from one clock per bit up. */
  lemma SameRate(c: nat)
    requires c > 0
    ensures InTolerance(c, c)
  {}
}
