/** What the pin levels mean, in numbers: which levels are which command, what the address and mask pins say, and
    one run over bare levels from power-up to the word read back. */
module SdramLevels {
  import opened Powers
  import opened SdramMachine

  // ----- commands -----

  /** The four control pins as a number, CS the highest. */
  function Code(p: Pins): nat {
    (if p.csN then 8 else 0) + (if p.rasN then 4 else 0) + (if p.casN then 2 else 0) + if p.weN then 1 else 0
  }

  /** Each command is its own four levels with the clock enabled, and everything else is no command. */
  lemma CommandCodes(p: Pins)
    ensures p.Cmd() == Mrs <==> p.cke && Code(p) == 0
    ensures p.Cmd() == Ref <==> p.cke && Code(p) == 1
    ensures p.Cmd() == Pre <==> p.cke && Code(p) == 2
    ensures p.Cmd() == Act <==> p.cke && Code(p) == 3
    ensures p.Cmd() == Wr <==> p.cke && Code(p) == 4
    ensures p.Cmd() == Rd <==> p.cke && Code(p) == 5
    ensures p.Cmd() == Bst <==> p.cke && Code(p) == 6
    ensures p.Cmd() == Nop <==> !p.cke || Code(p) >= 7
  {}

  /** The same, pin by pin. */
  lemma CommandLevels(p: Pins)
    ensures p.Cmd() == Mrs <==> p.cke && !p.csN && !p.rasN && !p.casN && !p.weN
    ensures p.Cmd() == Ref <==> p.cke && !p.csN && !p.rasN && !p.casN && p.weN
    ensures p.Cmd() == Pre <==> p.cke && !p.csN && !p.rasN && p.casN && !p.weN
    ensures p.Cmd() == Act <==> p.cke && !p.csN && !p.rasN && p.casN && p.weN
    ensures p.Cmd() == Wr <==> p.cke && !p.csN && p.rasN && !p.casN && !p.weN
    ensures p.Cmd() == Rd <==> p.cke && !p.csN && p.rasN && !p.casN && p.weN
    ensures p.Cmd() == Bst <==> p.cke && !p.csN && p.rasN && p.casN && !p.weN
    ensures p.Cmd() == Nop <==> !p.cke || p.csN || (p.rasN && p.casN && p.weN)
  {}

  // ----- the other pins -----

  lemma PowerNine()
    ensures Power(9) == 512 && Power(10) == 1024
  {
    PowerEight();
    assert Power(9) == 2 * Power(8) && Power(10) == 2 * Power(9);
    hide Power;
  }

  /** A9 and A10, the burst code in A2..A0, the CAS latency in A6..A4, the row and the column. */
  lemma AddressPins(p: Pins, g: Geometry)
    ensures (p.Bit(9) <==> p.a / 512 % 2 == 1) && (p.Bit(10) <==> p.a / 1024 % 2 == 1)
    ensures p.BurstCode() == p.a % 8 && p.CasField() == p.a / 16 % 8
    ensures p.Row(g) == p.a % Power(g.rowBits) && p.Col(g) == p.a % Power(g.colBits)
    ensures forall b: Bank :: p.PrechargesBank(b) <==>
              p.cke && !p.csN && !p.rasN && p.casN && !p.weN && (p.a / 1024 % 2 == 1 || p.ba == b)
  {
    PowerNine();
    hide Power;
  }

  /** Bank, row and column in a flat address: the column lowest, then the two bank bits, then the row. */
  lemma FlatFields(g: Geometry, b: Bank, r: nat, c: nat)
    ensures g.Flat(b, r, c) == r * Power(g.colBits + 2) + b * Power(g.colBits) + c
  {
    var p := Power(g.colBits);
    assert Power(g.colBits + 2) == 4 * p;
    assert (r * 4 + b) * p == r * (4 * p) + b * p;
    hide Power;
  }

  /** DQM bit 0 masks the low byte and bit 1 the high one. */
  lemma MaskPins(p: Pins, was: bv16)
    ensures p.dqm % 4 == 0 ==> StoreWord(was, p.dq, p) == p.dq
    ensures p.dqm % 4 == 1 ==> StoreWord(was, p.dq, p) == (was & 0x00FF) | (p.dq & 0xFF00)
    ensures p.dqm % 4 == 2 ==> StoreWord(was, p.dq, p) == (was & 0xFF00) | (p.dq & 0x00FF)
    ensures p.dqm % 4 == 3 ==> StoreWord(was, p.dq, p) == was
  {
    MergeCases(was, p.dq);
    MaskBits(p);
    hide Merge, Pins.Unmasked;
  }

  lemma MaskBits(p: Pins)
    ensures p.Unmasked(0) <==> p.dqm % 4 == 0 || p.dqm % 4 == 2
    ensures p.Unmasked(1) <==> p.dqm % 4 == 0 || p.dqm % 4 == 1
  {}

  lemma MergeCases(was: bv16, d: bv16)
    ensures Merge(was, d, true, true) == d && Merge(was, d, false, false) == was
    ensures Merge(was, d, false, true) == (was & 0x00FF) | (d & 0xFF00)
    ensures Merge(was, d, true, false) == (was & 0xFF00) | (d & 0x00FF)
  {}

  lemma Lanes(w: bv16)
    ensures LaneOf(w, 0) == w & 0x00FF && LaneOf(w, 1) == w & 0xFF00 && LaneOf(w, 0) | LaneOf(w, 1) == w
  {}

  /** The four burst codes a mode register may hold. */
  lemma BurstLengths()
    ensures BurstLength(0) == 1 && BurstLength(1) == 2 && BurstLength(2) == 4 && BurstLength(3) == 8
  {}

  /** The -6 speed grade, in nanoseconds. */
  lemma SpeedGrade()
    ensures T_RCD as real / 10.0 == 18.0 && T_RP as real / 10.0 == 18.0
    ensures T_RC as real / 10.0 == 60.0 && T_RFC as real / 10.0 == 60.0
    ensures T_MRD as real / 10.0 == 12.0 && T_RAS as real / 10.0 == 42.0 && T_WR as real / 10.0 == 15.0
    ensures T_INIT as real / 10.0 == 100000.0 && T_REFI as real / 10.0 == 7812.5
    ensures PIPE == 8 && NBANKS == 4
  {}

  // ----- a run over bare levels -----

  /** Four rows of eight columns in each of four banks. */
  const PART := Geometry(2, 3, 128)

  //                           now  cke   csN    rasN   casN   weN    a     ba dqm dq      driven
  const REFRESH := Pins(1_000_000, true, false, false, false, true, 0, 0, 0, 0, false)
  const MODE := Pins(1_000_400, true, false, false, false, false, 0x20, 0, 0, 0, false)
  const ACTIVATE := Pins(1_001_000, true, false, false, true, true, 3, 2, 0, 0, false)
  const WRITE := Pins(1_001_400, true, false, true, false, false, 5, 2, 0, 0xBEEF, true)
  const MASKED_WRITE := Pins(1_001_500, true, false, true, false, false, 5, 2, 1, 0x1234, true)
  const READ := Pins(1_001_600, true, false, true, false, true, 5, 2, 0, 0, false)
  const DESELECT := Pins(1_001_700, true, true, true, true, true, 0, 0, 0, 0, false)
  const TRACE := [REFRESH, MODE, ACTIVATE, WRITE, MASKED_WRITE, READ, DESELECT]

  /** Row 3 of bank 2, column 5. */
  const PLACE := 117

  predicate Quiet(s: State) {
    && s.Shaped(PART) && s.wrLeft == 0
    && s.pipeV == Initial(s.mem).pipeV && s.pipeD == Initial(s.mem).pipeD
  }

  lemma QuietContinues(s: State, p: Pins)
    requires Quiet(s)
    ensures Continue(PART, s, p) == Running(s)
  {
    assert Shift(s.pipeV, false) == s.pipeV;
    assert Shift(s.pipeD, 0) == s.pipeD;
  }

  function S1(mem: seq<bv16>): State {
    Initial(mem).(refreshes := 1, tLastRefresh := 1_000_000, tRefreshDone := 1_000_600)
  }

  function S2(mem: seq<bv16>): State { S1(mem).(mrProgrammed := true, cl := 2, bl := 1, tMrsDone := 1_000_520) }

  function S3(mem: seq<bv16>): State {
    S2(mem).(active := [false, false, true, false], row := [0, 0, 3, 0], tActive := [0, 0, 1_001_000, 0])
  }

  function S4(mem: seq<bv16>, at: int, word: bv16): State
    requires |mem| == 128
  {
    S3(mem).(mem := mem[PLACE := word], tWriteEnd := [0, 0, at, 0], wrBank := 2, wrCol := 6)
  }

  /** The READ's word is one slot from the end of the pipeline. */
  function S6(mem: seq<bv16>): State
    requires |mem| == 128
  {
    S4(mem, 1_001_500, 0x12EF).(pipeV := [false, true, false, false, false, false, false, false],
                                pipeD := [0, 0x12EF, 0, 0, 0, 0, 0, 0])
  }

  function S7(mem: seq<bv16>): State
    requires |mem| == 128
  {
    S6(mem).(pipeV := [true, false, false, false, false, false, false, false], pipeD := [0x12EF, 0, 0, 0, 0, 0, 0, 0])
  }

  lemma Sizes()
    ensures PART.Rows() == 4 && PART.Cols() == 8 && PART.Flat(2, 3, 5) == PLACE
  {
    assert Power(3) == 2 * Power(2) && Power(2) == 2 * Power(1) && Power(1) == 2 * Power(0);
  }

  lemma RefreshEdge(mem: seq<bv16>)
    requires |mem| == 128
    ensures Step(PART, Initial(mem), REFRESH) == Running(S1(mem))
  {
    QuietContinues(Initial(mem), REFRESH);
  }

  lemma ModeEdge(mem: seq<bv16>)
    requires |mem| == 128
    ensures Step(PART, S1(mem), MODE) == Running(S2(mem))
  {
    QuietContinues(S1(mem), MODE);
    AddressPins(MODE, PART);
    hide Continue, Pins.Bit, Power;
  }

  lemma ActivateEdge(mem: seq<bv16>)
    requires |mem| == 128
    ensures Step(PART, S2(mem), ACTIVATE) == Running(S3(mem))
  {
    QuietContinues(S2(mem), ACTIVATE);
    Sizes();
    assert S2(mem).row[2 := 3] == [0, 0, 3, 0];
    hide Continue, Geometry.Rows, Power;
  }

  lemma WriteEdge(mem: seq<bv16>)
    requires |mem| == 128
    ensures Step(PART, S3(mem), WRITE) == Running(S4(mem, 1_001_400, 0xBEEF))
  {
    QuietContinues(S3(mem), WRITE);
    Sizes();
    AddressPins(WRITE, PART);
    MaskPins(WRITE, mem[PLACE]);
    assert S3(mem).tWriteEnd[2 := 1_001_400] == [0, 0, 1_001_400, 0];
    hide Continue, Pins.Bit, Power, StoreWord, Geometry.Cols, Geometry.Flat, Merge;
  }

  lemma MaskedWriteEdge(mem: seq<bv16>)
    requires |mem| == 128
    ensures Step(PART, S4(mem, 1_001_400, 0xBEEF), MASKED_WRITE) == Running(S4(mem, 1_001_500, 0x12EF))
  {
    var s := S4(mem, 1_001_400, 0xBEEF);
    QuietContinues(s, MASKED_WRITE);
    Sizes();
    AddressPins(MASKED_WRITE, PART);
    MaskPins(MASKED_WRITE, 0xBEEF);
    assert s.tWriteEnd[2 := 1_001_500] == [0, 0, 1_001_500, 0];
    assert s.mem[PLACE := 0x12EF] == mem[PLACE := 0x12EF];
    hide Continue, Pins.Bit, Power, StoreWord, Geometry.Cols, Geometry.Flat, Merge;
  }

  lemma ReadEdge(mem: seq<bv16>)
    requires |mem| == 128
    ensures Step(PART, S4(mem, 1_001_500, 0x12EF), READ) == Running(S6(mem))
  {
    var s := S4(mem, 1_001_500, 0x12EF);
    QuietContinues(s, READ);
    Sizes();
    AddressPins(READ, PART);
    ReadFills(mem);
    hide Continue, Pins.Bit, Power, Geometry.Cols, Geometry.Flat, DoRd;
  }

  lemma ReadFills(mem: seq<bv16>)
    requires |mem| == 128
    ensures DoRd(PART, S4(mem, 1_001_500, 0x12EF), READ) == Running(S6(mem))
  {
    Sizes();
    AddressPins(READ, PART);
    hide Pins.Bit, Power, Geometry.Cols, Geometry.Flat;
    var o := DoRd(PART, S4(mem, 1_001_500, 0x12EF), READ);
    assert o.s.pipeV == S6(mem).pipeV;
    assert o.s.pipeD == S6(mem).pipeD;
  }

  lemma DeselectEdge(mem: seq<bv16>)
    requires |mem| == 128
    ensures Step(PART, S6(mem), DESELECT) == Running(S7(mem))
  {
    assert Shift(S6(mem).pipeV, false) == S7(mem).pipeV;
    assert Shift(S6(mem).pipeD, 0) == S7(mem).pipeD;
  }

  /** The part is in state s before edge n of the run. */
  predicate Before(mem: seq<bv16>, n: nat, s: State)
    requires |mem| == 128 && n <= 7
  {
    Run(PART, mem, TRACE, n) == Running(s)
  }

  lemma AfterEdge(mem: seq<bv16>, n: nat, s: State, s': State)
    requires |mem| == 128 && n < 7 && s.Shaped(PART)
    requires Before(mem, n, s) && Step(PART, s, TRACE[n]) == Running(s')
    ensures Before(mem, n + 1, s')
  {
    hide Step;
  }

  lemma AfterWrite(mem: seq<bv16>)
    requires |mem| == 128
    ensures Before(mem, 4, S4(mem, 1_001_400, 0xBEEF))
  {
    assert Before(mem, 0, Initial(mem));
    RefreshEdge(mem);
    AfterEdge(mem, 0, Initial(mem), S1(mem));
    ModeEdge(mem);
    AfterEdge(mem, 1, S1(mem), S2(mem));
    ActivateEdge(mem);
    AfterEdge(mem, 2, S2(mem), S3(mem));
    WriteEdge(mem);
    AfterEdge(mem, 3, S3(mem), S4(mem, 1_001_400, 0xBEEF));
    hide Step, Run, Before;
  }

  lemma AfterRead(mem: seq<bv16>)
    requires |mem| == 128
    ensures Before(mem, 6, S6(mem)) && Before(mem, 7, S7(mem))
  {
    AfterWrite(mem);
    MaskedWriteEdge(mem);
    AfterEdge(mem, 4, S4(mem, 1_001_400, 0xBEEF), S4(mem, 1_001_500, 0x12EF));
    ReadEdge(mem);
    AfterEdge(mem, 5, S4(mem, 1_001_500, 0x12EF), S6(mem));
    DeselectEdge(mem);
    AfterEdge(mem, 6, S6(mem), S7(mem));
    hide Step, Run, Before;
  }

  /** Refresh, mode, ACTIVATE, WRITE of 0xBEEF, WRITE of 0x1234 with the low byte masked, READ: one edge after the
      READ the part drives 0x12EF, and that word of its storage is the only one changed. */
  lemma WriteThenRead(mem: seq<bv16>)
    requires |mem| == 128
    ensures var o := Run(PART, mem, TRACE, 4); o.Running? && o.s.mem == mem[PLACE := 0xBEEF]
    ensures var o := Run(PART, mem, TRACE, 6); o.Running? && !o.s.pipeV[0]
    ensures var o := Run(PART, mem, TRACE, 7);
            o.Running? && o.s.pipeV[0] && o.s.pipeD[0] == 0x12EF && o.s.mem == mem[PLACE := 0x12EF]
  {
    AfterWrite(mem);
    AfterRead(mem);
    hide Step, Run;
  }
}
