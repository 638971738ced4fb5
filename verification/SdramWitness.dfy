/** A legal command sequence that the model cannot survive: LOAD MODE REGISTER accepts a burst
    length of eight, and the first READ under it needs a ninth pipeline slot. */
module SdramWitness {
  import opened Powers
  import opened SdramMachine

  function Idle(now: int): Pins { Pins(now, true, true, true, true, true, 0, 0, 0, 0, false) }

  const REFRESH := Idle(1_000_000).(csN := false, rasN := false, casN := false)
  // A[6:4] = 2 is the CAS latency, A[2:0] = 3 the code for a burst of eight.
  const MODE := Idle(1_000_400).(csN := false, rasN := false, casN := false, weN := false, a := 0x23)
  const ACTIVATE := Idle(1_001_000).(csN := false, rasN := false)
  const READ := Idle(1_001_400).(csN := false, casN := false)
  const TRACE := [REFRESH, MODE, ACTIVATE, READ]

  const PART := Geometry(1, 3, 8)

  function S0(): State { Initial(seq(8, _ => 0)) }

  function S1(): State { S0().(refreshes := 1, tLastRefresh := 1_000_000, tRefreshDone := 1_000_600) }

  function S2(): State { S1().(mrProgrammed := true, cl := 2, bl := 8, tMrsDone := 1_000_520) }

  function S3(): State { S2().(active := [true, false, false, false], tActive := [1_001_000, 0, 0, 0]) }

  lemma QuietPipe(s: State)
    requires s.Shaped(PART) && s.pipeV == S0().pipeV && s.pipeD == S0().pipeD && s.wrLeft == 0
    ensures Continue(PART, s, REFRESH) == Running(s)
  {
    assert Shift(s.pipeV, false) == s.pipeV;
    assert Shift(s.pipeD, 0) == s.pipeD;
  }

  lemma RefreshEdge()
    ensures Step(PART, S0(), REFRESH) == Running(S1())
  {
    QuietPipe(S0());
  }

  lemma ModePins()
    ensures MODE.Cmd() == Mrs && !MODE.Bit(9) && !MODE.Bit(10) && MODE.BurstCode() == 3 && MODE.CasField() == 2
  {
    assert Power(9) > 0x23 && Power(10) > 0x23 by {
      PowerEight();
      PowerGrows(8, 9);
      PowerGrows(8, 10);
    }
  }

  lemma ModeEdge()
    ensures Step(PART, S1(), MODE) == Running(S2())
  {
    ModePins();
    QuietMode();
    hide Continue, Pins.Bit, Pins.BurstCode, Pins.CasField, Pins.Cmd;
  }

  lemma QuietMode()
    ensures Continue(PART, S1(), MODE) == Running(S1())
  {
    QuietPipe(S1());
  }

  lemma ActivateEdge()
    ensures Step(PART, S2(), ACTIVATE) == Running(S3())
  {
    QuietPipe(S2());
    assert S2().active[0 := true] == S3().active && S2().tActive[0 := 1_001_000] == S3().tActive;
  }

  lemma ReadEdge()
    ensures Step(PART, S3(), READ) == Overrun
  {
    QuietPipe(S3());
  }

  lemma BurstOfEightOverruns()
    ensures Run(PART, seq(8, _ => 0), TRACE, 3).Running?
    ensures Run(PART, seq(8, _ => 0), TRACE, 4) == Overrun
  {
    hide Step;
    var mem: seq<bv16> := seq(8, _ => 0);
    RefreshEdge();
    ModeEdge();
    ActivateEdge();
    ReadEdge();
    assert Run(PART, mem, TRACE, 0) == Running(S0());
    assert Run(PART, mem, TRACE, 1) == Running(S1());
    assert Run(PART, mem, TRACE, 2) == Running(S2());
    assert Run(PART, mem, TRACE, 3) == Running(S3());
  }
}
