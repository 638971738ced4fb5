/** The 16-bit SDR SDRAM model, one rising clock edge at a time, as a function on states.
    Times are whole tenths of a nanosecond, so every constant is exact. */
module SdramMachine {
  import opened Powers

  const T_RCD := 180
  const T_RP := 180
  const T_RC := 600
  const T_RFC := 600
  const T_MRD := 120
  const T_RAS := 420
  const T_WR := 150
  const T_INIT := 1_000_000
  const T_REFI := 78_125
  const PIPE := 8
  const NBANKS := 4

  type Bank = b: int | 0 <= b < NBANKS witness 0
  type Lane = l: int | 0 <= l < 2 witness 0

  datatype Geometry = Geometry(rowBits: nat, colBits: nat, words: nat) {
    function Rows(): (r: nat) ensures r > 0 { Power(rowBits) }
    function Cols(): (c: nat) ensures c > 0 { Power(colBits) }

    // (r << (colBits + 2)) | (b << colBits) | c: three disjoint fields, so | is +.
    function Flat(b: Bank, r: nat, c: nat): nat {
      (r * NBANKS + b) * Cols() + c
    }
  }

  /** Everything the part samples at one edge. */
  datatype Pins = Pins(
    now: int, cke: bool, csN: bool, rasN: bool, casN: bool, weN: bool,
    a: nat, ba: Bank, dqm: nat, dq: bv16, driven: bool) {

    predicate Bit(k: nat) { a / Power(k) % 2 == 1 }

    function Cmd(): Command {
      if !cke || csN then Nop
      else if rasN then
        if casN then (if weN then Nop else Bst) else if weN then Rd else Wr
      else
        if casN then (if weN then Act else Pre) else if weN then Ref else Mrs
    }

    // A byte lane is stored when its mask bit is clear.
    predicate Unmasked(lane: Lane) { (if lane == 0 then dqm else dqm / 2) % 2 == 0 }

    function BurstCode(): nat { a % 8 }
    function CasField(): nat { a / 16 % 8 }
    function Row(g: Geometry): nat { a % g.Rows() }
    function Col(g: Geometry): nat { a % g.Cols() }

    // A PRECHARGE that names bank b, either alone or by A10.
    predicate PrechargesBank(b: Bank) { Cmd() == Pre && (Bit(10) || ba == b) }
  }

  datatype Command = Nop | Mrs | Ref | Pre | Act | Wr | Rd | Bst

  datatype Failure =
    | NoRefresh | BurstUndriven | BurstBeyondStorage | BurstCrossedRow | PowerUp
    | MrsBankActive | MrsReserved | MrsBurstLength | MrsCasLatency
    | ActNoMode | ActTmrd | ActTrfc | ActOpen | ActTrp | ActTrc
    | RdClosed | RdTrcd | RdAutoPrecharge | RdBeyondStorage | RdCrossesRow
    | WrClosed | WrTrcd | WrAutoPrecharge | WrUndriven | WrBeyondStorage | WrCrossesRow
    | PreTras | PreTwr | PreAllTras | PreAllTwr | RefBankActive | RefTrfc

  datatype State = State(
    active: seq<bool>, row: seq<nat>, tActive: seq<int>, tPrecharge: seq<int>, tWriteEnd: seq<int>,
    mrProgrammed: bool, cl: nat, bl: nat,
    tLastRefresh: int, tRefreshDone: int, tMrsDone: int, refreshes: nat,
    pipeV: seq<bool>, pipeD: seq<bv16>,
    wrLeft: nat, wrBank: Bank, wrCol: nat,
    mem: seq<bv16>) {

    predicate Shaped(g: Geometry) {
      && |active| == |row| == |tActive| == |tPrecharge| == |tWriteEnd| == NBANKS
      && |pipeV| == |pipeD| == PIPE
      && |mem| == g.words
      && (mrProgrammed ==> (cl == 2 || cl == 3) && (bl == 1 || bl == 2 || bl == 4 || bl == 8))
      && (forall b: Bank :: active[b] ==> mrProgrammed)
    }

    predicate AnyActive() requires |active| == NBANKS { exists b: Bank :: active[b] }
  }

  /** Running: the edge was accepted.  Stopped: the model printed a protocol error and exited.
      Overrun: a READ filled pipeline slots past the end of the eight-entry pipeline, which the
      program's fixed-size array does not have. */
  datatype Outcome = Running(s: State) | Stopped(why: Failure) | Overrun

  function Initial(mem: seq<bv16>): State {
    State([false, false, false, false], [0, 0, 0, 0], [0, 0, 0, 0], [0, 0, 0, 0], [0, 0, 0, 0],
          false, 0, 0, 0, 0, 0, 0,
          [false, false, false, false, false, false, false, false], [0, 0, 0, 0, 0, 0, 0, 0],
          0, 0, 0, mem)
  }

  /** A word write under byte masks: lane 0 is the low byte. */
  function Merge(was: bv16, d: bv16, low: bool, high: bool): bv16 {
    var w := if low then (was & 0xFF00) | (d & 0x00FF) else was;
    if high then (w & 0x00FF) | (d & 0xFF00) else w
  }

  function StoreWord(was: bv16, d: bv16, p: Pins): bv16 { Merge(was, d, p.Unmasked(0), p.Unmasked(1)) }

  function LaneOf(w: bv16, lane: Lane): bv16 {
    if lane == 0 then w & 0x00FF else w & 0xFF00
  }

  function Shift<T>(pipe: seq<T>, empty: T): seq<T>
    requires |pipe| == PIPE
  {
    pipe[1..] + [empty]
  }

  /** The read pipeline shifts, and a write burst under way takes one word off the bus. */
  function Continue(g: Geometry, s: State, p: Pins): (o: Outcome)
    requires s.Shaped(g)
    ensures o.Running? ==> o.s.Shaped(g)
  {
    var s1 := s.(pipeV := Shift(s.pipeV, false), pipeD := Shift(s.pipeD, 0));
    if s.wrLeft == 0 then Running(s1)
    else if !p.driven then Stopped(BurstUndriven)
    else
      var idx := g.Flat(s.wrBank, s.row[s.wrBank], s.wrCol);
      if idx >= g.words then Stopped(BurstBeyondStorage)
      else if s.wrCol == g.Cols() - 1 && s.wrLeft > 1 then Stopped(BurstCrossedRow)
      else
        Running(s1.(mem := s.mem[idx := StoreWord(s.mem[idx], p.dq, p)],
                    wrLeft := s.wrLeft - 1,
                    wrCol := (s.wrCol + 1) % g.Cols(),
                    tWriteEnd := s.tWriteEnd[s.wrBank := p.now]))
  }

  function BurstLength(code: nat): nat
    requires code < 4
  {
    if code == 0 then 1 else if code == 1 then 2 else if code == 2 then 4 else 8
  }

  function DoMrs(g: Geometry, s: State, p: Pins): (o: Outcome)
    requires s.Shaped(g)
    ensures o.Running? ==> o.s.Shaped(g)
  {
    if s.AnyActive() then Stopped(MrsBankActive)
    else if p.Bit(10) || p.Bit(9) then Stopped(MrsReserved)
    else if p.BurstCode() >= 4 then Stopped(MrsBurstLength)
    else if p.CasField() != 2 && p.CasField() != 3 then Stopped(MrsCasLatency)
    else Running(s.(bl := BurstLength(p.BurstCode()), cl := p.CasField(),
                    mrProgrammed := true, tMrsDone := p.now + T_MRD))
  }

  function DoAct(g: Geometry, s: State, p: Pins): (o: Outcome)
    requires s.Shaped(g)
    ensures o.Running? ==> o.s.Shaped(g)
  {
    if !s.mrProgrammed then Stopped(ActNoMode)
    else if p.now < s.tMrsDone then Stopped(ActTmrd)
    else if p.now < s.tRefreshDone then Stopped(ActTrfc)
    else if s.active[p.ba] then Stopped(ActOpen)
    else if p.now < s.tPrecharge[p.ba] + T_RP then Stopped(ActTrp)
    else if p.now < s.tActive[p.ba] + T_RC then Stopped(ActTrc)
    else Running(s.(active := s.active[p.ba := true], row := s.row[p.ba := p.Row(g)],
                    tActive := s.tActive[p.ba := p.now]))
  }

  function DoRd(g: Geometry, s: State, p: Pins): (o: Outcome)
    requires s.Shaped(g)
    ensures o.Running? ==> o.s.Shaped(g)
  {
    if !s.active[p.ba] then Stopped(RdClosed)
    else if p.now < s.tActive[p.ba] + T_RCD then Stopped(RdTrcd)
    else if p.Bit(10) then Stopped(RdAutoPrecharge)
    else
      var first := g.Flat(p.ba, s.row[p.ba], p.Col(g));
      if first + s.bl > g.words then Stopped(RdBeyondStorage)
      else if p.Col(g) + s.bl > g.Cols() then Stopped(RdCrossesRow)
      else if s.cl + s.bl > PIPE + 1 then Overrun
      else
        Running(s.(
          pipeV := seq(PIPE, k requires 0 <= k < PIPE => s.pipeV[k] || s.cl - 1 <= k < s.cl - 1 + s.bl),
          pipeD := seq(PIPE, k requires 0 <= k < PIPE =>
            if s.cl - 1 <= k < s.cl - 1 + s.bl then s.mem[first + k - (s.cl - 1)] else s.pipeD[k])))
  }

  function DoWr(g: Geometry, s: State, p: Pins): (o: Outcome)
    requires s.Shaped(g)
    ensures o.Running? ==> o.s.Shaped(g)
  {
    if !s.active[p.ba] then Stopped(WrClosed)
    else if p.now < s.tActive[p.ba] + T_RCD then Stopped(WrTrcd)
    else if p.Bit(10) then Stopped(WrAutoPrecharge)
    else if !p.driven then Stopped(WrUndriven)
    else
      var idx := g.Flat(p.ba, s.row[p.ba], p.Col(g));
      if idx + s.bl > g.words then Stopped(WrBeyondStorage)
      else if p.Col(g) + s.bl > g.Cols() then Stopped(WrCrossesRow)
      else
        Running(s.(mem := s.mem[idx := StoreWord(s.mem[idx], p.dq, p)],
                   tWriteEnd := s.tWriteEnd[p.ba := p.now],
                   wrBank := p.ba, wrCol := (p.Col(g) + 1) % g.Cols(),
                   wrLeft := s.bl - 1))
  }

  function CloseBank(g: Geometry, s: State, p: Pins, b: Bank): (o: Outcome)
    requires s.Shaped(g)
    ensures o.Running? ==> o.s.Shaped(g)
  {
    if !s.active[b] then Running(s)
    else if p.now < s.tActive[b] + T_RAS then Stopped(if p.Bit(10) then PreAllTras else PreTras)
    else if p.now < s.tWriteEnd[b] + T_WR then Stopped(if p.Bit(10) then PreAllTwr else PreTwr)
    else Running(s.(tPrecharge := s.tPrecharge[b := p.now], active := s.active[b := false]))
  }

  function CloseFrom(g: Geometry, s: State, p: Pins, b: nat): (o: Outcome)
    requires s.Shaped(g) && b <= NBANKS
    ensures o.Running? ==> o.s.Shaped(g)
    decreases NBANKS - b
  {
    if b == NBANKS then Running(s)
    else
      var o := CloseBank(g, s, p, b);
      if o.Running? then CloseFrom(g, o.s, p, b + 1) else o
  }

  function DoPre(g: Geometry, s: State, p: Pins): (o: Outcome)
    requires s.Shaped(g)
    ensures o.Running? ==> o.s.Shaped(g)
  {
    if p.Bit(10) then CloseFrom(g, s, p, 0) else CloseBank(g, s, p, p.ba)
  }

  function DoRef(g: Geometry, s: State, p: Pins): (o: Outcome)
    requires s.Shaped(g)
    ensures o.Running? ==> o.s.Shaped(g)
  {
    if s.AnyActive() then Stopped(RefBankActive)
    else if p.now < s.tRefreshDone then Stopped(RefTrfc)
    else Running(s.(refreshes := s.refreshes + 1, tLastRefresh := p.now, tRefreshDone := p.now + T_RFC))
  }

  function Obey(g: Geometry, s: State, p: Pins): (o: Outcome)
    requires s.Shaped(g)
    ensures o.Running? ==> o.s.Shaped(g)
  {
    if p.Cmd() == Nop then Running(s)
    else if p.now < T_INIT then Stopped(PowerUp)
    else
      match p.Cmd()
      case Mrs => DoMrs(g, s, p)
      case Act => DoAct(g, s, p)
      case Rd => DoRd(g, s, p)
      case Wr => DoWr(g, s, p)
      case Pre => DoPre(g, s, p)
      case Ref => DoRef(g, s, p)
      case _ => Running(s)
  }

  /** One edge. */
  function Step(g: Geometry, s: State, p: Pins): (o: Outcome)
    requires s.Shaped(g)
    ensures o.Running? ==> o.s.Shaped(g)
  {
    if s.mrProgrammed && p.now - s.tLastRefresh > 2 * T_REFI then Stopped(NoRefresh)
    else
      var o := Continue(g, s, p);
      if o.Running? then Obey(g, o.s, p) else o
  }

  /** The model after the first n edges of a trace, starting from power-up with storage mem. */
  function Run(g: Geometry, mem: seq<bv16>, tr: seq<Pins>, n: nat): (o: Outcome)
    requires |mem| == g.words && n <= |tr|
    ensures o.Running? ==> o.s.Shaped(g)
  {
    if n == 0 then Running(Initial(mem))
    else
      var o := Run(g, mem, tr, n - 1);
      if o.Running? then Step(g, o.s, tr[n - 1]) else o
  }
}
