/** The SDRAM model as the object the simulator owns: storage, bank registers and counters updated in place,
    each operation proved against the step function that the theorems are about. */
module SdramPart {
  import opened SdramMachine

  datatype Verdict = Accepted | Failed(why: Failure) | OutOfBounds

  /** The verdict v and the new state s are those of outcome o.  A failure ends the program, so
      nothing is said about the state it leaves. */
  predicate Meets(o: Outcome, v: Verdict, s: State) {
    match o
    case Running(s') => v == Accepted && s == s'
    case Stopped(why) => v == Failed(why)
    case Overrun => v == OutOfBounds
  }

  class Sdram {
    const g: Geometry
    var active: seq<bool>
    var row: seq<nat>
    var tActive: seq<int>
    var tPrecharge: seq<int>
    var tWriteEnd: seq<int>
    var mrProgrammed: bool
    var cl: nat
    var bl: nat
    var tLastRefresh: int
    var tRefreshDone: int
    var tMrsDone: int
    var refreshes: nat
    var pipeV: seq<bool>
    var pipeD: seq<bv16>
    var wrLeft: nat
    var wrBank: Bank
    var wrCol: nat
    const mem: array<bv16>

    ghost function Abs(): State
      reads this, mem
    {
      State(active, row, tActive, tPrecharge, tWriteEnd,
            mrProgrammed, cl, bl, tLastRefresh, tRefreshDone, tMrsDone, refreshes,
            pipeV, pipeD, wrLeft, wrBank, wrCol, mem[..])
    }

    ghost predicate Valid()
      reads this, mem
    {
      Abs().Shaped(g)
    }

    constructor (rowBits: nat, colBits: nat, image: seq<bv16>)
      ensures Valid() && fresh(mem)
      ensures g == Geometry(rowBits, colBits, |image|) && Abs() == Initial(image)
    {
      g := Geometry(rowBits, colBits, |image|);
      active := [false, false, false, false];
      row, tActive, tPrecharge, tWriteEnd := [0, 0, 0, 0], [0, 0, 0, 0], [0, 0, 0, 0], [0, 0, 0, 0];
      mrProgrammed, cl, bl := false, 0, 0;
      tLastRefresh, tRefreshDone, tMrsDone, refreshes := 0, 0, 0, 0;
      pipeV := [false, false, false, false, false, false, false, false];
      pipeD := [0, 0, 0, 0, 0, 0, 0, 0];
      wrLeft, wrBank, wrCol := 0, 0, 0;
      mem := new bv16[|image|](i requires 0 <= i < |image| => image[i]);
      new;
      assert mem[..] == image;
    }

    method ShiftPipe()
      requires Valid()
      modifies this`pipeV, this`pipeD
      ensures Valid()
      ensures Abs() == old(Abs()).(pipeV := Shift(old(pipeV), false), pipeD := Shift(old(pipeD), 0))
    {
      var nv, nd := [], [];
      var i := 0;
      while i < PIPE - 1
        invariant 0 <= i <= PIPE - 1
        invariant nv == pipeV[1..i + 1] && nd == pipeD[1..i + 1]
      {
        nv, nd := nv + [pipeV[i + 1]], nd + [pipeD[i + 1]];
        i := i + 1;
      }
      pipeV, pipeD := nv + [false], nd + [0];
    }

    method Store(idx: nat, p: Pins)
      requires Valid() && idx < mem.Length
      modifies mem
      ensures Valid()
      ensures Abs() == old(Abs()).(mem := old(mem[..])[idx := StoreWord(old(mem[..])[idx], p.dq, p)])
    {
      hide StoreWord;
      mem[idx] := StoreWord(mem[idx], p.dq, p);
    }

    method TakeBurstWord(p: Pins) returns (v: Verdict)
      requires Valid()
      modifies this, mem
      ensures v.Accepted? ==> Valid()
      ensures Meets(Continue(g, old(Abs()), p), v, Abs())
    {
      ShiftPipe();
      if wrLeft == 0 { return Accepted; }
      if !p.driven { return Failed(BurstUndriven); }
      var idx := g.Flat(wrBank, row[wrBank], wrCol);
      if idx >= mem.Length { return Failed(BurstBeyondStorage); }
      Store(idx, p);
      tWriteEnd := tWriteEnd[wrBank := p.now];
      if wrCol == g.Cols() - 1 && wrLeft > 1 { return Failed(BurstCrossedRow); }
      wrLeft := wrLeft - 1;
      wrCol := (wrCol + 1) % g.Cols();
      return Accepted;
    }

    method AnyBankActive() returns (any: bool)
      requires Valid()
      ensures any == Abs().AnyActive()
    {
      var i := 0;
      while i < NBANKS
        invariant 0 <= i <= NBANKS
        invariant forall b: Bank :: b < i ==> !active[b]
      {
        if active[i] {
          var b: Bank := i;
          assert Abs().active[b];
          return true;
        }
        i := i + 1;
      }
      return false;
    }

    method SetBurst(p: Pins) returns (known: bool)
      modifies this`bl
      ensures known <==> p.BurstCode() < 4
      ensures known ==> bl == BurstLength(p.BurstCode())
    {
      match p.BurstCode() {
        case 0 => bl := 1;
        case 1 => bl := 2;
        case 2 => bl := 4;
        case 3 => bl := 8;
        case _ => return false;
      }
      return true;
    }

    method LoadMode(p: Pins) returns (v: Verdict)
      requires Valid()
      modifies this`bl, this`cl, this`mrProgrammed, this`tMrsDone
      ensures v.Accepted? ==> Valid()
      ensures Meets(DoMrs(g, old(Abs()), p), v, Abs())
    {
      hide Pins.Bit, Pins.BurstCode, Pins.CasField;
      var any := AnyBankActive();
      if any { return Failed(MrsBankActive); }
      if p.Bit(10) || p.Bit(9) { return Failed(MrsReserved); }
      var known := SetBurst(p);
      if !known { return Failed(MrsBurstLength); }
      if p.CasField() != 2 && p.CasField() != 3 { return Failed(MrsCasLatency); }
      cl := p.CasField();
      mrProgrammed := true;
      tMrsDone := p.now + T_MRD;
      return Accepted;
    }

    method Activate(p: Pins) returns (v: Verdict)
      requires Valid()
      modifies this`active, this`row, this`tActive
      ensures v.Accepted? ==> Valid()
      ensures Meets(DoAct(g, old(Abs()), p), v, Abs())
    {
      var ba := p.ba;
      if !mrProgrammed { return Failed(ActNoMode); }
      if p.now < tMrsDone { return Failed(ActTmrd); }
      if p.now < tRefreshDone { return Failed(ActTrfc); }
      if active[ba] { return Failed(ActOpen); }
      if p.now < tPrecharge[ba] + T_RP { return Failed(ActTrp); }
      if p.now < tActive[ba] + T_RC { return Failed(ActTrc); }
      active := active[ba := true];
      row := row[ba := p.Row(g)];
      tActive := tActive[ba := p.now];
      return Accepted;
    }

    method Read(p: Pins) returns (v: Verdict)
      requires Valid()
      modifies this`pipeV, this`pipeD
      ensures v.Accepted? ==> Valid()
      ensures Meets(DoRd(g, old(Abs()), p), v, Abs())
    {
      var ba := p.ba;
      if !active[ba] { return Failed(RdClosed); }
      if p.now < tActive[ba] + T_RCD { return Failed(RdTrcd); }
      if p.Bit(10) { return Failed(RdAutoPrecharge); }
      var col := p.Col(g);
      var first := g.Flat(ba, row[ba], col);
      if first + bl > mem.Length { return Failed(RdBeyondStorage); }
      if col + bl > g.Cols() { return Failed(RdCrossesRow); }
      if cl + bl > PIPE + 1 { return OutOfBounds; }
      hide Geometry.Flat, Pins.Bit;
      FillSlots(first);
      ghost var after := DoRd(g, old(Abs()), p).s;
      assert pipeV == after.pipeV;
      assert pipeD == after.pipeD;
      return Accepted;
    }

    // nd[slot] and nv[slot] for slot = cl - 1 + i, each beat i of the burst.
    method FillSlots(first: nat)
      requires Valid() && mrProgrammed && first + bl <= mem.Length && cl + bl <= PIPE + 1
      modifies this`pipeV, this`pipeD
      ensures |pipeV| == PIPE && |pipeD| == PIPE
      ensures forall k :: 0 <= k < PIPE ==> pipeV[k] == (old(pipeV)[k] || cl - 1 <= k < cl - 1 + bl)
      ensures forall k :: 0 <= k < PIPE ==>
        pipeD[k] == if cl - 1 <= k < cl - 1 + bl then mem[first + k - (cl - 1)] else old(pipeD)[k]
    {
      var i := 0;
      while i < bl
        invariant 0 <= i <= bl && |pipeV| == |pipeD| == PIPE
        invariant forall k :: 0 <= k < PIPE ==> pipeV[k] == (old(pipeV)[k] || cl - 1 <= k < cl - 1 + i)
        invariant forall k :: 0 <= k < PIPE ==>
          pipeD[k] == if cl - 1 <= k < cl - 1 + i then mem[first + k - (cl - 1)] else old(pipeD)[k]
      {
        var slot := cl - 1 + i;
        pipeV := pipeV[slot := true];
        pipeD := pipeD[slot := mem[first + i]];
        i := i + 1;
      }
    }

    method CheckWrite(p: Pins) returns (v: Verdict)
      requires Valid()
      ensures match DoWr(g, Abs(), p)
              case Running(_) => v == Accepted
              case Stopped(why) => v == Failed(why)
              case Overrun => v == OutOfBounds
    {
      hide StoreWord;
      if !active[p.ba] { return Failed(WrClosed); }
      if p.now < tActive[p.ba] + T_RCD { return Failed(WrTrcd); }
      if p.Bit(10) { return Failed(WrAutoPrecharge); }
      if !p.driven { return Failed(WrUndriven); }
      if g.Flat(p.ba, row[p.ba], p.Col(g)) + bl > mem.Length { return Failed(WrBeyondStorage); }
      if p.Col(g) + bl > g.Cols() { return Failed(WrCrossesRow); }
      return Accepted;
    }

    method Write(p: Pins) returns (v: Verdict)
      requires Valid()
      modifies this`tWriteEnd, this`wrBank, this`wrCol, this`wrLeft, mem
      ensures v.Accepted? ==> Valid()
      ensures Meets(DoWr(g, old(Abs()), p), v, Abs())
    {
      hide StoreWord, Geometry.Flat, Pins.Bit, Pins.Row;
      v := CheckWrite(p);
      if !v.Accepted? { return; }
      Store(g.Flat(p.ba, row[p.ba], p.Col(g)), p);
      tWriteEnd := tWriteEnd[p.ba := p.now];
      wrBank := p.ba;
      wrCol := (p.Col(g) + 1) % g.Cols();
      wrLeft := bl - 1;
    }

    method CloseOne(p: Pins, b: Bank) returns (v: Verdict)
      requires Valid()
      modifies this`active, this`tPrecharge
      ensures v.Accepted? ==> Valid()
      ensures Meets(CloseBank(g, old(Abs()), p, b), v, Abs())
    {
      if active[b] {
        if p.now < tActive[b] + T_RAS { return Failed(if p.Bit(10) then PreAllTras else PreTras); }
        if p.now < tWriteEnd[b] + T_WR { return Failed(if p.Bit(10) then PreAllTwr else PreTwr); }
        tPrecharge := tPrecharge[b := p.now];
      }
      active := active[b := false];
      assert !old(active[b]) ==> active == old(active);
      return Accepted;
    }

    method Precharge(p: Pins) returns (v: Verdict)
      requires Valid()
      modifies this`active, this`tPrecharge
      ensures v.Accepted? ==> Valid()
      ensures Meets(DoPre(g, old(Abs()), p), v, Abs())
    {
      if !p.Bit(10) { v := CloseOne(p, p.ba); return; }
      var i := 0;
      while i < NBANKS
        invariant 0 <= i <= NBANKS && Valid()
        invariant CloseFrom(g, Abs(), p, i) == CloseFrom(g, old(Abs()), p, 0)
      {
        v := CloseOne(p, i);
        if !v.Accepted? { return; }
        i := i + 1;
      }
      return Accepted;
    }

    method Refresh(p: Pins) returns (v: Verdict)
      requires Valid()
      modifies this
      ensures v.Accepted? ==> Valid()
      ensures Meets(DoRef(g, old(Abs()), p), v, Abs())
    {
      var any := AnyBankActive();
      if any { return Failed(RefBankActive); }
      if p.now < tRefreshDone { return Failed(RefTrfc); }
      refreshes := refreshes + 1;
      tLastRefresh := p.now;
      tRefreshDone := p.now + T_RFC;
      return Accepted;
    }

    /** One rising edge: exactly the step function. */
    method Edge(p: Pins) returns (v: Verdict)
      requires Valid()
      modifies this, mem
      ensures v.Accepted? ==> Valid()
      ensures Meets(Step(g, old(Abs()), p), v, Abs())
    {
      if mrProgrammed && p.now - tLastRefresh > 2 * T_REFI { return Failed(NoRefresh); }
      v := TakeBurstWord(p);
      if !v.Accepted? || p.Cmd() == Nop { return; }
      if p.now < T_INIT { return Failed(PowerUp); }
      match p.Cmd() {
        case Mrs => v := LoadMode(p);
        case Act => v := Activate(p);
        case Rd => v := Read(p);
        case Wr => v := Write(p);
        case Pre => v := Precharge(p);
        case Ref => v := Refresh(p);
        case _ =>
      }
    }

    /** What the part is driving after the edge. */
    method Output() returns (driving: bool, data: bv16)
      requires Valid()
      ensures driving == Abs().pipeV[0] && data == Abs().pipeD[0]
    {
      driving, data := pipeV[0], pipeD[0];
    }
  }
}
