/** The two-hart coherence program: the word list the generator builds, and the machine that runs it
    over one shared memory, one instruction of one hart at a time. */
module TwoHart {
  import opened RvEncode

  const OLD: bv32 := 0x11111000
  const NEW: bv32 := 0x22222000
  const NEW2: bv32 := 0x33333000

  // ----- the program -----

  function HeadCode(hi: bv32, i: nat): Instr {
    match i
    case 0 => Csrr(1, 0xF14)
    case 1 => Lui(2, hi & 0xFFFFF)
    case 2 => Lui(11, 0x80000)
    case 3 => Bne(1, 0, 72)
    case _ => Other
  }

  function Hart0Code(i: nat): Instr {
    match i
    case 0 => Addi(2, 2, 0x200)
    case 1 => Lui(3, 0x11111)
    case 2 => Sw(3, 0, 2)              // X = OLD
    case 3 => Lw(4, 0, 2)              // read X
    case 4 => Addi(6, 0, 1)
    case 5 => Sw(6, 4, 2)              // flag = 1
    case 6 => Lw(7, 8, 2)              // poll done
    case 7 => Beq(7, 0, 0xFFFF_FFFC)
    case 8 => Lw(8, 0, 2)              // read X again
    case 9 => Sw(8, 12, 2)             // result = X
    case 10 => Sw(8, 0x300, 11)
    case 11 => Lui(9, 0x33333)
    case 12 => Sw(9, 16, 2)            // Z = NEW2
    case 13 => Sw(6, 20, 2)            // go2 = 1
    case 14 => Lui(12, 0xAAAA1)
    case 15 => Sw(12, 0x308, 11)
    case 16 => Jal(0, 0)
    case _ => Other
  }

  function Hart1Code(i: nat): Instr {
    match i
    case 0 => Addi(2, 2, 0x200)
    case 1 => Lw(9, 16, 2)             // read Z
    case 2 => Lw(7, 4, 2)              // poll flag
    case 3 => Beq(7, 0, 0xFFFF_FFFC)
    case 4 => Lui(3, 0x22222)
    case 5 => Sw(3, 0, 2)              // X = NEW
    case 6 => Addi(6, 0, 1)
    case 7 => Sw(6, 8, 2)              // done = 1
    case 8 => Lw(7, 20, 2)             // poll go2
    case 9 => Beq(7, 0, 0xFFFF_FFFC)
    case 10 => Lw(10, 16, 2)           // read Z again
    case 11 => Sw(10, 24, 2)           // result2 = Z
    case 12 => Sw(10, 0x304, 11)
    case 13 => Lui(12, 0xBBBB1)
    case 14 => Sw(12, 0x30C, 11)
    case 15 => Jal(0, 0)
    case _ => Other
  }

  /** The instruction at word `pc`: the dispatch head, hart 0's code from word 4, hart 1's from word 21. */
  function Instruction(hi: bv32, pc: nat): Instr {
    if pc < 4 then HeadCode(hi, pc) else if pc < 21 then Hart0Code(pc - 4) else Hart1Code(pc - 21)
  }

  lemma HeadEncodable(hi: bv32, i: nat)
    requires i < 4
    ensures Encodable(HeadCode(hi, i))
  {
    if i == 0 {} else if i == 1 {} else if i == 2 {} else {}
  }

  lemma Hart0Encodable(i: nat)
    requires i < 17
    ensures Encodable(Hart0Code(i))
  {
    if i == 0 {} else if i == 1 {} else if i == 2 {} else if i == 3 {} else if i == 4 {} else if i == 5 {}
    else if i == 6 {} else if i == 7 {} else if i == 8 {} else if i == 9 {} else if i == 10 {} else if i == 11 {}
    else if i == 12 {} else if i == 13 {} else if i == 14 {} else if i == 15 {} else {}
  }

  lemma Hart1Encodable(i: nat)
    requires i < 16
    ensures Encodable(Hart1Code(i))
  {
    if i == 0 {} else if i == 1 {} else if i == 2 {} else if i == 3 {} else if i == 4 {} else if i == 5 {}
    else if i == 6 {} else if i == 7 {} else if i == 8 {} else if i == 9 {} else if i == 10 {} else if i == 11 {}
    else if i == 12 {} else if i == 13 {} else if i == 14 {} else {}
  }

  /** The word of one instruction of a hart's list. */
  function Hart0Word(i: nat): (w: bv32)
    requires i < 17
    ensures Decode(w) == Hart0Code(i)
  {
    hide Encodable, Encode, Decode, Hart0Code;
    Hart0Encodable(i);
    DecodeEncode(Hart0Code(i));
    Encode(Hart0Code(i))
  }

  function Hart1Word(i: nat): (w: bv32)
    requires i < 16
    ensures Decode(w) == Hart1Code(i)
  {
    hide Encodable, Encode, Decode, Hart1Code;
    Hart1Encodable(i);
    DecodeEncode(Hart1Code(i));
    Encode(Hart1Code(i))
  }

  lemma LuiKeepsTwentyBits(rd: bv32, imm20: bv32)
    ensures EncLui(rd, imm20) == EncLui(rd, imm20 & 0xFFFFF)
  {}

  lemma HeadDecodes(hi: bv32)
    ensures Decode(EncCsrr(1, 0xF14)) == HeadCode(hi, 0) && Decode(EncLui(2, hi)) == HeadCode(hi, 1)
    ensures Decode(EncLui(11, 0x80000)) == HeadCode(hi, 2) && Decode(EncBne(1, 0, 72)) == HeadCode(hi, 3)
  {
    LuiKeepsTwentyBits(2, hi);
    HeadEncodable(hi, 0); HeadEncodable(hi, 1); HeadEncodable(hi, 2); HeadEncodable(hi, 3);
    hide Decode, Encodable, EncCsrr, EncLui, EncBne;
    DecodeEncode(HeadCode(hi, 0));
    DecodeEncode(HeadCode(hi, 1));
    DecodeEncode(HeadCode(hi, 2));
    DecodeEncode(HeadCode(hi, 3));
  }

  /** The generator's list: head, a hole, hart 0's code, then the hole filled with a branch over it all to
      hart 1's code.  Every word decodes to the instruction above, whatever number is given for the data
      region, of which the low twenty bits count. */
  method BuildWords(hi: bv32) returns (words: seq<bv32>)
    ensures |words| == 37
    ensures forall pc :: 0 <= pc < |words| ==> Decode(words[pc]) == Instruction(hi, pc)
  {
    HeadDecodes(hi);
    hide Decode, Encode, Encodable, Hart0Word, Hart1Word, EncLui, EncBne, EncCsrr, HeadCode, Hart0Code, Hart1Code;
    var head := [EncCsrr(1, 0xF14), EncLui(2, hi), EncLui(11, 0x80000)];
    var bneAt := |head|;
    words := head + [0] + seq(17, i requires 0 <= i < 17 => Hart0Word(i));
    var hart1At := |words|;
    words := words[bneAt := EncBne(1, 0, (4 * (hart1At - bneAt)) as bv32)];
    words := words + seq(16, i requires 0 <= i < 16 => Hart1Word(i));
    forall pc | 0 <= pc < |words| ensures Decode(words[pc]) == Instruction(hi, pc) {
      if pc == 0 {} else if pc == 1 {} else if pc == 2 {} else if pc == 3 {} else if pc < 21 {
        assert words[pc] == Hart0Word(pc - 4);
      } else {
        assert words[pc] == Hart1Word(pc - 21);
      }
    }
  }

  // ----- the machine -----

  /** Memory and registers, by address and by number. */
  type Words = bv32 -> bv32

  function Update(f: Words, a: bv32, v: bv32): Words { x => if x == a then v else f(x) }

  datatype Hart = Hart(pc: nat, regs: Words)

  /** x0 reads as zero. */
  function Reg(h: Hart, r: bv32): bv32 { if r == 0 then 0 else h.regs(r) }

  /** Write register r and go to the next word. */
  function Put(h: Hart, r: bv32, v: bv32): Hart { Hart(h.pc + 1, Update(h.regs, r, v)) }

  function Plus(a: bv32, b: bv32): bv32 { a + b }

  function Upper(imm20: bv32): bv32 { imm20 << 12 }

  /** A branch offset in words. */
  function Ahead(off: bv32): int {
    if off < 0x8000_0000 then (off / 4) as int else -(((0 - off) / 4) as int)
  }

  function Target(pc: nat, off: bv32): nat {
    var t := pc + Ahead(off);
    if t < 0 then 0 else t
  }

  function Link(pc: nat): bv32 { ((0x8000_0000 + 4 * (pc + 1)) % 0x1_0000_0000) as bv32 }

  /** What one instruction does to the hart that executes it, given the word it loads. */
  function Effect(i: Instr, id: bv32, h: Hart, loaded: bv32): Hart {
    match i
    case Lw(rd, off, rs1) => Put(h, rd, loaded)
    case Sw(rs2, off, rs1) => h.(pc := h.pc + 1)
    case Addi(rd, rs1, imm) => Put(h, rd, Plus(Reg(h, rs1), imm))
    case Lui(rd, imm20) => Put(h, rd, Upper(imm20))
    case Beq(rs1, rs2, off) => h.(pc := if Reg(h, rs1) == Reg(h, rs2) then Target(h.pc, off) else h.pc + 1)
    case Bne(rs1, rs2, off) => h.(pc := if Reg(h, rs1) != Reg(h, rs2) then Target(h.pc, off) else h.pc + 1)
    case Csrr(rd, csr) => Put(h, rd, if csr == 0xF14 then id else 0)
    case Jal(rd, off) => Put(h, rd, Link(h.pc)).(pc := Target(h.pc, off))
    case Other => h
  }

  datatype Id = H0 | H1

  datatype Sys = Sys(hart0: Hart, hart1: Hart, mem: Words)

  function HartOf(s: Sys, id: Id): Hart { if id.H0? then s.hart0 else s.hart1 }

  function Number(id: Id): bv32 { if id.H0? then 0 else 1 }

  function Loaded(i: Instr, h: Hart, mem: Words): bv32 {
    if i.Lw? then mem(Plus(Reg(h, i.rs1), i.off)) else 0
  }

  function Stored(i: Instr, h: Hart, mem: Words): Words {
    if i.Sw? then Update(mem, Plus(Reg(h, i.rs1), i.off), Reg(h, i.rs2)) else mem
  }

  /** One hart executes one instruction. */
  function Step(hi: bv32, s: Sys, id: Id): Sys {
    var h := HartOf(s, id);
    var i := Instruction(hi, h.pc);
    var h' := Effect(i, Number(id), h, Loaded(i, h, s.mem));
    var mem' := Stored(i, h, s.mem);
    if id.H0? then Sys(h', s.hart1, mem') else Sys(s.hart0, h', mem')
  }

  /** Any interleaving: the harts take turns in the order given. */
  function Run(hi: bv32, s: Sys, sched: seq<Id>): Sys {
    if sched == [] then s
    else Step(hi, Run(hi, s, sched[..|sched| - 1]), sched[|sched| - 1])
  }

  // ----- the shared words -----

  function DataBase(hi: bv32): bv32 { Upper(hi & 0xFFFFF) }

  /** Where the shared words start: X. */
  function SharedBase(hi: bv32): bv32 { Plus(DataBase(hi), 0x200) }

  /** X, flag, done, result, Z, go2, result2 are at offsets 0, 4 .. 24. */
  function Shared(hi: bv32, k: bv32): bv32 { Plus(SharedBase(hi), k) }

  const BLOCK_RAM: bv32 := 0x8000_0000

  /** The mirrors are at offsets 0x300 .. 0x30C. */
  function BlockRam(k: bv32): bv32 { Plus(BLOCK_RAM, k) }

  /** Both harts at the reset vector, registers and memory arbitrary but the shared words zero. */
  predicate Reset(hi: bv32, s: Sys) {
    && s.hart0.pc == 0 && s.hart1.pc == 0
    && s.mem(Shared(hi, 0)) == 0 && s.mem(Shared(hi, 4)) == 0 && s.mem(Shared(hi, 8)) == 0
    && s.mem(Shared(hi, 12)) == 0 && s.mem(Shared(hi, 16)) == 0 && s.mem(Shared(hi, 20)) == 0
    && s.mem(Shared(hi, 24)) == 0
  }
}
