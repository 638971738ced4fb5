/** The instruction encoders of the two-hart program generator, and a decoder of the RV32I formats
    (the RISC-V Instruction Set Manual, Volume I, chapter 2) that recovers what was encoded. */
module RvEncode {

  // ----- encoders, on the 32 bits that reach the word list -----

  function IType(imm: bv32, rs1: bv32, f3: bv32, rd: bv32, op: bv32): bv32 {
    ((imm & 0xFFF) << 20) | ((rs1 & 0x1F) << 15) | ((f3 & 7) << 12) | ((rd & 0x1F) << 7) | (op & 0x7F)
  }

  function UType(imm20: bv32, rd: bv32, op: bv32): bv32 {
    ((imm20 & 0xFFFFF) << 12) | ((rd & 0x1F) << 7) | (op & 0x7F)
  }

  function SType(imm: bv32, rs1: bv32, rs2: bv32, f3: bv32, op: bv32): bv32 {
    (((imm >> 5) & 0x7F) << 25) | ((rs2 & 0x1F) << 20) | ((rs1 & 0x1F) << 15) | ((f3 & 7) << 12)
    | ((imm & 0x1F) << 7) | (op & 0x7F)
  }

  function BType(imm: bv32, rs1: bv32, rs2: bv32, f3: bv32, op: bv32): bv32 {
    (((imm >> 12) & 1) << 31) | (((imm >> 5) & 0x3F) << 25) | ((rs2 & 0x1F) << 20) | ((rs1 & 0x1F) << 15)
    | ((f3 & 7) << 12) | (((imm >> 1) & 0xF) << 8) | (((imm >> 11) & 1) << 7) | (op & 0x7F)
  }

  function JType(imm: bv32, rd: bv32, op: bv32): bv32 {
    (((imm >> 20) & 1) << 31) | (((imm >> 1) & 0x3FF) << 21) | (((imm >> 11) & 1) << 20)
    | (((imm >> 12) & 0xFF) << 12) | ((rd & 0x1F) << 7) | (op & 0x7F)
  }

  function EncLw(rd: bv32, off: bv32, rs1: bv32): bv32 { IType(off, rs1, 2, rd, 0x03) }
  function EncSw(rs2: bv32, off: bv32, rs1: bv32): bv32 { SType(off, rs1, rs2, 2, 0x23) }
  function EncAddi(rd: bv32, rs1: bv32, imm: bv32): bv32 { IType(imm, rs1, 0, rd, 0x13) }
  function EncLui(rd: bv32, imm20: bv32): bv32 { UType(imm20, rd, 0x37) }
  function EncBeq(rs1: bv32, rs2: bv32, off: bv32): bv32 { BType(off, rs1, rs2, 0, 0x63) }
  function EncBne(rs1: bv32, rs2: bv32, off: bv32): bv32 { BType(off, rs1, rs2, 1, 0x63) }
  function EncCsrr(rd: bv32, csr: bv32): bv32 { IType(csr, 0, 2, rd, 0x73) }
  function EncJal(rd: bv32, off: bv32): bv32 { JType(off, rd, 0x6F) }

  // ----- decoder -----

  datatype Instr =
    | Lw(rd: bv32, off: bv32, rs1: bv32)
    | Sw(rs2: bv32, off: bv32, rs1: bv32)
    | Addi(rd: bv32, rs1: bv32, imm: bv32)
    | Lui(rd: bv32, imm20: bv32)
    | Beq(rs1: bv32, rs2: bv32, off: bv32)
    | Bne(rs1: bv32, rs2: bv32, off: bv32)
    | Csrr(rd: bv32, csr: bv32)
    | Jal(rd: bv32, off: bv32)
    | Other

  function Op(w: bv32): bv32 { w & 0x7F }
  function F3(w: bv32): bv32 { (w >> 12) & 7 }
  function Rd(w: bv32): bv32 { (w >> 7) & 0x1F }
  function Rs1(w: bv32): bv32 { (w >> 15) & 0x1F }
  function Rs2(w: bv32): bv32 { (w >> 20) & 0x1F }

  function Imm20(w: bv32): bv32 { w >> 12 }
  function Csr(w: bv32): bv32 { w >> 20 }

  /** Copy the bit `sign` into every bit above it. */
  function SignExtend(x: bv32, sign: bv32): bv32 { (x ^ sign) - sign }

  function ImmI(w: bv32): bv32 { SignExtend(w >> 20, 0x800) }
  function ImmS(w: bv32): bv32 { SignExtend(((w >> 25) << 5) | ((w >> 7) & 0x1F), 0x800) }

  function ImmB(w: bv32): bv32 {
    SignExtend(((w >> 31) << 12) | (((w >> 7) & 1) << 11) | (((w >> 25) & 0x3F) << 5) | (((w >> 8) & 0xF) << 1), 0x1000)
  }

  function ImmJ(w: bv32): bv32 {
    SignExtend(((w >> 31) << 20) | (((w >> 12) & 0xFF) << 12) | (((w >> 20) & 1) << 11) | (((w >> 21) & 0x3FF) << 1),
               0x100000)
  }

  function Decode(w: bv32): Instr {
    var op, f3 := Op(w), F3(w);
    if op == 0x03 && f3 == 2 then Lw(Rd(w), ImmI(w), Rs1(w))
    else if op == 0x23 && f3 == 2 then Sw(Rs2(w), ImmS(w), Rs1(w))
    else if op == 0x13 && f3 == 0 then Addi(Rd(w), Rs1(w), ImmI(w))
    else if op == 0x37 then Lui(Rd(w), Imm20(w))
    else if op == 0x63 && f3 == 0 then Beq(Rs1(w), Rs2(w), ImmB(w))
    else if op == 0x63 && f3 == 1 then Bne(Rs1(w), Rs2(w), ImmB(w))
    else if op == 0x73 && f3 == 2 && Rs1(w) == 0 then Csrr(Rd(w), Csr(w))
    else if op == 0x6F then Jal(Rd(w), ImmJ(w))
    else Other
  }

  // ----- known words -----

  /** One instruction of each format, as an assembler writes it. */
  lemma KnownWords()
    ensures EncCsrr(1, 0xF14) == 0xF140_20F3       // csrr x1, mhartid
    ensures EncLui(3, 0x11111) == 0x1111_11B7      // lui x3, 0x11111
    ensures EncAddi(2, 2, 0x200) == 0x2001_0113    // addi x2, x2, 0x200
    ensures EncLw(9, 16, 2) == 0x0101_2483         // lw x9, 16(x2)
    ensures EncSw(6, 20, 2) == 0x0061_2A23         // sw x6, 20(x2)
    ensures EncBeq(7, 0, 0xFFFF_FFFC) == 0xFE03_8EE3   // beq x7, x0, -4
    ensures EncBne(1, 0, 72) == 0x0400_9463        // bne x1, x0, 72
    ensures EncJal(0, 0) == 0x0000_006F            // jal x0, 0
  {}

  // ----- what fits the fields -----

  predicate IsReg(r: bv32) { r < 32 }

  /** A signed value whose sign bit is `sign`. */
  predicate Fits(imm: bv32, sign: bv32) { imm + sign < 2 * sign }

  predicate Even(imm: bv32) { imm & 1 == 0 }

  predicate Encodable(i: Instr) {
    match i
    case Lw(rd, off, rs1) => IsReg(rd) && IsReg(rs1) && Fits(off, 0x800)
    case Sw(rs2, off, rs1) => IsReg(rs2) && IsReg(rs1) && Fits(off, 0x800)
    case Addi(rd, rs1, imm) => IsReg(rd) && IsReg(rs1) && Fits(imm, 0x800)
    case Lui(rd, imm20) => IsReg(rd) && imm20 < 0x100000
    case Beq(rs1, rs2, off) => IsReg(rs1) && IsReg(rs2) && Fits(off, 0x1000) && Even(off)
    case Bne(rs1, rs2, off) => IsReg(rs1) && IsReg(rs2) && Fits(off, 0x1000) && Even(off)
    case Csrr(rd, csr) => IsReg(rd) && csr < 0x1000
    case Jal(rd, off) => IsReg(rd) && Fits(off, 0x100000) && Even(off)
    case Other => false
  }

  function Encode(i: Instr): bv32
    requires Encodable(i)
  {
    match i
    case Lw(rd, off, rs1) => EncLw(rd, off, rs1)
    case Sw(rs2, off, rs1) => EncSw(rs2, off, rs1)
    case Addi(rd, rs1, imm) => EncAddi(rd, rs1, imm)
    case Lui(rd, imm20) => EncLui(rd, imm20)
    case Beq(rs1, rs2, off) => EncBeq(rs1, rs2, off)
    case Bne(rs1, rs2, off) => EncBne(rs1, rs2, off)
    case Csrr(rd, csr) => EncCsrr(rd, csr)
    case Jal(rd, off) => EncJal(rd, off)
  }

  // ----- format by format -----

  lemma IFields(imm: bv32, rs1: bv32, f3: bv32, rd: bv32, op: bv32)
    requires IsReg(rs1) && IsReg(rd) && f3 < 8 && op < 0x80
    ensures var w := IType(imm, rs1, f3, rd, op);
            Op(w) == op && F3(w) == f3 && Rd(w) == rd && Rs1(w) == rs1
  {}

  lemma TopField(imm: bv32, rs1: bv32, f3: bv32, rd: bv32, op: bv32)
    ensures IType(imm, rs1, f3, rd, op) >> 20 == imm & 0xFFF
  {}

  lemma LowBitsExtend(imm: bv32)
    requires Fits(imm, 0x800)
    ensures SignExtend(imm & 0xFFF, 0x800) == imm
  {}

  lemma LowBitsAll(imm: bv32)
    requires imm < 0x1000
    ensures imm & 0xFFF == imm
  {}

  lemma IImmediate(imm: bv32, rs1: bv32, f3: bv32, rd: bv32, op: bv32)
    ensures var w := IType(imm, rs1, f3, rd, op);
            (Fits(imm, 0x800) ==> ImmI(w) == imm) && (imm < 0x1000 ==> Csr(w) == imm)
  {
    TopField(imm, rs1, f3, rd, op);
    if Fits(imm, 0x800) { LowBitsExtend(imm); }
    if imm < 0x1000 { LowBitsAll(imm); }
    hide IType, SignExtend, Fits;
  }

  lemma SFields(imm: bv32, rs1: bv32, rs2: bv32, f3: bv32, op: bv32)
    requires IsReg(rs1) && IsReg(rs2) && f3 < 8 && op < 0x80
    ensures var w := SType(imm, rs1, rs2, f3, op);
            Op(w) == op && F3(w) == f3 && Rs1(w) == rs1 && Rs2(w) == rs2
  {}

  lemma SImmediate(imm: bv32, rs1: bv32, rs2: bv32, f3: bv32, op: bv32)
    requires Fits(imm, 0x800)
    ensures ImmS(SType(imm, rs1, rs2, f3, op)) == imm
  {}

  lemma BFields(imm: bv32, rs1: bv32, rs2: bv32, f3: bv32, op: bv32)
    requires IsReg(rs1) && IsReg(rs2) && f3 < 8 && op < 0x80
    ensures var w := BType(imm, rs1, rs2, f3, op);
            Op(w) == op && F3(w) == f3 && Rs1(w) == rs1 && Rs2(w) == rs2
  {}

  lemma BImmediate(imm: bv32, rs1: bv32, rs2: bv32, f3: bv32, op: bv32)
    requires Fits(imm, 0x1000) && Even(imm)
    ensures ImmB(BType(imm, rs1, rs2, f3, op)) == imm
  {}

  lemma UFields(imm20: bv32, rd: bv32, op: bv32)
    requires IsReg(rd) && op < 0x80 && imm20 < 0x100000
    ensures var w := UType(imm20, rd, op);
            Op(w) == op && Rd(w) == rd && Imm20(w) == imm20
  {}

  lemma JFields(imm: bv32, rd: bv32, op: bv32)
    requires IsReg(rd) && op < 0x80 && Fits(imm, 0x100000) && Even(imm)
    ensures var w := JType(imm, rd, op);
            Op(w) == op && Rd(w) == rd && ImmJ(w) == imm
  {}

  lemma ZeroIsReg()
    ensures IsReg(0)
  {}

  lemma DecodeImmediateForms(i: Instr)
    requires Encodable(i) && (i.Lw? || i.Addi? || i.Csrr?)
    ensures Decode(Encode(i)) == i
  {
    hide Op, F3, Rd, Rs1, Rs2, ImmI, ImmS, ImmB, ImmJ, Imm20, Csr, Fits, Even, IsReg, IType;
    ZeroIsReg();
    match i
    case Lw(rd, off, rs1) => IFields(off, rs1, 2, rd, 0x03); IImmediate(off, rs1, 2, rd, 0x03);
    case Addi(rd, rs1, imm) => IFields(imm, rs1, 0, rd, 0x13); IImmediate(imm, rs1, 0, rd, 0x13);
    case Csrr(rd, csr) => IFields(csr, 0, 2, rd, 0x73); IImmediate(csr, 0, 2, rd, 0x73);
  }

  lemma DecodeOtherForms(i: Instr)
    requires Encodable(i) && !i.Lw? && !i.Addi? && !i.Csrr?
    ensures Decode(Encode(i)) == i
  {
    hide Op, F3, Rd, Rs1, Rs2, ImmI, ImmS, ImmB, ImmJ, Imm20, Csr, Fits, Even, IsReg, SType, BType, UType, JType;
    match i
    case Sw(rs2, off, rs1) => SFields(off, rs1, rs2, 2, 0x23); SImmediate(off, rs1, rs2, 2, 0x23);
    case Lui(rd, imm20) => UFields(imm20, rd, 0x37);
    case Beq(rs1, rs2, off) => BFields(off, rs1, rs2, 0, 0x63); BImmediate(off, rs1, rs2, 0, 0x63);
    case Bne(rs1, rs2, off) => BFields(off, rs1, rs2, 1, 0x63); BImmediate(off, rs1, rs2, 1, 0x63);
    case Jal(rd, off) => JFields(off, rd, 0x6F);
  }

  /** Decoding undoes encoding, for every instruction whose operands fit their fields. */
  lemma DecodeEncode(i: Instr)
    requires Encodable(i)
    ensures Decode(Encode(i)) == i
  {
    hide Decode, Encode, Encodable;
    if i.Lw? || i.Addi? || i.Csrr? { DecodeImmediateForms(i); } else { DecodeOtherForms(i); }
  }
}
