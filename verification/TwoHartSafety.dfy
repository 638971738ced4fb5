/** What every interleaving of the two-hart program keeps, and what it proves when both harts are done. */
module TwoHartSafety {
  import opened RvEncode
  import opened TwoHart

  // ----- hart by hart -----

  predicate Knows(h: Hart, from: nat, r: bv32, v: bv32) { h.pc >= from ==> Reg(h, r) == v }

  predicate Hart0Holds(hi: bv32, h: Hart) {
    && h.pc <= 20
    && Knows(h, 1, 1, 0)
    && (2 <= h.pc <= 4 ==> Reg(h, 2) == DataBase(hi))
    && Knows(h, 5, 2, SharedBase(hi))
    && Knows(h, 3, 11, BLOCK_RAM)
    && Knows(h, 6, 3, OLD)
    && Knows(h, 8, 4, OLD)                // the early read of X
    && Knows(h, 9, 6, 1)
    && Knows(h, 13, 8, NEW)               // the late read of X
    && Knows(h, 16, 9, NEW2)
    && Knows(h, 19, 12, 0xAAAA_1000)
  }

  predicate Hart1Holds(hi: bv32, h: Hart) {
    && (h.pc <= 3 || 21 <= h.pc <= 36)
    && Knows(h, 1, 1, 1)
    && (2 <= h.pc <= 21 ==> Reg(h, 2) == DataBase(hi))
    && Knows(h, 22, 2, SharedBase(hi))
    && Knows(h, 3, 11, BLOCK_RAM)
    && Knows(h, 23, 9, 0)                 // the first read of Z
    && Knows(h, 26, 3, NEW)
    && Knows(h, 28, 6, 1)
    && Knows(h, 32, 10, NEW2)             // the second read of Z
    && Knows(h, 35, 12, 0xBBBB_1000)
  }

  // ----- the words, as functions of how far each hart has come -----

  predicate Holds(mem: Words, a: bv32, written: bool, v: bv32) { mem(a) == if written then v else 0 }

  predicate WordsHold(hi: bv32, p0: nat, p1: nat, mem: Words) {
    && mem(Shared(hi, 0)) == (if p1 > 26 then NEW else if p0 > 6 then OLD else 0)
    && Holds(mem, Shared(hi, 4), p0 > 9, 1)
    && Holds(mem, Shared(hi, 8), p1 > 28, 1)
    && Holds(mem, Shared(hi, 12), p0 > 13, NEW)
    && Holds(mem, Shared(hi, 16), p0 > 16, NEW2)
    && Holds(mem, Shared(hi, 20), p0 > 17, 1)
    && Holds(mem, Shared(hi, 24), p1 > 32, NEW2)
  }

  predicate MirrorsHold(p0: nat, p1: nat, mem: Words) {
    && (p0 > 14 ==> mem(BlockRam(0x300)) == NEW)
    && (p1 > 33 ==> mem(BlockRam(0x304)) == NEW2)
    && (p0 > 19 ==> mem(BlockRam(0x308)) == 0xAAAA_1000)
    && (p1 > 35 ==> mem(BlockRam(0x30C)) == 0xBBBB_1000)
  }

  /** A hart past a poll has seen the other's flag, and the other is past setting it. */
  predicate Synchronised(h0: Hart, h1: Hart) {
    && (h1.pc == 24 && Reg(h1, 7) != 0 ==> h0.pc > 9) && (h1.pc > 24 ==> h0.pc > 9)
    && (h0.pc == 11 && Reg(h0, 7) != 0 ==> h1.pc > 28) && (h0.pc > 11 ==> h1.pc > 28)
    && (h1.pc == 30 && Reg(h1, 7) != 0 ==> h0.pc > 17) && (h1.pc > 30 ==> h0.pc > 17)
  }

  predicate Inv(hi: bv32, s: Sys) {
    && Hart0Holds(hi, s.hart0)
    && Hart1Holds(hi, s.hart1)
    && WordsHold(hi, s.hart0.pc, s.hart1.pc, s.mem)
    && MirrorsHold(s.hart0.pc, s.hart1.pc, s.mem)
    && Synchronised(s.hart0, s.hart1)
  }

  // ----- addresses and constants -----

  /** The place of a word in its 4 KB page; the data base is page aligned, so offsets decide it. */
  function Page(a: bv32): bv32 { a & 0xFFF }

  lemma SharedPage(hi: bv32, k: bv32)
    requires k < 0x100
    ensures Page(Shared(hi, k)) == 0x200 | k
  {}

  lemma BlockRamPage(k: bv32)
    requires k < 0x1000
    ensures Page(BlockRam(k)) == k
  {}

  predicate IsShared(k: bv32) { k == 0 || k == 4 || k == 8 || k == 12 || k == 16 || k == 20 || k == 24 }

  predicate IsMirror(k: bv32) { k == 0x300 || k == 0x304 || k == 0x308 || k == 0x30C }

  lemma OffsetsSmall(j: bv32, k: bv32)
    ensures IsShared(k) ==> k < 0x100
    ensures IsMirror(k) ==> k < 0x1000
    ensures IsShared(j) && IsShared(k) && 0x200 | j == 0x200 | k ==> j == k
    ensures IsShared(j) && IsMirror(k) ==> 0x200 | j != k
  {}

  /** The eleven words of the program are at different addresses, wherever the data region is. */
  lemma AddressesDiffer(hi: bv32, j: bv32, k: bv32)
    ensures IsShared(j) && IsShared(k) && j != k ==> Shared(hi, j) != Shared(hi, k)
    ensures IsShared(j) && IsMirror(k) ==> Shared(hi, j) != BlockRam(k)
    ensures IsMirror(j) && IsMirror(k) && j != k ==> BlockRam(j) != BlockRam(k)
  {
    OffsetsSmall(j, k);
    OffsetsSmall(k, j);
    hide Shared, BlockRam, IsShared, IsMirror;
    if IsShared(j) { SharedPage(hi, j); }
    if IsShared(k) { SharedPage(hi, k); }
    if IsMirror(j) { BlockRamPage(j); }
    if IsMirror(k) { BlockRamPage(k); }
  }

  lemma Uppers()
    ensures Upper(0x80000) == BLOCK_RAM
    ensures Upper(0x11111) == OLD && Upper(0x22222) == NEW && Upper(0x33333) == NEW2
    ensures Upper(0xAAAA1) == 0xAAAA_1000 && Upper(0xBBBB1) == 0xBBBB_1000
    ensures Plus(0, 1) == 1
  {}

  lemma Branches(pc: nat)
    ensures Target(pc, 72) == pc + 18 && Target(pc, 0) == pc
    ensures pc > 0 ==> Target(pc, 0xFFFF_FFFC) == pc - 1
  {}

  // ----- one store -----

  ghost predicate SameMirrors(mem: Words, mem': Words) {
    forall k :: IsMirror(k) ==> mem'(BlockRam(k)) == mem(BlockRam(k))
  }

  ghost predicate SameShared(hi: bv32, mem: Words, mem': Words) {
    forall k :: IsShared(k) ==> mem'(Shared(hi, k)) == mem(Shared(hi, k))
  }

  lemma StoreShared(hi: bv32, mem: Words, j: bv32, v: bv32)
    requires IsShared(j)
    ensures var mem' := Update(mem, Shared(hi, j), v);
            && SameMirrors(mem, mem')
            && (forall k :: IsShared(k) ==>
                 mem'(Shared(hi, k)) == if k == j then v else mem(Shared(hi, k)))
  {
    hide Shared, BlockRam, IsShared, IsMirror;
    var mem' := Update(mem, Shared(hi, j), v);
    forall k | IsMirror(k) ensures mem'(BlockRam(k)) == mem(BlockRam(k)) { AddressesDiffer(hi, j, k); }
    forall k | IsShared(k)
      ensures mem'(Shared(hi, k)) == if k == j then v else mem(Shared(hi, k))
    {
      AddressesDiffer(hi, j, k);
    }
  }

  lemma StoreMirror(hi: bv32, mem: Words, j: bv32, v: bv32)
    requires IsMirror(j)
    ensures var mem' := Update(mem, BlockRam(j), v);
            && SameShared(hi, mem, mem')
            && (forall k :: IsMirror(k) ==>
                 mem'(BlockRam(k)) == if k == j then v else mem(BlockRam(k)))
  {
    hide Shared, BlockRam, IsShared, IsMirror;
    var mem' := Update(mem, BlockRam(j), v);
    forall k | IsShared(k) ensures mem'(Shared(hi, k)) == mem(Shared(hi, k)) { AddressesDiffer(hi, k, j); }
    forall k | IsMirror(k)
      ensures mem'(BlockRam(k)) == if k == j then v else mem(BlockRam(k))
    {
      AddressesDiffer(hi, j, k);
    }
  }

  // ----- hart 0's registers -----

  lemma RegAfterPut()
    ensures forall h: Hart, r: bv32, v: bv32 :: Put(h, r, v).pc == h.pc + 1
    ensures forall h: Hart, r: bv32, v: bv32, q: bv32 ::
              Reg(Put(h, r, v), q) == if q == r && q != 0 then v else Reg(h, q)
    ensures forall h: Hart, pc: nat, q: bv32 :: Reg(h.(pc := pc), q) == Reg(h, q)
    ensures forall h: Hart :: Reg(h, 0) == 0
  {}

  // What one instruction of hart 0 does to its registers, given what the words it reads hold.
  predicate Hart0Next(hi: bv32, h: Hart, mem: Words) {
    var i := Instruction(hi, h.pc);
    Hart0Holds(hi, Effect(i, 0, h, Loaded(i, h, mem)))
  }

  lemma Hart0Head(hi: bv32, h: Hart, mem: Words)
    requires Hart0Holds(hi, h) && h.pc < 4
    ensures Hart0Next(hi, h, mem)
  {
    Uppers();
    RegAfterPut();
    hide Plus, Upper, Target, Link, Reg, Put;
    if h.pc == 0 {} else if h.pc == 1 {} else if h.pc == 2 {} else {}
  }

  lemma Hart0First(hi: bv32, h: Hart, mem: Words)
    requires Hart0Holds(hi, h) && 4 <= h.pc < 8
    requires h.pc == 7 ==> mem(Shared(hi, 0)) == OLD
    ensures Hart0Next(hi, h, mem)
  {
    Uppers();
    RegAfterPut();
    hide Plus, Upper, DataBase, Target, Link, Reg, Put;
    if h.pc == 4 {} else if h.pc == 5 {} else if h.pc == 6 {} else {}
  }

  lemma Hart0Second(hi: bv32, h: Hart, mem: Words)
    requires Hart0Holds(hi, h) && 8 <= h.pc < 13
    requires h.pc == 12 ==> mem(Shared(hi, 0)) == NEW
    ensures Hart0Next(hi, h, mem)
  {
    Branches(h.pc);
    Uppers();
    RegAfterPut();
    hide Plus, Upper, DataBase, Target, Link, Reg, Put;
    if h.pc == 8 {} else if h.pc == 9 {} else if h.pc == 10 {} else if h.pc == 11 {} else {}
  }

  lemma Hart0Third(hi: bv32, h: Hart, mem: Words)
    requires Hart0Holds(hi, h) && 13 <= h.pc < 17
    ensures Hart0Next(hi, h, mem)
  {
    Uppers();
    RegAfterPut();
    hide Plus, Upper, DataBase, Target, Link, Reg, Put;
    if h.pc == 13 {} else if h.pc == 14 {} else if h.pc == 15 {} else {}
  }

  lemma Hart0Fourth(hi: bv32, h: Hart, mem: Words)
    requires Hart0Holds(hi, h) && 17 <= h.pc
    ensures Hart0Next(hi, h, mem)
  {
    Branches(h.pc);
    Uppers();
    RegAfterPut();
    hide Plus, Upper, DataBase, Target, Link, Reg, Put;
    if h.pc == 17 {} else if h.pc == 18 {} else if h.pc == 19 {} else {}
  }

  // ----- hart 1's registers -----

  predicate Hart1Next(hi: bv32, h: Hart, mem: Words) {
    var i := Instruction(hi, h.pc);
    Hart1Holds(hi, Effect(i, 1, h, Loaded(i, h, mem)))
  }

  lemma Hart1Head(hi: bv32, h: Hart, mem: Words)
    requires Hart1Holds(hi, h) && h.pc < 4
    ensures Hart1Next(hi, h, mem)
  {
    Branches(h.pc);
    Uppers();
    RegAfterPut();
    hide Plus, Upper, Target, Link, Reg, Put;
    if h.pc == 0 {} else if h.pc == 1 {} else if h.pc == 2 {} else {}
  }

  lemma Hart1First(hi: bv32, h: Hart, mem: Words)
    requires Hart1Holds(hi, h) && 4 <= h.pc < 26
    requires h.pc == 22 ==> mem(Shared(hi, 16)) == 0
    ensures Hart1Next(hi, h, mem)
  {
    Branches(h.pc);
    Uppers();
    RegAfterPut();
    hide Plus, Upper, DataBase, Target, Link, Reg, Put;
    if h.pc == 21 {} else if h.pc == 22 {} else if h.pc == 23 {} else if h.pc == 24 {} else {}
  }

  lemma Hart1Second(hi: bv32, h: Hart, mem: Words)
    requires Hart1Holds(hi, h) && 26 <= h.pc < 32
    requires h.pc == 31 ==> mem(Shared(hi, 16)) == NEW2
    ensures Hart1Next(hi, h, mem)
  {
    Branches(h.pc);
    Uppers();
    RegAfterPut();
    hide Plus, Upper, DataBase, Target, Link, Reg, Put;
    if h.pc == 26 {} else if h.pc == 27 {} else if h.pc == 28 {} else if h.pc == 29 {} else if h.pc == 30 {} else {}
  }

  lemma Hart1Third(hi: bv32, h: Hart, mem: Words)
    requires Hart1Holds(hi, h) && 32 <= h.pc
    ensures Hart1Next(hi, h, mem)
  {
    Branches(h.pc);
    Uppers();
    RegAfterPut();
    hide Plus, Upper, DataBase, Target, Link, Reg, Put;
    if h.pc == 32 {} else if h.pc == 33 {} else if h.pc == 34 {} else if h.pc == 35 {} else {}
  }

  // ----- where each hart goes, and what it polls -----

  /** Where hart 0 goes next, and the flag it carries away from a poll. */
  predicate Hart0Goes(hi: bv32, h: Hart, h': Hart, mem: Words) {
    if h.pc == 11 then h'.pc == if Reg(h, 7) == 0 then 10 else 12
    else if h.pc == 20 then h'.pc == 20
    else h'.pc == h.pc + 1 && (h.pc == 10 ==> Reg(h', 7) == mem(Shared(hi, 8)))
  }

  lemma Hart0GoesTo(hi: bv32, h: Hart, mem: Words)
    requires Hart0Holds(hi, h)
    ensures var i := Instruction(hi, h.pc);
            Hart0Goes(hi, h, Effect(i, 0, h, Loaded(i, h, mem)), mem)
  {
    if h.pc < 9 { Hart0GoesEarly(hi, h, mem); } else { Hart0GoesLate(hi, h, mem); }
  }

  lemma Hart0GoesEarly(hi: bv32, h: Hart, mem: Words)
    requires Hart0Holds(hi, h) && h.pc < 9
    ensures var i := Instruction(hi, h.pc);
            Hart0Goes(hi, h, Effect(i, 0, h, Loaded(i, h, mem)), mem)
  {
    RegAfterPut();
    hide Plus, Upper, DataBase, Target, Link, Reg, Put;
    if h.pc == 0 {} else if h.pc == 1 {} else if h.pc == 2 {} else if h.pc == 3 {} else if h.pc == 4 {}
    else if h.pc == 5 {} else if h.pc == 6 {} else if h.pc == 7 {} else {}
  }

  lemma Hart0GoesLate(hi: bv32, h: Hart, mem: Words)
    requires Hart0Holds(hi, h) && h.pc >= 9
    ensures var i := Instruction(hi, h.pc);
            Hart0Goes(hi, h, Effect(i, 0, h, Loaded(i, h, mem)), mem)
  {
    Branches(h.pc);
    RegAfterPut();
    hide Plus, Upper, DataBase, Target, Link, Reg, Put;
    if h.pc == 9 {} else if h.pc == 10 {} else if h.pc == 11 {} else if h.pc == 12 {} else if h.pc == 13 {}
    else if h.pc == 14 {} else if h.pc == 15 {} else if h.pc == 16 {} else if h.pc == 17 {} else if h.pc == 18 {}
    else if h.pc == 19 {} else {}
  }

  predicate Hart1Goes(hi: bv32, h: Hart, h': Hart, mem: Words) {
    if h.pc == 3 then h'.pc == 21
    else if h.pc == 24 then h'.pc == if Reg(h, 7) == 0 then 23 else 25
    else if h.pc == 30 then h'.pc == if Reg(h, 7) == 0 then 29 else 31
    else if h.pc == 36 then h'.pc == 36
    else
      && h'.pc == h.pc + 1
      && (h.pc == 23 ==> Reg(h', 7) == mem(Shared(hi, 4)))
      && (h.pc == 29 ==> Reg(h', 7) == mem(Shared(hi, 20)))
  }

  lemma Hart1GoesTo(hi: bv32, h: Hart, mem: Words)
    requires Hart1Holds(hi, h)
    ensures var i := Instruction(hi, h.pc);
            Hart1Goes(hi, h, Effect(i, 1, h, Loaded(i, h, mem)), mem)
  {
    if h.pc < 4 {
      Hart1GoesFirst(hi, h, mem);
    } else if h.pc < 26 {
      Hart1GoesEarly(hi, h, mem);
    } else {
      Hart1GoesLate(hi, h, mem);
    }
    hide Hart1Goes, Instruction, Effect, Loaded;
  }

  lemma Hart1GoesFirst(hi: bv32, h: Hart, mem: Words)
    requires Hart1Holds(hi, h) && h.pc < 4
    ensures var i := Instruction(hi, h.pc);
            Hart1Goes(hi, h, Effect(i, 1, h, Loaded(i, h, mem)), mem)
  {
    Branches(h.pc);
    RegAfterPut();
    hide Plus, Upper, DataBase, Target, Link, Reg, Put;
    if h.pc == 0 {} else if h.pc == 1 {} else if h.pc == 2 {} else {}
  }

  lemma Hart1GoesEarly(hi: bv32, h: Hart, mem: Words)
    requires Hart1Holds(hi, h) && 4 <= h.pc < 26
    ensures var i := Instruction(hi, h.pc);
            Hart1Goes(hi, h, Effect(i, 1, h, Loaded(i, h, mem)), mem)
  {
    Branches(h.pc);
    RegAfterPut();
    hide Plus, Upper, DataBase, Target, Link, Reg, Put;
    if h.pc == 21 {} else if h.pc == 22 {} else if h.pc == 23 {} else if h.pc == 24 {} else {}
  }

  lemma Hart1GoesLate(hi: bv32, h: Hart, mem: Words)
    requires Hart1Holds(hi, h) && h.pc >= 26
    ensures var i := Instruction(hi, h.pc);
            Hart1Goes(hi, h, Effect(i, 1, h, Loaded(i, h, mem)), mem)
  {
    Branches(h.pc);
    RegAfterPut();
    hide Plus, Upper, DataBase, Target, Link, Reg, Put;
    if h.pc == 26 {} else if h.pc == 27 {} else if h.pc == 28 {} else if h.pc == 29 {} else if h.pc == 30 {}
    else if h.pc == 31 {} else if h.pc == 32 {} else if h.pc == 33 {} else if h.pc == 34 {} else if h.pc == 35 {}
    else {}
  }

  // ----- what each hart stores -----

  /** The seven stores of hart 0. */
  function Hart0Writes(hi: bv32, pc: nat, mem: Words): Words {
    if pc == 6 then Update(mem, Shared(hi, 0), OLD)
    else if pc == 9 then Update(mem, Shared(hi, 4), 1)
    else if pc == 13 then Update(mem, Shared(hi, 12), NEW)
    else if pc == 14 then Update(mem, BlockRam(0x300), NEW)
    else if pc == 16 then Update(mem, Shared(hi, 16), NEW2)
    else if pc == 17 then Update(mem, Shared(hi, 20), 1)
    else if pc == 19 then Update(mem, BlockRam(0x308), 0xAAAA_1000)
    else mem
  }

  lemma Hart0Stores(hi: bv32, h: Hart, mem: Words)
    requires Hart0Holds(hi, h)
    ensures Stored(Instruction(hi, h.pc), h, mem) == Hart0Writes(hi, h.pc, mem)
  {
    hide Plus, Upper, Reg, Update, SharedBase;
    if h.pc < 4 {
      if h.pc == 0 {} else if h.pc == 1 {} else if h.pc == 2 {} else {}
    } else if h.pc < 12 {
      if h.pc == 4 {} else if h.pc == 5 {} else if h.pc == 6 {} else if h.pc == 7 {} else if h.pc == 8 {}
      else if h.pc == 9 {} else if h.pc == 10 {} else {}
    } else {
      if h.pc == 12 {} else if h.pc == 13 {} else if h.pc == 14 {} else if h.pc == 15 {} else if h.pc == 16 {}
      else if h.pc == 17 {} else if h.pc == 18 {} else if h.pc == 19 {} else {}
    }
  }

  /** The five stores of hart 1. */
  function Hart1Writes(hi: bv32, pc: nat, mem: Words): Words {
    if pc == 26 then Update(mem, Shared(hi, 0), NEW)
    else if pc == 28 then Update(mem, Shared(hi, 8), 1)
    else if pc == 32 then Update(mem, Shared(hi, 24), NEW2)
    else if pc == 33 then Update(mem, BlockRam(0x304), NEW2)
    else if pc == 35 then Update(mem, BlockRam(0x30C), 0xBBBB_1000)
    else mem
  }

  lemma Hart1Stores(hi: bv32, h: Hart, mem: Words)
    requires Hart1Holds(hi, h)
    ensures Stored(Instruction(hi, h.pc), h, mem) == Hart1Writes(hi, h.pc, mem)
  {
    hide Plus, Upper, Reg, Update, SharedBase;
    if h.pc < 4 {
      if h.pc == 0 {} else if h.pc == 1 {} else if h.pc == 2 {} else {}
    } else if h.pc < 28 {
      if h.pc == 21 {} else if h.pc == 22 {} else if h.pc == 23 {} else if h.pc == 24 {} else if h.pc == 25 {}
      else if h.pc == 26 {} else {}
    } else {
      if h.pc == 28 {} else if h.pc == 29 {} else if h.pc == 30 {} else if h.pc == 31 {} else if h.pc == 32 {}
      else if h.pc == 33 {} else if h.pc == 34 {} else if h.pc == 35 {} else {}
    }
  }

  predicate Hart0Advances(p0: nat, p0': nat) { p0' == (if p0 == 20 then 20 else p0 + 1) || (p0 == 11 && p0' == 10) }

  lemma Hart0WordsKept(hi: bv32, p0: nat, p1: nat, mem: Words, p0': nat)
    requires WordsHold(hi, p0, p1, mem) && Hart0Advances(p0, p0')
    requires p1 > 24 ==> p0 > 9
    ensures WordsHold(hi, p0', p1, Hart0Writes(hi, p0, mem))
  {
    if p0 < 10 { Hart0WordsKeptEarly(hi, p0, p1, mem, p0'); } else { Hart0WordsKeptLate(hi, p0, p1, mem, p0'); }
  }

  lemma Hart0WordsKeptEarly(hi: bv32, p0: nat, p1: nat, mem: Words, p0': nat)
    requires WordsHold(hi, p0, p1, mem) && Hart0Advances(p0, p0')
    requires p0 < 10 && (p1 > 24 ==> p0 > 9)
    ensures WordsHold(hi, p0', p1, Hart0Writes(hi, p0, mem))
  {
    hide Shared, BlockRam, Update;
    if p0 == 6 { StoreShared(hi, mem, 0, OLD); }
    else if p0 == 9 { StoreShared(hi, mem, 4, 1); }
    else { assert Hart0Writes(hi, p0, mem) == mem; }
  }

  lemma Hart0WordsKeptLate(hi: bv32, p0: nat, p1: nat, mem: Words, p0': nat)
    requires WordsHold(hi, p0, p1, mem) && Hart0Advances(p0, p0')
    requires p0 >= 10
    ensures WordsHold(hi, p0', p1, Hart0Writes(hi, p0, mem))
  {
    hide Shared, BlockRam, Update;
    if p0 == 13 { StoreShared(hi, mem, 12, NEW); }
    else if p0 == 16 { StoreShared(hi, mem, 16, NEW2); }
    else if p0 == 17 { StoreShared(hi, mem, 20, 1); }
    else if p0 == 14 || p0 == 19 { Hart0Mirrors(hi, p0, mem); }
    else { assert Hart0Writes(hi, p0, mem) == mem; }
  }

  lemma Hart0Mirrors(hi: bv32, p0: nat, mem: Words)
    requires p0 == 14 || p0 == 19
    ensures SameShared(hi, mem, Hart0Writes(hi, p0, mem))
  {
    StoreMirror(hi, mem, 0x300, NEW);
    StoreMirror(hi, mem, 0x308, 0xAAAA_1000);
    hide Shared, BlockRam, Update, SameShared;
  }

  lemma Hart0MirrorsKept(hi: bv32, p0: nat, p1: nat, mem: Words, p0': nat)
    requires MirrorsHold(p0, p1, mem) && Hart0Advances(p0, p0')
    ensures MirrorsHold(p0', p1, Hart0Writes(hi, p0, mem))
  {
    hide Shared, BlockRam, Update, SameShared;
    if p0 == 6 { StoreShared(hi, mem, 0, OLD); }
    else if p0 == 9 { StoreShared(hi, mem, 4, 1); }
    else if p0 == 13 { StoreShared(hi, mem, 12, NEW); }
    else if p0 == 14 { StoreMirror(hi, mem, 0x300, NEW); }
    else if p0 == 16 { StoreShared(hi, mem, 16, NEW2); }
    else if p0 == 17 { StoreShared(hi, mem, 20, 1); }
    else if p0 == 19 { StoreMirror(hi, mem, 0x308, 0xAAAA_1000); }
    else { assert Hart0Writes(hi, p0, mem) == mem; }
  }

  predicate Hart1Advances(p1: nat, p1': nat) {
    if p1 == 3 then p1' == 21
    else p1' == (if p1 == 36 then 36 else p1 + 1) || (p1 == 24 && p1' == 23) || (p1 == 30 && p1' == 29)
  }

  lemma Hart1WordsKept(hi: bv32, p0: nat, p1: nat, mem: Words, p1': nat)
    requires WordsHold(hi, p0, p1, mem) && Hart1Advances(p1, p1')
    requires p1' > 26 ==> p0 > 9
    ensures WordsHold(hi, p0, p1', Hart1Writes(hi, p1, mem))
  {
    hide Shared, BlockRam, Update;
    if p1 == 26 { StoreShared(hi, mem, 0, NEW); }
    else if p1 == 28 { StoreShared(hi, mem, 8, 1); }
    else if p1 == 32 { StoreShared(hi, mem, 24, NEW2); }
    else if p1 == 33 || p1 == 35 { Hart1Mirrors(hi, p1, mem); }
    else { assert Hart1Writes(hi, p1, mem) == mem; }
  }

  lemma Hart1Mirrors(hi: bv32, p1: nat, mem: Words)
    requires p1 == 33 || p1 == 35
    ensures SameShared(hi, mem, Hart1Writes(hi, p1, mem))
  {
    StoreMirror(hi, mem, 0x304, NEW2);
    StoreMirror(hi, mem, 0x30C, 0xBBBB_1000);
    hide Shared, BlockRam, Update, SameShared;
  }

  lemma Hart1MirrorsKept(hi: bv32, p0: nat, p1: nat, mem: Words, p1': nat)
    requires MirrorsHold(p0, p1, mem) && Hart1Advances(p1, p1')
    ensures MirrorsHold(p0, p1', Hart1Writes(hi, p1, mem))
  {
    hide Shared, BlockRam, Update, SameShared;
    if p1 == 26 { StoreShared(hi, mem, 0, NEW); }
    else if p1 == 28 { StoreShared(hi, mem, 8, 1); }
    else if p1 == 32 { StoreShared(hi, mem, 24, NEW2); }
    else if p1 == 33 { StoreMirror(hi, mem, 0x304, NEW2); }
    else if p1 == 35 { StoreMirror(hi, mem, 0x30C, 0xBBBB_1000); }
    else { assert Hart1Writes(hi, p1, mem) == mem; }
  }

  // ----- the invariant -----

  lemma Hart0Registers(hi: bv32, s: Sys)
    requires Inv(hi, s)
    ensures Hart0Next(hi, s.hart0, s.mem)
  {
    var h, p0 := s.hart0, s.hart0.pc;
    hide Hart0Next, Hart0Holds, Hart1Holds, MirrorsHold, Shared, Reg;
    if p0 < 4 { Hart0Head(hi, h, s.mem); }
    else if p0 < 8 { Hart0First(hi, h, s.mem); }
    else if p0 < 13 { Hart0Second(hi, h, s.mem); }
    else if p0 < 17 { Hart0Third(hi, h, s.mem); }
    else { Hart0Fourth(hi, h, s.mem); }
  }

  lemma Hart1Registers(hi: bv32, s: Sys)
    requires Inv(hi, s)
    ensures Hart1Next(hi, s.hart1, s.mem)
  {
    var h, p1 := s.hart1, s.hart1.pc;
    hide Hart1Next, Hart0Holds, MirrorsHold, Shared, Reg, Knows;
    if p1 < 4 { Hart1Head(hi, h, s.mem); }
    else if p1 < 26 { Hart1First(hi, h, s.mem); }
    else if p1 < 32 { Hart1Second(hi, h, s.mem); }
    else { Hart1Third(hi, h, s.mem); }
  }

  lemma Hart0StepKeeps(hi: bv32, s: Sys)
    requires Inv(hi, s)
    ensures Inv(hi, Step(hi, s, H0))
  {
    var h, p0, p1 := s.hart0, s.hart0.pc, s.hart1.pc;
    Hart0Registers(hi, s);
    Hart0GoesTo(hi, h, s.mem);
    Hart0Stores(hi, h, s.mem);
    var h' := Step(hi, s, H0).hart0;
    Hart0WordsKept(hi, p0, p1, s.mem, h'.pc);
    Hart0MirrorsKept(hi, p0, p1, s.mem, h'.pc);
    hide Effect, Loaded, Stored, Instruction, Hart0Writes, Reg, Shared, MirrorsHold, Knows, Hart1Holds;
  }

  lemma Hart1StepKeeps(hi: bv32, s: Sys)
    requires Inv(hi, s)
    ensures Inv(hi, Step(hi, s, H1))
  {
    var h, p0, p1 := s.hart1, s.hart0.pc, s.hart1.pc;
    Hart1Registers(hi, s);
    Hart1GoesTo(hi, h, s.mem);
    Hart1Stores(hi, h, s.mem);
    var h' := Step(hi, s, H1).hart1;
    Hart1WordsKept(hi, p0, p1, s.mem, h'.pc);
    Hart1MirrorsKept(hi, p0, p1, s.mem, h'.pc);
    hide Effect, Loaded, Stored, Instruction, Hart1Writes, Reg, Shared, MirrorsHold, Knows, Hart0Holds;
  }

  lemma {:induction false} RunKeeps(hi: bv32, s: Sys, sched: seq<Id>)
    requires Inv(hi, s)
    ensures Inv(hi, Run(hi, s, sched))
  {
    hide Inv, Step;
    if sched != [] {
      RunKeeps(hi, s, sched[..|sched| - 1]);
      var before := Run(hi, s, sched[..|sched| - 1]);
      if sched[|sched| - 1].H0? { Hart0StepKeeps(hi, before); } else { Hart1StepKeeps(hi, before); }
    }
  }

  lemma ResetHolds(hi: bv32, s: Sys)
    requires Reset(hi, s)
    ensures Inv(hi, s)
  {
    hide Shared, BlockRam;
  }

  // Both harts are in their final spin.
  predicate Finished(s: Sys) { s.hart0.pc == 20 && s.hart1.pc == 36 }

  /** Under every interleaving: hart 1's first read of Z is 0, hart 0's early read of X is OLD, and the reads
      made after the polls are NEW and NEW2. */
  lemma ReadsAreCoherent(hi: bv32, s: Sys, sched: seq<Id>)
    requires Reset(hi, s)
    ensures var t := Run(hi, s, sched);
            && (t.hart1.pc >= 23 ==> Reg(t.hart1, 9) == 0)
            && (t.hart0.pc >= 8 ==> Reg(t.hart0, 4) == OLD)
            && (t.hart0.pc >= 13 ==> Reg(t.hart0, 8) == NEW)
            && (t.hart1.pc >= 32 ==> Reg(t.hart1, 10) == NEW2)
  {
    ResetHolds(hi, s);
    RunKeeps(hi, s, sched);
    hide Run, Reg, Reset;
  }

  /** When both harts spin, result and result2 and their mirrors are NEW and NEW2, and both have reported. */
  lemma FinishedMeansCoherent(hi: bv32, s: Sys, sched: seq<Id>)
    requires Reset(hi, s) && Finished(Run(hi, s, sched))
    ensures var t := Run(hi, s, sched);
            && t.mem(Shared(hi, 12)) == NEW && t.mem(Shared(hi, 24)) == NEW2
            && t.mem(BlockRam(0x300)) == NEW && t.mem(BlockRam(0x304)) == NEW2
            && t.mem(BlockRam(0x308)) == 0xAAAA_1000 && t.mem(BlockRam(0x30C)) == 0xBBBB_1000
  {
    ResetHolds(hi, s);
    RunKeeps(hi, s, sched);
    hide Run, Reset, Shared, BlockRam;
  }
}
