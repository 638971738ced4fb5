/** The two-hart program over caches that do not drop a word when the other hart writes it: the four ways in which
    a stale copy shows, each of which some run reaches, and none of which ends while the copy stays. */
module TwoHartStale {
  import opened Wrappers
  import opened RvEncode
  import opened TwoHart
  import opened TwoHartSafety
  import opened TwoHartCaches

  /** Hart 0 spins on `done` or reads X as it was; hart 1 spins on go2 or reads Z as it was. */
  datatype Fault = SpinsOnDone | ReadsOldX | SpinsOnGo2 | ReadsOldZ

  function Victim(f: Fault): Id { if f.SpinsOnDone? || f.ReadsOldX? then H0 else H1 }

  function Offset(f: Fault): bv32 {
    match f
    case SpinsOnDone => 8
    case ReadsOldX => 0
    case SpinsOnGo2 => 20
    case ReadsOldZ => 16
  }

  function StaleValue(f: Fault): bv32 { if f.ReadsOldX? then OLD else 0 }

  /** How the fault shows: a hart that stays at its poll, or one whose read after the poll gives the old value. */
  predicate Suffers(hi: bv32, f: Fault, h: Hart) {
    && Reg(h, 2) == SharedBase(hi) && Reg(h, 11) == BLOCK_RAM
    && match f
       case SpinsOnDone => h.pc == 10 || (h.pc == 11 && Reg(h, 7) == 0)
       case ReadsOldX => 8 <= h.pc <= 20 && (h.pc >= 13 ==> Reg(h, 8) == OLD)
       case SpinsOnGo2 => h.pc == 29 || (h.pc == 30 && Reg(h, 7) == 0)
       case ReadsOldZ => 23 <= h.pc <= 36 && (h.pc >= 32 ==> Reg(h, 10) == 0)
  }

  predicate Faulty(hi: bv32, f: Fault, c: Cached) {
    Suffers(hi, f, HartOf(c.sys, Victim(f))) && Holding(c, Victim(f), Shared(hi, Offset(f)), StaleValue(f))
  }

  /** The victim's cache neither evicts nor refills its copy. */
  predicate LeavesCopy(hi: bv32, f: Fault, act: Action) {
    act.Exec? || act.id != Victim(f) || act.addr != Shared(hi, Offset(f))
  }

  // ----- for ever -----

  lemma Hart0Suffers(hi: bv32, f: Fault, h: Hart, loaded: bv32)
    requires Victim(f).H0?
    requires Suffers(hi, f, h)
    requires var i := Instruction(hi, h.pc);
             i.Lw? && Accessed(i, h) == Shared(hi, Offset(f)) ==> loaded == StaleValue(f)
    ensures Suffers(hi, f, Effect(Instruction(hi, h.pc), Number(Victim(f)), h, loaded))
  {
    Branches(h.pc);
    RegAfterPut();
    hide Plus, SharedBase, Upper, Target, Link, Reg, Put;
    if h.pc == 8 {} else if h.pc == 9 {} else if h.pc == 10 {} else if h.pc == 11 {} else if h.pc == 12 {}
    else if h.pc == 13 {} else if h.pc == 14 {} else if h.pc == 15 {} else if h.pc == 16 {} else if h.pc == 17 {}
    else if h.pc == 18 {} else if h.pc == 19 {} else {}
  }

  lemma Hart1Suffers(hi: bv32, f: Fault, h: Hart, loaded: bv32)
    requires Victim(f).H1?
    requires Suffers(hi, f, h)
    requires var i := Instruction(hi, h.pc);
             i.Lw? && Accessed(i, h) == Shared(hi, Offset(f)) ==> loaded == StaleValue(f)
    ensures Suffers(hi, f, Effect(Instruction(hi, h.pc), Number(Victim(f)), h, loaded))
  {
    Branches(h.pc);
    RegAfterPut();
    hide Plus, SharedBase, Upper, Target, Link, Reg, Put;
    if h.pc == 23 {} else if h.pc == 24 {} else if h.pc == 25 {} else if h.pc == 26 {} else if h.pc == 27 {}
    else if h.pc == 28 {} else if h.pc == 29 {} else if h.pc == 30 {} else if h.pc == 31 {} else if h.pc == 32 {}
    else if h.pc == 33 {} else if h.pc == 34 {} else if h.pc == 35 {} else {}
  }

  lemma Places(hi: bv32, k: bv32)
    ensures Shared(hi, k) == Plus(SharedBase(hi), k) && BlockRam(k) == Plus(BLOCK_RAM, k)
  {}

  // The victim does not store to the word.
  lemma StoresNotX(hi: bv32, h: Hart)
    requires Suffers(hi, ReadsOldX, h) && Instruction(hi, h.pc).Sw?
    ensures Accessed(Instruction(hi, h.pc), h) != Shared(hi, 0)
  {
    AddressesDiffer(hi, 0, 4);
    AddressesDiffer(hi, 0, 12);
    AddressesDiffer(hi, 0, 16);
    AddressesDiffer(hi, 0, 20);
    AddressesDiffer(hi, 0, 0x300);
    AddressesDiffer(hi, 0, 0x308);
    Places(hi, 4); Places(hi, 12); Places(hi, 16); Places(hi, 20); Places(hi, 0x300); Places(hi, 0x308);
    hide Plus, SharedBase, Reg, Shared, BlockRam;
    if h.pc == 9 {} else if h.pc == 13 {} else if h.pc == 14 {} else if h.pc == 16 {} else if h.pc == 17 {} else {}
  }

  lemma StoresNotZ(hi: bv32, h: Hart)
    requires Suffers(hi, ReadsOldZ, h) && Instruction(hi, h.pc).Sw?
    ensures Accessed(Instruction(hi, h.pc), h) != Shared(hi, 16)
  {
    AddressesDiffer(hi, 16, 0);
    AddressesDiffer(hi, 16, 8);
    AddressesDiffer(hi, 16, 24);
    AddressesDiffer(hi, 16, 0x304);
    AddressesDiffer(hi, 16, 0x30C);
    Places(hi, 0); Places(hi, 8); Places(hi, 24); Places(hi, 0x304); Places(hi, 0x30C);
    hide Plus, SharedBase, Reg, Shared, BlockRam;
    if h.pc == 26 {} else if h.pc == 28 {} else if h.pc == 32 {} else if h.pc == 33 {} else {}
  }

  lemma StoresElsewhere(hi: bv32, f: Fault, h: Hart)
    requires Suffers(hi, f, h) && Instruction(hi, h.pc).Sw?
    ensures Accessed(Instruction(hi, h.pc), h) != Shared(hi, Offset(f))
  {
    if f.ReadsOldX? {
      StoresNotX(hi, h);
    } else if f.ReadsOldZ? {
      StoresNotZ(hi, h);
    } else {
      PollsStoreNothing(hi, h);
    }
    hide Accessed, Shared, Reg, SharedBase;
  }

  lemma PollsStoreNothing(hi: bv32, h: Hart)
    requires h.pc == 10 || h.pc == 11 || h.pc == 29 || h.pc == 30
    ensures !Instruction(hi, h.pc).Sw?
  {
    if h.pc == 10 {} else if h.pc == 11 {} else if h.pc == 29 {} else {}
  }

  // A hart's own accesses keep a word its cache holds, unless it stores to it.
  lemma OwnCopyStays(hi: bv32, c: Cached, id: Id, allocate: bool, a: bv32, v: bv32)
    requires Holding(c, id, a, v)
    requires var h := HartOf(c.sys, id); Instruction(hi, h.pc).Sw? ==> Accessed(Instruction(hi, h.pc), h) != a
    ensures var c' := Execute(hi, false, c, id, allocate);
            var h := HartOf(c.sys, id);
            var i := Instruction(hi, h.pc);
            && Holding(c', id, a, v)
            && HartOf(c'.sys, id) == Effect(i, Number(id), h, CachedLoad(i, h, CacheOf(c, id), c.sys.mem))
  {
    hide Instruction, Effect, Accessed, Stored;
  }

  lemma VictimRuns(hi: bv32, f: Fault, c: Cached, allocate: bool)
    requires Faulty(hi, f, c)
    ensures Faulty(hi, f, Execute(hi, false, c, Victim(f), allocate))
  {
    var id := Victim(f);
    var h := HartOf(c.sys, id);
    var i := Instruction(hi, h.pc);
    var loaded := CachedLoad(i, h, CacheOf(c, id), c.sys.mem);
    if i.Sw? { StoresElsewhere(hi, f, h); }
    hide Instruction, Effect, Accessed, Suffers, Stored, Shared, Offset, StaleValue, Execute;
    OwnCopyStays(hi, c, id, allocate, Shared(hi, Offset(f)), StaleValue(f));
    if id.H0? { Hart0Suffers(hi, f, h, loaded); } else { Hart1Suffers(hi, f, h, loaded); }
  }

  // What others do leaves the victim's registers and its cache alone.
  lemma OthersLeave(hi: bv32, c: Cached, id: Id, a: bv32, act: Action)
    requires if act.Exec? then act.id != id else act.id != id || act.addr != a
    ensures var c' := Act(hi, false, c, act);
            HartOf(c'.sys, id) == HartOf(c.sys, id) && CacheOf(c', id)(a) == CacheOf(c, id)(a)
  {
    hide Instruction, Effect, Accessed, CachedLoad, Stored;
  }

  lemma FaultStays(hi: bv32, f: Fault, c: Cached, act: Action)
    requires Faulty(hi, f, c) && LeavesCopy(hi, f, act)
    ensures Faulty(hi, f, Act(hi, false, c, act))
  {
    if act.Exec? && act.id == Victim(f) {
      VictimRuns(hi, f, c, act.allocate);
      hide Execute, Faulty;
    } else {
      OthersLeave(hi, c, Victim(f), Shared(hi, Offset(f)), act);
      hide Act, Suffers, Shared, Offset, StaleValue, Victim;
    }
  }

  /** Whatever the harts and the caches do, a stale copy that is neither evicted nor refilled keeps its hart at its
      poll, or keeps the old value in what it reads. */
  lemma {:induction false} StaleForEver(hi: bv32, f: Fault, c: Cached, acts: seq<Action>)
    requires Faulty(hi, f, c) && forall i :: 0 <= i < |acts| ==> LeavesCopy(hi, f, acts[i])
    ensures Faulty(hi, f, Acts(hi, false, c, acts))
  {
    hide Faulty, Act, LeavesCopy;
    if acts != [] {
      StaleForEver(hi, f, c, acts[..|acts| - 1]);
      FaultStays(hi, f, Acts(hi, false, c, acts[..|acts| - 1]), acts[|acts| - 1]);
    }
  }

  // ----- and reached -----

  /** n turns of one hart, every load and store allocating. */
  function Turns(id: Id, n: nat): seq<Action> { seq(n, _ => Exec(id, true)) }

  lemma TurnsOn(hi: bv32, c: Cached, id: Id, n: nat)
    ensures Acts(hi, false, c, Turns(id, 0)) == c
    ensures Acts(hi, false, c, Turns(id, n + 1)) == Execute(hi, false, Acts(hi, false, c, Turns(id, n)), id, true)
  {
    assert Turns(id, n + 1)[..n] == Turns(id, n);
    hide Execute;
  }

  // A hart on its own: its cache agrees with memory, drop or no drop, and holds what it has just read.
  lemma OwnTurn(hi: bv32, c: Cached, id: Id)
    requires Agrees(CacheOf(c, id), c.sys.mem)
    ensures var c' := Execute(hi, false, c, id, true);
            && c'.sys == Step(hi, c.sys, id) && Agrees(CacheOf(c', id), c'.sys.mem)
            && CacheOf(c', TwoHartCaches.Other(id)) == CacheOf(c, TwoHartCaches.Other(id))
            && var h := HartOf(c.sys, id);
               var i := Instruction(hi, h.pc);
               i.Lw? ==> Holding(c', id, Accessed(i, h), c.sys.mem(Accessed(i, h)))
  {
    hide Instruction, Effect, Plus, Reg;
  }

  /** Where hart 1 is after n turns, the flag being set by the time it polls it. */
  function Path1(n: nat): nat { if n < 4 then n else n + 17 }

  lemma {:induction false} Hart0Walks(hi: bv32, c: Cached, n: nat)
    requires Inv(hi, c.sys) && c.sys.hart0.pc == 0 && Agrees(c.cache0, c.sys.mem) && n <= 10
    ensures var c' := Acts(hi, false, c, Turns(H0, n));
            && Inv(hi, c'.sys) && c'.sys.hart0.pc == n && c'.sys.hart1 == c.sys.hart1
            && Agrees(c'.cache0, c'.sys.mem) && c'.cache1 == c.cache1
  {
    TurnsOn(hi, c, H0, if n == 0 then 0 else n - 1);
    if n > 0 {
      Hart0Walks(hi, c, n - 1);
      var before := Acts(hi, false, c, Turns(H0, n - 1));
      OwnTurn(hi, before, H0);
      Hart0StepKeeps(hi, before.sys);
      Hart0GoesTo(hi, before.sys.hart0, before.sys.mem);
      hide Acts, Execute, Instruction, Effect, Loaded, Stored, Knows, WordsHold, MirrorsHold, Synchronised;
    }
  }

  lemma {:induction false} Hart1Walks(hi: bv32, c: Cached, n: nat)
    requires Inv(hi, c.sys) && c.sys.hart1.pc == 0 && Agrees(c.cache1, c.sys.mem)
    requires n <= 12 && (n > 7 ==> c.sys.hart0.pc > 9)
    ensures var c' := Acts(hi, false, c, Turns(H1, n));
            && Inv(hi, c'.sys) && c'.sys.hart1.pc == Path1(n) && c'.sys.hart0 == c.sys.hart0
            && Agrees(c'.cache1, c'.sys.mem)
            && (n == 7 ==> Reg(c'.sys.hart1, 7) == c'.sys.mem(Shared(hi, 4)))
  {
    TurnsOn(hi, c, H1, if n == 0 then 0 else n - 1);
    if n > 0 {
      Hart1Walks(hi, c, n - 1);
      var before := Acts(hi, false, c, Turns(H1, n - 1));
      OwnTurn(hi, before, H1);
      Hart1WalksOn(hi, before.sys, n);
      hide Acts, Execute, Inv, Step, Reg, Shared, Instruction, Accessed, Path1, Agrees;
    }
  }

  lemma Hart1WalksOn(hi: bv32, s: Sys, n: nat)
    requires Inv(hi, s) && 0 < n <= 12 && s.hart1.pc == Path1(n - 1) && (n > 7 ==> s.hart0.pc > 9)
    requires n == 8 ==> Reg(s.hart1, 7) == s.mem(Shared(hi, 4))
    ensures var t := Step(hi, s, H1);
            && Inv(hi, t) && t.hart0 == s.hart0 && t.hart1.pc == Path1(n)
            && (n == 7 ==> Reg(t.hart1, 7) == t.mem(Shared(hi, 4)))
  {
    Hart1Own(hi, s);
    if s.hart0.pc > 9 { FlagSet(hi, s); }
    hide Inv, Step, Reg, Shared;
  }

  lemma Hart1Own(hi: bv32, s: Sys)
    requires Inv(hi, s)
    ensures var t := Step(hi, s, H1);
            && Inv(hi, t) && t.hart0 == s.hart0 && Hart1Goes(hi, s.hart1, t.hart1, s.mem)
            && (s.hart1.pc == 23 ==> t.mem == s.mem)
  {
    Hart1StepKeeps(hi, s);
    Hart1GoesTo(hi, s.hart1, s.mem);
    if s.hart1.pc == 23 { LoadKeepsMemory(hi, s); }
    hide Inv, Hart1Goes, Instruction, Effect, Loaded, Stored;
  }

  lemma FlagSet(hi: bv32, s: Sys)
    requires Inv(hi, s) && s.hart0.pc > 9
    ensures s.mem(Shared(hi, 4)) == 1
  {}

  lemma LoadKeepsMemory(hi: bv32, s: Sys)
    requires s.hart1.pc == 23
    ensures Step(hi, s, H1).mem == s.mem
  {}

  lemma {:induction false} ActsSplit(hi: bv32, c: Cached, a: seq<Action>, b: seq<Action>)
    ensures Acts(hi, false, c, a + b) == Acts(hi, false, Acts(hi, false, c, a), b)
  {
    hide Act;
    if b == [] {
      assert a + b == a;
    } else {
      var front := b[..|b| - 1];
      assert (a + b)[..|a + b| - 1] == a + front;
      ActsSplit(hi, c, a, front);
    }
  }

  // The turn before the read that leaves the stale copy.
  predicate AboutToRead(f: Fault, s: Sys) {
    match f
    case SpinsOnDone => s.hart0.pc == 10 && s.hart1.pc == 0
    case ReadsOldX => s.hart0.pc == 7 && s.hart1.pc == 0
    case SpinsOnGo2 => s.hart0.pc == 10 && s.hart1.pc == 29
    case ReadsOldZ => s.hart0.pc == 0 && s.hart1.pc == 22
  }

  lemma WordBefore(hi: bv32, f: Fault, s: Sys)
    requires Inv(hi, s) && AboutToRead(f, s)
    ensures var h := HartOf(s, Victim(f));
            var i := Instruction(hi, h.pc);
            i.Lw? && Accessed(i, h) == Shared(hi, Offset(f)) && s.mem(Shared(hi, Offset(f))) == StaleValue(f)
  {
    hide Plus, SharedBase, Reg, MirrorsHold, Synchronised;
  }

  lemma SuffersFrom(hi: bv32, f: Fault, s: Sys)
    requires Inv(hi, s) && AboutToRead(f, s)
    ensures Suffers(hi, f, HartOf(Step(hi, s, Victim(f)), Victim(f)))
  {
    WordBefore(hi, f, s);
    RegAfterPut();
    hide Plus, SharedBase, Reg, Put, MirrorsHold, Synchronised, WordsHold;
    if f.SpinsOnDone? {} else if f.ReadsOldX? {} else if f.SpinsOnGo2? {} else {}
  }

  lemma FaultComes(hi: bv32, f: Fault, c: Cached)
    requires Inv(hi, c.sys) && AboutToRead(f, c.sys) && Agrees(CacheOf(c, Victim(f)), c.sys.mem)
    ensures Faulty(hi, f, Execute(hi, false, c, Victim(f), true))
  {
    WordBefore(hi, f, c.sys);
    SuffersFrom(hi, f, c.sys);
    OwnTurn(hi, c, Victim(f));
    hide Inv, Execute, Step, Suffers, Instruction, Accessed, Shared, Offset, StaleValue, AboutToRead, Agrees;
  }

  /** How many turns hart 0, and then hart 1, take before that read. */
  function Before(f: Fault): (nat, nat) {
    match f
    case SpinsOnDone => (10, 0)
    case ReadsOldX => (7, 0)
    case SpinsOnGo2 => (10, 12)
    case ReadsOldZ => (0, 5)
  }

  /** From reset, a run to the fault. */
  function Path(f: Fault): seq<Action> {
    var (n, m) := Before(f);
    Turns(H0, n) + Turns(H1, m) + [Exec(Victim(f), true)]
  }

  /** The caches the run starts over: the victim's agrees with memory, and where hart 1 waits for hart 0 first, its
      own is empty. */
  ghost predicate Fresh(f: Fault, c: Cached) {
    match f
    case SpinsOnDone => Agrees(c.cache0, c.sys.mem)
    case ReadsOldX => Agrees(c.cache0, c.sys.mem)
    case SpinsOnGo2 => Agrees(c.cache0, c.sys.mem) && c.cache1 == (_ => None)
    case ReadsOldZ => Agrees(c.cache1, c.sys.mem)
  }

  lemma Approach(hi: bv32, f: Fault, c: Cached)
    requires Reset(hi, c.sys) && Fresh(f, c)
    ensures var (n, m) := Before(f);
            var d := Acts(hi, false, c, Turns(H0, n) + Turns(H1, m));
            Inv(hi, d.sys) && AboutToRead(f, d.sys) && Agrees(CacheOf(d, Victim(f)), d.sys.mem)
  {
    var (n, m) := Before(f);
    ResetHolds(hi, c.sys);
    if n == 0 { TurnsOn(hi, c, H0, 0); } else { Hart0Walks(hi, c, n); }
    var d := Acts(hi, false, c, Turns(H0, n));
    ActsSplit(hi, c, Turns(H0, n), Turns(H1, m));
    if m == 0 {
      TurnsOn(hi, d, H1, 0);
    } else {
      Hart1Walks(hi, d, m);
    }
    hide Acts, Inv, Turns;
  }

  /** Each of the four comes about, and stays: from reset this run reaches the fault, and whatever the harts and the
      caches do afterwards, it lasts for as long as the victim's copy is neither evicted nor refilled. */
  lemma WithoutDrops(hi: bv32, f: Fault, c: Cached, rest: seq<Action>)
    requires Reset(hi, c.sys) && Fresh(f, c)
    requires forall i :: 0 <= i < |rest| ==> LeavesCopy(hi, f, rest[i])
    ensures Suffers(hi, f, HartOf(Acts(hi, false, Acts(hi, false, c, Path(f)), rest).sys, Victim(f)))
  {
    var (n, m) := Before(f);
    var way := Turns(H0, n) + Turns(H1, m);
    Approach(hi, f, c);
    FaultComes(hi, f, Acts(hi, false, c, way));
    assert (way + [Exec(Victim(f), true)])[..|way|] == way;
    ActIsExecute(hi, false, Acts(hi, false, c, way), Exec(Victim(f), true));
    StaleForEver(hi, f, Acts(hi, false, c, Path(f)), rest);
    hide Act, Execute, Inv, Suffers, Reset, Agrees, Turns, AboutToRead;
  }
}
