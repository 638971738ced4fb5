/** The two-hart program over write-through caches, one per hart, that drop a word when the other hart
    writes it.  Every cached run is a plain run. */
module TwoHartCaches {
  import opened Wrappers
  import opened RvEncode
  import opened TwoHart
  import opened TwoHartSafety
  import opened TwoHartProgress

  type Cache = bv32 -> Option<bv32>

  function Place(c: Cache, a: bv32, v: Option<bv32>): Cache { x => if x == a then v else c(x) }

  datatype Cached = Cached(sys: Sys, cache0: Cache, cache1: Cache)

  /** A hart executes (its load or store may allocate), or a cache fills or evicts a word on its own.
      Dropping or filling a whole line is a run of these. */
  datatype Action = Exec(id: Id, allocate: bool) | Fill(id: Id, addr: bv32) | Evict(id: Id, addr: bv32)

  function CacheOf(c: Cached, id: Id): Cache { if id.H0? then c.cache0 else c.cache1 }

  function WithCaches(sys: Sys, id: Id, own: Cache, other: Cache): Cached {
    if id.H0? then Cached(sys, own, other) else Cached(sys, other, own)
  }

  function Other(id: Id): Id { if id.H0? then H1 else H0 }

  function Accessed(i: Instr, h: Hart): bv32 {
    if i.Lw? then Plus(Reg(h, i.rs1), i.off) else if i.Sw? then Plus(Reg(h, i.rs1), i.off) else 0
  }

  /** A load is served by the hart's own cache when it holds the word. */
  function CachedLoad(i: Instr, h: Hart, cache: Cache, mem: Words): bv32 {
    if i.Lw? then
      var a := Accessed(i, h);
      if cache(a).Some? then cache(a).value else mem(a)
    else 0
  }

  /** `drops`: whether a write removes the word from the other hart's cache. */
  function Execute(hi: bv32, drops: bool, c: Cached, id: Id, allocate: bool): Cached {
    var h, own, other := HartOf(c.sys, id), CacheOf(c, id), CacheOf(c, Other(id));
    var i := Instruction(hi, h.pc);
    var a := Accessed(i, h);
    var loaded := CachedLoad(i, h, own, c.sys.mem);
    var h' := Effect(i, Number(id), h, loaded);
    var mem' := Stored(i, h, c.sys.mem);
    var sys' := if id.H0? then Sys(h', c.sys.hart1, mem') else Sys(c.sys.hart0, h', mem');
    var own' :=
      if i.Lw? && allocate then Place(own, a, Some(loaded))
      else if i.Sw? && (allocate || own(a).Some?) then Place(own, a, Some(Reg(h, i.rs2)))
      else own;
    var other' := if i.Sw? && drops then Place(other, a, None) else other;
    WithCaches(sys', id, own', other')
  }

  function Act(hi: bv32, drops: bool, c: Cached, act: Action): Cached {
    match act
    case Exec(id, allocate) => Execute(hi, drops, c, id, allocate)
    case Fill(id, a) => WithCaches(c.sys, id, Place(CacheOf(c, id), a, Some(c.sys.mem(a))), CacheOf(c, Other(id)))
    case Evict(id, a) => WithCaches(c.sys, id, Place(CacheOf(c, id), a, None), CacheOf(c, Other(id)))
  }

  function Acts(hi: bv32, drops: bool, c: Cached, acts: seq<Action>): Cached {
    if acts == [] then c else Act(hi, drops, Acts(hi, drops, c, acts[..|acts| - 1]), acts[|acts| - 1])
  }

  /** The turns an action sequence gives the harts. */
  function Turns(acts: seq<Action>): seq<Id> {
    if acts == [] then []
    else
      var last := acts[|acts| - 1];
      Turns(acts[..|acts| - 1]) + if last.Exec? then [last.id] else []
  }

  /** Every hit agrees with memory. */
  ghost predicate Agrees(cache: Cache, mem: Words) { forall a :: cache(a).Some? ==> cache(a).value == mem(a) }

  ghost predicate Coherent(c: Cached) { Agrees(c.cache0, c.sys.mem) && Agrees(c.cache1, c.sys.mem) }

  predicate Holding(c: Cached, id: Id, a: bv32, v: bv32) { CacheOf(c, id)(a) == Some(v) }

  // ----- with the drop, caches are invisible -----

  lemma ExecuteRefines(hi: bv32, c: Cached, id: Id, allocate: bool)
    requires Coherent(c)
    ensures var c' := Execute(hi, true, c, id, allocate);
            c'.sys == Step(hi, c.sys, id) && Coherent(c')
  {
    hide Instruction, Effect, Plus, Reg;
  }

  /** Each action is one plain step, or none, and keeps every hit in agreement with memory. */
  lemma ActRefines(hi: bv32, c: Cached, act: Action)
    requires Coherent(c)
    ensures var c' := Act(hi, true, c, act);
            c'.sys == (if act.Exec? then Step(hi, c.sys, act.id) else c.sys) && Coherent(c')
  {
    if act.Exec? {
      ExecuteRefines(hi, c, act.id, act.allocate);
      hide *;
      assert Act(hi, true, c, act) == Execute(hi, true, c, act.id, act.allocate) by { ActIsExecute(hi, true, c, act); }
    } else {
      hide Step, Execute;
    }
  }

  lemma ActIsExecute(hi: bv32, drops: bool, c: Cached, act: Action)
    requires act.Exec?
    ensures Act(hi, drops, c, act) == Execute(hi, drops, c, act.id, act.allocate)
  {}

  /** Any cached run is the plain run of its turns. */
  lemma {:induction false} CachedRunRefines(hi: bv32, c: Cached, acts: seq<Action>)
    requires Coherent(c)
    ensures var c' := Acts(hi, true, c, acts);
            c'.sys == Run(hi, c.sys, Turns(acts)) && Coherent(c')
  {
    hide Coherent, Act, Step;
    if acts != [] {
      var front, last := acts[..|acts| - 1], acts[|acts| - 1];
      CachedRunRefines(hi, c, front);
      ActRefines(hi, Acts(hi, true, c, front), last);
      var turns := Turns(front);
      if last.Exec? {
        assert (turns + [last.id])[..|turns + [last.id]| - 1] == turns;
      } else {
        assert turns + [] == turns;
      }
    }
  }

  /** The guarantees of the plain program hold over coherent caches, however loads and stores allocate and
      whatever fills and evictions happen in between. */
  lemma CachedReadsAreCoherent(hi: bv32, c: Cached, acts: seq<Action>)
    requires Coherent(c) && Reset(hi, c.sys)
    ensures var t := Acts(hi, true, c, acts).sys;
            && (t.hart1.pc >= 23 ==> Reg(t.hart1, 9) == 0)
            && (t.hart0.pc >= 8 ==> Reg(t.hart0, 4) == OLD)
            && (t.hart0.pc >= 13 ==> Reg(t.hart0, 8) == NEW)
            && (t.hart1.pc >= 32 ==> Reg(t.hart1, 10) == NEW2)
            && (Finished(t) ==> t.mem(Shared(hi, 12)) == NEW && t.mem(Shared(hi, 24)) == NEW2)
  {
    CachedRunRefines(hi, c, acts);
    hide *;
    ReadsAreCoherent(hi, c.sys, Turns(acts));
    if Finished(Run(hi, c.sys, Turns(acts))) { FinishedMeansCoherent(hi, c.sys, Turns(acts)); }
  }

  function Join(rounds: seq<seq<Action>>): seq<Action> {
    if rounds == [] then [] else Join(rounds[..|rounds| - 1]) + rounds[|rounds| - 1]
  }

  lemma {:induction false} TurnsSplit(a: seq<Action>, b: seq<Action>)
    ensures Turns(a + b) == Turns(a) + Turns(b)
  {
    if b == [] {
      assert a + b == a;
    } else {
      var front := b[..|b| - 1];
      assert (a + b)[..|a + b| - 1] == a + front;
      TurnsSplit(a, front);
    }
  }

  function TurnsOf(rounds: seq<seq<Action>>): seq<seq<Id>> {
    seq(|rounds|, i requires 0 <= i < |rounds| => Turns(rounds[i]))
  }

  lemma {:induction false} JoinTurns(rounds: seq<seq<Action>>)
    ensures Turns(Join(rounds)) == Flatten(TurnsOf(rounds))
  {
    hide Turns;
    if rounds == [] {
      NoTurns();
    } else {
      var front, last := rounds[..|rounds| - 1], rounds[|rounds| - 1];
      JoinTurns(front);
      TurnsSplit(Join(front), last);
      assert TurnsOf(rounds)[..|rounds| - 1] == TurnsOf(front);
    }
  }

  lemma NoTurns()
    ensures Turns([]) == []
  {}

  /** Both harts finish, with the right results, after forty-two rounds in each of which both execute. */
  lemma CachedFairRunsFinish(hi: bv32, c: Cached, rounds: seq<seq<Action>>)
    requires Coherent(c) && Reset(hi, c.sys) && |rounds| >= 42
    requires AllFair(TurnsOf(rounds))
    ensures var t := Acts(hi, true, c, Join(rounds)).sys;
            && Finished(t)
            && t.mem(Shared(hi, 12)) == NEW && t.mem(Shared(hi, 24)) == NEW2
            && t.mem(BlockRam(0x300)) == NEW && t.mem(BlockRam(0x304)) == NEW2
  {
    assert |TurnsOf(rounds)| == |rounds|;
    CachedRunRefines(hi, c, Join(rounds));
    JoinTurns(rounds);
    hide *;
    FairRunsFinish(hi, c.sys, TurnsOf(rounds));
    FinishedMeansCoherent(hi, c.sys, Flatten(TurnsOf(rounds)));
  }
}
