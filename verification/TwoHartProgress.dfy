/** Both harts of the two-hart program finish under fair scheduling: within forty-two rounds, a round
    being any stretch in which each hart takes at least one turn. */
module TwoHartProgress {
  import opened TwoHart
  import opened TwoHartSafety

  // ----- who can move -----

  // Hart 0 is at the poll of `done`, hart 1 at one of its polls, and the word polled is not yet set.
  predicate Hart0Blocked(p0: nat, p1: nat) { (p0 == 10 || p0 == 11) && p1 <= 28 }

  predicate Hart1Blocked(p0: nat, p1: nat) {
    ((p1 == 23 || p1 == 24) && p0 <= 9) || ((p1 == 29 || p1 == 30) && p0 <= 17)
  }

  predicate Moves(s: Sys, id: Id) {
    if id.H0? then s.hart0.pc != 20 && !Hart0Blocked(s.hart0.pc, s.hart1.pc)
    else s.hart1.pc != 36 && !Hart1Blocked(s.hart0.pc, s.hart1.pc)
  }

  /** No deadlock: until both harts are done, one of them can move. */
  lemma SomeoneMoves(hi: bv32, s: Sys)
    requires Inv(hi, s) && !Finished(s)
    ensures Moves(s, H0) || Moves(s, H1)
  {
    hide Knows, WordsHold, MirrorsHold, Reg;
  }

  // ----- a measure of what is left -----

  /** Steps hart 0 still has to take; a poll that carries an old zero has one more to go than a fresh one. */
  function Left0(p0: nat, stale: bool, p1: nat): int {
    if p0 <= 9 then 21 - p0
    else if p0 <= 11 then
      if Hart0Blocked(p0, p1) then 11 else if p0 == 10 then 10 else if stale then 11 else 9
    else 20 - p0
  }

  function Left1(p1: nat, stale: bool, p0: nat): int {
    if p1 <= 3 then 21 - p1
    else if p1 <= 22 then 38 - p1
    else if p1 <= 24 then
      if Hart1Blocked(p0, p1) then 15 else if p1 == 23 then 14 else if stale then 15 else 13
    else if p1 <= 28 then 37 - p1
    else if p1 <= 30 then
      if Hart1Blocked(p0, p1) then 8 else if p1 == 29 then 7 else if stale then 8 else 6
    else 36 - p1
  }

  function Left(s: Sys): int {
    Left0(s.hart0.pc, Reg(s.hart0, 7) == 0, s.hart1.pc) + Left1(s.hart1.pc, Reg(s.hart1, 7) == 0, s.hart0.pc)
  }

  lemma LeftBounds(hi: bv32, s: Sys)
    requires Inv(hi, s)
    ensures 0 <= Left(s) <= 42
    ensures Left(s) == 0 ==> Finished(s)
  {
    hide Knows, WordsHold, MirrorsHold, Reg;
  }

  // The same, on the program counters and the stale flags alone.
  lemma Hart0TurnTakes(p0: nat, stale: bool, p0': nat, stale': bool, p1: nat, other: bool)
    requires p0 <= 20 && (p1 <= 3 || 21 <= p1 <= 36) && (p0 > 11 ==> p1 > 28) && (p0 == 11 && !stale ==> p1 > 28)
    requires p0' == if p0 == 11 then (if stale then 10 else 12) else if p0 == 20 then 20 else p0 + 1
    requires p0 == 10 ==> (stale' <==> p1 <= 28)
    ensures Left0(p0', stale', p1) <= Left0(p0, stale, p1) - if p0 != 20 && !Hart0Blocked(p0, p1) then 1 else 0
    ensures Left1(p1, other, p0') <= Left1(p1, other, p0)
    ensures !Hart1Blocked(p0, p1) ==> !Hart1Blocked(p0', p1)
  {}

  lemma Hart1TurnTakes(p1: nat, stale: bool, p1': nat, stale': bool, p0: nat, other: bool)
    requires p0 <= 20 && (p1 <= 3 || 21 <= p1 <= 36)
    requires (p1 > 24 || (p1 == 24 && !stale) ==> p0 > 9) && (p1 > 30 || (p1 == 30 && !stale) ==> p0 > 17)
    requires p1' == if p1 == 3 then 21 else if p1 == 24 then (if stale then 23 else 25)
                    else if p1 == 30 then (if stale then 29 else 31) else if p1 == 36 then 36 else p1 + 1
    requires (p1 == 23 ==> (stale' <==> p0 <= 9)) && (p1 == 29 ==> (stale' <==> p0 <= 17))
    ensures Left1(p1', stale', p0) <= Left1(p1, stale, p0) - if p1 != 36 && !Hart1Blocked(p0, p1) then 1 else 0
    ensures Left0(p0, other, p1') <= Left0(p0, other, p1)
    ensures !Hart0Blocked(p0, p1) ==> !Hart0Blocked(p0, p1')
  {}

  /** A turn never adds to what is left, and takes from it when its hart can move; and it never stops the
      other hart from moving. */
  lemma Hart0Turn(hi: bv32, s: Sys)
    requires Inv(hi, s)
    ensures var t := Step(hi, s, H0);
            && Left(t) <= Left(s) - (if Moves(s, H0) then 1 else 0)
            && (Moves(s, H1) ==> Moves(t, H1))
  {
    Hart0GoesTo(hi, s.hart0, s.mem);
    var t := Step(hi, s, H0);
    assert t.hart1 == s.hart1;
    assert Hart0Goes(hi, s.hart0, t.hart0, s.mem);
    hide Step, Knows, MirrorsHold, Reg, Shared, Left0, Left1, Hart0Blocked, Hart1Blocked;
    Hart0TurnTakes(s.hart0.pc, Reg(s.hart0, 7) == 0, t.hart0.pc, Reg(t.hart0, 7) == 0,
                   s.hart1.pc, Reg(s.hart1, 7) == 0);
  }

  lemma Hart1Turn(hi: bv32, s: Sys)
    requires Inv(hi, s)
    ensures var t := Step(hi, s, H1);
            && Left(t) <= Left(s) - (if Moves(s, H1) then 1 else 0)
            && (Moves(s, H0) ==> Moves(t, H0))
  {
    Hart1GoesTo(hi, s.hart1, s.mem);
    var t := Step(hi, s, H1);
    assert t.hart0 == s.hart0;
    assert Hart1Goes(hi, s.hart1, t.hart1, s.mem);
    hide Step, Knows, MirrorsHold, Reg, Shared, Left0, Left1, Hart0Blocked, Hart1Blocked;
    Hart1TurnTakes(s.hart1.pc, Reg(s.hart1, 7) == 0, t.hart1.pc, Reg(t.hart1, 7) == 0,
                   s.hart0.pc, Reg(s.hart0, 7) == 0);
  }

  // ----- rounds -----

  predicate Fair(round: seq<Id>) { H0 in round && H1 in round }

  /** While a hart that could move has not had its turn it can still move; once it has, less is left. */
  lemma {:induction false} TurnsTake(hi: bv32, s: Sys, turns: seq<Id>, id: Id)
    requires Inv(hi, s)
    ensures var t := Run(hi, s, turns);
            && Left(t) <= Left(s)
            && (Moves(s, id) ==> if id in turns then Left(t) < Left(s) else Moves(t, id))
  {
    hide Inv, Moves, Left, Step;
    if turns != [] {
      var front, last := turns[..|turns| - 1], turns[|turns| - 1];
      TurnsTake(hi, s, front, id);
      RunKeeps(hi, s, front);
      var before := Run(hi, s, front);
      if last.H0? { Hart0Turn(hi, before); } else { Hart1Turn(hi, before); }
      assert forall x :: x in turns <==> x in front || x == last;
    }
  }

  lemma {:induction false} RunSplit(hi: bv32, s: Sys, a: seq<Id>, b: seq<Id>)
    ensures Run(hi, s, a + b) == Run(hi, Run(hi, s, a), b)
  {
    hide Step;
    if b == [] {
      assert a + b == a;
    } else {
      var front := b[..|b| - 1];
      assert (a + b)[..|a + b| - 1] == a + front;
      RunSplit(hi, s, a, front);
    }
  }

  function Flatten(rounds: seq<seq<Id>>): seq<Id> {
    if rounds == [] then [] else Flatten(rounds[..|rounds| - 1]) + rounds[|rounds| - 1]
  }

  predicate AllFair(rounds: seq<seq<Id>>) { forall i :: 0 <= i < |rounds| ==> Fair(rounds[i]) }

  lemma {:induction false} RoundsTake(hi: bv32, s: Sys, rounds: seq<seq<Id>>)
    requires Inv(hi, s) && AllFair(rounds)
    ensures Left(Run(hi, s, Flatten(rounds))) <= if |rounds| < 42 then 42 - |rounds| else 0
  {
    hide Inv, Left, Finished;
    LeftBounds(hi, s);
    if rounds == [] {
      assert Flatten([]) == [];
    } else {
      var front, last := rounds[..|rounds| - 1], rounds[|rounds| - 1];
      assert Fair(last);
      RoundsTake(hi, s, front);
      var before := Run(hi, s, Flatten(front));
      RunKeeps(hi, s, Flatten(front));
      RunSplit(hi, s, Flatten(front), last);
      LeftBounds(hi, before);
      TurnsTake(hi, before, last, H0);
      TurnsTake(hi, before, last, H1);
      if Finished(before) { FinishedLeft(hi, before); } else { SomeoneMoves(hi, before); }
    }
  }

  lemma FinishedLeft(hi: bv32, s: Sys)
    requires Finished(s)
    ensures Left(s) == 0
  {}

  /** After forty-two fair rounds both harts have finished, whatever the interleaving inside a round. */
  lemma FairRunsFinish(hi: bv32, s: Sys, rounds: seq<seq<Id>>)
    requires Reset(hi, s) && AllFair(rounds) && |rounds| >= 42
    ensures Finished(Run(hi, s, Flatten(rounds)))
  {
    hide Inv, Left, Reset;
    ResetHolds(hi, s);
    RoundsTake(hi, s, rounds);
    RunKeeps(hi, s, Flatten(rounds));
    LeftBounds(hi, Run(hi, s, Flatten(rounds)));
  }
}
