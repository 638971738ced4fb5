/** The boot matrix's job scheduler: build each pending cell, start it when there is room, and collect
    simulations as they finish, by polling. */
module BootMatrix {
  import opened Sequences

  // ----- cells -----

  datatype Core = Inorder | Ooo | Hetero
  datatype Fabric = Bus | Router | Bypass
  datatype Cell = Cell(core: Core, harts: nat, fabric: Fabric, wait: bool)

  predicate Distinct<T(==)>(s: seq<T>) { forall i, j :: 0 <= i < j < |s| ==> s[i] != s[j] }

  /** A core over each of the three fabrics. */
  function Fabrics(core: Core, harts: nat): seq<Cell> {
    [Cell(core, harts, Bus, false), Cell(core, harts, Router, false), Cell(core, harts, Bypass, false)]
  }

  /** Four harts first, on all three cores; then two and one. */
  function PlainCells(): seq<Cell> {
    Fabrics(Inorder, 4) + Fabrics(Ooo, 4) + Fabrics(Hetero, 4)
    + Fabrics(Inorder, 2) + Fabrics(Ooo, 2) + Fabrics(Inorder, 1) + Fabrics(Ooo, 1)
  }

  function AllCells(): seq<Cell> {
    var plain := PlainCells();
    plain + seq(|plain|, i requires 0 <= i < |plain| => plain[i].(wait := true))
  }

  function CoreIndex(c: Core): nat { if c.Inorder? then 0 else if c.Ooo? then 1 else 2 }

  function FabricIndex(f: Fabric): nat { if f.Bus? then 0 else if f.Router? then 1 else 2 }

  /** Where a cell stands in its half of the list. */
  function Position(c: Cell): nat {
    (if c.harts == 4 then 0 else if c.harts == 2 then 9 else 15) + 3 * CoreIndex(c.core) + FabricIndex(c.fabric)
  }

  lemma FabricsPositions(core: Core, harts: nat, i: nat)
    requires i < 3
    ensures Position(Fabrics(core, harts)[i]) == Position(Cell(core, harts, Bus, false)) + i
    ensures !Fabrics(core, harts)[i].wait
  {
    if i == 0 {} else if i == 1 {} else {}
  }

  // The core and the harts of the i-th plain cell.
  function CoreAt(i: nat): Core {
    if i < 3 then Inorder else if i < 6 then Ooo else if i < 9 then Hetero
    else if i < 12 then Inorder else if i < 15 then Ooo else if i < 18 then Inorder else Ooo
  }

  function HartsAt(i: nat): nat { if i < 9 then 4 else if i < 15 then 2 else 1 }

  lemma PlainAt(i: nat)
    requires i < 21
    ensures |PlainCells()| == 21 && PlainCells()[i] == Fabrics(CoreAt(i), HartsAt(i))[i % 3]
  {
    if i < 3 {} else if i < 6 {} else if i < 9 {} else if i < 12 {} else if i < 15 {} else if i < 18 {} else {}
  }

  lemma PositionOf(i: nat)
    requires i < 21
    ensures |PlainCells()| == 21 && Position(PlainCells()[i]) == i && !PlainCells()[i].wait
  {
    FabricsPositions(CoreAt(i), HartsAt(i), i % 3);
    PlainAt(i);
    hide Fabrics, PlainCells;
  }

  function Rank(c: Cell): nat { Position(c) + if c.wait then 21 else 0 }

  lemma RankOf(i: nat)
    requires i < 42
    ensures |AllCells()| == 42 && Rank(AllCells()[i]) == i
  {
    hide PlainCells;
    PositionOf(if i < 21 then i else i - 21);
  }

  /** The built-in list names no cell twice. */
  lemma BuiltInDistinct()
    ensures |AllCells()| == 42 && Distinct(AllCells())
  {
    RankOf(0);
    hide AllCells, Rank;
    forall i, j | 0 <= i < j < 42 ensures AllCells()[i] != AllCells()[j] {
      RankOf(i);
      RankOf(j);
    }
  }

  // ----- names, by which results are filed and running simulations are keyed -----

  function CoreName(c: Core): string { if c.Inorder? then "inorder" else if c.Ooo? then "ooo" else "hetero" }

  function FabricName(f: Fabric): string { if f.Bus? then "bus" else if f.Router? then "fabric" else "bypass" }

  function Digit(harts: nat): string { if harts == 4 then "4" else if harts == 2 then "2" else "1" }

  function Name(c: Cell): string {
    CoreName(c.core) + ("." + (Digit(c.harts) + ("." + (FabricName(c.fabric) + if c.wait then ".wait" else ""))))
  }

  lemma AllAt(i: nat)
    requires i < 42
    ensures |PlainCells()| == 21 && |AllCells()| == 42
    ensures AllCells()[i] == if i < 21 then PlainCells()[i] else PlainCells()[i - 21].(wait := true)
  {
    PlainAt(if i < 21 then i else i - 21);
    hide PlainCells, Fabrics, CoreAt, HartsAt;
  }

  function FabricAt(k: nat): Fabric { if k == 0 then Bus else if k == 1 then Router else Bypass }

  lemma FabricsAt(core: Core, harts: nat, k: nat)
    requires k < 3
    ensures Fabrics(core, harts)[k] == Cell(core, harts, FabricAt(k), false)
  {
    if k == 0 {} else if k == 1 {} else {}
  }

  /** The built-in list, cell by cell: twenty-one without the wait, and the same with it. */
  lemma CellAt(i: nat)
    requires i < 42
    ensures |AllCells()| == 42
    ensures var k := if i < 21 then i else i - 21;
            AllCells()[i] == Cell(CoreAt(k), HartsAt(k), FabricAt(k % 3), i >= 21)
  {
    var k := if i < 21 then i else i - 21;
    AllAt(i);
    PlainAt(k);
    FabricsAt(CoreAt(k), HartsAt(k), k % 3);
    hide *;
  }

  /** How cells are spelled on the command line. */
  lemma NameExamples()
    ensures Name(AllCells()[0]) == "inorder.4.bus" && Name(AllCells()[4]) == "ooo.4.fabric"
    ensures Name(AllCells()[8]) == "hetero.4.bypass" && Name(AllCells()[9]) == "inorder.2.bus"
    ensures Name(AllCells()[41]) == "ooo.1.bypass.wait"
  {
    CellAt(0);
    CellAt(4);
    CellAt(8);
    CellAt(9);
    CellAt(41);
    hide AllCells;
  }

  predicate Known(c: Cell) { c.harts == 1 || c.harts == 2 || c.harts == 4 }

  lemma PrefixFree(a: string, b: string, s: string, t: string)
    requires a + s == b + t && (|a| == |b|)
    ensures a == b && s == t
  {
    assert (a + s)[..|a|] == a && (b + t)[..|b|] == b;
    assert (a + s)[|a|..] == s && (b + t)[|b|..] == t;
  }

  lemma CoresTell(c: Core, d: Core, s: string, t: string)
    requires CoreName(c) + s == CoreName(d) + t
    ensures c == d && s == t
  {
    assert (CoreName(c) + s)[0] == CoreName(c)[0] && (CoreName(d) + t)[0] == CoreName(d)[0];
    PrefixFree(CoreName(c), CoreName(d), s, t);
  }

  lemma FabricsTell(f: Fabric, g: Fabric, s: string, t: string)
    requires FabricName(f) + s == FabricName(g) + t
    ensures f == g && s == t
  {
    assert (FabricName(f) + s)[0] == FabricName(f)[0] && (FabricName(g) + t)[0] == FabricName(g)[0];
    assert (FabricName(f) + s)[1] == FabricName(f)[1] && (FabricName(g) + t)[1] == FabricName(g)[1];
    PrefixFree(FabricName(f), FabricName(g), s, t);
  }

  /** Different cells have different names, so nothing is filed over anything else. */
  lemma NamesTell(c: Cell, d: Cell)
    requires Known(c) && Known(d) && Name(c) == Name(d)
    ensures c == d
  {
    var s3, t3 := if c.wait then ".wait" else "", if d.wait then ".wait" else "";
    var s2, t2 := "." + (FabricName(c.fabric) + s3), "." + (FabricName(d.fabric) + t3);
    var s1, t1 := "." + (Digit(c.harts) + s2), "." + (Digit(d.harts) + t2);
    CoresTell(c.core, d.core, s1, t1);
    PrefixFree(".", ".", Digit(c.harts) + s2, Digit(d.harts) + t2);
    PrefixFree(Digit(c.harts), Digit(d.harts), s2, t2);
    PrefixFree(".", ".", FabricName(c.fabric) + s3, FabricName(d.fabric) + t3);
    FabricsTell(c.fabric, d.fabric, s3, t3);
  }

  // ----- the scheduler -----

  /** How long each build and each simulation takes, in polls, launch by launch: any numbers at all. */
  datatype Timing = Timing(build: nat -> nat, simulate: nat -> nat)

  /** The image a cell needs: its core's, for four harts or not. */
  function ImageOf(c: Cell): (Core, bool) { (c.core, c.harts == 4) }

  /** Two cells share an image when they have one core and are both of four harts or both not. */
  lemma ImagesTell(c: Cell, d: Cell)
    ensures ImageOf(c) == ImageOf(d) <==> c.core == d.core && (c.harts == 4 <==> d.harts == 4)
  {}

  function Images(cells: seq<Cell>): set<(Core, bool)> { set c | c in cells :: ImageOf(c) }

  lemma ImagesOn(cells: seq<Cell>, c: Cell)
    ensures Images([]) == {} && Images(cells + [c]) == Images(cells) + {ImageOf(c)}
  {}

  /** Whether a cell is to be run: any is if forced, else one with no result yet. */
  function Wanted(results: set<Cell>, force: bool): Cell -> bool { c => force || c !in results }

  function Pending(cells: seq<Cell>, results: set<Cell>, force: bool): (todo: seq<Cell>)
    ensures forall c :: c in todo <==> c in cells && (force || c !in results)
  {
    if cells == [] then []
    else
      var last := cells[|cells| - 1];
      Pending(cells[..|cells| - 1], results, force) + if force || last !in results then [last] else []
  }

  /** The pending cells are the wanted ones of the list, in its order, each as often as it is named. */
  lemma {:induction false} PendingSelected(cells: seq<Cell>, results: set<Cell>, force: bool)
    ensures Selected(cells, Wanted(results, force), Pending(cells, results, force))
  {
    var wanted := Wanted(results, force);
    if cells == [] {
      NoneSelected(wanted);
    } else {
      var front, last := cells[..|cells| - 1], cells[|cells| - 1];
      PendingSelected(front, results, force);
      SelectMore(front, wanted, Pending(front, results, force), last);
      assert cells == front + [last];
      assert wanted(last) == (force || last !in results);
      hide Selected, Wanted;
    }
  }

  lemma {:induction false} PendingTimes(cells: seq<Cell>, results: set<Cell>, force: bool, c: Cell)
    ensures multiset(Pending(cells, results, force))[c]
         == if force || c !in results then multiset(cells)[c] else 0
  {
    if cells != [] {
      var front, last := cells[..|cells| - 1], cells[|cells| - 1];
      PendingTimes(front, results, force, c);
      assert cells == front + [last];
    }
  }

  /** With no result yet or with force, that is the whole list; with a result for each and no force, nothing. */
  lemma {:induction false} PendingAll(cells: seq<Cell>, results: set<Cell>, force: bool)
    ensures force || results == {} ==> Pending(cells, results, force) == cells
    ensures !force && (forall c :: c in cells ==> c in results) ==> Pending(cells, results, force) == []
  {
    if cells != [] {
      PendingAll(cells[..|cells| - 1], results, force);
      assert cells == cells[..|cells| - 1] + [cells[|cells| - 1]];
    }
  }

  lemma {:induction false} PendingDistinct(cells: seq<Cell>, results: set<Cell>, force: bool)
    requires Distinct(cells)
    ensures Distinct(Pending(cells, results, force))
  {
    if cells != [] {
      var front, last := cells[..|cells| - 1], cells[|cells| - 1];
      PendingDistinct(front, results, force);
      assert last !in front;
    }
  }

  /** Which of the running simulations are not over at time t. */
  function Live(running: map<Cell, nat>, t: nat): map<Cell, nat> {
    map c | c in running && t < running[c] :: running[c]
  }

  ghost predicate Ended(running: map<Cell, nat>, deadline: nat) {
    forall c :: c in running ==> running[c] <= deadline
  }

  /** Every simulation started is still running, has one result, or was lost; and every cell started is running
      or has a result. */
  ghost predicate Accounted(started: seq<Cell>, recorded: seq<Cell>, lost: seq<Cell>, running: map<Cell, nat>) {
    && multiset(started) == multiset(recorded) + multiset(lost) + multiset(running.Keys)
    && forall c :: c in started ==> c in running || c in recorded
  }

  ghost predicate ImagesKept(imaged: set<(Core, bool)>, images: seq<(Core, bool)>, started: seq<Cell>) {
    imaged == (set k | k in images) && Distinct(images) && forall c :: c in started ==> ImageOf(c) in imaged
  }

  // ----- the launches as a function of the timing -----

  /** From time t on, time u is the first with fewer than `jobs` simulations left. */
  ghost predicate FirstFree(jobs: nat, running: map<Cell, nat>, t: nat, u: nat) {
    t <= u && |Live(running, u)| < jobs && forall v: nat :: t <= v < u ==> |Live(running, v)| >= jobs
  }

  lemma {:induction false} SomeDeadline(running: map<Cell, nat>) returns (d: nat)
    ensures Ended(running, d)
    decreases |running|
  {
    if running == map[] {
      d := 0;
    } else {
      var c :| c in running;
      Removed(running, c);
      d := SomeDeadline(running - {c});
      if running[c] > d { d := running[c]; }
      assert forall x :: x in running && x != c ==> x in running - {c};
    }
  }

  lemma {:induction false} SomeFree(jobs: nat, running: map<Cell, nat>, t: nat, d: nat) returns (u: nat)
    requires jobs >= 1 && Ended(running, d)
    ensures FirstFree(jobs, running, t, u)
    decreases if d > t then d - t else 0
  {
    if |Live(running, t)| < jobs {
      u := t;
    } else {
      assert t >= d ==> Live(running, t) == map[];
      u := SomeFree(jobs, running, t + 1, d);
    }
  }

  lemma FreeComes(jobs: nat, running: map<Cell, nat>, t: nat)
    requires jobs >= 1
    ensures exists u :: FirstFree(jobs, running, t, u)
  {
    var d := SomeDeadline(running);
    var u := SomeFree(jobs, running, t, d);
  }

  lemma FirstFreeOnce(jobs: nat, running: map<Cell, nat>, t: nat, u: nat, v: nat)
    requires FirstFree(jobs, running, t, u) && FirstFree(jobs, running, t, v)
    ensures u == v
  {}

  ghost function FreeAt(jobs: nat, running: map<Cell, nat>, t: nat): (u: nat)
    requires jobs >= 1
    ensures FirstFree(jobs, running, t, u)
  {
    FreeComes(jobs, running, t);
    var u :| FirstFree(jobs, running, t, u);
    u
  }

  /** The simulations kept track of and when each will be over, the time, and the simulations lost. */
  datatype Going = Going(running: map<Cell, nat>, clock: nat, lost: seq<Cell>)

  /** A build, and a wait for room. */
  ghost function Roomed(jobs: nat, g: Going, build: nat): Going
    requires jobs >= 1
  {
    var t := FreeAt(jobs, g.running, g.clock + build);
    Going(Live(g.running, t), t, g.lost)
  }

  /** A start; a simulation of the same cell that is not over is lost. */
  function Begun(g: Going, simulate: nat, c: Cell): Going {
    Going(g.running[c := g.clock + simulate], g.clock, g.lost + if c in g.running then [c] else [])
  }

  /** Launch number k. */
  ghost function Launched(jobs: nat, timing: Timing, g: Going, k: nat, c: Cell): Going
    requires jobs >= 1
  {
    Begun(Roomed(jobs, g, timing.build(k)), timing.simulate(k), c)
  }

  ghost function Goes(jobs: nat, timing: Timing, start: nat, cells: seq<Cell>): Going
    requires jobs >= 1
  {
    if cells == [] then Going(map[], start, [])
    else
      var k := |cells| - 1;
      Launched(jobs, timing, Goes(jobs, timing, start, cells[..k]), k, cells[k])
  }

  lemma GoesOn(jobs: nat, timing: Timing, start: nat, cells: seq<Cell>, c: Cell)
    requires jobs >= 1
    ensures Goes(jobs, timing, start, []) == Going(map[], start, [])
    ensures Goes(jobs, timing, start, cells + [c])
         == Launched(jobs, timing, Goes(jobs, timing, start, cells), |cells|, c)
  {
    assert (cells + [c])[..|cells|] == cells;
  }

  /** One at a time, nothing is ever restarted. */
  lemma {:induction false} OneAtATime(timing: Timing, start: nat, cells: seq<Cell>)
    ensures Goes(1, timing, start, cells).lost == []
  {
    hide FreeAt, FirstFree;
    if cells != [] {
      var k := |cells| - 1;
      var g := Goes(1, timing, start, cells[..k]);
      OneAtATime(timing, start, cells[..k]);
      LiveNone(g.running, g.clock + timing.build(k));
    }
  }

  lemma LiveNone(running: map<Cell, nat>, t: nat)
    ensures Live(running, FreeAt(1, running, t)) == map[]
  {
    assert |Live(running, FreeAt(1, running, t))| == 0;
  }

  /** Nor where no cell is named twice. */
  lemma {:induction false} DistinctLoseNone(jobs: nat, timing: Timing, start: nat, cells: seq<Cell>)
    requires jobs >= 1 && Distinct(cells)
    ensures var g := Goes(jobs, timing, start, cells);
            g.lost == [] && forall c :: c in g.running ==> c in cells
  {
    hide FreeAt, FirstFree;
    if cells != [] {
      var k := |cells| - 1;
      DistinctLoseNone(jobs, timing, start, cells[..k]);
      assert cells == cells[..k] + [cells[k]] && cells[k] !in cells[..k];
    }
  }

  /** A timing in which only launch i takes any time. */
  function OnlySlow(i: nat): Timing { Timing(_ => 0, k => if k == i then 1 else 0) }

  // Launch i's simulation is still running, alone, or has been lost.
  ghost predicate StillRuns(g: Going, start: nat, c: Cell) {
    && g.clock == start
    && (forall d :: d in g.running && d != c ==> g.running[d] <= start)
    && (g.lost == [] ==> c in g.running && g.running[c] == start + 1)
  }

  lemma LiveAlone(jobs: nat, running: map<Cell, nat>, t: nat, c: Cell)
    requires jobs >= 2 && forall d :: d in running && d != c ==> running[d] <= t
    ensures FreeAt(jobs, running, t) == t && forall d :: d in Live(running, t) ==> d == c
  {
    var live := Live(running, t);
    assert live.Keys <= {c};
    CountKeys(live, {c});
    FirstFreeOnce(jobs, running, t, FreeAt(jobs, running, t), t);
  }

  lemma {:induction false} CountKeys(m: map<Cell, nat>, s: set<Cell>)
    requires m.Keys <= s
    ensures |m| <= |s|
    decreases |m|
  {
    if m != map[] {
      var c :| c in m;
      Removed(m, c);
      CountKeys(m - {c}, s - {c});
    }
  }

  lemma {:induction false} BeforeSlow(jobs: nat, i: nat, start: nat, cells: seq<Cell>)
    requires jobs >= 2 && |cells| <= i
    ensures var g := Goes(jobs, OnlySlow(i), start, cells);
            g.clock == start && forall d :: d in g.running ==> g.running[d] <= start
  {
    hide FreeAt, FirstFree;
    if cells != [] {
      var k := |cells| - 1;
      BeforeSlow(jobs, i, start, cells[..k]);
      LiveAlone(jobs, Goes(jobs, OnlySlow(i), start, cells[..k]).running, start, cells[k]);
    }
  }

  lemma {:induction false} SlowStays(jobs: nat, i: nat, start: nat, cells: seq<Cell>)
    requires jobs >= 2 && i < |cells|
    ensures StillRuns(Goes(jobs, OnlySlow(i), start, cells), start, cells[i])
  {
    hide FreeAt, FirstFree;
    var k := |cells| - 1;
    var g := Goes(jobs, OnlySlow(i), start, cells[..k]);
    if i == k {
      BeforeSlow(jobs, i, start, cells[..k]);
      LiveAlone(jobs, g.running, start, cells[k]);
    } else {
      SlowStays(jobs, i, start, cells[..k]);
      LiveAlone(jobs, g.running, start, cells[i]);
    }
  }

  lemma {:induction false} LostStays(jobs: nat, timing: Timing, start: nat, cells: seq<Cell>, n: nat)
    requires jobs >= 1 && n <= |cells|
    ensures Goes(jobs, timing, start, cells[..n]).lost <= Goes(jobs, timing, start, cells).lost
    decreases |cells|
  {
    hide FreeAt, FirstFree;
    if n == |cells| {
      assert cells[..n] == cells;
    } else {
      var k := |cells| - 1;
      LostStays(jobs, timing, start, cells[..k], n);
      assert cells[..k][..n] == cells[..n];
    }
  }

  lemma LiveOne(c: Cell, end: nat, t: nat)
    ensures Live(map[c := end], t) == if t < end then map[c := end] else map[]
    ensures Live(map[], t) == map[]
  {}

  lemma RestartLoses(jobs: nat, i: nat, g: Going, start: nat, k: nat, c: Cell)
    requires jobs >= 2 && StillRuns(g, start, c)
    ensures Launched(jobs, OnlySlow(i), g, k, c).lost != []
  {
    LiveAlone(jobs, g.running, start, c);
    hide FreeAt, FirstFree;
  }

  /** With room for two, a cell named twice is lost when its first simulation alone takes any time. */
  lemma SlowIsLost(jobs: nat, start: nat, cells: seq<Cell>, i: nat, j: nat)
    requires jobs >= 2 && i < j < |cells| && cells[i] == cells[j]
    ensures Goes(jobs, OnlySlow(i), start, cells).lost != []
  {
    hide *;
    var front := cells[..j];
    SlowStays(jobs, i, start, front);
    RestartLoses(jobs, i, Goes(jobs, OnlySlow(i), start, front), start, j, cells[i]);
    GoesOn(jobs, OnlySlow(i), start, front, cells[j]);
    assert cells[..j + 1] == front + [cells[j]];
    LostStays(jobs, OnlySlow(i), start, cells, j + 1);
  }

  ghost predicate LosesNothing(jobs: nat, timing: Timing, start: nat, cells: seq<Cell>)
    requires jobs >= 1
  {
    Goes(jobs, timing, start, cells).lost == []
  }

  /** Every timing collects all that is started if and only if one simulation runs at a time or no cell is named
      twice. */
  lemma NothingLost(jobs: nat, start: nat, cells: seq<Cell>)
    requires jobs >= 1
    ensures (forall timing :: LosesNothing(jobs, timing, start, cells)) <==> jobs == 1 || Distinct(cells)
  {
    if jobs == 1 || Distinct(cells) {
      forall timing ensures LosesNothing(jobs, timing, start, cells) {
        if jobs == 1 { OneAtATime(timing, start, cells); } else { DistinctLoseNone(jobs, timing, start, cells); }
      }
    } else {
      var i, j :| 0 <= i < j < |cells| && cells[i] == cells[j];
      SlowIsLost(jobs, start, cells, i, j);
      assert !LosesNothing(jobs, OnlySlow(i), start, cells);
    }
  }

  /** And for one timing, a cell named twice and nothing else: there is room for both, and the first outlasts the
      second's build. */
  lemma TwiceLoses(jobs: nat, timing: Timing, start: nat, c: Cell)
    requires jobs >= 1
    ensures LosesNothing(jobs, timing, start, [c, c]) <==> jobs == 1 || timing.simulate(0) <= timing.build(1)
  {
    if jobs == 1 {
      OneAtATime(timing, start, [c, c]);
    } else {
      GoesOn(jobs, timing, start, [], c);
      GoesOn(jobs, timing, start, [c], c);
      assert [] + [c] == [c] && [c] + [c] == [c, c];
      var t0 := start + timing.build(0);
      LiveAlone(jobs, map[], t0, c);
      LiveAlone(jobs, map[c := t0 + timing.simulate(0)], t0 + timing.build(1), c);
      LiveOne(c, t0 + timing.simulate(0), t0 + timing.build(1));
      LiveOne(c, 0, t0);
      hide Goes, Live, FreeAt, FirstFree;
      hide FreeAt, FirstFree;
    }
  }

  class Scheduler {
    const jobs: nat
    const timing: Timing
    var clock: nat
    var running: map<Cell, nat>           // each simulation kept track of and when it will be over
    var imaged: set<(Core, bool)>
    var images: seq<(Core, bool)>         // images built, in order
    var started: seq<Cell>
    var recorded: seq<Cell>               // results written, in order
    ghost var lost: seq<Cell>             // simulations whose cell was started again before they were over
    ghost var deadline: nat               // by when all that runs has finished
    ghost var peak: nat                   // most simulations ever kept track of at once

    constructor (jobs: nat, timing: Timing)
      requires jobs >= 1
      ensures Valid() && Unused() && recorded == [] && images == []
      ensures this.jobs == jobs && this.timing == timing
    {
      this.jobs, this.timing := jobs, timing;
      clock, running, imaged, images, started, recorded, deadline, peak := 0, map[], {}, [], [], [], 0, 0;
      lost := [];
    }

    predicate Over(c: Cell)
      requires c in running
      reads `running, `clock
    {
      clock >= running[c]
    }

    ghost predicate Valid()
      reads `running, `deadline, `peak, `started, `recorded, `lost, `imaged, `images
    {
      && jobs >= 1 && |running| <= peak <= jobs
      && Ended(running, deadline) && Accounted(started, recorded, lost, running)
      && ImagesKept(imaged, images, started)
    }

    // Delete a simulation that is over and write its result.
    method Record(c: Cell)
      requires Valid() && c in running
      modifies `running, `recorded
      ensures Valid() && running == old(running) - {c} && |running| < old(|running|)
    {
      hide Ended, Accounted, ImagesKept;
      EndedWithout(running, deadline, c);
      RecordAccounts(started, recorded, lost, running, c);
      running := running - {c};
      recorded := recorded + [c];
    }

    // One pass over the running simulations, in any order.
    method Collect()
      requires Valid()
      modifies `running, `recorded
      ensures Valid() && running == Live(old(running), clock)
      ensures |running| <= old(|running|)
    {
      hide Valid;
      var todo := running.Keys;
      while todo != {}
        invariant todo <= running.Keys && Valid() && |running| <= old(|running|)
        invariant running.Keys <= old(running).Keys
        invariant forall c :: c in running ==> running[c] == old(running)[c] && (c in todo || !Over(c))
        invariant forall c :: c in old(running) && clock < old(running)[c] ==> c in running
        decreases |todo|
      {
        var c :| c in todo;
        todo := todo - {c};
        if Over(c) { Record(c); }
      }
    }

    // Collect; and, to make room, wait until fewer than `jobs` are left.
    method Reap(block: bool)
      requires Valid()
      modifies `running, `recorded, `clock
      ensures Valid() && running == Live(old(running), clock)
      ensures if block then FirstFree(jobs, old(running), old(clock), clock) else clock == old(clock)
      ensures |running| <= old(|running|)
    {
      hide Valid, Ended, Live;
      while true
        invariant Valid() && clock >= old(clock) && |running| <= old(|running|)
        invariant forall t: nat :: t >= clock ==> Live(running, t) == Live(old(running), t)
        invariant !block ==> clock == old(clock)
        invariant forall t: nat :: old(clock) <= t < clock ==> |Live(old(running), t)| >= jobs
        decreases if deadline > clock then deadline - clock else 0
      {
        ghost var was := running;
        Collect();
        forall t: nat | t >= clock ensures Live(running, t) == Live(was, t) { LiveOfLive(was, clock, t); }
        if running == map[] || !block || |running| < jobs {
          JobsPositive();
          return;
        }
        StillToRun();
        clock := clock + 1;
      }
    }

    lemma JobsPositive()
      requires Valid()
      ensures jobs >= 1
    {}

    // What is left after collecting is not over yet.
    lemma StillToRun()
      requires Valid() && running != map[] && exists was :: running == Live(was, clock)
      ensures deadline > clock
    {
      var c :| c in running;
    }

    method BuildImage(c: Cell)
      requires Valid()
      modifies `imaged, `images
      ensures Valid() && imaged == old(imaged) + {ImageOf(c)}
    {
      if ImageOf(c) !in imaged {
        images := images + [ImageOf(c)];
        imaged := imaged + {ImageOf(c)};
      }
    }

    ghost function Now(): Going
      reads `running, `clock, `lost
    {
      Going(running, clock, lost)
    }

    method Start(c: Cell)
      requires Valid() && |running| < jobs && ImageOf(c) in imaged
      modifies `running, `started, `lost, `deadline, `peak
      ensures Valid() && started == old(started) + [c]
      ensures Now() == Begun(old(Now()), timing.simulate(old(|started|)), c)
    {
      hide Ended, Accounted, ImagesKept;
      var end := clock + timing.simulate(|started|);
      StartEnded(running, deadline, c, end);
      StartImaged(imaged, images, started, c);
      if c in running {
        RestartForgets(started, recorded, lost, running, c, end);
        lost := lost + [c];
      } else {
        StartAccounts(started, recorded, lost, running, c, end);
      }
      running := running[c := end];
      started := started + [c];
      if end > deadline { deadline := end; }
      if |running| > peak { peak := |running|; }
    }

    // Build a cell's simulation and make room.
    method MakeRoom()
      requires Valid()
      modifies `running, `recorded, `clock
      ensures Valid() && jobs >= 1 && |running| < jobs && Now() == Roomed(jobs, old(Now()), timing.build(|started|))
    {
      JobsPositive();
      hide Valid, Live, FirstFree, FreeAt;
      clock := clock + timing.build(|started|);
      ghost var was, built := running, clock;
      Reap(true);
      HasRoom(jobs, was, built, clock);
      FirstFreeOnce(jobs, was, built, clock, FreeAt(jobs, was, built));
    }

    // Build one cell's image, unless it is there, and its simulation; make room; start it.
    method Launch(c: Cell)
      requires Valid()
      modifies this
      ensures Valid() && jobs >= 1
      ensures started == old(started) + [c] && imaged == old(imaged) + {ImageOf(c)}
      ensures Now() == Launched(jobs, timing, old(Now()), old(|started|), c)
    {
      hide Valid, Roomed, Begun, ImageOf, Now;
      BuildImage(c);
      MakeRoom();
      Start(c);
    }

    // Wait for what still runs.
    method Drain()
      requires Valid()
      modifies `running, `recorded, `clock
      ensures Valid() && running == map[]
    {
      while running != map[]
        invariant Valid()
        decreases |running| + if deadline > clock then deadline - clock else 0
      {
        Reap(false);
        if running != map[] {
          var c :| c in running;
          assert !Over(c) && deadline > clock;
        }
        clock := clock + 1;
      }
    }

    ghost predicate Unused()
      reads `running, `lost, `started, `imaged
    {
      started == [] && lost == [] && running == map[] && imaged == {}
    }

    /** What has been built, and what is running and lost, follows from what has been started since then. */
    ghost predicate Follows(start: nat)
      reads `running, `clock, `lost, `started, `imaged
    {
      jobs >= 1 && imaged == Images(started) && Now() == Goes(jobs, timing, start, started)
    }

    lemma NothingStarted()
      requires Valid() && Unused()
      ensures Follows(clock) && started == []
    {}

    method LaunchNext(c: Cell, ghost start: nat)
      requires Valid() && Follows(start)
      modifies this
      ensures Valid() && Follows(start) && started == old(started) + [c]
    {
      GoesOn(jobs, timing, start, started, c);
      ImagesOn(started, c);
      hide Valid, Goes, Images, ImageOf, Launched, Now;
      Launch(c);
    }

    method StartAll(todo: seq<Cell>)
      requires Valid() && Unused()
      modifies this
      ensures Valid() && Follows(old(clock)) && started == todo
    {
      NothingStarted();
      ghost var start := clock;
      hide *;
      for i := 0 to |todo|
        invariant Valid() && Follows(start)
        invariant |started| == i && started <= todo
      {
        LaunchNext(todo[i], start);
      }
    }

    /** Runs to the end for any timing and any list of cells.  Every pending cell is started, in order, as often as
        it is named, and has a result; what is started and has none was lost to a restart of its cell, exactly as the
        launches go, which cannot happen one at a time or when the cells differ; each image is built once, before it
        is needed. */
    method Run(cells: seq<Cell>, results: set<Cell>, force: bool)
      requires Valid() && Unused()
      modifies this
      ensures started == Pending(cells, results, force) && running == map[] && 1 <= jobs && peak <= jobs
      ensures Selected(cells, Wanted(results, force), started)
      ensures forall c :: c in started <==> c in cells && (force || c !in results)
      ensures multiset(started) == multiset(recorded) + multiset(lost)
      ensures forall c :: c in recorded <==> c in started
      ensures lost == Goes(jobs, timing, old(clock), started).lost
      ensures jobs == 1 || Distinct(started) ==> lost == []
      ensures Distinct(cells) ==> Distinct(recorded)
      ensures Distinct(images) && (set k | k in images) == Images(started)
    {
      var todo := Pending(cells, results, force);
      PendingSelected(cells, results, force);
      ghost var start := clock;
      StartAll(todo);
      RunLoses(jobs, timing, start, todo);
      Drain();
      AllRecorded();
      if Distinct(cells) {
        PendingDistinct(cells, results, force);
        SameElementsDistinct(recorded, todo);
      }
      hide Selected, Goes, Distinct, Accounted, Ended, Wanted;
    }

    lemma AllRecorded()
      requires Valid() && running == map[]
      ensures multiset(started) == multiset(recorded) + multiset(lost)
      ensures forall c :: c in recorded <==> c in started
    {
      assert running.Keys == {};
      forall c | c in recorded ensures c in started {
        assert multiset(started)[c] > 0;
      }
    }
  }

  lemma RunLoses(jobs: nat, timing: Timing, start: nat, todo: seq<Cell>)
    requires jobs >= 1
    ensures jobs == 1 || Distinct(todo) ==> Goes(jobs, timing, start, todo).lost == []
  {
    NothingLost(jobs, start, todo);
    assert LosesNothing(jobs, timing, start, todo) <==> Goes(jobs, timing, start, todo).lost == [];
  }

  lemma HasRoom(jobs: nat, running: map<Cell, nat>, t: nat, u: nat)
    requires FirstFree(jobs, running, t, u)
    ensures |Live(running, u)| < jobs
  {}

  lemma LiveOfLive(running: map<Cell, nat>, t: nat, u: nat)
    requires t <= u
    ensures Live(Live(running, t), u) == Live(running, u)
  {}

  lemma EndedWithout(running: map<Cell, nat>, deadline: nat, c: Cell)
    requires Ended(running, deadline)
    ensures Ended(running - {c}, deadline)
  {}

  lemma StartEnded(running: map<Cell, nat>, deadline: nat, c: Cell, end: nat)
    requires Ended(running, deadline)
    ensures Ended(running[c := end], if end > deadline then end else deadline)
  {}

  lemma StartImaged(imaged: set<(Core, bool)>, images: seq<(Core, bool)>, started: seq<Cell>, c: Cell)
    requires ImagesKept(imaged, images, started) && ImageOf(c) in imaged
    ensures ImagesKept(imaged, images, started + [c])
  {}

  lemma StartAccounts(started: seq<Cell>, recorded: seq<Cell>, lost: seq<Cell>, running: map<Cell, nat>, c: Cell,
                      at: nat)
    requires Accounted(started, recorded, lost, running) && c !in running
    ensures |running[c := at]| == |running| + 1
    ensures Accounted(started + [c], recorded, lost, running[c := at])
  {
    Added(running, c, at);
  }

  /** Starting a cell that is still running replaces its entry: no more are kept track of than before, and the
      accounts balance only with the earlier simulation written off. */
  lemma RestartForgets(started: seq<Cell>, recorded: seq<Cell>, lost: seq<Cell>, running: map<Cell, nat>, c: Cell,
                       at: nat)
    requires Accounted(started, recorded, lost, running) && c in running
    ensures |running[c := at]| == |running|
    ensures Accounted(started + [c], recorded, lost + [c], running[c := at])
    ensures !Accounted(started + [c], recorded, lost, running[c := at])
  {
    assert running[c := at].Keys == running.Keys;
    assert multiset(started + [c])[c] == multiset(started)[c] + 1;
  }

  lemma RecordAccounts(started: seq<Cell>, recorded: seq<Cell>, lost: seq<Cell>, running: map<Cell, nat>, c: Cell)
    requires Accounted(started, recorded, lost, running) && c in running
    ensures |running - {c}| == |running| - 1
    ensures Accounted(started, recorded + [c], lost, running - {c})
  {
    Removed(running, c);
  }

  lemma Added(running: map<Cell, nat>, c: Cell, at: nat)
    requires c !in running
    ensures |running[c := at]| == |running| + 1
    ensures multiset(running[c := at].Keys) == multiset(running.Keys) + multiset{c}
  {
    assert running[c := at].Keys == running.Keys + {c};
  }

  lemma SameElementsDistinct(a: seq<Cell>, b: seq<Cell>)
    requires multiset(a) == multiset(b) && Distinct(b)
    ensures Distinct(a)
  {
    forall i, j | 0 <= i < j < |a| ensures a[i] != a[j] {
      if a[i] == a[j] {
        TwiceIn(a, i, j);
        AtMostOnce(b, a[i]);
      }
    }
  }

  lemma TwiceIn(s: seq<Cell>, i: nat, j: nat)
    requires i < j < |s| && s[i] == s[j]
    ensures multiset(s)[s[i]] >= 2
  {
    assert s == s[..j] + [s[j]] + s[j + 1..];
    assert s[i] in s[..j];
  }

  lemma {:induction false} AtMostOnce(s: seq<Cell>, c: Cell)
    requires Distinct(s)
    ensures multiset(s)[c] <= 1
  {
    if s != [] {
      var front, last := s[..|s| - 1], s[|s| - 1];
      assert s == front + [last];
      AtMostOnce(front, c);
      assert last !in front;
    }
  }

  lemma Removed(running: map<Cell, nat>, c: Cell)
    requires c in running
    ensures |running - {c}| == |running| - 1
    ensures multiset(running.Keys) == multiset((running - {c}).Keys) + multiset{c}
  {
    assert (running - {c}).Keys == running.Keys - {c};
  }
}
