/** The data path of the model refines a flat memory of bytes: what a READ drives, and when. */
module SdramData {
  import opened SdramMachine
  import opened SdramHistory
  import opened SdramChecker

  // ----- the address mapping -----

  lemma FlatInjective(g: Geometry, b: Bank, r: nat, c: nat, b': Bank, r': nat, c': nat)
    requires c < g.Cols() && c' < g.Cols() && g.Flat(b, r, c) == g.Flat(b', r', c')
    ensures b == b' && r == r' && c == c'
  {
    DigitsUnique(r * NBANKS + b, c, r' * NBANKS + b', c', g.Cols());
  }

  lemma DigitsUnique(hi: nat, lo: nat, hi': nat, lo': nat, base: nat)
    requires lo < base && lo' < base && hi * base + lo == hi' * base + lo'
    ensures hi == hi' && lo == lo'
  {
    HighDigit(hi, lo, hi', lo', base);
    HighDigit(hi', lo', hi, lo, base);
  }

  lemma HighDigit(hi: nat, lo: nat, hi': nat, lo': nat, base: nat)
    requires lo < base && hi * base + lo == hi' * base + lo'
    ensures hi >= hi'
  {
    if hi < hi' {
      var d := hi' - hi;
      assert hi' * base == hi * base + d * base;
      AtLeastOnce(d, base);
    }
  }

  lemma AtLeastOnce(d: nat, base: nat)
    requires d >= 1
    ensures d * base >= base
  {
  }

  lemma FlatOffset(g: Geometry, b: Bank, r: nat, c: nat, i: nat)
    ensures g.Flat(b, r, c + i) == g.Flat(b, r, c) + i
  {
  }

  lemma RowInRange(g: Geometry, tr: seq<Pins>, n: nat, b: Bank)
    requires n <= |tr|
    ensures RowAt(g, tr, n, b) < g.Rows()
  {
  }

  // ----- storage -----

  lemma MergeLanes(was: bv16, d: bv16, low: bool, high: bool)
    ensures Merge(was, d, low, high) & 0x00FF == (if low then d else was) & 0x00FF
    ensures Merge(was, d, low, high) & 0xFF00 == (if high then d else was) & 0xFF00
  {
  }

  lemma MergeLane(was: bv16, d: bv16, low: bool, high: bool, lane: Lane)
    ensures LaneOf(Merge(was, d, low, high), lane) == LaneOf(if if lane == 0 then low else high then d else was, lane)
  {
    MergeLanes(was, d, low, high);
    hide Merge;
  }

  lemma StoreWordLane(was: bv16, p: Pins, lane: Lane)
    ensures LaneOf(StoreWord(was, p.dq, p), lane) == LaneOf(if p.Unmasked(lane) then p.dq else was, lane)
  {
    MergeLane(was, p.dq, p.Unmasked(0), p.Unmasked(1), lane);
    hide Merge, LaneOf, Pins.Unmasked;
    if lane == 0 {} else { assert lane == 1; }
  }

  /** The byte an address holds after the first n edges: the one last stored there with its lane
      unmasked, or what storage started with. */
  ghost function Content(g: Geometry, mem: seq<bv16>, tr: seq<Pins>, n: nat,
                         b: Bank, r: nat, c: nat, lane: Lane): bv16
    requires n <= |tr| && |mem| == g.words && g.Flat(b, r, c) < g.words
  {
    var k := Last(g, tr, n, Puts(b, r, c, lane));
    LaneOf(if k < 0 then mem[g.Flat(b, r, c)] else tr[k].dq, lane)
  }

  ghost predicate Address(g: Geometry, b: Bank, r: nat, c: nat) {
    r < g.Rows() && c < g.Cols() && g.Flat(b, r, c) < g.words
  }

  ghost predicate Holds(g: Geometry, mem: seq<bv16>, tr: seq<Pins>, n: nat, s: State)
    requires n <= |tr| && |mem| == g.words && |s.mem| == g.words
  {
    forall b: Bank, r: nat, c: nat, lane: Lane :: Address(g, b, r, c) ==>
      LaneOf(s.mem[g.Flat(b, r, c)], lane) == Content(g, mem, tr, n, b, r, c, lane)
  }

  // The burst under way stores at this address at edge n.
  ghost predicate BurstPuts(g: Geometry, tr: seq<Pins>, n: nat, b: Bank, r: nat, c: nat)
    requires n < |tr|
  {
    exists w :: InFlight(tr, w, n) && tr[w].ba == b && RowAt(g, tr, w, b) == r && tr[w].Col(g) + (n - w) == c
  }

  lemma BurstLasts(g: Geometry, tr: seq<Pins>, n: nat, s: State, b: Bank, r: nat, c: nat)
    requires n < |tr| && s.Shaped(g) && Burst(g, tr, n, s) && BurstPuts(g, tr, n, b, r, c)
    ensures s.wrLeft > 0
  {
    var w :| InFlight(tr, w, n);
    assert Aimed(g, tr, n, s, w);
  }

  // The burst stores where its state points.
  lemma BurstPutsThere(g: Geometry, tr: seq<Pins>, n: nat, s: State, b: Bank, r: nat, c: nat)
    requires n < |tr| && s.Shaped(g) && Burst(g, tr, n, s) && s.wrLeft > 0 && Address(g, b, r, c)
    ensures BurstPuts(g, tr, n, b, r, c) <==> g.Flat(s.wrBank, s.row[s.wrBank], s.wrCol) == g.Flat(b, r, c)
  {
    var w :| InFlight(tr, w, n);
    assert Aimed(g, tr, n, s, w);
    forall v | InFlight(tr, v, n) ensures v == w { InFlightUnique(tr, w, v, n); }
    hide Geometry.Flat, Geometry.Rows, Geometry.Cols, InFlight, BurstAt, RowAt, Burst;
    if g.Flat(s.wrBank, s.row[s.wrBank], s.wrCol) == g.Flat(b, r, c) {
      FlatInjective(g, s.wrBank, s.row[s.wrBank], s.wrCol, b, r, c);
    }
  }

  lemma BurstStores(g: Geometry, tr: seq<Pins>, n: nat, s: State, b: Bank, r: nat, c: nat, lane: Lane)
    requires n < |tr| && s.Shaped(g) && Burst(g, tr, n, s) && Continue(g, s, tr[n]).Running? && Address(g, b, r, c)
    ensures var mid := Continue(g, s, tr[n]).s;
            LaneOf(mid.mem[g.Flat(b, r, c)], lane)
            == LaneOf(if BurstPuts(g, tr, n, b, r, c) && tr[n].Unmasked(lane) then tr[n].dq
                      else s.mem[g.Flat(b, r, c)], lane)
  {
    if BurstPuts(g, tr, n, b, r, c) { BurstLasts(g, tr, n, s, b, r, c); }
    if s.wrLeft > 0 {
      BurstPutsThere(g, tr, n, s, b, r, c);
      BurstStore(g, s, tr[n]);
      StoreWordLane(s.mem[g.Flat(b, r, c)], tr[n], lane);
      hide Continue;
    }
    hide Geometry.Flat, BurstPuts, Burst, StoreWord, LaneOf, Pins.Unmasked;
  }

  lemma BurstStore(g: Geometry, s: State, p: Pins)
    requires s.Shaped(g) && s.wrLeft > 0 && Continue(g, s, p).Running?
    ensures var at := g.Flat(s.wrBank, s.row[s.wrBank], s.wrCol);
            at < g.words && Continue(g, s, p).s.mem == s.mem[at := StoreWord(s.mem[at], p.dq, p)]
  {
  }

  lemma WriteStores(g: Geometry, s: State, p: Pins, b: Bank, r: nat, c: nat, lane: Lane)
    requires s.Shaped(g) && p.Cmd() == Wr && DoWr(g, s, p).Running? && Address(g, b, r, c)
    ensures LaneOf(DoWr(g, s, p).s.mem[g.Flat(b, r, c)], lane)
            == LaneOf(if p.ba == b && s.row[b] == r && p.Col(g) == c && p.Unmasked(lane) then p.dq
                      else s.mem[g.Flat(b, r, c)], lane)
  {
    var at := g.Flat(b, r, c);
    WriteStore(g, s, p);
    StoreWordLane(s.mem[at], p, lane);
    hide g.Flat;
    if g.Flat(p.ba, s.row[p.ba], p.Col(g)) == at {
      FlatInjective(g, p.ba, s.row[p.ba], p.Col(g), b, r, c);
    }
  }

  lemma WriteStore(g: Geometry, s: State, p: Pins)
    requires s.Shaped(g) && DoWr(g, s, p).Running?
    ensures var at := g.Flat(p.ba, s.row[p.ba], p.Col(g));
            && p.Col(g) < g.Cols()
            && at < g.words && DoWr(g, s, p).s.mem == s.mem[at := StoreWord(s.mem[at], p.dq, p)]
  {
  }

  lemma ContentGrows(g: Geometry, mem: seq<bv16>, tr: seq<Pins>, n: nat, b: Bank, r: nat, c: nat, lane: Lane)
    requires n < |tr| && |mem| == g.words && g.Flat(b, r, c) < g.words
    ensures var written := tr[n].Cmd() == Wr && tr[n].ba == b && RowAt(g, tr, n, b) == r && tr[n].Col(g) == c;
            Content(g, mem, tr, n + 1, b, r, c, lane)
            == if tr[n].Unmasked(lane) && (written || BurstPuts(g, tr, n, b, r, c)) then LaneOf(tr[n].dq, lane)
               else Content(g, mem, tr, n, b, r, c, lane)
  {
  }

  lemma ObeyKeepsStorage(g: Geometry, s: State, p: Pins)
    requires s.Shaped(g) && Obey(g, s, p).Running? && p.Cmd() != Wr
    ensures Obey(g, s, p).s.mem == s.mem
  {
    if p.Cmd() == Pre { DoPreMeaning(g, s, p); }
  }

  /** One edge keeps storage equal to the history's bytes. */
  lemma EdgeHolds(g: Geometry, mem: seq<bv16>, tr: seq<Pins>, n: nat, s: State)
    requires n < |tr| && |mem| == g.words && Tracks(g, tr, n, s)
    requires Holds(g, mem, tr, n, s) && Step(g, s, tr[n]).Running?
    ensures Holds(g, mem, tr, n + 1, Step(g, s, tr[n]).s)
  {
    var p := tr[n];
    var mid := Continue(g, s, p).s;
    var s' := Step(g, s, p).s;
    ContinueKeepsRows(g, s, p);
    if p.Cmd() != Wr { ObeyKeepsStorage(g, mid, p); }
    hide Continue, Content, BurstPuts, Pins.Unmasked, g.Flat, Pins.Col;
    forall b: Bank, r: nat, c: nat, lane: Lane | Address(g, b, r, c)
      ensures LaneOf(s'.mem[g.Flat(b, r, c)], lane) == Content(g, mem, tr, n + 1, b, r, c, lane)
    {
      BurstStores(g, tr, n, s, b, r, c, lane);
      ContentGrows(g, mem, tr, n, b, r, c, lane);
      if p.Cmd() == Wr { WriteStores(g, mid, p, b, r, c, lane); }
    }
  }

  lemma ContinueKeepsRows(g: Geometry, s: State, p: Pins)
    requires s.Shaped(g) && Continue(g, s, p).Running?
    ensures Continue(g, s, p).s.row == s.row && Continue(g, s, p).s.active == s.active
    ensures Continue(g, s, p).s.cl == s.cl && Continue(g, s, p).s.bl == s.bl
    ensures Continue(g, s, p).s.pipeV == Shift(s.pipeV, false) && Continue(g, s, p).s.pipeD == Shift(s.pipeD, 0)
  {
  }

  // ----- the read pipeline -----

  /** Lane of the word the READ at d sends out after edge t: the content of its address when its
      command was taken, after any store of the same edge. */
  ghost predicate Sends(g: Geometry, mem: seq<bv16>, tr: seq<Pins>, d: nat, t: int, word: bv16)
    requires d < |tr| && |mem| == g.words
  {
    var c := tr[d].Col(g) + BeatOf(tr, d, t);
    var r := RowAt(g, tr, d, tr[d].ba);
    && 0 <= BeatOf(tr, d, t) && Address(g, tr[d].ba, r, c)
    && forall lane: Lane :: LaneOf(word, lane) == Content(g, mem, tr, d + 1, tr[d].ba, r, c, lane)
  }

  ghost predicate Queued(g: Geometry, mem: seq<bv16>, tr: seq<Pins>, n: nat, v: bool, word: bv16, t: int)
    requires n <= |tr| && |mem| == g.words
  {
    var d := Last(g, tr, n, Fetches(t));
    (v <==> d >= 0) && (d >= 0 ==> Sends(g, mem, tr, d, t, word))
  }

  /** Slot k of the pipeline before edge n is what will be on the bus after edge n - 1 + k. */
  ghost predicate Pipelined(g: Geometry, mem: seq<bv16>, tr: seq<Pins>, n: nat, s: State)
    requires n <= |tr| && |mem| == g.words && s.Shaped(g)
  {
    forall k :: 0 <= k < PIPE ==> Queued(g, mem, tr, n, s.pipeV[k], s.pipeD[k], n - 1 + k)
  }

  lemma NothingBeyond(g: Geometry, tr: seq<Pins>, n: nat)
    requires n <= |tr| && Clean(g, tr, n)
    ensures Last(g, tr, n, Fetches(n - 1 + PIPE)) < 0
  {
    hide LegalAt;
    var due := n - 1 + PIPE;
    forall d | 0 <= d < n ensures !Occurs(g, tr, d, Fetches(due)) {
      assert FitsPipeline(g, tr, d);
    }
  }

  lemma ShiftKeeps(g: Geometry, mem: seq<bv16>, tr: seq<Pins>, n: nat, s: State)
    requires n <= |tr| && |mem| == g.words && s.Shaped(g) && Clean(g, tr, n) && Pipelined(g, mem, tr, n, s)
    ensures var v, w := Shift(s.pipeV, false), Shift(s.pipeD, 0);
            forall k :: 0 <= k < PIPE ==> Queued(g, mem, tr, n, v[k], w[k], n + k)
  {
    NothingBeyond(g, tr, n);
    var v, w := Shift(s.pipeV, false), Shift(s.pipeD, 0);
    hide Last, Sends;
    forall k | 0 <= k < PIPE ensures Queued(g, mem, tr, n, v[k], w[k], n + k) {
      if k < PIPE - 1 { assert Queued(g, mem, tr, n, s.pipeV[k + 1], s.pipeD[k + 1], n - 1 + (k + 1)); }
    }
  }

  /** A READ claims its slots with what storage holds now; every other slot keeps its word. */
  lemma ReadFills(g: Geometry, mem: seq<bv16>, tr: seq<Pins>, n: nat, s: State, k: nat)
    requires n < |tr| && |mem| == g.words && k < PIPE && s.Shaped(g) && Holds(g, mem, tr, n + 1, s)
    requires s.cl == CasAt(tr, n) && s.bl == BurstAt(tr, n) && s.row[tr[n].ba] == RowAt(g, tr, n, tr[n].ba)
    requires tr[n].Cmd() == Rd && DoRd(g, s, tr[n]).Running?
    requires Queued(g, mem, tr, n, s.pipeV[k], s.pipeD[k], n + k)
    ensures var s' := DoRd(g, s, tr[n]).s;
            Queued(g, mem, tr, n + 1, s'.pipeV[k], s'.pipeD[k], n + k)
  {
    hide DoRd, Sends, Last, Holds, g.Flat, Pins.Col;
    var p := tr[n];
    var i := BeatOf(tr, n, n + k);
    ReadSlot(g, s, p, k);
    FetchGrows(g, tr, n, k);
    if 0 <= i < s.bl { HitSends(g, mem, tr, n, s, n + k); }
  }

  lemma HitSends(g: Geometry, mem: seq<bv16>, tr: seq<Pins>, n: nat, s: State, t: int)
    requires n < |tr| && |mem| == g.words && s.Shaped(g) && Holds(g, mem, tr, n + 1, s)
    requires s.row[tr[n].ba] == RowAt(g, tr, n, tr[n].ba) && 0 <= BeatOf(tr, n, t)
    requires var c := tr[n].Col(g) + BeatOf(tr, n, t);
             c < g.Cols() && g.Flat(tr[n].ba, s.row[tr[n].ba], c) < g.words
    ensures var c := tr[n].Col(g) + BeatOf(tr, n, t);
            Sends(g, mem, tr, n, t, s.mem[g.Flat(tr[n].ba, s.row[tr[n].ba], c)])
  {
    var p := tr[n];
    RowInRange(g, tr, n, p.ba);
    assert Address(g, p.ba, s.row[p.ba], p.Col(g) + BeatOf(tr, n, t));
  }

  lemma FetchGrows(g: Geometry, tr: seq<Pins>, n: nat, k: nat)
    requires n < |tr|
    ensures Last(g, tr, n + 1, Fetches(n + k)) ==
            if tr[n].Cmd() == Rd && 0 <= BeatOf(tr, n, n + k) < BurstAt(tr, n) then n
            else Last(g, tr, n, Fetches(n + k))
  {
  }

  lemma ReadSlot(g: Geometry, s: State, p: Pins, k: nat)
    requires s.Shaped(g) && DoRd(g, s, p).Running? && k < PIPE
    ensures var s' := DoRd(g, s, p).s;
            var i := k - (s.cl - 1);
            && s'.mem == s.mem
            && (0 <= i < s.bl ==>
                  && p.Col(g) + i < g.Cols() && g.Flat(p.ba, s.row[p.ba], p.Col(g) + i) < g.words
                  && s'.pipeV[k] && s'.pipeD[k] == s.mem[g.Flat(p.ba, s.row[p.ba], p.Col(g) + i)])
            && (!(0 <= i < s.bl) ==> s'.pipeV[k] == s.pipeV[k] && s'.pipeD[k] == s.pipeD[k])
  {
    if 0 <= k - (s.cl - 1) < s.bl { FlatOffset(g, p.ba, s.row[p.ba], p.Col(g), k - (s.cl - 1)); }
  }

  lemma ObeyKeepsPipe(g: Geometry, s: State, p: Pins)
    requires s.Shaped(g) && Obey(g, s, p).Running? && p.Cmd() != Rd
    ensures Obey(g, s, p).s.pipeV == s.pipeV && Obey(g, s, p).s.pipeD == s.pipeD
  {
    if p.Cmd() == Pre { DoPreMeaning(g, s, p); }
  }

  lemma ReadIs(g: Geometry, s: State, p: Pins)
    requires s.Shaped(g) && p.Cmd() == Rd && Obey(g, s, p).Running?
    ensures Obey(g, s, p) == DoRd(g, s, p) && DoRd(g, s, p).s.mem == s.mem
  {
  }

  lemma EdgePipelines(g: Geometry, mem: seq<bv16>, tr: seq<Pins>, n: nat, s: State)
    requires n < |tr| && |mem| == g.words && Clocks(g, tr, n, s) && Clean(g, tr, n)
    requires Pipelined(g, mem, tr, n, s) && Step(g, s, tr[n]).Running?
    requires Holds(g, mem, tr, n + 1, Step(g, s, tr[n]).s)
    ensures Pipelined(g, mem, tr, n + 1, Step(g, s, tr[n]).s)
  {
    var p := tr[n];
    var mid := Continue(g, s, p).s;
    var s' := Step(g, s, p).s;
    ShiftKeeps(g, mem, tr, n, s);
    ContinueKeepsRows(g, s, p);
    if p.Cmd() == Rd { ReadIs(g, mid, p); } else { ObeyKeepsPipe(g, mid, p); }
    assert s' == Obey(g, mid, p).s && mid.Shaped(g);
    assert mid.row[p.ba] == RowAt(g, tr, n, p.ba) && mid.cl == CasAt(tr, n) && mid.bl == BurstAt(tr, n);
    hide Continue, Obey, Step, DoRd, Last, Sends, Clocks, Clean;
    forall k | 0 <= k < PIPE ensures Queued(g, mem, tr, n + 1, s'.pipeV[k], s'.pipeD[k], n + k) {
      if p.Cmd() == Rd {
        ReadFills(g, mem, tr, n, mid, k);
      } else {
        FetchGrows(g, tr, n, k);
      }
    }
  }

  /** Every run keeps storage and pipeline equal to what the history says they should be. */
  lemma {:induction false} DataPath(g: Geometry, mem: seq<bv16>, tr: seq<Pins>, n: nat)
    requires Timed(tr) && n <= |tr| && |mem| == g.words && Run(g, mem, tr, n).Running?
    ensures Holds(g, mem, tr, n, Run(g, mem, tr, n).s) && Pipelined(g, mem, tr, n, Run(g, mem, tr, n).s)
  {
    hide Step, Tracks, Clocks, Clean, Holds, Pipelined, Timed;
    if n == 0 {
      InitialData(g, mem, tr);
    } else {
      DataPath(g, mem, tr, n - 1);
      CheckerExact(g, mem, tr, n - 1);
      var s := Run(g, mem, tr, n - 1).s;
      TracksClocks(g, tr, n - 1, s);
      EdgeHolds(g, mem, tr, n - 1, s);
      EdgePipelines(g, mem, tr, n - 1, s);
    }
  }

  lemma InitialData(g: Geometry, mem: seq<bv16>, tr: seq<Pins>)
    requires |mem| == g.words
    ensures Holds(g, mem, tr, 0, Initial(mem)) && Pipelined(g, mem, tr, 0, Initial(mem))
  {
  }

  lemma TracksClocks(g: Geometry, tr: seq<Pins>, n: nat, s: State)
    requires n <= |tr| && Tracks(g, tr, n, s)
    ensures Clocks(g, tr, n, s)
  {
  }

  /** The READ at edge d has a beat due on the bus after edge n - 1. */
  ghost predicate OnBus(g: Geometry, tr: seq<Pins>, d: int, n: nat)
    requires n <= |tr|
  {
    0 <= d < n && Occurs(g, tr, d, Fetches(n - 1))
  }

  /** After edge n - 1 the part drives the bus exactly when some READ has a beat due, and what it
      drives is the byte content of that beat's address as of the latest such READ. */
  lemma DrivesExactlyWhatWasRead(g: Geometry, mem: seq<bv16>, tr: seq<Pins>, n: nat)
    requires Timed(tr) && 0 < n <= |tr| && |mem| == g.words && Run(g, mem, tr, n).Running?
    ensures var s := Run(g, mem, tr, n).s;
            && (s.pipeV[0] <==> exists d :: OnBus(g, tr, d, n))
            && (forall d :: OnBus(g, tr, d, n) && (forall e :: OnBus(g, tr, e, n) ==> e <= d)
                  ==> Sends(g, mem, tr, d, n - 1, s.pipeD[0]))
  {
    hide Occurs, Sends, Run, Timed, BeatOf;
    var s := Run(g, mem, tr, n).s;
    HeadOfPipe(g, mem, tr, n);
    var d := Last(g, tr, n, Fetches(n - 1));
    if d >= 0 { assert OnBus(g, tr, d, n); }
  }

  lemma HeadOfPipe(g: Geometry, mem: seq<bv16>, tr: seq<Pins>, n: nat)
    requires Timed(tr) && n <= |tr| && |mem| == g.words && Run(g, mem, tr, n).Running?
    ensures Queued(g, mem, tr, n, Run(g, mem, tr, n).s.pipeV[0], Run(g, mem, tr, n).s.pipeD[0], n - 1)
  {
    hide Run, Queued, Holds;
    DataPath(g, mem, tr, n);
    var s := Run(g, mem, tr, n).s;
    assert Queued(g, mem, tr, n, s.pipeV[0], s.pipeD[0], n - 1 + 0);
  }

  /** READs that leave room for each other's bursts, under one mode setting. */
  ghost predicate Spaced(tr: seq<Pins>, n: nat)
    requires n <= |tr|
  {
    forall d, e :: 0 <= d < e < n && tr[d].Cmd() == Rd && tr[e].Cmd() == Rd ==>
      BurstAt(tr, d) == BurstAt(tr, e) && CasAt(tr, d) == CasAt(tr, e) && e - d >= BurstAt(tr, d)
  }

  /** With one mode setting and READs a burst apart, beat i of the READ at edge d is on the bus after
      edge d + CL - 1 + i, and is the content of its address when the READ was taken. */
  lemma BeatArrives(g: Geometry, mem: seq<bv16>, tr: seq<Pins>, d: nat, i: nat, n: nat)
    requires Timed(tr) && |mem| == g.words && d < n <= |tr| && tr[d].Cmd() == Rd
    requires i < BurstAt(tr, d) && n - 1 == d + CasAt(tr, d) - 1 + i && Spaced(tr, n)
    requires Run(g, mem, tr, n).Running?
    ensures var s := Run(g, mem, tr, n).s;
            s.pipeV[0] && Sends(g, mem, tr, d, n - 1, s.pipeD[0])
  {
    DrivesExactlyWhatWasRead(g, mem, tr, n);
    hide Sends, Run;
    assert OnBus(g, tr, d, n);
  }
}
