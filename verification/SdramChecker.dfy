/** The checker's constant-size state decides the rules of the whole history: one timestamp per
    bank and per kind of event is enough because time never runs backwards. */
module SdramChecker {
  import opened SdramMachine
  import opened SdramHistory

  ghost function Time(tr: seq<Pins>, k: int): int
    requires -1 <= k < |tr|
  {
    if k < 0 then 0 else tr[k].now
  }

  /** What the state means before edge n.  beatTo says how many edges its write timestamps cover. */
  ghost predicate Clocks(g: Geometry, tr: seq<Pins>, n: nat, s: State)
    requires n <= |tr|
  {
    && s.Shaped(g)
    && (forall b: Bank :: s.active[b] <==> Open(tr, n, b))
    && (forall b: Bank :: s.row[b] == RowAt(g, tr, n, b))
    && (forall b: Bank :: s.tActive[b] == Time(tr, Last(g, tr, n, Activates(b))))
    && (forall b: Bank :: s.tPrecharge[b] == Time(tr, Last(g, tr, n, Closes(b))))
    && (s.mrProgrammed <==> Last(g, tr, n, SetsMode) >= 0)
    && s.cl == CasAt(tr, n) && s.bl == BurstAt(tr, n)
    && s.tMrsDone == Due(tr, Last(g, tr, n, SetsMode), T_MRD)
    && s.tLastRefresh == Time(tr, Last(g, tr, n, Refreshes))
    && s.tRefreshDone == Due(tr, Last(g, tr, n, Refreshes), T_RFC)
  }

  ghost function Due(tr: seq<Pins>, k: int, gap: int): int
    requires -1 <= k < |tr|
  {
    if k < 0 then 0 else tr[k].now + gap
  }

  /** A burst under way before edge n is the one the latest WRITE began, and it aims inside the row
      that WRITE found open, which is still open. */
  ghost predicate Burst(g: Geometry, tr: seq<Pins>, n: nat, s: State)
    requires n <= |tr| && s.Shaped(g)
  {
    && (s.wrLeft > 0 ==> exists w :: InFlight(tr, w, n))
    && (forall w :: InFlight(tr, w, n) ==> Aimed(g, tr, n, s, w))
  }

  ghost predicate Aimed(g: Geometry, tr: seq<Pins>, n: nat, s: State, w: int)
    requires n <= |tr| && s.Shaped(g) && 0 <= w < n
  {
    && s.wrLeft == BurstAt(tr, w) - (n - w)
    && s.wrBank == tr[w].ba
    && s.wrCol == tr[w].Col(g) + (n - w)
    && s.active[s.wrBank]
    && s.row[s.wrBank] == RowAt(g, tr, w, s.wrBank)
    && s.wrCol + s.wrLeft <= g.Cols()
    && g.Flat(s.wrBank, s.row[s.wrBank], s.wrCol) + s.wrLeft <= g.words
  }

  ghost predicate Tracks(g: Geometry, tr: seq<Pins>, n: nat, s: State)
    requires n <= |tr|
  {
    && Clocks(g, tr, n, s)
    && (forall b: Bank :: s.tWriteEnd[b] == Time(tr, Last(g, tr, n, Beats(b))))
    && Burst(g, tr, n, s)
  }

  // ----- one timestamp is enough -----

  /** Distance from every earlier occurrence is distance from the latest. */
  lemma LatestSuffices(g: Geometry, tr: seq<Pins>, j: nat, e: Event, gap: int)
    requires Timed(tr) && j < |tr| && tr[j].now >= gap
    ensures Apart(g, tr, j, e, gap) <==> tr[j].now >= Time(tr, Last(g, tr, j, e)) + gap
  {
    var k := Last(g, tr, j, e);
    if k >= 0 {
      assert Occurs(g, tr, k, e);
    }
  }

  lemma LatestRefresh(g: Geometry, tr: seq<Pins>, j: nat)
    requires Timed(tr) && j < |tr|
    ensures RefreshedInTime(g, tr, j) <==>
            (Last(g, tr, j, SetsMode) >= 0 ==> tr[j].now - Time(tr, Last(g, tr, j, Refreshes)) <= 2 * T_REFI)
  {
    var k := Last(g, tr, j, Refreshes);
    if k >= 0 { assert Occurs(g, tr, k, Refreshes); }
    var m := Last(g, tr, j, SetsMode);
    if m >= 0 { assert Occurs(g, tr, m, SetsMode); }
  }

  // ----- how the history grows by one edge -----

  lemma OpenGrows(tr: seq<Pins>, n: nat, b: Bank)
    requires n < |tr|
    ensures Open(tr, n + 1, b) <==>
            (tr[n].Cmd() == Act && tr[n].ba == b) || (Open(tr, n, b) && !tr[n].PrechargesBank(b))
  {
    if tr[n].Cmd() == Act && tr[n].ba == b {
      assert OpenedBy(tr, n, n + 1, b);
    } else {
      if Open(tr, n, b) && !tr[n].PrechargesBank(b) {
        var i :| OpenedBy(tr, i, n, b);
        assert OpenedBy(tr, i, n + 1, b);
      }
      if Open(tr, n + 1, b) {
        var i :| OpenedBy(tr, i, n + 1, b);
        assert i < n && OpenedBy(tr, i, n, b);
      }
    }
  }

  lemma OpenerIsLatest(g: Geometry, tr: seq<Pins>, i: int, n: nat, b: Bank)
    requires n <= |tr| && OpenedBy(tr, i, n, b)
    ensures i == Latest(tr, n, Activates(b)) && RowAt(g, tr, n, b) == tr[i].Row(g)
  {
    assert Shows(tr[i], Activates(b));
  }

  lemma InFlightGrows(tr: seq<Pins>, w: int, n: nat)
    requires n < |tr|
    ensures InFlight(tr, w, n + 1) <==>
            if tr[n].Cmd() == Wr then w == n && 1 < BurstAt(tr, n)
            else InFlight(tr, w, n) && n + 1 - w < BurstAt(tr, w)
  {
  }

  lemma InFlightUnique(tr: seq<Pins>, w: int, v: int, n: nat)
    requires n <= |tr| && InFlight(tr, w, n) && InFlight(tr, v, n)
    ensures w == v
  {
  }

  // ----- the burst half of an edge -----

  /** After the burst has taken its word: everything but the write side as before edge n, the
      write side as it will be after it unless a WRITE replaces the burst. */
  ghost predicate Midway(g: Geometry, tr: seq<Pins>, n: nat, s: State)
    requires n < |tr|
  {
    && Clocks(g, tr, n, s)
    && (forall b: Bank :: s.tWriteEnd[b] ==
          if exists w :: InFlight(tr, w, n) && tr[w].ba == b then tr[n].now
          else Time(tr, Last(g, tr, n, Beats(b))))
    && (s.wrLeft > 0 ==> exists w :: InFlight(tr, w, n) && n + 1 - w < BurstAt(tr, w))
    && (forall w :: InFlight(tr, w, n) ==> Rest(g, tr, n, s, w))
  }

  // What is left of the burst that the WRITE at w began, once edge n's word is taken.
  ghost predicate Rest(g: Geometry, tr: seq<Pins>, n: nat, s: State, w: int)
    requires n < |tr| && s.Shaped(g) && 0 <= w < n
  {
    && s.active[tr[w].ba]
    && s.wrLeft == BurstAt(tr, w) - (n + 1 - w)
    && (s.wrLeft > 0 ==>
          && s.wrBank == tr[w].ba
          && s.wrCol == tr[w].Col(g) + (n + 1 - w)
          && s.row[s.wrBank] == RowAt(g, tr, w, s.wrBank)
          && s.wrCol + s.wrLeft <= g.Cols()
          && g.Flat(s.wrBank, s.row[s.wrBank], s.wrCol) + s.wrLeft <= g.words)
  }

  lemma ClocksFrame(g: Geometry, tr: seq<Pins>, n: nat, s: State, s': State)
    requires n <= |tr| && Clocks(g, tr, n, s) && s'.Shaped(g)
    requires s' == s.(pipeV := s'.pipeV, pipeD := s'.pipeD, mem := s'.mem, tWriteEnd := s'.tWriteEnd,
                      wrLeft := s'.wrLeft, wrBank := s'.wrBank, wrCol := s'.wrCol)
    ensures Clocks(g, tr, n, s')
  {
  }

  /** A burst under way can fail in one way only: the bus not driven. */
  lemma BurstVerdict(g: Geometry, tr: seq<Pins>, n: nat, s: State)
    requires n < |tr| && Tracks(g, tr, n, s)
    ensures var o := Continue(g, s, tr[n]);
            && !o.Overrun?
            && (o.Running? <==> ((exists w :: InFlight(tr, w, n)) ==> tr[n].driven))
            && (o.Stopped? ==> o.why == BurstUndriven)
            && (o.Running? ==> Midway(g, tr, n, o.s))
  {
    var o := Continue(g, s, tr[n]);
    if o.Running? { ClocksFrame(g, tr, n, s, o.s); }
    if exists w :: InFlight(tr, w, n) {
      var w :| InFlight(tr, w, n);
      BurstTakes(g, tr, n, s, w);
    } else {
      assert s.wrLeft == 0;
    }
  }

  lemma BurstTakes(g: Geometry, tr: seq<Pins>, n: nat, s: State, w: int)
    requires n < |tr| && Tracks(g, tr, n, s) && InFlight(tr, w, n)
    ensures var o := Continue(g, s, tr[n]);
            && !o.Overrun?
            && (o.Running? <==> tr[n].driven)
            && (o.Stopped? ==> o.why == BurstUndriven)
            && (o.Running? ==> Midway(g, tr, n, o.s))
  {
    var o := Continue(g, s, tr[n]);
    BurstAdvances(g, tr, n, s, w);
    if o.Running? {
      ClocksFrame(g, tr, n, s, o.s);
      forall v | InFlight(tr, v, n) ensures v == w { InFlightUnique(tr, w, v, n); }
      assert o.s.tWriteEnd[tr[w].ba] == tr[n].now;
      assert o.s.wrLeft > 0 ==> n + 1 - w < BurstAt(tr, w);
    }
  }

  lemma BurstAdvances(g: Geometry, tr: seq<Pins>, n: nat, s: State, w: int)
    requires n < |tr| && s.Shaped(g) && InFlight(tr, w, n) && Aimed(g, tr, n, s, w)
    ensures var o := Continue(g, s, tr[n]);
            && !o.Overrun?
            && (o.Running? <==> tr[n].driven)
            && (o.Stopped? ==> o.why == BurstUndriven)
            && (o.Running? ==> Rest(g, tr, n, o.s, w) && o.s.tWriteEnd == s.tWriteEnd[tr[w].ba := tr[n].now])
  {
    NextWord(g, s.wrBank, s.row[s.wrBank], s.wrCol);
    var o := Continue(g, s, tr[n]);
    assert s.wrLeft > 0;
    assert g.Flat(s.wrBank, s.row[s.wrBank], s.wrCol) < g.words;
    assert s.wrCol == g.Cols() - 1 ==> s.wrLeft == 1;
    assert o.Running? <==> tr[n].driven;
    if o.Running? {
      assert o.s.wrLeft == s.wrLeft - 1;
      if s.wrLeft > 1 {
        assert o.s.wrCol == s.wrCol + 1;
      }
    }
  }

  lemma NextWord(g: Geometry, b: Bank, r: nat, c: nat)
    ensures g.Flat(b, r, c + 1) == g.Flat(b, r, c) + 1
    ensures c + 1 < g.Cols() ==> (c + 1) % g.Cols() == c + 1
  {
    if c + 1 < g.Cols() { SmallMod(c + 1, g.Cols()); }
  }

  lemma SmallMod(x: nat, m: nat)
    requires x < m
    ensures x % m == x
  {
  }

  // ----- the command half of an edge -----

  /** Closing the books on an edge without a WRITE: what is left of the burst carries over. */
  lemma Settle(g: Geometry, tr: seq<Pins>, n: nat, s: State, s': State)
    requires n < |tr| && Midway(g, tr, n, s) && Clocks(g, tr, n + 1, s')
    requires tr[n].Cmd() != Wr && s'.tWriteEnd == s.tWriteEnd
    requires s'.wrLeft == s.wrLeft && s'.wrBank == s.wrBank && s'.wrCol == s.wrCol
    requires forall w :: InFlight(tr, w, n) && s.wrLeft > 0 ==>
               s'.active[tr[w].ba] && s'.row[tr[w].ba] == s.row[tr[w].ba]
    ensures Tracks(g, tr, n + 1, s')
  {
    forall b: Bank ensures s'.tWriteEnd[b] == Time(tr, Last(g, tr, n + 1, Beats(b))) {
      BeatsGrow(g, tr, n, b);
    }
    SettleBurst(g, tr, n, s, s');
  }

  lemma SettleBurst(g: Geometry, tr: seq<Pins>, n: nat, s: State, s': State)
    requires n < |tr| && s.Shaped(g) && s'.Shaped(g) && tr[n].Cmd() != Wr
    requires s.wrLeft > 0 ==> exists w :: InFlight(tr, w, n) && n + 1 - w < BurstAt(tr, w)
    requires forall w :: InFlight(tr, w, n) ==> Rest(g, tr, n, s, w)
    requires s'.wrLeft == s.wrLeft && s'.wrBank == s.wrBank && s'.wrCol == s.wrCol
    requires forall w :: InFlight(tr, w, n) && s.wrLeft > 0 ==>
               s'.active[tr[w].ba] && s'.row[tr[w].ba] == s.row[tr[w].ba]
    ensures Burst(g, tr, n + 1, s')
  {
    var m := n + 1;
    if s'.wrLeft > 0 {
      var w :| InFlight(tr, w, n) && n + 1 - w < BurstAt(tr, w);
      InFlightGrows(tr, w, n);
    }
    forall w | InFlight(tr, w, m) ensures Aimed(g, tr, m, s', w) {
      InFlightGrows(tr, w, n);
      assert Rest(g, tr, n, s, w);
      StillAimed(g, tr, n, s, s', w);
    }
  }

  lemma BeatsGrow(g: Geometry, tr: seq<Pins>, n: nat, b: Bank)
    requires n < |tr|
    ensures Last(g, tr, n + 1, Beats(b)) ==
            if (tr[n].Cmd() == Wr && tr[n].ba == b) || exists w :: InFlight(tr, w, n) && tr[w].ba == b then n
            else Last(g, tr, n, Beats(b))
  {
  }

  lemma StillAimed(g: Geometry, tr: seq<Pins>, n: nat, s: State, s': State, w: int)
    requires n < |tr| && s.Shaped(g) && s'.Shaped(g) && 0 <= w < n && Rest(g, tr, n, s, w) && s.wrLeft > 0
    requires s'.wrLeft == s.wrLeft && s'.wrBank == s.wrBank && s'.wrCol == s.wrCol
    requires s'.active[tr[w].ba] && s'.row[tr[w].ba] == s.row[tr[w].ba]
    ensures Aimed(g, tr, n + 1, s', w)
  {
  }

  // What edge n adds to the history of one bank.
  lemma BankGrows(g: Geometry, tr: seq<Pins>, n: nat, b: Bank)
    requires n < |tr|
    ensures var p := tr[n];
            var opens := p.Cmd() == Act && p.ba == b;
            && (Open(tr, n + 1, b) <==> opens || (Open(tr, n, b) && !p.PrechargesBank(b)))
            && RowAt(g, tr, n + 1, b) == (if opens then p.Row(g) else RowAt(g, tr, n, b))
            && Last(g, tr, n + 1, Activates(b)) == (if opens then n else Last(g, tr, n, Activates(b)))
            && Last(g, tr, n + 1, Closes(b))
               == (if p.PrechargesBank(b) && Open(tr, n, b) then n else Last(g, tr, n, Closes(b)))
  {
    OpenGrows(tr, n, b);
    hide Open, InFlight, OpenedBy;
  }

  // And to the history of the mode and the refreshes.
  lemma ModeGrows(g: Geometry, tr: seq<Pins>, n: nat)
    requires n < |tr|
    ensures var p := tr[n];
            && Last(g, tr, n + 1, SetsMode) == (if p.Cmd() == Mrs then n else Last(g, tr, n, SetsMode))
            && Last(g, tr, n + 1, Refreshes) == (if p.Cmd() == Ref then n else Last(g, tr, n, Refreshes))
            && CasAt(tr, n + 1) == (if p.Cmd() == Mrs then p.CasField() else CasAt(tr, n))
            && BurstAt(tr, n + 1) == (if p.Cmd() != Mrs then BurstAt(tr, n)
                                      else if p.BurstCode() >= 4 then 0 else BurstLength(p.BurstCode()))
  {
    hide Open, InFlight, OpenedBy;
  }

  lemma QuietClocks(g: Geometry, tr: seq<Pins>, n: nat, s: State)
    requires n < |tr| && Clocks(g, tr, n, s) && tr[n].Cmd() in {Nop, Bst, Rd, Wr}
    ensures Clocks(g, tr, n + 1, s)
  {
    forall b: Bank { BankGrows(g, tr, n, b); }
    ModeGrows(g, tr, n);
    hide Open, Last, Latest, RowAt, CasAt, BurstAt;
  }

  lemma QuietTracks(g: Geometry, tr: seq<Pins>, n: nat, s: State, s': State)
    requires n < |tr| && Midway(g, tr, n, s) && tr[n].Cmd() in {Nop, Bst, Rd} && s'.Shaped(g)
    requires s' == s.(pipeV := s'.pipeV, pipeD := s'.pipeD)
    ensures Tracks(g, tr, n + 1, s')
  {
    hide Last, Latest, Open, BurstAt, CasAt, RowAt;
    QuietClocks(g, tr, n, s);
    ClocksFrame(g, tr, n + 1, s, s');
    assert forall w :: InFlight(tr, w, n) ==> Rest(g, tr, n, s, w);
    Settle(g, tr, n, s, s');
  }

  lemma MrsClocks(g: Geometry, tr: seq<Pins>, n: nat, s: State)
    requires n < |tr| && Clocks(g, tr, n, s) && tr[n].Cmd() == Mrs && DoMrs(g, s, tr[n]).Running?
    ensures Clocks(g, tr, n + 1, DoMrs(g, s, tr[n]).s)
  {
    forall b: Bank { BankGrows(g, tr, n, b); }
    ModeGrows(g, tr, n);
    hide Open, Last, Latest, RowAt, CasAt, BurstAt;
  }

  lemma MrsVerdict(g: Geometry, tr: seq<Pins>, n: nat, s: State)
    requires Timed(tr) && n < |tr| && Midway(g, tr, n, s) && tr[n].Cmd() == Mrs && tr[n].now >= T_INIT
    ensures var o := DoMrs(g, s, tr[n]);
            !o.Overrun? && (o.Running? <==> CommandLegal(g, tr, n)) && (o.Running? ==> Tracks(g, tr, n + 1, o.s))
  {
    var o := DoMrs(g, s, tr[n]);
    if o.Running? {
      MrsClocks(g, tr, n, s);
      assert forall w :: InFlight(tr, w, n) ==> Rest(g, tr, n, s, w);
      Settle(g, tr, n, s, o.s);
    }
  }

  lemma RefClocks(g: Geometry, tr: seq<Pins>, n: nat, s: State)
    requires n < |tr| && Clocks(g, tr, n, s) && tr[n].Cmd() == Ref && DoRef(g, s, tr[n]).Running?
    ensures Clocks(g, tr, n + 1, DoRef(g, s, tr[n]).s)
  {
    forall b: Bank { BankGrows(g, tr, n, b); }
    ModeGrows(g, tr, n);
    hide Open, Last, Latest, RowAt, CasAt, BurstAt;
  }

  lemma RefVerdict(g: Geometry, tr: seq<Pins>, n: nat, s: State)
    requires Timed(tr) && n < |tr| && Midway(g, tr, n, s) && tr[n].Cmd() == Ref && tr[n].now >= T_INIT
    ensures var o := DoRef(g, s, tr[n]);
            !o.Overrun? && (o.Running? <==> CommandLegal(g, tr, n)) && (o.Running? ==> Tracks(g, tr, n + 1, o.s))
  {
    LatestSuffices(g, tr, n, Refreshes, T_RFC);
    var o := DoRef(g, s, tr[n]);
    if o.Running? {
      RefClocks(g, tr, n, s);
      assert forall w :: InFlight(tr, w, n) ==> Rest(g, tr, n, s, w);
      Settle(g, tr, n, s, o.s);
    }
  }

  lemma ActClocks(g: Geometry, tr: seq<Pins>, n: nat, s: State)
    requires n < |tr| && Clocks(g, tr, n, s) && tr[n].Cmd() == Act && DoAct(g, s, tr[n]).Running?
    ensures Clocks(g, tr, n + 1, DoAct(g, s, tr[n]).s)
  {
    var s', p := DoAct(g, s, tr[n]).s, tr[n];
    assert s' == s.(active := s.active[p.ba := true], row := s.row[p.ba := p.Row(g)],
                    tActive := s.tActive[p.ba := p.now]);
    ModeGrows(g, tr, n);
    hide Open, Last, Latest, RowAt, CasAt, BurstAt, DoAct;
    forall b: Bank
      ensures (s'.active[b] <==> Open(tr, n + 1, b)) && s'.row[b] == RowAt(g, tr, n + 1, b)
      ensures s'.tActive[b] == Time(tr, Last(g, tr, n + 1, Activates(b)))
      ensures s'.tPrecharge[b] == Time(tr, Last(g, tr, n + 1, Closes(b)))
    {
      BankGrows(g, tr, n, b);
    }
  }

  lemma ActVerdict(g: Geometry, tr: seq<Pins>, n: nat, s: State)
    requires Timed(tr) && n < |tr| && Midway(g, tr, n, s) && tr[n].Cmd() == Act && tr[n].now >= T_INIT
    ensures var o := DoAct(g, s, tr[n]);
            !o.Overrun? && (o.Running? <==> CommandLegal(g, tr, n)) && (o.Running? ==> Tracks(g, tr, n + 1, o.s))
  {
    hide Last, Latest, Open, BurstAt, CasAt, RowAt, CommandLegal;
    ActRules(g, tr, n, s);
    var o := DoAct(g, s, tr[n]);
    if o.Running? {
      ActClocks(g, tr, n, s);
      assert forall w :: InFlight(tr, w, n) ==> Rest(g, tr, n, s, w);
      Settle(g, tr, n, s, o.s);
    }
  }

  lemma ActRules(g: Geometry, tr: seq<Pins>, n: nat, s: State)
    requires Timed(tr) && n < |tr| && Clocks(g, tr, n, s) && tr[n].Cmd() == Act && tr[n].now >= T_INIT
    ensures DoAct(g, s, tr[n]).Running? <==> CommandLegal(g, tr, n)
  {
    var ba := tr[n].ba;
    LatestSuffices(g, tr, n, SetsMode, T_MRD);
    LatestSuffices(g, tr, n, Refreshes, T_RFC);
    LatestSuffices(g, tr, n, Closes(ba), T_RP);
    LatestSuffices(g, tr, n, Activates(ba), T_RC);
    var m := Last(g, tr, n, SetsMode);
    assert m >= 0 ==> Occurs(g, tr, m, SetsMode);
  }

  lemma AccessVerdict(g: Geometry, tr: seq<Pins>, n: nat, s: State)
    requires Timed(tr) && n < |tr| && Midway(g, tr, n, s) && tr[n].now >= T_INIT
    ensures var p := tr[n];
            MayAccess(g, tr, n) <==>
              && s.active[p.ba] && p.now >= s.tActive[p.ba] + T_RCD && !p.Bit(10)
              && g.Flat(p.ba, s.row[p.ba], p.Col(g)) + s.bl <= g.words && p.Col(g) + s.bl <= g.Cols()
  {
    var ba := tr[n].ba;
    LatestSuffices(g, tr, n, Activates(ba), T_RCD);
    forall i | OpenedBy(tr, i, n, ba) ensures tr[i].Row(g) == s.row[ba] {
      OpenerIsLatest(g, tr, i, n, ba);
    }
  }

  lemma RdVerdict(g: Geometry, tr: seq<Pins>, n: nat, s: State)
    requires Timed(tr) && n < |tr| && Midway(g, tr, n, s) && tr[n].Cmd() == Rd && tr[n].now >= T_INIT
    ensures var o := DoRd(g, s, tr[n]);
            && (o.Stopped? <==> !CommandLegal(g, tr, n))
            && (o.Running? <==> CommandLegal(g, tr, n) && FitsPipeline(g, tr, n))
            && (o.Running? ==> Tracks(g, tr, n + 1, o.s))
  {
    AccessVerdict(g, tr, n, s);
    var o := DoRd(g, s, tr[n]);
    if o.Running? { QuietTracks(g, tr, n, s, o.s); }
  }

  lemma WrVerdict(g: Geometry, tr: seq<Pins>, n: nat, s: State)
    requires Timed(tr) && n < |tr| && Midway(g, tr, n, s) && tr[n].Cmd() == Wr && tr[n].now >= T_INIT
    ensures var o := DoWr(g, s, tr[n]);
            !o.Overrun? && (o.Running? <==> CommandLegal(g, tr, n)) && (o.Running? ==> Tracks(g, tr, n + 1, o.s))
  {
    AccessVerdict(g, tr, n, s);
    var o := DoWr(g, s, tr[n]);
    if o.Running? { WrTracks(g, tr, n, s); }
  }

  lemma WrTracks(g: Geometry, tr: seq<Pins>, n: nat, s: State)
    requires n < |tr| && Midway(g, tr, n, s) && tr[n].Cmd() == Wr && DoWr(g, s, tr[n]).Running?
    ensures Tracks(g, tr, n + 1, DoWr(g, s, tr[n]).s)
  {
    hide Last, Latest, Open, BurstAt, CasAt, RowAt;
    var p, s' := tr[n], DoWr(g, s, tr[n]).s;
    QuietClocks(g, tr, n, s);
    ClocksFrame(g, tr, n + 1, s, s');
    forall b: Bank ensures s'.tWriteEnd[b] == Time(tr, Last(g, tr, n + 1, Beats(b))) {
      BeatsGrow(g, tr, n, b);
    }
    InFlightGrows(tr, n, n);
    if s.bl > 1 { WrAims(g, tr, n, s); }
    var m := n + 1;
    forall w | InFlight(tr, w, m) ensures Aimed(g, tr, m, s', w) {
      InFlightGrows(tr, w, n);
    }
  }

  lemma WrAims(g: Geometry, tr: seq<Pins>, n: nat, s: State)
    requires n < |tr| && s.Shaped(g) && tr[n].Cmd() == Wr && DoWr(g, s, tr[n]).Running?
    requires s.bl == BurstAt(tr, n) && s.row[tr[n].ba] == RowAt(g, tr, n, tr[n].ba) && 1 < s.bl
    ensures Aimed(g, tr, n + 1, DoWr(g, s, tr[n]).s, n)
  {
    var p := tr[n];
    NextWord(g, p.ba, s.row[p.ba], p.Col(g));
  }

  // ----- PRECHARGE -----

  /** Bank b may be closed now, as far as the timestamps say. */
  predicate Closable(g: Geometry, s: State, p: Pins, b: Bank)
    requires s.Shaped(g)
  {
    s.active[b] ==> p.now >= s.tActive[b] + T_RAS && p.now >= s.tWriteEnd[b] + T_WR
  }

  /** What closing the banks from lo up leaves behind. */
  ghost predicate ClosedFrom(g: Geometry, s: State, p: Pins, lo: nat, s': State)
    requires s.Shaped(g)
  {
    && s'.Shaped(g)
    && s' == s.(active := s'.active, tPrecharge := s'.tPrecharge)
    && (forall b: Bank :: s'.active[b] == (b < lo && s.active[b]))
    && (forall b: Bank :: s'.tPrecharge[b] == if b >= lo && s.active[b] then p.now else s.tPrecharge[b])
  }

  lemma {:induction false} CloseFromMeaning(g: Geometry, s: State, p: Pins, lo: nat)
    requires s.Shaped(g) && lo <= NBANKS
    ensures var o := CloseFrom(g, s, p, lo);
            && !o.Overrun?
            && (o.Running? <==> forall b: Bank :: b >= lo ==> Closable(g, s, p, b))
            && (o.Running? ==> ClosedFrom(g, s, p, lo, o.s))
    decreases NBANKS - lo
  {
    if lo < NBANKS {
      var b0: Bank := lo;
      CloseBankMeaning(g, s, p, b0);
      var o1 := CloseBank(g, s, p, b0);
      if o1.Running? {
        CloseFromMeaning(g, o1.s, p, lo + 1);
        var o := CloseFrom(g, o1.s, p, lo + 1);
        assert CloseFrom(g, s, p, lo) == o;
        assert forall b: Bank :: b > lo ==> (Closable(g, o1.s, p, b) <==> Closable(g, s, p, b));
        if o.Running? { ClosedTwice(g, s, p, lo, o1.s, o.s); }
      } else {
        assert !Closable(g, s, p, b0);
      }
    }
  }

  lemma CloseBankMeaning(g: Geometry, s: State, p: Pins, b0: Bank)
    requires s.Shaped(g)
    ensures var o := CloseBank(g, s, p, b0);
            && !o.Overrun?
            && (o.Running? <==> Closable(g, s, p, b0))
            && (o.Running? ==>
                  && o.s == s.(active := s.active[b0 := false],
                               tPrecharge := if s.active[b0] then s.tPrecharge[b0 := p.now] else s.tPrecharge))
  {
    if !s.active[b0] { assert s.active[b0 := false] == s.active; }
  }

  lemma ClosedTwice(g: Geometry, s: State, p: Pins, lo: Bank, s1: State, s': State)
    requires s.Shaped(g) && s1.Shaped(g) && ClosedFrom(g, s1, p, lo + 1, s')
    requires s1 == s.(active := s.active[lo := false],
                      tPrecharge := if s.active[lo] then s.tPrecharge[lo := p.now] else s.tPrecharge)
    ensures ClosedFrom(g, s, p, lo, s')
  {
  }

  ghost predicate Closed(g: Geometry, s: State, p: Pins, s': State)
    requires s.Shaped(g)
  {
    && s'.Shaped(g)
    && s' == s.(active := s'.active, tPrecharge := s'.tPrecharge)
    && (forall b: Bank :: s'.active[b] == (s.active[b] && !p.PrechargesBank(b)))
    && (forall b: Bank ::
          s'.tPrecharge[b] == if p.PrechargesBank(b) && s.active[b] then p.now else s.tPrecharge[b])
  }

  lemma DoPreMeaning(g: Geometry, s: State, p: Pins)
    requires s.Shaped(g) && p.Cmd() == Pre
    ensures var o := DoPre(g, s, p);
            && !o.Overrun?
            && (o.Running? <==> forall b: Bank :: p.PrechargesBank(b) ==> Closable(g, s, p, b))
            && (o.Running? ==> Closed(g, s, p, o.s))
  {
    if p.Bit(10) {
      CloseFromMeaning(g, s, p, 0);
    } else {
      CloseBankMeaning(g, s, p, p.ba);
      assert p.PrechargesBank(p.ba);
    }
  }

  lemma CloseRule(g: Geometry, tr: seq<Pins>, n: nat, s: State, b: Bank)
    requires Timed(tr) && n < |tr| && Midway(g, tr, n, s) && tr[n].Cmd() == Pre && tr[n].now >= T_INIT
    ensures Closable(g, s, tr[n], b) <==> MayClose(g, tr, n, b)
  {
    hide Open, InFlight, Latest, RowAt, BurstAt, CasAt, Rest;
    LatestSuffices(g, tr, n, Activates(b), T_RAS);
    LatestSuffices(g, tr, n, Beats(b), T_WR);
  }

  lemma PreClocks(g: Geometry, tr: seq<Pins>, n: nat, s: State, s': State)
    requires n < |tr| && Clocks(g, tr, n, s) && tr[n].Cmd() == Pre && Closed(g, s, tr[n], s')
    ensures Clocks(g, tr, n + 1, s')
  {
    forall b: Bank { BankGrows(g, tr, n, b); }
    ModeGrows(g, tr, n);
    hide Open, Last, Latest, RowAt, CasAt, BurstAt;
  }

  lemma PreVerdict(g: Geometry, tr: seq<Pins>, n: nat, s: State)
    requires Timed(tr) && n < |tr| && Midway(g, tr, n, s) && tr[n].Cmd() == Pre && tr[n].now >= T_INIT
    ensures var o := DoPre(g, s, tr[n]);
            !o.Overrun? && (o.Running? <==> CommandLegal(g, tr, n)) && (o.Running? ==> Tracks(g, tr, n + 1, o.s))
  {
    DoPreMeaning(g, s, tr[n]);
    forall b: Bank { CloseRule(g, tr, n, s, b); }
    var o := DoPre(g, s, tr[n]);
    if o.Running? {
      PreClocks(g, tr, n, s, o.s);
      forall w | InFlight(tr, w, n) && s.wrLeft > 0 ensures o.s.active[tr[w].ba] {
        assert Rest(g, tr, n, s, w);
        assert s.tWriteEnd[tr[w].ba] == tr[n].now;
        assert !Closable(g, s, tr[n], tr[w].ba);
      }
      Settle(g, tr, n, s, o.s);
    }
  }

  // ----- whole edges and whole runs -----

  /** One edge: it is refused exactly when it breaks a rule of the history, it overruns the pipeline
      exactly when it is a legal READ that does not fit, and otherwise the state still tracks. */
  lemma StepVerdict(g: Geometry, tr: seq<Pins>, n: nat, s: State)
    requires Timed(tr) && n < |tr| && Tracks(g, tr, n, s)
    ensures var o := Step(g, s, tr[n]);
            && (o.Stopped? <==> !LegalAt(g, tr, n))
            && (o.Running? <==> LegalAt(g, tr, n) && FitsPipeline(g, tr, n))
            && (o.Running? ==> Tracks(g, tr, n + 1, o.s))
  {
    LatestRefresh(g, tr, n);
    BurstVerdict(g, tr, n, s);
    var mid := Continue(g, s, tr[n]);
    if RefreshedInTime(g, tr, n) && mid.Running? {
      ObeyVerdict(g, tr, n, mid.s);
    }
  }

  lemma ObeyVerdict(g: Geometry, tr: seq<Pins>, n: nat, s: State)
    requires Timed(tr) && n < |tr| && Midway(g, tr, n, s)
    ensures var o := Obey(g, s, tr[n]);
            && (o.Stopped? <==> tr[n].Cmd() != Nop && !CommandLegal(g, tr, n))
            && (o.Running? <==> !o.Stopped? && FitsPipeline(g, tr, n))
            && (o.Running? ==> Tracks(g, tr, n + 1, o.s))
  {
    if tr[n].Cmd() == Nop {
      QuietTracks(g, tr, n, s, s);
    } else if tr[n].now >= T_INIT {
      match tr[n].Cmd()
      case Mrs => MrsVerdict(g, tr, n, s);
      case Act => ActVerdict(g, tr, n, s);
      case Rd => RdVerdict(g, tr, n, s);
      case Wr => WrVerdict(g, tr, n, s);
      case Pre => PreVerdict(g, tr, n, s);
      case Ref => RefVerdict(g, tr, n, s);
      case _ => QuietTracks(g, tr, n, s, s);
    }
  }

  lemma InitialTracks(g: Geometry, tr: seq<Pins>, mem: seq<bv16>)
    requires |mem| == g.words
    ensures Tracks(g, tr, 0, Initial(mem))
  {
  }

  /** Every edge before n obeys every rule with respect to every edge before it, and no READ among
      them outgrows the pipeline. */
  ghost predicate Clean(g: Geometry, tr: seq<Pins>, n: nat)
    requires n <= |tr|
  {
    forall j :: 0 <= j < n ==> LegalAt(g, tr, j) && FitsPipeline(g, tr, j)
  }

  /** The checker is exact: after n edges it is still running if and only if the whole history is
      clean.  It keeps one timestamp per bank and kind of event; the rules speak of all pairs. */
  lemma {:induction false} CheckerExact(g: Geometry, mem: seq<bv16>, tr: seq<Pins>, n: nat)
    requires Timed(tr) && n <= |tr| && |mem| == g.words
    ensures var o := Run(g, mem, tr, n);
            (o.Running? <==> Clean(g, tr, n)) && (o.Running? ==> Tracks(g, tr, n, o.s))
  {
    hide LegalAt, FitsPipeline, Tracks, Step;
    if n == 0 {
      InitialTracks(g, tr, mem);
    } else {
      CheckerExact(g, mem, tr, n - 1);
      var o := Run(g, mem, tr, n - 1);
      if o.Running? { StepVerdict(g, tr, n - 1, o.s); }
    }
  }

  /** When it is not running, it stopped at the first edge that broke a rule, or ran past its
      pipeline at a legal READ that was the first edge not to fit. */
  lemma {:induction false} FirstFault(g: Geometry, mem: seq<bv16>, tr: seq<Pins>, n: nat)
    requires Timed(tr) && n <= |tr| && |mem| == g.words
    ensures var o := Run(g, mem, tr, n);
            && (o.Stopped? <==> exists j :: 0 <= j < n && Clean(g, tr, j) && !LegalAt(g, tr, j))
            && (o.Overrun? <==>
                  exists j :: 0 <= j < n && Clean(g, tr, j) && LegalAt(g, tr, j) && !FitsPipeline(g, tr, j))
  {
    hide LegalAt, FitsPipeline, Tracks, Step;
    if n > 0 {
      var k := n - 1;
      FirstFault(g, mem, tr, k);
      CheckerExact(g, mem, tr, k);
      var o := Run(g, mem, tr, k);
      if o.Running? {
        StepVerdict(g, tr, k, o.s);
        forall j | 0 <= j < k ensures LegalAt(g, tr, j) && FitsPipeline(g, tr, j) { }
      } else {
        assert !Clean(g, tr, k);
      }
    }
  }

  /** A legal READ overruns the pipeline exactly when the burst length in force is eight. */
  lemma OverrunIsBurstOfEight(g: Geometry, mem: seq<bv16>, tr: seq<Pins>, n: nat)
    requires Timed(tr) && n < |tr| && |mem| == g.words && Run(g, mem, tr, n).Running? && tr[n].Cmd() == Rd
    ensures Run(g, mem, tr, n + 1).Overrun? <==> LegalAt(g, tr, n) && BurstAt(tr, n) == 8
  {
    CheckerExact(g, mem, tr, n);
    var s := Run(g, mem, tr, n).s;
    StepVerdict(g, tr, n, s);
    if LegalAt(g, tr, n) {
      assert MayAccess(g, tr, n) && s.active[tr[n].ba];
    }
  }

  /** While a write burst is under way its row stays open and neither of the two storage failures
      the model checks for on a burst beat can happen, whatever the next edge is. */
  lemma BurstStaysAimed(g: Geometry, mem: seq<bv16>, tr: seq<Pins>, n: nat)
    requires Timed(tr) && n < |tr| && |mem| == g.words && Run(g, mem, tr, n).Running?
    ensures var s := Run(g, mem, tr, n).s;
            var o := Run(g, mem, tr, n + 1);
            && (s.wrLeft > 0 ==>
                  && s.active[s.wrBank]
                  && s.wrCol + s.wrLeft <= g.Cols()
                  && g.Flat(s.wrBank, s.row[s.wrBank], s.wrCol) + s.wrLeft <= g.words)
            && o != Stopped(BurstBeyondStorage) && o != Stopped(BurstCrossedRow)
            && (s.wrLeft > 0 && o.Running? ==>
                  && tr[n].Cmd() != Mrs && tr[n].Cmd() != Ref
                  && !tr[n].PrechargesBank(s.wrBank)
                  && !(tr[n].Cmd() == Act && tr[n].ba == s.wrBank)
                  && o.s.active[s.wrBank] && o.s.row[s.wrBank] == s.row[s.wrBank])
  {
    hide LegalAt, FitsPipeline, Step, Tracks;
    CheckerExact(g, mem, tr, n);
    EdgeKeepsBurst(g, tr, n, Run(g, mem, tr, n).s);
  }

  lemma EdgeKeepsBurst(g: Geometry, tr: seq<Pins>, n: nat, s: State)
    requires Timed(tr) && n < |tr| && Tracks(g, tr, n, s)
    ensures var o := Step(g, s, tr[n]);
            && (s.wrLeft > 0 ==>
                  && s.active[s.wrBank]
                  && s.wrCol + s.wrLeft <= g.Cols()
                  && g.Flat(s.wrBank, s.row[s.wrBank], s.wrCol) + s.wrLeft <= g.words)
            && o != Stopped(BurstBeyondStorage) && o != Stopped(BurstCrossedRow)
            && (s.wrLeft > 0 && o.Running? ==>
                  && tr[n].Cmd() != Mrs && tr[n].Cmd() != Ref
                  && !tr[n].PrechargesBank(s.wrBank)
                  && !(tr[n].Cmd() == Act && tr[n].ba == s.wrBank)
                  && o.s.active[s.wrBank] && o.s.row[s.wrBank] == s.row[s.wrBank])
  {
    BurstVerdict(g, tr, n, s);
    var mid := Continue(g, s, tr[n]);
    if mid.Running? { ObeyBlamesOthers(g, tr[n], mid.s); }
    if s.wrLeft > 0 {
      OnlyBurst(g, tr, n, s);
      if mid.Running? { ContinueKeeps(g, s, tr[n]); }
      hide Tracks, Obey, Continue;
      if mid.Running? && Obey(g, mid.s, tr[n]).Running? { ObeyKeepsWriting(g, tr[n], mid.s, s.wrBank); }
    }
  }

  lemma OnlyBurst(g: Geometry, tr: seq<Pins>, n: nat, s: State)
    requires n < |tr| && s.Shaped(g) && Burst(g, tr, n, s) && s.wrLeft > 0
    ensures s.active[s.wrBank] && s.wrCol + s.wrLeft <= g.Cols()
    ensures g.Flat(s.wrBank, s.row[s.wrBank], s.wrCol) + s.wrLeft <= g.words
  {
    var w :| InFlight(tr, w, n);
    assert Aimed(g, tr, n, s, w);
  }

  lemma ContinueKeeps(g: Geometry, s: State, p: Pins)
    requires s.Shaped(g) && s.wrLeft > 0 && Continue(g, s, p).Running?
    ensures var mid := Continue(g, s, p).s;
            mid.active == s.active && mid.row == s.row && mid.tWriteEnd[s.wrBank] == p.now
  {
  }

  lemma ObeyBlamesOthers(g: Geometry, p: Pins, s: State)
    requires s.Shaped(g)
    ensures Obey(g, s, p) != Stopped(BurstBeyondStorage) && Obey(g, s, p) != Stopped(BurstCrossedRow)
  {
    if p.Cmd() == Pre && p.Bit(10) { CloseFromBlames(g, s, p, 0); }
  }

  lemma {:induction false} CloseFromBlames(g: Geometry, s: State, p: Pins, lo: nat)
    requires s.Shaped(g) && lo <= NBANKS && p.Bit(10)
    ensures CloseFrom(g, s, p, lo).Stopped? ==> CloseFrom(g, s, p, lo).why in {PreAllTras, PreAllTwr}
    decreases NBANKS - lo
  {
    if lo < NBANKS {
      var o := CloseBank(g, s, p, lo);
      if o.Running? { CloseFromBlames(g, o.s, p, lo + 1); }
    }
  }

  /** A bank written at this very edge is neither closed nor reopened by it. */
  lemma ObeyKeepsWriting(g: Geometry, p: Pins, s: State, b: Bank)
    requires s.Shaped(g) && s.active[b] && s.tWriteEnd[b] == p.now && Obey(g, s, p).Running?
    ensures p.Cmd() != Mrs && p.Cmd() != Ref && !p.PrechargesBank(b) && !(p.Cmd() == Act && p.ba == b)
    ensures Obey(g, s, p).s.active[b] && Obey(g, s, p).s.row[b] == s.row[b]
  {
    if p.Cmd() == Pre {
      DoPreMeaning(g, s, p);
      assert !Closable(g, s, p, b);
    }
  }
}
