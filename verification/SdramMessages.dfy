/** What each message of the part says, as a statement about the command history, and that a run which stops says
    something true: the rule its message names is broken at the edge it stopped at. */
module SdramMessages {
  import opened SdramMachine
  import opened SdramHistory
  import opened SdramChecker

  ghost predicate MrsBreaks(g: Geometry, tr: seq<Pins>, j: int, why: Failure)
    requires 0 <= j < |tr|
  {
    || (why == MrsBankActive && (exists b: Bank :: Open(tr, j, b)))
    || (why == MrsReserved && (tr[j].Bit(10) || tr[j].Bit(9)))
    || (why == MrsBurstLength && tr[j].BurstCode() >= 4)
    || (why == MrsCasLatency && tr[j].CasField() !in {2, 3})
  }

  ghost predicate RefBreaks(g: Geometry, tr: seq<Pins>, j: int, why: Failure)
    requires 0 <= j < |tr|
  {
    || (why == RefBankActive && (exists b: Bank :: Open(tr, j, b)))
    || (why == RefTrfc && !Apart(g, tr, j, Refreshes, T_RFC))
  }

  ghost predicate ActBreaks(g: Geometry, tr: seq<Pins>, j: int, why: Failure)
    requires 0 <= j < |tr|
  {
    || (why == ActNoMode && (forall m :: 0 <= m < j ==> tr[m].Cmd() != Mrs))
    || (why == ActTmrd && !Apart(g, tr, j, SetsMode, T_MRD))
    || (why == ActTrfc && !Apart(g, tr, j, Refreshes, T_RFC))
    || (why == ActOpen && Open(tr, j, tr[j].ba))
    || (why == ActTrp && !Apart(g, tr, j, Closes(tr[j].ba), T_RP))
    || (why == ActTrc && !Apart(g, tr, j, Activates(tr[j].ba), T_RC))
  }

  ghost predicate RdBreaks(g: Geometry, tr: seq<Pins>, j: int, why: Failure)
    requires 0 <= j < |tr|
  {
    || (why == RdClosed && !Open(tr, j, tr[j].ba))
    || (why == RdTrcd && !Apart(g, tr, j, Activates(tr[j].ba), T_RCD))
    || (why == RdAutoPrecharge && tr[j].Bit(10))
    || (why == RdBeyondStorage && BeyondStorage(g, tr, j))
    || (why == RdCrossesRow && tr[j].Col(g) + BurstAt(tr, j) > g.Cols())
  }

  ghost predicate WrBreaks(g: Geometry, tr: seq<Pins>, j: int, why: Failure)
    requires 0 <= j < |tr|
  {
    || (why == WrClosed && !Open(tr, j, tr[j].ba))
    || (why == WrTrcd && !Apart(g, tr, j, Activates(tr[j].ba), T_RCD))
    || (why == WrAutoPrecharge && tr[j].Bit(10))
    || (why == WrUndriven && !tr[j].driven)
    || (why == WrBeyondStorage && BeyondStorage(g, tr, j))
    || (why == WrCrossesRow && tr[j].Col(g) + BurstAt(tr, j) > g.Cols())
  }

  ghost predicate PreBreaks(g: Geometry, tr: seq<Pins>, j: int, why: Failure)
    requires 0 <= j < |tr|
  {
    || (why == PreTras && !tr[j].Bit(10) && TooYoung(g, tr, j, tr[j].ba))
    || (why == PreTwr && !tr[j].Bit(10) && TooFresh(g, tr, j, tr[j].ba))
    || (why == PreAllTras && tr[j].Bit(10) && (exists b: Bank :: TooYoung(g, tr, j, b)))
    || (why == PreAllTwr && tr[j].Bit(10) && (exists b: Bank :: TooFresh(g, tr, j, b)))
  }

  /** The burst at edge j would leave the storage behind the row that its bank has open. */
  ghost predicate BeyondStorage(g: Geometry, tr: seq<Pins>, j: int)
    requires 0 <= j < |tr|
  {
    var p := tr[j];
    exists i :: OpenedBy(tr, i, j, p.ba) && g.Flat(p.ba, tr[i].Row(g), p.Col(g)) + BurstAt(tr, j) > g.words
  }

  /** Bank b is open, and was opened less than tRAS ago. */
  ghost predicate TooYoung(g: Geometry, tr: seq<Pins>, j: int, b: Bank)
    requires 0 <= j < |tr|
  {
    Open(tr, j, b) && !Apart(g, tr, j, Activates(b), T_RAS)
  }

  /** Bank b is open, and was written less than tWR ago, or is written at this very edge. */
  ghost predicate TooFresh(g: Geometry, tr: seq<Pins>, j: int, b: Bank)
    requires 0 <= j < |tr|
  {
    Open(tr, j, b) && (!Apart(g, tr, j, Beats(b), T_WR) || Occurs(g, tr, j, Beats(b)))
  }

  /** The command at edge j breaks the rule that a message about that command names. */
  ghost predicate CommandBreaks(g: Geometry, tr: seq<Pins>, j: int, why: Failure)
    requires 0 <= j < |tr|
  {
    match tr[j].Cmd()
    case Mrs => MrsBreaks(g, tr, j, why)
    case Ref => RefBreaks(g, tr, j, why)
    case Act => ActBreaks(g, tr, j, why)
    case Rd => RdBreaks(g, tr, j, why)
    case Wr => WrBreaks(g, tr, j, why)
    case Pre => PreBreaks(g, tr, j, why)
    case _ => false
  }

  /** The rule a message names is broken at edge j.  No edge breaks the two storage rules of a burst under way. */
  ghost predicate Breaks(g: Geometry, tr: seq<Pins>, j: int, why: Failure)
    requires 0 <= j < |tr|
  {
    || (why == NoRefresh && !RefreshedInTime(g, tr, j))
    || (why == BurstUndriven && !tr[j].driven && (exists w :: InFlight(tr, w, j)))
    || (why == PowerUp && tr[j].Cmd() != Nop && tr[j].now < T_INIT)
    || CommandBreaks(g, tr, j, why)
  }

  // ----- one command at a time -----

  lemma MrsTells(g: Geometry, tr: seq<Pins>, n: nat, s: State)
    requires n < |tr| && Clocks(g, tr, n, s) && tr[n].Cmd() == Mrs && DoMrs(g, s, tr[n]).Stopped?
    ensures MrsBreaks(g, tr, n, DoMrs(g, s, tr[n]).why)
  {
    hide Open, Last, Latest, RowAt, CasAt, BurstAt;
  }

  lemma RefTells(g: Geometry, tr: seq<Pins>, n: nat, s: State)
    requires Timed(tr) && n < |tr| && Clocks(g, tr, n, s) && tr[n].Cmd() == Ref && tr[n].now >= T_INIT
    requires DoRef(g, s, tr[n]).Stopped?
    ensures RefBreaks(g, tr, n, DoRef(g, s, tr[n]).why)
  {
    LatestSuffices(g, tr, n, Refreshes, T_RFC);
    hide Open, Last, Latest, RowAt, CasAt, BurstAt, Apart;
  }

  lemma ActTells(g: Geometry, tr: seq<Pins>, n: nat, s: State)
    requires Timed(tr) && n < |tr| && Clocks(g, tr, n, s) && tr[n].Cmd() == Act && tr[n].now >= T_INIT
    requires DoAct(g, s, tr[n]).Stopped?
    ensures ActBreaks(g, tr, n, DoAct(g, s, tr[n]).why)
  {
    ActTimes(g, tr, n, s);
    hide Clocks, Apart, Open, Pins.Cmd, Timed;
  }

  lemma ActTimes(g: Geometry, tr: seq<Pins>, n: nat, s: State)
    requires Timed(tr) && n < |tr| && Clocks(g, tr, n, s) && tr[n].now >= T_INIT
    ensures var p := tr[n];
            && (!s.mrProgrammed ==> forall m :: 0 <= m < n ==> tr[m].Cmd() != Mrs)
            && (p.now < s.tMrsDone ==> !Apart(g, tr, n, SetsMode, T_MRD))
            && (p.now < s.tRefreshDone ==> !Apart(g, tr, n, Refreshes, T_RFC))
            && (s.active[p.ba] ==> Open(tr, n, p.ba))
            && (p.now < s.tPrecharge[p.ba] + T_RP ==> !Apart(g, tr, n, Closes(p.ba), T_RP))
            && (p.now < s.tActive[p.ba] + T_RC ==> !Apart(g, tr, n, Activates(p.ba), T_RC))
  {
    var ba := tr[n].ba;
    LatestSuffices(g, tr, n, SetsMode, T_MRD);
    LatestSuffices(g, tr, n, Refreshes, T_RFC);
    LatestSuffices(g, tr, n, Closes(ba), T_RP);
    LatestSuffices(g, tr, n, Activates(ba), T_RC);
    if !s.mrProgrammed { NeverSet(g, tr, n); }
    hide Open, Last, Latest, RowAt, CasAt, BurstAt, Apart, Occurs, Shows;
  }

  lemma NeverSet(g: Geometry, tr: seq<Pins>, n: nat)
    requires n < |tr| && Last(g, tr, n, SetsMode) < 0
    ensures forall m :: 0 <= m < n ==> tr[m].Cmd() != Mrs
  {
    forall m | 0 <= m < n ensures tr[m].Cmd() != Mrs { assert !Occurs(g, tr, m, SetsMode); }
  }

  lemma RowOpened(g: Geometry, tr: seq<Pins>, n: nat, s: State)
    requires n < |tr| && Clocks(g, tr, n, s) && s.active[tr[n].ba]
    requires g.Flat(tr[n].ba, s.row[tr[n].ba], tr[n].Col(g)) + s.bl > g.words
    ensures BeyondStorage(g, tr, n)
  {
    var ba := tr[n].ba;
    assert Open(tr, n, ba);
    var i :| OpenedBy(tr, i, n, ba);
    OpenerIsLatest(g, tr, i, n, ba);
    hide Last, Latest, RowAt, CasAt, BurstAt, OpenedBy;
  }

  lemma RdTells(g: Geometry, tr: seq<Pins>, n: nat, s: State)
    requires Timed(tr) && n < |tr| && Clocks(g, tr, n, s) && tr[n].Cmd() == Rd && tr[n].now >= T_INIT
    requires DoRd(g, s, tr[n]).Stopped?
    ensures RdBreaks(g, tr, n, DoRd(g, s, tr[n]).why)
  {
    var p := tr[n];
    LatestSuffices(g, tr, n, Activates(p.ba), T_RCD);
    if s.active[p.ba] && g.Flat(p.ba, s.row[p.ba], p.Col(g)) + s.bl > g.words { RowOpened(g, tr, n, s); }
    hide Open, Last, Latest, RowAt, CasAt, BurstAt, Apart, BeyondStorage;
  }

  lemma WrTells(g: Geometry, tr: seq<Pins>, n: nat, s: State)
    requires Timed(tr) && n < |tr| && Clocks(g, tr, n, s) && tr[n].Cmd() == Wr && tr[n].now >= T_INIT
    requires DoWr(g, s, tr[n]).Stopped?
    ensures WrBreaks(g, tr, n, DoWr(g, s, tr[n]).why)
  {
    var p := tr[n];
    LatestSuffices(g, tr, n, Activates(p.ba), T_RCD);
    if s.active[p.ba] && g.Flat(p.ba, s.row[p.ba], p.Col(g)) + s.bl > g.words { RowOpened(g, tr, n, s); }
    hide Open, Last, Latest, RowAt, CasAt, BurstAt, Apart, BeyondStorage;
  }

  // ----- PRECHARGE -----

  /** What closing one bank says of its timestamps. */
  predicate Blames(s: State, p: Pins, b: Bank, why: Failure)
    requires |s.active| == |s.tActive| == |s.tWriteEnd| == NBANKS
  {
    && s.active[b]
    && ((why == (if p.Bit(10) then PreAllTras else PreTras) && p.now < s.tActive[b] + T_RAS)
        || (why == (if p.Bit(10) then PreAllTwr else PreTwr) && p.now < s.tWriteEnd[b] + T_WR))
  }

  lemma {:induction false} CloseFromTells(g: Geometry, s: State, p: Pins, lo: nat)
    requires s.Shaped(g) && lo <= NBANKS && CloseFrom(g, s, p, lo).Stopped?
    ensures exists b: Bank :: Blames(s, p, b, CloseFrom(g, s, p, lo).why)
    decreases NBANKS - lo
  {
    var b0: Bank := lo;
    CloseBankMeaning(g, s, p, b0);
    var o1 := CloseBank(g, s, p, b0);
    if o1.Running? {
      CloseFromTells(g, o1.s, p, lo + 1);
      var b: Bank :| Blames(o1.s, p, b, CloseFrom(g, o1.s, p, lo + 1).why);
      assert Blames(s, p, b, CloseFrom(g, s, p, lo).why);
    } else {
      assert Blames(s, p, b0, o1.why);
    }
    hide Pins.Bit;
  }

  lemma DoPreTells(g: Geometry, s: State, p: Pins)
    requires s.Shaped(g) && DoPre(g, s, p).Stopped?
    ensures exists b: Bank :: Blames(s, p, b, DoPre(g, s, p).why) && (p.Bit(10) || b == p.ba)
  {
    if p.Bit(10) {
      CloseFromTells(g, s, p, 0);
    } else {
      assert Blames(s, p, p.ba, DoPre(g, s, p).why);
    }
  }

  lemma PreTells(g: Geometry, tr: seq<Pins>, n: nat, s: State)
    requires Timed(tr) && n < |tr| && Midway(g, tr, n, s) && tr[n].Cmd() == Pre && tr[n].now >= T_INIT
    requires DoPre(g, s, tr[n]).Stopped?
    ensures PreBreaks(g, tr, n, DoPre(g, s, tr[n]).why)
  {
    var p, why := tr[n], DoPre(g, s, tr[n]).why;
    DoPreTells(g, s, p);
    var b: Bank :| Blames(s, p, b, why) && (p.Bit(10) || b == p.ba);
    BankTells(g, tr, n, s, b);
    hide Open, Last, Latest, RowAt, CasAt, BurstAt, Apart, DoPre, Clocks, Rest, Pins.Bit, InFlight;
    assert TooYoung(g, tr, n, b) || TooFresh(g, tr, n, b);
  }

  lemma BankTells(g: Geometry, tr: seq<Pins>, n: nat, s: State, b: Bank)
    requires Timed(tr) && n < |tr| && Midway(g, tr, n, s) && tr[n].Cmd() == Pre && tr[n].now >= T_INIT
    ensures s.active[b] && tr[n].now < s.tActive[b] + T_RAS ==> TooYoung(g, tr, n, b)
    ensures s.active[b] && tr[n].now < s.tWriteEnd[b] + T_WR ==> TooFresh(g, tr, n, b)
  {
    hide Open, InFlight, Latest, RowAt, BurstAt, CasAt, Rest;
    LatestSuffices(g, tr, n, Activates(b), T_RAS);
    LatestSuffices(g, tr, n, Beats(b), T_WR);
  }

  // ----- whole edges and whole runs -----

  lemma ObeyTells(g: Geometry, tr: seq<Pins>, n: nat, s: State)
    requires Timed(tr) && n < |tr| && Midway(g, tr, n, s) && Obey(g, s, tr[n]).Stopped?
    ensures Breaks(g, tr, n, Obey(g, s, tr[n]).why)
  {
    if tr[n].now >= T_INIT {
      match tr[n].Cmd()
      case Mrs => MrsTells(g, tr, n, s);
      case Act => ActTells(g, tr, n, s);
      case Rd => RdTells(g, tr, n, s);
      case Wr => WrTells(g, tr, n, s);
      case Pre => PreTells(g, tr, n, s);
      case Ref => RefTells(g, tr, n, s);
      case _ =>
    }
    hide Clocks, DoMrs, DoAct, DoRd, DoWr, DoPre, DoRef, Rest, InFlight,
         MrsBreaks, RefBreaks, ActBreaks, RdBreaks, WrBreaks, PreBreaks;
  }

  /** An edge that is refused is refused with the name of a rule it breaks. */
  lemma StepTells(g: Geometry, tr: seq<Pins>, n: nat, s: State)
    requires Timed(tr) && n < |tr| && Tracks(g, tr, n, s) && Step(g, s, tr[n]).Stopped?
    ensures Breaks(g, tr, n, Step(g, s, tr[n]).why)
  {
    LatestRefresh(g, tr, n);
    BurstVerdict(g, tr, n, s);
    var mid := Continue(g, s, tr[n]);
    if RefreshedInTime(g, tr, n) && mid.Running? && Obey(g, mid.s, tr[n]).Stopped? { ObeyTells(g, tr, n, mid.s); }
    hide Midway, Continue, Obey, Burst, InFlight, Apart, Open, CommandBreaks;
  }

  /** The message tells the truth: a run that stops stopped at the first edge that breaks any rule, and the rule
      its message names is one that edge breaks. */
  lemma {:induction false} MessageTells(g: Geometry, mem: seq<bv16>, tr: seq<Pins>, n: nat)
    requires Timed(tr) && n <= |tr| && |mem| == g.words && Run(g, mem, tr, n).Stopped?
    ensures exists j :: 0 <= j < n && Clean(g, tr, j) && !LegalAt(g, tr, j)
                        && Breaks(g, tr, j, Run(g, mem, tr, n).why)
  {
    hide LegalAt, FitsPipeline, Tracks, Step, Breaks;
    var k := n - 1;
    CheckerExact(g, mem, tr, k);
    var o := Run(g, mem, tr, k);
    if o.Running? {
      StepVerdict(g, tr, k, o.s);
      StepTells(g, tr, k, o.s);
      assert Clean(g, tr, k) && !LegalAt(g, tr, k) && Breaks(g, tr, k, Run(g, mem, tr, n).why);
    } else {
      MessageTells(g, mem, tr, k);
    }
  }
}
