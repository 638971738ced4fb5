/** How often the checker makes a controller refresh, and how often it lets it. */
module SdramRefresh {
  import opened SdramMachine
  import opened SdramHistory
  import opened SdramChecker

  /** AUTO REFRESH commands among edges lo .. hi - 1. */
  function RefreshesIn(tr: seq<Pins>, lo: nat, hi: nat): nat
    requires lo <= hi <= |tr|
    decreases hi
  {
    if lo == hi then 0
    else RefreshesIn(tr, lo, hi - 1) + if tr[hi - 1].Cmd() == Ref then 1 else 0
  }

  lemma {:induction false} CounterCounts(g: Geometry, mem: seq<bv16>, tr: seq<Pins>, n: nat)
    requires n <= |tr| && |mem| == g.words && Run(g, mem, tr, n).Running?
    ensures Run(g, mem, tr, n).s.refreshes == RefreshesIn(tr, 0, n)
  {
    hide Step;
    if n > 0 {
      CounterCounts(g, mem, tr, n - 1);
      StepCounts(g, Run(g, mem, tr, n - 1).s, tr[n - 1]);
    }
  }

  lemma StepCounts(g: Geometry, s: State, p: Pins)
    requires s.Shaped(g) && Step(g, s, p).Running?
    ensures Step(g, s, p).s.refreshes == s.refreshes + if p.Cmd() == Ref then 1 else 0
  {
    hide CloseFrom, CloseBank, BurstLength, StoreWord;
    if p.Cmd() == Pre { DoPreMeaning(g, Continue(g, s, p).s, p); }
  }

  lemma {:induction false} RefreshesSplit(tr: seq<Pins>, lo: nat, hi: nat)
    requires lo <= hi <= |tr|
    ensures RefreshesIn(tr, 0, hi) == RefreshesIn(tr, 0, lo) + RefreshesIn(tr, lo, hi)
  {
    if lo < hi { RefreshesSplit(tr, lo, hi - 1); }
  }

  // The latest refresh before hi is no later, and no earlier, than the count since lo allows.
  lemma {:induction false} RefreshTimes(g: Geometry, tr: seq<Pins>, lo: nat, hi: nat)
    requires Timed(tr) && lo <= hi < |tr| && Clean(g, tr, hi) && Latest(tr, lo, SetsMode) >= 0
    ensures var r := RefreshesIn(tr, lo, hi);
            var t := Time(tr, Last(g, tr, hi, Refreshes));
            && t <= tr[lo].now + 2 * T_REFI * r
            && (r > 0 ==> t >= tr[lo].now + T_RFC * (r - 1))
    decreases hi
  {
    hide LegalAt, FitsPipeline, Latest, Timed;
    if lo < hi {
      var k := hi - 1;
      CleanPrefix(g, tr, k);
      InOrder(tr, lo, k);
      RefreshTimes(g, tr, lo, k);
      RefreshGap(g, tr, lo, k);
    } else {
      TimeBefore(tr, Last(g, tr, hi, Refreshes), hi);
    }
  }

  lemma InOrder(tr: seq<Pins>, i: nat, j: nat)
    requires Timed(tr) && i <= j < |tr|
    ensures tr[i].now <= tr[j].now
  {}

  lemma RefreshGap(g: Geometry, tr: seq<Pins>, lo: nat, k: nat)
    requires Timed(tr) && lo <= k < |tr| && LegalAt(g, tr, k) && Latest(tr, lo, SetsMode) >= 0
    ensures tr[k].now <= Time(tr, Last(g, tr, k, Refreshes)) + 2 * T_REFI
    ensures tr[k].Cmd() == Ref ==> tr[k].now >= Time(tr, Last(g, tr, k, Refreshes)) + T_RFC
  {
    LatestRefresh(g, tr, k);
    if tr[k].Cmd() == Ref { LatestSuffices(g, tr, k, Refreshes, T_RFC); }
    var m := Latest(tr, lo, SetsMode);
    assert Occurs(g, tr, m, SetsMode);
  }

  /** Over any accepted stretch from an edge after the mode is set, of length L: at least
      L / (2 tREFI) - 1 refreshes and at most L / tRFC + 1, by the model's own counter. */
  lemma RefreshRate(g: Geometry, mem: seq<bv16>, tr: seq<Pins>, lo: nat, hi: nat)
    requires Timed(tr) && lo <= hi < |tr| && |mem| == g.words
    requires Run(g, mem, tr, lo).Running? && Run(g, mem, tr, lo).s.mrProgrammed
    requires Run(g, mem, tr, hi).Running? && Run(g, mem, tr, hi + 1).Running?
    ensures var r := Run(g, mem, tr, hi).s.refreshes - Run(g, mem, tr, lo).s.refreshes;
            var length := tr[hi].now - tr[lo].now;
            length <= 2 * T_REFI * (r + 1) && T_RFC * (r - 1) <= length
  {
    hide LegalAt, FitsPipeline, Step, Run, Tracks, Clean, Latest, Last, RefreshesIn, Time, Timed;
    CheckerExact(g, mem, tr, lo);
    CheckerExact(g, mem, tr, hi + 1);
    CleanPrefix(g, tr, hi);
    ModeShows(g, tr, lo, Run(g, mem, tr, lo).s);
    CounterCounts(g, mem, tr, lo);
    CounterCounts(g, mem, tr, hi);
    RefreshesSplit(tr, lo, hi);
    RefreshTimes(g, tr, lo, hi);
    RefreshGap(g, tr, lo, hi);
    TimeBefore(tr, Last(g, tr, hi, Refreshes), hi);
    InOrder(tr, lo, hi);
  }

  lemma CleanPrefix(g: Geometry, tr: seq<Pins>, n: nat)
    requires n < |tr| && Clean(g, tr, n + 1)
    ensures Clean(g, tr, n) && LegalAt(g, tr, n)
  {
    hide LegalAt, FitsPipeline;
  }

  lemma TimeBefore(tr: seq<Pins>, k: int, n: nat)
    requires Timed(tr) && -1 <= k < n < |tr|
    ensures 0 <= Time(tr, k) <= tr[n].now
  {}

  lemma ModeShows(g: Geometry, tr: seq<Pins>, n: nat, s: State)
    requires n <= |tr| && Tracks(g, tr, n, s) && s.mrProgrammed
    ensures Latest(tr, n, SetsMode) >= 0
  {
    var m := Last(g, tr, n, SetsMode);
    assert Shows(tr[m], SetsMode);
  }
}
