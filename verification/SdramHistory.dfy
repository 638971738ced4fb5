/** The rules of the part stated over the whole command history of a trace: which earlier edges
    constrain edge j, and how.  Nothing here mentions the model's state. */
module SdramHistory {
  import opened SdramMachine

  /** Simulation time starts at or after zero and never runs backwards. */
  ghost predicate Timed(tr: seq<Pins>) {
    && (forall i :: 0 <= i < |tr| ==> tr[i].now >= 0)
    && (forall i, j :: 0 <= i <= j < |tr| ==> tr[i].now <= tr[j].now)
  }

  datatype Event =
    | SetsMode
    | Refreshes
    | Writes
    | Activates(b: Bank)
    | Names(b: Bank)             // a PRECHARGE addressed to the bank, open or not
    | Closes(b: Bank)            // a PRECHARGE that closes an open row
    | Beats(b: Bank)             // a word written into the bank, by WRITE or by a burst under way
    | Puts(b: Bank, r: nat, c: nat, lane: Lane)   // a byte stored at that address
    | Fetches(t: int)            // a READ one of whose beats is due out after edge t

  /** The events one edge's pins show by themselves. */
  predicate Shows(p: Pins, e: Event) {
    match e
    case SetsMode => p.Cmd() == Mrs
    case Refreshes => p.Cmd() == Ref
    case Writes => p.Cmd() == Wr
    case Activates(b) => p.Cmd() == Act && p.ba == b
    case Names(b) => p.PrechargesBank(b)
    case _ => false
  }

  /** The latest edge before n whose pins show e, or -1. */
  ghost function Latest(tr: seq<Pins>, n: nat, e: Event): (k: int)
    requires n <= |tr|
    ensures -1 <= k < n
    ensures k >= 0 ==> Shows(tr[k], e)
    ensures forall i :: k < i < n ==> !Shows(tr[i], e)
  {
    if n == 0 then -1
    else if Shows(tr[n - 1], e) then n - 1
    else Latest(tr, n - 1, e)
  }

  // The mode in force before edge j: that of the latest LOAD MODE REGISTER.
  ghost function BurstAt(tr: seq<Pins>, j: nat): nat
    requires j <= |tr|
  {
    var m := Latest(tr, j, SetsMode);
    if m < 0 || tr[m].BurstCode() >= 4 then 0 else BurstLength(tr[m].BurstCode())
  }

  ghost function CasAt(tr: seq<Pins>, j: nat): nat
    requires j <= |tr|
  {
    var m := Latest(tr, j, SetsMode);
    if m < 0 then 0 else tr[m].CasField()
  }

  // The row of the latest ACTIVE of bank b before edge j.
  ghost function RowAt(g: Geometry, tr: seq<Pins>, j: nat, b: Bank): nat
    requires j <= |tr|
  {
    var i := Latest(tr, j, Activates(b));
    if i < 0 then 0 else tr[i].Row(g)
  }

  /** The ACTIVE at i opened the row that bank b still has open just before edge j. */
  ghost predicate OpenedBy(tr: seq<Pins>, i: int, j: int, b: Bank)
    requires j <= |tr|
  {
    && 0 <= i < j && tr[i].Cmd() == Act && tr[i].ba == b
    && forall k :: i < k < j ==> !tr[k].PrechargesBank(b) && !(tr[k].Cmd() == Act && tr[k].ba == b)
  }

  ghost predicate Open(tr: seq<Pins>, j: int, b: Bank)
    requires j <= |tr|
  {
    exists i :: OpenedBy(tr, i, j, b)
  }

  /** The WRITE at w has a word still to come at edge j. */
  ghost predicate InFlight(tr: seq<Pins>, w: int, j: int)
    requires 0 <= j <= |tr|
  {
    && 0 <= w < j && tr[w].Cmd() == Wr
    && (forall k :: w < k < j ==> tr[k].Cmd() != Wr)
    && j - w < BurstAt(tr, w)
  }

  // Which beat of the READ at r is the one due out after edge t.
  ghost function BeatOf(tr: seq<Pins>, r: int, t: int): int
    requires 0 <= r < |tr|
  {
    t - r - (CasAt(tr, r) - 1)
  }

  ghost predicate Occurs(g: Geometry, tr: seq<Pins>, i: int, e: Event)
    requires 0 <= i < |tr|
  {
    var p := tr[i];
    match e
    case Closes(b) => p.PrechargesBank(b) && Open(tr, i, b)
    case Beats(b) =>
      || (p.Cmd() == Wr && p.ba == b)
      || (exists w :: InFlight(tr, w, i) && tr[w].ba == b)
    case Puts(b, r, c, lane) =>
      && p.Unmasked(lane)
      && (|| (p.Cmd() == Wr && p.ba == b && RowAt(g, tr, i, b) == r && p.Col(g) == c)
          || (exists w :: InFlight(tr, w, i) && tr[w].ba == b && RowAt(g, tr, w, b) == r
                          && tr[w].Col(g) + (i - w) == c))
    case Fetches(t) => p.Cmd() == Rd && 0 <= BeatOf(tr, i, t) < BurstAt(tr, i)
    case _ => Shows(p, e)
  }

  /** The latest edge before n at which e occurred, or -1. */
  ghost function Last(g: Geometry, tr: seq<Pins>, n: nat, e: Event): (k: int)
    requires n <= |tr|
    ensures -1 <= k < n
    ensures k >= 0 ==> Occurs(g, tr, k, e)
    ensures forall i :: k < i < n ==> !Occurs(g, tr, i, e)
  {
    if n == 0 then -1
    else if Occurs(g, tr, n - 1, e) then n - 1
    else Last(g, tr, n - 1, e)
  }

  /** Every earlier occurrence of e is at least gap before edge j. */
  ghost predicate Apart(g: Geometry, tr: seq<Pins>, j: int, e: Event, gap: int)
    requires 0 <= j < |tr|
  {
    forall i :: 0 <= i < j && Occurs(g, tr, i, e) ==> tr[j].now >= tr[i].now + gap
  }

  ghost predicate AllClosed(g: Geometry, tr: seq<Pins>, j: int)
    requires 0 <= j < |tr|
  {
    forall b: Bank :: !Open(tr, j, b)
  }

  /** A burst started at edge j fits the row and the storage behind it. */
  ghost predicate BurstFits(g: Geometry, tr: seq<Pins>, j: int)
    requires 0 <= j < |tr|
  {
    var p := tr[j];
    && p.Col(g) + BurstAt(tr, j) <= g.Cols()
    && (forall i :: OpenedBy(tr, i, j, p.ba) ==>
          g.Flat(p.ba, tr[i].Row(g), p.Col(g)) + BurstAt(tr, j) <= g.words)
  }

  ghost predicate MayAccess(g: Geometry, tr: seq<Pins>, j: int)
    requires 0 <= j < |tr|
  {
    && Open(tr, j, tr[j].ba)
    && Apart(g, tr, j, Activates(tr[j].ba), T_RCD)
    && !tr[j].Bit(10)
    && BurstFits(g, tr, j)
  }

  /** Bank b, if open, may be closed at edge j: the row has been open for tRAS and every word
      ever written to it, the one at this very edge included, is tWR old. */
  ghost predicate MayClose(g: Geometry, tr: seq<Pins>, j: int, b: Bank)
    requires 0 <= j < |tr|
  {
    Open(tr, j, b) ==>
      && Apart(g, tr, j, Activates(b), T_RAS)
      && Apart(g, tr, j, Beats(b), T_WR)
      && !Occurs(g, tr, j, Beats(b))
  }

  ghost predicate CommandLegal(g: Geometry, tr: seq<Pins>, j: int)
    requires 0 <= j < |tr|
  {
    var p := tr[j];
    p.now >= T_INIT &&
    match p.Cmd()
    case Mrs =>
      && AllClosed(g, tr, j)
      && !p.Bit(10) && !p.Bit(9) && p.BurstCode() < 4 && p.CasField() in {2, 3}
    case Act =>
      && (exists m :: 0 <= m < j && Occurs(g, tr, m, SetsMode))
      && Apart(g, tr, j, SetsMode, T_MRD)
      && Apart(g, tr, j, Refreshes, T_RFC)
      && !Open(tr, j, p.ba)
      && Apart(g, tr, j, Closes(p.ba), T_RP)
      && Apart(g, tr, j, Activates(p.ba), T_RC)
    case Rd => MayAccess(g, tr, j)
    case Wr => MayAccess(g, tr, j) && p.driven
    case Pre => forall b: Bank :: p.PrechargesBank(b) ==> MayClose(g, tr, j, b)
    case Ref => AllClosed(g, tr, j) && Apart(g, tr, j, Refreshes, T_RFC)
    case _ => true
  }

  /** Once the mode is set, no edge is more than 2 tREFI after a refresh (or after power-up). */
  ghost predicate RefreshedInTime(g: Geometry, tr: seq<Pins>, j: int)
    requires 0 <= j < |tr|
  {
    (exists m :: 0 <= m < j && Occurs(g, tr, m, SetsMode)) ==>
      || tr[j].now <= 2 * T_REFI
      || (exists i :: 0 <= i < j && Occurs(g, tr, i, Refreshes) && tr[j].now - tr[i].now <= 2 * T_REFI)
  }

  /** Edge j breaks no rule, given the edges before it. */
  ghost predicate LegalAt(g: Geometry, tr: seq<Pins>, j: int)
    requires 0 <= j < |tr|
  {
    && RefreshedInTime(g, tr, j)
    && ((exists w :: InFlight(tr, w, j)) ==> tr[j].driven)
    && (tr[j].Cmd() != Nop ==> CommandLegal(g, tr, j))
  }

  /** A READ at edge j stays inside the eight pipeline slots. */
  ghost predicate FitsPipeline(g: Geometry, tr: seq<Pins>, j: int)
    requires 0 <= j < |tr|
  {
    tr[j].Cmd() == Rd ==> CasAt(tr, j) - 1 + BurstAt(tr, j) <= PIPE
  }
}
