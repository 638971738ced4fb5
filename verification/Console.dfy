/** The console checker: an online monitor that compares bytes written to the transmit register with
    bytes that complete on the line.  Its clean verdict means the line carried what was written. */
module Console {
  import UartRx

  datatype Event = Thr(b: bv8, busy: bool) | Wire(b: bv8)

  datatype Tally = Tally(thrWrites: nat, thrDropped: nat, wireBytes: nat, wireBad: nat, accepted: seq<bv8>)

  const EMPTY := Tally(0, 0, 0, 0, [])

  function Note(t: Tally, e: Event): Tally {
    match e
    case Thr(b, busy) =>
      if busy then t.(thrWrites := t.thrWrites + 1, thrDropped := t.thrDropped + 1)
      else t.(thrWrites := t.thrWrites + 1, accepted := t.accepted + [b])
    case Wire(b) =>
      if t.accepted == [] then t.(wireBytes := t.wireBytes + 1, wireBad := t.wireBad + 1)
      else t.(wireBytes := t.wireBytes + 1,
              wireBad := t.wireBad + if t.accepted[0] != b then 1 else 0,
              accepted := t.accepted[1..])
  }

  function Notes(events: seq<Event>): Tally {
    if events == [] then EMPTY else Note(Notes(events[..|events| - 1]), events[|events| - 1])
  }

  /** Bytes never sent, forgiving one while the transmitter is still shifting when the run ends. */
  function Stranded(t: Tally, shifting: bool): nat {
    if |t.accepted| > 0 && shifting then |t.accepted| - 1 else |t.accepted|
  }

  predicate Clean(t: Tally, shifting: bool) {
    t.thrDropped == 0 && t.wireBad == 0 && Stranded(t, shifting) == 0
  }

  class Monitor {
    var thrWrites: nat
    var thrDropped: nat
    var wireBytes: nat
    var wireBad: nat
    var accepted: seq<bv8>

    constructor ()
      ensures Counts() == EMPTY
    {
      thrWrites, thrDropped, wireBytes, wireBad, accepted := 0, 0, 0, 0, [];
    }

    function Counts(): Tally
      reads this
    {
      Tally(thrWrites, thrDropped, wireBytes, wireBad, accepted)
    }

    method ThrWrite(b: bv8, busy: bool)
      modifies this
      ensures Counts() == Note(old(Counts()), Thr(b, busy))
    {
      thrWrites := thrWrites + 1;
      if busy {
        thrDropped := thrDropped + 1;
      } else {
        accepted := accepted + [b];
      }
    }

    method WireByte(b: bv8)
      modifies this
      ensures Counts() == Note(old(Counts()), Wire(b))
    {
      wireBytes := wireBytes + 1;
      if accepted == [] {
        wireBad := wireBad + 1;
        return;
      }
      var want := accepted[0];
      accepted := accepted[1..];
      if want != b { wireBad := wireBad + 1; }
    }

    method Verdict(shifting: bool) returns (clean: bool)
      ensures clean == Clean(Counts(), shifting)
    {
      var stranded := |accepted|;
      if stranded > 0 && shifting { stranded := stranded - 1; }
      clean := thrDropped == 0 && wireBad == 0 && stranded == 0;
    }
  }

  // ----- what happened, independently of the monitor -----

  /** Every byte written to the transmit register, dropped or not. */
  function Written(events: seq<Event>): seq<bv8> {
    if events == [] then []
    else
      var e := events[|events| - 1];
      Written(events[..|events| - 1]) + if e.Thr? then [e.b] else []
  }

  function Carried(events: seq<Event>): seq<bv8> {
    if events == [] then []
    else
      var e := events[|events| - 1];
      Carried(events[..|events| - 1]) + if e.Wire? then [e.b] else []
  }

  /** No write found the transmitter busy. */
  predicate NoBusyWrite(events: seq<Event>) {
    forall i :: 0 <= i < |events| ==> !(events[i].Thr? && events[i].busy)
  }

  predicate InOrder(events: seq<Event>, k: nat)
    requires k <= |events|
  {
    Carried(events[..k]) <= Written(events[..k])
  }

  /** At every moment the line had carried a prefix of what had been written by then. */
  predicate AlwaysInOrder(events: seq<Event>) {
    forall k :: 0 <= k <= |events| ==> InOrder(events, k)
  }

  predicate Faultless(events: seq<Event>, shifting: bool) {
    && NoBusyWrite(events)
    && AlwaysInOrder(events)
    && |Written(events)| - |Carried(events)| <= if shifting then 1 else 0
  }

  // ----- the monitor's constant bookkeeping decides it -----

  lemma PrefixSplit(events: seq<Event>)
    requires events != []
    ensures var front := events[..|events| - 1];
            NoBusyWrite(events) <==> NoBusyWrite(front) && !(events[|events| - 1].Thr? && events[|events| - 1].busy)
    ensures AlwaysInOrder(events) <==> AlwaysInOrder(events[..|events| - 1]) && InOrder(events, |events|)
  {
    var front := events[..|events| - 1];
    assert events[|events| - 1] == events[|front|];
    forall k | 0 <= k <= |front| ensures InOrder(events, k) <==> InOrder(front, k) {
      assert front[..k] == events[..k];
    }
  }

  /** While nothing has gone wrong the queue is exactly what was written and not yet carried; and
      something has gone wrong exactly when a counter says so. */
  lemma {:induction false} QueueExact(events: seq<Event>)
    ensures Notes(events).thrDropped == 0 <==> NoBusyWrite(events)
    ensures NoBusyWrite(events) ==> (Notes(events).wireBad == 0 <==> AlwaysInOrder(events))
    ensures NoBusyWrite(events) && AlwaysInOrder(events) ==> Written(events) == Carried(events) + Notes(events).accepted
  {
    assert events[..|events|] == events;
    if events == [] {
      assert Carried(events[..0]) == [];
    } else {
      var front, e := events[..|events| - 1], events[|events| - 1];
      QueueExact(front);
      PrefixSplit(events);
      LastEvent(events);
      CarriedNext(Carried(front), Notes(front).accepted, e.b);
      var t, was := Notes(front), Written(front);
      assert was == Carried(front) + t.accepted && e.Thr? ==> was + [e.b] == Carried(front) + (t.accepted + [e.b]);
      hide Notes, Written, Carried, NoBusyWrite, AlwaysInOrder;
    }
  }

  lemma LastEvent(events: seq<Event>)
    requires events != []
    ensures var front, e := events[..|events| - 1], events[|events| - 1];
            && Notes(events) == Note(Notes(front), e)
            && Written(events) == Written(front) + (if e.Thr? then [e.b] else [])
            && Carried(events) == Carried(front) + (if e.Wire? then [e.b] else [])
            && (InOrder(events, |events|) <==> Carried(events) <= Written(events))
  {
    assert events[..|events|] == events;
    hide Notes, Written, Carried;
  }

  lemma CarriedNext(carried: seq<bv8>, queue: seq<bv8>, b: bv8)
    ensures carried + [b] <= carried + queue <==> queue != [] && queue[0] == b
    ensures queue != [] && queue[0] == b ==> carried + queue == carried + [b] + queue[1..]
  {
    if queue != [] {
      assert (carried + [b])[|carried|] == b && (carried + queue)[|carried|] == queue[0];
    }
  }

  // ----- whatever goes wrong -----

  /** Every byte written while the transmitter was idle. */
  function Accepted(events: seq<Event>): seq<bv8> {
    if events == [] then []
    else
      var e := events[|events| - 1];
      Accepted(events[..|events| - 1]) + if e.Thr? && !e.busy then [e.b] else []
  }

  /** How many of them bytes on the wire have been matched against: each takes the next, right or wrong, while there
      is one. */
  function Matched(events: seq<Event>): (n: nat)
    ensures n <= |Accepted(events)|
  {
    if events == [] then 0
    else
      var front := events[..|events| - 1];
      var n := Matched(front);
      n + if events[|events| - 1].Wire? && n < |Accepted(front)| then 1 else 0
  }

  /** Bytes on the wire that were not the next one accepted, or had none to be. */
  function Bad(events: seq<Event>): nat {
    if events == [] then 0
    else
      var front, e := events[..|events| - 1], events[|events| - 1];
      Bad(front)
      + if e.Wire? && !(Matched(front) < |Accepted(front)| && Accepted(front)[Matched(front)] == e.b) then 1 else 0
  }

  /** In every run, mismatches included, the queue is the accepted bytes not yet matched, and the bad count is the
      number of bytes that were not the one due. */
  lemma {:induction false} BooksExact(events: seq<Event>)
    ensures Notes(events).accepted == Accepted(events)[Matched(events)..] && Notes(events).wireBad == Bad(events)
  {
    if events != [] {
      var front, e := events[..|events| - 1], events[|events| - 1];
      BooksExact(front);
      LastEvent(events);
      var all, n := Accepted(front), Matched(front);
      if n < |all| { assert all[n..][0] == all[n] && all[n..][1..] == all[n + 1..]; }
      if e.Thr? { assert (all + [e.b])[n..] == all[n..] + [e.b]; }
    }
  }

  /** The verdict is clean exactly for the faultless runs. */
  lemma CleanExactlyFaultless(events: seq<Event>, shifting: bool)
    ensures Clean(Notes(events), shifting) <==> Faultless(events, shifting)
  {
    QueueExact(events);
    hide NoBusyWrite, AlwaysInOrder, Notes, Written, Carried;
    if NoBusyWrite(events) && AlwaysInOrder(events) {
      assert |Written(events)| == |Carried(events)| + |Notes(events).accepted|;
    }
  }

  /** What a clean verdict tells: the line carried a prefix of what was written, short by at most the
      byte still shifting. */
  lemma CleanMeansCarried(events: seq<Event>, shifting: bool)
    requires Clean(Notes(events), shifting)
    ensures Carried(events) <= Written(events)
    ensures |Written(events)| <= |Carried(events)| + 1
    ensures !shifting ==> Carried(events) == Written(events)
  {
    CleanExactlyFaultless(events, shifting);
    assert InOrder(events, |events|);
    assert events[..|events|] == events;
    hide Written, Carried;
  }

  /** Through the receiver: if its bytes are the monitor's line events and the sender is in tolerance,
      a clean verdict speaks about the levels on the line themselves. */
  lemma CleanMeansFramesSent(events: seq<Event>, shifting: bool, c: nat, d: nat, sent: seq<UartRx.Sent>)
    requires c > 0 && d > 0 && UartRx.InTolerance(c, d)
    requires Carried(events) == UartRx.Samples(c, UartRx.RESET, UartRx.Line(sent, d)).1
    requires Clean(Notes(events), shifting)
    ensures UartRx.Values(sent) <= Written(events) && |Written(events)| <= |sent| + 1
  {
    hide Notes, Clean, Written, Carried, UartRx.Samples, UartRx.Line, UartRx.InTolerance;
    CleanMeansCarried(events, shifting);
    UartRx.LineDecodes(c, d, UartRx.RESET, sent);
  }

  /** The reported totals are the real ones. */
  lemma {:induction false} TotalsTrue(events: seq<Event>)
    ensures Notes(events).thrWrites == |Written(events)| && Notes(events).wireBytes == |Carried(events)|
    ensures Notes(events).thrDropped == |set i | 0 <= i < |events| && events[i].Thr? && events[i].busy|
  {
    var busy := set i | 0 <= i < |events| && events[i].Thr? && events[i].busy;
    if events == [] {
      assert busy == {};
    } else {
      var front, e := events[..|events| - 1], events[|events| - 1];
      TotalsTrue(front);
      var before := set i | 0 <= i < |front| && front[i].Thr? && front[i].busy;
      assert busy == before + if e.Thr? && e.busy then {|front|} else {};
    }
  }
}
