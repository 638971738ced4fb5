/** The loader protocol succeeds.  Once a knock has been answered, and until a wait of the ROM runs out, the board is
    reset, the host gives up or a byte is corrupted, it is never stuck before success, and a run is bounded by what
    is left and the knocks still made; and from every power-up state some run gets there. */
module LoaderCompletes {
  import opened Words
  import opened Wrappers
  import opened Crc32
  import opened LoaderRom
  import opened LoaderGuard
  import opened LoaderProtocol
  import opened LoaderSafety

  ghost predicate Leads(job: Job, s: Sys, t: Sys)
    requires Sensible(job)
  {
    exists acts :: Reaches(job, s, acts, t)
  }

  lemma LeadsSelf(job: Job, s: Sys)
    requires Sensible(job)
    ensures Leads(job, s, s)
  {
    assert Reaches(job, s, [], s);
  }

  lemma Does(job: Job, s: Sys, a: Action)
    requires Sensible(job) && Enabled(job, s, a)
    ensures Leads(job, s, Apply(job, s, a))
    ensures Inv(job, s) ==> Inv(job, Apply(job, s, a))
  {
    hide Enabled, Apply, Inv;
    if Inv(job, s) { StepSafe(job, s, a); }
    var t := Apply(job, s, a);
    assert [a][1..] == [];
    assert Reaches(job, t, [], t);
    assert Reaches(job, s, [a], t);
  }

  lemma {:induction false} ReachesOn(job: Job, s: Sys, a: seq<Action>, t: Sys, b: seq<Action>, u: Sys)
    requires Sensible(job) && Reaches(job, s, a, t) && Reaches(job, t, b, u)
    ensures Reaches(job, s, a + b, u)
    decreases |a|
  {
    hide Enabled, Apply;
    if a == [] {
      assert a + b == b;
    } else {
      assert (a + b)[1..] == a[1..] + b;
      ReachesOn(job, Apply(job, s, a[0]), a[1..], t, b, u);
    }
  }

  lemma AndThen(job: Job, s: Sys, t: Sys, u: Sys)
    requires Sensible(job) && Leads(job, s, t) && Leads(job, t, u)
    ensures Leads(job, s, u)
  {
    hide Reaches;
    var a :| Reaches(job, s, a, t);
    var b :| Reaches(job, t, b, u);
    ReachesOn(job, s, a, t, b, u);
  }

  lemma ProbesOnly(job: Job, s: Sys)
    requires Sensible(job) && Inv(job, s) && s.host.Knocking?
    ensures AllLate(Stream(s))
    ensures s.reg.Some? ==> s.reg.value == Item(PROBE, Late)
    ensures s.toBoard != [] ==> s.toBoard[0] == Item(PROBE, Late)
  {
    hide RomSafe, BodyAlone;
    assert AllLate(Stream(s));
    if s.reg.Some? { assert Stream(s)[0] == s.reg.value; }
    if s.toBoard != [] { assert Stream(s)[|Stream(s)| - |s.toBoard|] == s.toBoard[0]; }
  }

  // ----- an undisturbed transfer -----

  /** The knock has been answered, nothing has gone wrong, and nobody has given up. */
  ghost predicate Proceeding(job: Job, s: Sys)
    requires Sensible(job)
  {
    && Inv(job, s) && s.clean && !s.host.Abort?
    && (s.board.rom.Skip? || s.board.rom.Header? || s.board.rom.Image? || s.board.rom.Jumped?)
  }

  /** What happens when no wait of the ROM runs out, the board is not reset, the host does not give up, and the line
      is faithful.  The host may go on knocking until it reads the answer. */
  predicate Undisturbed(s: Sys, a: Action) {
    match a
    case HostGivesUp => false
    case RomTimesOut => false
    case BoardResets => false
    case Deliver(b) => s.toBoard != [] && b == s.toBoard[0].b
    case _ => true
  }

  /** Steps the host still has to take, each with the deliveries and reads it will cause. */
  function HostLeft(job: Job, h: Host): int {
    var n := |job.payload|;
    match h
    case Knocking => 4 * n + 35
    case HeaderReady => 4 * n + 35
    case AwaitHeader => 4 * n + 2
    case Ready(k) => 4 * (n - k) + 1
    case Await(k) => 4 * (n - k) - 2
    case AwaitCrc => 1
    case Success => 0
    case Abort => 0
  }

  /** A bound on what is left: each byte on its way to be delivered and read, each byte of console text to be
      skipped, and the host's own steps. */
  function Left(job: Job, s: Sys): int {
    2 * |s.toBoard| + (if s.reg.Some? then 1 else 0) + (if s.host.Knocking? then |s.toHost| else 0)
    + HostLeft(job, s.host)
  }

  lemma LeftIsNat(job: Job, s: Sys)
    requires Sensible(job) && Proceeding(job, s)
    ensures Left(job, s) >= 0
  {
    hide RomSafe, BodyAlone, HeaderOf, AllLate, Crc, HeaderComing, Stream, Text;
  }

  /** A step of the transfer itself: neither console text nor one more knock. */
  predicate Counts(a: Action) { !a.RomPrints? && !a.Poke? }

  /** Every undisturbed step but a console print takes from it; a further knock may add the byte it sends. */
  lemma TakesOne(job: Job, s: Sys, a: Action)
    requires Sensible(job) && Proceeding(job, s) && Enabled(job, s, a) && Undisturbed(s, a)
    ensures Left(job, Apply(job, s, a)) <= Left(job, s) + if a.Poke? then 2 else if a.RomPrints? then 0 else -1
  {
    hide RomSafe, BodyAlone, HeaderOf, AllLate, Crc, HeaderComing, Stream, Text, ByteStep, Decide;
    if a.RomReads? && s.host.Knocking? { NoAnswerWhileKnocking(job, s); }
  }

  lemma NoAnswerWhileKnocking(job: Job, s: Sys)
    requires Sensible(job) && Proceeding(job, s) && Enabled(job, s, RomReads) && s.host.Knocking?
    ensures Apply(job, s, RomReads).toHost == s.toHost
  {
    ProbesOnly(job, s);
    hide RomSafe, BodyAlone, AllLate, Stream, ByteStep, Decide;
  }

  // ----- it goes on -----

  lemma HeaderNext(job: Job, s: Sys)
    requires Sensible(job) && Inv(job, s) && s.host.AwaitHeader? && (s.board.rom.Skip? || s.board.rom.Header?)
    ensures HeaderComing(job, Stream(s), s.board.rom) && Stream(s) != [] && s.toHost == []
  {
    hide RomSafe, BodyAlone, HeaderOf, AllLate;
  }

  lemma HeaderAccepted(job: Job, s: Sys)
    requires Sensible(job) && s.host.AwaitHeader? && (s.board.rom.Skip? || s.board.rom.Header?)
    requires HeaderComing(job, Stream(s), s.board.rom) && s.reg.Some?
    ensures var r := Apply(job, s, RomReads).board.rom;
            r.Skip? || r.Header? || r.Image?
  {
    if s.board.rom.Header? { HeaderByte(job, s); }
    hide HeaderOf, Decide, Crc, Stream;
  }

  // What has been received so far is the payload so far.
  lemma RecvIs(job: Job, s: Sys)
    requires Sensible(job) && Proceeding(job, s) && s.board.rom.Image? && s.host.Await? && Stream(s) != []
    ensures Carries(job, s, s.host.k) && ThisImage(job, s.board.rom, s.host.k)
    ensures s.recv == job.payload[..s.host.k] && s.board.rom.got == s.host.k
  {
    hide Feed, Crc, HeaderOf, AddrOk, Load, BodyAlone, Stream, AllLate, Text;
    assert s.recv <= job.payload && |s.recv| == s.host.k;
  }

  // The last byte of a faithful image completes the checksum the header promised.
  lemma LastByteJumps(job: Job, s: Sys, c: byte)
    requires Sensible(job) && RomSafe(job, s) && s.board.rom.Image? && ThisImage(job, s.board.rom, s.board.rom.got)
    requires s.recv + [c] == job.payload
    ensures Gets(s.board, c, job.ddr3).rom.Jumped?
  {
    hide AddrOk, Load;
    FeedMore(ONES, s.recv, c);
    hide ByteStep, Feed;
    assert Crc(job.payload) == Xor(Feed(ONES, job.payload), ONES);
  }

  // A faithful image byte does not stop the ROM.
  lemma ImageGoesOn(job: Job, s: Sys)
    requires Sensible(job) && Proceeding(job, s) && s.board.rom.Image? && s.host.Await? && s.reg.Some?
    ensures var r := Apply(job, s, RomReads).board.rom;
            r.Image? || r.Jumped?
  {
    RecvIs(job, s);
    var k := s.host.k;
    assert s.reg.value == Stream(s)[0];
    assert s.reg.value.b == job.payload[k];
    if k + 1 == |job.payload| {
      assert job.payload[..k] + [job.payload[k]] == job.payload;
      LastByteJumps(job, s, job.payload[k]);
    }
    hide Inv, Xor, ByteStep, Crc, Stream, Carries;
  }

  // An answer that has come is an acknowledgement.
  lemma Acknowledged(job: Job, s: Sys)
    requires Sensible(job) && Proceeding(job, s) && s.toHost != []
    ensures s.host.AwaitHeader? || s.host.Await? || s.host.AwaitCrc? ==> s.toHost[0] == ACK
  {
    hide RomSafe, BodyAlone, HeaderOf, AllLate, Crc;
  }

  lemma ReadsOn(job: Job, s: Sys)
    requires Sensible(job) && Proceeding(job, s) && Enabled(job, s, RomReads)
    ensures var r := Apply(job, s, RomReads).board.rom;
            r.Skip? || r.Header? || r.Image? || r.Jumped?
  {
    if s.host.Knocking? || s.host.HeaderReady? {
      LateWhileSkipping(job, s);
    } else if s.host.AwaitHeader? {
      NothingReadTwice(job, s);
      HeaderNext(job, s);
      HeaderAccepted(job, s);
    } else {
      NothingReadTwice(job, s);
      ImageGoesOn(job, s);
    }
    hide Inv, Stream, ByteStep, Decide;
  }

  lemma LateWhileSkipping(job: Job, s: Sys)
    requires Sensible(job) && Proceeding(job, s) && (s.host.Knocking? || s.host.HeaderReady?)
    ensures s.board.rom.Skip? && (s.reg.Some? ==> s.reg.value.b == PROBE)
  {
    hide RomSafe, BodyAlone, Text;
    assert AllLate(Stream(s));
    if s.reg.Some? { assert Stream(s)[0] == s.reg.value; }
  }

  // Who is waiting for whom when the ROM has something to read.
  lemma NothingReadTwice(job: Job, s: Sys)
    requires Sensible(job) && Proceeding(job, s) && Enabled(job, s, RomReads)
    requires !s.host.Knocking? && !s.host.HeaderReady?
    ensures s.host.AwaitHeader? ==> s.board.rom.Skip? || s.board.rom.Header?
    ensures !s.host.AwaitHeader? ==> s.host.Await? && s.board.rom.Image?
  {
    hide RomSafe, BodyAlone, AllLate, HeaderOf, Crc, Text;
    assert Stream(s)[0] == s.reg.value;
  }

  /** Undisturbed, it keeps proceeding. */
  lemma StepProceeds(job: Job, s: Sys, a: Action)
    requires Sensible(job) && Proceeding(job, s) && Enabled(job, s, a) && Undisturbed(s, a)
    ensures Proceeding(job, Apply(job, s, a))
  {
    StepSafe(job, s, a);
    if a.RomReads? { ReadsOn(job, s); }
    if a.ReadReply? { Acknowledged(job, s); }
    hide Inv, Decide, ByteStep;
  }

  /** And before success something can always happen. */
  lemma NeverStuck(job: Job, s: Sys) returns (a: Action)
    requires Sensible(job) && Proceeding(job, s) && !s.host.Success?
    ensures Enabled(job, s, a) && Undisturbed(s, a) && Counts(a)
  {
    if s.reg.Some? && Waiting(s.board.rom) {
      a := RomReads;
    } else if s.toBoard != [] && s.reg.None? {
      a := Deliver(s.toBoard[0].b);
    } else {
      HostCanMove(job, s);
      a := if s.host.Knocking? then PollReply else if s.host.HeaderReady? then SendHeader
           else if s.host.Ready? then SendByte else ReadReply;
    }
  }

  lemma HostCanMove(job: Job, s: Sys)
    requires Sensible(job) && Proceeding(job, s) && !s.host.Success?
    requires !(s.reg.Some? && Waiting(s.board.rom)) && !(s.toBoard != [] && s.reg.None?)
    ensures s.host.Ready? ==> s.host.k < |job.payload|
    ensures s.host.HeaderReady? || s.host.Ready? || s.toHost != []
  {
    if s.board.rom.Jumped? { NothingLeft(job, s); }
    hide RomSafe, BodyAlone, AllLate, HeaderOf, Crc;
    assert s.reg.None? ==> Stream(s) == s.toBoard;
  }

  // A jump comes after the last byte.
  lemma NothingLeft(job: Job, s: Sys)
    requires Sensible(job) && Proceeding(job, s) && s.board.rom.Jumped?
    ensures Stream(s) == [] && s.reg.None?
  {
    hide RomSafe, BodyAlone, AllLate, HeaderOf, Crc;
    assert Stream(s) != [] ==> s.host.Knocking? || s.host.HeaderReady? || s.host.AwaitHeader? || s.host.Await?;
  }

  // ----- whole runs -----

  /** A run in which nothing disturbs the transfer. */
  ghost predicate UndisturbedRun(job: Job, s: Sys, acts: seq<Action>, t: Sys)
    requires Sensible(job)
    decreases |acts|
  {
    if acts == [] then s == t
    else
      Enabled(job, s, acts[0]) && Undisturbed(s, acts[0])
      && UndisturbedRun(job, Apply(job, s, acts[0]), acts[1..], t)
  }

  function Steps(acts: seq<Action>): nat {
    if acts == [] then 0 else (if Counts(acts[0]) then 1 else 0) + Steps(acts[1..])
  }

  function Pokes(acts: seq<Action>): nat {
    if acts == [] then 0 else (if acts[0].Poke? then 1 else 0) + Pokes(acts[1..])
  }

  function Polls(acts: seq<Action>): nat {
    if acts == [] then 0 else (if acts[0].PollReply? then 1 else 0) + Polls(acts[1..])
  }

  lemma {:induction false} RunTakes(job: Job, s: Sys, acts: seq<Action>, t: Sys)
    requires Sensible(job) && Proceeding(job, s) && UndisturbedRun(job, s, acts, t)
    ensures Proceeding(job, t) && Left(job, t) + Steps(acts) <= Left(job, s) + 2 * Pokes(acts) && Leads(job, s, t)
    decreases |acts|
  {
    hide Proceeding, Enabled, Apply, Undisturbed, Left, Leads;
    if acts == [] {
      LeadsSelf(job, s);
    } else {
      var u := Apply(job, s, acts[0]);
      TakesOne(job, s, acts[0]);
      StepProceeds(job, s, acts[0]);
      RunTakes(job, u, acts[1..], t);
      LeadsBy(job, s, acts[0]);
      AndThen(job, s, u, t);
    }
  }

  // ----- a host that reads between its knocks -----

  /** Between any two knocks the host reads a byte of what has come back, and so before the first unless `read`. */
  predicate ReadsBetween(acts: seq<Action>, read: bool) {
    acts == []
    || match acts[0]
       case Poke(_) => read && ReadsBetween(acts[1..], false)
       case PollReply => ReadsBetween(acts[1..], true)
       case _ => ReadsBetween(acts[1..], read)
  }

  lemma {:induction false} PokesFollowPolls(acts: seq<Action>, read: bool)
    requires ReadsBetween(acts, read)
    ensures Pokes(acts) <= Polls(acts) + if read then 1 else 0
  {
    if acts != [] {
      PokesFollowPolls(acts[1..], if acts[0].PollReply? then true else if acts[0].Poke? then false else read);
    }
  }

  // What is there to be read before the answer, and the answer.
  function Unread(s: Sys): nat { if s.host.Knocking? then |s.toHost| else 0 }

  lemma PollTakesOne(job: Job, s: Sys, a: Action)
    requires Sensible(job) && Proceeding(job, s) && Enabled(job, s, a) && Undisturbed(s, a)
    ensures Unread(Apply(job, s, a)) <= Unread(s) - if a.PollReply? then 1 else 0
  {
    hide RomSafe, BodyAlone, AllLate, Stream, ByteStep, Decide, HeaderOf;
    if a.RomReads? && s.host.Knocking? { NoAnswerWhileKnocking(job, s); }
  }

  lemma {:induction false} PollsBounded(job: Job, s: Sys, acts: seq<Action>, t: Sys)
    requires Sensible(job) && Proceeding(job, s) && UndisturbedRun(job, s, acts, t)
    ensures Polls(acts) <= Unread(s)
    decreases |acts|
  {
    hide Proceeding, Enabled, Apply, Undisturbed, Unread;
    if acts != [] {
      PollTakesOne(job, s, acts[0]);
      StepProceeds(job, s, acts[0]);
      PollsBounded(job, Apply(job, s, acts[0]), acts[1..], t);
    }
  }

  lemma LeadsBy(job: Job, s: Sys, a: Action)
    requires Sensible(job) && Enabled(job, s, a)
    ensures Leads(job, s, Apply(job, s, a))
  {
    Does(job, s, a);
    hide Enabled, Apply;
  }

  /** Once a knock has been answered, a transfer that nothing disturbs must succeed: it takes no more than Left
      steps and two for each further knock, of which a host that reads between its knocks makes at most one more
      than there are bytes for it to read; it cannot stop short of success; and success means the payload is
      loaded. */
  lemma UndisturbedSucceeds(job: Job, s0: Sys, s: Sys, acts: seq<Action>, t: Sys)
    requires Sensible(job) && Starts(job, s0) && Leads(job, s0, s) && Proceeding(job, s)
    requires UndisturbedRun(job, s, acts, t)
    ensures Steps(acts) <= Left(job, s) + 2 * Pokes(acts)
    ensures ReadsBetween(acts, true) ==> Pokes(acts) <= Unread(s) + 1
    ensures t.host.Success? || exists a :: Enabled(job, t, a) && Undisturbed(t, a) && Counts(a)
    ensures t.host.Success? ==> PayloadLoaded(job, t)
  {
    RunTakes(job, s, acts, t);
    LeftIsNat(job, t);
    AndThen(job, s0, s, t);
    PollsBounded(job, s, acts, t);
    if ReadsBetween(acts, true) { PokesFollowPolls(acts, true); }
    hide Leads, Starts, Inv, UndisturbedRun, Left, PayloadLoaded, Enabled;
    if t.host.Success? {
      Loaded(job, s0, t);
    } else {
      var a := NeverStuck(job, t);
    }
  }

  lemma Loaded(job: Job, s: Sys, t: Sys)
    requires Sensible(job) && Starts(job, s) && Leads(job, s, t) && t.host.Success? && t.clean
    ensures PayloadLoaded(job, t)
  {
    hide Starts, Reaches, PayloadLoaded;
    var acts :| Reaches(job, s, acts, t);
    SuccessMeansLoaded(job, s, acts, t);
  }

  lemma {:induction false} Finishes(job: Job, s: Sys) returns (t: Sys)
    requires Sensible(job) && Proceeding(job, s)
    ensures Leads(job, s, t) && Proceeding(job, t) && t.host.Success?
    decreases Left(job, s)
  {
    hide Inv, Leads, Left, Enabled, Apply, Undisturbed;
    if s.host.Success? {
      LeadsSelf(job, s);
      t := s;
    } else {
      var a := NeverStuck(job, s);
      var u := Apply(job, s, a);
      LeftIsNat(job, s);
      TakesOne(job, s, a);
      StepProceeds(job, s, a);
      LeadsBy(job, s, a);
      t := Finishes(job, u);
      AndThen(job, s, u, t);
    }
  }

  // ----- the knock -----

  lemma Answered(job: Job, s: Sys) returns (t: Sys)
    requires Sensible(job) && Starts(job, s)
    ensures Leads(job, s, t) && Proceeding(job, t)
  {
    StartsSafe(job, s);
    hide Inv;
    Does(job, s, RomListens);
    t := Apply(job, s, RomListens);
    if t.toBoard == [] && t.reg.None? {
      var u := Apply(job, t, Poke(false));
      Does(job, t, Poke(false));
      AndThen(job, s, t, u);
      t := u;
    }
    ProbesOnly(job, t);
    if t.reg.None? {
      var u := Apply(job, t, Deliver(PROBE));
      Does(job, t, Deliver(PROBE));
      AndThen(job, s, t, u);
      t := u;
    }
    ProbesOnly(job, t);
    var u := Apply(job, t, RomReads);
    Does(job, t, RomReads);
    AndThen(job, s, t, u);
    t := u;
  }

  /** For every sensible job, from every power-up state, some interleaving reaches success, with the payload
      in memory where it was meant to be. */
  lemma SuccessReachable(job: Job, s: Sys) returns (t: Sys)
    requires Sensible(job) && Starts(job, s)
    ensures Leads(job, s, t) && t.host.Success? && PayloadLoaded(job, t)
  {
    var u := Answered(job, s);
    t := Finishes(job, u);
    AndThen(job, s, u, t);
    hide Leads, Starts, Inv, PayloadLoaded;
    Loaded(job, s, t);
  }
}
