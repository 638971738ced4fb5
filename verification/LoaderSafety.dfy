/** What every reachable state of the loader protocol satisfies, and what success means. */
module LoaderSafety {
  import opened Words
  import opened Wrappers
  import opened Crc32
  import opened LoaderRom
  import opened LoaderGuard
  import opened LoaderProtocol

  // ----- the invariant -----

  /** Memory and the checksum register are those of the image bytes read, inside an accepted region. */
  ghost predicate RomSafe(job: Job, s: Sys) { BoardSafe(job.mem, job.ddr3, s.board, s.recv) }

  /** Everything the ROM has yet to read, oldest first. */
  function Stream(s: Sys): seq<Item> {
    (if s.reg.Some? then [s.reg.value] else []) + s.toBoard
  }

  ghost predicate AllLate(q: seq<Item>) { forall i :: 0 <= i < |q| ==> q[i] == Item(PROBE, Late) }

  // An image byte on its way is the only thing on its way.
  ghost predicate BodyAlone(q: seq<Item>) { forall i :: 0 <= i < |q| && q[i].kind.Body? ==> |q| == 1 }

  // q is some console text, then the replies rs, then console text.
  ghost predicate At(q: seq<byte>, i: int, rs: seq<byte>) {
    0 <= i && i + |rs| <= |q| && Text(q[..i]) && q[i..i + |rs|] == rs && Text(q[i + |rs|..])
  }

  // The replies rs, then console text.
  ghost predicate Then(q: seq<byte>, rs: seq<byte>) { rs <= q && Text(q[|rs|..]) }

  ghost predicate ThisImage(job: Job, r: Rom, got: nat) {
    r.Image? && r.addr == job.addr && r.len == |job.payload| && r.want == Crc(job.payload) && r.got == got
  }

  ghost predicate ThisJump(job: Job, r: Rom) {
    r == Jumped(job.addr, if |job.payload| < W32 then |job.payload| else 0, Crc(job.payload)) && |job.payload| < W32
  }

  ghost predicate KnockingOk(s: Sys) {
    && AllLate(Stream(s))
    && match s.board.rom
       case Booting => Text(s.toHost)
       case Knock => Text(s.toHost)
       case NoHost => Text(s.toHost)
       case Skip => exists i :: At(s.toHost, i, [ACK]) && |s.toHost| == i + 1
       case Halted(_, _) => exists i :: At(s.toHost, i, [ACK, NAK])
       case _ => false
  }

  ghost predicate HeaderReadyOk(s: Sys) {
    && AllLate(Stream(s))
    && ((s.board.rom.Skip? && s.toHost == []) || (s.board.rom.Halted? && Then(s.toHost, [NAK])))
  }

  // The header is on its way behind late probes, or partly read.
  ghost predicate HeaderComing(job: Job, q: seq<Item>, r: Rom)
    requires Sensible(job)
  {
    var h := HeaderOf(job);
    match r
    case Skip => |q| >= |h| && AllLate(q[..|q| - |h|]) && q[|q| - |h|..] == Sent(h)
    case Header(got) => 1 <= |got| < |h| && got == h[..|got|] && q == Sent(h)[|got|..]
    case _ => false
  }

  ghost predicate AwaitHeaderOk(job: Job, s: Sys)
    requires Sensible(job)
  {
    || (HeaderComing(job, Stream(s), s.board.rom) && s.toHost == [])
    || (ThisImage(job, s.board.rom, 0) && Stream(s) == [] && s.toHost == [ACK])
    || (s.board.rom.Halted? && (Then(s.toHost, [NAK]) || (Stream(s) == [] && Then(s.toHost, [ACK]))))
  }

  ghost predicate ReadyOk(job: Job, s: Sys, k: nat) {
    && k < |job.payload| && Stream(s) == []
    && ((ThisImage(job, s.board.rom, k) && s.toHost == []) || (s.board.rom.Halted? && Text(s.toHost)))
  }

  // Payload byte k, and nothing else, is on its way.
  ghost predicate Carries(job: Job, s: Sys, k: nat) {
    && k < |job.payload| && |Stream(s)| == 1 && Stream(s)[0].kind == Body(k)
    && (s.clean || s.toBoard != [] ==> Stream(s)[0].b == job.payload[k])
  }

  ghost predicate AwaitOk(job: Job, s: Sys, k: nat) {
    && k < |job.payload|
    && (|| (Carries(job, s, k) && ((ThisImage(job, s.board.rom, k) && s.toHost == [])
                                   || (s.board.rom.Halted? && Text(s.toHost))))
        || (Stream(s) == [] && k + 1 < |job.payload|
            && ((ThisImage(job, s.board.rom, k + 1) && s.toHost == [ACK])
                || (s.board.rom.Halted? && Then(s.toHost, [ACK]))))
        || (Stream(s) == [] && k + 1 == |job.payload|
            && ((ThisJump(job, s.board.rom) && Then(s.toHost, [ACK, ACK]))
                || (s.board.rom.Halted? && Then(s.toHost, [ACK, NAK])))))
  }

  ghost predicate AwaitCrcOk(job: Job, s: Sys) {
    && Stream(s) == []
    && ((ThisJump(job, s.board.rom) && Then(s.toHost, [ACK])) || (s.board.rom.Halted? && Then(s.toHost, [NAK])))
  }

  ghost predicate Exchange(job: Job, s: Sys)
    requires Sensible(job)
  {
    match s.host
    case Knocking => KnockingOk(s)
    case HeaderReady => HeaderReadyOk(s)
    case AwaitHeader => AwaitHeaderOk(job, s)
    case Ready(k) => ReadyOk(job, s, k)
    case Await(k) => AwaitOk(job, s, k)
    case AwaitCrc => AwaitCrcOk(job, s)
    case Success => Stream(s) == [] && ThisJump(job, s.board.rom) && Text(s.toHost)
    case Abort => true
  }

  ghost predicate Inv(job: Job, s: Sys)
    requires Sensible(job)
  {
    && RomSafe(job, s) && !s.overrun && BodyAlone(Stream(s))
    && Exchange(job, s)
    && (s.clean && !s.host.Abort? ==> s.recv <= job.payload)
  }

  lemma StartsSafe(job: Job, s: Sys)
    requires Sensible(job) && Starts(job, s)
    ensures Inv(job, s) && RomHears(job, s)
  {
  }

  // ----- the host moves -----

  lemma PokeSafe(job: Job, s: Sys, dropped: bool)
    requires Sensible(job) && Inv(job, s) && Enabled(job, s, Poke(dropped))
    ensures Inv(job, Apply(job, s, Poke(dropped)))
  {
    hide AddrOk, Feed, Crc, Load;
    if !dropped { assert Stream(Apply(job, s, Poke(dropped))) == Stream(s) + [Item(PROBE, Late)]; }
  }

  lemma PollSafe(job: Job, s: Sys)
    requires Sensible(job) && Inv(job, s) && Enabled(job, s, PollReply)
    ensures Inv(job, Apply(job, s, PollReply))
  {
    hide AddrOk, Feed, Crc, Load;
    var q := s.toHost;
    match s.board.rom
    case Skip =>
      var i :| At(q, i, [ACK]) && |q| == i + 1;
      if i > 0 { ReadText(q, i, [ACK]); assert At(q[1..], i - 1, [ACK]); } else { ReadControl(q, [ACK]); }
    case Halted(_, _) =>
      var i :| At(q, i, [ACK, NAK]);
      if i > 0 {
        ReadText(q, i, [ACK, NAK]);
        assert At(q[1..], i - 1, [ACK, NAK]);
      } else {
        ReadControl(q, [ACK, NAK]);
      }
    case _ =>
  }

  lemma ReadText(q: seq<byte>, i: int, rs: seq<byte>)
    requires i > 0 && At(q, i, rs)
    ensures At(q[1..], i - 1, rs) && !Control(q[0])
  {
    var t := q[1..];
    assert t[..i - 1] == q[..i][1..] && t[i - 1..i - 1 + |rs|] == q[i..i + |rs|] && t[i - 1 + |rs|..] == q[i + |rs|..];
    assert q[0] == q[..i][0];
  }

  lemma ReadControl(q: seq<byte>, rs: seq<byte>)
    requires rs != [] && At(q, 0, rs)
    ensures q[0] == rs[0] && Then(q[1..], rs[1..])
  {
    assert q[0..|rs|] == rs;
    assert q[1..][|rs[1..]|..] == q[|rs|..];
  }

  lemma HeaderSafe(job: Job, s: Sys)
    requires Sensible(job) && Inv(job, s) && Enabled(job, s, SendHeader)
    ensures Inv(job, Apply(job, s, SendHeader))
  {
    hide AddrOk, Feed, Crc, Load, HeaderOf;
    var h := HeaderOf(job);
    var s' := Apply(job, s, SendHeader);
    assert Stream(s') == Stream(s) + Sent(h);
    assert Stream(s')[..|Stream(s')| - |h|] == Stream(s);
    assert Stream(s')[|Stream(s')| - |h|..] == Sent(h);
  }

  lemma SendSafe(job: Job, s: Sys)
    requires Sensible(job) && Inv(job, s) && Enabled(job, s, SendByte)
    ensures Inv(job, Apply(job, s, SendByte))
  {
    hide AddrOk, Feed, Crc, Load;
    var s' := Apply(job, s, SendByte);
    assert Stream(s') == [Item(job.payload[s.host.k], Body(s.host.k))];
  }

  lemma ReplySafe(job: Job, s: Sys)
    requires Sensible(job) && Inv(job, s) && Enabled(job, s, ReadReply)
    ensures Inv(job, Apply(job, s, ReadReply))
  {
    ReplyMoves(job, s);
    assert Stream(Apply(job, s, ReadReply)) == Stream(s);
    hide BoardSafe, Exchange, BodyAlone, Stream;
  }

  lemma ReplyMoves(job: Job, s: Sys)
    requires Sensible(job) && Exchange(job, s) && Enabled(job, s, ReadReply)
    ensures Exchange(job, Apply(job, s, ReadReply))
  {
    var q, t := s.toHost, Apply(job, s, ReadReply);
    assert t.toHost == q[1..] && Stream(t) == Stream(s) && t.board == s.board && t.clean == s.clean;
    assert t.host == Reply(job, s.host, q[0]);
    if s.host.AwaitHeader? {
      HeaderReply(job, s, t);
    } else if s.host.Await? {
      ByteReply(job, s, t, s.host.k);
    } else {
      CrcReply(job, s, t);
    }
    hide Apply, Reply, AwaitHeaderOk, AwaitOk, AwaitCrcOk, ReadyOk, Stream, ThisJump, Text;
  }

  lemma HeaderReply(job: Job, s: Sys, t: Sys)
    requires Sensible(job) && AwaitHeaderOk(job, s) && s.toHost != []
    requires t.toHost == s.toHost[1..] && Stream(t) == Stream(s) && t.board == s.board
    ensures s.toHost[0] == ACK ==> ReadyOk(job, t, 0)
  {
    ThenTail(s.toHost, [ACK]);
    ThenTail(s.toHost, [NAK]);
    hide Crc, HeaderOf, HeaderComing, AllLate, Then, Stream, ThisImage;
  }

  lemma ByteReply(job: Job, s: Sys, t: Sys, k: nat)
    requires AwaitOk(job, s, k) && s.toHost != []
    requires t.toHost == s.toHost[1..] && Stream(t) == Stream(s) && t.board == s.board
    ensures s.toHost[0] == ACK ==> if k + 1 < |job.payload| then ReadyOk(job, t, k + 1) else AwaitCrcOk(job, t)
  {
    ThenTail(s.toHost, [ACK]);
    ThenTail(s.toHost, [ACK, ACK]);
    ThenTail(s.toHost, [ACK, NAK]);
    hide Crc, Then, Carries, Stream, ThisImage, ThisJump;
  }

  lemma CrcReply(job: Job, s: Sys, t: Sys)
    requires AwaitCrcOk(job, s) && s.toHost != []
    requires t.toHost == s.toHost[1..] && Stream(t) == Stream(s) && t.board == s.board
    ensures s.toHost[0] == ACK ==> Stream(t) == [] && ThisJump(job, t.board.rom) && Text(t.toHost)
  {
    ThenTail(s.toHost, [ACK]);
    ThenTail(s.toHost, [NAK]);
    hide Crc, Then, Stream, ThisJump;
  }

  lemma ThenTail(q: seq<byte>, rs: seq<byte>)
    requires q != [] && rs != []
    ensures Then(q, rs) ==> q[0] == rs[0] && Then(q[1..], rs[1..])
    ensures Then(q, rs) && |rs| == 1 ==> Text(q[1..])
  {
    if Then(q, rs) { assert q[1..][|rs[1..]|..] == q[|rs|..]; }
  }

  lemma GiveUpSafe(job: Job, s: Sys)
    requires Sensible(job) && Inv(job, s) && Enabled(job, s, HostGivesUp)
    ensures Inv(job, Apply(job, s, HostGivesUp))
  {
    hide AddrOk, Feed, Crc, Load, HeaderOf;
  }

  // ----- the line and the board move -----

  lemma SameRom(job: Job, s: Sys, s': Sys)
    requires RomSafe(job, s) && s'.board == s.board && s'.recv == s.recv
    ensures RomSafe(job, s')
  {
    hide AddrOk, Feed, Crc, Load;
  }

  lemma DeliverSafe(job: Job, s: Sys, b: byte)
    requires Sensible(job) && Inv(job, s) && Enabled(job, s, Deliver(b))
    ensures Inv(job, Apply(job, s, Deliver(b)))
  {
    var x, s' := s.toBoard[0], Apply(job, s, Deliver(b));
    SameRom(job, s, s');
    hide RomSafe, HeaderOf, Crc;
    if s.reg.None? {
      assert Stream(s') == [Item(b, x.kind)] + s.toBoard[1..];
      assert Stream(s) == s.toBoard;
      if x.kind.Body? { BodyArrives(job, s, s'); } else { assert Stream(s') == Stream(s); }
    } else {
      assert Stream(s)[1] == x && !x.kind.Body? && x.kind.Late?;
      DroppedLate(job, s, s');
    }
  }

  // An image byte reaches the receiver, perhaps as another byte.
  lemma BodyArrives(job: Job, s: Sys, s': Sys)
    requires Sensible(job) && BodyAlone(Stream(s)) && Exchange(job, s)
    requires s.reg.None? && s.toBoard != [] && s.toBoard[0].kind.Body?
    requires s' == s.(toBoard := s.toBoard[1..], reg := s'.reg, clean := s'.clean)
    requires s'.reg.Some? && s'.reg.value.kind == s.toBoard[0].kind
    requires s'.clean ==> s.clean && s'.reg.value == s.toBoard[0]
    ensures BodyAlone(Stream(s')) && Exchange(job, s')
  {
    hide HeaderOf, Crc, RomSafe;
    assert Stream(s) == s.toBoard == [s.toBoard[0]];
    assert Stream(s') == [s'.reg.value];
    if s.host.AwaitHeader? && HeaderComing(job, Stream(s), s.board.rom) {
      HeaderKinds(job, Stream(s), s.board.rom);
    }
  }

  lemma HeaderKinds(job: Job, q: seq<Item>, r: Rom)
    requires Sensible(job) && HeaderComing(job, q, r)
    ensures forall i :: 0 <= i < |q| ==> !q[i].kind.Body?
  {
    hide HeaderOf;
    if r.Skip? {
      var n := |q| - |HeaderOf(job)|;
      forall i | 0 <= i < |q| ensures !q[i].kind.Body? {
        if i < n { assert q[i] == q[..n][i]; } else { assert q[i] == q[n..][i - n]; }
      }
    }
  }

  // Losing the second element of the stream.
  lemma Dropped(q: seq<Item>, q': seq<Item>)
    requires |q| >= 2 && q' == [q[0]] + q[2..]
    ensures AllLate(q) ==> AllLate(q')
    ensures BodyAlone(q) ==> BodyAlone(q')
  {
    forall i | 0 <= i < |q'| ensures q'[i] in q { assert q'[i] == q[if i == 0 then 0 else i + 1]; }
    if BodyAlone(q) {
      forall i | 0 <= i < |q'| ensures !q'[i].kind.Body? { assert q'[i] == q[if i == 0 then 0 else i + 1]; }
    }
  }

  /** A probe that finds the receiver full is lost, and nothing depends on it. */
  lemma DroppedLate(job: Job, s: Sys, s': Sys)
    requires Sensible(job) && Inv(job, s) && s.reg.Some? && s.toBoard != [] && s.toBoard[0].kind.Late?
    requires s' == s.(toBoard := s.toBoard[1..])
    ensures BodyAlone(Stream(s')) && Exchange(job, s')
  {
    hide AddrOk, Feed, Crc, Load, HeaderOf, RomSafe;
    var q, q' := Stream(s), Stream(s');
    assert q == [s.reg.value] + s.toBoard && q' == [q[0]] + q[2..];
    Dropped(q, q');
    if s.host.AwaitHeader? && HeaderComing(job, q, s.board.rom) {
      HeaderTailIsHead(job, q, s.board.rom);
      DroppedBeforeHeader(job, q, q', s.board.rom);
    }
  }

  lemma HeaderTailIsHead(job: Job, q: seq<Item>, r: Rom)
    requires Sensible(job) && HeaderComing(job, q, r)
    ensures !r.Skip? ==> forall i :: 0 <= i < |q| ==> q[i].kind.Head?
  {
  }

  lemma DroppedBeforeHeader(job: Job, q: seq<Item>, q': seq<Item>, r: Rom)
    requires Sensible(job) && HeaderComing(job, q, r) && |q| >= 2 && q[1].kind.Late? && q' == [q[0]] + q[2..]
    requires r.Skip?
    ensures HeaderComing(job, q', r)
  {
    hide HeaderOf;
    var h := HeaderOf(job);
    var n := |q| - |h|;
    forall j | n <= j < |q| ensures q[j].kind.Head? { assert q[j] == q[n..][j - n]; }
    assert n >= 2;
    assert q'[n - 1..] == q[n..];
    Dropped(q[..n], q'[..n - 1]);
  }

  lemma ListenSafe(job: Job, s: Sys)
    requires Sensible(job) && Inv(job, s) && Enabled(job, s, RomListens)
    ensures Inv(job, Apply(job, s, RomListens))
  {
    hide AddrOk, Feed, Crc, Load, HeaderOf;
    assert Stream(Apply(job, s, RomListens)) == Stream(s);
  }

  lemma PrintSafe(job: Job, s: Sys, b: byte)
    requires Sensible(job) && Inv(job, s) && Enabled(job, s, RomPrints(b))
    ensures Inv(job, Apply(job, s, RomPrints(b)))
  {
    hide AddrOk, Feed, Crc, Load, HeaderOf;
    var s' := Apply(job, s, RomPrints(b));
    var q, q' := s.toHost, s'.toHost;
    assert Stream(s') == Stream(s);
    forall rs | Then(q, rs) ensures Then(q', rs) { assert q'[|rs|..] == q[|rs|..] + [b]; }
    if s.host.Knocking? && s.board.rom.Halted? {
      var i :| At(q, i, [ACK, NAK]);
      assert q'[i + 2..] == q[i + 2..] + [b] && q'[..i] == q[..i] && q'[i..i + 2] == q[i..i + 2];
      assert At(q', i, [ACK, NAK]);
    }
  }

  lemma TimeoutSafe(job: Job, s: Sys)
    requires Sensible(job) && Inv(job, s) && Enabled(job, s, RomTimesOut)
    ensures Inv(job, Apply(job, s, RomTimesOut))
  {
    TimesOutKeeps(job.mem, job.ddr3, s.board, s.recv);
    hide AddrOk, Feed, Crc, Load, HeaderOf, RomSafe;
    var s' := Apply(job, s, RomTimesOut);
    assert Stream(s') == Stream(s);
    if s.board.rom.Image? {
      assert s'.toHost == s.toHost;
    } else if s.board.rom.Knock? {
      assert s'.toHost == s.toHost;
    } else {
      NakSafe(job, s, s');
    }
  }

  lemma NakFollows(q: seq<byte>)
    ensures (exists i :: At(q, i, [ACK]) && |q| == i + 1) ==> exists i :: At(q + [NAK], i, [ACK, NAK])
  {
    if i :| At(q, i, [ACK]) && |q| == i + 1 {
      var t := q + [NAK];
      assert t[i..i + 2] == [ACK, NAK] && t[..i] == q[..i] && t[i + 2..] == [];
      assert At(t, i, [ACK, NAK]);
    }
  }

  lemma NakSafe(job: Job, s: Sys, s': Sys)
    requires Sensible(job) && Inv(job, s) && (s.board.rom.Skip? || s.board.rom.Header?)
    requires s' == s.(board := s'.board, toHost := s.toHost + [NAK]) && s'.board.rom.Halted?
    ensures Exchange(job, s')
  {
    hide AddrOk, Feed, Crc, Load, HeaderOf, RomSafe;
    assert Stream(s') == Stream(s);
    if s.host.Knocking? {
      NakFollows(s.toHost);
      hide At, Text;
    } else if s.host.HeaderReady? || s.host.AwaitHeader? {
      assert s'.toHost == [NAK];
    }
  }

  lemma ResetSafe(job: Job, s: Sys)
    requires Sensible(job) && Inv(job, s) && Enabled(job, s, BoardResets)
    ensures Inv(job, Apply(job, s, BoardResets))
  {
    hide AddrOk, Feed, Crc, Load, HeaderOf;
    var s' := Apply(job, s, BoardResets);
    Emptied(s, s');
  }

  // The receiver is cleared.
  lemma Emptied(s: Sys, s': Sys)
    requires s'.reg == None && s'.toBoard == s.toBoard
    ensures AllLate(Stream(s)) ==> AllLate(Stream(s'))
    ensures BodyAlone(Stream(s)) ==> BodyAlone(Stream(s'))
  {
    if s.reg.Some? {
      assert Stream(s') == Stream(s)[1..];
      assert forall i :: 0 <= i < |Stream(s')| ==> Stream(s')[i] == Stream(s)[i + 1];
    } else {
      assert Stream(s') == Stream(s);
    }
  }

  // Reading the first element of the stream.
  lemma Taken(s: Sys, s': Sys)
    requires s.reg.Some? && s'.reg == None && s'.toBoard == s.toBoard
    ensures Stream(s') == Stream(s)[1..] && Stream(s)[0] == s.reg.value
    ensures AllLate(Stream(s)) ==> AllLate(Stream(s')) && s.reg.value.b == PROBE
    ensures BodyAlone(Stream(s)) ==> BodyAlone(Stream(s'))
  {
    assert Stream(s') == Stream(s)[1..];
    assert forall i :: 0 <= i < |Stream(s')| ==> Stream(s')[i] == Stream(s)[i + 1];
  }

  lemma ReadKnock(job: Job, s: Sys)
    requires Sensible(job) && Inv(job, s) && Enabled(job, s, RomReads) && s.host.Knocking?
    ensures Exchange(job, Apply(job, s, RomReads))
  {
    hide AddrOk, Feed, Crc, Load, HeaderOf, RomSafe, ByteStep, Decide;
    var s' := Apply(job, s, RomReads);
    Taken(s, s');
    if s.board.rom.Knock? {
      assert s'.toHost == s.toHost + [ACK];
      var i := |s.toHost|;
      assert s'.toHost[..i] == s.toHost && s'.toHost[i + 1..] == [];
      assert At(s'.toHost, i, [ACK]);
    } else {
      assert s'.toHost == s.toHost;
    }
  }

  lemma FirstOfHeader(job: Job)
    requires Sensible(job)
    ensures HeaderOf(job)[0] == 0x53
  {
    assert HeaderOf(job)[0] == Pack(MAGIC)[0];
  }

  lemma SkipReads(job: Job, s: Sys)
    requires Sensible(job) && Enabled(job, s, RomReads) && s.board.rom.Skip?
    ensures var s', c := Apply(job, s, RomReads), s.reg.value.b;
            && s'.reg == None && s'.toBoard == s.toBoard && s'.toHost == s.toHost
            && s'.board.rom == if c == PROBE then Skip else Header([c])
  {
    hide ByteStep, Decide;
  }

  lemma ReadSkip(job: Job, s: Sys)
    requires Sensible(job) && Enabled(job, s, RomReads) && s.board.rom.Skip?
    requires HeaderComing(job, Stream(s), s.board.rom)
    ensures var s' := Apply(job, s, RomReads);
            HeaderComing(job, Stream(s'), s'.board.rom) && s'.toHost == s.toHost
  {
    var s', h, q := Apply(job, s, RomReads), HeaderOf(job), Stream(s);
    SkipReads(job, s);
    Taken(s, s');
    FirstOfHeader(job);
    hide HeaderOf, Stream, AllLate, Sent, Apply, Enabled;
    if |q| > |h| { ProbeGone(q, h); } else { HeaderStarts(q, h); }
  }

  // The oldest of some probes before a header is taken.
  lemma ProbeGone(q: seq<Item>, h: seq<byte>)
    requires |q| > |h| && AllLate(q[..|q| - |h|]) && q[|q| - |h|..] == Sent(h)
    ensures q[0].b == PROBE
    ensures var t := q[1..];
            AllLate(t[..|t| - |h|]) && t[|t| - |h|..] == Sent(h)
  {
    var n := |q| - |h|;
    assert q[0] == q[..n][0];
    assert q[1..][n - 1..] == q[n..];
    assert q[1..][..n - 1] == q[..n][1..];
  }

  // The first byte of a header is taken.
  lemma HeaderStarts(q: seq<Item>, h: seq<byte>)
    requires |q| == |h| > 0 && q[0..] == Sent(h)
    ensures q[0].b == h[0] && h[..1] == [h[0]] && q[1..] == Sent(h)[1..]
  {
    assert q == Sent(h);
  }

  lemma NextOfHeader(job: Job, s: Sys)
    requires Sensible(job) && s.reg.Some? && s.board.rom.Header? && HeaderComing(job, Stream(s), s.board.rom)
    ensures var h, m := HeaderOf(job), |s.board.rom.hdr|;
            && s.reg.value.b == h[m] && s.board.rom.hdr + [h[m]] == h[..m + 1]
            && Stream(s)[1..] == Sent(h)[m + 1..]
  {
    hide HeaderOf;
    var h, m := HeaderOf(job), |s.board.rom.hdr|;
    assert Stream(s)[0] == s.reg.value == Sent(h)[m];
    assert Stream(s)[1..] == Sent(h)[m..][1..];
  }

  /** A byte of the header is read: it is collected, or completes a header that is understood. */
  lemma HeaderByte(job: Job, s: Sys)
    requires Sensible(job) && Enabled(job, s, RomReads) && s.board.rom.Header?
    requires HeaderComing(job, Stream(s), s.board.rom)
    ensures var s', h, m := Apply(job, s, RomReads), HeaderOf(job), |s.board.rom.hdr|;
            && Stream(s') == Sent(h)[m + 1..]
            && (m + 1 < |h| ==> s'.board.rom == Header(h[..m + 1]) && s'.toHost == s.toHost)
            && (m + 1 == |h| ==> s'.board.rom == Image(job.addr, |job.payload|, Crc(job.payload), 0, ONES)
                                 && s'.toHost == s.toHost + [ACK])
  {
    var s', h, m := Apply(job, s, RomReads), HeaderOf(job), |s.board.rom.hdr|;
    Taken(s, s');
    NextOfHeader(job, s);
    HeaderUnderstood(job);
    hide HeaderOf, ByteStep, Decide, Crc, Stream, Sent, AllLate, BodyAlone, HeaderComing;
    assert h[..|h|] == h;
  }

  lemma ReadHeader(job: Job, s: Sys)
    requires Sensible(job) && Enabled(job, s, RomReads) && s.board.rom.Header?
    requires HeaderComing(job, Stream(s), s.board.rom) && s.toHost == []
    ensures AwaitHeaderOk(job, Apply(job, s, RomReads))
  {
    HeaderByte(job, s);
    NoMore(HeaderOf(job));
    hide Apply, HeaderOf, Crc, Stream, Sent, AllLate;
  }

  lemma NoMore(h: seq<byte>)
    ensures Sent(h)[|h|..] == []
  {
  }

  // The byte awaited is the one in the receiver.
  lemma AwaitedImage(job: Job, s: Sys)
    requires Sensible(job) && Inv(job, s) && Enabled(job, s, RomReads) && s.board.rom.Image? && s.host.Await?
    ensures var k := s.host.k;
            && s.reg.Some? && ThisImage(job, s.board.rom, k) && s.toHost == []
            && k < |job.payload| < W32 && |s.recv| == k && |Stream(s)| == 1
            && (s.clean ==> s.reg.value.b == job.payload[k] && s.recv == job.payload[..k])
  {
    hide AddrOk, Crc, Feed, Load, HeaderOf, Text, BodyAlone;
    assert Stream(s)[0] == s.reg.value;
    assert Carries(job, s, s.host.k);
  }

  lemma ImageReads(job: Job, s: Sys)
    requires Sensible(job) && Enabled(job, s, RomReads) && s.board.rom.Image? && s.toHost == []
    ensures var s', r := Apply(job, s, RomReads), s.board.rom;
            && s'.reg == None && s'.toBoard == s.toBoard && s'.host == s.host && s'.clean == s.clean
            && s'.recv == s.recv + [s.reg.value.b]
            && (if r.got + 1 < r.len then s'.board.rom.Image? && s'.toHost == [ACK]
                  && s'.board.rom.(crc := r.crc) == r.(got := r.got + 1)
                else if s'.board.rom.Jumped? then
                  s'.board.rom == Jumped(r.addr, r.len, r.want) && s'.toHost == [ACK, ACK]
                else s'.board.rom.Halted? && s'.toHost == [ACK, NAK])
  {
    hide ByteStep, Decide, Xor;
  }

  lemma ReadImage(job: Job, s: Sys)
    requires Sensible(job) && Inv(job, s) && Enabled(job, s, RomReads) && s.board.rom.Image? && s.host.Await?
    ensures var s' := Apply(job, s, RomReads);
            Exchange(job, s') && (s'.clean ==> s'.recv <= job.payload)
  {
    hide *;
    var s', k := Apply(job, s, RomReads), s.host.k;
    AwaitedImage(job, s);
    ImageReads(job, s);
    Taken(s, s');
    assert Stream(s') == [];
    ImageExchange(job, s, s', k);
    if s'.clean { assert s.recv + [job.payload[k]] == job.payload[..k + 1]; }
  }

  lemma ImageExchange(job: Job, s: Sys, s': Sys, k: nat)
    requires ThisImage(job, s.board.rom, k) && k < |job.payload| < W32 && Stream(s') == []
    requires var r := s.board.rom;
             if r.got + 1 < r.len then s'.board.rom.Image? && s'.toHost == [ACK]
               && s'.board.rom.(crc := r.crc) == r.(got := r.got + 1)
             else if s'.board.rom.Jumped? then s'.board.rom == Jumped(r.addr, r.len, r.want) && s'.toHost == [ACK, ACK]
             else s'.board.rom.Halted? && s'.toHost == [ACK, NAK]
    requires s'.host == Await(k) && Sensible(job)
    ensures Exchange(job, s')
  {
    hide Crc, Stream, Carries;
  }

  lemma ReadSafe(job: Job, s: Sys)
    requires Sensible(job) && Inv(job, s) && Enabled(job, s, RomReads)
    ensures Inv(job, Apply(job, s, RomReads))
  {
    hide AddrOk, Feed, Crc, Load, HeaderOf, BoardSafe, ByteStep, Decide;
    GetsKeeps(job.mem, job.ddr3, s.board, s.recv, s.reg.value.b);
    var s' := Apply(job, s, RomReads);
    Taken(s, s');
    ReadGrows(s, job);
    match s.host
    case Knocking => ReadKnock(job, s);
    case HeaderReady => assert s'.toHost == s.toHost;
    case AwaitHeader => if s.board.rom.Skip? { ReadSkip(job, s); } else { ReadHeader(job, s); }
    case Await(_) => ReadImage(job, s);
    case _ =>
  }

  lemma ReadGrows(s: Sys, job: Job)
    requires Sensible(job) && Enabled(job, s, RomReads)
    ensures var s' := Apply(job, s, RomReads);
            s'.host == s.host && s'.overrun == s.overrun && s'.clean == s.clean
            && (!s.board.rom.Image? ==> s'.recv == s.recv)
  {
    hide ByteStep, Decide;
  }

  // ----- what the ROM hears, even after the host has given up -----

  /** Host or no host: the ROM has only late probes to read until it has read them all and the header comes;
      an image it takes, and a program it jumps to, are of the checksum the header gave. */
  ghost predicate RomHears(job: Job, s: Sys)
    requires Sensible(job)
  {
    match s.board.rom
    case Skip => AllLate(Stream(s)) || HeaderComing(job, Stream(s), s.board.rom)
    case Header(_) => HeaderComing(job, Stream(s), s.board.rom)
    case Image(_, _, want, _, _) => want == Crc(job.payload)
    case Jumped(_, _, want) => want == Crc(job.payload)
    case Halted(_, _) => true
    case _ => AllLate(Stream(s))
  }

  /** While the host is there it follows from the exchange. */
  lemma ExchangeHears(job: Job, s: Sys)
    requires Sensible(job) && Exchange(job, s) && !s.host.Abort?
    ensures RomHears(job, s)
  {
    hide AllLate, HeaderOf, Crc, Stream;
  }

  // None of it is image bytes while the ROM is not reading an image.
  lemma HearsNoBody(job: Job, s: Sys)
    requires Sensible(job) && RomHears(job, s)
    ensures s.board.rom.Image? || s.board.rom.Jumped? || s.board.rom.Halted?
            || forall i :: 0 <= i < |Stream(s)| ==> !Stream(s)[i].kind.Body?
  {
    hide HeaderOf, Crc, Stream;
    if (s.board.rom.Skip? || s.board.rom.Header?) && HeaderComing(job, Stream(s), s.board.rom) {
      HeaderKinds(job, Stream(s), s.board.rom);
    }
  }

  lemma DeliverHears(job: Job, s: Sys, b: byte)
    requires Sensible(job) && RomHears(job, s) && Enabled(job, s, Deliver(b))
    ensures RomHears(job, Apply(job, s, Deliver(b)))
  {
    hide HeaderOf, Crc, AllLate;
    HearsNoBody(job, s);
    var x, s' := s.toBoard[0], Apply(job, s, Deliver(b));
    if s.board.rom.Image? || s.board.rom.Jumped? || s.board.rom.Halted? {
    } else if s.reg.None? {
      assert Stream(s)[0] == x;
      assert Stream(s') == Stream(s);
    } else {
      var q, q' := Stream(s), Stream(s');
      assert q[1] == x && x.kind.Late? && q' == [q[0]] + q[2..];
      Dropped(q, q');
      if HeaderComing(job, q, s.board.rom) {
        HeaderTailIsHead(job, q, s.board.rom);
        DroppedBeforeHeader(job, q, q', s.board.rom);
      }
    }
  }

  lemma HeaderHears(job: Job, s: Sys)
    requires Sensible(job) && Enabled(job, s, RomReads) && s.board.rom.Header?
    requires HeaderComing(job, Stream(s), s.board.rom)
    ensures RomHears(job, Apply(job, s, RomReads))
  {
    HeaderByte(job, s);
    hide Apply, HeaderOf, Crc, Stream, Sent, AllLate;
  }

  lemma SkipHears(job: Job, s: Sys)
    requires Sensible(job) && Enabled(job, s, RomReads) && s.board.rom.Skip? && RomHears(job, s)
    ensures RomHears(job, Apply(job, s, RomReads))
  {
    if HeaderComing(job, Stream(s), s.board.rom) {
      ReadSkip(job, s);
    } else {
      Taken(s, Apply(job, s, RomReads));
    }
    hide HeaderOf, Stream, AllLate, HeaderComing, Decide, ByteStep;
  }

  lemma KnockHears(job: Job, s: Sys)
    requires Sensible(job) && Enabled(job, s, RomReads) && s.board.rom.Knock? && RomHears(job, s)
    ensures RomHears(job, Apply(job, s, RomReads))
  {
    Taken(s, Apply(job, s, RomReads));
    hide HeaderOf, Crc, Stream, AllLate, HeaderComing, ByteStep, Decide;
  }

  lemma ImageHears(job: Job, s: Sys)
    requires Sensible(job) && Enabled(job, s, RomReads) && s.board.rom.Image? && RomHears(job, s)
    ensures RomHears(job, Apply(job, s, RomReads))
  {
    hide HeaderOf, Crc, Stream, AllLate, HeaderComing, ByteStep, Xor;
  }

  lemma ReadHears(job: Job, s: Sys)
    requires Sensible(job) && RomHears(job, s) && Enabled(job, s, RomReads)
    ensures RomHears(job, Apply(job, s, RomReads))
  {
    hide RomHears, HeaderComing, Apply;
    if s.board.rom.Skip? { SkipHears(job, s); }
    else if s.board.rom.Header? { HeaderComes(job, s); HeaderHears(job, s); }
    else if s.board.rom.Knock? { KnockHears(job, s); }
    else { ImageHears(job, s); }
  }

  lemma HeaderComes(job: Job, s: Sys)
    requires Sensible(job) && RomHears(job, s) && s.board.rom.Header?
    ensures HeaderComing(job, Stream(s), s.board.rom) && s.board.rom.hdr <= HeaderOf(job)
  {
    hide HeaderOf;
  }

  // Nothing else adds to what the ROM has to read once the host has given up.
  lemma QuietHears(job: Job, s: Sys, a: Action)
    requires Sensible(job) && RomHears(job, s) && Enabled(job, s, a)
    requires a.RomListens? || a.RomTimesOut? || a.RomPrints? || a.BoardResets?
    ensures RomHears(job, Apply(job, s, a))
  {
    var s' := Apply(job, s, a);
    if a.BoardResets? { Emptied(s, s'); } else { assert Stream(s') == Stream(s); }
    hide HeaderOf, Crc, Stream, AllLate;
  }

  lemma HearsSafe(job: Job, s: Sys, a: Action)
    requires Sensible(job) && RomHears(job, s) && Enabled(job, s, a) && Inv(job, Apply(job, s, a))
    ensures RomHears(job, Apply(job, s, a))
  {
    hide RomHears, Exchange, RomSafe, BodyAlone;
    var s' := Apply(job, s, a);
    if !s'.host.Abort? {
      ExchangeHears(job, s');
    } else {
      match a
      case ReadReply => SameHears(job, s, s');
      case HostGivesUp => SameHears(job, s, s');
      case Deliver(b) => DeliverHears(job, s, b);
      case RomReads => ReadHears(job, s);
      case RomListens => QuietHears(job, s, a);
      case RomTimesOut => QuietHears(job, s, a);
      case RomPrints(_) => QuietHears(job, s, a);
      case BoardResets => QuietHears(job, s, a);
      case _ =>
    }
  }

  lemma SameHears(job: Job, s: Sys, s': Sys)
    requires Sensible(job) && RomHears(job, s)
    requires s'.board == s.board && s'.reg == s.reg && s'.toBoard == s.toBoard
    ensures RomHears(job, s')
  {
    assert Stream(s') == Stream(s);
    hide Stream, AllLate, HeaderOf, Crc;
  }

  // ----- all reachable states -----

  lemma StepSafe(job: Job, s: Sys, a: Action)
    requires Sensible(job) && Inv(job, s) && Enabled(job, s, a)
    ensures Inv(job, Apply(job, s, a))
  {
    hide Inv, Apply;
    match a
    case Poke(dropped) => PokeSafe(job, s, dropped);
    case PollReply => PollSafe(job, s);
    case SendHeader => HeaderSafe(job, s);
    case SendByte => SendSafe(job, s);
    case ReadReply => ReplySafe(job, s);
    case HostGivesUp => GiveUpSafe(job, s);
    case Deliver(b) => DeliverSafe(job, s, b);
    case RomListens => ListenSafe(job, s);
    case RomReads => ReadSafe(job, s);
    case RomTimesOut => TimeoutSafe(job, s);
    case RomPrints(b) => PrintSafe(job, s, b);
    case BoardResets => ResetSafe(job, s);
  }

  lemma {:induction false} ReachableSafe(job: Job, s: Sys, acts: seq<Action>, t: Sys)
    requires Sensible(job) && Inv(job, s) && RomHears(job, s) && Reaches(job, s, acts, t)
    ensures Inv(job, t) && RomHears(job, t)
    decreases |acts|
  {
    hide Inv, RomHears, Apply, Enabled;
    if acts != [] {
      StepSafe(job, s, acts[0]);
      HearsSafe(job, s, acts[0]);
      ReachableSafe(job, Apply(job, s, acts[0]), acts[1..], t);
    }
  }

  lemma InStep(job: Job, t: Sys)
    requires Sensible(job) && Inv(job, t)
    ensures BoardSafe(job.mem, job.ddr3, t.board, t.recv) && !t.overrun
    ensures forall i :: 0 <= i < |Stream(t)| && Stream(t)[i].kind.Body? ==> |Stream(t)| == 1
    ensures t.host.Await? && t.board.rom.Image? ==>
              var k := t.host.k;
              && t.board.rom.addr == job.addr && t.board.rom.len == |job.payload|
              && |t.recv| + |Stream(t)| == k + 1 && |t.toHost| + |Stream(t)| == 1
  {
    hide Crc, HeaderOf, AllLate, Load, AddrOk, Feed, Stream;
  }

  /** Every interleaving, every speed, whether or not the host has given up.  No image byte is ever lost to a
      full receiver, and at most one is unread at a time; a header the ROM is collecting is the host's, no
      late probe in it; memory changes only inside a region the ROM accepted; and while the ROM is reading
      an image on the host's behalf, bytes sent, read and acknowledged agree one for one. */
  lemma LoaderSafe(job: Job, s: Sys, acts: seq<Action>, t: Sys)
    requires Sensible(job) && Starts(job, s) && Reaches(job, s, acts, t)
    ensures !t.overrun
    ensures forall i :: 0 <= i < |Stream(t)| && Stream(t)[i].kind.Body? ==> |Stream(t)| == 1
    ensures t.host.Await? && t.board.rom.Image? ==>
              var k := t.host.k;
              && t.board.rom.addr == job.addr && t.board.rom.len == |job.payload|
              && |t.recv| + |Stream(t)| == k + 1 && |t.toHost| + |Stream(t)| == 1
    ensures t.board.rom.Header? ==> t.board.rom.hdr <= HeaderOf(job)
    ensures Guarded(job.mem, job.ddr3, t.board)
  {
    hide *;
    StartsSafe(job, s);
    ReachableSafe(job, s, acts, t);
    InStep(job, t);
    SafeIsGuarded(job.mem, job.ddr3, t.board, t.recv);
    if t.board.rom.Header? { HeaderComes(job, t); }
  }

  /** The host reports success only if the ROM has jumped to the address asked for, with the bytes it
      received in memory there and nothing else changed; those bytes have the payload's checksum; so
      they are the payload if the line was faithful, or if it corrupted bits only within some 32
      consecutive ones. */
  lemma SuccessMeansLoaded(job: Job, s: Sys, acts: seq<Action>, t: Sys)
    requires Sensible(job) && Starts(job, s) && Reaches(job, s, acts, t) && t.host.Success?
    ensures t.board.rom.Jumped? && t.board.rom.addr == job.addr && |t.recv| == |job.payload|
    ensures t.board.mem == Load(job.mem, job.addr, t.recv) && Crc(t.recv) == Crc(job.payload)
    ensures t.clean || DifferInBurst(t.recv, job.payload) ==> PayloadLoaded(job, t)
  {
    StartsSafe(job, s);
    ReachableSafe(job, s, acts, t);
    SuccessState(job, t);
    hide *;
    if t.clean || DifferInBurst(t.recv, job.payload) {
      if DifferInBurst(t.recv, job.payload) { BurstDetected(t.recv, job.payload); }
      Exactly(job, t);
    }
  }

  ghost predicate ByteLoaded(job: Job, t: Sys, i: nat)
    requires i < |job.payload|
  {
    var at: nat := job.addr;
    at + i in t.board.mem && t.board.mem[at + i] == job.payload[i]
  }

  ghost predicate PayloadLoaded(job: Job, t: Sys) {
    forall i: nat :: i < |job.payload| ==> ByteLoaded(job, t, i)
  }

  lemma SuccessState(job: Job, t: Sys)
    requires Sensible(job) && Inv(job, t) && t.host.Success?
    ensures t.board.rom.Jumped? && t.board.rom.addr == job.addr && |t.recv| == |job.payload|
    ensures t.board.mem == Load(job.mem, job.addr, t.recv) && Crc(t.recv) == Crc(job.payload)
    ensures t.clean ==> t.recv == job.payload
  {
    hide Feed, Crc, HeaderOf, ByteStep, AddrOk, Load;
  }

  lemma Exactly(job: Job, t: Sys)
    requires t.board.mem == Load(job.mem, job.addr, t.recv) && t.recv == job.payload
    ensures PayloadLoaded(job, t)
  {
    hide Load;
    forall i: nat | i < |job.payload| ensures ByteLoaded(job, t, i) {
      LoadAt(job.mem, job.addr, t.recv, job.addr + i);
    }
  }

  /** An image corrupted only inside 32 consecutive bits is never jumped to, whether or not the host is
      still there: a ROM that jumps has received the payload, or something that differs from it more widely. */
  lemma JumpMeansChecked(job: Job, s: Sys, acts: seq<Action>, t: Sys)
    requires Sensible(job) && Starts(job, s) && Reaches(job, s, acts, t)
    requires t.board.rom.Jumped? && DifferInBurst(t.recv, job.payload)
    ensures t.recv == job.payload
  {
    StartsSafe(job, s);
    ReachableSafe(job, s, acts, t);
    hide Feed, Crc, HeaderOf, ByteStep, AddrOk, Load, Exchange, BodyAlone;
    BurstDetected(t.recv, job.payload);
  }
}
