/** Host and boot ROM together: every interleaving, at every relative speed, over a line with a
    receiver one byte deep.  Nothing is assumed about time: any wait may run out at any moment. */
module LoaderProtocol {
  import opened Words
  import opened Wrappers
  import opened Crc32
  import opened LoaderRom

  /** What the host is asked to load, and the memory it finds. */
  datatype Job = Job(payload: seq<byte>, addr: word, ddr3: bool, mem: map<nat, byte>)

  function RegionOf(addr: nat, length: nat): bool {
    || (addr >= RAM_BASE && addr + length <= RAM_BASE + RAM_SIZE)
    || (addr >= SDRAM_BASE && addr + length <= SDRAM_BASE + SDRAM_SIZE)
  }

  // The host refuses to start otherwise.
  predicate Sensible(job: Job) {
    job.payload != [] && RegionOf(job.addr, |job.payload|)
  }

  // struct.pack("<I", x)
  function Pack(x: word): (p: seq<byte>)
    ensures |p| == 4
  {
    [x % 0x100, x / 0x100 % 0x100, x / 0x1_0000 % 0x100, x / 0x100_0000]
  }

  // The same for a checksum: its bytes are the ones that read back as it.
  function ByteOf(w: bv32): byte {
    (if w & 0x01 != 0 then 1 else 0) + (if w & 0x02 != 0 then 2 else 0) +
    (if w & 0x04 != 0 then 4 else 0) + (if w & 0x08 != 0 then 8 else 0) +
    (if w & 0x10 != 0 then 16 else 0) + (if w & 0x20 != 0 then 32 else 0) +
    (if w & 0x40 != 0 then 64 else 0) + (if w & 0x80 != 0 then 128 else 0)
  }

  function PackCrc(w: bv32): (p: seq<byte>)
    ensures |p| == 4
  {
    [ByteOf(w), ByteOf(w >> 8), ByteOf(w >> 16), ByteOf(w >> 24)]
  }

  function HeaderOf(job: Job): (h: seq<byte>)
    requires Sensible(job)
    ensures |h| == HEADER_BYTES
  {
    Pack(MAGIC) + Pack(job.addr) + Pack(|job.payload|) + PackCrc(Rfc1952Crc(job.payload))
  }

  datatype Host =
    | Knocking
    | HeaderReady
    | AwaitHeader
    | Ready(k: nat)          // about to send payload byte k
    | Await(k: nat)          // waiting for its acknowledgement
    | AwaitCrc
    | Success
    | Abort

  /** A byte on its way to the board, with what it was sent as. */
  datatype Item = Item(b: byte, kind: Kind)
  datatype Kind = Late | Head(i: nat) | Body(k: nat)

  datatype Sys = Sys(
    host: Host,
    toBoard: seq<Item>,      // the host's buffer and the line, oldest first
    reg: Option<Item>,       // the receiver's single byte
    board: Board,
    toHost: seq<byte>,
    recv: seq<byte>,         // image bytes the ROM has read so far
    overrun: bool,           // an image byte arrived while the receiver was full
    clean: bool)             // no image byte has been corrupted on the line

  datatype Action =
    | Poke(dropped: bool) | PollReply | SendHeader | SendByte | ReadReply | HostGivesUp
    | Deliver(b: byte) | RomListens | RomReads | RomTimesOut | RomPrints(b: byte) | BoardResets

  predicate Control(b: byte) { b == ACK || b == NAK }
  predicate Text(q: seq<byte>) { forall i :: 0 <= i < |q| ==> !Control(q[i]) }

  function Sent(h: seq<byte>): seq<Item> { seq(|h|, i requires 0 <= i < |h| => Item(h[i], Head(i))) }

  /** Which actions are possible.  Some of these guards are hypotheses, not facts of the protocol: a header
      byte reaches the receiver only once it is empty (the header is sent unacknowledged); only image bytes
      are corrupted; what a ROM or program prints is never a control code; and reset is pressed at any time
      until a knock is answered, not after. */
  predicate Enabled(job: Job, s: Sys, a: Action) {
    match a
    case Poke(_) => s.host.Knocking?
    case PollReply => s.host.Knocking? && s.toHost != []
    case SendHeader => s.host.HeaderReady?
    case SendByte => s.host.Ready? && s.host.k < |job.payload|
    case ReadReply => (s.host.AwaitHeader? || s.host.Await? || s.host.AwaitCrc?) && s.toHost != []
    case HostGivesUp => s.host.Knocking? || s.host.AwaitHeader? || s.host.Await? || s.host.AwaitCrc?
    case Deliver(b) =>
      && s.toBoard != []
      && (s.toBoard[0].kind.Body? || b == s.toBoard[0].b)
      && (s.toBoard[0].kind.Head? ==> s.reg.None?)
    case RomListens => s.board.rom.Booting?
    case RomReads => Waiting(s.board.rom) && s.reg.Some?
    case RomTimesOut => Waiting(s.board.rom)
    case RomPrints(b) => (s.board.rom.Booting? || s.board.rom.NoHost? || s.board.rom.Halted? || s.board.rom.Jumped?)
                         && !Control(b)
    case BoardResets => s.board.rom.Booting? || s.board.rom.Knock? || s.board.rom.NoHost?
  }

  // What the host does with the reply it was waiting for.
  function Reply(job: Job, h: Host, b: byte): Host {
    if b != ACK then Abort
    else match h
      case AwaitHeader => Ready(0)
      case Await(k) => if k + 1 < |job.payload| then Ready(k + 1) else AwaitCrc
      case AwaitCrc => Success
      case _ => h
  }

  // Whatever the ROM has just said goes to the host.
  function Heard(s: Sys, b': Board): Sys
    requires |s.board.sent| <= |b'.sent|
  {
    s.(board := b', toHost := s.toHost + b'.sent[|s.board.sent|..])
  }

  function Apply(job: Job, s: Sys, a: Action): Sys
    requires Sensible(job) && Enabled(job, s, a)
  {
    match a
    case Poke(dropped) => if dropped then s else s.(toBoard := s.toBoard + [Item(PROBE, Late)])
    case PollReply =>
      s.(toHost := s.toHost[1..], host := if s.toHost[0] == ACK then HeaderReady else Knocking)
    case SendHeader => s.(toBoard := s.toBoard + Sent(HeaderOf(job)), host := AwaitHeader)
    case SendByte =>
      s.(toBoard := s.toBoard + [Item(job.payload[s.host.k], Body(s.host.k))], host := Await(s.host.k))
    case ReadReply => s.(toHost := s.toHost[1..], host := Reply(job, s.host, s.toHost[0]))
    case HostGivesUp => s.(host := Abort)
    case Deliver(b) =>
      var x := s.toBoard[0];
      if s.reg.None? then
        s.(toBoard := s.toBoard[1..], reg := Some(Item(b, x.kind)),
           clean := s.clean && (x.kind.Body? ==> b == x.b))
      else s.(toBoard := s.toBoard[1..], overrun := s.overrun || x.kind.Body?)
    case RomListens => s.(board := s.board.(rom := Knock))
    case RomReads =>
      var c := s.reg.value.b;
      Heard(s, Gets(s.board, c, job.ddr3)).(reg := None, recv := if s.board.rom.Image? then s.recv + [c] else s.recv)
    case RomTimesOut => Heard(s, TimesOut(s.board))
    case RomPrints(b) => s.(toHost := s.toHost + [b])
    case BoardResets => s.(board := s.board.(rom := Booting), reg := None)
  }

  /** Power-up: late probes may already be on the line and old console text on its way back. */
  predicate Starts(job: Job, s: Sys) {
    && s.host.Knocking? && s.board == Board(Booting, job.mem, [])
    && (forall i :: 0 <= i < |s.toBoard| ==> s.toBoard[i] == Item(PROBE, Late))
    && (s.reg.Some? ==> s.reg.value == Item(PROBE, Late))
    && Text(s.toHost) && s.recv == [] && !s.overrun && s.clean
  }

  /** The states reached by a sequence of actions, each possible when it is taken. */
  ghost predicate Reaches(job: Job, s: Sys, acts: seq<Action>, t: Sys)
    requires Sensible(job)
    decreases |acts|
  {
    if acts == [] then s == t
    else Enabled(job, s, acts[0]) && Reaches(job, Apply(job, s, acts[0]), acts[1..], t)
  }

  // ----- headers -----

  lemma Split(x: nat)
    ensures x == x % 0x100 + x / 0x100 * 0x100
  {
  }

  lemma QuotientsOf(x: nat)
    ensures x / 0x100 / 0x100 == x / 0x1_0000 && x / 0x1_0000 / 0x100 == x / 0x100_0000
  {
  }

  // From the bytes and the quotients, without dividing.
  lemma Recombine(x: int, p0: int, p1: int, p2: int, q1: int, q2: int, q3: int)
    requires x == p0 + q1 * 0x100 && q1 == p1 + q2 * 0x100 && q2 == p2 + q3 * 0x100
    ensures p0 + p1 * 0x100 + p2 * 0x1_0000 + q3 * 0x100_0000 == x
  {
  }

  lemma PackRoundTrip(x: word)
    ensures Le32(Pack(x)) == x
  {
    QuotientsOf(x);
    Split(x);
    Split(x / 0x100);
    Split(x / 0x1_0000);
    Recombine(x, x % 0x100, x / 0x100 % 0x100, x / 0x1_0000 % 0x100, x / 0x100, x / 0x1_0000, x / 0x100_0000);
  }

  function One(b: bool): nat { if b then 1 else 0 }

  lemma Halve(b: bool, u: nat)
    ensures (One(b) + 2 * u) / 2 == u && (One(b) + 2 * u) % 2 == One(b)
  {
  }

  lemma BitsOfSum(b0: bool, b1: bool, b2: bool, b3: bool, b4: bool, b5: bool, b6: bool, b7: bool)
    ensures var v := One(b0) + 2 * One(b1) + 4 * One(b2) + 8 * One(b3)
                     + 16 * One(b4) + 32 * One(b5) + 64 * One(b6) + 128 * One(b7);
            && 0 <= v < 256
            && (v % 2 == 1 <==> b0) && (v / 2 % 2 == 1 <==> b1) && (v / 4 % 2 == 1 <==> b2) && (v / 8 % 2 == 1 <==> b3)
            && (v / 16 % 2 == 1 <==> b4) && (v / 32 % 2 == 1 <==> b5)
            && (v / 64 % 2 == 1 <==> b6) && (v / 128 == 1 <==> b7)
  {
    var u7 := One(b7);
    var u6 := One(b6) + 2 * u7;
    var u5 := One(b5) + 2 * u6;
    var u4 := One(b4) + 2 * u5;
    var u3 := One(b3) + 2 * u4;
    var u2 := One(b2) + 2 * u3;
    var u1 := One(b1) + 2 * u2;
    var v := One(b0) + 2 * u1;
    Halve(b0, u1); Halve(b1, u2); Halve(b2, u3); Halve(b3, u4); Halve(b4, u5); Halve(b5, u6); Halve(b6, u7);
    IsBit(b0); IsBit(b1); IsBit(b2); IsBit(b3); IsBit(b4); IsBit(b5); IsBit(b6); IsBit(b7);
    hide One;
    Chain(v, u1, u2, u3, u4, u5, u6, u7);
  }

  lemma Chain(v: nat, u1: nat, u2: nat, u3: nat, u4: nat, u5: nat, u6: nat, u7: nat)
    requires v / 2 == u1 && u1 / 2 == u2 && u2 / 2 == u3 && u3 / 2 == u4
    requires u4 / 2 == u5 && u5 / 2 == u6 && u6 / 2 == u7
    ensures v / 4 == u2 && v / 8 == u3 && v / 16 == u4 && v / 32 == u5 && v / 64 == u6 && v / 128 == u7
  {
    Quarters(v);
  }

  lemma IsBit(b: bool)
    ensures 0 <= One(b) <= 1 && (One(b) == 1 <==> b)
  {
  }

  lemma Quarters(v: nat)
    ensures v / 2 / 2 == v / 4 && v / 4 / 2 == v / 8 && v / 8 / 2 == v / 16 && v / 16 / 2 == v / 32
    ensures v / 32 / 2 == v / 64 && v / 64 / 2 == v / 128
  {
  }

  lemma ByteOfBack(w: bv32)
    ensures Word(ByteOf(w)) == Join(w & 0x01 != 0, w & 0x02 != 0, w & 0x04 != 0, w & 0x08 != 0,
                                    w & 0x10 != 0, w & 0x20 != 0, w & 0x40 != 0, w & 0x80 != 0)
  {
    hide Join;
    BitsOfSum(w & 0x01 != 0, w & 0x02 != 0, w & 0x04 != 0, w & 0x08 != 0,
              w & 0x10 != 0, w & 0x20 != 0, w & 0x40 != 0, w & 0x80 != 0);
  }

  lemma JoinLow(w: bv32)
    ensures Join(w & 0x01 != 0, w & 0x02 != 0, w & 0x04 != 0, w & 0x08 != 0,
                 w & 0x10 != 0, w & 0x20 != 0, w & 0x40 != 0, w & 0x80 != 0) == w & 0xFF
  {
  }

  lemma WordByteOf(w: bv32)
    ensures Word(ByteOf(w)) == w & 0xFF
  {
    hide *;
    ByteOfBack(w);
    JoinLow(w);
  }

  lemma FourBytes(w: bv32)
    ensures Xor(Xor(Xor(Xor(0, Up(w & 0xFF, 0)), Up((w >> 8) & 0xFF, 1)), Up((w >> 16) & 0xFF, 2)),
                Up((w >> 24) & 0xFF, 3)) == w
  {
  }

  lemma LittleOfFour(p: seq<byte>)
    requires |p| == 4
    ensures Little(p) == Xor(Xor(Xor(Xor(0, Up(Word(p[0]), 0)), Up(Word(p[1]), 1)), Up(Word(p[2]), 2)),
                          Up(Word(p[3]), 3))
  {
    hide Word, Xor, Up;
    assert p[..3][..2] == p[..2] && p[..2][..1] == p[..1] && p[..1][..0] == [];
    assert Little(p[..1]) == Xor(Little(p[..0]), Up(Word(p[0]), 0));
    assert Little(p[..2]) == Xor(Little(p[..1]), Up(Word(p[1]), 1));
    assert Little(p[..3]) == Xor(Little(p[..2]), Up(Word(p[2]), 2));
  }

  lemma PackCrcRoundTrip(w: bv32)
    ensures Little(PackCrc(w)) == w
  {
    hide Word, ByteOf, Xor, Up, Little;
    LittleOfFour(PackCrc(w));
    WordByteOf(w);
    WordByteOf(w >> 8);
    WordByteOf(w >> 16);
    WordByteOf(w >> 24);
    FourBytes(w);
  }

  /** The ROM accepts exactly the regions the host offers, DDR3 apart. */
  lemma RegionsAgree(addr: word, len: word)
    ensures AddrOk(addr, len, false) <==> len != 0 && RegionOf(addr, len)
    ensures AddrOk(addr, len, false) ==> AddrOk(addr, len, true)
  {
  }

  /** A header that arrives whole is read back as it was meant, and accepted. */
  lemma HeaderUnderstood(job: Job)
    requires Sensible(job)
    ensures Decide(HeaderOf(job), job.ddr3) == Image(job.addr, |job.payload|, Crc(job.payload), 0, ONES)
  {
    hide Crc, Rfc1952Crc, Little, PackCrc, Le32, Pack;
    var h, len := HeaderOf(job), |job.payload|;
    var crc := Rfc1952Crc(job.payload);
    MatchesRfc1952(job.payload);
    PackRoundTrip(MAGIC);
    PackRoundTrip(job.addr);
    PackRoundTrip(len);
    PackCrcRoundTrip(crc);
    RegionsAgree(job.addr, len);
    assert h[0..4] == Pack(MAGIC) && h[4..8] == Pack(job.addr) && h[8..12] == Pack(len) && h[12..16] == PackCrc(crc);
  }

  // ----- in numbers -----

  /** Where the ROM lets an image land: block RAM, SDRAM, and DDR3 in a ROM built for it, without wrapping. */
  lemma RomRegions(addr: word, len: word, ddr3: bool)
    ensures AddrOk(addr, len, ddr3) <==>
              len > 0 &&
              (|| (0x8000_0000 <= addr && addr + len <= 0x8001_0000)
               || (0x9000_0000 <= addr && addr + len <= 0x9200_0000)
               || (ddr3 && 0xA000_0000 <= addr && addr + len <= 0xC000_0000))
  {
  }

  /** And where the host offers to put one. */
  lemma HostRegions(addr: nat, length: nat)
    ensures RegionOf(addr, length) <==>
              || (0x8000_0000 <= addr && addr + length <= 0x8001_0000)
              || (0x9000_0000 <= addr && addr + length <= 0x9200_0000)
  {
  }

  /** A header on the wire: the four bytes of the magic, then address and length, low byte first. */
  lemma HeaderBytes(job: Job)
    requires Sensible(job)
    ensures HeaderOf(job)[..4] == [0x53, 0x4F, 0x43, 0x55]
    ensures HeaderOf(job)[4..8]
         == [job.addr % 0x100, job.addr / 0x100 % 0x100, job.addr / 0x1_0000 % 0x100, job.addr / 0x100_0000]
    ensures var n := |job.payload|;
            HeaderOf(job)[8..12] == [n % 0x100, n / 0x100 % 0x100, n / 0x1_0000 % 0x100, n / 0x100_0000]
    ensures HeaderOf(job)[12..] == PackCrc(Rfc1952Crc(job.payload))
  {
    hide PackCrc, Rfc1952Crc;
    assert Pack(MAGIC) == [0x53, 0x4F, 0x43, 0x55];
  }

  lemma CrcBytes(w: bv32)
    ensures Word(PackCrc(w)[0]) == w & 0xFF && Word(PackCrc(w)[1]) == (w >> 8) & 0xFF
    ensures Word(PackCrc(w)[2]) == (w >> 16) & 0xFF && Word(PackCrc(w)[3]) == (w >> 24) & 0xFF
  {
    WordByteOf(w);
    WordByteOf(w >> 8);
    WordByteOf(w >> 16);
    WordByteOf(w >> 24);
    hide Word, ByteOf;
  }

  /** What the ROM says: 0x06 to a knock of 0x55 and to nothing else; nothing to late probes or part of a header;
      0x06 to every image byte; 0x06 or 0x15 to the last, as the checksum is right or wrong.  A silence is answered,
      by 0x15, only between the knock and the end of the header. */
  lemma RomSays(b: Board, c: byte, ddr3: bool)
    ensures b.rom.Knock? && c == 0x55 ==> Gets(b, c, ddr3) == b.(rom := Skip, sent := b.sent + [0x06])
    ensures b.rom.Knock? && c != 0x55 ==> Gets(b, c, ddr3) == b.(rom := NoHost)
    ensures b.rom.Skip? && c == 0x55 ==> Gets(b, c, ddr3) == b
    ensures b.rom.Skip? && c != 0x55 ==> Gets(b, c, ddr3) == b.(rom := Header([c]))
    ensures b.rom.Header? && |b.rom.hdr| + 1 == 16 ==>
              var t := Gets(b, c, ddr3);
              t.sent == b.sent + [if t.rom.Image? then 0x06 else 0x15]
    ensures b.rom.Image? ==>
              var t := Gets(b, c, ddr3);
              t.sent == b.sent + [0x06] + (if t.rom.Jumped? then [0x06] else if t.rom.Halted? then [0x15] else [])
    ensures b.rom.Knock? ==> TimesOut(b) == b.(rom := NoHost)
    ensures b.rom.Skip? || b.rom.Header? ==> TimesOut(b) == b.(rom := Halted(0, 0), sent := b.sent + [0x15])
    ensures b.rom.Image? ==> TimesOut(b) == b.(rom := Halted(b.rom.addr, b.rom.len))
  {
    hide Decide, ByteStep, Xor;
  }
}
