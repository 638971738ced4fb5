/** The boot ROM's loader as it runs, proved to be the automaton. */
module LoaderProgram {
  import opened Words
  import opened Crc32
  import opened LoaderRom
  import opened LoaderGuard

  /** The loader as it runs: what the receiver yields is a script, silence once it ends. */
  class BootRom {
    var mem: map<nat, byte>
    var sent: seq<byte>
    var line: seq<Heard>
    const ddr3: bool

    constructor (mem: map<nat, byte>, line: seq<Heard>, ddr3: bool)
      ensures this.mem == mem && this.line == line && this.ddr3 == ddr3 && sent == []
    {
      this.mem, this.line, this.ddr3, this.sent := mem, line, ddr3, [];
    }

    ghost function As(r: Rom): Board
      reads this
    {
      Board(r, mem, sent)
    }

    // What the automaton makes of the rest of the script and the silence after it.
    ghost function Rest(r: Rom): Board
      reads this
    {
      HearsAll(As(r), line + [-1], ddr3)
    }

    method GetcTimeout() returns (c: Heard)
      modifies this`line
      ensures old(line) != [] ==> c == old(line)[0] && line == old(line)[1..]
      ensures old(line) == [] ==> c == -1 && line == []
      ensures c < 0 ==> forall r: Rom :: Waiting(r) ==> old(Rest(r)) == TimesOut(As(r))
      ensures c >= 0 ==> |line| < |old(line)|
      ensures c >= 0 ==> forall r: Rom :: old(Rest(r)) == HearsAll(Gets(As(r), c, ddr3), line + [-1], ddr3)
    {
      hide ByteStep;
      if line == [] {
        c := -1;
        assert (line + [-1])[1..] == [];
        forall r: Rom | Waiting(r) ensures Rest(r) == TimesOut(As(r)) {
          assert Rest(r) == HearsAll(Hears(As(r), -1, ddr3), [], ddr3);
        }
      } else {
        c := line[0];
        line := line[1..];
        assert (old(line) + [-1])[1..] == line + [-1];
        forall r: Rom | c < 0 && Waiting(r) ensures old(Rest(r)) == TimesOut(As(r)) {
          Deaf(TimesOut(As(r)), line + [-1], ddr3);
        }
      }
    }

    /** The entry address, or 0 if no host knocked or the transfer failed; memory and replies are
        what the automaton does with the same line.  Whatever is on the line, memory has changed only inside
        a region the address check accepts, and an entry is returned only to a region that passes the check
        and holds bytes of the checksum the header gave. */
    method UartLoad() returns (entry: word)
      modifies this
      ensures var b := old(HearsAll(Board(Knock, mem, sent), line + [-1], ddr3));
              && mem == b.mem && sent == b.sent
              && (b.rom.Jumped? ==> entry == b.rom.addr) && (!b.rom.Jumped? ==> entry == 0)
              && Guarded(old(mem), ddr3, b)
    {
      AnyLineGuarded(mem, sent, line + [-1], ddr3);
      hide ByteStep, Decide, AddrOk, Guarded;
      ghost var goal := Rest(Knock);
      var c := GetcTimeout();
      if c != PROBE {
        Deaf(As(NoHost), line + [-1], ddr3);
        return 0;
      }
      sent := sent + [ACK];
      assert Rest(Skip) == goal;

      var more := true;
      while more
        invariant more ==> Rest(Skip) == goal
        invariant !more ==> c >= 0 && Rest(Header([c])) == goal
        decreases more, |line|
      {
        c := GetcTimeout();
        if c < 0 {
          sent := sent + [NAK];
          return 0;
        }
        more := c == PROBE;
      }
      var hdr: seq<byte> := [c];
      while |hdr| < HEADER_BYTES
        invariant 1 <= |hdr| <= HEADER_BYTES
        invariant |hdr| < HEADER_BYTES ==> Rest(Header(hdr)) == goal
        invariant |hdr| == HEADER_BYTES ==> Decided(hdr) == goal
      {
        c := GetcTimeout();
        if c < 0 {
          sent := sent + [NAK];
          return 0;
        }
        hdr := hdr + [c];
      }
      entry := Receive(hdr, goal);
    }

    // What follows a complete header: the reply, then the rest of the line.
    ghost function Decided(hdr: seq<byte>): Board
      requires |hdr| == HEADER_BYTES
      reads this
    {
      var r := Decide(hdr, ddr3);
      HearsAll(Board(r, mem, sent + [if r.Image? then ACK else NAK]), line + [-1], ddr3)
    }

    // What follows a complete image, its last byte acknowledged.
    ghost function Checked(addr: word, len: word, want: bv32, crc: bv32): Board
      reads this
    {
      if Xor(crc, ONES) == want then Board(Jumped(addr, len, want), mem, sent + [ACK])
      else Board(Halted(addr, len), mem, sent + [NAK])
    }

    method Receive(hdr: seq<byte>, ghost goal: Board) returns (entry: word)
      requires |hdr| == HEADER_BYTES
      requires Decided(hdr) == goal
      modifies this
      ensures mem == goal.mem && sent == goal.sent
      ensures (goal.rom.Jumped? ==> entry == goal.rom.addr) && (!goal.rom.Jumped? ==> entry == 0)
    {
      hide ByteStep, AddrOk, Le32, Little;
      var magic, addr, len, want := Le32(hdr[0..4]), Le32(hdr[4..8]), Le32(hdr[8..12]), Little(hdr[12..16]);
      if magic != MAGIC || !AddrOk(addr, len, ddr3) {
        sent := sent + [NAK];
        Deaf(As(Halted(0, 0)), line + [-1], ddr3);
        return 0;
      }
      sent := sent + [ACK];
      var crc := ONES;
      var got: int := 0;
      LengthPositive(addr, len, ddr3);
      while got < len
        invariant 0 <= got <= len
        invariant got < len ==> Rest(Image(addr, len, want, got, crc)) == goal
        invariant got == len ==> Checked(addr, len, want, crc) == goal
      {
        var c := GetcTimeout();
        if c < 0 { return 0; }
        var at: int := addr + got;
        mem := mem[at := c];
        crc := Crc32Step(crc, c);
        sent := sent + [ACK];
        got := got + 1;
        if got == len {
          Deaf(As(Jumped(addr, len, want)).(sent := sent + [ACK]), line + [-1], ddr3);
          Deaf(As(Halted(addr, len)).(sent := sent + [NAK]), line + [-1], ddr3);
        }
      }
      if Xor(crc, ONES) != want {
        sent := sent + [NAK];
        return 0;
      }
      sent := sent + [ACK];
      return addr;
    }
  }
}
