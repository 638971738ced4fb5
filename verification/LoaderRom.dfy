/** The boot ROM's half of the UART image loader, as an automaton driven by the bytes it is given and by
    waits that run out. */
module LoaderRom {
  import opened Words
  import opened Crc32

  const MAGIC := 0x5543_4F53
  const PROBE: byte := 0x55
  const ACK: byte := 0x06
  const NAK: byte := 0x15
  const HEADER_BYTES := 16

  const RAM_BASE := 0x8000_0000
  const RAM_SIZE := 0x0001_0000
  const SDRAM_BASE := 0x9000_0000
  const SDRAM_SIZE := 0x0200_0000
  const DDR3_BASE := 0xA000_0000
  const DDR3_SIZE := 0x2000_0000
  const W32 := 0x1_0000_0000

  function Le32(p: seq<byte>): word
    requires |p| == 4
  {
    var p0: int, p1: int, p2: int, p3: int := p[0], p[1], p[2], p[3];
    p0 + p1 * 0x100 + p2 * 0x1_0000 + p3 * 0x100_0000
  }

  /** Where an image may land: one of the memories, without wrapping. */
  predicate AddrOk(addr: word, len: word, ddr3: bool) {
    var end := (addr + len) % W32;
    && len != 0 && end >= addr
    && (|| (addr >= RAM_BASE && end <= RAM_BASE + RAM_SIZE)
        || (addr >= SDRAM_BASE && end <= SDRAM_BASE + SDRAM_SIZE)
        || (ddr3 && addr >= DDR3_BASE && end <= DDR3_BASE + DDR3_SIZE))
  }

  datatype Rom =
    | Booting                 // before the knock window
    | Knock                   // inside it
    | NoHost                  // nobody knocked: on to the card
    | Skip                    // answered; skipping late probes
    | Header(hdr: seq<byte>)
    | Image(addr: word, len: word, want: bv32, got: nat, crc: bv32)
    | Halted(addr: word, len: word)   // gave up; the image region, if one had been accepted
    | Jumped(addr: word, len: word, want: bv32)

  /** What is left of the program's effects: memory, and the bytes sent to the host. */
  datatype Board = Board(rom: Rom, mem: map<nat, byte>, sent: seq<byte>)

  function Decide(h: seq<byte>, ddr3: bool): Rom
    requires |h| == HEADER_BYTES
  {
    var addr, len := Le32(h[4..8]), Le32(h[8..12]);
    if Le32(h[0..4]) != MAGIC || !AddrOk(addr, len, ddr3) then Halted(0, 0)
    else Image(addr, len, Little(h[12..16]), 0, ONES)
  }

  /** The ROM takes one byte out of the receiver. */
  function Gets(b: Board, c: byte, ddr3: bool): Board {
    match b.rom
    case Knock => if c == PROBE then b.(rom := Skip, sent := b.sent + [ACK]) else b.(rom := NoHost)
    case Skip => if c == PROBE then b else b.(rom := Header([c]))
    case Header(h) =>
      if |h| + 1 != HEADER_BYTES then b.(rom := Header(h + [c]))
      else
        var r := Decide(h + [c], ddr3);
        b.(rom := r, sent := b.sent + [if r.Image? then ACK else NAK])
    case Image(addr, len, want, got, crc) =>
      var at: int := addr;
      var crc' := ByteStep(crc, c);
      var b' := b.(mem := b.mem[at + got := c], sent := b.sent + [ACK]);
      if got + 1 < len then b'.(rom := Image(addr, len, want, got + 1, crc'))
      else if Xor(crc', ONES) == want then b'.(rom := Jumped(addr, len, want), sent := b'.sent + [ACK])
      else b'.(rom := Halted(addr, len), sent := b'.sent + [NAK])
    case _ => b
  }

  /** A wait for a byte runs out. */
  function TimesOut(b: Board): Board {
    match b.rom
    case Knock => b.(rom := NoHost)
    case Skip => b.(rom := Halted(0, 0), sent := b.sent + [NAK])
    case Header(_) => b.(rom := Halted(0, 0), sent := b.sent + [NAK])
    case Image(addr, len, _, _, _) => b.(rom := Halted(addr, len))
    case _ => b
  }

  predicate Waiting(r: Rom) { r.Knock? || r.Skip? || r.Header? || r.Image? }

  // ----- whole lines -----

  /** One call of uart_getc_timeout: a byte, or nothing in time. */
  type Heard = x: int | -1 <= x < 256

  function Hears(b: Board, c: Heard, ddr3: bool): Board {
    if c < 0 then TimesOut(b) else Gets(b, c, ddr3)
  }

  function HearsAll(b: Board, line: seq<Heard>, ddr3: bool): Board
    decreases |line|
  {
    if line == [] then b else HearsAll(Hears(b, line[0], ddr3), line[1..], ddr3)
  }

  lemma {:induction false} Deaf(b: Board, line: seq<Heard>, ddr3: bool)
    requires !Waiting(b.rom)
    ensures HearsAll(b, line, ddr3) == b
    decreases |line|
  {
    if line != [] { Deaf(b, line[1..], ddr3); }
  }

  lemma LengthPositive(addr: word, len: word, ddr3: bool)
    requires AddrOk(addr, len, ddr3)
    ensures len != 0 && addr + len < W32
  {
  }
}
