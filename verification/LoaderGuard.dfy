/** What the ROM does to memory, whatever is on the line: any bytes, any header, any silences. */
module LoaderGuard {
  import opened Words
  import opened Crc32
  import opened LoaderRom

  // ----- memory -----

  /** Memory after writing data from addr on. */
  function Load(mem: map<nat, byte>, addr: nat, data: seq<byte>): map<nat, byte> {
    if data == [] then mem else Load(mem, addr, data[..|data| - 1])[addr + |data| - 1 := data[|data| - 1]]
  }

  lemma {:induction false} LoadAt(mem: map<nat, byte>, addr: nat, data: seq<byte>, x: nat)
    ensures addr <= x < addr + |data| ==> x in Load(mem, addr, data) && Load(mem, addr, data)[x] == data[x - addr]
    ensures !(addr <= x < addr + |data|) ==>
              (x in Load(mem, addr, data) <==> x in mem) && (x in mem ==> Load(mem, addr, data)[x] == mem[x])
  {
    if data != [] { LoadAt(mem, addr, data[..|data| - 1], x); }
  }

  lemma LoadMore(mem: map<nat, byte>, addr: nat, data: seq<byte>, c: byte)
    ensures Load(mem, addr, data + [c]) == Load(mem, addr, data)[addr + |data| := c]
  {
    assert (data + [c])[..|data|] == data;
  }

  lemma FeedMore(crc: bv32, data: seq<byte>, c: byte)
    ensures Feed(crc, data + [c]) == ByteStep(Feed(crc, data), c)
  {
    hide ByteStep;
    assert (data + [c])[..|data|] == data;
  }

  lemma EmptyRun(mem: map<nat, byte>)
    ensures Feed(ONES, []) == ONES && forall a: nat :: Load(mem, a, []) == mem
  {
  }

  // ----- the invariant -----

  /** Memory differs from mem only by the image bytes read, recv, in order, inside the region that the ROM
      accepted; the checksum register is theirs. */
  ghost predicate BoardSafe(mem: map<nat, byte>, ddr3: bool, b: Board, recv: seq<byte>) {
    match b.rom
    case Image(addr, len, want, got, crc) =>
      AddrOk(addr, len, ddr3) && got == |recv| < len && crc == Feed(ONES, recv) && b.mem == Load(mem, addr, recv)
    case Jumped(addr, len, want) =>
      AddrOk(addr, len, ddr3) && |recv| == len && Crc(recv) == want && b.mem == Load(mem, addr, recv)
    case Halted(addr, len) =>
      (recv != [] ==> AddrOk(addr, len, ddr3)) && |recv| <= len && b.mem == Load(mem, addr, recv)
    case Header(h) => 1 <= |h| < HEADER_BYTES && recv == [] && b.mem == mem
    case _ => recv == [] && b.mem == mem
  }

  /** The image bytes read, one more when the ROM takes one. */
  function Taking(b: Board, recv: seq<byte>, c: byte): seq<byte> { if b.rom.Image? then recv + [c] else recv }

  lemma ImageKeeps(mem: map<nat, byte>, ddr3: bool, b: Board, recv: seq<byte>, c: byte)
    requires BoardSafe(mem, ddr3, b, recv) && b.rom.Image?
    ensures BoardSafe(mem, ddr3, Gets(b, c, ddr3), recv + [c])
  {
    hide AddrOk, Feed, ByteStep, Load;
    LoadMore(mem, b.rom.addr, recv, c);
    FeedMore(ONES, recv, c);
  }

  lemma DecideKeeps(mem: map<nat, byte>, ddr3: bool, b: Board, recv: seq<byte>, c: byte)
    requires BoardSafe(mem, ddr3, b, recv) && b.rom.Header?
    ensures BoardSafe(mem, ddr3, Gets(b, c, ddr3), recv)
  {
    hide Feed, Load, Little, Le32, ByteStep;
    EmptyRun(mem);
    forall addr: word, len: word | AddrOk(addr, len, ddr3) { LengthPositive(addr, len, ddr3); }
  }

  /** Any byte read keeps it. */
  lemma GetsKeeps(mem: map<nat, byte>, ddr3: bool, b: Board, recv: seq<byte>, c: byte)
    requires BoardSafe(mem, ddr3, b, recv)
    ensures BoardSafe(mem, ddr3, Gets(b, c, ddr3), Taking(b, recv, c))
  {
    hide Feed, ByteStep, Load, AddrOk;
    match b.rom
    case Image(_, _, _, _, _) => ImageKeeps(mem, ddr3, b, recv, c);
    case Header(_) => DecideKeeps(mem, ddr3, b, recv, c);
    case _ => EmptyRun(mem);
  }

  /** Any wait that runs out keeps it. */
  lemma TimesOutKeeps(mem: map<nat, byte>, ddr3: bool, b: Board, recv: seq<byte>)
    requires BoardSafe(mem, ddr3, b, recv)
    ensures BoardSafe(mem, ddr3, TimesOut(b), recv)
  {
    hide AddrOk, Feed, ByteStep, Load;
    EmptyRun(mem);
  }

  lemma {:induction false} HearsAllKeeps(mem: map<nat, byte>, ddr3: bool, b: Board, recv: seq<byte>, line: seq<Heard>)
      returns (recv': seq<byte>)
    requires BoardSafe(mem, ddr3, b, recv)
    ensures BoardSafe(mem, ddr3, HearsAll(b, line, ddr3), recv')
    decreases |line|
  {
    hide BoardSafe, Gets, TimesOut;
    if line == [] {
      recv' := recv;
    } else if line[0] < 0 {
      TimesOutKeeps(mem, ddr3, b, recv);
      recv' := HearsAllKeeps(mem, ddr3, TimesOut(b), recv, line[1..]);
    } else {
      GetsKeeps(mem, ddr3, b, recv, line[0]);
      recv' := HearsAllKeeps(mem, ddr3, Gets(b, line[0], ddr3), Taking(b, recv, line[0]), line[1..]);
    }
  }

  // ----- what that means for memory -----

  /** The region the ROM took from a header, if it has. */
  function Accepted(r: Rom): (word, word) {
    match r
    case Image(addr, len, _, _, _) => (addr, len)
    case Jumped(addr, len, _) => (addr, len)
    case Halted(addr, len) => (addr, len)
    case _ => (0, 0)
  }

  predicate ChangedAt(mem: map<nat, byte>, mem': map<nat, byte>, x: nat) {
    (x in mem') != (x in mem) || (x in mem && mem'[x] != mem[x])
  }

  /** The len bytes at addr are data. */
  ghost predicate HoldsAt(mem: map<nat, byte>, addr: nat, data: seq<byte>) {
    forall i: nat :: i < |data| ==> ByteAt(mem, addr + i, data[i])
  }

  predicate ByteAt(mem: map<nat, byte>, x: nat, c: byte) { x in mem && mem[x] == c }

  /** Memory has changed only inside a region that passes the address check; and the ROM jumps only to such a
      region, filled with bytes of the checksum it was promised. */
  ghost predicate Guarded(mem: map<nat, byte>, ddr3: bool, b: Board) {
    && (forall x: nat :: ChangedAt(mem, b.mem, x) ==>
          var (addr, len) := Accepted(b.rom);
          AddrOk(addr, len, ddr3) && addr <= x < addr + len)
    && (b.rom.Jumped? ==>
          && AddrOk(b.rom.addr, b.rom.len, ddr3)
          && exists data :: |data| == b.rom.len && HoldsAt(b.mem, b.rom.addr, data) && Crc(data) == b.rom.want)
  }

  lemma Inside(mem: map<nat, byte>, ddr3: bool, b: Board, recv: seq<byte>, x: nat)
    requires BoardSafe(mem, ddr3, b, recv) && ChangedAt(mem, b.mem, x)
    ensures var (addr, len) := Accepted(b.rom); AddrOk(addr, len, ddr3) && addr <= x < addr + len
  {
    hide Feed, Crc, AddrOk, Load;
    LoadAt(mem, Accepted(b.rom).0, recv, x);
    EmptyRun(mem);
  }

  lemma LoadHolds(mem: map<nat, byte>, addr: nat, data: seq<byte>)
    ensures HoldsAt(Load(mem, addr, data), addr, data)
  {
    hide Load;
    forall i: nat | i < |data| ensures ByteAt(Load(mem, addr, data), addr + i, data[i]) {
      LoadAt(mem, addr, data, addr + i);
    }
  }

  lemma SafeIsGuarded(mem: map<nat, byte>, ddr3: bool, b: Board, recv: seq<byte>)
    requires BoardSafe(mem, ddr3, b, recv)
    ensures Guarded(mem, ddr3, b)
  {
    hide Load, AddrOk, Crc, HoldsAt, ChangedAt;
    forall x: nat | ChangedAt(mem, b.mem, x)
      ensures var (addr, len) := Accepted(b.rom); AddrOk(addr, len, ddr3) && addr <= x < addr + len
    {
      Inside(mem, ddr3, b, recv, x);
    }
    if b.rom.Jumped? { LoadHolds(mem, b.rom.addr, recv); }
  }

  /** Every line whatever: any bytes, any header, any silences, at every moment of the run. */
  lemma AnyLineGuarded(mem: map<nat, byte>, sent: seq<byte>, line: seq<Heard>, ddr3: bool)
    ensures Guarded(mem, ddr3, HearsAll(Board(Knock, mem, sent), line, ddr3))
  {
    hide Guarded, HearsAll;
    var recv := HearsAllKeeps(mem, ddr3, Board(Knock, mem, sent), [], line);
    SafeIsGuarded(mem, ddr3, HearsAll(Board(Knock, mem, sent), line, ddr3), recv);
  }

  // ----- and exactly which lines are obeyed -----

  /** No silence. */
  predicate AllBytes(line: seq<Heard>) { forall i :: 0 <= i < |line| ==> line[i] >= 0 }

  function Bytes(line: seq<Heard>): (s: seq<byte>)
    requires AllBytes(line)
    ensures |s| == |line| && forall i :: 0 <= i < |s| ==> s[i] == line[i]
  {
    seq(|line|, i requires 0 <= i < |line| => line[i])
  }

  lemma BytesFirst(line: seq<Heard>, n: nat)
    requires 0 < n <= |line|
    ensures AllBytes(line[..n]) <==> line[0] >= 0 && AllBytes(line[1..][..n - 1])
    ensures AllBytes(line[..n]) ==> Bytes(line[..n]) == [line[0]] + Bytes(line[1..][..n - 1])
  {
    var first, rest := line[..n], line[1..][..n - 1];
    assert forall i :: 0 <= i < |rest| ==> rest[i] == first[i + 1];
    if AllBytes(first) {
      forall i | 0 <= i < |rest| ensures rest[i] >= 0 { assert first[i + 1] >= 0; }
    }
    assert first[0] >= 0 && AllBytes(rest) ==> forall i :: 0 < i < n ==> first[i] == rest[i - 1];
  }

  lemma NoBytes(line: seq<Heard>)
    ensures AllBytes(line[..0])
  {}

  /** Whether a ROM part-way through an image jumps on what is still to come. */
  predicate Completes(r: Rom, line: seq<Heard>)
    requires r.Image? && r.got < r.len
  {
    var left := r.len - r.got;
    |line| >= left && AllBytes(line[..left]) && Xor(Feed(r.crc, Bytes(line[..left])), ONES) == r.want
  }

  lemma {:induction false} ImageHeard(b: Board, line: seq<Heard>, ddr3: bool)
    requires b.rom.Image? && b.rom.got < b.rom.len
    ensures HearsAll(b, line, ddr3).rom.Jumped? <==> Completes(b.rom, line)
    decreases |line|
  {
    var left := b.rom.len - b.rom.got;
    if line == [] {
    } else if line[0] < 0 {
      Deaf(TimesOut(b), line[1..], ddr3);
      if |line| >= left { BytesFirst(line, left); }
      hide Feed, Xor, Bytes;
    } else {
      ImageByte(b, line, ddr3);
      var b' := Gets(b, line[0], ddr3);
      if left > 1 { ImageHeard(b', line[1..], ddr3); } else { Deaf(b', line[1..], ddr3); }
      hide Completes, Gets, TimesOut;
    }
  }

  // The checksum over what is still to come, from the next byte.
  lemma CompletesOn(r: Rom, r': Rom, line: seq<Heard>)
    requires r.Image? && r.got + 1 < r.len && line != [] && line[0] >= 0
    requires r' == r.(got := r.got + 1, crc := ByteStep(r.crc, line[0]))
    ensures Completes(r, line) <==> Completes(r', line[1..])
  {
    var left := r.len - r.got;
    if |line| >= left {
      BytesFirst(line, left);
      if AllBytes(line[..left]) { FeedFirst(r.crc, line[0], Bytes(line[1..][..left - 1])); }
    }
    hide ByteStep, Feed, Xor, AllBytes, Bytes;
  }

  lemma CompletesNow(r: Rom, line: seq<Heard>)
    requires r.Image? && r.got + 1 == r.len && line != [] && line[0] >= 0
    ensures Completes(r, line) <==> Xor(ByteStep(r.crc, line[0]), ONES) == r.want
  {
    BytesFirst(line, 1);
    NoBytes(line[1..]);
    FeedFirst(r.crc, line[0], Bytes(line[1..][..0]));
    hide ByteStep, Feed, Xor, AllBytes, Bytes;
  }

  // One byte of the image.
  lemma ImageByte(b: Board, line: seq<Heard>, ddr3: bool)
    requires b.rom.Image? && b.rom.got < b.rom.len && line != [] && line[0] >= 0
    ensures var r := Gets(b, line[0], ddr3).rom;
            if b.rom.len - b.rom.got > 1 then
              r.Image? && r.got < r.len && r.len - r.got == b.rom.len - b.rom.got - 1
              && (Completes(b.rom, line) <==> Completes(r, line[1..]))
            else !Waiting(r) && (r.Jumped? <==> Completes(b.rom, line))
  {
    hide ByteStep, Xor, Completes, Decide;
    if b.rom.len - b.rom.got > 1 {
      CompletesOn(b.rom, Gets(b, line[0], ddr3).rom, line);
    } else {
      CompletesNow(b.rom, line);
    }
  }

  lemma FeedFirst(crc: bv32, c: byte, rest: seq<byte>)
    ensures Feed(crc, [c] + rest) == Feed(ByteStep(crc, c), rest)
    ensures rest == [] ==> Feed(crc, [c] + rest) == ByteStep(crc, c)
  {
    hide ByteStep;
    FeedSplit(crc, [c], rest);
    FeedMore(crc, [], c);
    assert [] + [c] == [c];
  }

  /** The board once a whole header has been read. */
  function AfterHeader(b: Board, h: seq<byte>, ddr3: bool): Board
    requires |h| == HEADER_BYTES
  {
    var r := Decide(h, ddr3);
    b.(rom := r, sent := b.sent + [if r.Image? then ACK else NAK])
  }

  lemma {:induction false} HeaderHeard(b: Board, line: seq<Heard>, ddr3: bool)
    requires b.rom.Header? && |b.rom.hdr| < HEADER_BYTES
    ensures var m := HEADER_BYTES - |b.rom.hdr|;
            HearsAll(b, line, ddr3).rom.Jumped? <==>
              && |line| >= m && AllBytes(line[..m])
              && HearsAll(AfterHeader(b, b.rom.hdr + Bytes(line[..m]), ddr3), line[m..], ddr3).rom.Jumped?
    decreases |line|
  {
    hide ByteStep, Decide, Bytes, AllBytes;
    var m := HEADER_BYTES - |b.rom.hdr|;
    if |line| >= m { BytesFirst(line, m); }
    if line == [] {
    } else if line[0] < 0 {
      Deaf(TimesOut(b), line[1..], ddr3);
    } else if m > 1 {
      var c := line[0];
      var b' := b.(rom := Header(b.rom.hdr + [c]));
      HeaderHeard(b', line[1..], ddr3);
      if |line| >= m && AllBytes(line[..m]) {
        var rest := Bytes(line[1..][..m - 1]);
        assert b.rom.hdr + ([c] + rest) == b.rom.hdr + [c] + rest;
        assert line[1..][m - 1..] == line[m..];
      }
    } else {
      assert |line| >= m && AllBytes(line[..m]) by { NoBytes(line[1..]); }
      assert b.rom.hdr + ([line[0]] + Bytes(line[1..][..0])) == b.rom.hdr + [line[0]];
    }
  }

  /** Late probes at the start. */
  function LeadingProbes(line: seq<Heard>): (n: nat)
    ensures n <= |line| && (forall i :: 0 <= i < n ==> line[i] == PROBE) && (n < |line| ==> line[n] != PROBE)
  {
    if line == [] || line[0] != PROBE then 0 else 1 + LeadingProbes(line[1..])
  }

  lemma {:induction false} SkipHeard(b: Board, line: seq<Heard>, ddr3: bool)
    requires b.rom.Skip?
    ensures HearsAll(b, line, ddr3).rom.Jumped?
       <==> HearsAll(b.(rom := Header([])), line[LeadingProbes(line)..], ddr3).rom.Jumped?
    decreases |line|
  {
    hide ByteStep, Decide;
    if line == [] {
    } else if line[0] < 0 {
      Deaf(TimesOut(b), line[1..], ddr3);
      Deaf(TimesOut(b.(rom := Header([]))), line[1..], ddr3);
    } else if line[0] == PROBE {
      SkipHeard(b, line[1..], ddr3);
      assert line[1..][LeadingProbes(line[1..])..] == line[LeadingProbes(line)..];
    } else {
      assert [] + [line[0]] == [line[0]];
    }
  }

  /** A knock, any number of late probes, a header with the magic and a region that passes the check, and the whole
      image with the checksum of the header, nothing of it late; and then anything. */
  predicate Obeyed(line: seq<Heard>, ddr3: bool) {
    && line != [] && line[0] == PROBE
    && ImageFollows(line[1..][LeadingProbes(line[1..])..], ddr3)
  }

  predicate ImageFollows(line: seq<Heard>, ddr3: bool) {
    && |line| >= HEADER_BYTES && AllBytes(line[..HEADER_BYTES])
    && var h, rest := Bytes(line[..HEADER_BYTES]), line[HEADER_BYTES..];
       var addr, len := Le32(h[4..8]), Le32(h[8..12]);
       && Le32(h[0..4]) == MAGIC && AddrOk(addr, len, ddr3)
       && |rest| >= len && AllBytes(rest[..len]) && Crc(Bytes(rest[..len])) == Little(h[12..16])
  }

  // What follows a header that has been read.
  lemma AfterHeaderHeard(b: Board, h: seq<byte>, rest: seq<Heard>, ddr3: bool)
    requires |h| == HEADER_BYTES
    ensures var addr, len := Le32(h[4..8]), Le32(h[8..12]);
            HearsAll(AfterHeader(b, h, ddr3), rest, ddr3).rom.Jumped? <==>
              && Le32(h[0..4]) == MAGIC && AddrOk(addr, len, ddr3)
              && |rest| >= len && AllBytes(rest[..len]) && Crc(Bytes(rest[..len])) == Little(h[12..16])
  {
    var a := AfterHeader(b, h, ddr3);
    hide HearsAll, AllBytes, Bytes, Feed, Xor, Little, Le32, AddrOk;
    if a.rom.Image? {
      LengthPositive(a.rom.addr, a.rom.len, ddr3);
      ImageHeard(a, rest, ddr3);
    } else {
      Deaf(a, rest, ddr3);
    }
  }

  lemma ImageOrNot(b: Board, line: seq<Heard>, ddr3: bool)
    requires b.rom == Header([])
    ensures HearsAll(b, line, ddr3).rom.Jumped? <==> ImageFollows(line, ddr3)
  {
    hide HearsAll, AllBytes, Bytes, Crc, Little, Le32, AddrOk, AfterHeader;
    HeaderHeard(b, line, ddr3);
    if |line| >= HEADER_BYTES && AllBytes(line[..HEADER_BYTES]) {
      var h := Bytes(line[..HEADER_BYTES]);
      assert [] + h == h;
      AfterHeaderHeard(b, h, line[HEADER_BYTES..], ddr3);
    }
  }

  /** On any line whatever the ROM jumps if and only if the line is one of these. */
  lemma JumpsExactly(mem: map<nat, byte>, sent: seq<byte>, line: seq<Heard>, ddr3: bool)
    ensures HearsAll(Board(Knock, mem, sent), line, ddr3).rom.Jumped? <==> Obeyed(line, ddr3)
  {
    hide ByteStep, Decide, ImageFollows;
    var b := Board(Knock, mem, sent);
    if line == [] {
    } else if line[0] == PROBE {
      var b' := Hears(b, line[0], ddr3);
      var rest := line[1..];
      SkipHeard(b', rest, ddr3);
      ImageOrNot(b'.(rom := Header([])), rest[LeadingProbes(rest)..], ddr3);
    } else {
      Deaf(Hears(b, line[0], ddr3), line[1..], ddr3);
    }
  }
}
