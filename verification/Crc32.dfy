/** The boot ROM's bit-at-a-time CRC-32, the table-driven one the host computes, and what errors it
    is sure to catch.  The word operations are named, so that a proof can treat them as algebra. */
module Crc32 {
  import opened Words

  const POLY: bv32 := 0xEDB88320
  const ONES: bv32 := 0xFFFF_FFFF

  // A byte widened to a word, bit by bit.
  function Join(b0: bool, b1: bool, b2: bool, b3: bool, b4: bool, b5: bool, b6: bool, b7: bool): bv32 {
    (if b0 then 0x01 else 0) | (if b1 then 0x02 else 0) | (if b2 then 0x04 else 0) | (if b3 then 0x08 else 0) |
    (if b4 then 0x10 else 0) | (if b5 then 0x20 else 0) | (if b6 then 0x40 else 0) | (if b7 then 0x80 else 0)
  }

  function Word(b: byte): bv32 {
    Join(b % 2 == 1, b / 2 % 2 == 1, b / 4 % 2 == 1, b / 8 % 2 == 1,
         b / 16 % 2 == 1, b / 32 % 2 == 1, b / 64 % 2 == 1, b / 128 == 1)
  }

  function Xor(x: bv32, y: bv32): bv32 { x ^ y }
  function Half(x: bv32): bv32 { x >> 1 }
  function LowByte(x: bv32): bv32 { x & 0xFF }
  function DropByte(x: bv32): bv32 { x >> 8 }
  predicate Odd(x: bv32) { x & 1 == 1 }

  // (crc >> 1) ^ (POLY & -(crc & 1))
  function BitStep(c: bv32): bv32 { Xor(Half(c), POLY & (0 - (c & 1))) }

  function Bits(c: bv32, k: nat): bv32 {
    if k == 0 then c else BitStep(Bits(c, k - 1))
  }

  function ByteStep(c: bv32, b: byte): bv32 { Bits(Xor(c, Word(b)), 8) }

  /** The checksum register after a run of bytes. */
  function Feed(c: bv32, data: seq<byte>): bv32 {
    if data == [] then c else ByteStep(Feed(c, data[..|data| - 1]), data[|data| - 1])
  }

  function Crc(data: seq<byte>): bv32 { Xor(Feed(ONES, data), ONES) }

  /** The ROM's loop. */
  method Crc32Step(crc: bv32, b: byte) returns (c: bv32)
    ensures c == ByteStep(crc, b)
  {
    hide Xor, Half, Word;
    c := Xor(crc, Word(b));
    var k := 0;
    while k < 8
      invariant 0 <= k <= 8 && c == Bits(Xor(crc, Word(b)), k)
    {
      c := Xor(Half(c), POLY & (0 - (c & 1)));
      k := k + 1;
    }
  }

  // ----- the CRC of section 8 of RFC 1952 -----

  // One step of make_crc_table.
  function TableBit(c: bv32): bv32 {
    if Odd(c) then Xor(POLY, Half(c)) else Half(c)
  }

  function TableBits(c: bv32, k: nat): bv32 {
    if k == 0 then c else TableBit(TableBits(c, k - 1))
  }

  function Table(n: bv32): bv32 { TableBits(n, 8) }

  // update_crc, byte by byte.
  function UpdateCrc(c: bv32, data: seq<byte>): bv32 {
    if data == [] then c
    else
      var d := UpdateCrc(c, data[..|data| - 1]);
      Xor(Table(LowByte(Xor(d, Word(data[|data| - 1])))), DropByte(d))
  }

  function Rfc1952Crc(data: seq<byte>): bv32 { Xor(UpdateCrc(Xor(0, ONES), data), ONES) }

  // ----- word algebra -----

  lemma XorAlgebra(p: bv32, a: bv32, b: bv32)
    ensures Xor(Xor(p, a), Xor(p, b)) == Xor(a, b)
    ensures Xor(p, Xor(a, b)) == Xor(Xor(p, a), b) == Xor(a, Xor(p, b))
  {
  }

  lemma XorUnit(x: bv32)
    ensures Xor(x, 0) == x == Xor(0, x)
  {
  }

  lemma XorCommutes(x: bv32, y: bv32)
    ensures Xor(x, y) == Xor(y, x)
  {
  }

  lemma XorCancels(x: bv32, y: bv32)
    ensures Xor(Xor(x, y), y) == x && Xor(y, Xor(y, x)) == x
  {
  }

  lemma HalfXor(x: bv32, y: bv32)
    ensures Half(Xor(x, y)) == Xor(Half(x), Half(y))
    ensures Odd(Xor(x, y)) <==> Odd(x) != Odd(y)
  {
  }

  lemma OddMask(c: bv32)
    requires c & 1 == 1
    ensures 0 - (c & 1) == ONES
  {
  }

  lemma FullMask(m: bv32)
    requires m == ONES
    ensures POLY & m == POLY
  {
  }

  lemma EvenMask(c: bv32)
    requires c & 1 != 1
    ensures POLY & (0 - (c & 1)) == 0
  {
    NotOdd(c);
    assert 0 - (c & 1) == 0;
  }

  lemma NotOdd(c: bv32)
    requires c & 1 != 1
    ensures c & 1 == 0
  {
  }

  /** The branch-free step is the table's branching one. */
  lemma SameBit(c: bv32)
    ensures BitStep(c) == TableBit(c)
  {
    if Odd(c) {
      OddMask(c);
      FullMask(0 - (c & 1));
      hide Xor, Half;
      XorCommutes(Half(c), POLY);
    } else {
      EvenMask(c);
      hide Xor, Half;
      XorUnit(Half(c));
    }
  }

  lemma {:induction false} SameBits(c: bv32, k: nat)
    ensures Bits(c, k) == TableBits(c, k)
  {
    hide BitStep, TableBit;
    if k > 0 { SameBits(c, k - 1); SameBit(TableBits(c, k - 1)); }
  }

  /** Each bit step is linear over XOR. */
  lemma BitLinear(x: bv32, y: bv32)
    ensures BitStep(Xor(x, y)) == Xor(BitStep(x), BitStep(y))
  {
    hide Xor, Half, Odd, BitStep;
    SameBit(x);
    SameBit(y);
    SameBit(Xor(x, y));
    HalfXor(x, y);
    XorAlgebra(POLY, Half(x), Half(y));
  }

  lemma {:induction false} BitsLinear(x: bv32, y: bv32, k: nat)
    ensures Bits(Xor(x, y), k) == Xor(Bits(x, k), Bits(y, k))
  {
    hide BitStep, Xor;
    if k > 0 { BitsLinear(x, y, k - 1); BitLinear(Bits(x, k - 1), Bits(y, k - 1)); }
  }

  lemma EvenStep(v: bv32)
    requires !Odd(v)
    ensures BitStep(v) == Half(v)
  {
    hide Half, BitStep, Odd;
    SameBit(v);
  }

  // ----- eight steps at a time -----

  lemma EvenBits(v: bv32)
    requires v & 0xFF == 0
    ensures !Odd(v) && !Odd(v >> 1) && !Odd(v >> 2) && !Odd(v >> 3)
    ensures !Odd(v >> 4) && !Odd(v >> 5) && !Odd(v >> 6) && !Odd(v >> 7)
  {
  }

  lemma Halvings(v: bv32)
    ensures Half(v) == v >> 1 && Half(v >> 1) == v >> 2 && Half(v >> 2) == v >> 3 && Half(v >> 3) == v >> 4
    ensures Half(v >> 4) == v >> 5 && Half(v >> 5) == v >> 6 && Half(v >> 6) == v >> 7 && Half(v >> 7) == v >> 8
  {
  }

  /** Eight steps only shift a word whose low byte is clear. */
  lemma ShiftByte(v: bv32)
    requires v & 0xFF == 0
    ensures Bits(v, 8) == v >> 8
  {
    EvenBits(v);
    Halvings(v);
    hide Odd, Half, BitStep;
    EvenStep(v); EvenStep(v >> 1); EvenStep(v >> 2); EvenStep(v >> 3);
    EvenStep(v >> 4); EvenStep(v >> 5); EvenStep(v >> 6); EvenStep(v >> 7);
    assert Bits(v, 0) == v;
    assert Bits(v, 1) == v >> 1;
    assert Bits(v, 2) == v >> 2;
    assert Bits(v, 3) == v >> 3;
    assert Bits(v, 4) == v >> 4;
    assert Bits(v, 5) == v >> 5;
    assert Bits(v, 6) == v >> 6;
    assert Bits(v, 7) == v >> 7;
  }

  function HighBytes(x: bv32): bv32 { x & 0xFFFF_FF00 }

  lemma SplitLow(x: bv32)
    ensures x == Xor(LowByte(x), HighBytes(x)) && HighBytes(x) & 0xFF == 0 && HighBytes(x) >> 8 == DropByte(x)
  {
  }

  lemma DropWord(c: bv32, b: byte)
    ensures DropByte(Xor(c, Word(b))) == DropByte(c)
  {
    WordIsAByte(b);
    DropSmall(c, Word(b));
  }

  lemma DropSmall(c: bv32, w: bv32)
    requires w & 0xFF == w
    ensures DropByte(Xor(c, w)) == DropByte(c)
  {
  }

  lemma JoinIsAByte(b0: bool, b1: bool, b2: bool, b3: bool, b4: bool, b5: bool, b6: bool, b7: bool)
    ensures var w := Join(b0, b1, b2, b3, b4, b5, b6, b7);
            && w & 0xFF == w
            && (b0 <==> w & 0x01 != 0) && (b1 <==> w & 0x02 != 0) && (b2 <==> w & 0x04 != 0) && (b3 <==> w & 0x08 != 0)
            && (b4 <==> w & 0x10 != 0) && (b5 <==> w & 0x20 != 0) && (b6 <==> w & 0x40 != 0) && (b7 <==> w & 0x80 != 0)
  {
  }

  lemma WordIsAByte(b: byte)
    ensures Word(b) & 0xFF == Word(b)
  {
    hide Join;
    JoinIsAByte(b % 2 == 1, b / 2 % 2 == 1, b / 4 % 2 == 1, b / 8 % 2 == 1,
                b / 16 % 2 == 1, b / 32 % 2 == 1, b / 64 % 2 == 1, b / 128 == 1);
  }

  lemma ByteStepIsTableStep(c: bv32, b: byte)
    ensures ByteStep(c, b) == Xor(Table(LowByte(Xor(c, Word(b)))), DropByte(c))
  {
    var x := Xor(c, Word(b));
    SplitLow(x);
    DropWord(c, b);
    ShiftByte(HighBytes(x));
    hide Xor, LowByte, HighBytes, DropByte, Bits, TableBits, Word;
    BitsLinear(LowByte(x), HighBytes(x), 8);
    SameBits(LowByte(x), 8);
  }

  lemma {:induction false} FeedIsUpdate(c: bv32, data: seq<byte>)
    ensures Feed(c, data) == UpdateCrc(c, data)
  {
    hide ByteStep, Xor, LowByte, DropByte, Table, Word;
    if data != [] {
      var front := data[..|data| - 1];
      FeedIsUpdate(c, front);
      ByteStepIsTableStep(Feed(c, front), data[|data| - 1]);
    }
  }

  /** The ROM's CRC is the one the host computes. */
  lemma MatchesRfc1952(data: seq<byte>)
    ensures Crc(data) == Rfc1952Crc(data)
  {
    hide Feed, UpdateCrc, Xor;
    XorUnit(ONES);
    FeedIsUpdate(ONES, data);
  }

  // ----- detection -----

  /** Each bit step is a bijection on 32-bit states, with this inverse. */
  function Unstep(r: bv32): bv32 {
    if r & 0x8000_0000 != 0 then (Xor(r, POLY) << 1) | 1 else r << 1
  }

  lemma UndoEven(c: bv32)
    requires !Odd(c)
    ensures Unstep(Half(c)) == c
  {
    assert Half(c) & 0x8000_0000 == 0;
  }

  lemma UndoOdd(c: bv32)
    requires Odd(c)
    ensures Unstep(Xor(POLY, Half(c))) == c
  {
    TopBit(Half(c));
    XorCommutes(POLY, Half(c));
    XorCancels(Half(c), POLY);
    Rejoin(c);
  }

  lemma TopBit(h: bv32)
    requires h & 0x8000_0000 == 0
    ensures Xor(POLY, h) & 0x8000_0000 != 0
  {
  }

  lemma Rejoin(c: bv32)
    requires Odd(c)
    ensures (Half(c) << 1) | 1 == c
  {
  }

  lemma RedoLow(c: bv32)
    requires c & 0x8000_0000 == 0
    ensures !Odd(c << 1) && Half(c << 1) == c
  {
  }

  lemma RedoHigh(c: bv32)
    requires c & 0x8000_0000 != 0
    ensures Odd((Xor(c, POLY) << 1) | 1) && Xor(POLY, Half((Xor(c, POLY) << 1) | 1)) == c
  {
  }

  lemma StepBijective(c: bv32)
    ensures Unstep(BitStep(c)) == c && BitStep(Unstep(c)) == c
  {
    SameBit(c);
    SameBit(Unstep(c));
    hide BitStep, Xor, Half, Odd;
    if Odd(c) { UndoOdd(c); } else { UndoEven(c); }
    if c & 0x8000_0000 == 0 { RedoLow(c); } else { RedoHigh(c); }
  }

  lemma {:induction false} BitsInjective(x: bv32, y: bv32, k: nat)
    requires Bits(x, k) == Bits(y, k)
    ensures x == y
  {
    hide BitStep, Unstep;
    if k > 0 {
      StepBijective(Bits(x, k - 1));
      StepBijective(Bits(y, k - 1));
      BitsInjective(x, y, k - 1);
    }
  }

  lemma {:induction false} FeedSplit(c: bv32, a: seq<byte>, b: seq<byte>)
    ensures Feed(c, a + b) == Feed(Feed(c, a), b)
  {
    hide ByteStep;
    if b == [] {
      assert a + b == a;
    } else {
      var front := b[..|b| - 1];
      assert (a + b)[..|a + b| - 1] == a + front;
      FeedSplit(c, a, front);
    }
  }

  // Byte number n of a little-endian word.
  function Up(w: bv32, n: nat): bv32
    requires n < 4
  {
    if n == 0 then w else if n == 1 then w << 8 else if n == 2 then w << 16 else w << 24
  }

  /** Up to four bytes as a little-endian word: how the ROM reads the checksum in a header. */
  function Little(w: seq<byte>): bv32
    requires |w| <= 4
  {
    if |w| == 0 then 0 else Xor(Little(w[..|w| - 1]), Up(Word(w[|w| - 1]), |w| - 1))
  }

  // ----- bit by bit -----

  function BitWord(b: bool): bv32 { if b then 1 else 0 }

  /** The register after a run of message bits. */
  function FeedBits(c: bv32, bits: seq<bool>): bv32
    decreases |bits|
  {
    if bits == [] then c else FeedBits(BitStep(Xor(c, BitWord(bits[0]))), bits[1..])
  }

  /** Low bit first, the order in which the register takes them. */
  function BitsOf(b: byte): (bits: seq<bool>)
    ensures |bits| == 8
  {
    [b % 2 == 1, b / 2 % 2 == 1, b / 4 % 2 == 1, b / 8 % 2 == 1,
     b / 16 % 2 == 1, b / 32 % 2 == 1, b / 64 % 2 == 1, b / 128 == 1]
  }

  function AllBits(data: seq<byte>): (bits: seq<bool>)
    ensures |bits| == 8 * |data|
  {
    if data == [] then [] else AllBits(data[..|data| - 1]) + BitsOf(data[|data| - 1])
  }

  lemma {:induction false} FeedBitsSplit(c: bv32, a: seq<bool>, b: seq<bool>)
    ensures FeedBits(c, a + b) == FeedBits(FeedBits(c, a), b)
    decreases |a|
  {
    hide BitStep, Xor, BitWord;
    if a == [] {
      assert a + b == b;
    } else {
      assert (a + b)[1..] == a[1..] + b;
      FeedBitsSplit(BitStep(Xor(c, BitWord(a[0]))), a[1..], b);
    }
  }

  lemma {:induction false} FeedInjective(c: bv32, d: bv32, bits: seq<bool>)
    requires FeedBits(c, bits) == FeedBits(d, bits)
    ensures c == d
    decreases |bits|
  {
    hide BitStep, Unstep, Xor, BitWord;
    if bits != [] {
      var w := BitWord(bits[0]);
      FeedInjective(BitStep(Xor(c, w)), BitStep(Xor(d, w)), bits[1..]);
      StepBijective(Xor(c, w));
      StepBijective(Xor(d, w));
      XorCancels(c, w);
      XorCancels(d, w);
    }
  }

  // ----- up to 32 bits as one word -----

  function Double(w: bv32): bv32 { w << 1 }

  /** The top n bits are clear. */
  predicate Clear(w: bv32, n: nat)
    decreases n
  {
    n == 0 || (w & 0x8000_0000 == 0 && Clear(Double(w), n - 1))
  }

  function Packed(bits: seq<bool>): bv32 {
    if bits == [] then 0 else Xor(BitWord(bits[0]), Double(Packed(bits[1..])))
  }

  lemma XorTop(x: bv32, y: bv32)
    requires x & 0x8000_0000 == 0 && y & 0x8000_0000 == 0
    ensures Xor(x, y) & 0x8000_0000 == 0
  {
  }

  lemma DoubleXor(x: bv32, y: bv32)
    ensures Double(Xor(x, y)) == Xor(Double(x), Double(y))
  {
  }

  lemma {:induction false} XorClear(x: bv32, y: bv32, n: nat)
    requires Clear(x, n) && Clear(y, n)
    ensures Clear(Xor(x, y), n)
    decreases n
  {
    hide Xor, Double;
    if n > 0 {
      XorTop(x, y);
      DoubleXor(x, y);
      XorClear(Double(x), Double(y), n - 1);
    }
  }

  lemma {:induction false} FewerClear(x: bv32, m: nat, n: nat)
    requires Clear(x, n) && m <= n
    ensures Clear(x, m)
    decreases n
  {
    hide Double;
    if m > 0 { FewerClear(Double(x), m - 1, n - 1); }
  }

  lemma {:induction false} NoneSet(n: nat)
    ensures Clear(0, n)
  {
    if n > 0 { NoneSet(n - 1); }
  }

  lemma OneClear()
    ensures Clear(1, 31)
  {
    assert Clear(0x1000_0000, 3);
    assert Clear(0x0100_0000, 7);
    assert Clear(0x0010_0000, 11);
    assert Clear(0x0001_0000, 15);
    assert Clear(0x0000_1000, 19);
    assert Clear(0x0000_0100, 23);
    assert Clear(0x0000_0010, 27);
  }

  lemma {:induction false} PackedClear(bits: seq<bool>)
    requires |bits| <= 32
    ensures Clear(Packed(bits), 32 - |bits|)
  {
    if bits == [] {
      NoneSet(32);
    } else {
      var n := 32 - |bits|;
      OneClear();
      FewerClear(1, n, 31);
      NoneSet(n);
      hide Xor, Double;
      PackedClear(bits[1..]);
      XorClear(BitWord(bits[0]), Double(Packed(bits[1..])), n);
    }
  }

  lemma HalfOfDouble(w: bv32)
    requires w & 0x8000_0000 == 0
    ensures Half(Double(w)) == w && !Odd(Double(w))
  {
  }

  lemma LowBit(b: bool, w: bv32)
    ensures Odd(Xor(BitWord(b), Double(w))) <==> b
  {
  }

  // One step takes the first bit in and moves the others down.
  lemma StepPacked(c: bv32, bits: seq<bool>)
    requires 0 < |bits| <= 32
    ensures BitStep(Xor(c, Packed(bits))) == Xor(BitStep(Xor(c, BitWord(bits[0]))), Packed(bits[1..]))
  {
    var w, p := BitWord(bits[0]), Packed(bits[1..]);
    PackedClear(bits[1..]);
    HalfOfDouble(p);
    hide Xor, Half, Odd, BitStep, Double, BitWord;
    EvenStep(Double(p));
    XorAlgebra(c, w, Double(p));
    BitLinear(Xor(c, w), Double(p));
  }

  lemma {:induction false} BitsFirst(c: bv32, k: nat)
    requires k > 0
    ensures Bits(c, k) == Bits(BitStep(c), k - 1)
  {
    hide BitStep;
    if k > 1 { BitsFirst(c, k - 1); }
  }

  /** Up to 32 message bits are that many bit steps on the state XOR the word of those bits. */
  lemma {:induction false} FeedIsWordSteps(c: bv32, bits: seq<bool>)
    requires |bits| <= 32
    ensures FeedBits(c, bits) == Bits(Xor(c, Packed(bits)), |bits|)
    decreases |bits|
  {
    if bits == [] {
      XorUnit(c);
      assert Bits(c, 0) == c;
    } else {
      hide Xor, BitStep, Packed, BitWord;
      FeedIsWordSteps(BitStep(Xor(c, BitWord(bits[0]))), bits[1..]);
      StepPacked(c, bits);
      BitsFirst(Xor(c, Packed(bits)), |bits|);
    }
  }

  // The first bit and the rest can be read off the word.
  lemma Unpacked(bits: seq<bool>)
    requires 0 < |bits| <= 32
    ensures bits[0] <==> Odd(Packed(bits))
    ensures Packed(bits[1..]) == Half(Xor(BitWord(bits[0]), Packed(bits)))
  {
    var p := Packed(bits[1..]);
    LowBit(bits[0], p);
    PackedClear(bits[1..]);
    HalfOfDouble(p);
    hide Xor, Half, Odd, Double, BitWord;
    XorCancels(Double(p), BitWord(bits[0]));
  }

  lemma {:induction false} PackedInjective(a: seq<bool>, b: seq<bool>)
    requires |a| == |b| <= 32 && Packed(a) == Packed(b)
    ensures a == b
    decreases |a|
  {
    if a != [] {
      hide *;
      Unpacked(a);
      Unpacked(b);
      PackedInjective(a[1..], b[1..]);
      assert a == [a[0]] + a[1..] && b == [b[0]] + b[1..];
    }
  }

  // ----- bytes are bits -----

  lemma PackedMore(b: bool, rest: seq<bool>)
    ensures Packed([]) == 0 && Packed([b] + rest) == Xor(BitWord(b), Double(Packed(rest)))
  {
    assert ([b] + rest)[1..] == rest;
  }

  // A byte of bits, innermost last.
  function Nested(b0: bool, b1: bool, b2: bool, b3: bool, w: bv32): bv32 {
    Xor(BitWord(b0), Double(Xor(BitWord(b1), Double(Xor(BitWord(b2), Double(Xor(BitWord(b3), Double(w))))))))
  }

  lemma NestedIsJoin(b0: bool, b1: bool, b2: bool, b3: bool, b4: bool, b5: bool, b6: bool, b7: bool)
    ensures Nested(b0, b1, b2, b3, Nested(b4, b5, b6, b7, 0)) == Join(b0, b1, b2, b3, b4, b5, b6, b7)
  {
  }

  lemma PackedFour(b0: bool, b1: bool, b2: bool, b3: bool, rest: seq<bool>)
    ensures Packed([b0, b1, b2, b3] + rest) == Nested(b0, b1, b2, b3, Packed(rest))
  {
    PackedMore(b3, rest);
    PackedMore(b2, [b3] + rest);
    PackedMore(b1, [b2] + ([b3] + rest));
    PackedMore(b0, [b1] + ([b2] + ([b3] + rest)));
    assert [b0, b1, b2, b3] + rest == [b0] + ([b1] + ([b2] + ([b3] + rest)));
    hide Packed, Xor, Double, BitWord;
  }

  lemma PackedEight(b0: bool, b1: bool, b2: bool, b3: bool, b4: bool, b5: bool, b6: bool, b7: bool)
    ensures Packed([b0, b1, b2, b3, b4, b5, b6, b7]) == Join(b0, b1, b2, b3, b4, b5, b6, b7)
  {
    hide *;
    PackedMore(b0, []);
    PackedFour(b4, b5, b6, b7, []);
    PackedFour(b0, b1, b2, b3, [b4, b5, b6, b7]);
    NestedIsJoin(b0, b1, b2, b3, b4, b5, b6, b7);
    assert [b4, b5, b6, b7] + [] == [b4, b5, b6, b7];
    assert [b0, b1, b2, b3] + [b4, b5, b6, b7] == [b0, b1, b2, b3, b4, b5, b6, b7];
  }

  lemma ByteStepIsBits(c: bv32, b: byte)
    ensures ByteStep(c, b) == FeedBits(c, BitsOf(b))
  {
    FeedIsWordSteps(c, BitsOf(b));
    PackedEight(b % 2 == 1, b / 2 % 2 == 1, b / 4 % 2 == 1, b / 8 % 2 == 1,
                b / 16 % 2 == 1, b / 32 % 2 == 1, b / 64 % 2 == 1, b / 128 == 1);
    hide Packed, Join, Bits, Xor, FeedBits;
  }

  lemma {:induction false} FeedIsBits(c: bv32, data: seq<byte>)
    ensures Feed(c, data) == FeedBits(c, AllBits(data))
  {
    if data != [] {
      hide ByteStep, FeedBits, BitsOf;
      var front, last := data[..|data| - 1], data[|data| - 1];
      FeedIsBits(c, front);
      ByteStepIsBits(Feed(c, front), last);
      FeedBitsSplit(c, AllBits(front), BitsOf(last));
    }
  }

  lemma SameSum(x: byte, y: byte)
    requires (x % 2 == 1 <==> y % 2 == 1) && (x / 2 % 2 == 1 <==> y / 2 % 2 == 1)
    requires (x / 4 % 2 == 1 <==> y / 4 % 2 == 1) && (x / 8 % 2 == 1 <==> y / 8 % 2 == 1)
    requires (x / 16 % 2 == 1 <==> y / 16 % 2 == 1) && (x / 32 % 2 == 1 <==> y / 32 % 2 == 1)
    requires (x / 64 % 2 == 1 <==> y / 64 % 2 == 1) && (x / 128 == 1 <==> y / 128 == 1)
    ensures x == y
  {
    Quotients(x);
    Quotients(y);
    SameHalf(x / 64, y / 64);
    SameHalf(x / 32, y / 32);
    SameHalf(x / 16, y / 16);
    SameHalf(x / 8, y / 8);
    SameHalf(x / 4, y / 4);
    SameHalf(x / 2, y / 2);
    SameHalf(x, y);
  }

  lemma SameHalf(x: nat, y: nat)
    requires x / 2 == y / 2 && (x % 2 == 1 <==> y % 2 == 1)
    ensures x == y
  {
  }

  lemma Quotients(x: byte)
    ensures x / 2 / 2 == x / 4 && x / 4 / 2 == x / 8 && x / 8 / 2 == x / 16 && x / 16 / 2 == x / 32
    ensures x / 32 / 2 == x / 64 && x / 64 / 2 == x / 128 && 0 <= x / 128 < 2
  {
  }

  lemma SameBitsOf(x: byte, y: byte)
    requires BitsOf(x) == BitsOf(y)
    ensures x == y
  {
    var u, v := BitsOf(x), BitsOf(y);
    assert u[0] == v[0] && u[1] == v[1] && u[2] == v[2] && u[3] == v[3];
    assert u[4] == v[4] && u[5] == v[5] && u[6] == v[6] && u[7] == v[7];
    SameSum(x, y);
  }

  lemma LastByte(u: seq<byte>)
    requires u != []
    ensures var n := |u| - 1;
            AllBits(u)[..8 * n] == AllBits(u[..n]) && AllBits(u)[8 * n..] == BitsOf(u[n])
  {
    hide BitsOf;
  }

  lemma {:induction false} AllBitsInjective(u: seq<byte>, v: seq<byte>)
    requires AllBits(u) == AllBits(v)
    ensures u == v
  {
    assert |u| == |v|;
    if u != [] {
      hide BitsOf, AllBits;
      var n := |u| - 1;
      LastByte(u);
      LastByte(v);
      AllBitsInjective(u[..n], v[..n]);
      SameBitsOf(u[n], v[n]);
      assert u == u[..n] + [u[n]] && v == v[..n] + [v[n]];
    }
  }

  // ----- bursts -----

  const BURST := 32

  ghost predicate AgreeOutside<T>(a: seq<T>, b: seq<T>, k: int, n: nat)
    requires |a| == |b|
  {
    forall i :: 0 <= i < |a| && !(k <= i < k + n) ==> a[i] == b[i]
  }

  /** Two images of one length that agree outside some 32 consecutive bits, in the order in which they are sent. */
  ghost predicate DifferInBurst(u: seq<byte>, v: seq<byte>) {
    |u| == |v| && exists k :: 0 <= k <= 8 * |u| && AgreeOutside(AllBits(u), AllBits(v), k, BURST)
  }

  /** A corruption confined to 32 consecutive bits never keeps the checksum. */
  lemma BurstDetected(u: seq<byte>, v: seq<byte>)
    requires DifferInBurst(u, v)
    ensures Crc(u) == Crc(v) <==> u == v
  {
    hide Feed, FeedBits, Xor, AllBits;
    if Crc(u) == Crc(v) {
      var a, b := AllBits(u), AllBits(v);
      XorCancels(Feed(ONES, u), ONES);
      XorCancels(Feed(ONES, v), ONES);
      FeedIsBits(ONES, u);
      FeedIsBits(ONES, v);
      var k :| 0 <= k <= |a| && AgreeOutside(a, b, k, BURST);
      var m := if k + BURST <= |a| then k + BURST else |a|;
      assert a[..k] == b[..k] && a[m..] == b[m..];
      WindowsEqual(a, b, k, m);
      assert a == a[..k] + a[k..m] + a[m..] && b == b[..k] + b[k..m] + b[m..];
      AllBitsInjective(u, v);
    }
  }

  lemma WindowsEqual(a: seq<bool>, b: seq<bool>, k: nat, m: nat)
    requires |a| == |b| && k <= m <= |a| && m - k <= 32 && a[..k] == b[..k] && a[m..] == b[m..]
    requires FeedBits(ONES, a) == FeedBits(ONES, b)
    ensures a[k..m] == b[k..m]
  {
    hide FeedBits, Bits, Packed, Xor;
    var c, x, y := FeedBits(ONES, a[..k]), a[k..m], b[k..m];
    Windows(a, k, m);
    Windows(b, k, m);
    FeedInjective(FeedBits(c, x), FeedBits(c, y), a[m..]);
    FeedIsWordSteps(c, x);
    FeedIsWordSteps(c, y);
    BitsInjective(Xor(c, Packed(x)), Xor(c, Packed(y)), m - k);
    XorCancels(Packed(x), c);
    XorCancels(Packed(y), c);
    PackedInjective(x, y);
  }

  lemma Windows(a: seq<bool>, k: nat, m: nat)
    requires k <= m <= |a|
    ensures FeedBits(ONES, a) == FeedBits(FeedBits(FeedBits(ONES, a[..k]), a[k..m]), a[m..])
  {
    hide FeedBits;
    assert a == a[..m] + a[m..] && a[..m] == a[..k] + a[k..m];
    FeedBitsSplit(ONES, a[..m], a[m..]);
    FeedBitsSplit(ONES, a[..k], a[k..m]);
  }

  /** Four consecutive bytes are such a burst. */
  lemma FourBytesAreABurst(u: seq<byte>, v: seq<byte>, k: nat)
    requires |u| == |v| && k <= |u| && AgreeOutside(u, v, k, 4)
    ensures DifferInBurst(u, v)
  {
    var a, b := AllBits(u), AllBits(v);
    forall i | 0 <= i < |a| && !(8 * k <= i < 8 * k + BURST) ensures a[i] == b[i] {
      BitAt(u, i);
      BitAt(v, i);
    }
    assert AgreeOutside(a, b, 8 * k, BURST);
  }

  lemma {:induction false} BitAt(u: seq<byte>, i: nat)
    requires i < 8 * |u|
    ensures AllBits(u)[i] == BitsOf(u[i / 8])[i % 8]
  {
    hide BitsOf;
    var n := |u| - 1;
    if i < 8 * n { BitAt(u[..n], i); }
  }
}
