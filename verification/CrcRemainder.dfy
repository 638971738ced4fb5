/** Which CRC it is: the remainder of the message modulo the polynomial of section 8.1.1.6.2 of ITU-T V.42, by long
    division over the two-element field, and its value on one message. */
module CrcRemainder {
  import opened Words
  import opened Crc32

  // ----- long division -----

  /** The coefficients of the generator below x^32, highest power first. */
  function Generator(): (g: seq<bool>)
    ensures |g| == 32
  {
    seq(32, i => 31 - i in {26, 23, 22, 16, 12, 11, 10, 8, 7, 5, 4, 2, 1, 0})
  }

  function XorBits(a: seq<bool>, b: seq<bool>): (c: seq<bool>)
    requires |a| == |b|
    ensures |c| == |a|
  {
    seq(|a|, i requires 0 <= i < |a| => a[i] != b[i])
  }

  /** The remainder of a polynomial, its coefficients given highest power first: while there are more than 32, the
      generator is subtracted if the highest is one, and the highest dropped. */
  function Remainder(p: seq<bool>): (r: seq<bool>)
    requires |p| >= 32
    ensures |r| == 32
    decreases |p|
  {
    if |p| == 32 then p
    else Remainder((if p[0] then XorBits(p[1..33], Generator()) else p[1..33]) + p[33..])
  }

  function Zeros(n: nat): (z: seq<bool>)
    ensures |z| == n
  {
    seq(n, _ => false)
  }

  /** The message times x^32, with a register added to its 32 highest coefficients. */
  function Dividend(register: seq<bool>, message: seq<bool>): (p: seq<bool>)
    requires |register| == 32
    ensures |p| == |message| + 32
  {
    XorBits(message + Zeros(32), register + Zeros(|message|))
  }

  // ----- the register as coefficients -----

  /** The low n bits of a word, lowest first. */
  function Coefficients(w: bv32, n: nat): (s: seq<bool>)
    ensures |s| == n
    decreases n
  {
    if n == 0 then [] else [Odd(w)] + Coefficients(Half(w), n - 1)
  }

  function Halves(w: bv32, n: nat): bv32
    decreases n
  {
    if n == 0 then w else Halves(Half(w), n - 1)
  }

  lemma {:induction false} CoefficientsXor(x: bv32, y: bv32, n: nat)
    ensures Coefficients(Xor(x, y), n) == XorBits(Coefficients(x, n), Coefficients(y, n))
    decreases n
  {
    hide Xor, Half, Odd;
    if n > 0 {
      HalfXor(x, y);
      CoefficientsXor(Half(x), Half(y), n - 1);
    }
  }

  lemma {:induction false} CoefficientsSnoc(w: bv32, n: nat)
    ensures Coefficients(w, n + 1) == Coefficients(w, n) + [Odd(Halves(w, n))]
    decreases n
  {
    hide Half, Odd;
    if n > 0 {
      CoefficientsSnoc(Half(w), n - 1);
      assert [Odd(w)] + (Coefficients(Half(w), n - 1) + [Odd(Halves(w, n))])
          == [Odd(w)] + Coefficients(Half(w), n - 1) + [Odd(Halves(w, n))];
    }
  }

  lemma {:induction false} HalvesAdd(w: bv32, m: nat, n: nat)
    ensures Halves(w, m + n) == Halves(Halves(w, m), n)
    decreases m
  {
    hide Half;
    if m > 0 { HalvesAdd(Half(w), m - 1, n); }
  }

  lemma EightHalves(w: bv32)
    ensures Halves(w, 8) == DropByte(w)
  {
    Halvings(w);
    hide Half;
    assert Halves(w >> 8, 0) == w >> 8;
    assert Halves(w >> 7, 1) == w >> 8;
    assert Halves(w >> 6, 2) == w >> 8;
    assert Halves(w >> 5, 3) == w >> 8;
    assert Halves(w >> 4, 4) == w >> 8;
    assert Halves(w >> 3, 5) == w >> 8;
    assert Halves(w >> 2, 6) == w >> 8;
    assert Halves(w >> 1, 7) == w >> 8;
  }

  lemma AllGone(w: bv32)
    ensures DropByte(DropByte(DropByte(DropByte(w)))) == 0 && !Odd(0)
  {}

  lemma ThirtyTwoHalves(w: bv32)
    ensures !Odd(Halves(Half(w), 31))
  {
    assert Halves(w, 32) == Halves(Half(w), 31);
    hide *;
    AllGone(w);
    HalvesAdd(w, 8, 24);
    HalvesAdd(DropByte(w), 8, 16);
    HalvesAdd(DropByte(DropByte(w)), 8, 8);
    EightHalves(w);
    EightHalves(DropByte(w));
    EightHalves(DropByte(DropByte(w)));
    EightHalves(DropByte(DropByte(DropByte(w))));
  }

  /** Halving a register drops its first coefficient. */
  lemma HalfShifts(w: bv32)
    ensures Coefficients(Half(w), 32) == Coefficients(w, 32)[1..] + [false]
  {
    ThirtyTwoHalves(w);
    CoefficientsSnoc(Half(w), 31);
    hide Half, Odd;
  }

  /** The four lowest bits of a word, lowest first. */
  function Nibble(w: bv32): (s: seq<bool>)
    ensures |s| == 4
  {
    [w & 1 == 1, w & 2 == 2, w & 4 == 4, w & 8 == 8]
  }

  function DropNibble(w: bv32): bv32 { w >> 4 }

  lemma FourHalves(w: bv32)
    ensures Half(Half(Half(Half(w)))) == DropNibble(w)
    ensures Nibble(w) == [Odd(w), Odd(Half(w)), Odd(Half(Half(w))), Odd(Half(Half(Half(w))))]
  {}

  lemma FourCoefficients(w: bv32, n: nat)
    ensures Coefficients(w, n + 4) == Nibble(w) + Coefficients(DropNibble(w), n)
  {
    hide *;
    var w1, w2, w3 := Half(w), Half(Half(w)), Half(Half(Half(w)));
    FourHalves(w);
    OneCoefficient(w, n + 3);
    OneCoefficient(w1, n + 2);
    OneCoefficient(w2, n + 1);
    OneCoefficient(w3, n);
    var rest := Coefficients(Half(w3), n);
    assert [Odd(w)] + ([Odd(w1)] + ([Odd(w2)] + ([Odd(w3)] + rest))) == [Odd(w), Odd(w1), Odd(w2), Odd(w3)] + rest;
  }

  lemma OneCoefficient(w: bv32, n: nat)
    ensures Coefficients(w, n + 1) == [Odd(w)] + Coefficients(Half(w), n)
  {}

  /** Four groups, and the rest. */
  function Groups(a: seq<bool>, b: seq<bool>, c: seq<bool>, d: seq<bool>, rest: seq<bool>): seq<bool> {
    a + (b + (c + (d + rest)))
  }

  lemma SixteenCoefficients(w0: bv32, w1: bv32, w2: bv32, w3: bv32, w4: bv32, n: nat)
    requires DropNibble(w0) == w1 && DropNibble(w1) == w2 && DropNibble(w2) == w3 && DropNibble(w3) == w4
    ensures Coefficients(w0, n + 16) == Groups(Nibble(w0), Nibble(w1), Nibble(w2), Nibble(w3), Coefficients(w4, n))
  {
    FourCoefficients(w0, n + 12);
    FourCoefficients(w1, n + 8);
    FourCoefficients(w2, n + 4);
    FourCoefficients(w3, n);
    hide Coefficients, Nibble, DropNibble;
  }

  lemma PolyNibbles()
    ensures Nibble(0xEDB8_8320) == [false, false, false, false] && DropNibble(0xEDB8_8320) == 0x0EDB_8832
    ensures Nibble(0x0EDB_8832) == [false, true, false, false] && DropNibble(0x0EDB_8832) == 0x00ED_B883
    ensures Nibble(0x00ED_B883) == [true, true, false, false] && DropNibble(0x00ED_B883) == 0x000E_DB88
    ensures Nibble(0x000E_DB88) == [false, false, false, true] && DropNibble(0x000E_DB88) == 0x0000_EDB8
    ensures Nibble(0x0000_EDB8) == [false, false, false, true] && DropNibble(0x0000_EDB8) == 0x0000_0EDB
    ensures Nibble(0x0000_0EDB) == [true, true, false, true] && DropNibble(0x0000_0EDB) == 0x0000_00ED
    ensures Nibble(0x0000_00ED) == [true, false, true, true] && DropNibble(0x0000_00ED) == 0x0000_000E
    ensures Nibble(0x0000_000E) == [false, true, true, true] && DropNibble(0x0000_000E) == 0x0000_0000
  {}

  lemma PolyCoefficients()
    ensures Coefficients(POLY, 32)
         == Groups([false, false, false, false], [false, true, false, false],
                   [true, true, false, false], [false, false, false, true],
                   Groups([false, false, false, true], [true, true, false, true],
                          [true, false, true, true], [false, true, true, true], []))
  {
    PolyNibbles();
    SixteenCoefficients(0xEDB8_8320, 0x0EDB_8832, 0x00ED_B883, 0x000E_DB88, 0x0000_EDB8, 16);
    SixteenCoefficients(0x0000_EDB8, 0x0000_0EDB, 0x0000_00ED, 0x0000_000E, 0x0000_0000, 0);
    assert Coefficients(0, 0) == [];
    hide Coefficients, Nibble, DropNibble, Groups;
  }

  lemma GeneratorGroups()
    ensures Generator()
         == Groups([false, false, false, false], [false, true, false, false],
                   [true, true, false, false], [false, false, false, true],
                   Groups([false, false, false, true], [true, true, false, true],
                          [true, false, true, true], [false, true, true, true], []))
  {}

  /** The ROM's constant is the generator, its highest coefficient in bit 0. */
  lemma PolyIsGenerator()
    ensures Coefficients(POLY, 32) == Generator()
  {
    PolyCoefficients();
    GeneratorGroups();
    hide Coefficients, Generator, Groups;
  }

  // ----- the register divides -----

  function Shifted(register: seq<bool>): (r: seq<bool>)
    requires |register| == 32
    ensures |r| == 32
  {
    register[1..] + [false]
  }

  lemma FirstBitOnly(c: bv32, m: bool)
    ensures Half(Xor(c, BitWord(m))) == Half(c) && (Odd(Xor(c, BitWord(m))) <==> Odd(c) != m)
  {}

  /** What a step does to the coefficients. */
  lemma RegisterSteps(c: bv32, m: bool)
    ensures var r := Shifted(Coefficients(c, 32));
            Coefficients(BitStep(Xor(c, BitWord(m))), 32) == if Odd(c) != m then XorBits(Generator(), r) else r
  {
    var x := Xor(c, BitWord(m));
    SameBit(x);
    FirstBitOnly(c, m);
    HalfShifts(c);
    PolyIsGenerator();
    CoefficientsXor(POLY, Half(c), 32);
    hide Xor, Half, Odd, BitStep, Coefficients, Generator, XorBits, BitWord;
  }

  /** What one turn of the division does to the dividend. */
  lemma DividendSteps(register: seq<bool>, message: seq<bool>)
    requires |register| == 32 && message != []
    ensures var p := Dividend(register, message);
            var r := Shifted(register);
            && (p[0] <==> register[0] != message[0])
            && (if p[0] then XorBits(p[1..33], Generator()) else p[1..33]) + p[33..]
               == Dividend(if p[0] then XorBits(Generator(), r) else r, message[1..])
  {
    hide Generator;
    var p, r, g := Dividend(register, message), Shifted(register), Generator();
    var next := (if p[0] then XorBits(p[1..33], g) else p[1..33]) + p[33..];
    var want := Dividend(if p[0] then XorBits(g, r) else r, message[1..]);
    forall i | 0 <= i < |want| ensures next[i] == want[i] {
      assert (message + Zeros(32))[i + 1] == (message[1..] + Zeros(32))[i];
      if i < 32 {
        assert (register + Zeros(|message|))[i + 1] == r[i];
      } else {
        assert next[i] == p[i + 1];
      }
    }
  }

  lemma NothingToDivide(register: seq<bool>)
    requires |register| == 32
    ensures Dividend(register, []) == register
  {}

  lemma {:induction false} FeedDivides(c: bv32, message: seq<bool>)
    ensures Remainder(Dividend(Coefficients(c, 32), message)) == Coefficients(FeedBits(c, message), 32)
    decreases |message|
  {
    var register := Coefficients(c, 32);
    if message == [] {
      NothingToDivide(register);
    } else {
      DividendSteps(register, message);
      RegisterSteps(c, message[0]);
      assert register[0] == Odd(c);
      FeedDivides(BitStep(Xor(c, BitWord(message[0]))), message[1..]);
      hide Dividend, BitStep, Xor, BitWord, Odd, XorBits, Generator, Shifted, Coefficients;
    }
  }

  function Four(): seq<bool> { [true, true, true, true] }

  lemma OnesNibbles()
    ensures Nibble(0xFFFF_FFFF) == Four() && DropNibble(0xFFFF_FFFF) == 0x0FFF_FFFF
    ensures Nibble(0x0FFF_FFFF) == Four() && DropNibble(0x0FFF_FFFF) == 0x00FF_FFFF
    ensures Nibble(0x00FF_FFFF) == Four() && DropNibble(0x00FF_FFFF) == 0x000F_FFFF
    ensures Nibble(0x000F_FFFF) == Four() && DropNibble(0x000F_FFFF) == 0x0000_FFFF
    ensures Nibble(0x0000_FFFF) == Four() && DropNibble(0x0000_FFFF) == 0x0000_0FFF
    ensures Nibble(0x0000_0FFF) == Four() && DropNibble(0x0000_0FFF) == 0x0000_00FF
    ensures Nibble(0x0000_00FF) == Four() && DropNibble(0x0000_00FF) == 0x0000_000F
    ensures Nibble(0x0000_000F) == Four() && DropNibble(0x0000_000F) == 0x0000_0000
  {}

  lemma OnesGroups()
    ensures seq(32, _ => true)
         == Groups(Four(), Four(), Four(), Four(), Groups(Four(), Four(), Four(), Four(), []))
  {}

  lemma AllOnes()
    ensures Coefficients(ONES, 32) == seq(32, _ => true)
  {
    OnesNibbles();
    OnesGroups();
    SixteenCoefficients(0xFFFF_FFFF, 0x0FFF_FFFF, 0x00FF_FFFF, 0x000F_FFFF, 0x0000_FFFF, 16);
    SixteenCoefficients(0x0000_FFFF, 0x0000_0FFF, 0x0000_00FF, 0x0000_000F, 0x0000_0000, 0);
    assert Coefficients(0, 0) == [];
    hide Coefficients, Nibble, DropNibble, Groups, Four;
  }

  /** The CRC of any message is the complement of the remainder of the message times x^32, its 32 highest
      coefficients complemented, modulo the generator: the bits of each byte low one first, the highest
      coefficient of the remainder in bit 0. */
  lemma CrcIsRemainder(data: seq<byte>)
    ensures var ones := seq(32, _ => true);
            Coefficients(Crc(data), 32) == XorBits(Remainder(Dividend(ones, AllBits(data))), ones)
  {
    AllOnes();
    FeedDivides(ONES, AllBits(data));
    FeedIsBits(ONES, data);
    CoefficientsXor(Feed(ONES, data), ONES, 32);
    hide Coefficients, Remainder, Dividend, Feed, FeedBits, AllBits, XorBits, Xor;
  }

  /** The order of the bits of a byte. */
  lemma BitOrder(b: byte, i: nat)
    requires i < 8
    ensures BitsOf(b)[i] <==> b / [1, 2, 4, 8, 16, 32, 64, 128][i] % 2 == 1
  {
    if i == 7 { assert b / 128 % 2 == b / 128; }
  }

  // ----- one message -----

  lemma EightSteps(x0: bv32, x1: bv32, x2: bv32, x3: bv32, x4: bv32, x5: bv32, x6: bv32, x7: bv32, x8: bv32)
    requires BitStep(x0) == x1 && BitStep(x1) == x2 && BitStep(x2) == x3 && BitStep(x3) == x4
    requires BitStep(x4) == x5 && BitStep(x5) == x6 && BitStep(x6) == x7 && BitStep(x7) == x8
    ensures Bits(x0, 8) == x8
  {
    hide BitStep;
    assert Bits(x0, 0) == x0;
    assert Bits(x0, 1) == x1;
    assert Bits(x0, 2) == x2;
    assert Bits(x0, 3) == x3;
    assert Bits(x0, 4) == x4;
    assert Bits(x0, 5) == x5;
    assert Bits(x0, 6) == x6;
    assert Bits(x0, 7) == x7;
  }

  lemma FeedNext(data: seq<byte>, b: byte)
    ensures Feed(ONES, []) == ONES && Feed(ONES, data + [b]) == ByteStep(Feed(ONES, data), b)
  {
    hide ByteStep;
    assert (data + [b])[..|data|] == data;
  }

  lemma Digit1()
    ensures ByteStep(ONES, 49) == 0x7C23_1048
  {
    assert Xor(0xFFFF_FFFF, Word(49)) == 0xFFFF_FFCE;
    EightSteps(0xFFFF_FFCE, 0x7FFF_FFE7, 0xD247_7CD3, 0x849B_3D49,
               0xAFF5_1D84, 0x57FA_8EC2, 0x2BFD_4761, 0xF846_2090, 0x7C23_1048);
    hide BitStep;
  }

  lemma Feed1()
    ensures Feed(ONES, [49]) == 0x7C23_1048
  {
    hide *;
    Digit1();
    FeedNext([], 49);
    assert [] + [49] == [49];
  }

  lemma Digit2()
    ensures ByteStep(0x7C23_1048, 50) == 0xB0AC_BB32
  {
    assert Xor(0x7C23_1048, Word(50)) == 0x7C23_107A;
    EightSteps(0x7C23_107A, 0x3E11_883D, 0xF2B0_473E, 0x7958_239F,
               0xD114_92EF, 0x8532_CA57, 0xAF21_E60B, 0xBA28_7025, 0xB0AC_BB32);
    hide BitStep;
  }

  lemma Feed2()
    ensures Feed(ONES, [49, 50]) == 0xB0AC_BB32
  {
    hide *;
    Feed1();
    Digit2();
    FeedNext([49], 50);
    assert [49] + [50] == [49, 50];
  }

  lemma Digit3()
    ensures ByteStep(0xB0AC_BB32, 51) == 0x77B7_9C2D
  {
    assert Xor(0xB0AC_BB32, Word(51)) == 0xB0AC_BB01;
    EightSteps(0xB0AC_BB01, 0xB5EE_DEA0, 0x5AF7_6F50, 0x2D7B_B7A8,
               0x16BD_DBD4, 0x0B5E_EDEA, 0x05AF_76F5, 0xEF6F_385A, 0x77B7_9C2D);
    hide BitStep;
  }

  lemma Feed3()
    ensures Feed(ONES, [49, 50, 51]) == 0x77B7_9C2D
  {
    hide *;
    Feed2();
    Digit3();
    FeedNext([49, 50], 51);
    assert [49, 50] + [51] == [49, 50, 51];
  }

  lemma Digit4()
    ensures ByteStep(0x77B7_9C2D, 52) == 0x641C_1F5C
  {
    assert Xor(0x77B7_9C2D, Word(52)) == 0x77B7_9C19;
    EightSteps(0x77B7_9C19, 0xD663_4D2C, 0x6B31_A696, 0x3598_D34B,
               0xF774_EA85, 0x9602_F662, 0x4B01_7B31, 0xC838_3EB8, 0x641C_1F5C);
    hide BitStep;
  }

  lemma Feed4()
    ensures Feed(ONES, [49, 50, 51, 52]) == 0x641C_1F5C
  {
    hide *;
    Feed3();
    Digit4();
    FeedNext([49, 50, 51], 52);
    assert [49, 50, 51] + [52] == [49, 50, 51, 52];
  }

  lemma Digit5()
    ensures ByteStep(0x641C_1F5C, 53) == 0x340A_C5E3
  {
    assert Xor(0x641C_1F5C, Word(53)) == 0x641C_1F69;
    EightSteps(0x641C_1F69, 0xDFB6_8C94, 0x6FDB_464A, 0x37ED_A325,
               0xF64E_52B2, 0x7B27_2959, 0xD02B_178C, 0x6815_8BC6, 0x340A_C5E3);
    hide BitStep;
  }

  lemma Feed5()
    ensures Feed(ONES, [49, 50, 51, 52, 53]) == 0x340A_C5E3
  {
    hide *;
    Feed4();
    Digit5();
    FeedNext([49, 50, 51, 52], 53);
    assert [49, 50, 51, 52] + [53] == [49, 50, 51, 52, 53];
  }

  lemma Digit6()
    ensures ByteStep(0x340A_C5E3, 54) == 0xF68D_2C9E
  {
    assert Xor(0x340A_C5E3, Word(54)) == 0x340A_C5D5;
    EightSteps(0x340A_C5D5, 0xF7BD_E1CA, 0x7BDE_F0E5, 0xD057_FB52,
               0x682B_FDA9, 0xD9AD_7DF4, 0x6CD6_BEFA, 0x366B_5F7D, 0xF68D_2C9E);
    hide BitStep;
  }

  lemma Feed6()
    ensures Feed(ONES, [49, 50, 51, 52, 53, 54]) == 0xF68D_2C9E
  {
    hide *;
    Feed5();
    Digit6();
    FeedNext([49, 50, 51, 52, 53], 54);
    assert [49, 50, 51, 52, 53] + [54] == [49, 50, 51, 52, 53, 54];
  }

  lemma Digit7()
    ensures ByteStep(0xF68D_2C9E, 55) == 0xAFFC_9660
  {
    assert Xor(0xF68D_2C9E, Word(55)) == 0xF68D_2CA9;
    EightSteps(0xF68D_2CA9, 0x96FE_1574, 0x4B7F_0ABA, 0x25BF_855D,
               0xFF67_418E, 0x7FB3_A0C7, 0xD261_5343, 0x8488_2A81, 0xAFFC_9660);
    hide BitStep;
  }

  lemma Feed7()
    ensures Feed(ONES, [49, 50, 51, 52, 53, 54, 55]) == 0xAFFC_9660
  {
    hide *;
    Feed6();
    Digit7();
    FeedNext([49, 50, 51, 52, 53, 54], 55);
    assert [49, 50, 51, 52, 53, 54] + [55] == [49, 50, 51, 52, 53, 54, 55];
  }

  lemma Digit8()
    ensures ByteStep(0xAFFC_9660, 56) == 0x651F_2550
  {
    assert Xor(0xAFFC_9660, Word(56)) == 0xAFFC_9658;
    EightSteps(0xAFFC_9658, 0x57FE_4B2C, 0x2BFF_2596, 0x15FF_92CB,
               0xE747_4A45, 0x9E1B_2602, 0x4F0D_9301, 0xCA3E_4AA0, 0x651F_2550);
    hide BitStep;
  }

  lemma Feed8()
    ensures Feed(ONES, [49, 50, 51, 52, 53, 54, 55, 56]) == 0x651F_2550
  {
    hide *;
    Feed7();
    Digit8();
    FeedNext([49, 50, 51, 52, 53, 54, 55], 56);
    assert [49, 50, 51, 52, 53, 54, 55] + [56] == [49, 50, 51, 52, 53, 54, 55, 56];
  }

  lemma Digit9()
    ensures ByteStep(0x651F_2550, 57) == 0x340B_C6D9
  {
    assert Xor(0x651F_2550, Word(57)) == 0x651F_2569;
    EightSteps(0x651F_2569, 0xDF37_1194, 0x6F9B_88CA, 0x37CD_C465,
               0xF65E_6112, 0x7B2F_3089, 0xD02F_1B64, 0x6817_8DB2, 0x340B_C6D9);
    hide BitStep;
  }

  lemma Feed9()
    ensures Feed(ONES, [49, 50, 51, 52, 53, 54, 55, 56, 57]) == 0x340B_C6D9
  {
    hide *;
    Feed8();
    Digit9();
    FeedNext([49, 50, 51, 52, 53, 54, 55, 56], 57);
    assert [49, 50, 51, 52, 53, 54, 55, 56] + [57] == [49, 50, 51, 52, 53, 54, 55, 56, 57];
  }

  /** The check value: the CRC of the nine characters 123456789. */
  lemma CheckValue()
    ensures Crc([49, 50, 51, 52, 53, 54, 55, 56, 57]) == 0xCBF4_3926
  {
    Feed9();
    hide Feed;
  }
}
