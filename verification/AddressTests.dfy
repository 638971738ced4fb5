/** The write-everything-then-read-everything address tests, run against memory in which any two addresses
    may be one cell.  What a pass excludes depends on the values written; for the SDRAM pattern that is a
    2-adic argument. */
module AddressTests {
  import opened Words
  import opened Powers

  // ----- memory with aliases -----

  /** `alias[i]` is the cell the i-th address of the test really reaches. */
  predicate Reaches(alias: seq<nat>, cells: nat) { forall i :: 0 <= i < |alias| ==> alias[i] < cells }

  predicate Injective(alias: seq<nat>) {
    forall i, j :: 0 <= i < j < |alias| ==> alias[i] != alias[j]
  }

  /** Two addresses that are one cell were given the same value. */
  predicate Undetected(alias: seq<nat>, values: seq<word>)
    requires |alias| == |values|
  {
    forall i, j :: 0 <= i < j < |alias| && alias[i] == alias[j] ==> values[i] == values[j]
  }

  /** The last of the first n addresses that reaches cell c, or n if none does. */
  function LastWriter(alias: seq<nat>, n: nat, c: nat): (k: nat)
    requires n <= |alias|
    ensures k <= n
    ensures k < n ==> alias[k] == c && forall j :: k < j < n ==> alias[j] != c
    ensures k == n ==> forall j :: 0 <= j < n ==> alias[j] != c
  {
    if n == 0 then 0
    else if alias[n - 1] == c then n - 1
    else
      var k := LastWriter(alias, n - 1, c);
      if k == n - 1 then n else k
  }

  /** A later address overwrote address i with another value. */
  predicate Wrong(alias: seq<nat>, values: seq<word>, i: nat)
    requires i < |alias| == |values|
  {
    values[LastWriter(alias, |alias|, alias[i])] != values[i]
  }

  lemma LastWriterExists(alias: seq<nat>, i: nat)
    requires i < |alias|
    ensures i <= LastWriter(alias, |alias|, alias[i]) < |alias|
  {}

  // None of the first n addresses reads back wrong.
  predicate NoneWrong(alias: seq<nat>, values: seq<word>, n: nat)
    requires n <= |alias| == |values|
  {
    forall i :: 0 <= i < n ==> !Wrong(alias, values, i)
  }

  lemma NoneWrongNext(alias: seq<nat>, values: seq<word>, n: nat)
    requires n < |alias| == |values|
    ensures NoneWrong(alias, values, 0)
    ensures NoneWrong(alias, values, n + 1) <==> NoneWrong(alias, values, n) && !Wrong(alias, values, n)
    ensures Wrong(alias, values, n) ==> !NoneWrong(alias, values, |alias|)
  {}

  /** Nothing reads back wrong exactly when every alias is one the values cannot tell. */
  lemma WrongIsDetected(alias: seq<nat>, values: seq<word>)
    requires |alias| == |values|
    ensures NoneWrong(alias, values, |alias|) <==> Undetected(alias, values)
  {
    forall i | 0 <= i < |alias| ensures i <= LastWriter(alias, |alias|, alias[i]) < |alias| {
      LastWriterExists(alias, i);
    }
    if NoneWrong(alias, values, |alias|) {
      forall i, j | 0 <= i < j < |alias| && alias[i] == alias[j] ensures values[i] == values[j] {
        assert !Wrong(alias, values, i) && !Wrong(alias, values, j);
      }
    }
  }

  /** After the first n writes each of those addresses reads as its last writer's value. */
  ghost predicate Held(cells: seq<word>, alias: seq<nat>, values: seq<word>, n: nat)
    requires n <= |alias| == |values| && Reaches(alias, |cells|)
  {
    forall j :: 0 <= j < n ==> LastWriter(alias, n, alias[j]) < n
                               && cells[alias[j]] == values[LastWriter(alias, n, alias[j])]
  }

  lemma HeldNext(cells: seq<word>, alias: seq<nat>, values: seq<word>, n: nat)
    requires n < |alias| == |values| && Reaches(alias, |cells|) && Held(cells, alias, values, n)
    ensures Held(cells[alias[n] := values[n]], alias, values, n + 1)
  {}

  /** Once all are written, an address reads back wrong exactly when a later one overwrote it. */
  lemma ReadBack(cells: seq<word>, alias: seq<nat>, values: seq<word>, i: nat)
    requires i < |alias| == |values| && Reaches(alias, |cells|) && Held(cells, alias, values, |alias|)
    ensures cells[alias[i]] != values[i] <==> Wrong(alias, values, i)
  {}

  // ----- each word holds its own address -----

  const TEST_REGION_BASE: word := 0x8000_8000
  const TEST_REGION_WORDS := 1024

  function OwnAddress(i: nat): word
    requires i < TEST_REGION_WORDS
  {
    TEST_REGION_BASE + i * 4
  }

  function OwnAddresses(): seq<word> {
    seq(TEST_REGION_WORDS, i requires 0 <= i < TEST_REGION_WORDS => OwnAddress(i))
  }

  method FillOwn(cells: array<word>, alias: seq<nat>, ghost values: seq<word>)
    requires |alias| == TEST_REGION_WORDS && Reaches(alias, cells.Length) && values == OwnAddresses()
    modifies cells
    ensures Held(cells[..], alias, values, |alias|)
  {
    hide Held, OwnAddresses, Reaches;
    OwnAddressAt(0);
    NothingHeld(cells[..], alias, values);
    var i := 0;
    while i < TEST_REGION_WORDS
      invariant 0 <= i <= TEST_REGION_WORDS && Held(cells[..], alias, values, i)
    {
      OwnAddressAt(i);
      StoreNext(cells, alias, values, i, TEST_REGION_BASE + i * 4);
      i := i + 1;
    }
  }

  method CheckOwn(cells: array<word>, alias: seq<nat>, ghost values: seq<word>) returns (ok: bool)
    requires |alias| == TEST_REGION_WORDS && Reaches(alias, cells.Length) && values == OwnAddresses()
    requires Held(cells[..], alias, values, |alias|)
    ensures ok <==> NoneWrong(alias, values, |alias|)
  {
    hide Held, Wrong, NoneWrong, OwnAddresses, Reaches;
    OwnAddressAt(0);
    NoneWrongNext(alias, values, 0);
    var i := 0;
    while i < TEST_REGION_WORDS
      invariant 0 <= i <= TEST_REGION_WORDS && NoneWrong(alias, values, i)
    {
      NoneWrongNext(alias, values, i);
      OwnAddressAt(i);
      var got := LoadAt(cells, alias, values, i);
      if got != TEST_REGION_BASE + i * 4 { return false; }
      i := i + 1;
    }
    return true;
  }

  /** Passes exactly when no two words of the region are one cell. */
  method TestAddressUniqueness(cells: array<word>, alias: seq<nat>) returns (ok: bool)
    requires |alias| == TEST_REGION_WORDS && Reaches(alias, cells.Length)
    modifies cells
    ensures ok <==> Injective(alias)
  {
    ghost var values := OwnAddresses();
    WrongIsDetected(alias, values);
    OwnAddressesTell(alias);
    FillOwn(cells, alias, values);
    ok := CheckOwn(cells, alias, values);
  }

  // One write of a test: the store reaches whatever cell the address reaches.
  method StoreNext(cells: array<word>, alias: seq<nat>, ghost values: seq<word>, i: nat, v: word)
    requires i < |alias| == |values| && Reaches(alias, cells.Length)
    requires Held(cells[..], alias, values, i) && v == values[i]
    modifies cells
    ensures Held(cells[..], alias, values, i + 1)
  {
    HeldNext(cells[..], alias, values, i);
    hide Held;
    cells[alias[i]] := v;
  }

  // One read.
  method LoadAt(cells: array<word>, alias: seq<nat>, ghost values: seq<word>, i: nat) returns (got: word)
    requires i < |alias| == |values| && Reaches(alias, cells.Length)
    requires Held(cells[..], alias, values, |alias|)
    ensures got != values[i] <==> Wrong(alias, values, i)
  {
    ReadBack(cells[..], alias, values, i);
    got := cells[alias[i]];
  }

  lemma NothingHeld(cells: seq<word>, alias: seq<nat>, values: seq<word>)
    requires |alias| == |values| && Reaches(alias, |cells|)
    ensures Held(cells, alias, values, 0)
  {}

  lemma OwnAddressAt(i: nat)
    requires i < TEST_REGION_WORDS
    ensures |OwnAddresses()| == TEST_REGION_WORDS && OwnAddresses()[i] == TEST_REGION_BASE + i * 4
  {}

  lemma OwnAddressesTell(alias: seq<nat>)
    requires |alias| == TEST_REGION_WORDS
    ensures Undetected(alias, OwnAddresses()) <==> Injective(alias)
  {
    var values := OwnAddresses();
    assert forall i :: 0 <= i < TEST_REGION_WORDS ==> values[i] == TEST_REGION_BASE + i * 4;
  }

  // ----- the SDRAM pattern -----

  /** Exclusive or, bit by bit. */
  function Xor(a: nat, b: nat): (r: nat)
    decreases a + b
  {
    if a == 0 && b == 0 then 0
    else 2 * Xor(a / 2, b / 2) + if a % 2 != b % 2 then 1 else 0
  }

  const MASK := 0xA5A5_A5A5

  function Pattern(addr: word): word { (Xor(addr, MASK) + addr / 8) % 0x1_0000_0000 }

  /** Numbers that agree in their low m bits still do after the same exclusive or. */
  lemma {:induction false} XorKeepsLowBits(a: nat, b: nat, c: nat, m: nat, s: int) returns (t: int)
    requires a - b == Power(m) * s
    ensures Xor(a, c) - Xor(b, c) == Power(m) * t
  {
    if m == 0 {
      t := Xor(a, c) - Xor(b, c);
    } else {
      HalvesAgree(a, b, Power(m - 1), s);
      t := XorKeepsLowBits(a / 2, b / 2, c / 2, m - 1, s);
      XorUnfolds(a, c);
      XorUnfolds(b, c);
      Twice(Power(m - 1), t);
    }
  }

  lemma XorUnfolds(a: nat, c: nat)
    ensures Xor(a, c) == 2 * Xor(a / 2, c / 2) + if a % 2 != c % 2 then 1 else 0
  {}

  lemma Twice(p: int, t: int)
    ensures 2 * (p * t) == (2 * p) * t
  {}

  lemma HalvesAgree(a: nat, b: nat, p: int, s: int)
    requires a - b == (2 * p) * s
    ensures a % 2 == b % 2 && a / 2 - b / 2 == p * s
  {
    Twice(p, s);
    var d := p * s;
    assert a == b + 2 * d;
  }

  /** a and b agree in their low k bits, s being what they differ by above. */
  predicate Differ(a: int, b: int, k: nat, s: int) { a - b == Power(k) * s }

  // Equal patterns: the sums differ by a multiple of 2^32.
  lemma SumsDiffer(a: word, b: word) returns (w: int)
    requires Pattern(a) == Pattern(b)
    ensures Xor(a, MASK) + a / 8 - (Xor(b, MASK) + b / 8) == 0x1_0000_0000 * w
  {
    var x, y := Xor(a, MASK) + a / 8, Xor(b, MASK) + b / 8;
    hide Xor;
    w := x / 0x1_0000_0000 - y / 0x1_0000_0000;
    assert x == 0x1_0000_0000 * (x / 0x1_0000_0000) + x % 0x1_0000_0000;
    assert y == 0x1_0000_0000 * (y / 0x1_0000_0000) + y % 0x1_0000_0000;
  }

  lemma EightTimes(p: int, u: int)
    ensures 8 * (p * u) == (8 * p) * u
  {}

  /** Three bits at a time: words with one pattern that agree in their low m bits agree in three more. */
  lemma ThreeMoreBits(a: word, b: word, m: nat, s: int) returns (u: int)
    requires Pattern(a) == Pattern(b) && a % 8 == b % 8
    requires m <= 32 && Differ(a, b, m, s)
    ensures Differ(a, b, m + 3, u)
  {
    PowerEight();
    WordPowers();
    PowerSum(m, 32 - m);
    PowerSum(3, m);
    EighthsDiffer(a, b);
    hide Xor, Power, Pattern;
    var t := XorKeepsLowBits(a, b, MASK, m, s);
    var w := SumsDiffer(a, b);
    var high: int, high': int := a / 8, b / 8;
    u := Combine(Power(m), Power(32 - m), w, t, Xor(a, MASK), Xor(b, MASK), high, high');
  }

  lemma EighthsDiffer(a: word, b: word)
    requires a % 8 == b % 8
    ensures a - b == 8 * (a / 8 - b / 8)
  {}

  lemma Combine(p: int, q: int, w: int, t: int, x: int, y: int, high: int, high': int) returns (u: int)
    requires p * q == 0x1_0000_0000 && x - y == p * t && x + high - (y + high') == 0x1_0000_0000 * w
    ensures 8 * (high - high') == (8 * p) * u
  {
    u := q * w - t;
    assert p * q * w - p * t == p * (q * w - t);
    EightTimes(p, u);
  }

  /** The pattern is injective on addresses that agree in their low three bits. */
  lemma PatternTells(a: word, b: word)
    requires a % 8 == b % 8 && Pattern(a) == Pattern(b)
    ensures a == b
  {
    hide Pattern, Power, Xor;
    var s := a - b;
    assert Differ(a, b, 0, s) by { PowerZero(); }
    var m := 0;
    while m < 33
      invariant m % 3 == 0 && 0 <= m <= 33 && Differ(a, b, m, s)
    {
      s := ThreeMoreBits(a, b, m, s);
      m := m + 3;
    }
    TooFarApart(a, b, s);
  }

  lemma PowerZero()
    ensures Power(0) == 1
  {}

  lemma TooFarApart(a: word, b: word, s: int)
    requires Differ(a, b, 33, s)
    ensures a == b
  {
    PowerEight();
    WordPowers();
    var p: int := Power(33);
    assert p == 2 * Power(32);
    hide Power;
    Magnitude(p, s);
  }

  lemma Magnitude(p: int, s: int)
    requires p > 0
    ensures s > 0 ==> p * s >= p
    ensures s < 0 ==> p * s <= -p
  {
    if s > 0 { assert p * (s - 1) >= 0; }
    if s < 0 { assert p * (-s - 1) >= 0; }
  }

  // ----- the SDRAM's row test and dense sweep -----

  const SDRAM_BASE: word := 0x9000_0000
  const SDRAM_SIZE := 0x200_0000
  const SDRAM_ROWS := 8192
  const ROW_STRIDE := 0x1000
  const WORD_STRIDE := 4

  /** n words, one every `stride` bytes of the window. */
  predicate InSdram(n: nat, stride: nat) { (stride == ROW_STRIDE || stride == WORD_STRIDE) && n * stride <= SDRAM_SIZE }

  lemma RowInside(n: nat, i: nat)
    requires n * ROW_STRIDE <= SDRAM_SIZE && i < n
    ensures i * ROW_STRIDE < SDRAM_SIZE && (SDRAM_BASE + i * ROW_STRIDE) % 4 == 0
  {
    assert SDRAM_BASE + i * ROW_STRIDE == 4 * (0x2400_0000 + 0x400 * i);
  }

  lemma WordInside(n: nat, i: nat)
    requires n * WORD_STRIDE <= SDRAM_SIZE && i < n
    ensures i * WORD_STRIDE < SDRAM_SIZE && (SDRAM_BASE + i * WORD_STRIDE) % 4 == 0
  {
    assert SDRAM_BASE + i * WORD_STRIDE == 4 * (0x2400_0000 + i);
  }

  lemma AddressInside(n: nat, stride: nat, i: nat)
    requires InSdram(n, stride) && i < n
    ensures 0 <= i * stride < SDRAM_SIZE && (SDRAM_BASE + i * stride) % 4 == 0
  {
    if stride == ROW_STRIDE { RowInside(n, i); } else { WordInside(n, i); }
  }

  function AddressOf(n: nat, stride: nat, i: nat): (a: word)
    requires InSdram(n, stride) && i < n
    ensures SDRAM_BASE <= a < SDRAM_BASE + SDRAM_SIZE && a % 4 == 0
  {
    AddressInside(n, stride, i);
    SDRAM_BASE + i * stride
  }

  function Patterns(n: nat, stride: nat): (values: seq<word>)
    requires InSdram(n, stride)
    ensures |values| == n
    ensures forall i :: 0 <= i < n ==> values[i] == Pattern(AddressOf(n, stride, i))
  {
    hide Pattern, AddressOf;
    seq(n, i requires 0 <= i < n => Pattern(AddressOf(n, stride, i)))
  }

  function WrongCount(alias: seq<nat>, values: seq<word>, n: nat): (bad: nat)
    requires n <= |alias| == |values|
    ensures bad == 0 <==> NoneWrong(alias, values, n)
  {
    if n == 0 then 0 else WrongCount(alias, values, n - 1) + if Wrong(alias, values, n - 1) then 1 else 0
  }

  method FillPattern(cells: array<word>, alias: seq<nat>, stride: nat, ghost values: seq<word>)
    requires InSdram(|alias|, stride) && Reaches(alias, cells.Length) && values == Patterns(|alias|, stride)
    modifies cells
    ensures Held(cells[..], alias, values, |alias|)
  {
    hide Held, Pattern, Reaches, InSdram;
    NothingHeld(cells[..], alias, values);
    var i := 0;
    while i < |alias|
      invariant 0 <= i <= |alias| && Held(cells[..], alias, values, i)
    {
      var a := AddressOf(|alias|, stride, i);
      StoreNext(cells, alias, values, i, Pattern(a));
      i := i + 1;
    }
  }

  /** Counts every wrong word and keeps the first one's address. */
  method CheckPattern(cells: array<word>, alias: seq<nat>, stride: nat, ghost values: seq<word>)
    returns (bad: nat, firstBad: word)
    requires InSdram(|alias|, stride) && Reaches(alias, cells.Length) && values == Patterns(|alias|, stride)
    requires Held(cells[..], alias, values, |alias|)
    ensures bad == WrongCount(alias, values, |alias|)
    ensures bad > 0 ==> exists i :: 0 <= i < |alias| && FirstWrong(alias, values, i)
                                    && firstBad == AddressOf(|alias|, stride, i)
  {
    hide Held, Pattern, Wrong, NoneWrong, Reaches, InSdram;
    bad, firstBad := 0, 0;
    var i := 0;
    ghost var first := 0;
    while i < |alias|
      invariant 0 <= i <= |alias| && bad == WrongCount(alias, values, i)
      invariant bad > 0 ==> first < |alias| && FirstWrong(alias, values, first)
                            && firstBad == AddressOf(|alias|, stride, first)
    {
      var a := AddressOf(|alias|, stride, i);
      var got := LoadAt(cells, alias, values, i);
      if got != Pattern(a) {
        if bad == 0 { firstBad, first := a, i; }
        bad := bad + 1;
      }
      i := i + 1;
    }
  }

  predicate FirstWrong(alias: seq<nat>, values: seq<word>, i: nat)
    requires i < |alias| == |values|
  {
    Wrong(alias, values, i) && NoneWrong(alias, values, i)
  }

  method PatternTest(cells: array<word>, alias: seq<nat>, stride: nat) returns (bad: nat, firstBad: word)
    requires InSdram(|alias|, stride) && Reaches(alias, cells.Length)
    modifies cells
    ensures bad == WrongCount(alias, Patterns(|alias|, stride), |alias|)
    ensures bad == 0 <==> Undetected(alias, Patterns(|alias|, stride))
    ensures bad > 0 ==> exists i :: 0 <= i < |alias| && firstBad == 0x9000_0000 + i * stride
                                    && Wrong(alias, Patterns(|alias|, stride), i)
                                    && forall j :: 0 <= j < i ==> !Wrong(alias, Patterns(|alias|, stride), j)
  {
    ghost var values := Patterns(|alias|, stride);
    WrongIsDetected(alias, values);
    FillPattern(cells, alias, stride, values);
    bad, firstBad := CheckPattern(cells, alias, stride, values);
    hide Wrong, Patterns, LastWriter, Undetected, Held, Reaches, Pattern;
  }

  /** One word in every row: passes exactly when no two rows are one. */
  method TestAllRows(cells: array<word>, alias: seq<nat>) returns (bad: nat, firstBad: word)
    requires |alias| == SDRAM_ROWS && Reaches(alias, cells.Length)
    modifies cells
    ensures bad == 0 <==> Injective(alias)
  {
    RowsTell(alias);
    bad, firstBad := PatternTest(cells, alias, ROW_STRIDE);
  }

  /** Every word of the sweep: passes exactly when no two words that are one carry different patterns. */
  method TestSweep(cells: array<word>, alias: seq<nat>) returns (bad: nat, firstBad: word)
    requires |alias| * WORD_STRIDE <= SDRAM_SIZE && Reaches(alias, cells.Length)
    modifies cells
    ensures bad == 0 <==> Undetected(alias, Patterns(|alias|, WORD_STRIDE))
  {
    bad, firstBad := PatternTest(cells, alias, WORD_STRIDE);
  }

  lemma RowsTell(alias: seq<nat>)
    requires |alias| == SDRAM_ROWS
    ensures Undetected(alias, Patterns(SDRAM_ROWS, ROW_STRIDE)) <==> Injective(alias)
  {
    var values := Patterns(SDRAM_ROWS, ROW_STRIDE);
    forall i, j | 0 <= i < j < SDRAM_ROWS ensures values[i] != values[j] {
      if values[i] == values[j] {
        RowPatterns(i, j);
      }
    }
    hide Patterns;
  }

  lemma RowAddress(i: nat)
    requires i < SDRAM_ROWS
    ensures InSdram(SDRAM_ROWS, ROW_STRIDE)
    ensures AddressOf(SDRAM_ROWS, ROW_STRIDE, i) == SDRAM_BASE + 8 * (0x200 * i)
    ensures AddressOf(SDRAM_ROWS, ROW_STRIDE, i) % 8 == 0
  {
    assert SDRAM_BASE + 8 * (0x200 * i) == 8 * (0x1200_0000 + 0x200 * i);
  }

  lemma RowPatterns(i: nat, j: nat)
    requires i < SDRAM_ROWS && j < SDRAM_ROWS
    requires Pattern(AddressOf(SDRAM_ROWS, ROW_STRIDE, i)) == Pattern(AddressOf(SDRAM_ROWS, ROW_STRIDE, j))
    ensures i == j
  {
    RowAddress(i);
    RowAddress(j);
    hide Pattern, AddressOf;
    PatternTells(AddressOf(SDRAM_ROWS, ROW_STRIDE, i), AddressOf(SDRAM_ROWS, ROW_STRIDE, j));
  }

  /** What a passing sweep excludes: any two words whose addresses agree in bit 2 are different cells. */
  lemma SweepExcludes(alias: seq<nat>, i: nat, j: nat)
    requires |alias| * WORD_STRIDE <= SDRAM_SIZE && Undetected(alias, Patterns(|alias|, WORD_STRIDE))
    requires i < j < |alias| && i % 2 == j % 2
    ensures alias[i] != alias[j]
  {
    var values := Patterns(|alias|, WORD_STRIDE);
    if alias[i] == alias[j] {
      SweepPatterns(|alias|, i, j);
    }
  }

  lemma SweepPatterns(n: nat, i: nat, j: nat)
    requires n * WORD_STRIDE <= SDRAM_SIZE && i < j < n && i % 2 == j % 2
    ensures Pattern(AddressOf(n, WORD_STRIDE, i)) != Pattern(AddressOf(n, WORD_STRIDE, j))
  {
    var a, b := AddressOf(n, WORD_STRIDE, i), AddressOf(n, WORD_STRIDE, j);
    hide Pattern;
    assert a == SDRAM_BASE + 4 * i && b == SDRAM_BASE + 4 * j;
    hide AddressOf;
    SameInBitTwo(i, j);
    if Pattern(a) == Pattern(b) { PatternTells(a, b); }
  }

  lemma SameInBitTwo(i: nat, j: nat)
    requires i % 2 == j % 2
    ensures (SDRAM_BASE + 4 * i) % 8 == (SDRAM_BASE + 4 * j) % 8
  {
    var x, y := i / 2, j / 2;
    assert SDRAM_BASE + 4 * i == 8 * (0x1200_0000 + x) + 4 * (i % 2);
    assert SDRAM_BASE + 4 * j == 8 * (0x1200_0000 + y) + 4 * (j % 2);
  }

  /** Hexadecimal digits, and the exclusive or of two of them, from the four bits. */
  function Hex(b3: bool, b2: bool, b1: bool, b0: bool): nat {
    (if b3 then 8 else 0) + (if b2 then 4 else 0) + (if b1 then 2 else 0) + if b0 then 1 else 0
  }

  lemma XorBit(h: nat, x: bool, g: nat, y: bool)
    ensures Xor(2 * h + (if x then 1 else 0), 2 * g + (if y then 1 else 0)) == 2 * Xor(h, g) + if x != y then 1 else 0
  {
    var a, b := 2 * h + (if x then 1 else 0), 2 * g + (if y then 1 else 0);
    XorUnfolds(a, b);
    assert a / 2 == h && b / 2 == g;
  }

  /** The exclusive or of a hexadecimal digit stands alone. */
  lemma XorDigit(h: nat, l3: bool, l2: bool, l1: bool, l0: bool, g: nat, m3: bool, m2: bool, m1: bool, m0: bool)
    ensures Xor(16 * h + Hex(l3, l2, l1, l0), 16 * g + Hex(m3, m2, m1, m0))
         == 16 * Xor(h, g) + Hex(l3 != m3, l2 != m2, l1 != m1, l0 != m0)
  {
    hide Xor;
    var h1, g1 := 2 * h + (if l3 then 1 else 0), 2 * g + (if m3 then 1 else 0);
    var h2, g2 := 2 * h1 + (if l2 then 1 else 0), 2 * g1 + (if m2 then 1 else 0);
    var h3, g3 := 2 * h2 + (if l1 then 1 else 0), 2 * g2 + (if m1 then 1 else 0);
    XorBit(h, l3, g, m3);
    XorBit(h1, l2, g1, m2);
    XorBit(h2, l1, g2, m1);
    XorBit(h3, l0, g3, m0);
  }

  lemma XorOf120()
    ensures Xor(0x9000_0120, MASK) == 0x1000 * Xor(0x9_0000, 0xA_5A5A) + 0x485
  {
    hide Xor;
    XorDigit(0x900_0012, false, false, false, false, 0xA5A_5A5A, false, true, false, true);
    XorDigit(0x90_0001, false, false, true, false, 0xA5_A5A5, true, false, true, false);
    XorDigit(0x9_0000, false, false, false, true, 0xA_5A5A, false, true, false, true);
  }

  lemma XorOf644()
    ensures Xor(0x9000_0644, MASK) == 0x1000 * Xor(0x9_0000, 0xA_5A5A) + 0x3E1
  {
    hide Xor;
    XorDigit(0x900_0064, false, true, false, false, 0xA5A_5A5A, false, true, false, true);
    XorDigit(0x90_0006, false, true, false, false, 0xA5_A5A5, true, false, true, false);
    XorDigit(0x9_0000, false, true, true, false, 0xA_5A5A, false, true, false, true);
  }

  /** And what it does not: two words of the first page that differ in bit 2 have one pattern. */
  lemma PatternCollides()
    ensures Pattern(0x9000_0120) == Pattern(0x9000_0644)
  {
    hide Xor;
    XorOf120();
    XorOf644();
  }

  /** Memory in which the word at offset 0x644 is the word at offset 0x120, and all else is sound. */
  function OnePairAliased(n: nat): (alias: seq<nat>)
    requires n > 0x191
    ensures |alias| == n && Reaches(alias, n)
  {
    seq(n, i => if i == 0x191 then 0x48 else i)
  }

  /** So a sweep that covers both words passes over memory that has lost one of them. */
  lemma SweepBlindSpot(n: nat)
    requires 0x191 < n && n * WORD_STRIDE <= SDRAM_SIZE
    ensures !Injective(OnePairAliased(n)) && Undetected(OnePairAliased(n), Patterns(n, WORD_STRIDE))
  {
    var alias, values := OnePairAliased(n), Patterns(n, WORD_STRIDE);
    assert alias[0x48] == alias[0x191];
    PatternCollides();
    assert AddressOf(n, WORD_STRIDE, 0x48) == 0x9000_0120 && AddressOf(n, WORD_STRIDE, 0x191) == 0x9000_0644;
    hide Pattern, AddressOf, Patterns;
  }

  // ----- the regions, the pattern and the count in numbers -----

  /** Which addresses each test covers. */
  lemma Regions(i: nat, n: nat)
    ensures i < TEST_REGION_WORDS ==> OwnAddresses()[i] == 0x8000_8000 + 4 * i
    ensures |OwnAddresses()| == 1024 && OwnAddresses()[1023] == 0x8000_8FFC
    ensures i < 8192 ==> AddressOf(SDRAM_ROWS, ROW_STRIDE, i) == 0x9000_0000 + 0x1000 * i
    ensures i < n && 4 * n <= 0x200_0000 ==> AddressOf(n, WORD_STRIDE, i) == 0x9000_0000 + 4 * i
  {}

  function Digit(x: nat, k: nat): nat { x / Power(k) % 2 }

  lemma LowDigit(x: nat)
    ensures Digit(x, 0) == x % 2
  {
    assert x / Power(0) == x;
  }

  lemma NextDigit(x: nat, k: nat)
    requires k > 0
    ensures Digit(x, k) == Digit(x / 2, k - 1)
  {
    DivideTwice(x, Power(k - 1));
    assert Power(k) == 2 * Power(k - 1);
    hide Power;
  }

  /** Binary digit k of an exclusive or is 1 exactly when those of the two numbers differ. */
  lemma {:induction false} XorBits(a: nat, b: nat, k: nat)
    ensures Digit(Xor(a, b), k) == 1 <==> Digit(a, k) != Digit(b, k)
  {
    hide Digit;
    XorUnfolds(a, b);
    if k == 0 {
      XorLow(a, b);
    } else {
      XorBits(a / 2, b / 2, k - 1);
      NextDigit(a, k);
      NextDigit(b, k);
      NextDigit(Xor(a, b), k);
      hide Xor;
    }
  }

  lemma XorLow(a: nat, b: nat)
    ensures Digit(Xor(a, b), 0) == 1 <==> Digit(a, 0) != Digit(b, 0)
  {
    LowDigit(a);
    LowDigit(b);
    LowDigit(Xor(a, b));
    XorUnfolds(a, b);
    hide Digit, Xor;
  }

  lemma DivideTwice(x: nat, p: nat)
    requires p > 0
    ensures x / (2 * p) == x / 2 / p
  {
    var q, r := x / 2 / p, x / 2 % p;
    assert x == (2 * p) * q + (2 * r + x % 2);
    QuotientIs(x, 2 * p, q, 2 * r + x % 2);
  }

  lemma QuotientIs(x: nat, d: nat, q: nat, r: nat)
    requires d > 0 && x == d * q + r && r < d
    ensures x / d == q
  {
    var t := q - x / d;
    assert d * t == x % d - r;
    Magnitude(d, t);
  }

  lemma XorOfTop()
    ensures Xor(0x90, 0xA5) == 0x35
  {
    assert Xor(0, 0) == 0;
    hide Xor;
    XorDigit(0, true, false, false, true, 0, true, false, true, false);
    XorDigit(0x9, false, false, false, false, 0xA, false, true, false, true);
  }

  lemma XorOfHigh()
    ensures Xor(0x9_0000, 0xA_5A5A) == 0x3_5A5A
  {
    hide Xor;
    XorOfTop();
    XorDigit(0x90, false, false, false, false, 0xA5, true, false, true, false);
    XorDigit(0x900, false, false, false, false, 0xA5A, false, true, false, true);
    XorDigit(0x9000, false, false, false, false, 0xA5A5, true, false, true, false);
  }

  lemma XorOfBase()
    ensures Xor(0x9000_0000, MASK) == 0x1000 * Xor(0x9_0000, 0xA_5A5A) + 0x5A5
  {
    hide Xor;
    XorDigit(0x900_0000, false, false, false, false, 0xA5A_5A5A, false, true, false, true);
    XorDigit(0x90_0000, false, false, false, false, 0xA5_A5A5, true, false, true, false);
    XorDigit(0x9_0000, false, false, false, false, 0xA_5A5A, false, true, false, true);
  }

  /** The pattern of the part's first word, and the one that two words share. */
  lemma PatternValues()
    ensures Pattern(0x9000_0000) == 0x47A5_A5A5
    ensures Pattern(0x9000_0120) == Pattern(0x9000_0644) == 0x47A5_A4A9
  {
    hide Xor;
    XorOfHigh();
    XorOfBase();
    XorOf120();
    XorOf644();
  }

  /** The count is the number of addresses that read back wrong. */
  lemma {:induction false} CountsWrong(alias: seq<nat>, values: seq<word>, n: nat)
    requires n <= |alias| == |values|
    ensures WrongCount(alias, values, n) == |set i: nat | i < n && Wrong(alias, values, i)|
  {
    hide Wrong;
    var now := set i: nat | i < n && Wrong(alias, values, i);
    if n == 0 {
      assert now == {};
    } else {
      CountsWrong(alias, values, n - 1);
      var before := set i: nat | i < n - 1 && Wrong(alias, values, i);
      assert now == before + if Wrong(alias, values, n - 1) then {n - 1} else {};
    }
  }
}
