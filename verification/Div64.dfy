/** The 64-by-32 division routine: normalise the divisor upwards, then restore downwards.  It returns the
    exact quotient and remainder, loses no bit on the way, and each loop is bounded. */
module Div64 {
  import opened Powers

  newtype u64 = x: int | 0 <= x < 0x1_0000_0000_0000_0000
  newtype u32 = x: int | 0 <= x < 0x1_0000_0000

  // The sign test on b: a 64-bit word read as signed is positive.
  predicate SignedPositive(b: u64) { 0 < b < 0x8000_0000_0000_0000 }

  /** A power of two that fits 64 bits has an exponent below 64, and below 63 if it is signed positive. */
  lemma ExponentBound(k: nat)
    ensures Power(k) < 0x1_0000_0000_0000_0000 ==> k < 64
    ensures Power(k) < 0x8000_0000_0000_0000 ==> k < 63
  {
    WordPowers();
    if k >= 64 { PowerGrows(64, k); }
    if k >= 63 { PowerGrows(63, k); }
  }

  /** b is the divisor scaled by d, and d is a power of two. */
  ghost predicate Scaled(b: int, d: int, base: int, k: nat) {
    d == Power(k) && b == base * d
  }

  lemma MulMono(a: int, b: int, c: int)
    requires a <= b && c >= 0
    ensures a * c <= b * c
  {
    assert (b - a) * c >= 0;
  }

  lemma ScaledUp(b: int, d: int, base: int, k: nat)
    requires Scaled(b, d, base, k)
    ensures Scaled(b + b, d + d, base, k + 1)
  {}

  lemma ScaledDown(b: int, d: int, base: int, k: nat)
    requires Scaled(b, d, base, k)
    ensures k > 0 ==> Scaled(b / 2, d / 2, base, k - 1) && b == 2 * (b / 2)
    ensures k == 0 ==> d / 2 == 0 && b == base
  {
    if k > 0 {
      var e := Power(k - 1);
      assert d == 2 * e && d / 2 == e;
      assert base * d == 2 * (base * e);
    }
  }

  lemma ScaledBounds(b: int, d: int, base: int, k: nat)
    requires Scaled(b, d, base, k) && base > 0
    ensures 0 < d <= b
  {
    var p: int := Power(k);
    hide Power;
    MulMono(1, base, p);
  }

  // What is still to divide, and what has been divided out.
  ghost predicate Account(n: int, base: int, res: int, rem: int) {
    n == res * base + rem && res >= 0 && rem >= 0
  }

  lemma AccountBounds(n: int, base: int, res: int, rem: int)
    requires Account(n, base, res, rem) && base > 0
    ensures res <= n && rem <= n
  {
    MulMono(1, base, res);
  }

  lemma AccountStep(n: int, base: int, res: int, rem: int, b: int, d: int)
    requires Account(n, base, res, rem) && b == base * d && rem >= b && d >= 0
    ensures Account(n, base, res + d, rem - b)
  {
    assert (res + d) * base == res * base + base * d;
  }

  /** The reduction of the high word leaves a high word below the divisor. */
  lemma HighReduced(n: int, base: int)
    requires 0 <= n && base > 0
    ensures var high := n / 0x1_0000_0000;
            var q := high / base;
            && q * base <= high && q <= high
            && q * base * 0x1_0000_0000 <= n
            && Account(n, base, q * 0x1_0000_0000, n - q * base * 0x1_0000_0000)
  {
    var high := n / 0x1_0000_0000;
    var q := high / base;
    Divided(high, base);
    MulMono(1, base, q);
    var p := q * base;
    Rescaled(q, 0x1_0000_0000, base);
    MulMono(p, high, 0x1_0000_0000);
  }

  lemma Divided(a: int, b: int)
    requires a >= 0 && b > 0
    ensures a / b >= 0 && a == (a / b) * b + a % b
  {}

  lemma Rescaled(x: int, y: int, z: int)
    ensures (x * y) * z == x * z * y
  {}

  lemma Unique(n: int, base: int, q: int, r: int)
    requires n >= 0 && n == q * base + r && 0 <= r < base
    ensures q == n / base && r == n % base
  {
    Divided(n, base);
    SameQuotient(base, q, r, n / base, n % base);
  }

  lemma SameQuotient(base: int, q: int, r: int, q': int, r': int)
    requires q * base + r == q' * base + r' && 0 <= r < base && 0 <= r' < base
    ensures q == q' && r == r'
  {
    if q > q' { MulMono(q' + 1, q, base); }
    if q < q' { MulMono(q + 1, q', base); }
  }

  /** The quotient replaces the dividend and the remainder is returned.  Every operation below is on words
      that must fit, so that it verifies at all says that none of them wraps or loses a bit.  `ups` and
      `downs` count the turns of the two loops. */
  method Div64By32(n: u64, base: u32) returns (quotient: u64, remainder: u32, ghost ups: nat, ghost downs: nat)
    requires base != 0
    ensures quotient as int == n as int / base as int && remainder as int == n as int % base as int
    ensures ups <= 63 && downs == ups + 1
  {
    hide Account, Scaled;
    var rem: u64 := n;
    var b: u64 := base as u64;
    var d: u64 := 1;
    var high: u32 := (rem / 0x1_0000_0000) as u32;
    var res: u64 := 0;
    HighReduced(n as int, base as int);
    assert Account(n as int, base as int, 0, n as int) by { Started(n as int, base as int); }
    if high >= base {
      high := high / base;
      assert high as int * base as int * 0x1_0000_0000 <= n as int;
      res := high as u64 * 0x1_0000_0000;
      rem := rem - (high * base) as u64 * 0x1_0000_0000;
    }

    ups := 0;
    assert Scaled(b as int, d as int, base as int, 0) by { StartScaled(base as int); }
    while SignedPositive(b) && b < rem
      invariant Scaled(b as int, d as int, base as int, ups) && ups <= 63
      decreases 63 - ups
    {
      ScaledBounds(b as int, d as int, base as int, ups);
      ScaledPower(b as int, d as int, base as int, ups);
      ExponentBound(ups);
      ScaledUp(b as int, d as int, base as int, ups);
      b := b + b;
      d := d + d;
      ups := ups + 1;
    }

    downs := 0;
    ghost var k := ups;
    ScaledBounds(b as int, d as int, base as int, ups);
    while true
      invariant 0 <= k && k + downs == ups
      invariant Scaled(b as int, d as int, base as int, k) && d > 0
      invariant Account(n as int, base as int, res as int, rem as int)
      invariant rem as int < 2 * b as int
      decreases k
    {
      if rem >= b {
        ScaledPower(b as int, d as int, base as int, k);
        AccountStep(n as int, base as int, res as int, rem as int, b as int, d as int);
        AccountBounds(n as int, base as int, res as int + d as int, rem as int - b as int);
        rem := rem - b;
        res := res + d;
      }
      ScaledDown(b as int, d as int, base as int, k);
      b := b / 2;
      d := d / 2;
      downs := downs + 1;
      if d == 0 { break; }
      k := k - 1;
      ScaledBounds(b as int, d as int, base as int, k);
    }
    Finish(n as int, base as int, res as int, rem as int);
    Unique(n as int, base as int, res as int, rem as int);
    quotient := res;
    remainder := rem as u32;
  }

  lemma Started(n: int, base: int)
    requires n >= 0
    ensures Account(n, base, 0, n)
  {}

  lemma StartScaled(base: int)
    ensures Scaled(base, 1, base, 0)
  {}

  lemma ScaledPower(b: int, d: int, base: int, k: nat)
    requires Scaled(b, d, base, k)
    ensures d == Power(k) && b == base * d
  {}

  lemma Finish(n: int, base: int, res: int, rem: int)
    requires Account(n, base, res, rem)
    ensures n == res * base + rem && rem >= 0
  {}
}
