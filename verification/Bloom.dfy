/** `combine`, which folds a second hash into an accumulator, and `bloom_hash_index`, the double-hashing
    probe sequence of a Bloom filter. */
module HashCombine {
  import opened Words
  import opened Numerals

  /** COMBINE_MAGIC, the accumulator and its two shifts: everything `combine` adds to the second hash. */
  function Mask(acc: U64): U64 {
    ((0x517cc1b727220a95 + (acc * 0x40) % MOD) % MOD + acc / 4) % MOD
  }

  function Combine(acc: U64, val: U64): U64 {
    Xor64(acc, Add64(val, Mask(acc)))
  }

  /** `combine` never maps two different second hashes to one result. */
  lemma CombineInjective(acc: U64, x: U64, y: U64)
    ensures Combine(acc, x) == Combine(acc, y) <==> x == y
  {
    hide Xor, Mask;
    if Combine(acc, x) == Combine(acc, y) {
      XorBack(acc, Add64(x, Mask(acc)));
      XorBack(acc, Add64(y, Mask(acc)));
      AddInjective(x, y, Mask(acc));
    }
  }

  lemma XorBack(acc: U64, v: U64)
    ensures Xor(acc, Xor64(acc, v)) == v
  {
    XorCommutes(acc, v);
    XorCancels(v, acc);
    XorCommutes(acc, Xor(acc, v));
  }

  lemma AddInjective(x: U64, y: U64, m: U64)
    requires Add64(x, m) == Add64(y, m)
    ensures x == y
  {
  }

  /** The mask with its carries: `acc << 6` loses `top`, `acc >> 2` loses `low`, and the sum wraps `wraps` times. */
  lemma MaskKnown(acc: U64, top: nat, shifted: U64, quarter: U64, low: nat, wraps: nat, m: U64)
    requires acc * 0x40 == top * MOD + shifted
    requires acc == 4 * quarter + low && low < 4
    requires 0x517cc1b727220a95 + shifted + quarter == wraps * MOD + m
    ensures Mask(acc) == m
  {
    DivModUnique(acc * 0x40, MOD, top, shifted);
    assert acc / 4 == quarter;
    var x := 0x517cc1b727220a95 + shifted;
    var carry := if x >= MOD then 1 else 0;
    DivModUnique(x, MOD, carry, x - carry * MOD);
    DivModUnique(x - carry * MOD + quarter, MOD, wraps - carry, m);
  }

  lemma AddKnown(x: U64, y: U64, carry: nat, s: U64)
    requires x + y == carry * MOD + s
    ensures Add64(x, y) == s
  {
    DivModUnique(x + y, MOD, carry, s);
  }

  lemma KnownXor()
    ensures Xor(0xfedcba9876543213, 0x3985dbe2636f69c8) == 0xc759617a153b5bdb
  {
    hide Xor;
    XorOfNothing();
    XorMore(0x0, 0x0, 0x0, 0xf, 0xe, 0xd, 0xc, 0x3, 0x9, 0x8, 0x5, 0xc, 0x7, 0x5, 0x9,
            0xfedc, 0x3985, 0xc759);
    XorMore(0xfedc, 0x3985, 0xc759, 0xb, 0xa, 0x9, 0x8, 0xd, 0xb, 0xe, 0x2, 0x6, 0x1, 0x7, 0xa,
            0xfedcba98, 0x3985dbe2, 0xc759617a);
    XorMore(0xfedcba98, 0x3985dbe2, 0xc759617a, 0x7, 0x6, 0x5, 0x4, 0x6, 0x3, 0x6, 0xf, 0x1, 0x5, 0x3, 0xb,
            0xfedcba987654, 0x3985dbe2636f, 0xc759617a153b);
    XorMore(0xfedcba987654, 0x3985dbe2636f, 0xc759617a153b, 0x3, 0x2, 0x1, 0x3, 0x6, 0x9, 0xc, 0x8, 0x5, 0xb, 0xd, 0xb,
            0xfedcba9876543213, 0x3985dbe2636f69c8, 0xc759617a153b5bdb);
  }

  /** A known value of `combine`: the magic constant, both shifts and the order of the operands. */
  lemma KnownCombine()
    ensures Combine(0xfedcba9876543213, 0xf123456789abcdef) == 0xc759617a153b5bdb
  {
    hide Xor, Mask, Add64;
    MaskKnown(0xfedcba9876543213, 0x3f, 0xb72ea61d950c84c0, 0x3fb72ea61d950c84, 0x3, 1, 0x4862967ad9c39bd9);
    AddKnown(0xf123456789abcdef, 0x4862967ad9c39bd9, 1, 0x3985dbe2636f69c8);
    KnownXor();
  }
}

module Bloom {
  import opened Words

  type U32 = x: nat | x < 0x1_0000_0000

  function Low32(hash64: U64): U32 { hash64 % 0x1_0000_0000 }

  function High32(hash64: U64): U32 { hash64 / 0x1_0000_0000 }

  function BloomHashIndex(hash64: U64, i: U32, numBits: U64): U64 {
    if numBits == 0 then 0
    else Add64(Low32(hash64), Mul64(i, High32(hash64))) % numBits
  }

  /** The position without any wrap-around. */
  function Probe(h1: nat, h2: nat, i: nat, n: nat): nat
    requires n > 0
  {
    (h1 + i * h2) % n
  }

  /** Neither the product nor the sum of a probe reaches 2^64. */
  lemma ProbeNeverWraps(hash64: U64, i: U32, numBits: U64)
    ensures i * High32(hash64) < MOD && Low32(hash64) + i * High32(hash64) < MOD
    ensures numBits > 0 ==> BloomHashIndex(hash64, i, numBits) == Probe(Low32(hash64), High32(hash64), i, numBits)
    ensures numBits == 0 ==> BloomHashIndex(hash64, i, numBits) == 0
  {
    hide Low32, High32;
    var h1, h2 := Low32(hash64), High32(hash64);
    var product := i * h2;
    assert product <= 0xffff_ffff * 0xffff_ffff by { ProductBound(i, h2); }
    assert product < MOD && h1 + product < MOD;
    Unwrapped(product);
    Unwrapped(h1 + product);
    assert Mul64(i, h2) == product;
  }

  lemma Unwrapped(x: nat)
    requires x < MOD
    ensures x % MOD == x
  {
  }

  lemma ProductBound(a: U32, b: U32)
    ensures a * b <= 0xffff_ffff * 0xffff_ffff
  {
    MulAtMost(a, 0xffff_ffff, b);
    MulAtMost(b, 0xffff_ffff, 0xffff_ffff);
  }

  lemma MulAtMost(a: nat, b: nat, c: nat)
    requires a <= b
    ensures a * c <= b * c
  {
    assert (b - a) * c == b * c - a * c;
  }

  /** The two halves of a hash, by their values. */
  lemma HalvesOf(lo: U32, hi: U32)
    ensures Low32(hi * 0x1_0000_0000 + lo) == lo && High32(hi * 0x1_0000_0000 + lo) == hi
  {
    DivModUnique(hi * 0x1_0000_0000 + lo, 0x1_0000_0000, hi, lo);
  }

  /** Which half is the start and which the stride: 5 + 2 * 3 modulo 7. */
  lemma KnownProbe()
    ensures BloomHashIndex(0x3_0000_0005, 2, 7) == 4
  {
    hide Low32, High32;
    HalvesOf(5, 3);
    ProbeNeverWraps(0x3_0000_0005, 2, 7);
  }

  // ---------------------------------------------------------------- greatest common divisor

  ghost predicate Divides(d: int, a: int) {
    exists q: int :: IsMultiple(d, q, a)
  }

  ghost predicate IsMultiple(d: int, q: int, a: int) {
    a == q * d
  }

  function Gcd(a: nat, b: nat): (g: nat)
    requires a > 0 || b > 0
    ensures g > 0
    decreases b
  {
    if b == 0 then a else Gcd(b, a % b)
  }

  lemma {:induction false} GcdDivides(a: nat, b: nat)
    requires a > 0 || b > 0
    ensures Divides(Gcd(a, b), a) && Divides(Gcd(a, b), b)
    decreases b
  {
    var g := Gcd(a, b);
    if b == 0 {
      assert IsMultiple(g, 1, a) && IsMultiple(g, 0, b);
    } else {
      GcdDivides(b, a % b);
      var x :| IsMultiple(g, x, b);
      var y :| IsMultiple(g, y, a % b);
      DivModLaw(a, b);
      assert a == (a / b) * (x * g) + y * g == ((a / b) * x + y) * g;
      assert IsMultiple(g, (a / b) * x + y, a);
    }
  }

  /** The gcd is an integer combination of its arguments. */
  lemma {:induction false} Bezout(a: nat, b: nat) returns (x: int, y: int)
    requires a > 0 || b > 0
    ensures x * a + y * b == Gcd(a, b)
    decreases b
  {
    if b == 0 {
      x, y := 1, 0;
    } else {
      var x', y' := Bezout(b, a % b);
      DivModLaw(a, b);
      var q := a / b;
      x, y := y', x' - q * y';
      assert y' * (a % b) == y' * a - y' * (q * b);
      assert (x' - q * y') * b == x' * b - (q * y') * b;
      assert y' * (q * b) == (q * y') * b;
    }
  }

  // ---------------------------------------------------------------- when two probes meet

  /** The number of probes before the sequence repeats. */
  function Period(h2: nat, n: nat): nat
    requires n > 0
  {
    n / Gcd(h2, n)
  }

  lemma PeriodLaw(h2: nat, n: nat)
    requires n > 0
    ensures 0 < Period(h2, n) <= n && Period(h2, n) * Gcd(h2, n) == n
  {
    var g := Gcd(h2, n);
    GcdDivides(h2, n);
    var q :| IsMultiple(g, q, n);
    DivModUnique(n, g, q, 0);
    if q <= 0 {
      NonPositiveTimes(q, g);
    }
    MultipleAtLeast(g, q);
    assert q * g == g * q;
  }

  lemma NonPositiveTimes(q: int, g: int)
    requires q <= 0 && g > 0
    ensures q * g <= 0
  {
    assert (-q) * g >= 0;
    assert q * g == -((-q) * g);
  }

  lemma SameRemainder(a: int, b: int, n: int)
    requires n > 0
    ensures a % n == b % n <==> Divides(n, a - b)
  {
    DivModLaw(a, n);
    DivModLaw(b, n);
    if a % n == b % n {
      assert a - b == (a / n) * n - (b / n) * n == (a / n - b / n) * n;
      assert IsMultiple(n, a / n - b / n, a - b);
    }
    if Divides(n, a - b) {
      var q :| IsMultiple(n, q, a - b);
      assert a == q * n + (b / n) * n + b % n == (q + b / n) * n + b % n;
      DivModUnique(a, n, q + b / n, b % n);
    }
  }

  /** Two probes hit the same position exactly when their indices differ by a multiple of the period. */
  lemma ProbesMeet(h1: nat, h2: nat, i: nat, j: nat, n: nat)
    requires n > 0
    ensures Probe(h1, h2, i, n) == Probe(h1, h2, j, n) <==> Divides(Period(h2, n), i - j)
  {
    SameRemainder(h1 + i * h2, h1 + j * h2, n);
    assert (h1 + i * h2) - (h1 + j * h2) == (i - j) * h2;
    MultiplesOfPeriod(h2, n, i - j);
  }

  lemma MultiplesOfPeriod(h2: nat, n: nat, d: int)
    requires n > 0
    ensures Divides(n, d * h2) <==> Divides(Period(h2, n), d)
  {
    hide Gcd, Divides, Period;
    if Divides(n, d * h2) {
      PeriodDividesIndex(h2, n, d);
    }
    if Divides(Period(h2, n), d) {
      PeriodMultipleMeets(h2, n, d);
    }
  }

  lemma PeriodDividesIndex(h2: nat, n: nat, d: int)
    requires n > 0 && Divides(n, d * h2)
    ensures Divides(Period(h2, n), d)
  {
    hide Gcd, Period;
    PeriodLaw(h2, n);
    var q :| IsMultiple(n, q, d * h2);
    var x, y := Bezout(h2, n);
    CancelGcd(h2, n, Gcd(h2, n), Period(h2, n), d, q, x, y);
  }

  lemma PeriodMultipleMeets(h2: nat, n: nat, d: int)
    requires n > 0 && Divides(Period(h2, n), d)
    ensures Divides(n, d * h2)
  {
    hide Gcd, Period;
    var g, p := Gcd(h2, n), Period(h2, n);
    PeriodLaw(h2, n);
    GcdDivides(h2, n);
    var q :| IsMultiple(p, q, d);
    var r :| IsMultiple(g, r, h2);
    Rearrange(q, p, r, g);
    assert IsMultiple(n, q * r, d * h2);
  }

  lemma Rearrange(q: int, p: int, r: int, g: int)
    ensures (q * p) * (r * g) == (q * r) * (p * g)
  {
  }

  lemma CancelGcd(h2: nat, n: nat, g: nat, p: nat, d: int, q: int, x: int, y: int)
    requires g > 0 && p * g == n && d * h2 == q * n && x * h2 + y * n == g
    ensures Divides(p, d)
  {
    var m := x * q + d * y;
    assert d * g == d * (x * h2) + d * (y * n);
    assert d * (x * h2) == x * (d * h2) == x * (q * n) == (x * q) * n;
    assert d * (y * n) == (d * y) * n;
    assert d * g == m * n == m * (p * g) == (m * p) * g;
    CancelFactor(d, m * p, g);
    assert IsMultiple(p, m, d);
  }

  lemma CancelFactor(a: int, b: int, g: int)
    requires g > 0 && a * g == b * g
    ensures a == b
  {
    assert (a - b) * g == 0;
    OnlyZeroIsSmall(a - b, g);
  }

  // ---------------------------------------------------------------- counting the positions

  function Min(a: nat, b: nat): nat { if a <= b then a else b }

  /** The positions hit by the probes `0 .. k - 1`. */
  ghost function Positions(h1: nat, h2: nat, k: nat, n: nat): set<nat>
    requires n > 0
  {
    set i | 0 <= i < k :: Probe(h1, h2, i, n)
  }

  /** Probes closer than one period are distinct; every later one repeats an earlier one. */
  lemma {:induction false} CountPositions(h1: nat, h2: nat, k: nat, n: nat)
    requires n > 0
    ensures |Positions(h1, h2, k, n)| == Min(k, Period(h2, n))
  {
    hide Probe, Period;
    var p := Period(h2, n);
    PeriodLaw(h2, n);
    if k == 0 {
      assert Positions(h1, h2, 0, n) == {};
    } else {
      var before, x := Positions(h1, h2, k - 1, n), Probe(h1, h2, k - 1, n);
      CountPositions(h1, h2, k - 1, n);
      assert Positions(h1, h2, k, n) == before + {x};
      if k - 1 < p {
        if x in before {
          var i :| 0 <= i < k - 1 && Probe(h1, h2, i, n) == x;
          ProbesMeet(h1, h2, k - 1, i, n);
          var q :| IsMultiple(p, q, k - 1 - i);
          OnlyZeroIsSmall(q, p);
          assert false;
        }
      } else {
        assert IsMultiple(p, 1, k - 1 - (k - 1 - p));
        ProbesMeet(h1, h2, k - 1, k - 1 - p, n);
        assert x in before;
        assert before + {x} == before;
      }
    }
  }

  /** The first `k` probes of a filter hit exactly `min(k, numBits / gcd(h2, numBits))` bits, all inside it. */
  lemma BloomCoverage(hash64: U64, k: nat, numBits: U64)
    requires k <= 0x1_0000_0000 && numBits > 0
    ensures var hit := set i: U32 | 0 <= i < k :: BloomHashIndex(hash64, i, numBits);
            && |hit| == Min(k, Period(High32(hash64), numBits))
            && forall b | b in hit :: b < numBits
  {
    hide Gcd, Probe, BloomHashIndex, Period, Low32, High32, Min;
    var h1, h2 := Low32(hash64), High32(hash64);
    var hit := set i: U32 | 0 <= i < k :: BloomHashIndex(hash64, i, numBits);
    forall i: U32 | 0 <= i < k
      ensures BloomHashIndex(hash64, i, numBits) == Probe(h1, h2, i, numBits) < numBits
    {
      ProbeNeverWraps(hash64, i, numBits);
      ProbeInside(h1, h2, i, numBits);
    }
    forall b: nat
      ensures b in hit <==> b in Positions(h1, h2, k, numBits)
    {
      if b in Positions(h1, h2, k, numBits) {
        var i: nat :| 0 <= i < k && Probe(h1, h2, i, numBits) == b;
        var j: U32 := i;
        assert BloomHashIndex(hash64, j, numBits) == b;
      }
    }
    assert hit == Positions(h1, h2, k, numBits);
    CountPositions(h1, h2, k, numBits);
  }

  lemma ProbeInside(h1: nat, h2: nat, i: nat, n: nat)
    requires n > 0
    ensures Probe(h1, h2, i, n) < n
  {
  }
}
