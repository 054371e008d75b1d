/** 64-bit unsigned words with wrap-around, on unbounded naturals: `*` and `+` are reduced modulo 2^64,
    `>>` is division, `^` and `|` are defined bit by bit. */
module Words {

  const MOD: nat := 0x1_0000_0000_0000_0000

  type U64 = x: nat | x < 0x1_0000_0000_0000_0000

  type Byte = x: nat | x < 256

  function Pow2(k: nat): (p: nat)
    ensures p > 0
  {
    if k == 0 then 1 else 2 * Pow2(k - 1)
  }

  function XorBit(x: nat, y: nat): (b: nat)
    ensures b < 2
  {
    if x == y then 0 else 1
  }

  function OrBit(x: nat, y: nat): (b: nat)
    ensures b < 2
  {
    if x == 0 && y == 0 then 0 else 1
  }

  function Xor(a: nat, b: nat): nat
    decreases a + b
  {
    if a == 0 && b == 0 then 0 else XorBit(a % 2, b % 2) + 2 * Xor(a / 2, b / 2)
  }

  function Or(a: nat, b: nat): nat
    decreases a + b
  {
    if a == 0 && b == 0 then 0 else OrBit(a % 2, b % 2) + 2 * Or(a / 2, b / 2)
  }

  function Mul64(a: U64, b: U64): U64 { (a * b) % MOD }

  function Add64(a: U64, b: U64): U64 { (a + b) % MOD }

  /** `a >> k`, one bit at a time. */
  function Shr(a: nat, k: nat): (r: nat)
    ensures r <= a
    decreases k
  {
    if k == 0 then a else Shr(a / 2, k - 1)
  }

  function Shl64(a: U64, k: nat): U64 { (a * Pow2(k)) % MOD }

  lemma {:induction false} XorBound(a: nat, b: nat, k: nat)
    requires a < Pow2(k) && b < Pow2(k)
    ensures Xor(a, b) < Pow2(k)
    decreases k
  {
    if k > 0 {
      XorBound(a / 2, b / 2, k - 1);
    }
  }

  lemma Pow2Of64()
    ensures Pow2(64) == MOD
  {
    assert Pow2(8) == 0x100;
    assert Pow2(16) == 0x1_0000;
    assert Pow2(24) == 0x100_0000;
    assert Pow2(32) == 0x1_0000_0000;
    assert Pow2(40) == 0x100_0000_0000;
    assert Pow2(48) == 0x1_0000_0000_0000;
    assert Pow2(56) == 0x100_0000_0000_0000;
  }

  lemma Pow2Of47()
    ensures Pow2(47) == 0x8000_0000_0000
  {
    assert Pow2(8) == 0x100;
    assert Pow2(16) == 0x1_0000;
    assert Pow2(24) == 0x100_0000;
    assert Pow2(32) == 0x1_0000_0000;
    assert Pow2(40) == 0x100_0000_0000;
  }

  function Xor64(a: U64, b: U64): U64 {
    Pow2Of64();
    XorBound(a, b, 64);
    Xor(a, b)
  }

  lemma {:induction false} XorZero(a: nat)
    ensures Xor(a, 0) == a
  {
    if a > 0 {
      XorZero(a / 2);
    }
  }

  lemma {:induction false} XorCommutes(a: nat, b: nat)
    ensures Xor(a, b) == Xor(b, a)
    decreases a + b
  {
    if a > 0 || b > 0 {
      XorCommutes(a / 2, b / 2);
    }
  }

  lemma XorBits(a: nat, b: nat)
    ensures Xor(a, b) / 2 == Xor(a / 2, b / 2) && Xor(a, b) % 2 == XorBit(a % 2, b % 2)
  {
  }

  /** A number is known from its half and its lowest bit. */
  lemma SameHalfAndBit(a: nat, b: nat)
    requires a / 2 == b / 2 && a % 2 == b % 2
    ensures a == b
  {
  }

  /** Xor with the same operand twice gives the other operand back. */
  lemma {:induction false} XorCancels(a: nat, b: nat)
    ensures Xor(Xor(a, b), b) == a
    decreases a + b
  {
    if a > 0 || b > 0 {
      var x := Xor(a, b);
      XorBits(a, b);
      XorBits(x, b);
      XorCancels(a / 2, b / 2);
      SameHalfAndBit(Xor(x, b), a);
    }
  }

  lemma {:induction false} XorAssociates(a: nat, b: nat, c: nat)
    ensures Xor(Xor(a, b), c) == Xor(a, Xor(b, c))
    decreases a + b + c
  {
    if a + b + c > 0 {
      var ab, bc := Xor(a, b), Xor(b, c);
      XorBits(a, b);
      XorBits(b, c);
      XorBits(ab, c);
      XorBits(a, bc);
      XorAssociates(a / 2, b / 2, c / 2);
      SameHalfAndBit(Xor(ab, c), Xor(a, bc));
    }
  }

  lemma {:induction false} XorShr(a: nat, b: nat, k: nat)
    ensures Shr(Xor(a, b), k) == Xor(Shr(a, k), Shr(b, k))
    decreases k
  {
    if k > 0 {
      XorBits(a, b);
      XorShr(a / 2, b / 2, k - 1);
    }
  }

  /** Shifting all the bits out leaves zero. */
  lemma {:induction false} ShrToZero(a: nat, k: nat)
    requires a < Pow2(k)
    ensures Shr(a, k) == 0
    decreases k
  {
    if k > 0 {
      ShrToZero(a / 2, k - 1);
    }
  }

  lemma {:induction false} ShrShr(a: nat, j: nat, k: nat)
    ensures Shr(Shr(a, j), k) == Shr(a, j + k)
    decreases j
  {
    if j > 0 {
      ShrShr(a / 2, j - 1, k);
    }
  }

  lemma {:induction false} ShrIsDivision(a: nat, k: nat)
    ensures Shr(a, k) == a / Pow2(k)
    decreases k
  {
    if k > 0 {
      ShrIsDivision(a / 2, k - 1);
      DivDiv(a, 2, Pow2(k - 1));
    }
  }

  lemma DivDiv(a: nat, b: nat, c: nat)
    requires b > 0 && c > 0
    ensures b * c > 0 && a / (b * c) == a / b / c
  {
    var x := a / b;
    var q, r, s := x / c, x % c, a % b;
    DivModLaw(a, b);
    DivModLaw(x, c);
    MulLess(r, c, b);
    assert (r + 1) * b == r * b + b;
    assert (q * c + r) * b + s == q * (b * c) + (r * b + s);
    MultipleAtLeast(b, c);
    RemainderFits(r, c, b, s);
    DivModUnique(a, b * c, q, r * b + s);
  }

  lemma RemainderFits(r: nat, c: nat, b: nat, s: nat)
    requires r < c && s < b
    ensures r * b + s < b * c
  {
    if r + 1 < c {
      MulLess(r + 1, c, b);
    }
    assert (r + 1) * b == r * b + b;
  }

  /** Bits that do not overlap: `^` is addition. */
  lemma {:induction false} XorDisjoint(a: nat, b: nat, k: nat)
    requires a < Pow2(k)
    ensures Xor(a, b * Pow2(k)) == a + b * Pow2(k)
    decreases k
  {
    if k == 0 {
      XorCommutes(0, b);
      XorZero(b);
    } else {
      var c := b * Pow2(k - 1);
      Doubled(b, k, c);
      XorDisjoint(a / 2, b, k - 1);
      XorBits(a, 2 * c);
      SameHalfAndBit(Xor(a, 2 * c), a + 2 * c);
    }
  }

  lemma Doubled(b: nat, k: nat, c: nat)
    requires k > 0 && c == b * Pow2(k - 1)
    ensures b * Pow2(k) == 2 * c && (2 * c) / 2 == c && (2 * c) % 2 == 0
  {
  }

  lemma DivModUnique(a: int, n: int, q: int, r: int)
    requires n > 0 && 0 <= r < n && a == q * n + r
    ensures a / n == q && a % n == r
  {
    var q' := a / n;
    var d := q' - q;
    DivModLaw(a, n);
    assert d * n == q' * n - q * n;
    OnlyZeroIsSmall(d, n);
  }

  lemma DivModLaw(a: int, n: int)
    requires n > 0
    ensures a == (a / n) * n + a % n && 0 <= a % n < n
  {
  }

  lemma OnlyZeroIsSmall(d: int, n: int)
    requires n > 0 && -n < d * n < n
    ensures d == 0
  {
    if d > 0 {
      MultipleAtLeast(d, n);
    } else if d < 0 {
      assert (-d) * n == -(d * n);
      MultipleAtLeast(-d, n);
    }
  }

  lemma {:induction false} MultipleAtLeast(d: int, n: int)
    requires d > 0 && n > 0
    ensures d * n >= n
  {
    if d > 1 {
      MultipleAtLeast(d - 1, n);
      assert d * n == (d - 1) * n + n;
    }
  }

  lemma MulLess(a: nat, b: nat, c: nat)
    requires a < b && c > 0
    ensures a * c < b * c
  {
    MultipleAtLeast(b - a, c);
    assert (b - a) * c == b * c - a * c;
  }

  lemma {:induction false} Pow2Monotone(a: nat, b: nat)
    requires a <= b
    ensures Pow2(a) <= Pow2(b)
    decreases b
  {
    if a < b {
      Pow2Monotone(a, b - 1);
    }
  }

  lemma {:induction false} Pow2Sum(a: nat, b: nat)
    ensures Pow2(a + b) == Pow2(a) * Pow2(b)
  {
    if a > 0 {
      Pow2Sum(a - 1, b);
      assert Pow2(a) * Pow2(b) == 2 * (Pow2(a - 1) * Pow2(b));
    } else {
      assert Pow2(0) * Pow2(b) == Pow2(b);
    }
  }

  /** Bits that do not overlap: `|` is addition. */
  lemma {:induction false} OrDisjoint(a: nat, b: nat, k: nat)
    requires a < Pow2(k)
    ensures Or(a, b * Pow2(k)) == a + b * Pow2(k)
    decreases k
  {
    if k == 0 {
      OrZero(b);
    } else {
      var c := b * Pow2(k - 1);
      Doubled(b, k, c);
      OrDisjoint(a / 2, b, k - 1);
      SameHalfAndBit(Or(a, 2 * c), a + 2 * c);
    }
  }

  lemma {:induction false} OrZero(b: nat)
    ensures Or(0, b) == b
  {
    if b > 0 {
      OrZero(b / 2);
    }
  }
}
