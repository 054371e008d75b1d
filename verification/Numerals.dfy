/** Reading off the xor of two numerals, one hexadecimal digit at a time. */
module Numerals {
  import opened Words

  type Digit = x: nat | x < 16

  /** Xor of two hexadecimal digits, bit by bit from the top. */
  function DigitXor(a: Digit, b: Digit): Digit {
    if a >= 8 && b >= 8 then LowXor(a - 8, b - 8)
    else if a >= 8 then 8 + LowXor(a - 8, b)
    else if b >= 8 then 8 + LowXor(a, b - 8)
    else LowXor(a, b)
  }

  function LowXor(a: nat, b: nat): (r: nat)
    requires a < 8 && b < 8
    ensures r < 8
  {
    if a >= 4 && b >= 4 then PairXor(a - 4, b - 4)
    else if a >= 4 then 4 + PairXor(a - 4, b)
    else if b >= 4 then 4 + PairXor(a, b - 4)
    else PairXor(a, b)
  }

  function PairXor(a: nat, b: nat): (r: nat)
    requires a < 4 && b < 4
    ensures r < 4
  {
    if a == b then 0
    else if a == 0 then b
    else if b == 0 then a
    else 6 - a - b
  }

  /** One bit more at the lower end. */
  lemma XorAppendBit(a: nat, b: nat, p: nat, q: nat)
    requires p < 2 && q < 2
    ensures Xor(2 * a + p, 2 * b + q) == 2 * Xor(a, b) + XorBit(p, q)
  {
  }

  lemma XorAppendPair(a: nat, b: nat, p: nat, q: nat)
    requires p < 4 && q < 4
    ensures Xor(4 * a + p, 4 * b + q) == 4 * Xor(a, b) + PairXor(p, q)
  {
    hide Xor;
    var p1, q1 := if p >= 2 then 1 else 0, if q >= 2 then 1 else 0;
    XorAppendBit(a, b, p1, q1);
    XorAppendBit(2 * a + p1, 2 * b + q1, p - 2 * p1, q - 2 * q1);
  }

  lemma LowXorIsPairs(p1: nat, p0: nat, q1: nat, q0: nat)
    requires p1 < 2 && p0 < 4 && q1 < 2 && q0 < 4
    ensures LowXor(4 * p1 + p0, 4 * q1 + q0) == 4 * XorBit(p1, q1) + PairXor(p0, q0)
  {
  }

  lemma DigitXorIsPairs(p1: nat, p0: nat, q1: nat, q0: nat)
    requires p1 < 4 && p0 < 4 && q1 < 4 && q0 < 4
    ensures DigitXor(4 * p1 + p0, 4 * q1 + q0) == 4 * PairXor(p1, q1) + PairXor(p0, q0)
  {
    hide PairXor;
    var p3, q3 := if p1 >= 2 then 1 else 0, if q1 >= 2 then 1 else 0;
    var p2, q2 := p1 - 2 * p3, q1 - 2 * q3;
    LowXorIsPairs(p2, p0, q2, q0);
    PairXorIsBits(p3, p2, q3, q2);
  }

  lemma PairXorIsBits(p1: nat, p0: nat, q1: nat, q0: nat)
    requires p1 < 2 && p0 < 2 && q1 < 2 && q0 < 2
    ensures PairXor(2 * p1 + p0, 2 * q1 + q0) == 2 * XorBit(p1, q1) + XorBit(p0, q0)
  {
  }

  /** One hexadecimal digit more at the lower end. */
  lemma XorAppendDigit(x: nat, y: nat, r: nat, a: Digit, b: Digit, c: Digit, x': nat, y': nat, r': nat)
    requires Xor(x, y) == r && DigitXor(a, b) == c
    requires x' == 0x10 * x + a && y' == 0x10 * y + b && r' == 0x10 * r + c
    ensures Xor(x', y') == r'
  {
    hide Xor, DigitXor, PairXor;
    var p, q := Quarter(a), Quarter(b);
    var p0, q0 := a - 4 * p, b - 4 * q;
    var x1, y1 := 4 * x + p, 4 * y + q;
    XorAppendPair(x, y, p, q);
    XorAppendPair(x1, y1, p0, q0);
    DigitXorIsPairs(p, p0, q, q0);
    assert x' == 4 * x1 + p0 && y' == 4 * y1 + q0;
  }

  function Quarter(p: Digit): (r: nat)
    ensures r < 4 && 4 * r <= p < 4 * r + 4
  {
    if p >= 12 then 3 else if p >= 8 then 2 else if p >= 4 then 1 else 0
  }

  /** Four digits more. */
  lemma XorMore(x: nat, y: nat, r: nat, a3: Digit, a2: Digit, a1: Digit, a0: Digit,
                b3: Digit, b2: Digit, b1: Digit, b0: Digit, c3: Digit, c2: Digit, c1: Digit, c0: Digit,
                x': nat, y': nat, r': nat)
    requires Xor(x, y) == r
    requires DigitXor(a3, b3) == c3 && DigitXor(a2, b2) == c2 && DigitXor(a1, b1) == c1 && DigitXor(a0, b0) == c0
    requires x' == 0x1_0000 * x + 0x1000 * a3 + 0x100 * a2 + 0x10 * a1 + a0
    requires y' == 0x1_0000 * y + 0x1000 * b3 + 0x100 * b2 + 0x10 * b1 + b0
    requires r' == 0x1_0000 * r + 0x1000 * c3 + 0x100 * c2 + 0x10 * c1 + c0
    ensures Xor(x', y') == r'
  {
    hide Xor, DigitXor;
    var x3, y3, r3 := 0x10 * x + a3, 0x10 * y + b3, 0x10 * r + c3;
    var x2, y2, r2 := 0x10 * x3 + a2, 0x10 * y3 + b2, 0x10 * r3 + c2;
    var x1, y1, r1 := 0x10 * x2 + a1, 0x10 * y2 + b1, 0x10 * r2 + c1;
    XorAppendDigit(x, y, r, a3, b3, c3, x3, y3, r3);
    XorAppendDigit(x3, y3, r3, a2, b2, c2, x2, y2, r2);
    XorAppendDigit(x2, y2, r2, a1, b1, c1, x1, y1, r1);
    XorAppendDigit(x1, y1, r1, a0, b0, c0, x', y', r');
  }

  lemma XorOfNothing()
    ensures Xor(0, 0) == 0
  {
  }
}
