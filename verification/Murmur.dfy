/** MurmurHash64A as `murmur_hash2_64` computes it: the loop over 8-byte blocks, the fall-through
    tail switch and the finaliser, on 64-bit words that wrap around.
    Every step is shown to be a permutation of the 64-bit words, and the whole hash therefore to be a
    permutation in each single block (and an injection in the tail) when the rest of the key is fixed. */
module Murmur {
  import opened Wrappers
  import opened Words

  /** MURMUR2_64_M, and its inverse modulo 2^64. */
  const M: U64 := 0xc6a4a7935bd1e995
  const M_INVERSE: U64 := 0x5f7a0ea7e59b19bd

  const INT_MAX: nat := 0x7fff_ffff

  // ---------------------------------------------------------------- steps and their inverses

  function MulM(x: U64): U64 { (x * 0xc6a4a7935bd1e995) % 0x1_0000_0000_0000_0000 }

  function UnmulM(x: U64): U64 { (x * 0x5f7a0ea7e59b19bd) % 0x1_0000_0000_0000_0000 }

  /** `x ^= x >> MURMUR2_64_R`, with R = 47 */
  function XorShift(x: U64): U64 { Xor64(x, x / 0x8000_0000_0000) }

  function ScrambleBlock(w: U64): U64 { MulM(XorShift(MulM(w))) }

  function UnscrambleBlock(w: U64): U64 { UnmulM(XorShift(UnmulM(w))) }

  /** One pass of the block loop: the state `h` absorbs the block `w`. */
  function MixBlock(h: U64, w: U64): U64 { MulM(Xor64(h, ScrambleBlock(w))) }

  function UnmixState(h: U64, w: U64): U64 { Xor64(UnmulM(h), ScrambleBlock(w)) }

  function UnmixBlock(before: U64, after: U64): U64 { UnscrambleBlock(Xor64(UnmulM(after), before)) }

  function Finalize(h: U64): U64 { XorShift(MulM(XorShift(h))) }

  function Unfinalize(h: U64): U64 { XorShift(UnmulM(XorShift(h))) }

  lemma InverseTimes(x: U64, a: U64, b: U64, t: nat)
    requires a * b == 1 + t * MOD
    ensures (((x * a) % MOD) * b) % MOD == x
  {
    var q, r := (x * a) / MOD, (x * a) % MOD;
    assert r * b == x + (x * t - q * b) * MOD by {
      assert (x * a) * b == x * (a * b);
      assert (q * MOD + r) * b == q * b * MOD + r * b;
      assert x * (1 + t * MOD) == x + x * t * MOD;
    }
    DivModUnique(r * b, MOD, x * t - q * b, x);
  }

  /** The multiplier is odd, so multiplying by it permutes the words. */
  lemma MulMInverse(x: U64)
    ensures UnmulM(MulM(x)) == x && MulM(UnmulM(x)) == x
  {
    var t := (M * M_INVERSE) / MOD;
    assert M * M_INVERSE == 1 + t * MOD;
    InverseTimes(x, M, M_INVERSE, t);
    InverseTimes(x, M_INVERSE, M, t);
  }

  /** The shift is more than half the word, so shifting and xoring twice gives the word back. */
  lemma XorShiftInvolutive(x: U64)
    ensures XorShift(XorShift(x)) == x
  {
    hide Shr, Pow2, Xor;
    var y := Shr(x, 47);
    ShrBy47(x);
    ShrBy47(Xor64(x, y));
    XorShr(x, y, 47);
    assert Shr(y, 47) == 0 by {
      ShrShr(x, 47, 47);
      Pow2Of64();
      Pow2Monotone(64, 94);
      ShrToZero(x, 94);
    }
    XorZero(y);
    XorCancels(x, y);
  }

  lemma ShrBy47(x: U64)
    ensures Shr(x, 47) == x / 0x8000_0000_0000
  {
    hide Shr;
    ShrIsDivision(x, 47);
    Pow2Of47();
  }

  lemma Xor64Cancels(x: U64, y: U64)
    ensures Xor64(Xor64(x, y), y) == x && Xor64(Xor64(x, y), x) == y
  {
    XorCancels(x, y);
    XorCommutes(x, y);
    XorCancels(y, x);
  }

  lemma ScrambleInverse(w: U64)
    ensures UnscrambleBlock(ScrambleBlock(w)) == w && ScrambleBlock(UnscrambleBlock(w)) == w
  {
    hide UnmulM, MulM, XorShift;
    MulMInverse(w);
    XorShiftInvolutive(MulM(w));
    MulMInverse(XorShift(MulM(w)));
    XorShiftInvolutive(UnmulM(w));
    MulMInverse(XorShift(UnmulM(w)));
  }

  /** Finalisation permutes the 64-bit words. */
  lemma FinalizeIsPermutation(h: U64)
    ensures Unfinalize(Finalize(h)) == h && Finalize(Unfinalize(h)) == h
  {
    hide UnmulM, MulM, XorShift;
    XorShiftInvolutive(h);
    MulMInverse(XorShift(h));
    XorShiftInvolutive(MulM(XorShift(h)));
    XorShiftInvolutive(UnmulM(XorShift(h)));
  }

  /** With the block fixed, absorbing it permutes the states. */
  lemma BlockStepPermutesStates(h: U64, w: U64)
    ensures UnmixState(MixBlock(h, w), w) == h && MixBlock(UnmixState(h, w), w) == h
  {
    hide UnmulM, MulM, Xor64, ScrambleBlock;
    MulMInverse(Xor64(h, ScrambleBlock(w)));
    Xor64Cancels(h, ScrambleBlock(w));
    Xor64Cancels(UnmulM(h), ScrambleBlock(w));
    MulMInverse(h);
  }

  /** With the state fixed, absorbing a block permutes the words. */
  lemma BlockStepPermutesBlocks(h: U64, w: U64)
    ensures UnmixBlock(h, MixBlock(h, w)) == w && MixBlock(h, UnmixBlock(h, w)) == w
  {
    hide UnmulM, MulM, ScrambleBlock, UnscrambleBlock, Xor;
    MulMInverse(Xor64(h, ScrambleBlock(w)));
    Xor64Cancels(h, ScrambleBlock(w));
    ScrambleInverse(w);
    var x := Xor64(UnmulM(w), h);
    ScrambleInverse(x);
    Xor64Cancels(UnmulM(w), h);
    XorCommutes(x, h);
    MulMInverse(w);
  }

  // ---------------------------------------------------------------- bytes and words

  /** Little-endian assembly: byte `i` is shifted left by `8 * i` bits. */
  function LoadWord(p: seq<Byte>): U64
    requires |p| <= 8
  {
    LoadBound(p);
    Load(p)
  }

  function Load(p: seq<Byte>): nat {
    if p == [] then 0 else p[0] + 0x100 * Load(p[1..])
  }

  lemma {:induction false} LoadBound(p: seq<Byte>)
    ensures Load(p) < Pow2(8 * |p|)
    ensures |p| <= 8 ==> Load(p) < MOD
  {
    if p != [] {
      LoadBound(p[1..]);
      Pow2Plus8(8 * |p| - 8);
    }
    if |p| <= 8 {
      Pow2Monotone(8 * |p|, 64);
      Pow2Of64();
    }
  }

  lemma Pow2Plus8(k: nat)
    ensures Pow2(k + 8) == 0x100 * Pow2(k)
  {
    assert Pow2(k + 2) == 4 * Pow2(k);
    assert Pow2(k + 4) == 4 * Pow2(k + 2);
    assert Pow2(k + 6) == 4 * Pow2(k + 4);
  }

  function Store(w: nat, n: nat): (p: seq<Byte>)
    ensures |p| == n
  {
    if n == 0 then [] else [w % 0x100] + Store(w / 0x100, n - 1)
  }

  lemma {:induction false} LoadInjective(p: seq<Byte>, q: seq<Byte>)
    requires |p| == |q| && Load(p) == Load(q)
    ensures p == q
  {
    if p != [] {
      assert Load(p) % 0x100 == p[0] && Load(q) % 0x100 == q[0];
      LoadInjective(p[1..], q[1..]);
      assert p == [p[0]] + p[1..] && q == [q[0]] + q[1..];
    }
  }

  lemma {:induction false} LoadStored(w: nat, n: nat)
    requires w < Pow2(8 * n)
    ensures Load(Store(w, n)) == w
  {
    if n > 0 {
      Pow2Plus8(8 * n - 8);
      LoadStored(w / 0x100, n - 1);
    }
  }

  /** The block assembly as written: the bytes are shifted and or-ed together. */
  function AssembleBlock(p: seq<Byte>): U64
    requires |p| == 8
  {
    OrAssembles(p, 8);
    OrBytes(p, 8)
  }

  /** `p[0] | p[1] << 8 | ... ` up to byte `n - 1`, grouped to the left. */
  function OrBytes(p: seq<Byte>, n: nat): nat
    requires 0 < n <= |p| <= 8
  {
    if n == 1 then p[0] else Or(OrBytes(p, n - 1), p[n - 1] * Pow2(8 * (n - 1)))
  }

  lemma {:induction false} OrAssembles(p: seq<Byte>, n: nat)
    requires 0 < n <= |p| <= 8
    ensures OrBytes(p, n) == Load(p[..n]) < MOD
  {
    LoadBound(p[..n]);
    if n == 1 {
      assert p[..1] == [p[0]];
    } else {
      OrAssembles(p, n - 1);
      LoadBound(p[..n - 1]);
      OrDisjoint(Load(p[..n - 1]), p[n - 1], 8 * (n - 1));
      LoadAppend(p[..n - 1], p[n - 1]);
      assert p[..n] == p[..n - 1] + [p[n - 1]];
    }
  }

  lemma {:induction false} LoadAppend(p: seq<Byte>, b: Byte)
    ensures Load(p + [b]) == Load(p) + b * Pow2(8 * |p|)
  {
    if p == [] {
      assert p + [b] == [b];
    } else {
      assert (p + [b])[1..] == p[1..] + [b];
      LoadAppend(p[1..], b);
      Pow2Plus8(8 * |p| - 8);
      assert b * (0x100 * Pow2(8 * |p| - 8)) == 0x100 * (b * Pow2(8 * |p| - 8));
    }
  }

  // ---------------------------------------------------------------- the tail switch

  /** `h ^= tail[i] << (8 * i)`: one case of the fall-through switch. */
  function XorTailByte(h: U64, tail: seq<Byte>, i: nat): U64
    requires i < |tail| < 8
  {
    Xor64(h, Shl64(tail[i], 8 * i))
  }

  /** The bytes of the tail from index `i` on, at their final positions. */
  function HighBytes(tail: seq<Byte>, i: nat): nat
    requires i <= |tail|
  {
    Load(tail[i..]) * Pow2(8 * i)
  }

  lemma HighBytesBound(tail: seq<Byte>, i: nat)
    requires i <= |tail| <= 8
    ensures HighBytes(tail, i) < MOD
  {
    LoadBound(tail[i..]);
    Pow2Sum(8 * (|tail| - i), 8 * i);
    MulLess(Load(tail[i..]), Pow2(8 * (|tail| - i)), Pow2(8 * i));
    Pow2Monotone(8 * |tail|, 64);
    Pow2Of64();
  }

  lemma HighBytesStep(tail: seq<Byte>, i: nat)
    requires i < |tail| < 8
    ensures HighBytes(tail, i) == tail[i] * Pow2(8 * i) + HighBytes(tail, i + 1)
    ensures HighBytes(tail, i + 1) == Load(tail[i + 1..]) * Pow2(8 * i + 8)
    ensures tail[i] * Pow2(8 * i) < Pow2(8 * i + 8)
  {
    var rest, p := Load(tail[i + 1..]), Pow2(8 * i);
    assert tail[i..][1..] == tail[i + 1..];
    assert 8 * (i + 1) == 8 * i + 8;
    Pow2Plus8(8 * i);
    MulLess(tail[i], 0x100, p);
    Distribute(tail[i], rest, p);
  }

  lemma Distribute(b: nat, rest: nat, p: nat)
    ensures (b + 0x100 * rest) * p == b * p + rest * (0x100 * p)
  {
  }

  /** Each case of the switch moves one more byte of the tail into the accumulated word. */
  lemma TailByteStep(h: U64, tail: seq<Byte>, i: nat)
    requires i < |tail| < 8
    ensures HighBytes(tail, i + 1) < MOD && HighBytes(tail, i) < MOD
    ensures XorTailByte(Xor64(h, HighBytes(tail, i + 1)), tail, i) == Xor64(h, HighBytes(tail, i))
  {
    hide HighBytes, Xor, Pow2;
    HighBytesBound(tail, i);
    HighBytesBound(tail, i + 1);
    LowAndHighBytes(tail, i);
    var low, high := tail[i] * Pow2(8 * i), HighBytes(tail, i + 1);
    ShiftedByteFits(tail[i], 8 * i, low);
    XorAssociates(h, high, low);
  }

  /** The next byte and the bytes above it have no bit in common. */
  lemma LowAndHighBytes(tail: seq<Byte>, i: nat)
    requires i < |tail| < 8
    ensures var low, high := tail[i] * Pow2(8 * i), HighBytes(tail, i + 1);
            HighBytes(tail, i) == low + high == Xor(high, low)
  {
    hide HighBytes, Xor, Pow2;
    HighBytesStep(tail, i);
    var low, high := tail[i] * Pow2(8 * i), HighBytes(tail, i + 1);
    XorDisjoint(low, Load(tail[i + 1..]), 8 * i + 8);
    XorCommutes(low, high);
  }

  lemma ShiftedByteFits(b: Byte, k: nat, low: nat)
    requires low == b * Pow2(k) < MOD
    ensures Shl64(b, k) == low
  {
  }

  // ---------------------------------------------------------------- the whole hash

  function BlockAt(key: seq<Byte>, i: nat): U64
    requires 8 * i + 8 <= |key|
  {
    LoadWord(key[8 * i..8 * i + 8])
  }

  /** The state after absorbing the blocks `lo .. hi - 1` of `key`. */
  function AbsorbBlocks(h: U64, key: seq<Byte>, lo: nat, hi: nat): U64
    requires lo <= hi && 8 * hi <= |key|
    decreases hi
  {
    if lo == hi then h else MixBlock(AbsorbBlocks(h, key, lo, hi - 1), BlockAt(key, hi - 1))
  }

  function UnabsorbBlocks(h: U64, key: seq<Byte>, lo: nat, hi: nat): U64
    requires lo <= hi && 8 * hi <= |key|
    decreases hi
  {
    if lo == hi then h else UnabsorbBlocks(UnmixState(h, BlockAt(key, hi - 1)), key, lo, hi - 1)
  }

  function AbsorbTail(h: U64, tail: seq<Byte>): U64
    requires |tail| < 8
  {
    if tail == [] then h else MulM(Xor64(h, LoadWord(tail)))
  }

  function UnabsorbTail(h: U64, tail: seq<Byte>): U64
    requires |tail| < 8
  {
    if tail == [] then h else Xor64(UnmulM(h), LoadWord(tail))
  }

  function InitialState(length: nat, seed: U64): U64
    requires length <= INT_MAX
  {
    Xor64(seed, MulM(length))
  }

  function Hash(key: seq<Byte>, seed: U64): U64
    requires |key| <= INT_MAX
  {
    var n := |key| / 8;
    Finalize(AbsorbTail(AbsorbBlocks(InitialState(|key|, seed), key, 0, n), key[8 * n..]))
  }

  /** The function of the source: a null key or a length that is not positive hashes as the empty key. */
  method MurmurHash2(key: Option<seq<Byte>>, len: int, seed: U64) returns (h: U64)
    requires -0x8000_0000 <= len <= INT_MAX
    requires key.Some? && len > 0 ==> len <= |key.value|
    ensures len <= 0 ==> h == Hash([], seed)
    ensures key == None && len > 0 ==> h == Finalize(InitialState(len, seed))
    ensures key.Some? && len > 0 ==> h == Hash(key.value[..len], seed)
  {
    h := Xor64(seed, MulM(if len >= 0 then len else 0));
    if key == None || len <= 0 {
      h := XorShift(h);
      h := MulM(h);
      h := XorShift(h);
      return;
    }
    ghost var whole := key.value[..len];
    ghost var h0 := h;
    var data := key.value[..len];
    var blocks := len / 8;
    var i := 0;
    while i < blocks
      invariant 0 <= i <= blocks
      invariant h == AbsorbBlocks(h0, whole, 0, i)
    {
      var k := AssembleBlock(data[8 * i..8 * i + 8]);
      OrAssembles(data[8 * i..8 * i + 8], 8);
      assert data[8 * i..8 * i + 8][..8] == data[8 * i..8 * i + 8];
      k := MulM(k);
      k := XorShift(k);
      k := MulM(k);
      h := Xor64(h, k);
      h := MulM(h);
      i := i + 1;
    }
    var tail := data[8 * blocks..];
    h := HashTail(h, tail);
    h := XorShift(h);
    h := MulM(h);
    h := XorShift(h);
  }

  /** The fall-through switch on the number of trailing bytes. */
  method HashTail(h0: U64, tail: seq<Byte>) returns (h: U64)
    requires |tail| < 8
    ensures h == AbsorbTail(h0, tail)
  {
    h := h0;
    NothingAbsorbed(h0, tail);
    if |tail| >= 7 { h := AbsorbTailByte(h0, h, tail, 6); }
    if |tail| >= 6 { h := AbsorbTailByte(h0, h, tail, 5); }
    if |tail| >= 5 { h := AbsorbTailByte(h0, h, tail, 4); }
    if |tail| >= 4 { h := AbsorbTailByte(h0, h, tail, 3); }
    if |tail| >= 3 { h := AbsorbTailByte(h0, h, tail, 2); }
    if |tail| >= 2 { h := AbsorbTailByte(h0, h, tail, 1); }
    if |tail| >= 1 {
      h := AbsorbTailByte(h0, h, tail, 0);
      WholeTailAbsorbed(h0, h, tail);
      h := MulM(h);
    }
  }

  method AbsorbTailByte(ghost h0: U64, h: U64, tail: seq<Byte>, i: nat) returns (r: U64)
    requires i < |tail| < 8 && TailAbsorbedFrom(h0, h, tail, i + 1)
    ensures TailAbsorbedFrom(h0, r, tail, i)
  {
    TailByteStep(h0, tail, i);
    r := XorTailByte(h, tail, i);
  }

  ghost predicate TailAbsorbedFrom(h0: U64, h: U64, tail: seq<Byte>, i: nat)
    requires |tail| < 8
  {
    i <= |tail| && HighBytes(tail, i) < MOD && h == Xor64(h0, HighBytes(tail, i))
  }

  lemma NothingAbsorbed(h0: U64, tail: seq<Byte>)
    requires |tail| < 8
    ensures TailAbsorbedFrom(h0, h0, tail, |tail|)
  {
    assert tail[|tail|..] == [];
    XorZero(h0);
  }

  lemma WholeTailAbsorbed(h0: U64, h: U64, tail: seq<Byte>)
    requires |tail| < 8 && TailAbsorbedFrom(h0, h, tail, 0)
    ensures h == Xor64(h0, LoadWord(tail))
  {
    assert tail[0..] == tail;
  }

  // ---------------------------------------------------------------- collisions

  lemma {:induction false} AbsorbSplit(h: U64, key: seq<Byte>, mid: nat, hi: nat)
    requires mid <= hi && 8 * hi <= |key|
    ensures AbsorbBlocks(h, key, 0, hi) == AbsorbBlocks(AbsorbBlocks(h, key, 0, mid), key, mid, hi)
    decreases hi
  {
    hide MixBlock, BlockAt;
    if mid < hi {
      AbsorbSplit(h, key, mid, hi - 1);
    }
  }

  lemma {:induction false} AbsorbReadsOnlyItsBlocks(h: U64, a: seq<Byte>, b: seq<Byte>, lo: nat, hi: nat)
    requires lo <= hi && |a| == |b| && 8 * hi <= |a|
    requires forall j :: lo <= j < hi ==> BlockAt(a, j) == BlockAt(b, j)
    ensures AbsorbBlocks(h, a, lo, hi) == AbsorbBlocks(h, b, lo, hi)
    decreases hi
  {
    hide MixBlock, BlockAt;
    if lo < hi {
      AbsorbReadsOnlyItsBlocks(h, a, b, lo, hi - 1);
    }
  }

  /** Blocks that lie inside a common slice are equal. */
  lemma SameBlocks(a: seq<Byte>, b: seq<Byte>, lo: nat, hi: nat)
    requires lo <= hi && |a| == |b| && 8 * hi <= |a| && a[8 * lo..8 * hi] == b[8 * lo..8 * hi]
    ensures forall j :: lo <= j < hi ==> BlockAt(a, j) == BlockAt(b, j)
  {
    hide LoadWord;
    forall j | lo <= j < hi
      ensures BlockAt(a, j) == BlockAt(b, j)
    {
      SubSlice(a, 8 * lo, 8 * hi, 8 * j, 8 * j + 8);
      SubSlice(b, 8 * lo, 8 * hi, 8 * j, 8 * j + 8);
    }
  }

  lemma SubSlice(a: seq<Byte>, lo: nat, hi: nat, i: nat, j: nat)
    requires lo <= i <= j <= hi <= |a|
    ensures a[i..j] == a[lo..hi][i - lo..j - lo]
  {
    var l, r := a[i..j], a[lo..hi][i - lo..j - lo];
    forall k | 0 <= k < |l|
      ensures l[k] == r[k]
    {
    }
  }

  /** Absorbing a fixed run of blocks permutes the states. */
  lemma {:induction false} AbsorbPermutesStates(h: U64, key: seq<Byte>, lo: nat, hi: nat)
    requires lo <= hi && 8 * hi <= |key|
    ensures UnabsorbBlocks(AbsorbBlocks(h, key, lo, hi), key, lo, hi) == h
    ensures AbsorbBlocks(UnabsorbBlocks(h, key, lo, hi), key, lo, hi) == h
    decreases hi
  {
    hide MixBlock, UnmixState, BlockAt;
    if lo < hi {
      var w := BlockAt(key, hi - 1);
      BlockStepPermutesStates(AbsorbBlocks(h, key, lo, hi - 1), w);
      AbsorbPermutesStates(h, key, lo, hi - 1);
      AbsorbPermutesStates(UnmixState(h, w), key, lo, hi - 1);
      BlockStepPermutesStates(h, w);
    }
  }

  lemma TailPermutesStates(h: U64, tail: seq<Byte>)
    requires |tail| < 8
    ensures UnabsorbTail(AbsorbTail(h, tail), tail) == h && AbsorbTail(UnabsorbTail(h, tail), tail) == h
  {
    hide LoadWord, UnmulM, MulM, Xor64;
    if tail != [] {
      var w := LoadWord(tail);
      MulMInverse(Xor64(h, w));
      Xor64Cancels(h, w);
      Xor64Cancels(UnmulM(h), w);
      MulMInverse(h);
    }
  }

  /** The hash seen from one block: what precedes the block, the block, and a permutation after it. */
  function AfterBlock(key: seq<Byte>, i: nat, h: U64): U64
    requires |key| <= INT_MAX && 8 * i + 8 <= |key|
  {
    var n := |key| / 8;
    Finalize(AbsorbTail(AbsorbBlocks(h, key, i + 1, n), key[8 * n..]))
  }

  function BeforeBlock(key: seq<Byte>, i: nat, seed: U64): U64
    requires |key| <= INT_MAX && 8 * i + 8 <= |key|
  {
    AbsorbBlocks(InitialState(|key|, seed), key, 0, i)
  }

  function UndoAfterBlock(key: seq<Byte>, i: nat, v: U64): U64
    requires |key| <= INT_MAX && 8 * i + 8 <= |key|
  {
    var n := |key| / 8;
    UnabsorbBlocks(UnabsorbTail(Unfinalize(v), key[8 * n..]), key, i + 1, n)
  }

  lemma UndoneAfterBlock(key: seq<Byte>, i: nat, h: U64)
    requires |key| <= INT_MAX && 8 * i + 8 <= |key|
    ensures UndoAfterBlock(key, i, AfterBlock(key, i, h)) == h
  {
    hide Finalize, Unfinalize, AbsorbTail, UnabsorbTail, AbsorbBlocks, UnabsorbBlocks;
    var n := |key| / 8;
    var tail := key[8 * n..];
    var g := AbsorbBlocks(h, key, i + 1, n);
    FinalizeIsPermutation(AbsorbTail(g, tail));
    TailPermutesStates(g, tail);
    AbsorbPermutesStates(h, key, i + 1, n);
  }

  lemma RedoneAfterBlock(key: seq<Byte>, i: nat, v: U64)
    requires |key| <= INT_MAX && 8 * i + 8 <= |key|
    ensures AfterBlock(key, i, UndoAfterBlock(key, i, v)) == v
  {
    hide Finalize, Unfinalize, AbsorbTail, UnabsorbTail, AbsorbBlocks, UnabsorbBlocks;
    var n := |key| / 8;
    var tail := key[8 * n..];
    FinalizeIsPermutation(v);
    TailPermutesStates(Unfinalize(v), tail);
    AbsorbPermutesStates(UnabsorbTail(Unfinalize(v), tail), key, i + 1, n);
  }

  lemma HashAroundBlock(key: seq<Byte>, i: nat, seed: U64)
    requires |key| <= INT_MAX && 8 * i + 8 <= |key|
    ensures Hash(key, seed) == AfterBlock(key, i, MixBlock(BeforeBlock(key, i, seed), BlockAt(key, i)))
  {
    hide MixBlock, AbsorbTail, Finalize, InitialState, BlockAt;
    AbsorbSplit(InitialState(|key|, seed), key, i + 1, |key| / 8);
  }

  /** Keys of one length that agree outside block `i`. */
  ghost predicate AgreeOutsideBlock(a: seq<Byte>, b: seq<Byte>, i: nat) {
    |a| == |b| && 8 * i + 8 <= |a| && a[..8 * i] == b[..8 * i] && a[8 * i + 8..] == b[8 * i + 8..]
  }

  lemma BeforeBlockAgrees(a: seq<Byte>, b: seq<Byte>, i: nat, seed: U64)
    requires |a| <= INT_MAX && AgreeOutsideBlock(a, b, i)
    ensures BeforeBlock(a, i, seed) == BeforeBlock(b, i, seed)
  {
    hide AbsorbBlocks;
    assert a[0..8 * i] == a[..8 * i] == b[0..8 * i];
    SameBlocks(a, b, 0, i);
    AbsorbReadsOnlyItsBlocks(InitialState(|a|, seed), a, b, 0, i);
  }

  lemma AfterBlockAgrees(a: seq<Byte>, b: seq<Byte>, i: nat, h: U64)
    requires |a| <= INT_MAX && AgreeOutsideBlock(a, b, i)
    ensures AfterBlock(a, i, h) == AfterBlock(b, i, h)
  {
    hide AbsorbBlocks, AbsorbTail, Finalize;
    var n := |a| / 8;
    SlicesOfEqualSuffixes(a, b, 8 * i + 8, 8 * n);
    SameBlocks(a, b, i + 1, n);
    AbsorbReadsOnlyItsBlocks(h, a, b, i + 1, n);
  }

  lemma SlicesOfEqualSuffixes(a: seq<Byte>, b: seq<Byte>, lo: nat, hi: nat)
    requires lo <= hi <= |a| && |a| == |b| && a[lo..] == b[lo..]
    ensures a[lo..hi] == b[lo..hi] && a[hi..] == b[hi..]
  {
    assert a[lo..hi] == a[lo..][..hi - lo] && a[hi..] == a[lo..][hi - lo..];
    assert b[lo..hi] == b[lo..][..hi - lo] && b[hi..] == b[lo..][hi - lo..];
  }

  lemma EqualHashesEqualBlocks(a: seq<Byte>, b: seq<Byte>, i: nat, seed: U64)
    requires |a| <= INT_MAX && AgreeOutsideBlock(a, b, i)
    ensures Hash(a, seed) == Hash(b, seed) ==> BlockAt(a, i) == BlockAt(b, i)
  {
    hide Hash, MixBlock, AfterBlock, UndoAfterBlock, BeforeBlock, BlockAt, UnmixBlock;
    if Hash(a, seed) != Hash(b, seed) { return; }
    var h := BeforeBlock(a, i, seed);
    var ha, hb := MixBlock(h, BlockAt(a, i)), MixBlock(h, BlockAt(b, i));
    assert AfterBlock(a, i, ha) == AfterBlock(a, i, hb) by {
      HashAroundBlock(a, i, seed);
      HashAroundBlock(b, i, seed);
      BeforeBlockAgrees(a, b, i, seed);
      AfterBlockAgrees(a, b, i, hb);
    }
    assert ha == hb by {
      UndoneAfterBlock(a, i, ha);
      UndoneAfterBlock(a, i, hb);
    }
    BlockStepPermutesBlocks(h, BlockAt(a, i));
    BlockStepPermutesBlocks(h, BlockAt(b, i));
  }

  /** Two keys of one length that differ at most inside one 8-byte block collide only when they are equal. */
  lemma OneBlockNeverCollides(a: seq<Byte>, b: seq<Byte>, i: nat, seed: U64)
    requires |a| <= INT_MAX && AgreeOutsideBlock(a, b, i)
    ensures Hash(a, seed) == Hash(b, seed) <==> a == b
  {
    hide Hash, Load;
    if Hash(a, seed) == Hash(b, seed) {
      EqualHashesEqualBlocks(a, b, i, seed);
      LoadInjective(a[8 * i..8 * i + 8], b[8 * i..8 * i + 8]);
      assert a == a[..8 * i] + a[8 * i..8 * i + 8] + a[8 * i + 8..];
      assert b == b[..8 * i] + b[8 * i..8 * i + 8] + b[8 * i + 8..];
    }
  }

  /** And every 64-bit value is the hash of some choice of that block, so the hash is a permutation in it. */
  lemma EveryHashIsReached(a: seq<Byte>, i: nat, seed: U64, v: U64) returns (b: seq<Byte>)
    requires |a| <= INT_MAX && 8 * i + 8 <= |a|
    ensures AgreeOutsideBlock(a, b, i) && Hash(b, seed) == v
  {
    hide Hash, MixBlock, AfterBlock, UndoAfterBlock, BeforeBlock, UnmixBlock, Load, Store;
    var h := BeforeBlock(a, i, seed);
    var w := UnmixBlock(h, UndoAfterBlock(a, i, v));
    var p := Store(w, 8);
    b := a[..8 * i] + p + a[8 * i + 8..];
    assert b[..8 * i] == a[..8 * i] && b[8 * i + 8..] == a[8 * i + 8..];
    assert b[8 * i..8 * i + 8] == p;
    Pow2Of64();
    LoadStored(w, 8);
    HashAroundBlock(b, i, seed);
    BeforeBlockAgrees(a, b, i, seed);
    AfterBlockAgrees(a, b, i, UndoAfterBlock(a, i, v));
    BlockStepPermutesBlocks(h, UndoAfterBlock(a, i, v));
    RedoneAfterBlock(a, i, v);
  }

  /** Two keys of one length that differ at most in the trailing `len % 8` bytes collide only when equal. */
  lemma TailNeverCollides(a: seq<Byte>, b: seq<Byte>, seed: U64)
    requires |a| == |b| <= INT_MAX && a[..8 * (|a| / 8)] == b[..8 * (|a| / 8)]
    ensures Hash(a, seed) == Hash(b, seed) <==> a == b
  {
    hide Finalize, Unfinalize, AbsorbBlocks, InitialState, UnmulM, MulM, Xor64, Load;
    var n := |a| / 8;
    var ta, tb := a[8 * n..], b[8 * n..];
    assert a == a[..8 * n] + ta && b == b[..8 * n] + tb;
    if Hash(a, seed) == Hash(b, seed) {
      var h0 := InitialState(|a|, seed);
      assert a[0..8 * n] == b[0..8 * n];
      SameBlocks(a, b, 0, n);
      AbsorbReadsOnlyItsBlocks(h0, a, b, 0, n);
      var h := AbsorbBlocks(h0, a, 0, n);
      FinalizeIsPermutation(AbsorbTail(h, ta));
      FinalizeIsPermutation(AbsorbTail(h, tb));
      if ta != [] {
        MulMInverse(Xor64(h, LoadWord(ta)));
        MulMInverse(Xor64(h, LoadWord(tb)));
        Xor64Cancels(h, LoadWord(ta));
        Xor64Cancels(h, LoadWord(tb));
        LoadInjective(ta, tb);
      }
    }
  }
}
