/** Known values of MurmurHash64A, worked out step by step, and the part of the length and of the seed in the
    hash. */
module MurmurKnown {
  import opened Words
  import opened Numerals
  import opened Murmur

  // ---------------------------------------------------------------- the steps on numerals

  /** A product with its quotient and remainder by 2^64. */
  lemma MulKnown(x: U64, q: nat, r: U64)
    requires x * 0xc6a4a7935bd1e995 == q * 0x1_0000_0000_0000_0000 + r
    ensures MulM(x) == r
  {
  }

  /** A word with its upper 17 and lower 47 bits. */
  lemma ShiftKnown(x: U64, hi: nat, lo: nat)
    requires x == hi * 0x8000_0000_0000 + lo && lo < 0x8000_0000_0000
    ensures x / 0x8000_0000_0000 == hi
  {
  }

  lemma LoadOfEight(p: seq<Byte>)
    requires |p| == 8
    ensures Load(p) == LowThree(p) + 0x100_0000 * (p[3] as nat)
                     + 0x1_0000_0000 * (LowThree(p[4..]) + 0x100_0000 * (p[7] as nat))
  {
    LoadOfFour(p);
    LoadOfFour(p[4..]);
    assert p[4..][4..] == [];
  }

  function LowThree(p: seq<Byte>): nat
    requires |p| >= 3
  {
    p[0] as nat + 0x100 * (p[1] as nat) + 0x1_0000 * (p[2] as nat)
  }

  lemma LoadOfFour(p: seq<Byte>)
    requires |p| >= 4
    ensures Load(p) == LowThree(p) + 0x100_0000 * (p[3] as nat) + 0x1_0000_0000 * Load(p[4..])
  {
    assert p[1..][1..] == p[2..] && p[2..][1..] == p[3..] && p[3..][1..] == p[4..];
    assert Load(p[3..]) == p[3..][0] as nat + 0x100 * Load(p[4..]);
    assert Load(p[2..]) == p[2..][0] as nat + 0x100 * Load(p[3..]);
    assert Load(p[1..]) == p[1..][0] as nat + 0x100 * Load(p[2..]);
  }

  lemma LoadOfThree(p: seq<Byte>)
    requires |p| == 3
    ensures Load(p) == LowThree(p)
  {
    assert p[1..][1..] == p[2..] && p[2..][1..] == p[3..] == [];
    assert Load(p[2..]) == p[2..][0] as nat + 0x100 * Load(p[3..]);
  }

  const LONG_KEY: seq<Byte> := [1, 2, 3, 4, 5, 6, 7, 8, 9, 10, 11, 12, 13, 14, 15, 16, 17, 18, 19]

  // ---------------------------------------------------------------- two blocks, three bytes, seed 0

  lemma LongInit()
    ensures InitialState(19, 0) == 0xbe386fefd094560f
  {
    hide Xor, MulM;
    MulKnown(0x13, 0xe, 0xbe386fefd094560f);
    XorCommutes(0, 0xbe386fefd094560f);
    XorZero(0xbe386fefd094560f);
  }

  lemma LongScramble1Xor()
    ensures Xor(0x15c3375010641395, 0x2b86) == 0x15c3375010643813
  {
    hide Xor;
    XorOfNothing();
    XorMore(0x0, 0x0, 0x0, 0x1, 0x5, 0xc, 0x3, 0x0, 0x0, 0x0, 0x0, 0x1, 0x5, 0xc, 0x3,
            0x15c3, 0x0, 0x15c3);
    XorMore(0x15c3, 0x0, 0x15c3, 0x3, 0x7, 0x5, 0x0, 0x0, 0x0, 0x0, 0x0, 0x3, 0x7, 0x5, 0x0,
            0x15c33750, 0x0, 0x15c33750);
    XorMore(0x15c33750, 0x0, 0x15c33750, 0x1, 0x0, 0x6, 0x4, 0x0, 0x0, 0x0, 0x0, 0x1, 0x0, 0x6, 0x4,
            0x15c337501064, 0x0, 0x15c337501064);
    XorMore(0x15c337501064, 0x0, 0x15c337501064, 0x1, 0x3, 0x9, 0x5, 0x2, 0xb, 0x8, 0x6, 0x3, 0x8, 0x1, 0x3,
            0x15c3375010641395, 0x2b86, 0x15c3375010643813);
  }

  lemma LongScramble1()
    ensures ScrambleBlock(0x807060504030201) == 0x5e74aa2e49e0ee0f
  {
    hide Xor, MulM;
    MulKnown(0x807060504030201, 0x63a9868f027b42c, 0x15c3375010641395);
    ShiftKnown(0x15c3375010641395, 0x2b86, 0x375010641395);
    LongScramble1Xor();
    MulKnown(0x15c3375010643813, 0x10e2fc163bf43e22, 0x5e74aa2e49e0ee0f);
  }

  lemma LongMix1Xor()
    ensures Xor(0xbe386fefd094560f, 0x5e74aa2e49e0ee0f) == 0xe04cc5c19974b800
  {
    hide Xor;
    XorOfNothing();
    XorMore(0x0, 0x0, 0x0, 0xb, 0xe, 0x3, 0x8, 0x5, 0xe, 0x7, 0x4, 0xe, 0x0, 0x4, 0xc,
            0xbe38, 0x5e74, 0xe04c);
    XorMore(0xbe38, 0x5e74, 0xe04c, 0x6, 0xf, 0xe, 0xf, 0xa, 0xa, 0x2, 0xe, 0xc, 0x5, 0xc, 0x1,
            0xbe386fef, 0x5e74aa2e, 0xe04cc5c1);
    XorMore(0xbe386fef, 0x5e74aa2e, 0xe04cc5c1, 0xd, 0x0, 0x9, 0x4, 0x4, 0x9, 0xe, 0x0, 0x9, 0x9, 0x7, 0x4,
            0xbe386fefd094, 0x5e74aa2e49e0, 0xe04cc5c19974);
    XorMore(0xbe386fefd094, 0x5e74aa2e49e0, 0xe04cc5c19974, 0x5, 0x6, 0x0, 0xf, 0xe, 0xe, 0x0, 0xf, 0xb, 0x8, 0x0, 0x0,
            0xbe386fefd094560f, 0x5e74aa2e49e0ee0f, 0xe04cc5c19974b800);
  }

  lemma LongMix1()
    ensures MixBlock(0xbe386fefd094560f, 0x807060504030201) == 0xd354bc0bc4671800
  {
    hide Xor, MulM, ScrambleBlock;
    LongScramble1();
    LongMix1Xor();
    MulKnown(0xe04cc5c19974b800, 0xae0ba4f59e40a3fd, 0xd354bc0bc4671800);
  }

  lemma LongScramble2Xor()
    ensures Xor(0xaa22714d72e8083d, 0x15444) == 0xaa22714d72e95c79
  {
    hide Xor;
    XorOfNothing();
    XorMore(0x0, 0x0, 0x0, 0xa, 0xa, 0x2, 0x2, 0x0, 0x0, 0x0, 0x0, 0xa, 0xa, 0x2, 0x2,
            0xaa22, 0x0, 0xaa22);
    XorMore(0xaa22, 0x0, 0xaa22, 0x7, 0x1, 0x4, 0xd, 0x0, 0x0, 0x0, 0x0, 0x7, 0x1, 0x4, 0xd,
            0xaa22714d, 0x0, 0xaa22714d);
    XorMore(0xaa22714d, 0x0, 0xaa22714d, 0x7, 0x2, 0xe, 0x8, 0x0, 0x0, 0x0, 0x1, 0x7, 0x2, 0xe, 0x9,
            0xaa22714d72e8, 0x1, 0xaa22714d72e9);
    XorMore(0xaa22714d72e8, 0x1, 0xaa22714d72e9, 0x0, 0x8, 0x3, 0xd, 0x5, 0x4, 0x4, 0x4, 0x5, 0xc, 0x7, 0x9,
            0xaa22714d72e8083d, 0x15444, 0xaa22714d72e95c79);
  }

  lemma LongScramble2()
    ensures ScrambleBlock(0x100f0e0d0c0b0a09) == 0x72163c88c8c5f36d
  {
    hide Xor, MulM;
    MulKnown(0x100f0e0d0c0b0a09, 0xc75f906283e5a1e, 0xaa22714d72e8083d);
    ShiftKnown(0xaa22714d72e8083d, 0x15444, 0x714d72e8083d);
    LongScramble2Xor();
    MulKnown(0xaa22714d72e95c79, 0x84041110e3347015, 0x72163c88c8c5f36d);
  }

  lemma LongMix2Xor()
    ensures Xor(0xd354bc0bc4671800, 0x72163c88c8c5f36d) == 0xa14280830ca2eb6d
  {
    hide Xor;
    XorOfNothing();
    XorMore(0x0, 0x0, 0x0, 0xd, 0x3, 0x5, 0x4, 0x7, 0x2, 0x1, 0x6, 0xa, 0x1, 0x4, 0x2,
            0xd354, 0x7216, 0xa142);
    XorMore(0xd354, 0x7216, 0xa142, 0xb, 0xc, 0x0, 0xb, 0x3, 0xc, 0x8, 0x8, 0x8, 0x0, 0x8, 0x3,
            0xd354bc0b, 0x72163c88, 0xa1428083);
    XorMore(0xd354bc0b, 0x72163c88, 0xa1428083, 0xc, 0x4, 0x6, 0x7, 0xc, 0x8, 0xc, 0x5, 0x0, 0xc, 0xa, 0x2,
            0xd354bc0bc467, 0x72163c88c8c5, 0xa14280830ca2);
    XorMore(0xd354bc0bc467, 0x72163c88c8c5, 0xa14280830ca2, 0x1, 0x8, 0x0, 0x0, 0xf, 0x3, 0x6, 0xd, 0xe, 0xb, 0x6, 0xd,
            0xd354bc0bc4671800, 0x72163c88c8c5f36d, 0xa14280830ca2eb6d);
  }

  lemma LongMix2()
    ensures MixBlock(0xd354bc0bc4671800, 0x100f0e0d0c0b0a09) == 0x8c1c980f96163b71
  {
    hide Xor, MulM, ScrambleBlock;
    LongScramble2();
    LongMix2Xor();
    MulKnown(0xa14280830ca2eb6d, 0x7d21278ee4964110, 0x8c1c980f96163b71);
  }

  lemma LongTailXor()
    ensures Xor(0x8c1c980f96163b71, 0x131211) == 0x8c1c980f96052960
  {
    hide Xor;
    XorOfNothing();
    XorMore(0x0, 0x0, 0x0, 0x8, 0xc, 0x1, 0xc, 0x0, 0x0, 0x0, 0x0, 0x8, 0xc, 0x1, 0xc,
            0x8c1c, 0x0, 0x8c1c);
    XorMore(0x8c1c, 0x0, 0x8c1c, 0x9, 0x8, 0x0, 0xf, 0x0, 0x0, 0x0, 0x0, 0x9, 0x8, 0x0, 0xf,
            0x8c1c980f, 0x0, 0x8c1c980f);
    XorMore(0x8c1c980f, 0x0, 0x8c1c980f, 0x9, 0x6, 0x1, 0x6, 0x0, 0x0, 0x1, 0x3, 0x9, 0x6, 0x0, 0x5,
            0x8c1c980f9616, 0x13, 0x8c1c980f9605);
    XorMore(0x8c1c980f9616, 0x13, 0x8c1c980f9605, 0x3, 0xb, 0x7, 0x1, 0x1, 0x2, 0x1, 0x1, 0x2, 0x9, 0x6, 0x0,
            0x8c1c980f96163b71, 0x131211, 0x8c1c980f96052960);
  }

  lemma LongFinalXor1()
    ensures Xor(0x868c62a8eb0974e0, 0x10d18) == 0x868c62a8eb0879f8
  {
    hide Xor;
    XorOfNothing();
    XorMore(0x0, 0x0, 0x0, 0x8, 0x6, 0x8, 0xc, 0x0, 0x0, 0x0, 0x0, 0x8, 0x6, 0x8, 0xc,
            0x868c, 0x0, 0x868c);
    XorMore(0x868c, 0x0, 0x868c, 0x6, 0x2, 0xa, 0x8, 0x0, 0x0, 0x0, 0x0, 0x6, 0x2, 0xa, 0x8,
            0x868c62a8, 0x0, 0x868c62a8);
    XorMore(0x868c62a8, 0x0, 0x868c62a8, 0xe, 0xb, 0x0, 0x9, 0x0, 0x0, 0x0, 0x1, 0xe, 0xb, 0x0, 0x8,
            0x868c62a8eb09, 0x1, 0x868c62a8eb08);
    XorMore(0x868c62a8eb09, 0x1, 0x868c62a8eb08, 0x7, 0x4, 0xe, 0x0, 0x0, 0xd, 0x1, 0x8, 0x7, 0x9, 0xf, 0x8,
            0x868c62a8eb0974e0, 0x10d18, 0x868c62a8eb0879f8);
  }

  lemma LongFinalXor2()
    ensures Xor(0x1d43e0ea3e69b558, 0x3a87) == 0x1d43e0ea3e698fdf
  {
    hide Xor;
    XorOfNothing();
    XorMore(0x0, 0x0, 0x0, 0x1, 0xd, 0x4, 0x3, 0x0, 0x0, 0x0, 0x0, 0x1, 0xd, 0x4, 0x3,
            0x1d43, 0x0, 0x1d43);
    XorMore(0x1d43, 0x0, 0x1d43, 0xe, 0x0, 0xe, 0xa, 0x0, 0x0, 0x0, 0x0, 0xe, 0x0, 0xe, 0xa,
            0x1d43e0ea, 0x0, 0x1d43e0ea);
    XorMore(0x1d43e0ea, 0x0, 0x1d43e0ea, 0x3, 0xe, 0x6, 0x9, 0x0, 0x0, 0x0, 0x0, 0x3, 0xe, 0x6, 0x9,
            0x1d43e0ea3e69, 0x0, 0x1d43e0ea3e69);
    XorMore(0x1d43e0ea3e69, 0x0, 0x1d43e0ea3e69, 0xb, 0x5, 0x5, 0x8, 0x3, 0xa, 0x8, 0x7, 0x8, 0xf, 0xd, 0xf,
            0x1d43e0ea3e69b558, 0x3a87, 0x1d43e0ea3e698fdf);
  }

  lemma LongFinal()
    ensures Finalize(0x868c62a8eb0974e0) == 0x1d43e0ea3e698fdf
  {
    hide Xor, MulM;
    ShiftKnown(0x868c62a8eb0974e0, 0x10d18, 0x62a8eb0974e0);
    LongFinalXor1();
    MulKnown(0x868c62a8eb0879f8, 0x68671e50e13a3288, 0x1d43e0ea3e69b558);
    ShiftKnown(0x1d43e0ea3e69b558, 0x3a87, 0x60ea3e69b558);
    LongFinalXor2();
  }

  lemma LongBlockAt(i: nat)
    requires i < 2
    ensures BlockAt(LONG_KEY, i) == if i == 0 then 0x807060504030201 else 0x100f0e0d0c0b0a09
  {
    hide Load;
    if i == 0 {
      assert LONG_KEY[0..8] == [1, 2, 3, 4, 5, 6, 7, 8];
      LoadOfEight([1, 2, 3, 4, 5, 6, 7, 8]);
    } else {
      assert LONG_KEY[8..16] == [9, 10, 11, 12, 13, 14, 15, 16];
      LoadOfEight([9, 10, 11, 12, 13, 14, 15, 16]);
    }
  }

  lemma LongBlocks()
    ensures AbsorbBlocks(0xbe386fefd094560f, LONG_KEY, 0, 2) == 0x8c1c980f96163b71
  {
    hide MixBlock, BlockAt;
    LongBlockAt(0);
    LongBlockAt(1);
    LongMix1();
    LongMix2();
    assert AbsorbBlocks(0xbe386fefd094560f, LONG_KEY, 0, 1) == 0xd354bc0bc4671800;
  }

  lemma LongTail()
    ensures AbsorbTail(0x8c1c980f96163b71, [17, 18, 19]) == 0x868c62a8eb0974e0
  {
    hide Xor, MulM;
    LoadOfThree([17, 18, 19]);
    LongTailXor();
    MulKnown(0x8c1c980f96052960, 0x6cb83ba4c5e2a25c, 0x868c62a8eb0974e0);
  }

  /** The bytes 1 to 19 under seed 0. */
  lemma KnownLongHash()
    ensures Hash(LONG_KEY, 0) == 0x1d43e0ea3e698fdf
  {
    hide AbsorbBlocks, AbsorbTail, Finalize, InitialState;
    LongInit();
    LongBlocks();
    assert LONG_KEY[16..] == [17, 18, 19];
    LongTail();
    LongFinal();
  }

  // ---------------------------------------------------------------- one byte, a seed

  lemma ShortInitXor()
    ensures Xor(0xe17a1465, 0xc6a4a7935bd1e995) == 0xc6a4a793baabfdf0
  {
    hide Xor;
    XorOfNothing();
    XorMore(0x0, 0x0, 0x0, 0x0, 0x0, 0x0, 0x0, 0xc, 0x6, 0xa, 0x4, 0xc, 0x6, 0xa, 0x4,
            0x0, 0xc6a4, 0xc6a4);
    XorMore(0x0, 0xc6a4, 0xc6a4, 0x0, 0x0, 0x0, 0x0, 0xa, 0x7, 0x9, 0x3, 0xa, 0x7, 0x9, 0x3,
            0x0, 0xc6a4a793, 0xc6a4a793);
    XorMore(0x0, 0xc6a4a793, 0xc6a4a793, 0xe, 0x1, 0x7, 0xa, 0x5, 0xb, 0xd, 0x1, 0xb, 0xa, 0xa, 0xb,
            0xe17a, 0xc6a4a7935bd1, 0xc6a4a793baab);
    XorMore(0xe17a, 0xc6a4a7935bd1, 0xc6a4a793baab, 0x1, 0x4, 0x6, 0x5, 0xe, 0x9, 0x9, 0x5, 0xf, 0xd, 0xf, 0x0,
            0xe17a1465, 0xc6a4a7935bd1e995, 0xc6a4a793baabfdf0);
  }

  lemma ShortInit()
    ensures InitialState(1, 0xe17a1465) == 0xc6a4a793baabfdf0
  {
    hide Xor, MulM;
    MulKnown(0x1, 0x0, 0xc6a4a7935bd1e995);
    ShortInitXor();
  }

  lemma ShortTailXor()
    ensures Xor(0xc6a4a793baabfdf0, 0x61) == 0xc6a4a793baabfd91
  {
    hide Xor;
    XorOfNothing();
    XorMore(0x0, 0x0, 0x0, 0xc, 0x6, 0xa, 0x4, 0x0, 0x0, 0x0, 0x0, 0xc, 0x6, 0xa, 0x4,
            0xc6a4, 0x0, 0xc6a4);
    XorMore(0xc6a4, 0x0, 0xc6a4, 0xa, 0x7, 0x9, 0x3, 0x0, 0x0, 0x0, 0x0, 0xa, 0x7, 0x9, 0x3,
            0xc6a4a793, 0x0, 0xc6a4a793);
    XorMore(0xc6a4a793, 0x0, 0xc6a4a793, 0xb, 0xa, 0xa, 0xb, 0x0, 0x0, 0x0, 0x0, 0xb, 0xa, 0xa, 0xb,
            0xc6a4a793baab, 0x0, 0xc6a4a793baab);
    XorMore(0xc6a4a793baab, 0x0, 0xc6a4a793baab, 0xf, 0xd, 0xf, 0x0, 0x0, 0x0, 0x6, 0x1, 0xf, 0xd, 0x9, 0x1,
            0xc6a4a793baabfdf0, 0x61, 0xc6a4a793baabfd91);
  }

  lemma ShortFinalXor1()
    ensures Xor(0xc761b8b1be448e65, 0x18ec3) == 0xc761b8b1be4500a6
  {
    hide Xor;
    XorOfNothing();
    XorMore(0x0, 0x0, 0x0, 0xc, 0x7, 0x6, 0x1, 0x0, 0x0, 0x0, 0x0, 0xc, 0x7, 0x6, 0x1,
            0xc761, 0x0, 0xc761);
    XorMore(0xc761, 0x0, 0xc761, 0xb, 0x8, 0xb, 0x1, 0x0, 0x0, 0x0, 0x0, 0xb, 0x8, 0xb, 0x1,
            0xc761b8b1, 0x0, 0xc761b8b1);
    XorMore(0xc761b8b1, 0x0, 0xc761b8b1, 0xb, 0xe, 0x4, 0x4, 0x0, 0x0, 0x0, 0x1, 0xb, 0xe, 0x4, 0x5,
            0xc761b8b1be44, 0x1, 0xc761b8b1be45);
    XorMore(0xc761b8b1be44, 0x1, 0xc761b8b1be45, 0x8, 0xe, 0x6, 0x5, 0x8, 0xe, 0xc, 0x3, 0x0, 0x0, 0xa, 0x6,
            0xc761b8b1be448e65, 0x18ec3, 0xc761b8b1be4500a6);
  }

  lemma ShortFinalXor2()
    ensures Xor(0x81ccc831546769e, 0x1039) == 0x81ccc83154666a7
  {
    hide Xor;
    XorOfNothing();
    XorMore(0x0, 0x0, 0x0, 0x0, 0x8, 0x1, 0xc, 0x0, 0x0, 0x0, 0x0, 0x0, 0x8, 0x1, 0xc,
            0x81c, 0x0, 0x81c);
    XorMore(0x81c, 0x0, 0x81c, 0xc, 0xc, 0x8, 0x3, 0x0, 0x0, 0x0, 0x0, 0xc, 0xc, 0x8, 0x3,
            0x81ccc83, 0x0, 0x81ccc83);
    XorMore(0x81ccc83, 0x0, 0x81ccc83, 0x1, 0x5, 0x4, 0x6, 0x0, 0x0, 0x0, 0x0, 0x1, 0x5, 0x4, 0x6,
            0x81ccc831546, 0x0, 0x81ccc831546);
    XorMore(0x81ccc831546, 0x0, 0x81ccc831546, 0x7, 0x6, 0x9, 0xe, 0x1, 0x0, 0x3, 0x9, 0x6, 0x6, 0xa, 0x7,
            0x81ccc831546769e, 0x1039, 0x81ccc83154666a7);
  }

  lemma ShortFinal()
    ensures Finalize(0xc761b8b1be448e65) == 0x81ccc83154666a7
  {
    hide Xor, MulM;
    ShiftKnown(0xc761b8b1be448e65, 0x18ec3, 0x38b1be448e65);
    ShortFinalXor1();
    MulKnown(0xc761b8b1be4500a6, 0x9ab5d1f74f237d3f, 0x81ccc831546769e);
    ShiftKnown(0x81ccc831546769e, 0x1039, 0x4c831546769e);
    ShortFinalXor2();
  }

  /** The letter "a" under a seed. */
  lemma KnownSeededHash()
    ensures Hash([0x61], 0xe17a1465) == 0x81ccc83154666a7
  {
    hide AbsorbTail, Finalize, InitialState;
    ShortInit();
    assert [0x61][0..] == [0x61];
    ShortTail();
    ShortFinal();
  }

  lemma ShortTail()
    ensures AbsorbTail(0xc6a4a793baabfdf0, [0x61]) == 0xc761b8b1be448e65
  {
    hide Xor, MulM;
    assert [0x61][1..] == [];
    ShortTailXor();
    MulKnown(0xc6a4a793baabfd91, 0x9a231d1f5e219e24, 0xc761b8b1be448e65);
  }

  // ---------------------------------------------------------------- the length

  /** Null keys: with any seed, the finalised initial state tells every two lengths apart. */
  lemma NullKeysApart(m: nat, n: nat, seed: U64)
    requires m <= INT_MAX && n <= INT_MAX
    ensures Finalize(InitialState(m, seed)) == Finalize(InitialState(n, seed)) <==> m == n
  {
    hide Finalize, Unfinalize, MulM, UnmulM, Xor64;
    FinalizeIsPermutation(InitialState(m, seed));
    FinalizeIsPermutation(InitialState(n, seed));
    Xor64Cancels(seed, MulM(m));
    Xor64Cancels(seed, MulM(n));
    MulMInverse(m);
    MulMInverse(n);
  }

  lemma XorLowSeven(h: nat, g: nat, b6: nat, b5: nat, b4: nat, b3: nat, b2: nat, b1: nat, b0: nat,
                    a6: nat, a5: nat, a4: nat, a3: nat, a2: nat, a1: nat, a0: nat)
    requires b6 < 2 && b5 < 2 && b4 < 2 && b3 < 2 && b2 < 2 && b1 < 2 && b0 < 2
    requires a6 < 2 && a5 < 2 && a4 < 2 && a3 < 2 && a2 < 2 && a1 < 2 && a0 < 2
    ensures Xor(0x80 * h + 0x40 * b6 + 0x20 * b5 + 0x10 * b4 + 8 * b3 + 4 * b2 + 2 * b1 + b0,
                0x80 * g + 0x40 * a6 + 0x20 * a5 + 0x10 * a4 + 8 * a3 + 4 * a2 + 2 * a1 + a0)
         == 0x80 * Xor(h, g) + 0x40 * XorBit(b6, a6) + 0x20 * XorBit(b5, a5) + 0x10 * XorBit(b4, a4)
            + 8 * XorBit(b3, a3) + 4 * XorBit(b2, a2) + 2 * XorBit(b1, a1) + XorBit(b0, a0)
  {
    hide Xor, XorBit;
    XorAppendBit(h, g, b6, a6);
    XorAppendPair2(2 * h + b6, 2 * g + a6, b5, b4, a5, a4);
    XorAppendPair2(8 * h + 4 * b6 + 2 * b5 + b4, 8 * g + 4 * a6 + 2 * a5 + a4, b3, b2, a3, a2);
    XorAppendPair2(0x20 * h + 0x10 * b6 + 8 * b5 + 4 * b4 + 2 * b3 + b2,
                   0x20 * g + 0x10 * a6 + 8 * a5 + 4 * a4 + 2 * a3 + a2, b1, b0, a1, a0);
  }

  lemma XorAppendPair2(h: nat, g: nat, b1: nat, b0: nat, a1: nat, a0: nat)
    requires b1 < 2 && b0 < 2 && a1 < 2 && a0 < 2
    ensures Xor(4 * h + 2 * b1 + b0, 4 * g + 2 * a1 + a0) == 4 * Xor(h, g) + 2 * XorBit(b1, a1) + XorBit(b0, a0)
  {
    hide Xor, XorBit;
    XorAppendBit(h, g, b1, a1);
    XorAppendBit(2 * h + b1, 2 * g + a1, b0, a0);
  }

  /** The multiplier is 21 in its low seven bits. */
  lemma MulMLow(y: nat, v: nat, x: nat, u: nat) returns (k: int)
    requires v < 0x80 && u < 0x80 && 0x80 * y + v < MOD && 0x80 * x + u < MOD
    requires MulM(0x80 * y + v) == 0x80 * x + u
    ensures 21 * v - u == 0x80 * k
  {
    var w := 0x80 * y + v;
    DivModLaw(w * 0xc6a4a7935bd1e995, MOD);
    var q := (w * 0xc6a4a7935bd1e995) / MOD;
    k := q * 0x200_0000_0000_0000 + x - y * 0xc6a4a7935bd1e995 - v * 0x18d494f26b7a3d3;
  }

  lemma SevenBits(u: nat) returns (b6: nat, b5: nat, b4: nat, b3: nat, b2: nat, b1: nat, b0: nat)
    requires u < 0x80
    ensures b6 < 2 && b5 < 2 && b4 < 2 && b3 < 2 && b2 < 2 && b1 < 2 && b0 < 2
    ensures u == 0x40 * b6 + 0x20 * b5 + 0x10 * b4 + 8 * b3 + 4 * b2 + 2 * b1 + b0
  {
    b6 := if u >= 0x40 then 1 else 0;
    var r := u - 0x40 * b6;
    b5 := if r >= 0x20 then 1 else 0;
    r := r - 0x20 * b5;
    b4 := if r >= 0x10 then 1 else 0;
    r := r - 0x10 * b4;
    b3 := if r >= 8 then 1 else 0;
    r := r - 8 * b3;
    b2 := if r >= 4 then 1 else 0;
    r := r - 4 * b2;
    b1 := if r >= 2 then 1 else 0;
    b0 := r - 2 * b1;
  }

  /** In the low seven bits, xoring with a product of a length below 8 and then multiplying moves every value. */
  lemma LowBitsMove(n: nat, b6: nat, b5: nat, b4: nat, b3: nat, b2: nat, b1: nat, b0: nat,
                    a6: nat, a5: nat, a4: nat, a3: nat, a2: nat, a1: nat, a0: nat, j: int, k: int)
    requires 0 < n < 8
    requires b6 < 2 && b5 < 2 && b4 < 2 && b3 < 2 && b2 < 2 && b1 < 2 && b0 < 2
    requires a6 < 2 && a5 < 2 && a4 < 2 && a3 < 2 && a2 < 2 && a1 < 2 && a0 < 2
    requires 21 * n - (0x40 * a6 + 0x20 * a5 + 0x10 * a4 + 8 * a3 + 4 * a2 + 2 * a1 + a0) == 0x80 * j
    ensures 21 * (0x40 * XorBit(b6, a6) + 0x20 * XorBit(b5, a5) + 0x10 * XorBit(b4, a4) + 8 * XorBit(b3, a3)
                   + 4 * XorBit(b2, a2) + 2 * XorBit(b1, a1) + XorBit(b0, a0))
            - (0x40 * b6 + 0x20 * b5 + 0x10 * b4 + 8 * b3 + 4 * b2 + 2 * b1 + b0) != 0x80 * k
  {
    LengthBits(n, a6, a5, a4, a3, a2, a1, a0, j);
    var u, v := 0x20 * b6 + 0x10 * b5 + 8 * b4 + 4 * b3 + 2 * b2 + b1,
                0x20 * XorBit(b6, a6) + 0x10 * XorBit(b5, a5) + 8 * XorBit(b4, a4) + 4 * XorBit(b3, a3)
                + 2 * XorBit(b2, a2) + XorBit(b1, a1);
    if n == 4 {
      FourMoves(b6, b5, b4, b3, b2, b1, b0, k);
    } else if n % 2 == 1 {
      OddMoves(u, v, b0, k);
    } else {
      TwoAndSixMove(u, v, b1, b0, k);
    }
  }

  lemma LengthBits(n: nat, a6: nat, a5: nat, a4: nat, a3: nat, a2: nat, a1: nat, a0: nat, j: int)
    requires 0 < n < 8
    requires a6 < 2 && a5 < 2 && a4 < 2 && a3 < 2 && a2 < 2 && a1 < 2 && a0 < 2
    requires 21 * n - (0x40 * a6 + 0x20 * a5 + 0x10 * a4 + 8 * a3 + 4 * a2 + 2 * a1 + a0) == 0x80 * j
    ensures a0 == n % 2
    ensures n == 2 || n == 6 ==> a1 == 1
    ensures n == 4 ==> a6 == 1 && a5 == 0 && a4 == 1 && a3 == 0 && a2 == 1 && a1 == 0
  {
  }

  lemma OddMoves(u: nat, v: nat, b0: nat, k: int)
    requires b0 < 2
    ensures 21 * (2 * v + XorBit(b0, 1)) - (2 * u + b0) != 0x80 * k
  {
  }

  lemma TwoAndSixMove(u: nat, v: nat, b1: nat, b0: nat, k: int)
    requires b1 < 2 && b0 < 2 && (u - b1) % 2 == 0 && (v - XorBit(b1, 1)) % 2 == 0
    ensures 21 * (2 * v + XorBit(b0, 0)) - (2 * u + b0) != 0x80 * k
  {
    var p, q := (u - b1) / 2, (v - XorBit(b1, 1)) / 2;
    assert 21 * (2 * v + b0) - (2 * u + b0) == 4 * (21 * q - p + 5 * b0 + 10 - 11 * b1) + 2;
  }

  lemma FourMoves(b6: nat, b5: nat, b4: nat, b3: nat, b2: nat, b1: nat, b0: nat, k: int)
    requires b6 < 2 && b5 < 2 && b4 < 2 && b3 < 2 && b2 < 2 && b1 < 2 && b0 < 2
    ensures 21 * (0x40 * XorBit(b6, 1) + 0x20 * b5 + 0x10 * XorBit(b4, 1) + 8 * b3 + 4 * XorBit(b2, 1) + 2 * b1 + b0)
            - (0x40 * b6 + 0x20 * b5 + 0x10 * b4 + 8 * b3 + 4 * b2 + 2 * b1 + b0) != 0x80 * k
  {
    var fixed := 0xa0 * b5 + 0x28 * b3 + 10 * b1 + 5 * b0 + 441 - 0x160 * b6 - 0x58 * b4 - 22 * b2 == 0x20 * k;
    assert fixed ==> b0 == 1;
    assert fixed ==> 223 + 80 * b5 + 20 * b3 + 5 * b1 - 0xb0 * b6 - 44 * b4 - 11 * b2 == 0x10 * k;
    assert fixed ==> b1 + b2 == 1;
    assert !fixed;
  }

  lemma LengthMoves(n: nat, x: U64)
    requires 0 < n < 8
    ensures MulM(Xor64(x, MulM(n))) != x
  {
    hide MulM, Xor, XorBit;
    var a := MulM(n);
    var h, u, g, s := x / 0x80, x % 0x80, a / 0x80, a % 0x80;
    var j := MulMLow(0, n, g, s);
    var b6, b5, b4, b3, b2, b1, b0 := SevenBits(u);
    var a6, a5, a4, a3, a2, a1, a0 := SevenBits(s);
    XorLowSeven(h, g, b6, b5, b4, b3, b2, b1, b0, a6, a5, a4, a3, a2, a1, a0);
    if MulM(Xor64(x, a)) == x {
      var k := MulMLow(Xor(h, g), 0x40 * XorBit(b6, a6) + 0x20 * XorBit(b5, a5) + 0x10 * XorBit(b4, a4)
                         + 8 * XorBit(b3, a3) + 4 * XorBit(b2, a2) + 2 * XorBit(b1, a1) + XorBit(b0, a0), h, u);
      LowBitsMove(n, b6, b5, b4, b3, b2, b1, b0, a6, a5, a4, a3, a2, a1, a0, j, k);
    }
  }

  function Zeros(n: nat): seq<Byte> { seq(n, i => 0) }

  lemma {:induction false} ZerosLoadZero(n: nat)
    ensures Load(Zeros(n)) == 0
  {
    if n > 0 {
      assert Zeros(n)[1..] == Zeros(n - 1);
      ZerosLoadZero(n - 1);
    }
  }

  lemma HashOfZeros(n: nat, seed: U64)
    requires n < 8
    ensures Hash(Zeros(n), seed)
         == Finalize(if n == 0 then seed else MulM(InitialState(n, seed)))
  {
    hide MulM, Xor, Finalize, Load;
    ZerosLoadZero(n);
    XorZero(InitialState(n, seed));
    assert Zeros(n)[0..] == Zeros(n);
    if n == 0 {
      MulKnown(0, 0, 0);
      XorZero(seed);
    }
  }

  /** All-zero keys below one block, the empty key among them: with any seed, only the length tells them apart, and
      it does. */
  lemma ZeroKeysApart(m: nat, n: nat, seed: U64)
    requires m < 8 && n < 8
    ensures Hash(Zeros(m), seed) == Hash(Zeros(n), seed) <==> m == n
  {
    hide Hash, Finalize, Unfinalize, MulM, UnmulM, Xor64, Zeros;
    HashOfZeros(m, seed);
    HashOfZeros(n, seed);
    var x := if m == 0 then seed else MulM(InitialState(m, seed));
    var y := if n == 0 then seed else MulM(InitialState(n, seed));
    FinalizeIsPermutation(x);
    FinalizeIsPermutation(y);
    if m > 0 { LengthMoves(m, seed); }
    if n > 0 { LengthMoves(n, seed); }
    MulMInverse(InitialState(m, seed));
    MulMInverse(InitialState(n, seed));
    NullKeysApart(m, n, seed);
  }
}
