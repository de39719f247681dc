/**
  An answer of XXH3: 241 zero bytes under a secret that counts. It settles where
  the secret is read, what the lanes start with and how they are merged.
 */
module Xxh3Answers {
  import opened Bits
  import opened Machine
  import opened Digits
  import opened Mixing
  import opened Xxh3Stream
  import opened Xxh3Kernels
  import opened Xxh3Merge
  import Xxh64

  const COUNT: Secret := seq<U8>(136, j requires 0 <= j < 136 => j)
  const ZEROS: Bytes := seq<U8>(241, _ => 0)
  const ZERO_STRIPE: Block64 := seq<U8>(64, _ => 0)

  lemma {:induction false} XorZero(x: nat)
    ensures Xor(0, x) == x
  {
    if x > 0 { XorZero(x / 2); }
  }

  /** A word of the counting secret. */
  lemma CountWord(at: nat)
    requires at + 8 <= 136
    ensures ReadLE32(COUNT, at) == 0x101_0101 * at + 0x302_0100
    ensures ReadLE32(COUNT, at + 4) == 0x101_0101 * at + 0x706_0504
  {
  }

  lemma CountBlock(off: nat, i: nat)
    requires off + 64 <= 136 && i < 8
    ensures Word(COUNT[off..off + 64], i) ==
      0x101_0101 * (off + 8 * i) + 0x302_0100 + TWO_32 * (0x101_0101 * (off + 8 * i) + 0x706_0504)
  {
    CountWord(off + 8 * i);
  }

  lemma ZeroWord(i: nat)
    requires i < 8
    ensures Word(ZERO_STRIPE, i) == 0
  {
  }

  /** A zero stripe adds the product of the two halves of the secret's word. */
  lemma ZeroLane(acc: Acc, off: nat, i: nat, lo: U32, hi: U32, r: U64)
    requires off + 64 <= 136 && i < 8
    requires lo == 0x101_0101 * (off + 8 * i) + 0x302_0100 && hi == 0x101_0101 * (off + 8 * i) + 0x706_0504
    requires (acc[i] + lo * hi) % TWO_64 == r
    ensures AccumulatedLane(acc, ZERO_STRIPE, COUNT[off..off + 64], i) == r
  {
    hide Xor, Word;
    CountBlock(off, i);
    ZeroWord(i);
    ZeroWord(Partner(i));
    XorZero(lo + TWO_32 * hi);
    HalvesOf(lo, hi);
    ProductFits(lo, hi);
  }

  lemma HalvesOf(lo: U32, hi: U32)
    ensures lo + TWO_32 * hi < TWO_64 && Lo32(lo + TWO_32 * hi) == lo && Hi32(lo + TWO_32 * hi) == hi
  {
  }

  const ACC1: Acc := [0x152022DEBFB23D, 0x9EDDAB5583499EE7, 0xC46AF2E50804908F, 0x19A1C0DF62B9F099,
                      0x8B4B39AD6D08F6E3, 0x7F486C01796E557, 0x32DF8AFA90D75585, 0xEA1BA5A030F3AD1]

  lemma Absorbed1()
    ensures Accumulate512(INIT_ACC, ZERO_STRIPE, COUNT[0..64]) == ACC1
  {
    hide AccumulatedLane, Xor;
    ZeroLane(INIT_ACC, 0, 0, 0x3020100, 0x7060504, 0x152022DEBFB23D);
    ZeroLane(INIT_ACC, 0, 1, 0xB0A0908, 0xF0E0D0C, 0x9EDDAB5583499EE7);
    ZeroLane(INIT_ACC, 0, 2, 0x13121110, 0x17161514, 0xC46AF2E50804908F);
    ZeroLane(INIT_ACC, 0, 3, 0x1B1A1918, 0x1F1E1D1C, 0x19A1C0DF62B9F099);
    ZeroLane(INIT_ACC, 0, 4, 0x23222120, 0x27262524, 0x8B4B39AD6D08F6E3);
    ZeroLane(INIT_ACC, 0, 5, 0x2B2A2928, 0x2F2E2D2C, 0x7F486C01796E557);
    ZeroLane(INIT_ACC, 0, 6, 0x33323130, 0x37363534, 0x32DF8AFA90D75585);
    ZeroLane(INIT_ACC, 0, 7, 0x3B3A3938, 0x3F3E3D3C, 0xEA1BA5A030F3AD1);
  }

  const ACC2: Acc := [0xBB51C6DC1D869D, 0xA095EFFD63794427, 0xC7B64C12CC87072F, 0x1F0130150D103919,
                      0x933FC06CFEB411C3, 0x12FF268B9217D317, 0x41814553F5AF16A5, 0x215B90C353BECFD1]

  lemma Absorbed2()
    ensures Accumulate512(ACC1, ZERO_STRIPE, COUNT[8..72]) == ACC2
  {
    hide AccumulatedLane, Xor;
    ZeroLane(ACC1, 8, 0, 0xB0A0908, 0xF0E0D0C, 0xBB51C6DC1D869D);
    ZeroLane(ACC1, 8, 1, 0x13121110, 0x17161514, 0xA095EFFD63794427);
    ZeroLane(ACC1, 8, 2, 0x1B1A1918, 0x1F1E1D1C, 0xC7B64C12CC87072F);
    ZeroLane(ACC1, 8, 3, 0x23222120, 0x27262524, 0x1F0130150D103919);
    ZeroLane(ACC1, 8, 4, 0x2B2A2928, 0x2F2E2D2C, 0x933FC06CFEB411C3);
    ZeroLane(ACC1, 8, 5, 0x33323130, 0x37363534, 0x12FF268B9217D317);
    ZeroLane(ACC1, 8, 6, 0x3B3A3938, 0x3F3E3D3C, 0x41814553F5AF16A5);
    ZeroLane(ACC1, 8, 7, 0x43424140, 0x47464544, 0x215B90C353BECFD1);
  }

  const ACC3: Acc := [0x273966EBC4D2BDD, 0xA3E1492B27FBBAC7, 0xCD15BB4876DD4FAF, 0x26F5B6D49EBB53F9,
                      0x9E4A60387934FF83, 0x21A0E0E4F6EF9437, 0x543B1BBD465EABA5, 0x38AE84BE91C73931]

  lemma Absorbed3()
    ensures Accumulate512(ACC2, ZERO_STRIPE, COUNT[16..80]) == ACC3
  {
    hide AccumulatedLane, Xor;
    ZeroLane(ACC2, 16, 0, 0x13121110, 0x17161514, 0x273966EBC4D2BDD);
    ZeroLane(ACC2, 16, 1, 0x1B1A1918, 0x1F1E1D1C, 0xA3E1492B27FBBAC7);
    ZeroLane(ACC2, 16, 2, 0x23222120, 0x27262524, 0xCD15BB4876DD4FAF);
    ZeroLane(ACC2, 16, 3, 0x2B2A2928, 0x2F2E2D2C, 0x26F5B6D49EBB53F9);
    ZeroLane(ACC2, 16, 4, 0x33323130, 0x37363534, 0x9E4A60387934FF83);
    ZeroLane(ACC2, 16, 5, 0x3B3A3938, 0x3F3E3D3C, 0x21A0E0E4F6EF9437);
    ZeroLane(ACC2, 16, 6, 0x43424140, 0x47464544, 0x543B1BBD465EABA5);
    ZeroLane(ACC2, 16, 7, 0x4B4A4948, 0x4F4E4D4C, 0x38AE84BE91C73931);
  }

  const ACC4: Acc := [0x15B982752E92CD62, 0xBBD072F3C7CA50BC, 0xEA2F245545B5DA94, 0x49BA60A79E1ED44E,
                      0xC73B4C53AAA475C8, 0x513F10CA5BEC00EC, 0x8B0790EEE0690F4A, 0x772A40BE62609446]

  lemma Absorbed4()
    ensures Accumulate512(ACC3, ZERO_STRIPE, COUNT[65..129]) == ACC4
  {
    hide AccumulatedLane, Xor;
    ZeroLane(ACC3, 65, 0, 0x44434241, 0x48474645, 0x15B982752E92CD62);
    ZeroLane(ACC3, 65, 1, 0x4C4B4A49, 0x504F4E4D, 0xBBD072F3C7CA50BC);
    ZeroLane(ACC3, 65, 2, 0x54535251, 0x58575655, 0xEA2F245545B5DA94);
    ZeroLane(ACC3, 65, 3, 0x5C5B5A59, 0x605F5E5D, 0x49BA60A79E1ED44E);
    ZeroLane(ACC3, 65, 4, 0x64636261, 0x68676665, 0xC73B4C53AAA475C8);
    ZeroLane(ACC3, 65, 5, 0x6C6B6A69, 0x706F6E6D, 0x513F10CA5BEC00EC);
    ZeroLane(ACC3, 65, 6, 0x74737271, 0x78777675, 0x8B0790EEE0690F4A);
    ZeroLane(ACC3, 65, 7, 0x7C7B7A79, 0x807F7E7D, 0x772A40BE62609446);
  }

  lemma ZeroStripes()
    ensures |ZEROS| == 241 && ZEROS[177..] == ZERO_STRIPE
    ensures Stripe(ZEROS, 0) == Stripe(ZEROS, 1) == Stripe(ZEROS, 2) == ZERO_STRIPE
  {
  }

  lemma ZeroRun(kSecret: DefaultSecret)
    ensures Run(XxhKernel(kSecret), COUNT, ZEROS, 3).acc == ACC3
  {
    hide Accumulate512, Stripe;
    var k := XxhKernel(kSecret);
    ZeroStripes();
    Absorbed1();
    Absorbed2();
    Absorbed3();
    assert Run(k, COUNT, ZEROS, 0) == Cursor(INIT_ACC, 0);
    assert Run(k, COUNT, ZEROS, 1) == Cursor(ACC1, 1);
    assert Run(k, COUNT, ZEROS, 2) == Cursor(ACC2, 2);
  }

  lemma ZeroLanes(kSecret: DefaultSecret)
    ensures LongAcc(XxhKernel(kSecret), COUNT, ZEROS) == ACC4
  {
    hide Accumulate512, Run;
    ZeroStripes();
    ZeroRun(kSecret);
    Absorbed4();
  }

  lemma Pair0()
    ensures Mix2Accs(ACC4, COUNT, 0) == 0x6C2F2F1685747313
  {
    hide Xor, Mult64to128;
    Pair0Xors();
    CountWord(11);
    CountWord(19);
    Halves(0x7A8927A209FC169, 0xA1C96AE4D1DF44AF, 0x68F825BAF00C1AC7, 0x4D70AAC757869D4);
  }

  lemma Pair0Xors()
    ensures Xor(0x15B982752E92CD62, 0x1211100F0E0D0C0B) == 0x7A8927A209FC169
    ensures Xor(0xBBD072F3C7CA50BC, 0x1A19181716151413) == 0xA1C96AE4D1DF44AF
    ensures Xor(0x68F825BAF00C1AC7, 0x4D70AAC757869D4) == 0x6C2F2F1685747313
  {
    hide *;
    XorTable();
    XorDigits(0, 0, 1, 5, 11, 9, 1, 2, 1, 1);
    XorDigits(0x15B9, 0x1211, 8, 2, 7, 5, 1, 0, 0, 15);
    XorDigits(0x15B98275, 0x1211100F, 2, 14, 9, 2, 0, 14, 0, 13);
    XorDigits(0x15B982752E92, 0x1211100F0E0D, 12, 13, 6, 2, 0, 12, 0, 11);
    XorDigits(0, 0, 11, 11, 13, 0, 1, 10, 1, 9);
    XorDigits(0xBBD0, 0x1A19, 7, 2, 15, 3, 1, 8, 1, 7);
    XorDigits(0xBBD072F3, 0x1A191817, 12, 7, 12, 10, 1, 6, 1, 5);
    XorDigits(0xBBD072F3C7CA, 0x1A1918171615, 5, 0, 11, 12, 1, 4, 1, 3);
    XorDigits(0, 0, 6, 8, 15, 8, 0, 4, 13, 7);
    XorDigits(0x68F8, 0x4D7, 2, 5, 11, 10, 0, 10, 10, 12);
    XorDigits(0x68F825BA, 0x4D70AAC, 15, 0, 0, 12, 7, 5, 7, 8);
    XorDigits(0x68F825BAF00C, 0x4D70AAC7578, 1, 10, 12, 7, 6, 9, 13, 4);
  }

  lemma Pair1()
    ensures Mix2Accs(ACC4, COUNT, 1) == 0x138AF3EE0BA34538
  {
    hide Xor, Mult64to128;
    Pair1Xors();
    CountWord(27);
    CountWord(35);
    Halves(0xC80E044A5BA8C68F, 0x63934880B83BF06D, 0x5E5A77B3CBF79AE3, 0x4DD0845DC054DFDB);
  }

  lemma Pair1Xors()
    ensures Xor(0xEA2F245545B5DA94, 0x2221201F1E1D1C1B) == 0xC80E044A5BA8C68F
    ensures Xor(0x49BA60A79E1ED44E, 0x2A29282726252423) == 0x63934880B83BF06D
    ensures Xor(0x5E5A77B3CBF79AE3, 0x4DD0845DC054DFDB) == 0x138AF3EE0BA34538
  {
    hide *;
    XorTable();
    XorDigits(0, 0, 14, 10, 2, 15, 2, 2, 2, 1);
    XorDigits(0xEA2F, 0x2221, 2, 4, 5, 5, 2, 0, 1, 15);
    XorDigits(0xEA2F2455, 0x2221201F, 4, 5, 11, 5, 1, 14, 1, 13);
    XorDigits(0xEA2F245545B5, 0x2221201F1E1D, 13, 10, 9, 4, 1, 12, 1, 11);
    XorDigits(0, 0, 4, 9, 11, 10, 2, 10, 2, 9);
    XorDigits(0x49BA, 0x2A29, 6, 0, 10, 7, 2, 8, 2, 7);
    XorDigits(0x49BA60A7, 0x2A292827, 9, 14, 1, 14, 2, 6, 2, 5);
    XorDigits(0x49BA60A79E1E, 0x2A2928272625, 13, 4, 4, 14, 2, 4, 2, 3);
    XorDigits(0, 0, 5, 14, 5, 10, 4, 13, 13, 0);
    XorDigits(0x5E5A, 0x4DD0, 7, 7, 11, 3, 8, 4, 5, 13);
    XorDigits(0x5E5A77B3, 0x4DD0845D, 12, 11, 15, 7, 12, 0, 5, 4);
    XorDigits(0x5E5A77B3CBF7, 0x4DD0845DC054, 9, 10, 14, 3, 13, 15, 13, 11);
  }

  lemma Pair2()
    ensures Mix2Accs(ACC4, COUNT, 2) == 0xEBF09BEE1C1437B3
  {
    hide Xor, Mult64to128;
    Pair2Xors();
    CountWord(43);
    CountWord(51);
    Halves(0xF50A7C7C848959E3, 0x6B0628FD6DD934DF, 0x8D81DC6D325268BD, 0x667147832E465F0E);
  }

  lemma Pair2Xors()
    ensures Xor(0xC73B4C53AAA475C8, 0x3231302F2E2D2C2B) == 0xF50A7C7C848959E3
    ensures Xor(0x513F10CA5BEC00EC, 0x3A39383736353433) == 0x6B0628FD6DD934DF
    ensures Xor(0x8D81DC6D325268BD, 0x667147832E465F0E) == 0xEBF09BEE1C1437B3
  {
    hide *;
    XorTable();
    XorDigits(0, 0, 12, 7, 3, 11, 3, 2, 3, 1);
    XorDigits(0xC73B, 0x3231, 4, 12, 5, 3, 3, 0, 2, 15);
    XorDigits(0xC73B4C53, 0x3231302F, 10, 10, 10, 4, 2, 14, 2, 13);
    XorDigits(0xC73B4C53AAA4, 0x3231302F2E2D, 7, 5, 12, 8, 2, 12, 2, 11);
    XorDigits(0, 0, 5, 1, 3, 15, 3, 10, 3, 9);
    XorDigits(0x513F, 0x3A39, 1, 0, 12, 10, 3, 8, 3, 7);
    XorDigits(0x513F10CA, 0x3A393837, 5, 11, 14, 12, 3, 6, 3, 5);
    XorDigits(0x513F10CA5BEC, 0x3A3938373635, 0, 0, 14, 12, 3, 4, 3, 3);
    XorDigits(0, 0, 8, 13, 8, 1, 6, 6, 7, 1);
    XorDigits(0x8D81, 0x6671, 13, 12, 6, 13, 4, 7, 8, 3);
    XorDigits(0x8D81DC6D, 0x66714783, 3, 2, 5, 2, 2, 14, 4, 6);
    XorDigits(0x8D81DC6D3252, 0x667147832E46, 6, 8, 11, 13, 5, 15, 0, 14);
  }

  lemma Pair3()
    ensures Mix2Accs(ACC4, COUNT, 3) == 0xEC999E3CCF33B739
  {
    hide Xor, Mult64to128;
    Pair3Xors();
    CountWord(59);
    CountWord(67);
    Halves(0xC946D0D1DE543371, 0x3D6308F92425D005, 0xDCDA230E14C5D135, 0x3043BD32DBF6660C);
  }

  lemma Pair3Xors()
    ensures Xor(0x8B0790EEE0690F4A, 0x4241403F3E3D3C3B) == 0xC946D0D1DE543371
    ensures Xor(0x772A40BE62609446, 0x4A49484746454443) == 0x3D6308F92425D005
    ensures Xor(0xDCDA230E14C5D135, 0x3043BD32DBF6660C) == 0xEC999E3CCF33B739
  {
    hide *;
    XorTable();
    XorDigits(0, 0, 8, 11, 0, 7, 4, 2, 4, 1);
    XorDigits(0x8B07, 0x4241, 9, 0, 14, 14, 4, 0, 3, 15);
    XorDigits(0x8B0790EE, 0x4241403F, 14, 0, 6, 9, 3, 14, 3, 13);
    XorDigits(0x8B0790EEE069, 0x4241403F3E3D, 0, 15, 4, 10, 3, 12, 3, 11);
    XorDigits(0, 0, 7, 7, 2, 10, 4, 10, 4, 9);
    XorDigits(0x772A, 0x4A49, 4, 0, 11, 14, 4, 8, 4, 7);
    XorDigits(0x772A40BE, 0x4A494847, 6, 2, 6, 0, 4, 6, 4, 5);
    XorDigits(0x772A40BE6260, 0x4A4948474645, 9, 4, 4, 6, 4, 4, 4, 3);
    XorDigits(0, 0, 13, 12, 13, 10, 3, 0, 4, 3);
    XorDigits(0xDCDA, 0x3043, 2, 3, 0, 14, 11, 13, 3, 2);
    XorDigits(0xDCDA230E, 0x3043BD32, 1, 4, 12, 5, 13, 11, 15, 6);
    XorDigits(0xDCDA230E14C5, 0x3043BD32DBF6, 13, 1, 3, 5, 6, 6, 0, 12);
  }

  /** The halves of a product are determined by it. */
  lemma Halves(x: U64, y: U64, low: U64, high: U64)
    requires x * y == high * TWO_64 + low
    ensures Mult64to128(x, y) == U128(low, high)
  {
    hide Mult64to128;
    var p := Mult64to128(x, y);
    Quotient(x * y, TWO_64, p.high, p.low);
    Quotient(x * y, TWO_64, high, low);
  }

  lemma LastXors()
    ensures Xor(0x4A7DED4E8F59504E, 0x253EF6A) == 0x4A7DED4E8D0ABF24
    ensures Xor(0xF4A8A0BC8C87EE04, 0xF4A8A0BC) == 0xF4A8A0BC782F4EB8
  {
    hide *;
    XorTable();
    XorDigits(0, 0, 4, 10, 7, 13, 0, 0, 0, 0);
    XorDigits(0x4A7D, 0, 14, 13, 4, 14, 0, 0, 0, 0);
    XorDigits(0x4A7DED4E, 0, 8, 15, 5, 9, 0, 2, 5, 3);
    XorDigits(0x4A7DED4E8F59, 0x253, 5, 0, 4, 14, 14, 15, 6, 10);
    XorDigits(0, 0, 15, 4, 10, 8, 0, 0, 0, 0);
    XorDigits(0xF4A8, 0, 10, 0, 11, 12, 0, 0, 0, 0);
    XorDigits(0xF4A8A0BC, 0, 8, 12, 8, 7, 15, 4, 10, 8);
    XorDigits(0xF4A8A0BC8C87, 0xF4A8, 14, 14, 0, 4, 10, 0, 11, 12);
  }

  lemma ZeroMerged()
    ensures Merge64(ACC4, COUNT, 241) == 0xF4A8A0BC782F4EB8
  {
    hide Xor, Mix2Accs;
    Pair0();
    Pair1();
    Pair2();
    Pair3();
    LastXors();
    assert 241 * Xxh64.PRIME64_1 % TWO_64 == 0xF239901F12F9A917;
    assert Sum(ACC4, COUNT, 0xF239901F12F9A917, 0) == 0xF239901F12F9A917;
    assert Sum(ACC4, COUNT, 0xF239901F12F9A917, 1) == 0x5E68BF35986E1C2A;
    assert Sum(ACC4, COUNT, 0xF239901F12F9A917, 2) == 0x71F3B323A4116162;
    assert Sum(ACC4, COUNT, 0xF239901F12F9A917, 3) == 0x5DE44F11C0259915;
    assert Sum(ACC4, COUNT, 0xF239901F12F9A917, 4) == 0x4A7DED4E8F59504E;
    assert Mul64(0x4A7DED4E8D0ABF24, AVALANCHE_FACTOR) == 0xF4A8A0BC8C87EE04;
  }

  /** Whatever the default secret and the hash of short inputs. */
  lemma ZeroAnswer(kSecret: DefaultSecret, short: (Bytes, U64, Bytes) -> U64)
    ensures Hash(XxhKernel(kSecret), Variant64(short), WithSecret(COUNT), ZEROS) == 0xF4A8A0BC782F4EB8
  {
    hide LongAcc, Merge64;
    ZeroStripes();
    ZeroLanes(kSecret);
    ZeroMerged();
  }
}
