/**
  Published answers of XXH64, one under a seed, and two messages that differ in
  one word and still have the same hash.
 */
module Xxh64Answers {
  import opened Bits
  import opened Machine
  import opened Digits
  import opened Mixing
  import opened Xxh64
  import opened Xxh64Laws

  lemma LowPowers()
    ensures Pow2(1) == 2 && Pow2(7) == 0x80 && Pow2(11) == 0x800 && Pow2(12) == 0x1000 && Pow2(18) == 0x4_0000
    ensures Pow2(23) == 0x80_0000 && Pow2(27) == 0x800_0000 && Pow2(31) == 0x8000_0000
  {
    assert Pow2(4) == 0x10;
    assert Pow2(15) == 0x8000;
    assert Pow2(20) == 0x10_0000;
  }

  lemma HighPowers()
    ensures Pow2(33) == 0x2_0000_0000 && Pow2(37) == 0x20_0000_0000 && Pow2(41) == 0x200_0000_0000
    ensures Pow2(46) == 0x4000_0000_0000 && Pow2(52) == 0x10_0000_0000_0000 && Pow2(53) == 0x20_0000_0000_0000
    ensures Pow2(57) == 0x200_0000_0000_0000 && Pow2(63) == 0x8000_0000_0000_0000
  {
    Pow2Values();
    assert Pow2(35) == 0x8_0000_0000;
    assert Pow2(43) == 0x800_0000_0000;
    assert Pow2(49) == 0x2_0000_0000_0000;
    assert Pow2(60) == 0x1000_0000_0000_0000;
  }

  // ---- Steps through the values they pass ----

  lemma AvalancheIs(h: U64, x: U64, y: U64, r: U64)
    requires
      var h1 := Mul64(x, PRIME64_2);
      var h2 := Mul64(y, PRIME64_3);
      Xor(h, h / 0x2_0000_0000) == x && Xor(h1, h1 / 0x2000_0000) == y && Xor(h2, h2 / 0x1_0000_0000) == r
    ensures Avalanche(h) == r
  {
    hide Xor, Mul64;
  }

  lemma RoundIs(h: U64, w: U64, a: U64, b: U64, c: U64, r: U64)
    requires Mul64(w, PRIME64_2) == a && Add64(h, a) == b && Rotl64(b, 31) == c && Mul64(c, PRIME64_1) == r
    ensures Round(h, w) == r
  {
    hide Mul64, Add64, Rotl64;
  }

  lemma MergeIs(h: U64, w: U64, k: U64, x: U64, p: U64, r: U64)
    requires Round(0, w) == k && Xor(h, k) == x && Mul64(x, PRIME64_1) == p && Add64(p, PRIME64_4) == r
    ensures MergeRound(h, w) == r
  {
    hide Xor, Round, Mul64, Add64;
  }

  lemma Process8Is(h: U64, w: U64, k: U64, x: U64, c: U64, p: U64, r: U64)
    requires Round(0, w) == k && Xor(h, k) == x && Rotl64(x, 27) == c
    requires Mul64(c, PRIME64_1) == p && Add64(p, PRIME64_4) == r
    ensures Process8(h, w) == r
  {
    hide Xor, Round, Mul64, Add64, Rotl64;
  }

  lemma Process4Is(h: U64, w: U32, k: U64, x: U64, c: U64, p: U64, r: U64)
    requires Mul64(w, PRIME64_1) == k && Xor(h, k) == x && Rotl64(x, 23) == c
    requires Mul64(c, PRIME64_2) == p && Add64(p, PRIME64_3) == r
    ensures Process4(h, w) == r
  {
    hide Xor, Mul64, Add64, Rotl64;
  }

  lemma Process1Is(h: U64, w: U8, k: U64, x: U64, c: U64, r: U64)
    requires Mul64(w, PRIME64_5) == k && Xor(h, k) == x && Rotl64(x, 11) == c && Mul64(c, PRIME64_1) == r
    ensures Process1(h, w) == r
  {
    hide Xor, Mul64, Rotl64;
  }

  lemma NothingMixed(h: U64)
    ensures MixTail(h, []) == h
  {
  }

  lemma OneStripe(v: Lanes, msg: Bytes)
    requires 32 <= |msg| < 64
    ensures Absorbed(v, msg) == Rounds(v, msg, 0)
  {
    hide Rounds;
  }

  lemma EmptyMessageLastXors()
    ensures Xor(0x27D4EB2F165667C5, 0x13EA7597) == 0x27D4EB2F05BC1252
    ensures Xor(0xBEB13DDA13C2ED4E, 0x5F589EED0) == 0xBEB13DDFE64B039E
    ensures Xor(0xEF46DB37BE9E32AE, 0xEF46DB37) == 0xEF46DB3751D8E999
  {
    hide *;
    XorTable();
    XorDigits(0, 0, 2, 7, 13, 4, 0, 0, 0, 0);
    XorDigits(0x27D4, 0, 14, 11, 2, 15, 0, 0, 0, 0);
    XorDigits(0x27D4EB2F, 0, 1, 6, 5, 6, 1, 3, 14, 10);
    XorDigits(0x27D4EB2F1656, 0x13EA, 6, 7, 12, 5, 7, 5, 9, 7);
    XorDigits(0, 0, 11, 14, 11, 1, 0, 0, 0, 0);
    XorDigits(0xBEB1, 0, 3, 13, 13, 10, 0, 0, 0, 5);
    XorDigits(0xBEB13DDA, 5, 1, 3, 12, 2, 15, 5, 8, 9);
    XorDigits(0xBEB13DDA13C2, 0x5F589, 14, 13, 4, 14, 14, 14, 13, 0);
    XorDigits(0, 0, 14, 15, 4, 6, 0, 0, 0, 0);
    XorDigits(0xEF46, 0, 13, 11, 3, 7, 0, 0, 0, 0);
    XorDigits(0xEF46DB37, 0, 11, 14, 9, 14, 14, 15, 4, 6);
    XorDigits(0xEF46DB37BE9E, 0xEF46, 3, 2, 10, 14, 13, 11, 3, 7);
  }

  /** The empty message. */
  lemma EmptyMessage()
    ensures Hash(0, []) == 0xEF46DB3751D8E999
  {
    hide Xor, Avalanche, MixTail, Converge, Absorbed, Init, Rounds;
    EmptyMessageLastXors();
    AvalancheIs(0x27D4EB2F165667C5, 0x27D4EB2F05BC1252, 0xBEB13DDFE64B039E, 0xEF46DB3751D8E999);
    assert Add64(Add64(0, PRIME64_5), 0) == 0x27D4EB2F165667C5;
    NothingMixed(0x27D4EB2F165667C5);
  }

  const N0: Bytes := [78, 111, 98, 111, 100, 121, 32, 105]
  const N1: Bytes := [110, 115, 112, 101, 99, 116, 115, 32]
  const N2: Bytes := [116, 104, 101, 32, 115, 112, 97, 109]
  const N3: Bytes := [109, 105, 115, 104, 32, 114, 101, 112]
  const N4: Bytes := [101, 116, 105, 116, 105, 111, 110]
  const NOBODY_FROM_3: Bytes := N3 + N4
  const NOBODY_FROM_2: Bytes := N2 + NOBODY_FROM_3
  const NOBODY_FROM_1: Bytes := N1 + NOBODY_FROM_2

  /** "Nobody inspects the spammish repetition" */
  const NOBODY: Bytes := N0 + NOBODY_FROM_1

  lemma PartLengths()
    ensures |N0| == |N1| == |N2| == |N3| == 8 && |N4| == 7 && |NOBODY| == 39
  {
  }

  lemma NobodyRest()
    ensures NOBODY[32..] == [101, 116, 105, 116, 105, 111, 110]
  {
    assert NOBODY[8..] == NOBODY_FROM_1;
    assert NOBODY_FROM_1[8..] == NOBODY_FROM_2;
    assert NOBODY_FROM_2[8..] == NOBODY_FROM_3;
    assert NOBODY_FROM_3[8..] == N4;
    assert NOBODY[16..] == NOBODY[8..][8..];
    assert NOBODY[24..] == NOBODY[16..][8..];
    assert NOBODY[32..] == NOBODY[24..][8..];
  }

  lemma NobodyMergeXors()
    ensures Xor(0xC4DE2CE639FB8154, 0x7790FF1F7A9A2803) == 0xB34ED3F94361A957
    ensures Xor(0x30D40DDD00AEA144, 0xDECED6C0BF716B27) == 0xEE1ADB1DBFDFCA63
    ensures Xor(0xE5A1F095BF498698, 0x70073EB805759BBE) == 0x95A6CE2DBA3C1D26
    ensures Xor(0xF9CEE721E748096D, 0xC1CBBAE50E57E4F3) == 0x38055DC4E91FED9E
  {
    hide *;
    XorTable();
    XorDigits(0, 0, 12, 4, 13, 14, 7, 7, 9, 0);
    XorDigits(0xC4DE, 0x7790, 2, 12, 14, 6, 15, 15, 1, 15);
    XorDigits(0xC4DE2CE6, 0x7790FF1F, 3, 9, 15, 11, 7, 10, 9, 10);
    XorDigits(0xC4DE2CE639FB, 0x7790FF1F7A9A, 8, 1, 5, 4, 2, 8, 0, 3);
    XorDigits(0, 0, 3, 0, 13, 4, 13, 14, 12, 14);
    XorDigits(0x30D4, 0xDECE, 0, 13, 13, 13, 13, 6, 12, 0);
    XorDigits(0x30D40DDD, 0xDECED6C0, 0, 0, 10, 14, 11, 15, 7, 1);
    XorDigits(0x30D40DDD00AE, 0xDECED6C0BF71, 10, 1, 4, 4, 6, 11, 2, 7);
    XorDigits(0, 0, 14, 5, 10, 1, 7, 0, 0, 7);
    XorDigits(0xE5A1, 0x7007, 15, 0, 9, 5, 3, 14, 11, 8);
    XorDigits(0xE5A1F095, 0x70073EB8, 11, 15, 4, 9, 0, 5, 7, 5);
    XorDigits(0xE5A1F095BF49, 0x70073EB80575, 8, 6, 9, 8, 9, 11, 11, 14);
    XorDigits(0, 0, 15, 9, 12, 14, 12, 1, 12, 11);
    XorDigits(0xF9CE, 0xC1CB, 14, 7, 2, 1, 11, 10, 14, 5);
    XorDigits(0xF9CEE721, 0xC1CBBAE5, 14, 7, 4, 8, 0, 14, 5, 7);
    XorDigits(0xF9CEE721E748, 0xC1CBBAE50E57, 0, 9, 6, 13, 14, 4, 15, 3);
  }

  lemma NobodyTailXors()
    ensures Xor(0x84F22C421A11A8DC, 0xE9863933EB2B1343) == 0x6D741571F13ABB9F
    ensures Xor(0x9FCA0F5D0AAA110F, 0x5654765029708FCD) == 0xC99E790D23DA9EC2
    ensures Xor(0x769671546F21BA14, 0x4551F96AAF76FE6B) == 0x33C7883EC057447F
    ensures Xor(0xEAE9B643C5F94E52, 0x1D7D0E3B992096A6) == 0xF794B8785CD9D8F4
  {
    hide *;
    XorTable();
    XorDigits(0, 0, 8, 4, 15, 2, 14, 9, 8, 6);
    XorDigits(0x84F2, 0xE986, 2, 12, 4, 2, 3, 9, 3, 3);
    XorDigits(0x84F22C42, 0xE9863933, 1, 10, 1, 1, 14, 11, 2, 11);
    XorDigits(0x84F22C421A11, 0xE9863933EB2B, 10, 8, 13, 12, 1, 3, 4, 3);
    XorDigits(0, 0, 9, 15, 12, 10, 5, 6, 5, 4);
    XorDigits(0x9FCA, 0x5654, 0, 15, 5, 13, 7, 6, 5, 0);
    XorDigits(0x9FCA0F5D, 0x56547650, 0, 10, 10, 10, 2, 9, 7, 0);
    XorDigits(0x9FCA0F5D0AAA, 0x565476502970, 1, 1, 0, 15, 8, 15, 12, 13);
    XorDigits(0, 0, 7, 6, 9, 6, 4, 5, 5, 1);
    XorDigits(0x7696, 0x4551, 7, 1, 5, 4, 15, 9, 6, 10);
    XorDigits(0x76967154, 0x4551F96A, 6, 15, 2, 1, 10, 15, 7, 6);
    XorDigits(0x769671546F21, 0x4551F96AAF76, 11, 10, 1, 4, 15, 14, 6, 11);
    XorDigits(0, 0, 14, 10, 14, 9, 1, 13, 7, 13);
    XorDigits(0xEAE9, 0x1D7D, 11, 6, 4, 3, 0, 14, 3, 11);
    XorDigits(0xEAE9B643, 0x1D7D0E3B, 12, 5, 15, 9, 9, 9, 2, 0);
    XorDigits(0xEAE9B643C5F9, 0x1D7D0E3B9920, 4, 14, 5, 2, 9, 6, 10, 6);
  }

  lemma NobodyLastXors()
    ensures Xor(0x1D0A47483B37CC24, 0xE8523A4) == 0x1D0A474835B2EF80
    ensures Xor(0x5F0214BEAA126880, 0x2F810A5F5) == 0x5F0214BC5202CD75
    ensures Xor(0xFBCEA83C71F923CD, 0xFBCEA83C) == 0xFBCEA83C8A378BF1
  {
    hide *;
    XorTable();
    XorDigits(0, 0, 1, 13, 0, 10, 0, 0, 0, 0);
    XorDigits(0x1D0A, 0, 4, 7, 4, 8, 0, 0, 0, 0);
    XorDigits(0x1D0A4748, 0, 3, 11, 3, 7, 0, 14, 8, 5);
    XorDigits(0x1D0A47483B37, 0xE85, 12, 12, 2, 4, 2, 3, 10, 4);
    XorDigits(0, 0, 5, 15, 0, 2, 0, 0, 0, 0);
    XorDigits(0x5F02, 0, 1, 4, 11, 14, 0, 0, 0, 2);
    XorDigits(0x5F0214BE, 2, 10, 10, 1, 2, 15, 8, 1, 0);
    XorDigits(0x5F0214BEAA12, 0x2F810, 6, 8, 8, 0, 10, 5, 15, 5);
    XorDigits(0, 0, 15, 11, 12, 14, 0, 0, 0, 0);
    XorDigits(0xFBCE, 0, 10, 8, 3, 12, 0, 0, 0, 0);
    XorDigits(0xFBCEA83C, 0, 7, 1, 15, 9, 15, 11, 12, 14);
    XorDigits(0xFBCEA83C71F9, 0xFBCE, 2, 3, 12, 13, 10, 8, 3, 12);
  }

  lemma NobodyStart()
    ensures Init(0) ==
      Lanes(0x60EA27EEADC0B5D6, 0xC2B2AE3D27D4EB4F,
            0, 0x61C8864E7A143579)
  {
  }

  lemma NobodyWord0()
    ensures ReadLE64(NOBODY, 0) == 0x692079646F626F4E
  {
    PartLengths();
    ReadParts64(N0, NOBODY_FROM_1, 0);
  }

  lemma NobodyWord8()
    ensures ReadLE64(NOBODY, 8) == 0x207374636570736E
  {
    PartLengths();
    ReadParts64(N0, NOBODY_FROM_1, 8);
    ReadParts64(N1, NOBODY_FROM_2, 0);
  }

  lemma NobodyWord16()
    ensures ReadLE64(NOBODY, 16) == 0x6D61707320656874
  {
    PartLengths();
    ReadParts64(N0, NOBODY_FROM_1, 16);
    ReadParts64(N1, NOBODY_FROM_2, 8);
    ReadParts64(N2, NOBODY_FROM_3, 0);
  }

  lemma NobodyWord24()
    ensures ReadLE64(NOBODY, 24) == 0x706572206873696D
  {
    PartLengths();
    ReadParts64(N0, NOBODY_FROM_1, 24);
    ReadParts64(N1, NOBODY_FROM_2, 16);
    ReadParts64(N2, NOBODY_FROM_3, 8);
    ReadParts64(N3, N4, 0);
  }

  lemma NobodyRounds()
    ensures Rounds(Lanes(0x60EA27EEADC0B5D6, 0xC2B2AE3D27D4EB4F,
                         0, 0x61C8864E7A143579), NOBODY, 0) ==
      Lanes(0x37245127A4067E4B, 0x1B302B0A818F92CF,
            0xCD62D843D0580FCA, 0x1C16E43EF2142A4A)
  {
    hide Pow2, ReadLE64, Round;
    LowPowers();
    HighPowers();
    NobodyWord0();
    NobodyWord8();
    NobodyWord16();
    NobodyWord24();
    RoundIs(0x60EA27EEADC0B5D6, 0x692079646F626F4E, 0x6F06E4CCA24F312, 0x67DA963B77E5A8E8, 0xBBF2D47433ED4B1D,
            0x37245127A4067E4B);
    RoundIs(0xC2B2AE3D27D4EB4F, 0x207374636570736E, 0xBEF890B5E0C198F2, 0x81AB3EF308968441, 0x844B4220C0D59F79,
            0x1B302B0A818F92CF);
    RoundIs(0, 0x6D61707320656874, 0xA6264CC423DB7CC, 0xA6264CC423DB7CC, 0x211EDBE605313266, 0xCD62D843D0580FCA);
    RoundIs(0x61C8864E7A143579, 0x706572206873696D, 0x7EC4417E16A897A3, 0xE08CC7CC90BCCD1C, 0x485E668E704663E6,
            0x1C16E43EF2142A4A);
  }

  lemma NobodyConverge()
    ensures
      Converge(Lanes(0x37245127A4067E4B, 0x1B302B0A818F92CF,
                     0xCD62D843D0580FCA, 0x1C16E43EF2142A4A)) == 0x84F22C421A11A8B5
  {
    hide Pow2, Xor, Round, MergeRound;
    LowPowers();
    HighPowers();
    NobodyMergeXors();
    assert Rotl64(0x37245127A4067E4B, 1) == 0x6E48A24F480CFC96;
    assert Rotl64(0x1B302B0A818F92CF, 7) == 0x98158540C7C9678D;
    assert Rotl64(0xCD62D843D0580FCA, 12) == 0x2D843D0580FCACD6;
    assert Rotl64(0x1C16E43EF2142A4A, 18) == 0x90FBC850A928705B;
    RoundIs(0, 0x37245127A4067E4B, 0xBF0E534A970BD225, 0xBF0E534A970BD225, 0x4B85E912DF8729A5, 0x7790FF1F7A9A2803);
    MergeIs(0xC4DE2CE639FB8154, 0x37245127A4067E4B, 0x7790FF1F7A9A2803, 0xB34ED3F94361A957, 0xAAE843653DFBF2E1,
            0x30D40DDD00AEA144);
    RoundIs(0, 0x1B302B0A818F92CF, 0x40BCC4C2E37E52E1, 0x40BCC4C2E37E52E1, 0x71BF2970A05E6261, 0xDECED6C0BF716B27);
    MergeIs(0x30D40DDD00AEA144, 0x1B302B0A818F92CF, 0xDECED6C0BF716B27, 0xEE1ADB1DBFDFCA63, 0x5FB6261DFC96D835,
            0xE5A1F095BF498698);
    RoundIs(0, 0xCD62D843D0580FCA, 0x1917FFA4FAF34D56, 0x1917FFA4FAF34D56, 0x7D79A6AB0C8BFFD2, 0x70073EB805759BBE);
    MergeIs(0xE5A1F095BF498698, 0xCD62D843D0580FCA, 0x70073EB805759BBE, 0x95A6CE2DBA3C1D26, 0x73E31CAA24955B0A,
            0xF9CEE721E748096D);
    RoundIs(0, 0x1C16E43EF2142A4A, 0x2898226B8252FAD6, 0x2898226B8252FAD6, 0xC1297D6B144C1135, 0xC1CBBAE50E57E4F3);
    MergeIs(0xF9CEE721E748096D, 0x1C16E43EF2142A4A, 0xC1CBBAE50E57E4F3, 0x38055DC4E91FED9E, 0xFF0661CA575EFA52,
            0x84F22C421A11A8B5);
  }

  lemma NobodyTail()
    ensures MixTail(0x84F22C421A11A8DC, [101, 116, 105, 116, 105, 111, 110]) == 0x1D0A47483B37CC24
  {
    hide MixTail, Pow2, Xor, Round, Process8, Process4, Process1;
    LowPowers();
    HighPowers();
    NobodyTailXors();
    assert ReadLE32([101, 116, 105, 116, 105, 111, 110], 0) == 0x74697465;
    Process4Is(0x84F22C421A11A8DC, 0x74697465, 0xE9863933EB2B1343, 0x6D741571F13ABB9F, 0xB8F89D5DCFB6BA0A,
               0x8973A7AB6C729716, 0x9FCA0F5D0AAA110F);
    MixTailFirst(0x84F22C421A11A8DC, [101, 116, 105, 116, 105, 111, 110]);
    assert [101, 116, 105, 116, 105, 111, 110][4..] == [105, 111, 110];
    Process1Is(0x9FCA0F5D0AAA110F, 0x69, 0x5654765029708FCD, 0xC99E790D23DA9EC2, 0xF3C8691ED4F6164C,
               0x769671546F21BA14);
    MixTailFirst(0x9FCA0F5D0AAA110F, [105, 111, 110]);
    assert [105, 111, 110][1..] == [111, 110];
    Process1Is(0x769671546F21BA14, 0x6F, 0x4551F96AAF76FE6B, 0x33C7883EC057447F, 0x3C41F602BA23F99E,
               0xEAE9B643C5F94E52);
    MixTailFirst(0x769671546F21BA14, [111, 110]);
    assert [111, 110][1..] == [110];
    Process1Is(0xEAE9B643C5F94E52, 0x6E, 0x1D7D0E3B992096A6, 0xF794B8785CD9D8F4, 0xA5C3C2E6CEC7A7BC,
               0x1D0A47483B37CC24);
    MixTailFirst(0xEAE9B643C5F94E52, [110]);
    assert [110][1..] == [];
    NothingMixed(0x1D0A47483B37CC24);
  }

  /** A stripe, a word of four bytes and three bytes. */
  lemma Nobody()
    ensures Hash(0, NOBODY) == 0xFBCEA83C8A378BF1
  {
    hide Xor, Avalanche, MixTail, Converge, Absorbed, Init, Rounds;
    NobodyLastXors();
    AvalancheIs(0x1D0A47483B37CC24, 0x1D0A474835B2EF80, 0x5F0214BC5202CD75, 0xFBCEA83C8A378BF1);
    NobodyStart();
    OneStripe(Init(0), NOBODY);
    NobodyRounds();
    NobodyConverge();
    assert Add64(0x84F22C421A11A8B5, 39) == 0x84F22C421A11A8DC;
    NobodyRest();
    NobodyTail();
  }

  const LETTERS: Bytes := seq<U8>(40, j requires 0 <= j < 40 => if j < 20 then 97 + j else 45 + j)

  lemma SeededLettersMergeXors()
    ensures Xor(0x8CCAA740E20C14E3, 0xC34CB1E4B5CA19C2) == 0x4F8616A457C60D21
    ensures Xor(0xEA308CD584CAA4CA, 0x3D734FF0616DB69) == 0xE9E7B82A82DC7FA3
    ensures Xor(0x943F6D909B519B58, 0xAB3B168B29BE627D) == 0x3F047B1BB2EFF925
    ensures Xor(0x32713F9367CD42E6, 0xC14BF57713C17F29) == 0xF33ACAE4740C3DCF
  {
    hide *;
    XorTable();
    XorDigits(0, 0, 8, 12, 12, 10, 12, 3, 4, 12);
    XorDigits(0x8CCA, 0xC34C, 10, 7, 4, 0, 11, 1, 14, 4);
    XorDigits(0x8CCAA740, 0xC34CB1E4, 14, 2, 0, 12, 11, 5, 12, 10);
    XorDigits(0x8CCAA740E20C, 0xC34CB1E4B5CA, 1, 4, 14, 3, 1, 9, 12, 2);
    XorDigits(0, 0, 14, 10, 3, 0, 0, 3, 13, 7);
    XorDigits(0xEA30, 0x3D7, 8, 12, 13, 5, 3, 4, 15, 15);
    XorDigits(0xEA308CD5, 0x3D734FF, 8, 4, 12, 10, 0, 6, 1, 6);
    XorDigits(0xEA308CD584CA, 0x3D734FF0616, 10, 4, 12, 10, 13, 11, 6, 9);
    XorDigits(0, 0, 9, 4, 3, 15, 10, 11, 3, 11);
    XorDigits(0x943F, 0xAB3B, 6, 13, 9, 0, 1, 6, 8, 11);
    XorDigits(0x943F6D90, 0xAB3B168B, 9, 11, 5, 1, 2, 9, 11, 14);
    XorDigits(0x943F6D909B51, 0xAB3B168B29BE, 9, 11, 5, 8, 6, 2, 7, 13);
    XorDigits(0, 0, 3, 2, 7, 1, 12, 1, 4, 11);
    XorDigits(0x3271, 0xC14B, 3, 15, 9, 3, 15, 5, 7, 7);
    XorDigits(0x32713F93, 0xC14BF577, 6, 7, 12, 13, 1, 3, 12, 1);
    XorDigits(0x32713F9367CD, 0xC14BF57713C1, 4, 2, 14, 6, 7, 15, 2, 9);
  }

  lemma SeededLettersTailXors()
    ensures Xor(0x2D2C82FAE5F19CB4, 0x4F0B501C9F9137AE) == 0x6227D2E67A60AB1A
  {
    hide *;
    XorTable();
    XorDigits(0, 0, 2, 13, 2, 12, 4, 15, 0, 11);
    XorDigits(0x2D2C, 0x4F0B, 8, 2, 15, 10, 5, 0, 1, 12);
    XorDigits(0x2D2C82FA, 0x4F0B501C, 14, 5, 15, 1, 9, 15, 9, 1);
    XorDigits(0x2D2C82FAE5F1, 0x4F0B501C9F91, 9, 12, 11, 4, 3, 7, 10, 14);
  }

  lemma SeededLettersLastXors()
    ensures Xor(0x24900E9A93CAD604, 0x1248074D) == 0x24900E9A8182D149
    ensures Xor(0xC4B8012D7CF09887, 0x625C0096B) == 0xC4B8012B593091EC
    ensures Xor(0xD3759BFCB6EA7A8C, 0xD3759BFC) == 0xD3759BFC659FE170
  {
    hide *;
    XorTable();
    XorDigits(0, 0, 2, 4, 9, 0, 0, 0, 0, 0);
    XorDigits(0x2490, 0, 0, 14, 9, 10, 0, 0, 0, 0);
    XorDigits(0x24900E9A, 0, 9, 3, 12, 10, 1, 2, 4, 8);
    XorDigits(0x24900E9A93CA, 0x1248, 13, 6, 0, 4, 0, 7, 4, 13);
    XorDigits(0, 0, 12, 4, 11, 8, 0, 0, 0, 0);
    XorDigits(0xC4B8, 0, 0, 1, 2, 13, 0, 0, 0, 6);
    XorDigits(0xC4B8012D, 6, 7, 12, 15, 0, 2, 5, 12, 0);
    XorDigits(0xC4B8012D7CF0, 0x625C0, 9, 8, 8, 7, 0, 9, 6, 11);
    XorDigits(0, 0, 13, 3, 7, 5, 0, 0, 0, 0);
    XorDigits(0xD375, 0, 9, 11, 15, 12, 0, 0, 0, 0);
    XorDigits(0xD3759BFC, 0, 11, 6, 14, 10, 13, 3, 7, 5);
    XorDigits(0xD3759BFCB6EA, 0xD375, 7, 10, 8, 12, 9, 11, 15, 12);
  }

  lemma SeededLettersStart()
    ensures Init(0x2A) ==
      Lanes(0x60EA27EEADC0B600, 0xC2B2AE3D27D4EB79,
            0x2A, 0x61C8864E7A1435A3)
  {
  }

  lemma SeededLettersWord0()
    ensures ReadLE64(LETTERS, 0) == 0x6867666564636261
  {
  }

  lemma SeededLettersWord8()
    ensures ReadLE64(LETTERS, 8) == 0x706F6E6D6C6B6A69
  {
  }

  lemma SeededLettersWord16()
    ensures ReadLE64(LETTERS, 16) == 0x4443424174737271
  {
  }

  lemma SeededLettersWord24()
    ensures ReadLE64(LETTERS, 24) == 0x4C4B4A4948474645
  {
  }

  lemma SeededLettersRounds()
    ensures Rounds(Lanes(0x60EA27EEADC0B600, 0xC2B2AE3D27D4EB79,
                         0x2A, 0x61C8864E7A1435A3), LETTERS, 0) ==
      Lanes(0x2077B959204B39B5, 0xEF95C952FFA3007D,
            0x1700D6320DF8FD31, 0x94449CE4DA8BD008)
  {
    hide Pow2, ReadLE64, Round;
    LowPowers();
    HighPowers();
    SeededLettersWord0();
    SeededLettersWord8();
    SeededLettersWord16();
    SeededLettersWord24();
    RoundIs(0x60EA27EEADC0B600, 0x6867666564636261, 0xC32851D8754E66EF, 0x241279C7230F1CEF, 0x91878E7792093CE3,
            0x2077B959204B39B5);
    RoundIs(0xC2B2AE3D27D4EB79, 0x706F6E6D6C6B6A69, 0x81D1657A2DC83967, 0x448413B7559D24E0, 0xAACE9270224209DB,
            0xEF95C952FFA3007D);
    RoundIs(0x2A, 0x4443424174737271, 0x1162A10FE6420BDF, 0x1162A10FE6420C09, 0xF321060488B15087, 0x1700D6320DF8FD31);
    RoundIs(0x61C8864E7A1435A3, 0x4C4B4A4948474645, 0x27D88D226FA4064B, 0x89A11370E9B83BEE, 0x74DC1DF744D089B8,
            0x94449CE4DA8BD008);
  }

  lemma SeededLettersConverge()
    ensures
      Converge(Lanes(0x2077B959204B39B5, 0xEF95C952FFA3007D,
                     0x1700D6320DF8FD31, 0x94449CE4DA8BD008)) == 0x2D2C82FAE5F19C8C
  {
    hide Pow2, Xor, Round, MergeRound;
    LowPowers();
    HighPowers();
    SeededLettersMergeXors();
    assert Rotl64(0x2077B959204B39B5, 1) == 0x40EF72B24096736A;
    assert Rotl64(0xEF95C952FFA3007D, 7) == 0xCAE4A97FD1803EF7;
    assert Rotl64(0x1700D6320DF8FD31, 12) == 0xD6320DF8FD31170;
    assert Rotl64(0x94449CE4DA8BD008, 18) == 0x73936A2F40225112;
    RoundIs(0, 0x2077B959204B39B5, 0x1AD0FD5D6213F5DB, 0x1AD0FD5D6213F5DB, 0xB109FAED8D687EAE, 0xC34CB1E4B5CA19C2);
    MergeIs(0x8CCAA740E20C14E3, 0x2077B959204B39B5, 0xC34CB1E4B5CA19C2, 0x4F8616A457C60D21, 0x6444C25DC217F667,
            0xEA308CD584CAA4CA);
    RoundIs(0, 0xEF95C952FFA3007D, 0x91CBED1FF743E593, 0x91CBED1FF743E593, 0xFBA1F2C9C8E5F68F, 0x3D734FF0616DB69);
    MergeIs(0xEA308CD584CAA4CA, 0xEF95C952FFA3007D, 0x3D734FF0616DB69, 0xE9E7B82A82DC7FA3, 0xE53A318D89EECF5,
            0x943F6D909B519B58);
    RoundIs(0, 0x1700D6320DF8FD31, 0x9DF42FB703D61D1F, 0x9DF42FB703D61D1F, 0x81EB0E8FCEFA17DB, 0xAB3B168B29BE627D);
    MergeIs(0x943F6D909B519B58, 0x1700D6320DF8FD31, 0xAB3B168B29BE627D, 0x3F047B1BB2EFF925, 0xAC85751BA51A9483,
            0x32713F9367CD42E6);
    RoundIs(0, 0x94449CE4DA8BD008, 0x5848C99F47BC8A78, 0x5848C99F47BC8A78, 0xA3DE453C2C2464CF, 0xC14BF57713C17F29);
    MergeIs(0x32713F9367CD42E6, 0x94449CE4DA8BD008, 0xC14BF57713C17F29, 0xF33ACAE4740C3DCF, 0xA740B883233EEE29,
            0x2D2C82FAE5F19C8C);
  }

  lemma SeededLettersTail()
    ensures MixTail(0x2D2C82FAE5F19CB4, [77, 78, 79, 80, 81, 82, 83, 84]) == 0x24900E9A93CAD604
  {
    hide MixTail, Pow2, Xor, Round, Process8, Process4, Process1;
    LowPowers();
    HighPowers();
    SeededLettersTailXors();
    assert ReadLE64([77, 78, 79, 80, 81, 82, 83, 84], 0) == 0x54535251504F4E4D;
    RoundIs(0, 0x54535251504F4E4D, 0xE681A0C4281DD8C3, 0xE681A0C4281DD8C3, 0x140EEC61F340D062, 0x4F0B501C9F9137AE);
    Process8Is(0x2D2C82FAE5F19CB4, 0x54535251504F4E4D, 0x4F0B501C9F9137AE, 0x6227D2E67A60AB1A, 0x33D30558D3113E97,
               0x9EA44422D11827A1, 0x24900E9A93CAD604);
    MixTailFirst(0x2D2C82FAE5F19CB4, [77, 78, 79, 80, 81, 82, 83, 84]);
    assert [77, 78, 79, 80, 81, 82, 83, 84][8..] == [];
    NothingMixed(0x24900E9A93CAD604);
  }

  /** A stripe and a word of eight bytes, under a seed. */
  lemma SeededLetters()
    ensures Hash(0x2A, LETTERS) == 0xD3759BFC659FE170
  {
    hide Xor, Avalanche, MixTail, Converge, Absorbed, Init, Rounds;
    SeededLettersLastXors();
    AvalancheIs(0x24900E9A93CAD604, 0x24900E9A8182D149, 0xC4B8012B593091EC, 0xD3759BFC659FE170);
    SeededLettersStart();
    OneStripe(Init(0x2A), LETTERS);
    SeededLettersRounds();
    SeededLettersConverge();
    assert Add64(0x2D2C82FAE5F19C8C, 40) == 0x2D2C82FAE5F19CB4;
    assert LETTERS[32..] == [77, 78, 79, 80, 81, 82, 83, 84];
    SeededLettersTail();
  }

  // ---- A change that does not show ----

  const FIRST: Bytes := [148, 134, 154, 230, 16, 193, 120, 131]
  const OTHER: Bytes := [170, 183, 3, 123, 114, 146, 220, 192]
  const S1: Bytes := [91, 37, 169, 28, 173, 9, 239, 106]
  const S2: Bytes := [0, 0, 0, 0, 0, 0, 0, 0]
  const S3: Bytes := [73, 255, 223, 198, 36, 24, 96, 4]
  const SHARED: Bytes := S1 + (S2 + S3)

  const LEFT: Bytes := FIRST + SHARED
  const RIGHT: Bytes := OTHER + SHARED

  lemma SharedLengths()
    ensures |FIRST| == |OTHER| == |S1| == |S2| == |S3| == 8 && |SHARED| == 24 && |LEFT| == |RIGHT| == 32
  {
  }

  lemma CancelXors()
    ensures Xor(0x7400C0B685B112C8, 0xC90D63D0C1949C39) == 0xBD0DA36644258EF1
    ensures Xor(0xAFE3C0032006817, 0xB7F39F667625E6E6) == 0xBD0DA36644258EF1
  {
    hide *;
    XorTable();
    XorDigits(0, 0, 7, 4, 0, 0, 12, 9, 0, 13);
    XorDigits(0x7400, 0xC90D, 12, 0, 11, 6, 6, 3, 13, 0);
    XorDigits(0x7400C0B6, 0xC90D63D0, 8, 5, 11, 1, 12, 1, 9, 4);
    XorDigits(0x7400C0B685B1, 0xC90D63D0C194, 1, 2, 12, 8, 9, 12, 3, 9);
    XorDigits(0, 0, 0, 10, 15, 14, 11, 7, 15, 3);
    XorDigits(0xAFE, 0xB7F3, 3, 12, 0, 0, 9, 15, 6, 6);
    XorDigits(0xAFE3C00, 0xB7F39F66, 3, 2, 0, 0, 7, 6, 2, 5);
    XorDigits(0xAFE3C003200, 0xB7F39F667625, 6, 8, 1, 7, 14, 6, 14, 6);
  }

  lemma ZeroStart()
    ensures Init(0) ==
      Lanes(0x60EA27EEADC0B5D6, 0xC2B2AE3D27D4EB4F,
            0, 0x61C8864E7A143579)
  {
  }

  lemma LeftWord0()
    ensures ReadLE64(LEFT, 0) == 0x8378C110E69A8694
  {
    SharedLengths();
    ReadParts64(FIRST, SHARED, 0);
  }

  lemma LeftWord8()
    ensures ReadLE64(LEFT, 8) == 0x6AEF09AD1CA9255B
  {
    SharedLengths();
    ReadParts64(FIRST, SHARED, 8);
    ReadParts64(S1, S2 + S3, 0);
  }

  lemma LeftWord16()
    ensures ReadLE64(LEFT, 16) == 0
  {
    SharedLengths();
    ReadParts64(FIRST, SHARED, 16);
    ReadParts64(S1, S2 + S3, 8);
    ReadParts64(S2, S3, 0);
  }

  lemma LeftWord24()
    ensures ReadLE64(LEFT, 24) == 0x4601824C6DFFF49
  {
    SharedLengths();
    ReadParts64(FIRST, SHARED, 24);
    ReadParts64(S1, S2 + S3, 16);
    ReadParts64(S2, S3, 8);
  }

  lemma LeftRounds()
    ensures Rounds(Lanes(0x60EA27EEADC0B5D6, 0xC2B2AE3D27D4EB4F,
                         0, 0x61C8864E7A143579), LEFT, 0) ==
      Lanes(0x945C8B1EC672AC78, 0xAE968F54F1F19773,
            0, 0)
  {
    hide Pow2, ReadLE64, Round;
    LowPowers();
    HighPowers();
    LeftWord0();
    LeftWord8();
    LeftWord16();
    LeftWord24();
    RoundIs(0x60EA27EEADC0B5D6, 0x8378C110E69A8694, 0x95D143A301C963AC, 0xF6BB6B91AF8A1982, 0xD7C50CC17B5DB5C8,
            0x945C8B1EC672AC78);
    RoundIs(0xC2B2AE3D27D4EB4F, 0x6AEF09AD1CA9255B, 0x8B57272DE9D91015, 0x4E09D56B11ADFB64, 0x88D6FDB22704EAB5,
            0xAE968F54F1F19773);
    RoundIs(0, 0, 0, 0, 0, 0);
    RoundIs(0x61C8864E7A143579, 0x4601824C6DFFF49, 0x9E3779B185EBCA87, 0, 0, 0);
  }

  lemma RightWord0()
    ensures ReadLE64(RIGHT, 0) == 0xC0DC92727B03B7AA
  {
    SharedLengths();
    ReadParts64(OTHER, SHARED, 0);
  }

  lemma RightWord8()
    ensures ReadLE64(RIGHT, 8) == 0x6AEF09AD1CA9255B
  {
    SharedLengths();
    ReadParts64(OTHER, SHARED, 8);
    ReadParts64(S1, S2 + S3, 0);
  }

  lemma RightWord16()
    ensures ReadLE64(RIGHT, 16) == 0
  {
    SharedLengths();
    ReadParts64(OTHER, SHARED, 16);
    ReadParts64(S1, S2 + S3, 8);
    ReadParts64(S2, S3, 0);
  }

  lemma RightWord24()
    ensures ReadLE64(RIGHT, 24) == 0x4601824C6DFFF49
  {
    SharedLengths();
    ReadParts64(OTHER, SHARED, 24);
    ReadParts64(S1, S2 + S3, 16);
    ReadParts64(S2, S3, 8);
  }

  lemma RightRounds()
    ensures Rounds(Lanes(0x60EA27EEADC0B5D6, 0xC2B2AE3D27D4EB4F,
                         0, 0x61C8864E7A143579), RIGHT, 0) ==
      Lanes(0x5FDB48C39C9A5720, 0xAE968F54F1F19773,
            0, 0)
  {
    hide Pow2, ReadLE64, Round;
    LowPowers();
    HighPowers();
    RightWord0();
    RightWord8();
    RightWord16();
    RightWord24();
    RoundIs(0x60EA27EEADC0B5D6, 0xC0DC92727B03B7AA, 0x14F807D15E86BB76, 0x75E22FC00C47714C, 0x623B8A63AF117E0,
            0x5FDB48C39C9A5720);
    RoundIs(0xC2B2AE3D27D4EB4F, 0x6AEF09AD1CA9255B, 0x8B57272DE9D91015, 0x4E09D56B11ADFB64, 0x88D6FDB22704EAB5,
            0xAE968F54F1F19773);
    RoundIs(0, 0, 0, 0, 0, 0);
    RoundIs(0x61C8864E7A143579, 0x4601824C6DFFF49, 0x9E3779B185EBCA87, 0, 0, 0);
  }

  lemma LanesCancel()
    ensures Cancels(Lanes(0x945C8B1EC672AC78, 0xAE968F54F1F19773, 0, 0),
                    Lanes(0x5FDB48C39C9A5720, 0xAE968F54F1F19773, 0, 0), 0)
  {
    hide Pow2, Xor, Round;
    LowPowers();
    HighPowers();
    CancelXors();
    RotlZero(12);
    RotlZero(18);
    assert Rotl64(0x945C8B1EC672AC78, 1) == 0x28B9163D8CE558F1;
    assert Rotl64(0x5FDB48C39C9A5720, 1) == 0xBFB691873934AE40;
    assert Rotl64(0xAE968F54F1F19773, 7) == 0x4B47AA78F8CBB9D7;
    RoundIs(0, 0x945C8B1EC672AC78, 0xB7F8A67F9D156108, 0xB7F8A67F9D156108, 0xCE8AB0845BFC533F, 0xC90D63D0C1949C39);
    RoundIs(0, 0x5FDB48C39C9A5720, 0xFB8EBAD5081B42E0, 0xFB8EBAD5081B42E0, 0x840DA1707DC75D6A, 0xB7F39F667625E6E6);
    assert Merged(Lanes(0x945C8B1EC672AC78, 0xAE968F54F1F19773, 0, 0), 0) == 0x7400C0B685B112C8;
    assert Merged(Lanes(0x5FDB48C39C9A5720, 0xAE968F54F1F19773, 0, 0), 0) == 0xAFE3C0032006817;
  }

  lemma FirstWordDiffers()
    ensures DifferIn(LEFT, RIGHT, 0, 8) && |LEFT| == |RIGHT| == 32
  {
    SharedLengths();
    assert LEFT[0..8] == FIRST && RIGHT[0..8] == OTHER && FIRST[0] != OTHER[0];
    assert LEFT[8..] == SHARED == RIGHT[8..];
  }

  /** Two messages of one stripe that differ in their first word only. */
  lemma OneWordUnseen()
    ensures DifferIn(LEFT, RIGHT, 0, 8) && Hash(0, LEFT) == Hash(0, RIGHT)
  {
    hide Absorbed, Init, Rounds, Cancels, Hash, DifferIn;
    FirstWordDiffers();
    ZeroStart();
    OneStripe(Init(0), LEFT);
    OneStripe(Init(0), RIGHT);
    LeftRounds();
    RightRounds();
    LanesCancel();
    StripeWordChange(0, LEFT, RIGHT, 0);
  }
}
