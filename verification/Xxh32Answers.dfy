/**
  Published answers of XXH32, and one under a seed. They settle what no law about
  changes can: the primes, the rotations and the order of the steps.
 */
module Xxh32Answers {
  import opened Bits
  import opened Machine
  import opened Digits
  import opened Mixing
  import opened Xxh32

  lemma Powers()
    ensures Pow2(1) == 2 && Pow2(7) == 0x80 && Pow2(11) == 0x800 && Pow2(12) == 0x1000 && Pow2(13) == 0x2000
    ensures Pow2(14) == 0x4000 && Pow2(15) == 0x8000 && Pow2(17) == 0x2_0000 && Pow2(18) == 0x4_0000
    ensures Pow2(19) == 0x8_0000 && Pow2(20) == 0x10_0000 && Pow2(21) == 0x20_0000 && Pow2(25) == 0x200_0000
    ensures Pow2(31) == 0x8000_0000
  {
    assert Pow2(3) == 8;
    assert Pow2(5) == 0x20;
    assert Pow2(9) == 0x200;
    assert Pow2(23) == 0x80_0000;
    assert Pow2(27) == 0x800_0000;
    assert Pow2(29) == 0x2000_0000;
  }

  lemma AvalancheIs(h: U32, x: U32, y: U32, r: U32)
    requires
      var h1 := Mul32(x, PRIME32_2);
      var h2 := Mul32(y, PRIME32_3);
      Xor(h, h / 0x8000) == x && Xor(h1, h1 / 0x2000) == y && Xor(h2, h2 / 0x1_0000) == r
    ensures Avalanche(h) == r
  {
    hide Xor, Mul32;
  }

  /** A step through the values it passes. */
  lemma RoundIs(h: U32, w: U32, a: U32, b: U32, c: U32, r: U32)
    requires Mul32(w, PRIME32_2) == a && Add32(h, a) == b && Rotl32(b, 13) == c && Mul32(c, PRIME32_1) == r
    ensures Round(h, w) == r
  {
    hide Mul32, Add32, Rotl32;
  }

  lemma Process4Is(h: U32, w: U32, a: U32, b: U32, c: U32, r: U32)
    requires Mul32(w, PRIME32_3) == a && Add32(h, a) == b && Rotl32(b, 17) == c && Mul32(c, PRIME32_4) == r
    ensures Process4(h, w) == r
  {
    hide Mul32, Add32, Rotl32;
  }

  lemma Process1Is(h: U32, w: U8, a: U32, b: U32, c: U32, r: U32)
    requires Mul32(w, PRIME32_5) == a && Add32(h, a) == b && Rotl32(b, 11) == c && Mul32(c, PRIME32_1) == r
    ensures Process1(h, w) == r
  {
    hide Mul32, Add32, Rotl32;
  }

  lemma WordMixed(h: U32, tail: Bytes, w: U32, h': U32)
    requires |tail| >= 4 && ReadLE32(tail, 0) == w && Process4(h, w) == h'
    ensures MixTail(h, tail) == MixTail(h', tail[4..])
  {
    hide Process4, ReadLE32;
  }

  lemma ByteMixed(h: U32, tail: Bytes, h': U32)
    requires 1 <= |tail| < 4 && Process1(h, tail[0]) == h'
    ensures MixTail(h, tail) == MixTail(h', tail[1..])
  {
    hide Process1;
  }

  lemma NothingMixed(h: U32)
    ensures MixTail(h, []) == h
  {
  }

  lemma OneStripe(v: Lanes, msg: Bytes)
    requires 16 <= |msg| < 32
    ensures Absorbed(v, msg) == Rounds(v, msg, 0)
  {
    hide Rounds;
  }

  lemma TwoStripes(v: Lanes, msg: Bytes)
    requires 32 <= |msg| < 48
    ensures Absorbed(v, msg) == Rounds(Rounds(v, msg, 0), msg, 16)
  {
    hide Round;
    var u := Rounds(v, msg, 0);
    assert Rounds(u, msg[16..], 0) == Rounds(u, msg, 16);
    OneStripe(u, msg[16..]);
  }

  lemma EmptyMessageXors()
    ensures Xor(0x165667B1, 0x2CAC) == 0x16564B1D
    ensures Xor(0x7E00CC7B, 0x3F006) == 0x7E033C7D
    ensures Xor(0x2CC5FC9, 0x2CC) == 0x2CC5D05
  {
    hide *;
    XorTable();
    XorDigits(0, 0, 1, 6, 5, 6, 0, 0, 0, 0);
    XorDigits(0x1656, 0, 6, 7, 11, 1, 2, 12, 10, 12);
    XorDigits(0, 0, 7, 14, 0, 0, 0, 0, 0, 3);
    XorDigits(0x7E00, 3, 12, 12, 7, 11, 15, 0, 0, 6);
    XorDigits(0, 0, 0, 2, 12, 12, 0, 0, 0, 0);
    XorDigits(0x2CC, 0, 5, 15, 12, 9, 0, 2, 12, 12);
  }

  /** The empty message. */
  lemma EmptyMessage()
    ensures Hash(0, []) == 0x2CC5D05
  {
    hide Xor, Avalanche, MixTail, Converge, Absorbed, Init, Rounds;
    EmptyMessageXors();
    AvalancheIs(0x165667B1, 0x16564B1D, 0x7E033C7D, 0x2CC5D05);
    assert Add32(Add32(0, PRIME32_5), 0) == 0x165667B1;
    NothingMixed(0x165667B1);
  }

  lemma AbcXors()
    ensures Xor(0x760A1E67, 0xEC14) == 0x760AF273
    ensures Xor(0xD0F67175, 0x687B3) == 0xD0F0F6C6
    ensures Xor(0x32D1612E, 0x32D1) == 0x32D153FF
  {
    hide *;
    XorTable();
    XorDigits(0, 0, 7, 6, 0, 10, 0, 0, 0, 0);
    XorDigits(0x760A, 0, 1, 14, 6, 7, 14, 12, 1, 4);
    XorDigits(0, 0, 13, 0, 15, 6, 0, 0, 0, 6);
    XorDigits(0xD0F6, 6, 7, 1, 7, 5, 8, 7, 11, 3);
    XorDigits(0, 0, 3, 2, 13, 1, 0, 0, 0, 0);
    XorDigits(0x32D1, 0, 6, 1, 2, 14, 3, 2, 13, 1);
  }

  lemma AbcTail()
    ensures MixTail(0x165667B4, [97, 98, 99]) == 0x760A1E67
  {
    hide MixTail, Pow2, Process4, Process1;
    Powers();
    Process1Is(0x165667B4, 0x61, 0x76BD4A11, 0x8D13B1C5, 0x9D8E2C68, 0xDCA1DBE8);
    ByteMixed(0x165667B4, [97, 98, 99], 0xDCA1DBE8);
    assert [97, 98, 99][1..] == [98, 99];
    Process1Is(0xDCA1DBE8, 0x62, 0x8D13B1C2, 0x69B58DAA, 0xAC6D534D, 0x4F80FD3D);
    ByteMixed(0xDCA1DBE8, [98, 99], 0x4F80FD3D);
    assert [98, 99][1..] == [99];
    Process1Is(0x4F80FD3D, 0x63, 0xA36A1973, 0xF2EB16B0, 0x58B58797, 0x760A1E67);
    ByteMixed(0x4F80FD3D, [99], 0x760A1E67);
    assert [99][1..] == [];
    NothingMixed(0x760A1E67);
  }

  /** "abc" */
  lemma Abc()
    ensures Hash(0, [97, 98, 99]) == 0x32D153FF
  {
    hide Xor, Avalanche, MixTail, Converge, Absorbed, Init, Rounds;
    AbcXors();
    AvalancheIs(0x760A1E67, 0x760AF273, 0xD0F0F6C6, 0x32D153FF);
    assert Add32(Add32(0, PRIME32_5), 3) == 0x165667B4;
    assert [97, 98, 99][0..] == [97, 98, 99];
    AbcTail();
  }

  const LETTERS: Bytes := seq<U8>(16, j requires 0 <= j < 16 => 97 + j)

  lemma SeededLettersXors()
    ensures Xor(0xDFF0E458, 0x1BFE1) == 0xDFF15BB9
    ensures Xor(0xDB649CFF, 0x6DB24) == 0xDB6247DB
    ensures Xor(0xFF87F92F, 0xFF87) == 0xFF8706A8
  {
    hide *;
    XorTable();
    XorDigits(0, 0, 13, 15, 15, 0, 0, 0, 0, 1);
    XorDigits(0xDFF0, 1, 14, 4, 5, 8, 11, 15, 14, 1);
    XorDigits(0, 0, 13, 11, 6, 4, 0, 0, 0, 6);
    XorDigits(0xDB64, 6, 9, 12, 15, 15, 13, 11, 2, 4);
    XorDigits(0, 0, 15, 15, 8, 7, 0, 0, 0, 0);
    XorDigits(0xFF87, 0, 15, 9, 2, 15, 15, 15, 8, 7);
  }

  lemma SeededLettersStart()
    ensures Init(0x2A) == Lanes(0x24234452, 0x85EBCAA1, 0x2A, 0x61C88679)
  {
  }

  lemma SeededLettersWords0()
    ensures ReadLE32(LETTERS, 0) == 0x64636261 && ReadLE32(LETTERS, 4) == 0x68676665
  {
  }

  lemma SeededLettersWords8()
    ensures ReadLE32(LETTERS, 8) == 0x6C6B6A69 && ReadLE32(LETTERS, 12) == 0x706F6E6D
  {
  }

  lemma SeededLettersRounds0()
    ensures Rounds(Lanes(0x24234452, 0x85EBCAA1, 0x2A, 0x61C88679), LETTERS, 0) ==
      Lanes(0x26B771C0, 0xA3548CDF, 0x141A5599, 0x7FED90B8)
  {
    hide Pow2, ReadLE32, Round;
    Powers();
    SeededLettersWords0();
    SeededLettersWords8();
    RoundIs(0x24234452, 0x64636261, 0xC9DE4517, 0xEE018969, 0x312D3DC0, 0x26B771C0);
    RoundIs(0x85EBCAA1, 0x68676665, 0x96934AF3, 0x1C7F1594, 0xE2B2838F, 0xA3548CDF);
    RoundIs(0x2A, 0x6C6B6A69, 0x634850CF, 0x634850F9, 0xA1F2C69, 0x141A5599);
    RoundIs(0x61C88679, 0x706F6E6D, 0x2FFD56AB, 0x91C5DD24, 0xBBA49238, 0x7FED90B8);
  }

  lemma SeededLettersConverge()
    ensures Converge(Lanes(0x26B771C0, 0xA3548CDF, 0x141A5599, 0x7FED90B8)) == 0xDFF0E448
  {
    hide Pow2;
    Powers();
    assert Rotl32(0x26B771C0, 1) == 0x4D6EE380;
    assert Rotl32(0xA3548CDF, 7) == 0xAA466FD1;
    assert Rotl32(0x141A5599, 12) == 0xA5599141;
    assert Rotl32(0x7FED90B8, 18) == 0x42E1FFB6;
  }

  /** One whole stripe, "abcdefghijklmnop", under a seed. */
  lemma SeededLetters()
    ensures Hash(0x2A, LETTERS) == 0xFF8706A8
  {
    hide Xor, Avalanche, MixTail, Converge, Absorbed, Init, Rounds;
    SeededLettersXors();
    AvalancheIs(0xDFF0E458, 0xDFF15BB9, 0xDB6247DB, 0xFF8706A8);
    SeededLettersStart();
    OneStripe(Init(0x2A), LETTERS);
    SeededLettersRounds0();
    SeededLettersConverge();
    assert Add32(0xDFF0E448, 16) == 0xDFF0E458;
    assert LETTERS[16..] == [];
    NothingMixed(0xDFF0E458);
  }

  const N0: Bytes := [78, 111, 98, 111, 100, 121, 32, 105]
  const N1: Bytes := [110, 115, 112, 101, 99, 116, 115, 32]
  const N2: Bytes := [116, 104, 101, 32, 115, 112, 97, 109]
  const N3: Bytes := [109, 105, 115, 104, 32, 114, 101, 112]
  const N4: Bytes := [101, 116, 105, 116, 105, 111, 110]
  const NOBODY_FROM_3: Bytes := N3 + N4
  const NOBODY_FROM_2: Bytes := N2 + NOBODY_FROM_3
  const NOBODY_FROM_1: Bytes := N1 + NOBODY_FROM_2

  /** "Nobody inspects the spammish repetition" */
  const NOBODY: Bytes := N0 + NOBODY_FROM_1

  lemma PartLengths()
    ensures |N0| == |N1| == |N2| == |N3| == 8 && |N4| == 7 && |NOBODY| == 39
  {
  }

  lemma NobodyRest()
    ensures NOBODY[32..] == [101, 116, 105, 116, 105, 111, 110]
  {
    assert NOBODY[8..] == NOBODY_FROM_1;
    assert NOBODY_FROM_1[8..] == NOBODY_FROM_2;
    assert NOBODY_FROM_2[8..] == NOBODY_FROM_3;
    assert NOBODY_FROM_3[8..] == N4;
    assert NOBODY[16..] == NOBODY[8..][8..];
    assert NOBODY[24..] == NOBODY[16..][8..];
    assert NOBODY[32..] == NOBODY[24..][8..];
  }

  lemma NobodyXors()
    ensures Xor(0xB3A7011B, 0x1674E) == 0xB3A66655
    ensures Xor(0xE81FA383, 0x740FD) == 0xE818E37E
    ensures Xor(0xE229D906, 0xE229) == 0xE2293B2F
  {
    hide *;
    XorTable();
    XorDigits(0, 0, 11, 3, 10, 7, 0, 0, 0, 1);
    XorDigits(0xB3A7, 1, 0, 1, 1, 11, 6, 7, 4, 14);
    XorDigits(0, 0, 14, 8, 1, 15, 0, 0, 0, 7);
    XorDigits(0xE81F, 7, 10, 3, 8, 3, 4, 0, 15, 13);
    XorDigits(0, 0, 14, 2, 2, 9, 0, 0, 0, 0);
    XorDigits(0xE229, 0, 13, 9, 0, 6, 14, 2, 2, 9);
  }

  lemma NobodyStart()
    ensures Init(0) == Lanes(0x24234428, 0x85EBCA77, 0, 0x61C8864F)
  {
  }

  lemma NobodyWords0()
    ensures ReadLE32(NOBODY, 0) == 0x6F626F4E && ReadLE32(NOBODY, 4) == 0x69207964
  {
    PartLengths();
    ReadParts32(N0, NOBODY_FROM_1, 0);
    ReadParts32(N0, NOBODY_FROM_1, 4);
  }

  lemma NobodyWords8()
    ensures ReadLE32(NOBODY, 8) == 0x6570736E && ReadLE32(NOBODY, 12) == 0x20737463
  {
    PartLengths();
    ReadParts32(N0, NOBODY_FROM_1, 8);
    ReadParts32(N1, NOBODY_FROM_2, 0);
    ReadParts32(N0, NOBODY_FROM_1, 12);
    ReadParts32(N1, NOBODY_FROM_2, 4);
  }

  lemma NobodyRounds0()
    ensures Rounds(Lanes(0x24234428, 0x85EBCA77, 0, 0x61C8864F), NOBODY, 0) ==
      Lanes(0x46A700A, 0xBFADF8E3, 0x5B32B4AA, 0x137E5555)
  {
    hide Pow2, ReadLE32, Round;
    Powers();
    NobodyWords0();
    NobodyWords8();
    RoundIs(0x24234428, 0x6F626F4E, 0x252F4942, 0x49528D6A, 0x51AD492A, 0x46A700A);
    RoundIs(0x85EBCA77, 0x69207964, 0xE0AD557C, 0x66991FF3, 0x23FE6CD3, 0xBFADF8E3);
    RoundIs(0, 0x6570736E, 0xFE547422, 0xFE547422, 0x8E845FCA, 0x5B32B4AA);
    RoundIs(0x61C8864F, 0x20737463, 0x75623805, 0xD72ABE54, 0x57CA9AE5, 0x137E5555);
  }

  lemma NobodyWords16()
    ensures ReadLE32(NOBODY, 16) == 0x20656874 && ReadLE32(NOBODY, 20) == 0x6D617073
  {
    PartLengths();
    ReadParts32(N0, NOBODY_FROM_1, 16);
    ReadParts32(N1, NOBODY_FROM_2, 8);
    ReadParts32(N2, NOBODY_FROM_3, 0);
    ReadParts32(N0, NOBODY_FROM_1, 20);
    ReadParts32(N1, NOBODY_FROM_2, 12);
    ReadParts32(N2, NOBODY_FROM_3, 4);
  }

  lemma NobodyWords24()
    ensures ReadLE32(NOBODY, 24) == 0x6873696D && ReadLE32(NOBODY, 28) == 0x70657220
  {
    PartLengths();
    ReadParts32(N0, NOBODY_FROM_1, 24);
    ReadParts32(N1, NOBODY_FROM_2, 16);
    ReadParts32(N2, NOBODY_FROM_3, 8);
    ReadParts32(N3, N4, 0);
    ReadParts32(N0, NOBODY_FROM_1, 28);
    ReadParts32(N1, NOBODY_FROM_2, 20);
    ReadParts32(N2, NOBODY_FROM_3, 12);
    ReadParts32(N3, N4, 4);
  }

  lemma NobodyRounds16()
    ensures Rounds(Lanes(0x46A700A, 0xBFADF8E3, 0x5B32B4AA, 0x137E5555), NOBODY, 16) ==
      Lanes(0x719A836E, 0x514C1DE8, 0x97FA4BA2, 0x242A97A2)
  {
    hide Pow2, ReadLE32, Round;
    Powers();
    NobodyWords16();
    NobodyWords24();
    RoundIs(0x46A700A, 0x20656874, 0x3A0B15EC, 0x3E7585F6, 0xB0BEC7CE, 0x719A836E);
    RoundIs(0xBFADF8E3, 0x6D617073, 0xB3970375, 0x7344FC58, 0x9F8B0E68, 0x514C1DE8);
    RoundIs(0x5B32B4AA, 0x6873696D, 0x6E503AB, 0x6217B855, 0xF70AAC42, 0x97FA4BA2);
    RoundIs(0x137E5555, 0x70657220, 0xAE954CE0, 0xC213A235, 0x7446B842, 0x242A97A2);
  }

  lemma NobodyConverge()
    ensures Converge(Lanes(0x719A836E, 0x514C1DE8, 0x97FA4BA2, 0x242A97A2)) == 0x8C86B52D
  {
    hide Pow2;
    Powers();
    assert Rotl32(0x719A836E, 1) == 0xE33506DC;
    assert Rotl32(0x514C1DE8, 7) == 0xA60EF428;
    assert Rotl32(0x97FA4BA2, 12) == 0xA4BA297F;
    assert Rotl32(0x242A97A2, 18) == 0x5E8890AA;
  }

  lemma NobodyTail()
    ensures MixTail(0x8C86B554, [101, 116, 105, 116, 105, 111, 110]) == 0xB3A7011B
  {
    hide MixTail, Pow2, Process4, Process1;
    Powers();
    assert ReadLE32([101, 116, 105, 116, 105, 111, 110], 0) == 0x74697465;
    Process4Is(0x8C86B554, 0x74697465, 0xE2776211, 0x6EFE1765, 0x2ECADDFC, 0x9B51544);
    WordMixed(0x8C86B554, [101, 116, 105, 116, 105, 111, 110], 0x74697465, 0x9B51544);
    assert [101, 116, 105, 116, 105, 111, 110][4..] == [105, 111, 110];
    Process1Is(0x9B51544, 0x69, 0x29708799, 0x33259CDD, 0x2CE6E999, 0xCDEFD3C9);
    ByteMixed(0x9B51544, [105, 111, 110], 0xCDEFD3C9);
    assert [105, 111, 110][1..] == [111, 110];
    Process1Is(0xCDEFD3C9, 0x6F, 0xAF76F5BF, 0x7D66C988, 0x364C43EB, 0x3852087B);
    ByteMixed(0xCDEFD3C9, [111, 110], 0x3852087B);
    assert [111, 110][1..] == [110];
    Process1Is(0x3852087B, 0x6E, 0x99208E0E, 0xD1729689, 0x94B44E8B, 0xB3A7011B);
    ByteMixed(0x3852087B, [110], 0xB3A7011B);
    assert [110][1..] == [];
    NothingMixed(0xB3A7011B);
  }

  /** Two stripes, a word and three bytes. */
  lemma Nobody()
    ensures Hash(0, NOBODY) == 0xE2293B2F
  {
    hide Xor, Avalanche, MixTail, Converge, Absorbed, Init, Rounds;
    NobodyXors();
    AvalancheIs(0xB3A7011B, 0xB3A66655, 0xE818E37E, 0xE2293B2F);
    NobodyStart();
    TwoStripes(Init(0), NOBODY);
    NobodyRounds0();
    NobodyRounds16();
    NobodyConverge();
    assert Add32(0x8C86B52D, 39) == 0x8C86B554;
    NobodyRest();
    NobodyTail();
  }
}
