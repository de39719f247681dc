/** How the lanes of XXH3 converge into 64 bits. */
module Xxh3Merge {
  import opened Bits
  import opened Machine
  import opened Mixing
  import opened Xxh3Stream
  import opened Xxh3Kernels
  import Xxh32
  import Xxh64

  const SECRET_MERGEACCS_START: nat := 11
  const AVALANCHE_FACTOR: U64 := 0x165667919E3779F9

  /** XXH3_mul128_fold64(): both halves of the product. */
  function Fold64(x: U64, y: U64): U64 {
    var p := Mult64to128(x, y);
    Xor64(p.low, p.high)
  }

  /** XXH3_avalanche() */
  function Avalanche(h: U64): U64 {
    var h1 := Mul64(Xor64(h, h / 0x20_0000_0000), AVALANCHE_FACTOR);
    Xor64(h1, h1 / 0x1_0000_0000)
  }

  /** XXH3_mix2Accs() of lanes 2i and 2i + 1. */
  function Mix2Accs(acc: Acc, secret: Bytes, i: nat): U64
    requires i < 4 && |secret| >= SECRET_MERGEACCS_START + 64
  {
    var at := SECRET_MERGEACCS_START + 16 * i;
    Fold64(Xor64(acc[2 * i], ReadLE64(secret, at)), Xor64(acc[2 * i + 1], ReadLE64(secret, at + 8)))
  }

  /** The start value and the first n pairs. */
  function Sum(acc: Acc, secret: Bytes, start: U64, n: nat): U64
    requires n <= 4 && |secret| >= SECRET_MERGEACCS_START + 64
  {
    if n == 0 then start else Add64(Sum(acc, secret, start, n - 1), Mix2Accs(acc, secret, n - 1))
  }

  /** The 64-bit result; a shorter secret cannot occur. */
  function Merge64(acc: Acc, secret: Bytes, len: nat): U64 {
    if |secret| < SECRET_MERGEACCS_START + 64 then 0
    else Avalanche(Sum(acc, secret, len * Xxh64.PRIME64_1 % TWO_64, 4))
  }

  /** XXH3_mergeAccs() as XXH3_hashLong_64b_internal() calls it. */
  method MergeAccs(acc: Acc, secret: Secret, len: nat) returns (h: U64)
    ensures h == Merge64(acc, secret, len)
  {
    hide Fold64, Avalanche, ReadLE64;
    var result64 := len * Xxh64.PRIME64_1 % TWO_64;
    for i := 0 to 4
      invariant result64 == Sum(acc, secret, len * Xxh64.PRIME64_1 % TWO_64, i)
    {
      var at := SECRET_MERGEACCS_START + 16 * i;
      var low := Xor64(acc[2 * i], ReadLE64(secret, at));
      var high := Xor64(acc[2 * i + 1], ReadLE64(secret, at + 8));
      result64 := Add64(result64, Fold64(low, high));
    }
    h := Avalanche(result64);
  }

  /** The 64-bit variant, for any hash of short inputs. */
  function Variant64(shortHash: (Bytes, U64, Bytes) -> U64): Variant<U64> {
    Variant(shortHash, Merge64)
  }

  /** The last step loses nothing. */
  lemma AvalancheOneToOne(h: U64, h': U64)
    requires Avalanche(h) == Avalanche(h')
    ensures h == h'
  {
    hide Xor, Shr, Pow2, Mul64;
    ShiftPowers();
    var x, y := Xor64(h, h / 0x20_0000_0000), Xor64(h', h' / 0x20_0000_0000);
    var a, b := Mul64(x, AVALANCHE_FACTOR), Mul64(y, AVALANCHE_FACTOR);
    ShrDivides(a, 32);
    ShrDivides(b, 32);
    XorShiftOneToOne(a, b, 32);
    FactorOneToOne(x, y);
    ShrDivides(h, 37);
    ShrDivides(h', 37);
    XorShiftOneToOne(h, h', 37);
  }

  lemma ShiftPowers()
    ensures Pow2(32) == 0x1_0000_0000 && Pow2(37) == 0x20_0000_0000
  {
    Pow2Values();
    assert Pow2(34) == 0x4_0000_0000;
  }

  lemma FactorOneToOne(x: U64, y: U64)
    ensures Mul64(x, AVALANCHE_FACTOR) == Mul64(y, AVALANCHE_FACTOR) ==> x == y
  {
    assert 637979407623780425 * AVALANCHE_FACTOR == 1 + 55667485921959089 * TWO_64;
    if Mul64(x, AVALANCHE_FACTOR) == Mul64(y, AVALANCHE_FACTOR) {
      MulOneToOne(x, y, AVALANCHE_FACTOR, 637979407623780425, 55667485921959089, TWO_64);
    }
  }

  // ---- Lanes lose nothing ----

  /** Neither absorbing a stripe nor scrambling ever makes different lanes equal. */
  lemma LanesKept(a: Acc, b: Acc, input: Block64, secret: Block64)
    ensures Accumulate512(a, input, secret) == Accumulate512(b, input, secret) ==> a == b
    ensures ScrambleAcc(a, secret) == ScrambleAcc(b, secret) ==> a == b
  {
    hide Product, Word, ScrambledLane, AccumulatedLane;
    var p, q := Accumulate512(a, input, secret), Accumulate512(b, input, secret);
    forall i | 0 <= i < 8
      ensures p[i] == q[i] ==> a[i] == b[i]
    {
      AccumulatedOneToOne(a, b, input, secret, i);
    }
    var s, t := ScrambleAcc(a, secret), ScrambleAcc(b, secret);
    forall i | 0 <= i < 8
      ensures s[i] == t[i] ==> a[i] == b[i]
    {
      if s[i] == t[i] { ScrambledOneToOne(a[i], b[i], Word(secret, i)); }
    }
  }

  lemma AccumulatedOneToOne(a: Acc, b: Acc, input: Block64, secret: Block64, i: nat)
    requires i < 8
    ensures AccumulatedLane(a, input, secret, i) == AccumulatedLane(b, input, secret, i) ==> a[i] == b[i]
  {
    hide Product, Word;
    var c := Word(input, Partner(i)) + Product(input, secret, i);
    WrapAdd64(c, a[i]);
    WrapAdd64(c, b[i]);
    AddOneToOne64(a[i], b[i], c % TWO_64);
  }

  lemma ScrambledOneToOne(a: U64, b: U64, key: U64)
    requires ScrambledLane(a, key) == ScrambledLane(b, key)
    ensures a == b
  {
    hide Xor, Shr, Pow2, Mul64;
    var x, y := Xor64(Xor64(a, a / TWO_47), key), Xor64(Xor64(b, b / TWO_47), key);
    PrimeOneToOne(x, y);
    XorOneToOne(Xor64(a, a / TWO_47), Xor64(b, b / TWO_47), key);
    Power47();
    ShrDivides(a, 47);
    ShrDivides(b, 47);
    XorShiftOneToOne(a, b, 47);
  }

  lemma Power47()
    ensures Pow2(47) == TWO_47
  {
    Pow2Values();
    assert Pow2(36) == 0x10_0000_0000;
    assert Pow2(40) == 0x100_0000_0000;
    assert Pow2(44) == 0x1000_0000_0000;
  }

  lemma PrimeOneToOne(x: U64, y: U64)
    requires Mul64(x, Xxh32.PRIME32_1) == Mul64(y, Xxh32.PRIME32_1)
    ensures x == y
  {
    assert 14962265741255716689 * Xxh32.PRIME32_1 == 1 + 2153028908 * TWO_64;
    MulOneToOne(x, y, Xxh32.PRIME32_1, 14962265741255716689, 2153028908, TWO_64);
  }
}
