/**
  XXH3's inner functions. Each is specified lane by lane; the scalar loop and the
  x86 vector loops (SSE2, AVX2 and AVX-512, that is 2, 4 or 8 lanes of 64 bits
  per register) are proved to compute exactly that.
 */
module Xxh3Kernels {
  import opened Machine
  import opened Buffers
  import opened Xxh3Stream
  import Xxh32

  const ACC_NB: nat := 8
  const TWO_47: nat := 0x8000_0000_0000

  // ---- What the kernels compute ----

  /** Lane i of a stripe. */
  function Word(b: Block64, i: nat): U64
    requires i < ACC_NB
  {
    ReadLE64(b, 8 * i)
  }

  /** i ^ 1 */
  function Partner(i: nat): (p: nat)
    ensures i < ACC_NB ==> p < ACC_NB
  {
    if i % 2 == 0 then i + 1 else i - 1
  }

  /** The 32x32 product of the two halves of the keyed input lane. */
  function Product(input: Block64, secret: Block64, i: nat): U64
    requires i < ACC_NB
  {
    var key := Xor64(Word(input, i), Word(secret, i));
    Mult32to64(Lo32(key), Hi32(key))
  }

  /** Lane i gains the input of the neighbouring lane and its own product. */
  function AccumulatedLane(acc: Acc, input: Block64, secret: Block64, i: nat): U64
    requires i < ACC_NB
  {
    (acc[i] + Word(input, Partner(i)) + Product(input, secret, i)) % TWO_64
  }

  function Accumulate512(acc: Acc, input: Block64, secret: Block64): Acc {
    seq<U64>(ACC_NB, i requires 0 <= i < ACC_NB => AccumulatedLane(acc, input, secret, i))
  }

  function ScrambledLane(a: U64, key: U64): U64 {
    Mul64(Xor64(Xor64(a, a / TWO_47), key), Xxh32.PRIME32_1)
  }

  function ScrambleAcc(acc: Acc, secret: Block64): Acc {
    seq<U64>(ACC_NB, i requires 0 <= i < ACC_NB => ScrambledLane(acc[i], Word(secret, i)))
  }

  // ---- Scalar ----

  /** What lane j holds once inputs 0..i have been mixed in. */
  ghost function MixedLane(acc: Acc, input: Block64, secret: Block64, j: nat, i: nat): U64
    requires j < ACC_NB
  {
    (acc[j]
     + (if Partner(j) < i then Word(input, Partner(j)) else 0)
     + (if j < i then Product(input, secret, j) else 0)) % TWO_64
  }

  /** XXH3_accumulate_512_scalar(). */
  method Accumulate512Scalar(acc: array<U64>, input: Block64, secret: Block64)
    requires acc.Length == ACC_NB
    modifies acc
    ensures acc[..] == Accumulate512(old(acc[..]), input, secret)
  {
    ghost var before: Acc := acc[..];
    for i := 0 to ACC_NB
      invariant forall j :: 0 <= j < ACC_NB ==> acc[j] == MixedLane(before, input, secret, j, i)
    {
      var dataVal := Word(input, i);
      var dataKey := Xor64(dataVal, Word(secret, i));
      var p := if i % 2 == 0 then i + 1 else i - 1;
      MixedStep(before, input, secret, i);
      acc[p] := Add64(acc[p], dataVal);
      acc[i] := Add64(acc[i], Mult32to64(Lo32(dataKey), Hi32(dataKey)));
    }
  }

  lemma MixedStep(acc: Acc, input: Block64, secret: Block64, i: nat)
    requires i < ACC_NB
    ensures forall j :: 0 <= j < ACC_NB && j != i && j != Partner(i) ==>
      MixedLane(acc, input, secret, j, i + 1) == MixedLane(acc, input, secret, j, i)
    ensures MixedLane(acc, input, secret, Partner(i), i + 1) ==
      Add64(MixedLane(acc, input, secret, Partner(i), i), Word(input, i))
    ensures MixedLane(acc, input, secret, i, i + 1) ==
      Add64(MixedLane(acc, input, secret, i, i), Product(input, secret, i))
  {
    hide MixedLane;
    forall j | 0 <= j < ACC_NB && j != i && j != Partner(i)
      ensures MixedLane(acc, input, secret, j, i + 1) == MixedLane(acc, input, secret, j, i)
    {
      MixedElsewhere(acc, input, secret, j, i);
    }
    MixedPartner(acc, input, secret, i);
    MixedOwn(acc, input, secret, i);
  }

  lemma MixedElsewhere(acc: Acc, input: Block64, secret: Block64, j: nat, i: nat)
    requires i < ACC_NB && j < ACC_NB && j != i && j != Partner(i)
    ensures MixedLane(acc, input, secret, j, i + 1) == MixedLane(acc, input, secret, j, i)
  {
    hide Word, Product;
    assert Partner(j) != i;
  }

  lemma MixedPartner(acc: Acc, input: Block64, secret: Block64, i: nat)
    requires i < ACC_NB
    ensures MixedLane(acc, input, secret, Partner(i), i + 1) ==
      Add64(MixedLane(acc, input, secret, Partner(i), i), Word(input, i))
  {
    hide Word, Product;
    var p := Partner(i);
    var x := acc[p] + if p < i then Product(input, secret, p) else 0;
    assert MixedLane(acc, input, secret, p, i) == x % TWO_64;
    assert MixedLane(acc, input, secret, p, i + 1) == (x + Word(input, i)) % TWO_64;
    WrapAdd64(x, Word(input, i));
  }

  lemma MixedOwn(acc: Acc, input: Block64, secret: Block64, i: nat)
    requires i < ACC_NB
    ensures MixedLane(acc, input, secret, i, i + 1) ==
      Add64(MixedLane(acc, input, secret, i, i), Product(input, secret, i))
  {
    hide Word, Product;
    var p := Partner(i);
    WrapAdd64(acc[i] + (if p < i then Word(input, p) else 0), Product(input, secret, i));
  }

  /** XXH3_scrambleAcc_scalar(). */
  method ScrambleAccScalar(acc: array<U64>, secret: Block64)
    requires acc.Length == ACC_NB
    modifies acc
    ensures acc[..] == ScrambleAcc(old(acc[..]), secret)
  {
    ghost var before: Acc := acc[..];
    for i := 0 to ACC_NB
      invariant forall j :: 0 <= j < ACC_NB ==>
        acc[j] == if j < i then ScrambledLane(before[j], Word(secret, j)) else before[j]
    {
      var acc64 := acc[i];
      acc64 := Xor64(acc64, acc64 / TWO_47);
      acc64 := Xor64(acc64, Word(secret, i));
      acc[i] := Mul64(acc64, Xxh32.PRIME32_1);
    }
  }

  // ---- Vector registers and intrinsics ----

  /** A vector register as its 64-bit lanes: 2 for SSE2, 4 for AVX2, 8 for AVX-512. */
  type Vec = seq<U64>

  ghost predicate Width(w: nat) { w == 2 || w == 4 || w == 8 }

  /** loadu: w lanes of a stripe, starting at lane `from`. */
  function Load(b: Block64, from: nat, w: nat): (v: Vec)
    requires from + w <= ACC_NB
    ensures |v| == w
    ensures forall i :: 0 <= i < |v| ==> v[i] == Word(b, from + i)
  {
    seq<U64>(w, i requires 0 <= i < w => Word(b, from + i))
  }

  function XorVec(a: Vec, b: Vec): (v: Vec)
    requires |a| == |b|
    ensures |v| == |a|
    ensures forall i :: 0 <= i < |v| ==> v[i] == Xor64(a[i], b[i])
  {
    seq<U64>(|a|, i requires 0 <= i < |a| => Xor64(a[i], b[i]))
  }

  function AddEpi64(a: Vec, b: Vec): (v: Vec)
    requires |a| == |b|
    ensures |v| == |a|
    ensures forall i :: 0 <= i < |v| ==> v[i] == Add64(a[i], b[i])
  {
    seq<U64>(|a|, i requires 0 <= i < |a| => Add64(a[i], b[i]))
  }

  /** The exact product of the low halves of each lane. */
  function MulEpu32(a: Vec, b: Vec): (v: Vec)
    requires |a| == |b|
    ensures |v| == |a|
    ensures forall i :: 0 <= i < |v| ==> v[i] == Mult32to64(Lo32(a[i]), Lo32(b[i]))
  {
    seq<U64>(|a|, i requires 0 <= i < |a| => Mult32to64(Lo32(a[i]), Lo32(b[i])))
  }

  function SrliEpi64by47(a: Vec): (v: Vec)
    ensures |v| == |a|
    ensures forall i :: 0 <= i < |v| ==> v[i] == a[i] / TWO_47
  {
    seq<U64>(|a|, i requires 0 <= i < |a| => a[i] / TWO_47)
  }

  function SlliEpi64by32(a: Vec): (v: Vec)
    ensures |v| == |a|
    ensures forall i :: 0 <= i < |v| ==> v[i] == a[i] * TWO_32 % TWO_64
  {
    seq<U64>(|a|, i requires 0 <= i < |a| => a[i] * TWO_32 % TWO_64)
  }

  /** 32-bit element `sel` (0 to 3) of the 128-bit group holding lane i. */
  function Element32(v: Vec, i: nat, sel: nat): U32
    requires i < |v| && |v| % 2 == 0 && sel < 4
  {
    var lane := v[i / 2 * 2 + sel / 2];
    if sel % 2 == 0 then Lo32(lane) else Hi32(lane)
  }

  function Join32(lo: U32, hi: U32): (x: U64)
    ensures Lo32(x) == lo && Hi32(x) == hi
  {
    lo + TWO_32 * hi
  }

  /** shuffle_epi32 with the selector _MM_SHUFFLE(z, y, x, w), per 128-bit group. */
  function ShuffleEpi32(v: Vec, z: nat, y: nat, x: nat, w: nat): (r: Vec)
    requires |v| % 2 == 0 && z < 4 && y < 4 && x < 4 && w < 4
    ensures |r| == |v|
  {
    seq<U64>(|v|, i requires 0 <= i < |v| =>
      if i % 2 == 0 then Join32(Element32(v, i, w), Element32(v, i, x))
      else Join32(Element32(v, i, y), Element32(v, i, z)))
  }

  // ---- Vector ----

  /** One register's worth of XXH3_accumulate_512_{sse2,avx2,avx512}(). */
  function AccumulateVec(accVec: Vec, dataVec: Vec, keyVec: Vec): (r: Vec)
    requires |accVec| == |dataVec| == |keyVec| && |accVec| % 2 == 0
    ensures |r| == |accVec|
  {
    var dataKey := XorVec(dataVec, keyVec);
    var dataKeyLo := ShuffleEpi32(dataKey, 0, 3, 0, 1);
    var product := MulEpu32(dataKey, dataKeyLo);
    var dataSwap := ShuffleEpi32(dataVec, 1, 0, 3, 2);
    var sum := AddEpi64(accVec, dataSwap);
    AddEpi64(product, sum)
  }

  lemma AccumulateVecLane(acc: Acc, input: Block64, secret: Block64, from: nat, w: nat, i: nat)
    requires from % 2 == 0 && w % 2 == 0 && from + w <= ACC_NB && i < w
    ensures AccumulateVec(acc[from..from + w], Load(input, from, w), Load(secret, from, w))[i]
            == AccumulatedLane(acc, input, secret, from + i)
  {
    hide Word, Xor64, Mult32to64, Lo32, Hi32, Load, XorVec, AddEpi64, MulEpu32, ShuffleEpi32;
    var dataVec, keyVec := Load(input, from, w), Load(secret, from, w);
    var dataKey := XorVec(dataVec, keyVec);
    SwappedHalf(dataKey, i);
    assert MulEpu32(dataKey, ShuffleEpi32(dataKey, 0, 3, 0, 1))[i] == Product(input, secret, from + i);
    SwappedLanes(dataVec, i);
    assert ShuffleEpi32(dataVec, 1, 0, 3, 2)[i] == Word(input, Partner(from + i));
    WrapAdd64(acc[from + i] + Word(input, Partner(from + i)), Product(input, secret, from + i));
  }

  /** The selector 0, 3, 0, 1 brings each lane's high half down. */
  lemma SwappedHalf(v: Vec, i: nat)
    requires |v| % 2 == 0 && i < |v|
    ensures Lo32(ShuffleEpi32(v, 0, 3, 0, 1)[i]) == Hi32(v[i])
  {
  }

  /** The selector 1, 0, 3, 2 swaps neighbouring lanes. */
  lemma SwappedLanes(v: Vec, i: nat)
    requires |v| % 2 == 0 && i < |v|
    ensures ShuffleEpi32(v, 1, 0, 3, 2)[i] == v[Partner(i)]
  {
    JoinSplit(v[Partner(i)]);
  }

  lemma JoinSplit(x: U64)
    ensures Join32(Lo32(x), Hi32(x)) == x
  {
  }

  /** XXH3_accumulate_512_{sse2,avx2,avx512}(): 8 / w registers of w lanes. */
  method Accumulate512Vector(w: nat, acc: array<U64>, input: Block64, secret: Block64)
    requires Width(w) && acc.Length == ACC_NB
    modifies acc
    ensures acc[..] == Accumulate512(old(acc[..]), input, secret)
  {
    hide AccumulatedLane, AccumulateVec, Load;
    ghost var before: Acc := acc[..];
    for i := 0 to ACC_NB / w
      invariant i * w <= ACC_NB
      invariant forall j :: 0 <= j < ACC_NB ==>
        acc[j] == if j < i * w then AccumulatedLane(before, input, secret, j) else before[j]
    {
      Registers(w, i);
      var from := i * w;
      assert acc[from..from + w] == before[from..from + w];
      var r := AccumulateVec(acc[from..from + w], Load(input, from, w), Load(secret, from, w));
      forall j | 0 <= j < w
        ensures r[j] == AccumulatedLane(before, input, secret, from + j)
      {
        AccumulateVecLane(before, input, secret, from, w, j);
      }
      Store(acc, from, r);
    }
    Registers(w, 0);
  }

  /** How registers tile the lanes. */
  lemma Registers(w: nat, i: nat)
    requires Width(w) && i < ACC_NB / w
    ensures ACC_NB / w * w == ACC_NB
    ensures (i + 1) * w == i * w + w <= ACC_NB && i * w % 2 == 0 && w % 2 == 0
  {
    assert w == 2 ==> i * w == 2 * i;
    assert w == 4 ==> i * w == 4 * i;
    assert w == 8 ==> i * w == 8 * i;
  }

  /** A register stored to memory. */
  method Store(dst: array<U64>, from: nat, v: Vec)
    requires from + |v| <= dst.Length
    modifies dst
    ensures forall j :: 0 <= j < dst.Length ==>
      dst[j] == if from <= j < from + |v| then v[j - from] else old(dst[j])
  {
    forall j | from <= j < from + |v| {
      dst[j] := v[j - from];
    }
  }

  /** One register's worth of XXH3_scrambleAcc_{sse2,avx2,avx512}(): the 64-bit
      product is assembled from two 32-bit ones. */
  function ScrambleVec(accVec: Vec, keyVec: Vec, prime32: Vec): (r: Vec)
    requires |accVec| == |keyVec| == |prime32| && |accVec| % 2 == 0
    ensures |r| == |accVec|
  {
    var shifted := SrliEpi64by47(accVec);
    var dataVec := XorVec(accVec, shifted);
    var dataKey := XorVec(dataVec, keyVec);
    var dataKeyHi := ShuffleEpi32(dataKey, 0, 3, 0, 1);
    var prodLo := MulEpu32(dataKey, prime32);
    var prodHi := MulEpu32(dataKeyHi, prime32);
    AddEpi64(prodLo, SlliEpi64by32(prodHi))
  }

  /** set1_epi32(XXH_PRIME32_1) */
  function Prime32(w: nat): (v: Vec)
    ensures |v| == w && forall i :: 0 <= i < w ==> Lo32(v[i]) == Xxh32.PRIME32_1
  {
    seq<U64>(w, _ => Join32(Xxh32.PRIME32_1, Xxh32.PRIME32_1))
  }

  /** A 64-bit product by a 32-bit factor from the products of the halves. */
  lemma SplitProduct(x: U64, p: U32)
    ensures Add64(Mult32to64(Lo32(x), p), Mult32to64(Hi32(x), p) * TWO_32 % TWO_64) == Mul64(x, p)
  {
    var lo: nat, hi: nat := Lo32(x), Hi32(x);
    assert x == TWO_32 * hi + lo;
    assert x * p == TWO_32 * (hi * p) + lo * p;
    WrapAdd64(TWO_32 * (hi * p), lo * p);
  }

  lemma ScrambleVecLane(acc: Acc, secret: Block64, from: nat, w: nat, i: nat)
    requires w % 2 == 0 && from + w <= ACC_NB && i < w
    ensures ScrambleVec(acc[from..from + w], Load(secret, from, w), Prime32(w))[i]
            == ScrambledLane(acc[from + i], Word(secret, from + i))
  {
    hide Word, Xor64, Mult32to64, Lo32, Hi32, Add64, Mul64;
    hide Load, XorVec, AddEpi64, MulEpu32, ShuffleEpi32, SrliEpi64by47, SlliEpi64by32, Prime32;
    var accVec := acc[from..from + w];
    var dataKey := XorVec(XorVec(accVec, SrliEpi64by47(accVec)), Load(secret, from, w));
    SwappedHalf(dataKey, i);
    SplitProduct(dataKey[i], Xxh32.PRIME32_1);
  }

  /** XXH3_scrambleAcc_{sse2,avx2,avx512}(). */
  method ScrambleAccVector(w: nat, acc: array<U64>, secret: Block64)
    requires Width(w) && acc.Length == ACC_NB
    modifies acc
    ensures acc[..] == ScrambleAcc(old(acc[..]), secret)
  {
    hide ScrambledLane, ScrambleVec, Load, Prime32;
    ghost var before: Acc := acc[..];
    for i := 0 to ACC_NB / w
      invariant i * w <= ACC_NB
      invariant forall j :: 0 <= j < ACC_NB ==>
        acc[j] == if j < i * w then ScrambledLane(before[j], Word(secret, j)) else before[j]
    {
      Registers(w, i);
      var from := i * w;
      assert acc[from..from + w] == before[from..from + w];
      var r := ScrambleVec(acc[from..from + w], Load(secret, from, w), Prime32(w));
      forall j | 0 <= j < w
        ensures r[j] == ScrambledLane(before[from + j], Word(secret, from + j))
      {
        ScrambleVecLane(before, secret, from, w, j);
      }
      Store(acc, from, r);
    }
    Registers(w, 0);
  }

  // ---- The secret derived from a seed ----

  const SECRET_LANES: nat := 24

  /** Even lanes of the default secret gain the seed, odd lanes lose it. */
  function SeededLane(kSecret: DefaultSecret, seed: U64, i: nat): U64
    requires i < SECRET_LANES
  {
    var word := ReadLE64(kSecret, 8 * i);
    if i % 2 == 0 then Add64(word, seed) else Sub64(word, seed)
  }

  function CustomSecret(kSecret: DefaultSecret, seed: U64): DefaultSecret {
    seq<U8>(SECRET_DEFAULT_SIZE,
            j requires 0 <= j < SECRET_DEFAULT_SIZE => ByteOf(SeededLane(kSecret, seed, j / 8), j % 8))
  }

  /** XXH_writeLE64(). */
  method WriteLE64(dst: array<U8>, at: nat, x: U64)
    requires at + 8 <= dst.Length
    modifies dst
    ensures forall j :: 0 <= j < dst.Length ==>
      dst[j] == if at <= j < at + 8 then ByteOf(x, j - at) else old(dst[j])
  {
    forall j | at <= j < at + 8 {
      dst[j] := ByteOf(x, j - at);
    }
  }

  /** The first n lanes of dst are those of the custom secret. */
  ghost predicate SeededUpTo(dst: array<U8>, kSecret: DefaultSecret, seed: U64, n: nat)
    reads dst
  {
    && n <= SECRET_LANES && dst.Length == SECRET_DEFAULT_SIZE
    && forall j :: 0 <= j < 8 * n ==> dst[j] == ByteOf(SeededLane(kSecret, seed, j / 8), j % 8)
  }

  /** Writing the next lane extends the seeded part. */
  method WriteLane(dst: array<U8>, ghost kSecret: DefaultSecret, ghost seed: U64, n: nat, x: U64)
    requires n < SECRET_LANES && SeededUpTo(dst, kSecret, seed, n) && x == SeededLane(kSecret, seed, n)
    modifies dst
    ensures SeededUpTo(dst, kSecret, seed, n + 1)
  {
    hide ByteOf, SeededLane;
    WriteLE64(dst, 8 * n, x);
  }

  /** XXH3_initCustomSecret_scalar(). */
  method InitCustomSecretScalar(dst: array<U8>, kSecret: DefaultSecret, seed: U64)
    requires dst.Length == SECRET_DEFAULT_SIZE
    modifies dst
    ensures dst[..] == CustomSecret(kSecret, seed)
  {
    hide SeededUpTo, SeededLane, CustomSecret, ReadLE64, Add64, Sub64;
    SeededNone(dst, kSecret, seed);
    for i := 0 to SECRET_DEFAULT_SIZE / 16
      invariant SeededUpTo(dst, kSecret, seed, 2 * i)
    {
      SeededPair(kSecret, seed, i);
      var lo := Add64(ReadLE64(kSecret, 16 * i), seed);
      var hi := Sub64(ReadLE64(kSecret, 16 * i + 8), seed);
      WriteLane(dst, kSecret, seed, 2 * i, lo);
      WriteLane(dst, kSecret, seed, 2 * i + 1, hi);
    }
    SeededAll(dst, kSecret, seed);
  }

  lemma SeededNone(dst: array<U8>, kSecret: DefaultSecret, seed: U64)
    requires dst.Length == SECRET_DEFAULT_SIZE
    ensures SeededUpTo(dst, kSecret, seed, 0)
  {
  }

  lemma SeededAll(dst: array<U8>, kSecret: DefaultSecret, seed: U64)
    requires SeededUpTo(dst, kSecret, seed, SECRET_LANES)
    ensures dst[..] == CustomSecret(kSecret, seed)
  {
    hide ByteOf, SeededLane;
  }

  lemma SeededPair(kSecret: DefaultSecret, seed: U64, i: nat)
    requires 2 * i + 1 < SECRET_LANES
    ensures SeededLane(kSecret, seed, 2 * i) == Add64(ReadLE64(kSecret, 16 * i), seed)
    ensures SeededLane(kSecret, seed, 2 * i + 1) == Sub64(ReadLE64(kSecret, 16 * i + 8), seed)
  {
    hide ReadLE64;
  }

  /** set_epi64x(-seed, seed, ...) */
  function SeedVec(w: nat, seed: U64): (v: Vec)
    ensures |v| == w && forall i :: 0 <= i < w ==> v[i] == if i % 2 == 0 then seed else Sub64(0, seed)
  {
    seq<U64>(w, i => if i % 2 == 0 then seed else Sub64(0, seed))
  }

  /** w lanes of the default secret. */
  function LoadSecret(kSecret: DefaultSecret, from: nat, w: nat): (v: Vec)
    requires from + w <= SECRET_LANES
    ensures |v| == w && forall i :: 0 <= i < w ==> v[i] == ReadLE64(kSecret, 8 * (from + i))
  {
    seq<U64>(w, i requires 0 <= i < w => ReadLE64(kSecret, 8 * (from + i)))
  }

  lemma SeededVecLane(kSecret: DefaultSecret, seed: U64, from: nat, w: nat, i: nat)
    requires from % 2 == 0 && from + w <= SECRET_LANES && i < w
    ensures AddEpi64(LoadSecret(kSecret, from, w), SeedVec(w, seed))[i] == SeededLane(kSecret, seed, from + i)
  {
    hide ReadLE64, Add64, Sub64;
    AddNegative(ReadLE64(kSecret, 8 * (from + i)), seed);
  }

  /** Adding the negated seed subtracts it. */
  lemma AddNegative(word: U64, seed: U64)
    ensures Add64(word, Sub64(0, seed)) == Sub64(word, seed)
  {
    if seed == 0 {
      assert Sub64(0, seed) == 0;
    } else {
      assert Sub64(0, seed) == TWO_64 - seed;
      if word < seed {
        assert Sub64(word, seed) == word + TWO_64 - seed;
      }
    }
  }

  /** XXH3_initCustomSecret_{sse2,avx2,avx512}(). */
  method InitCustomSecretVector(w: nat, dst: array<U8>, kSecret: DefaultSecret, seed: U64)
    requires Width(w) && dst.Length == SECRET_DEFAULT_SIZE
    modifies dst
    ensures dst[..] == CustomSecret(kSecret, seed)
  {
    hide SeededUpTo, SeededLane, CustomSecret, LoadSecret, SeedVec, AddEpi64;
    SeededNone(dst, kSecret, seed);
    for i := 0 to SECRET_LANES / w
      invariant i * w <= SECRET_LANES && SeededUpTo(dst, kSecret, seed, i * w)
    {
      SecretRegisters(w, i);
      var from := i * w;
      var r := AddEpi64(LoadSecret(kSecret, from, w), SeedVec(w, seed));
      for j := 0 to w
        invariant SeededUpTo(dst, kSecret, seed, from + j)
      {
        SeededVecLane(kSecret, seed, from, w, j);
        WriteLane(dst, kSecret, seed, from + j, r[j]);
      }
    }
    SecretRegisters(w, 0);
    SeededAll(dst, kSecret, seed);
  }

  lemma SecretRegisters(w: nat, i: nat)
    requires Width(w) && i < SECRET_LANES / w
    ensures SECRET_LANES / w * w == SECRET_LANES
    ensures (i + 1) * w == i * w + w <= SECRET_LANES && i * w % 2 == 0
  {
    assert w == 2 ==> i * w == 2 * i;
    assert w == 4 ==> i * w == 4 * i;
    assert w == 8 ==> i * w == 8 * i;
  }

  /** The kernels of this build, whichever instruction set it uses. */
  function XxhKernel(kSecret: DefaultSecret): Kernel {
    Kernel((a, input, secret) => Accumulate512(a, input, secret),
           (a, secret) => ScrambleAcc(a, secret),
           seed => CustomSecret(kSecret, seed),
           kSecret)
  }

  /** The proved kernels behind the proved streaming: XXH3 in pieces. */
  method Xxh3InPieces<H>(kSecret: DefaultSecret, v: Variant<H>, mode: Mode, pieces: seq<Bytes>) returns (h: H)
    requires |Concat(pieces)| < TWO_64
    requires mode.WithSecret? ==> |mode.secret| < TWO_64
    ensures h == Hash(XxhKernel(kSecret), v, mode, Concat(pieces))
  {
    h := HashInPieces(XxhKernel(kSecret), v, mode, pieces);
  }

  // ---- The long multiply ----

  datatype U128 = U128(low: U64, high: U64)

  /** XXH_mult64to128(), portable branch: every intermediate fits 64 bits and the
      result is the exact 128-bit product. */
  function Mult64to128(lhs: U64, rhs: U64): (r: U128)
    ensures r.high * TWO_64 + r.low == lhs * rhs
  {
    var loLo := Mult32to64(Lo32(lhs), Lo32(rhs));
    var hiLo := Mult32to64(Hi32(lhs), Lo32(rhs));
    var loHi := Mult32to64(Lo32(lhs), Hi32(rhs));
    var hiHi := Mult32to64(Hi32(lhs), Hi32(rhs));
    PartialProducts(lhs, rhs, loLo, hiLo, loHi, hiHi);
    Carries32(loLo, hiLo, loHi, hiHi);
    var cross: U64 := Hi32(loLo) + Lo32(hiLo) + loHi;
    var upper: U64 := Hi32(hiLo) + Hi32(cross) + hiHi;
    var lower: U64 := cross * TWO_32 % TWO_64 + Lo32(loLo);
    U128(lower, upper)
  }

  /** The four partial products make up the product. */
  lemma PartialProducts(lhs: U64, rhs: U64, loLo: nat, hiLo: nat, loHi: nat, hiHi: nat)
    requires loLo == Lo32(lhs) * Lo32(rhs) && hiLo == Hi32(lhs) * Lo32(rhs)
    requires loHi == Lo32(lhs) * Hi32(rhs) && hiHi == Hi32(lhs) * Hi32(rhs)
    ensures lhs * rhs == hiHi * TWO_64 + (hiLo + loHi) * TWO_32 + loLo
    ensures loLo <= MAX_PRODUCT && hiLo <= MAX_PRODUCT && loHi <= MAX_PRODUCT && hiHi <= MAX_PRODUCT
  {
    Halves(lhs);
    Halves(rhs);
    LongProduct(Hi32(lhs), Lo32(lhs), Hi32(rhs), Lo32(rhs));
  }

  /** Adding the four partial products column by column never overflows. */
  lemma Carries32(loLo: nat, hiLo: nat, loHi: nat, hiHi: nat)
    requires loLo <= MAX_PRODUCT && hiLo <= MAX_PRODUCT && loHi <= MAX_PRODUCT && hiHi <= MAX_PRODUCT
    ensures
      var cross := loLo / TWO_32 + hiLo % TWO_32 + loHi;
      var upper := hiLo / TWO_32 + cross / TWO_32 + hiHi;
      var lower := cross * TWO_32 % TWO_64 + loLo % TWO_32;
      && cross < TWO_64 && lower < TWO_64
      && upper * TWO_64 + lower == hiHi * TWO_64 + (hiLo + loHi) * TWO_32 + loLo
      && upper <= hiHi + 2 * TWO_32
  {
    var cross := loLo / TWO_32 + hiLo % TWO_32 + loHi;
    Halves(loLo);
    Halves(hiLo);
    Halves(cross);
    ShiftedHalf(cross);
  }

  lemma Halves(x: nat)
    ensures x == x / TWO_32 * TWO_32 + x % TWO_32 && x % TWO_32 < TWO_32
    ensures x <= MAX_PRODUCT ==> x / TWO_32 <= TWO_32 - 2
    ensures x < TWO_64 ==> x / TWO_32 < TWO_32
  {
  }

  lemma ShiftedHalf(x: nat)
    ensures x * TWO_32 % TWO_64 == x % TWO_32 * TWO_32
  {
    var c1, c0 := x / TWO_32, x % TWO_32;
    assert x * TWO_32 == c1 * TWO_64 + c0 * TWO_32;
    Quotient(x * TWO_32, TWO_64, c1, c0 * TWO_32);
  }

  const MAX_PRODUCT: nat := (TWO_32 - 1) * (TWO_32 - 1)

  lemma LongProduct(a1: U32, a0: U32, b1: U32, b0: U32)
    ensures (a1 * TWO_32 + a0) * (b1 * TWO_32 + b0) ==
            (a1 * b1) * TWO_64 + (a1 * b0 + a0 * b1) * TWO_32 + a0 * b0
    ensures a0 * b0 <= MAX_PRODUCT && a1 * b0 <= MAX_PRODUCT && a0 * b1 <= MAX_PRODUCT && a1 * b1 <= MAX_PRODUCT
  {
    MulMono(a0, b0, TWO_32 - 1, TWO_32 - 1);
    MulMono(a1, b0, TWO_32 - 1, TWO_32 - 1);
    MulMono(a0, b1, TWO_32 - 1, TWO_32 - 1);
    MulMono(a1, b1, TWO_32 - 1, TWO_32 - 1);
    Expand(a1, a0, b1, b0, TWO_32);
  }

  lemma Expand(a1: nat, a0: nat, b1: nat, b0: nat, base: nat)
    ensures (a1 * base + a0) * (b1 * base + b0) == (a1 * b1) * (base * base) + (a1 * b0 + a0 * b1) * base + a0 * b0
  {
    var a, b := a1 * base, b1 * base;
    assert (a + a0) * (b + b0) == a * b + a * b0 + a0 * b + a0 * b0;
    assert a * b == (a1 * b1) * (base * base);
    assert a * b0 == (a1 * b0) * base;
    assert a0 * b == (a0 * b1) * base;
  }

  /** XXH3_len_9to16_128b(): the 32-bit and the 64-bit branch add the same value
      to the high half, for every value of input_hi. */
  lemma NineTo16BranchesAgree(high: U64, inputHi: U64)
    ensures
      var masked := inputHi - Lo32(inputHi);
      Add64(high, Add64(masked, Mult32to64(Lo32(inputHi), Xxh32.PRIME32_2))) ==
      Add64(high, Add64(inputHi, Mult32to64(Lo32(inputHi), Xxh32.PRIME32_2 - 1)))
  {
    var lo: nat := Lo32(inputHi);
    assert lo * Xxh32.PRIME32_2 == lo * (Xxh32.PRIME32_2 - 1) + lo;
  }
}
