/**
  What XXH32 tells apart: every step of the hash is one-to-one, so messages that
  differ in a single word, or in a single byte of the last few, never collide.
 */
module Xxh32Laws {
  import opened Bits
  import opened Machine
  import opened Mixing
  import opened Xxh32

  // ---- Steps ----

  lemma PrimesInvertible()
    ensures 244002641 * PRIME32_1 == 1 + 150801925 * TWO_32
    ensures 3066638151 * PRIME32_2 == 1 + 1604247758 * TWO_32
    ensures 2828982549 * PRIME32_3 == 1 + 2151551417 * TWO_32
    ensures 2701016015 * PRIME32_4 == 1 + 420258189 * TWO_32
    ensures 2923004241 * PRIME32_5 == 1 + 255049472 * TWO_32
  {
  }

  /** A product by one of the primes tells its factor. */
  lemma TimesPrime(x: U32, y: U32)
    ensures Mul32(x, PRIME32_1) == Mul32(y, PRIME32_1) ==> x == y
    ensures Mul32(x, PRIME32_2) == Mul32(y, PRIME32_2) ==> x == y
    ensures Mul32(x, PRIME32_3) == Mul32(y, PRIME32_3) ==> x == y
    ensures Mul32(x, PRIME32_4) == Mul32(y, PRIME32_4) ==> x == y
    ensures Mul32(x, PRIME32_5) == Mul32(y, PRIME32_5) ==> x == y
  {
    PrimesInvertible();
    if Mul32(x, PRIME32_1) == Mul32(y, PRIME32_1) { MulOneToOne(x, y, PRIME32_1, 244002641, 150801925, TWO_32); }
    if Mul32(x, PRIME32_2) == Mul32(y, PRIME32_2) { MulOneToOne(x, y, PRIME32_2, 3066638151, 1604247758, TWO_32); }
    if Mul32(x, PRIME32_3) == Mul32(y, PRIME32_3) { MulOneToOne(x, y, PRIME32_3, 2828982549, 2151551417, TWO_32); }
    if Mul32(x, PRIME32_4) == Mul32(y, PRIME32_4) { MulOneToOne(x, y, PRIME32_4, 2701016015, 420258189, TWO_32); }
    if Mul32(x, PRIME32_5) == Mul32(y, PRIME32_5) { MulOneToOne(x, y, PRIME32_5, 2923004241, 255049472, TWO_32); }
  }

  /** The shape shared by all three kinds of steps. */
  lemma StepOneToOne(h: U32, h': U32, w: U32, w': U32, r: nat)
    requires 0 < r < 32 && Rotl32(Add32(h, w), r) == Rotl32(Add32(h', w'), r)
    ensures h == h' ==> w == w'
    ensures w == w' ==> h == h'
  {
    hide Rotl32, Add32;
    RotlOneToOne32(Add32(h, w), Add32(h', w'), r);
    AddOneToOne32(w, w', h);
    AddOneToOne32(h, h', w);
  }

  /** A round tells its input from the lane, and the lane from its input. */
  lemma RoundOneToOne(h: U32, h': U32, w: U32, w': U32)
    requires Round(h, w) == Round(h', w')
    ensures h == h' ==> w == w'
    ensures w == w' ==> h == h'
  {
    hide Rotl32, Add32, Mul32;
    var a, b := Mul32(w, PRIME32_2), Mul32(w', PRIME32_2);
    TimesPrime(Rotl32(Add32(h, a), 13), Rotl32(Add32(h', b), 13));
    StepOneToOne(h, h', a, b, 13);
    TimesPrime(w, w');
  }

  lemma Process4OneToOne(h: U32, h': U32, w: U32, w': U32)
    requires Process4(h, w) == Process4(h', w')
    ensures h == h' ==> w == w'
    ensures w == w' ==> h == h'
  {
    hide Rotl32, Add32, Mul32;
    var a, b := Mul32(w, PRIME32_3), Mul32(w', PRIME32_3);
    TimesPrime(Rotl32(Add32(h, a), 17), Rotl32(Add32(h', b), 17));
    StepOneToOne(h, h', a, b, 17);
    TimesPrime(w, w');
  }

  lemma Process1OneToOne(h: U32, h': U32, w: U8, w': U8)
    requires Process1(h, w) == Process1(h', w')
    ensures h == h' ==> w == w'
    ensures w == w' ==> h == h'
  {
    hide Rotl32, Add32, Mul32;
    var a, b := Mul32(w, PRIME32_5), Mul32(w', PRIME32_5);
    TimesPrime(Rotl32(Add32(h, a), 11), Rotl32(Add32(h', b), 11));
    StepOneToOne(h, h', a, b, 11);
    TimesPrime(w, w');
  }

  /** h ^= h >> s */
  lemma ShiftedIn(h: U32, h': U32)
    ensures Xor32(h, h / 0x8000) == Xor32(h', h' / 0x8000) ==> h == h'
    ensures Xor32(h, h / 0x2000) == Xor32(h', h' / 0x2000) ==> h == h'
    ensures Xor32(h, h / 0x1_0000) == Xor32(h', h' / 0x1_0000) ==> h == h'
  {
    hide Xor, Shr, Pow2;
    ShiftPowers();
    ShrDivides(h, 15);
    ShrDivides(h', 15);
    ShrDivides(h, 13);
    ShrDivides(h', 13);
    ShrDivides(h, 16);
    ShrDivides(h', 16);
    if Xor32(h, h / 0x8000) == Xor32(h', h' / 0x8000) { XorShiftOneToOne(h, h', 15); }
    if Xor32(h, h / 0x2000) == Xor32(h', h' / 0x2000) { XorShiftOneToOne(h, h', 13); }
    if Xor32(h, h / 0x1_0000) == Xor32(h', h' / 0x1_0000) { XorShiftOneToOne(h, h', 16); }
  }

  lemma ShiftPowers()
    ensures Pow2(13) == 0x2000 && Pow2(15) == 0x8000 && Pow2(16) == 0x1_0000
  {
    assert Pow2(7) == 0x80;
    assert Pow2(10) == 0x400;
  }

  lemma AvalancheOneToOne(h: U32, h': U32)
    requires Avalanche(h) == Avalanche(h')
    ensures h == h'
  {
    hide Xor32, Mul32;
    var a, b := Xor32(h, h / 0x8000), Xor32(h', h' / 0x8000);
    var a1, b1 := Mul32(a, PRIME32_2), Mul32(b, PRIME32_2);
    var c, d := Xor32(a1, a1 / 0x2000), Xor32(b1, b1 / 0x2000);
    ShiftedIn(Mul32(c, PRIME32_3), Mul32(d, PRIME32_3));
    TimesPrime(c, d);
    ShiftedIn(a1, b1);
    TimesPrime(a, b);
    ShiftedIn(h, h');
  }

  lemma {:induction false} MixTailOneToOne(h: U32, h': U32, tail: Bytes)
    requires MixTail(h, tail) == MixTail(h', tail)
    ensures h == h'
    decreases |tail|
  {
    hide Process4, Process1, ReadLE32;
    if |tail| >= 4 {
      var w := ReadLE32(tail, 0);
      MixTailOneToOne(Process4(h, w), Process4(h', w), tail[4..]);
      Process4OneToOne(h, h', w, w);
    } else if |tail| > 0 {
      MixTailOneToOne(Process1(h, tail[0]), Process1(h', tail[0]), tail[1..]);
      Process1OneToOne(h, h', tail[0], tail[0]);
    }
  }

  function Lane(v: Lanes, i: nat): U32 {
    if i == 0 then v.v1 else if i == 1 then v.v2 else if i == 2 then v.v3 else v.v4
  }

  /** Lane i differs, the other three do not. */
  ghost predicate DifferAt(u: Lanes, v: Lanes, i: nat) {
    i < 4 && forall j :: 0 <= j < 4 ==> (Lane(u, j) == Lane(v, j) <==> j != i)
  }

  /** No lane is lost when they are put together. */
  lemma ConvergeOneLane(u: Lanes, v: Lanes, i: nat)
    requires DifferAt(u, v, i)
    ensures Converge(u) != Converge(v)
  {
    hide Rotl32, Add32;
    assert Lane(u, 0) == u.v1 && Lane(u, 1) == u.v2 && Lane(u, 2) == u.v3 && Lane(u, 3) == u.v4;
    assert Lane(v, 0) == v.v1 && Lane(v, 1) == v.v2 && Lane(v, 2) == v.v3 && Lane(v, 3) == v.v4;
    if Converge(u) == Converge(v) {
      var a, b, c, d := Rotl32(u.v1, 1), Rotl32(u.v2, 7), Rotl32(u.v3, 12), Rotl32(u.v4, 18);
      var a', b', c', d' := Rotl32(v.v1, 1), Rotl32(v.v2, 7), Rotl32(v.v3, 12), Rotl32(v.v4, 18);
      SumOneToOne(a, b, c, d, a', b', c', d');
      if i == 0 { RotlOneToOne32(u.v1, v.v1, 1); }
      if i == 1 { RotlOneToOne32(u.v2, v.v2, 7); }
      if i == 2 { RotlOneToOne32(u.v3, v.v3, 12); }
      if i == 3 { RotlOneToOne32(u.v4, v.v4, 18); }
      assert false;
    }
  }

  lemma SumOneToOne(a: U32, b: U32, c: U32, d: U32, a': U32, b': U32, c': U32, d': U32)
    requires Add32(Add32(Add32(a, b), c), d) == Add32(Add32(Add32(a', b'), c'), d')
    ensures b == b' && c == c' && d == d' ==> a == a'
    ensures a == a' && c == c' && d == d' ==> b == b'
    ensures a == a' && b == b' && d == d' ==> c == c'
    ensures a == a' && b == b' && c == c' ==> d == d'
  {
    hide Add32;
    AddOneToOne32(d, d', Add32(Add32(a, b), c));
    AddOneToOne32(Add32(Add32(a, b), c), Add32(Add32(a', b'), c'), d);
    AddOneToOne32(c, c', Add32(a, b));
    AddOneToOne32(Add32(a, b), Add32(a', b'), c);
    AddOneToOne32(a, a', b);
    AddOneToOne32(b, b', a);
  }

  // ---- Changing one unit of a message ----

  /** The bytes of a message of n bytes that fill stripes. */
  function Whole(n: nat): (w: nat)
    ensures w <= n < w + 16
  {
    n / 16 * 16
  }

  /** The offset of a word in the stripes of a message of n bytes. */
  predicate StripeWord(n: nat, at: nat) { at % 4 == 0 && at < Whole(n) }

  lemma WholeWord(n: nat, at: nat)
    requires StripeWord(n, at)
    ensures n >= 16 && at + 4 <= Whole(n) <= n
    ensures at >= 16 ==> StripeWord(n - 16, at - 16)
  {
  }

  lemma WholeRest(n: nat)
    ensures n < 16 ==> Whole(n) == 0
    ensures n >= 16 ==> 16 <= Whole(n) == Whole(n - 16) + 16
  {
  }

  /** The lane that reads the word at an offset. */
  function LaneOf(at: nat): (i: nat)
    ensures i < 4
  {
    at % 16 / 4
  }

  lemma LaneIndex(at: nat)
    ensures if at < 16 then LaneOf(at) == at / 4 else LaneOf(at - 16) == LaneOf(at)
  {
    if at >= 16 {
      Remainder(at, 16);
      Quotient(at - 16, 16, at / 16 - 1, at % 16);
    }
  }

  /** What is mixed in one step of a message of n bytes: words while there are four bytes, then bytes. */
  predicate IsUnit(n: nat, at: nat, w: nat) {
    at + w <= n && if w == 4 then at % 4 == 0 else w == 1 && at >= n / 4 * 4
  }

  lemma UnitRest(n: nat, at: nat, w: nat)
    requires IsUnit(n, at, w) && at > 0
    ensures n >= 4 ==> at >= 4 && IsUnit(n - 4, at - 4, w)
    ensures n < 4 ==> w == 1 && IsUnit(n - 1, at - 1, w)
  {
  }

  lemma UnitBehind(n: nat, at: nat, w: nat)
    requires IsUnit(n, at, w) && at >= Whole(n)
    ensures IsUnit(n - Whole(n), at - Whole(n), w)
  {
    var q, r := n / 16, n % 16;
    Remainder(n, 16);
    assert Whole(n) == 16 * q && at - Whole(n) >= 0;
    CutOff(4, 4, q, r);
    CutOffAt(4, 4, q, at - Whole(n));
  }

  lemma {:induction false} TailChanged(h: U32, a: Bytes, b: Bytes, at: nat, w: nat)
    requires DifferIn(a, b, at, w) && IsUnit(|a|, at, w)
    ensures MixTail(h, a) != MixTail(h, b)
    decreases |a|
  {
    hide Process4, Process1, ReadLE32, DifferIn, IsUnit;
    SameLength(a, b, at, w);
    if at == 0 {
      FirstUnit(h, a, b, w);
      return;
    }
    UnitRest(|a|, at, w);
    if |a| >= 4 {
      DifferInRest(a, b, at, w, 4);
      SameWord(a, b, 0);
      TailChanged(Process4(h, ReadLE32(a, 0)), a[4..], b[4..], at - 4, w);
    } else {
      DifferInRest(a, b, at, w, 1);
      assert a[0] == a[..1][0] && b[0] == b[..1][0];
      TailChanged(Process1(h, a[0]), a[1..], b[1..], at - 1, w);
    }
  }

  lemma FirstUnit(h: U32, a: Bytes, b: Bytes, w: nat)
    requires DifferIn(a, b, 0, w) && IsUnit(|a|, 0, w)
    ensures MixTail(h, a) != MixTail(h, b)
  {
    hide Process4, Process1, ReadLE32;
    if MixTail(h, a) == MixTail(h, b) {
      if w == 4 {
        MixTailOneToOne(Process4(h, ReadLE32(a, 0)), Process4(h, ReadLE32(b, 0)), a[4..]);
        Process4OneToOne(h, h, ReadLE32(a, 0), ReadLE32(b, 0));
        ReadOneToOne32(a, b, 0);
      } else {
        MixTailOneToOne(Process1(h, a[0]), Process1(h, b[0]), a[1..]);
        Process1OneToOne(h, h, a[0], b[0]);
      }
      assert false;
    }
  }

  /** A difference in one lane stays in that lane. */
  lemma {:induction false} LaneStays(u: Lanes, v: Lanes, data: Bytes, i: nat)
    requires DifferAt(u, v, i)
    ensures DifferAt(Absorbed(u, data), Absorbed(v, data), i)
    decreases |data|
  {
    hide Round, ReadLE32;
    if |data| >= 16 {
      OneRound(u, v, data, data, i);
      LaneStays(Rounds(u, data, 0), Rounds(v, data, 0), data[16..], i);
    }
  }

  /** Lane k reads word k of the stripe. */
  lemma LaneReads(v: Lanes, data: Bytes, k: nat)
    requires |data| >= 16 && k < 4
    ensures Lane(Rounds(v, data, 0), k) == Round(Lane(v, k), ReadLE32(data, 4 * k))
  {
    hide Round, ReadLE32;
  }

  lemma OneRound(u: Lanes, v: Lanes, a: Bytes, b: Bytes, i: nat)
    requires |a| >= 16 && |b| >= 16 && i < 4
    requires forall k :: 0 <= k < 4 && k != i ==> Lane(u, k) == Lane(v, k) && ReadLE32(a, 4 * k) == ReadLE32(b, 4 * k)
    requires Lane(u, i) == Lane(v, i) <==> ReadLE32(a, 4 * i) != ReadLE32(b, 4 * i)
    ensures DifferAt(Rounds(u, a, 0), Rounds(v, b, 0), i)
  {
    hide Round, ReadLE32, Rounds, Lane;
    forall k | 0 <= k < 4
      ensures Lane(Rounds(u, a, 0), k) == Lane(Rounds(v, b, 0), k) <==> k != i
    {
      LaneReads(u, a, k);
      LaneReads(v, b, k);
      var x, y := ReadLE32(a, 4 * k), ReadLE32(b, 4 * k);
      if k == i && Round(Lane(u, k), x) == Round(Lane(v, k), y) {
        RoundOneToOne(Lane(u, k), Lane(v, k), x, y);
      }
    }
  }

  /** A word of the stripes changes exactly its own lane. */
  lemma {:induction false} LaneChanged(v: Lanes, a: Bytes, b: Bytes, at: nat)
    requires DifferIn(a, b, at, 4) && StripeWord(|a|, at)
    ensures DifferAt(Absorbed(v, a), Absorbed(v, b), LaneOf(at))
    decreases |a|
  {
    hide Round, ReadLE32, DifferIn, DifferAt, Rounds, Absorbed, Whole, StripeWord, LaneOf;
    SameLength(a, b, at, 4);
    WholeWord(|a|, at);
    LaneIndex(at);
    AbsorbedFirst(v, a);
    AbsorbedFirst(v, b);
    if at < 16 {
      StripeChanged(v, a, b, at);
      LaneStays(Rounds(v, a, 0), Rounds(v, b, 0), a[16..], LaneOf(at));
    } else {
      DifferInRest(a, b, at, 4, 16);
      SameStripe(v, a, b);
      LaneChanged(Rounds(v, a, 0), a[16..], b[16..], at - 16);
    }
  }

  lemma AbsorbedFirst(v: Lanes, data: Bytes)
    requires |data| >= 16
    ensures Absorbed(v, data) == Absorbed(Rounds(v, data, 0), data[16..])
  {
    hide Rounds;
  }

  lemma SameStripe(v: Lanes, a: Bytes, b: Bytes)
    requires |a| == |b| >= 16 && a[..16] == b[..16]
    ensures Rounds(v, a, 0) == Rounds(v, b, 0)
  {
    hide Round, ReadLE32;
    WordOfStripe(a, b, 0);
    WordOfStripe(a, b, 4);
    WordOfStripe(a, b, 8);
    WordOfStripe(a, b, 12);
  }

  lemma WordOfStripe(a: Bytes, b: Bytes, k: nat)
    requires |a| == |b| >= 16 && a[..16] == b[..16] && k <= 12
    ensures ReadLE32(a, k) == ReadLE32(b, k)
  {
    assert a[k..k + 4] == a[..16][k..k + 4] && b[k..k + 4] == b[..16][k..k + 4];
    SameWord(a, b, k);
  }

  lemma StripeChanged(v: Lanes, a: Bytes, b: Bytes, at: nat)
    requires DifferIn(a, b, at, 4) && StripeWord(|a|, at) && at < 16 <= |a|
    ensures DifferAt(Rounds(v, a, 0), Rounds(v, b, 0), LaneOf(at)) && a[16..] == b[16..]
  {
    hide Round, ReadLE32, Rounds;
    LaneIndex(at);
    forall k | 0 <= k < 4
      ensures ReadLE32(a, 4 * k) == ReadLE32(b, 4 * k) <==> k != at / 4
    {
      if k == at / 4 {
        if ReadLE32(a, at) == ReadLE32(b, at) { ReadOneToOne32(a, b, at); }
      } else {
        SameElsewhere(a, b, at, 4, 4 * k);
        SameWord(a, b, 4 * k);
      }
    }
    assert a[16..] == a[at + 4..][12 - at..] && b[16..] == b[at + 4..][12 - at..];
    OneRound(v, v, a, b, at / 4);
  }

  lemma {:induction false} SameStripes(v: Lanes, a: Bytes, b: Bytes)
    requires |a| == |b| && a[..Whole(|a|)] == b[..Whole(|a|)]
    ensures Absorbed(v, a) == Absorbed(v, b)
    decreases |a|
  {
    hide Rounds, Whole;
    if |a| >= 16 {
      var n := Whole(|a|);
      WholeRest(|a|);
      assert a[..16] == a[..n][..16] && b[..16] == b[..n][..16];
      SameStripe(v, a, b);
      assert a[16..][..n - 16] == a[..n][16..] && b[16..][..n - 16] == b[..n][16..];
      SameStripes(Rounds(v, a, 0), a[16..], b[16..]);
    }
  }

  /** The hash before its tail is mixed in. */
  ghost function Converged(seed: U32, msg: Bytes): U32 {
    if |msg| >= 16 then Converge(Absorbed(Init(seed), msg)) else Add32(seed, PRIME32_5)
  }

  /** The hash before its last step. */
  ghost function Mixed(seed: U32, msg: Bytes): U32 {
    MixTail(Add32(Converged(seed, msg), |msg| % TWO_32), msg[Whole(|msg|)..])
  }

  lemma HashMixes(seed: U32, msg: Bytes)
    ensures Hash(seed, msg) == Avalanche(Mixed(seed, msg))
  {
    hide Absorbed, Converge, MixTail, Avalanche, Init, Add32;
  }

  lemma HashAgain(seed: U32, seed': U32, a: Bytes, b: Bytes)
    requires |a| == |b| && Hash(seed, a) == Hash(seed', b)
    ensures Mixed(seed, a) == Mixed(seed', b)
  {
    hide Mixed, Avalanche, Hash;
    HashMixes(seed, a);
    HashMixes(seed', b);
    AvalancheOneToOne(Mixed(seed, a), Mixed(seed', b));
  }

  /** Equal tails leave equal hashes only to equal beginnings. */
  lemma SameTail(seed: U32, seed': U32, a: Bytes, b: Bytes)
    requires |a| == |b| && a[Whole(|a|)..] == b[Whole(|a|)..] && Hash(seed, a) == Hash(seed', b)
    ensures Converged(seed, a) == Converged(seed', b)
  {
    hide Converged, MixTail, Hash, Add32, Whole;
    var n, len := Whole(|a|), |a| % TWO_32;
    HashAgain(seed, seed', a, b);
    MixTailOneToOne(Add32(Converged(seed, a), len), Add32(Converged(seed', b), len), a[n..]);
    AddOneToOne32(Converged(seed, a), Converged(seed', b), len);
  }

  lemma FirstUnits(n: nat, at: nat, w: nat)
    requires IsUnit(n, at, w) && at < Whole(n)
    ensures w == 4 && at % 4 == 0
  {
    var q, r := n / 16, n % 16;
    assert n == 16 * q + r && n / 4 == 4 * q + r / 4;
  }

  lemma TailKept(a: Bytes, b: Bytes, at: nat, w: nat)
    requires DifferIn(a, b, at, w) && IsUnit(|a|, at, w) && at < Whole(|a|)
    ensures w == 4 && at % 4 == 0 && a[Whole(|a|)..] == b[Whole(|a|)..]
  {
    hide Whole;
    FirstUnits(|a|, at, w);
    WholeWord(|a|, at);
    var n := Whole(|a|);
    assert a[n..] == a[at + 4..][n - at - 4..] && b[n..] == b[at + 4..][n - at - 4..];
  }

  /**
    Messages of one length that differ in one unit only never have the same
    hash, under any seed: every bit of every byte matters.
   */
  lemma OneUnitChange(seed: U32, a: Bytes, b: Bytes, at: nat, w: nat)
    requires DifferIn(a, b, at, w) && IsUnit(|a|, at, w)
    ensures Hash(seed, a) != Hash(seed, b)
  {
    hide Absorbed, Converge, MixTail, Hash, Add32, DifferIn, DifferAt, Whole, IsUnit;
    SameLength(a, b, at, w);
    LaneIndex(at);
    WholeRest(|a|);
    if Hash(seed, a) == Hash(seed, b) {
      var n := Whole(|a|);
      if at < n {
        TailKept(a, b, at, w);
        SameTail(seed, seed, a, b);
        LaneChanged(Init(seed), a, b, at);
        ConvergeOneLane(Absorbed(Init(seed), a), Absorbed(Init(seed), b), LaneOf(at));
      } else {
        HashAgain(seed, seed, a, b);
        DifferInRest(a, b, at, w, n);
        UnitBehind(|a|, at, w);
        SameStripes(Init(seed), a, b);
        TailChanged(Add32(Converged(seed, a), |a| % TWO_32), a[n..], b[n..], at - n, w);
      }
      assert false;
    }
  }

  /** A message shorter than a stripe has a different hash under every seed. */
  lemma SeedChange(seed: U32, seed': U32, msg: Bytes)
    requires |msg| < 16 && Hash(seed, msg) == Hash(seed', msg)
    ensures seed == seed'
  {
    hide Hash, Add32;
    SameTail(seed, seed', msg, msg);
    AddOneToOne32(seed, seed', PRIME32_5);
  }
}
