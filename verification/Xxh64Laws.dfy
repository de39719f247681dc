/**
  What XXH64 tells apart. Every step is one-to-one, so a change of one unit
  behind the last stripe always shows. A change of one word of a stripe shows
  unless two differences cancel where its lane is merged, which can happen.
 */
module Xxh64Laws {
  import opened Bits
  import opened Machine
  import opened Mixing
  import opened Xxh64

  // ---- Steps ----

  lemma PrimesInvertible()
    ensures 614540362697595703 * PRIME64_1 == 1 + 379806830464837242 * TWO_64
    ensures 839798700976720815 * PRIME64_2 == 1 + 638699622168397319 * TWO_64
    ensures 16855272203555305545 * PRIME64_3 == 1 + 1470722560960728959 * TWO_64
    ensures 14236653164957433613 * PRIME64_5 == 1 + 2215118327355546487 * TWO_64
  {
  }

  /** A product by one of the primes tells its factor. */
  lemma TimesPrime(x: U64, y: U64)
    ensures Mul64(x, PRIME64_1) == Mul64(y, PRIME64_1) ==> x == y
    ensures Mul64(x, PRIME64_2) == Mul64(y, PRIME64_2) ==> x == y
    ensures Mul64(x, PRIME64_3) == Mul64(y, PRIME64_3) ==> x == y
    ensures Mul64(x, PRIME64_5) == Mul64(y, PRIME64_5) ==> x == y
  {
    PrimesInvertible();
    if Mul64(x, PRIME64_1) == Mul64(y, PRIME64_1) {
      MulOneToOne(x, y, PRIME64_1, 614540362697595703, 379806830464837242, TWO_64);
    }
    if Mul64(x, PRIME64_2) == Mul64(y, PRIME64_2) {
      MulOneToOne(x, y, PRIME64_2, 839798700976720815, 638699622168397319, TWO_64);
    }
    if Mul64(x, PRIME64_3) == Mul64(y, PRIME64_3) {
      MulOneToOne(x, y, PRIME64_3, 16855272203555305545, 1470722560960728959, TWO_64);
    }
    if Mul64(x, PRIME64_5) == Mul64(y, PRIME64_5) {
      MulOneToOne(x, y, PRIME64_5, 14236653164957433613, 2215118327355546487, TWO_64);
    }
  }

  /** A round tells its input from the lane, and the lane from its input. */
  lemma RoundOneToOne(h: U64, h': U64, w: U64, w': U64)
    requires Round(h, w) == Round(h', w')
    ensures h == h' ==> w == w'
    ensures w == w' ==> h == h'
  {
    hide Rotl64, Add64, Mul64;
    var a, b := Mul64(w, PRIME64_2), Mul64(w', PRIME64_2);
    TimesPrime(Rotl64(Add64(h, a), 31), Rotl64(Add64(h', b), 31));
    RotlOneToOne64(Add64(h, a), Add64(h', b), 31);
    AddOneToOne64(a, b, h);
    AddOneToOne64(h, h', a);
    TimesPrime(w, w');
  }

  lemma Xor64OneToOne(h: U64, h': U64, w: U64, w': U64)
    requires Xor64(h, w) == Xor64(h', w')
    ensures h == h' ==> w == w'
    ensures w == w' ==> h == h'
  {
    hide Xor;
    XorSymmetric(h, w);
    XorSymmetric(h', w');
    if h == h' { XorOneToOne(w, w', h); }
    if w == w' { XorOneToOne(h, h', w); }
  }

  lemma MergeOneToOne(h: U64, h': U64, w: U64, w': U64)
    requires MergeRound(h, w) == MergeRound(h', w')
    ensures Xor64(h, Round(0, w)) == Xor64(h', Round(0, w'))
  {
    hide Round, Xor64, Add64, Mul64;
    var a, b := Xor64(h, Round(0, w)), Xor64(h', Round(0, w'));
    AddOneToOne64(Mul64(a, PRIME64_1), Mul64(b, PRIME64_1), PRIME64_4);
    TimesPrime(a, b);
  }

  lemma Process8OneToOne(h: U64, h': U64, w: U64, w': U64)
    requires Process8(h, w) == Process8(h', w')
    ensures h == h' ==> w == w'
    ensures w == w' ==> h == h'
  {
    hide Round, Xor64, Rotl64, Add64, Mul64;
    var a, b := Xor64(h, Round(0, w)), Xor64(h', Round(0, w'));
    AddOneToOne64(Mul64(Rotl64(a, 27), PRIME64_1), Mul64(Rotl64(b, 27), PRIME64_1), PRIME64_4);
    TimesPrime(Rotl64(a, 27), Rotl64(b, 27));
    RotlOneToOne64(a, b, 27);
    Xor64OneToOne(h, h', Round(0, w), Round(0, w'));
    if h == h' { RoundOneToOne(0, 0, w, w'); }
  }

  lemma Process4OneToOne(h: U64, h': U64, w: U32, w': U32)
    requires Process4(h, w) == Process4(h', w')
    ensures h == h' ==> w == w'
    ensures w == w' ==> h == h'
  {
    hide Xor64, Rotl64, Add64, Mul64;
    var a, b := Xor64(h, Mul64(w, PRIME64_1)), Xor64(h', Mul64(w', PRIME64_1));
    AddOneToOne64(Mul64(Rotl64(a, 23), PRIME64_2), Mul64(Rotl64(b, 23), PRIME64_2), PRIME64_3);
    TimesPrime(Rotl64(a, 23), Rotl64(b, 23));
    RotlOneToOne64(a, b, 23);
    Xor64OneToOne(h, h', Mul64(w, PRIME64_1), Mul64(w', PRIME64_1));
    TimesPrime(w, w');
  }

  lemma Process1OneToOne(h: U64, h': U64, w: U8, w': U8)
    requires Process1(h, w) == Process1(h', w')
    ensures h == h' ==> w == w'
    ensures w == w' ==> h == h'
  {
    hide Xor64, Rotl64, Mul64;
    var a, b := Xor64(h, Mul64(w, PRIME64_5)), Xor64(h', Mul64(w', PRIME64_5));
    TimesPrime(Rotl64(a, 11), Rotl64(b, 11));
    RotlOneToOne64(a, b, 11);
    Xor64OneToOne(h, h', Mul64(w, PRIME64_5), Mul64(w', PRIME64_5));
    TimesPrime(w, w');
  }

  /** h ^= h >> s */
  lemma ShiftedIn(h: U64, h': U64)
    ensures Xor64(h, h / 0x2_0000_0000) == Xor64(h', h' / 0x2_0000_0000) ==> h == h'
    ensures Xor64(h, h / 0x2000_0000) == Xor64(h', h' / 0x2000_0000) ==> h == h'
    ensures Xor64(h, h / 0x1_0000_0000) == Xor64(h', h' / 0x1_0000_0000) ==> h == h'
  {
    hide Xor, Shr, Pow2;
    ShiftPowers();
    ShrDivides(h, 33);
    ShrDivides(h', 33);
    ShrDivides(h, 29);
    ShrDivides(h', 29);
    ShrDivides(h, 32);
    ShrDivides(h', 32);
    if Xor64(h, h / 0x2_0000_0000) == Xor64(h', h' / 0x2_0000_0000) { XorShiftOneToOne(h, h', 33); }
    if Xor64(h, h / 0x2000_0000) == Xor64(h', h' / 0x2000_0000) { XorShiftOneToOne(h, h', 29); }
    if Xor64(h, h / 0x1_0000_0000) == Xor64(h', h' / 0x1_0000_0000) { XorShiftOneToOne(h, h', 32); }
  }

  lemma ShiftPowers()
    ensures Pow2(29) == 0x2000_0000 && Pow2(32) == 0x1_0000_0000 && Pow2(33) == 0x2_0000_0000
  {
    Pow2Values();
  }

  lemma AvalancheOneToOne(h: U64, h': U64)
    requires Avalanche(h) == Avalanche(h')
    ensures h == h'
  {
    hide Xor64, Mul64;
    var a, b := Xor64(h, h / 0x2_0000_0000), Xor64(h', h' / 0x2_0000_0000);
    var a1, b1 := Mul64(a, PRIME64_2), Mul64(b, PRIME64_2);
    var c, d := Xor64(a1, a1 / 0x2000_0000), Xor64(b1, b1 / 0x2000_0000);
    ShiftedIn(Mul64(c, PRIME64_3), Mul64(d, PRIME64_3));
    TimesPrime(c, d);
    ShiftedIn(a1, b1);
    TimesPrime(a, b);
    ShiftedIn(h, h');
  }

  lemma {:induction false} MixTailOneToOne(h: U64, h': U64, tail: Bytes)
    requires MixTail(h, tail) == MixTail(h', tail)
    ensures h == h'
    decreases |tail|
  {
    hide Process8, Process4, Process1, ReadLE64, ReadLE32;
    if |tail| >= 8 {
      var w := ReadLE64(tail, 0);
      MixTailOneToOne(Process8(h, w), Process8(h', w), tail[8..]);
      Process8OneToOne(h, h', w, w);
    } else if |tail| >= 4 {
      var w := ReadLE32(tail, 0);
      MixTailOneToOne(Process4(h, w), Process4(h', w), tail[4..]);
      Process4OneToOne(h, h', w, w);
    } else if |tail| > 0 {
      MixTailOneToOne(Process1(h, tail[0]), Process1(h', tail[0]), tail[1..]);
      Process1OneToOne(h, h', tail[0], tail[0]);
    }
  }

  // ---- Lanes ----

  function Lane(v: Lanes, i: nat): U64 {
    if i == 0 then v.v1 else if i == 1 then v.v2 else if i == 2 then v.v3 else v.v4
  }

  /** Lane i differs, the other three do not. */
  ghost predicate DifferAt(u: Lanes, v: Lanes, i: nat) {
    i < 4 && forall j :: 0 <= j < 4 ==> (Lane(u, j) == Lane(v, j) <==> j != i)
  }

  /** The rotated lanes added up, and then the first k lanes merged in. */
  function Merged(v: Lanes, k: nat): U64 {
    if k == 0 then
      Add64(Add64(Add64(Rotl64(v.v1, 1), Rotl64(v.v2, 7)), Rotl64(v.v3, 12)), Rotl64(v.v4, 18))
    else
      MergeRound(Merged(v, k - 1), Lane(v, k - 1))
  }

  lemma ConvergeMerges(v: Lanes)
    ensures Converge(v) == Merged(v, 4)
  {
    hide MergeRound, Rotl64, Add64;
    assert Merged(v, 1) == MergeRound(Merged(v, 0), v.v1);
    assert Merged(v, 2) == MergeRound(Merged(v, 1), v.v2);
    assert Merged(v, 3) == MergeRound(Merged(v, 2), v.v3);
  }

  /** Merging equal lanes keeps a difference, and keeps equality. */
  lemma {:induction false} MergedSame(u: Lanes, v: Lanes, from: nat, k: nat)
    requires from <= k && forall j :: from <= j < k ==> Lane(u, j) == Lane(v, j)
    ensures Merged(u, k) == Merged(v, k) <==> Merged(u, from) == Merged(v, from)
  {
    hide Lane, MergeRound, Merged;
    if from < k {
      MergedSame(u, v, from, k - 1);
      MergedNext(u, k - 1);
      MergedNext(v, k - 1);
      if Merged(u, k) == Merged(v, k) {
        var l := Lane(u, k - 1);
        MergeOneToOne(Merged(u, k - 1), Merged(v, k - 1), l, l);
        Xor64OneToOne(Merged(u, k - 1), Merged(v, k - 1), Round(0, l), Round(0, l));
      }
    }
  }

  lemma MergedNext(v: Lanes, k: nat)
    ensures Merged(v, k + 1) == MergeRound(Merged(v, k), Lane(v, k))
  {
  }

  lemma SumChanged(u: Lanes, v: Lanes, i: nat)
    requires DifferAt(u, v, i)
    ensures Merged(u, 0) != Merged(v, 0)
  {
    hide Rotl64, Add64;
    assert Lane(u, 0) == u.v1 && Lane(u, 1) == u.v2 && Lane(u, 2) == u.v3 && Lane(u, 3) == u.v4;
    assert Lane(v, 0) == v.v1 && Lane(v, 1) == v.v2 && Lane(v, 2) == v.v3 && Lane(v, 3) == v.v4;
    if Merged(u, 0) == Merged(v, 0) {
      SumOneToOne(Rotl64(u.v1, 1), Rotl64(u.v2, 7), Rotl64(u.v3, 12), Rotl64(u.v4, 18),
                  Rotl64(v.v1, 1), Rotl64(v.v2, 7), Rotl64(v.v3, 12), Rotl64(v.v4, 18));
      if i == 0 { RotlOneToOne64(u.v1, v.v1, 1); }
      if i == 1 { RotlOneToOne64(u.v2, v.v2, 7); }
      if i == 2 { RotlOneToOne64(u.v3, v.v3, 12); }
      if i == 3 { RotlOneToOne64(u.v4, v.v4, 18); }
      assert false;
    }
  }

  lemma SumOneToOne(a: U64, b: U64, c: U64, d: U64, a': U64, b': U64, c': U64, d': U64)
    requires Add64(Add64(Add64(a, b), c), d) == Add64(Add64(Add64(a', b'), c'), d')
    ensures b == b' && c == c' && d == d' ==> a == a'
    ensures a == a' && c == c' && d == d' ==> b == b'
    ensures a == a' && b == b' && d == d' ==> c == c'
    ensures a == a' && b == b' && c == c' ==> d == d'
  {
    hide Add64;
    AddOneToOne64(d, d', Add64(Add64(a, b), c));
    AddOneToOne64(Add64(Add64(a, b), c), Add64(Add64(a', b'), c'), d);
    AddOneToOne64(c, c', Add64(a, b));
    AddOneToOne64(Add64(a, b), Add64(a', b'), c);
    AddOneToOne64(a, a', b);
    AddOneToOne64(b, b', a);
  }

  /** The differences of a lane and of what was merged before it cancel. */
  ghost predicate Cancels(u: Lanes, v: Lanes, i: nat) {
    Xor64(Merged(u, i), Round(0, Lane(u, i))) == Xor64(Merged(v, i), Round(0, Lane(v, i)))
  }

  /**
    Lanes that differ in one place converge alike exactly when the differences
    cancel there. What was merged before that always differs.
   */
  lemma ConvergeOneLane(u: Lanes, v: Lanes, i: nat)
    requires DifferAt(u, v, i)
    ensures Merged(u, i) != Merged(v, i)
    ensures Converge(u) == Converge(v) <==> Cancels(u, v, i)
  {
    hide Lane, MergeRound, Merged, Converge, Xor64;
    SumChanged(u, v, i);
    MergedSame(u, v, 0, i);
    ConvergeMerges(u);
    ConvergeMerges(v);
    MergedSame(u, v, i + 1, 4);
    MergeCancels(u, v, i);
  }

  lemma MergeCancels(u: Lanes, v: Lanes, i: nat)
    ensures Merged(u, i + 1) == Merged(v, i + 1) <==> Cancels(u, v, i)
  {
    hide Lane, Merged, Xor64, Mul64, Add64, Round;
    MergedNext(u, i);
    MergedNext(v, i);
    if Merged(u, i + 1) == Merged(v, i + 1) {
      MergeOneToOne(Merged(u, i), Merged(v, i), Lane(u, i), Lane(v, i));
    }
  }

  // ---- Changing one unit of a message ----

  /** The bytes of a message of n bytes that fill stripes. */
  function Whole(n: nat): (w: nat)
    ensures w <= n < w + 32
  {
    n / 32 * 32
  }

  /** The offset of a word in the stripes of a message of n bytes. */
  predicate StripeWord(n: nat, at: nat) { at % 8 == 0 && at < Whole(n) }

  lemma WholeWord(n: nat, at: nat)
    requires StripeWord(n, at)
    ensures n >= 32 && at + 8 <= Whole(n) <= n
    ensures at >= 32 ==> StripeWord(n - 32, at - 32)
  {
  }

  lemma WholeRest(n: nat)
    ensures n < 32 ==> Whole(n) == 0
    ensures n >= 32 ==> 32 <= Whole(n) == Whole(n - 32) + 32
  {
  }

  /** What is mixed in one step of a message of n bytes: words of eight bytes, at most
      one of four, then bytes. */
  predicate IsUnit(n: nat, at: nat, w: nat) {
    && at + w <= n
    && if w == 8 then at % 8 == 0
       else if w == 4 then at == n / 8 * 8
       else w == 1 && at >= n / 4 * 4
  }

  lemma UnitRest(n: nat, at: nat, w: nat)
    requires IsUnit(n, at, w) && at > 0
    ensures n >= 8 ==> at >= 8 && IsUnit(n - 8, at - 8, w)
    ensures 4 <= n < 8 ==> at >= 4 && IsUnit(n - 4, at - 4, w)
    ensures n < 4 ==> w == 1 && IsUnit(n - 1, at - 1, w)
  {
  }

  lemma FirstLong(n: nat, w: nat)
    requires IsUnit(n, 0, w)
    ensures if n >= 8 then w == 8 else if n >= 4 then w == 4 else w == 1
  {
  }

  lemma {:induction false} TailChanged(h: U64, a: Bytes, b: Bytes, at: nat, w: nat)
    requires DifferIn(a, b, at, w) && IsUnit(|a|, at, w)
    ensures MixTail(h, a) != MixTail(h, b)
    decreases |a|
  {
    hide Process8, Process4, Process1, ReadLE64, ReadLE32, DifferIn, MixTail, IsUnit;
    SameLength(a, b, at, w);
    MixTailFirst(h, a);
    MixTailFirst(h, b);
    if at == 0 {
      FirstUnit(h, a, b, w);
      return;
    }
    UnitRest(|a|, at, w);
    if |a| >= 8 {
      DifferInRest(a, b, at, w, 8);
      SameLong(a, b, 0);
      TailChanged(Process8(h, ReadLE64(a, 0)), a[8..], b[8..], at - 8, w);
    } else if |a| >= 4 {
      DifferInRest(a, b, at, w, 4);
      SameWord(a, b, 0);
      TailChanged(Process4(h, ReadLE32(a, 0)), a[4..], b[4..], at - 4, w);
    } else {
      DifferInRest(a, b, at, w, 1);
      assert a[0] == a[..1][0] && b[0] == b[..1][0];
      TailChanged(Process1(h, a[0]), a[1..], b[1..], at - 1, w);
    }
  }

  lemma MixTailFirst(h: U64, t: Bytes)
    ensures |t| >= 8 ==> MixTail(h, t) == MixTail(Process8(h, ReadLE64(t, 0)), t[8..])
    ensures 4 <= |t| < 8 ==> MixTail(h, t) == MixTail(Process4(h, ReadLE32(t, 0)), t[4..])
    ensures 1 <= |t| < 4 ==> MixTail(h, t) == MixTail(Process1(h, t[0]), t[1..])
  {
    hide Process8, Process4, Process1, ReadLE64, ReadLE32;
  }

  lemma SameLong(a: Bytes, b: Bytes, at: nat)
    requires at + 8 <= |a| && at + 8 <= |b| && a[at..at + 8] == b[at..at + 8]
    ensures ReadLE64(a, at) == ReadLE64(b, at)
  {
    hide ReadLE32;
    assert a[at..at + 4] == a[at..at + 8][..4] && b[at..at + 4] == b[at..at + 8][..4];
    assert a[at + 4..at + 8] == a[at..at + 8][4..] && b[at + 4..at + 8] == b[at..at + 8][4..];
    SameWord(a, b, at);
    SameWord(a, b, at + 4);
  }

  lemma FirstUnit(h: U64, a: Bytes, b: Bytes, w: nat)
    requires DifferIn(a, b, 0, w) && IsUnit(|a|, 0, w)
    ensures MixTail(h, a) != MixTail(h, b)
  {
    hide Process8, Process4, Process1, ReadLE64, ReadLE32, MixTail, IsUnit;
    FirstLong(|a|, w);
    MixTailFirst(h, a);
    MixTailFirst(h, b);
    if MixTail(h, a) == MixTail(h, b) {
      if w == 8 {
        MixTailOneToOne(Process8(h, ReadLE64(a, 0)), Process8(h, ReadLE64(b, 0)), a[8..]);
        Process8OneToOne(h, h, ReadLE64(a, 0), ReadLE64(b, 0));
        ReadOneToOne64(a, b, 0);
      } else if w == 4 {
        MixTailOneToOne(Process4(h, ReadLE32(a, 0)), Process4(h, ReadLE32(b, 0)), a[4..]);
        Process4OneToOne(h, h, ReadLE32(a, 0), ReadLE32(b, 0));
        ReadOneToOne32(a, b, 0);
      } else {
        MixTailOneToOne(Process1(h, a[0]), Process1(h, b[0]), a[1..]);
        Process1OneToOne(h, h, a[0], b[0]);
      }
      assert false;
    }
  }

  /** A difference in one lane stays in that lane. */
  lemma {:induction false} LaneStays(u: Lanes, v: Lanes, data: Bytes, i: nat)
    requires DifferAt(u, v, i)
    ensures DifferAt(Absorbed(u, data), Absorbed(v, data), i)
    decreases |data|
  {
    hide Round, ReadLE64;
    if |data| >= 32 {
      OneRound(u, v, data, data, i);
      LaneStays(Rounds(u, data, 0), Rounds(v, data, 0), data[32..], i);
    }
  }

  /** Lane k reads word k of the stripe. */
  lemma LaneReads(v: Lanes, data: Bytes, k: nat)
    requires |data| >= 32 && k < 4
    ensures Lane(Rounds(v, data, 0), k) == Round(Lane(v, k), ReadLE64(data, 8 * k))
  {
    hide Round, ReadLE64;
  }

  lemma OneRound(u: Lanes, v: Lanes, a: Bytes, b: Bytes, i: nat)
    requires |a| >= 32 && |b| >= 32 && i < 4
    requires forall k :: 0 <= k < 4 && k != i ==> Lane(u, k) == Lane(v, k) && ReadLE64(a, 8 * k) == ReadLE64(b, 8 * k)
    requires Lane(u, i) == Lane(v, i) <==> ReadLE64(a, 8 * i) != ReadLE64(b, 8 * i)
    ensures DifferAt(Rounds(u, a, 0), Rounds(v, b, 0), i)
  {
    hide Round, ReadLE64, Rounds, Lane;
    forall k | 0 <= k < 4
      ensures Lane(Rounds(u, a, 0), k) == Lane(Rounds(v, b, 0), k) <==> k != i
    {
      LaneReads(u, a, k);
      LaneReads(v, b, k);
      var x, y := ReadLE64(a, 8 * k), ReadLE64(b, 8 * k);
      if k == i && Round(Lane(u, k), x) == Round(Lane(v, k), y) {
        RoundOneToOne(Lane(u, k), Lane(v, k), x, y);
      }
    }
  }

  /** A word of the stripes changes exactly its own lane. */
  lemma {:induction false} LaneChanged(v: Lanes, a: Bytes, b: Bytes, at: nat)
    requires DifferIn(a, b, at, 8) && StripeWord(|a|, at)
    ensures DifferAt(Absorbed(v, a), Absorbed(v, b), LaneOf(at))
    decreases |a|
  {
    hide Round, ReadLE64, DifferIn, DifferAt, Rounds, Absorbed, Whole, StripeWord, LaneOf;
    SameLength(a, b, at, 8);
    WholeWord(|a|, at);
    LaneIndex(at);
    AbsorbedFirst(v, a);
    AbsorbedFirst(v, b);
    if at < 32 {
      StripeChanged(v, a, b, at);
      LaneStays(Rounds(v, a, 0), Rounds(v, b, 0), a[32..], LaneOf(at));
    } else {
      DifferInRest(a, b, at, 8, 32);
      SameStripe(v, a, b);
      LaneChanged(Rounds(v, a, 0), a[32..], b[32..], at - 32);
    }
  }

  lemma AbsorbedFirst(v: Lanes, data: Bytes)
    requires |data| >= 32
    ensures Absorbed(v, data) == Absorbed(Rounds(v, data, 0), data[32..])
  {
    hide Rounds;
  }

  lemma SameStripe(v: Lanes, a: Bytes, b: Bytes)
    requires |a| == |b| >= 32 && a[..32] == b[..32]
    ensures Rounds(v, a, 0) == Rounds(v, b, 0)
  {
    hide Round, ReadLE64;
    WordOfStripe(a, b, 0);
    WordOfStripe(a, b, 8);
    WordOfStripe(a, b, 16);
    WordOfStripe(a, b, 24);
  }

  lemma WordOfStripe(a: Bytes, b: Bytes, k: nat)
    requires |a| == |b| >= 32 && a[..32] == b[..32] && k <= 24
    ensures ReadLE64(a, k) == ReadLE64(b, k)
  {
    assert a[k..k + 8] == a[..32][k..k + 8] && b[k..k + 8] == b[..32][k..k + 8];
    SameLong(a, b, k);
  }

  lemma StripeChanged(v: Lanes, a: Bytes, b: Bytes, at: nat)
    requires DifferIn(a, b, at, 8) && StripeWord(|a|, at) && at < 32 <= |a|
    ensures DifferAt(Rounds(v, a, 0), Rounds(v, b, 0), LaneOf(at)) && a[32..] == b[32..]
  {
    hide Round, ReadLE64, Rounds;
    LaneIndex(at);
    forall k | 0 <= k < 4
      ensures ReadLE64(a, 8 * k) == ReadLE64(b, 8 * k) <==> k != at / 8
    {
      if k == at / 8 {
        if ReadLE64(a, at) == ReadLE64(b, at) { ReadOneToOne64(a, b, at); }
      } else {
        SameElsewhere(a, b, at, 8, 8 * k);
        SameLong(a, b, 8 * k);
      }
    }
    assert a[32..] == a[at + 8..][24 - at..] && b[32..] == b[at + 8..][24 - at..];
    OneRound(v, v, a, b, at / 8);
  }

  lemma {:induction false} SameStripes(v: Lanes, a: Bytes, b: Bytes)
    requires |a| == |b| && a[..Whole(|a|)] == b[..Whole(|a|)]
    ensures Absorbed(v, a) == Absorbed(v, b)
    decreases |a|
  {
    hide Rounds, Whole;
    if |a| >= 32 {
      var n := Whole(|a|);
      WholeRest(|a|);
      assert a[..32] == a[..n][..32] && b[..32] == b[..n][..32];
      SameStripe(v, a, b);
      assert a[32..][..n - 32] == a[..n][32..] && b[32..][..n - 32] == b[..n][32..];
      SameStripes(Rounds(v, a, 0), a[32..], b[32..]);
    }
  }

  /** The hash before its tail is mixed in. */
  ghost function Converged(seed: U64, msg: Bytes): U64 {
    if |msg| >= 32 then Converge(Absorbed(Init(seed), msg)) else Add64(seed, PRIME64_5)
  }

  lemma HashAgain(seed: U64, seed': U64, a: Bytes, b: Bytes)
    requires |a| == |b| && Hash(seed, a) == Hash(seed', b)
    ensures Mixed(seed, a) == Mixed(seed', b)
  {
    hide Mixed, Avalanche, Hash;
    HashMixes(seed, a);
    HashMixes(seed', b);
    AvalancheOneToOne(Mixed(seed, a), Mixed(seed', b));
  }

  /** The hash before its last step. */
  ghost function Mixed(seed: U64, msg: Bytes): U64 {
    MixTail(Add64(Converged(seed, msg), |msg| % TWO_64), msg[Whole(|msg|)..])
  }

  lemma HashMixes(seed: U64, msg: Bytes)
    ensures Hash(seed, msg) == Avalanche(Mixed(seed, msg))
  {
    hide Absorbed, Converge, MixTail, Avalanche, Init, Add64;
  }

  /** Equal tails leave equal hashes only to equal beginnings. */
  lemma SameTail(seed: U64, seed': U64, a: Bytes, b: Bytes)
    requires |a| == |b| && a[Whole(|a|)..] == b[Whole(|a|)..]
    ensures Hash(seed, a) == Hash(seed', b) <==> Converged(seed, a) == Converged(seed', b)
  {
    hide Converged, MixTail, Avalanche, Hash, Add64, Whole;
    var n, len := Whole(|a|), |a| % TWO_64;
    HashMixes(seed, a);
    HashMixes(seed', b);
    if Hash(seed, a) == Hash(seed', b) {
      HashAgain(seed, seed', a, b);
      MixTailOneToOne(Add64(Converged(seed, a), len), Add64(Converged(seed', b), len), a[n..]);
      AddOneToOne64(Converged(seed, a), Converged(seed', b), len);
    }
  }

  lemma UnitBehind(n: nat, at: nat, w: nat)
    requires IsUnit(n, at, w) && at >= Whole(n)
    ensures IsUnit(n - Whole(n), at - Whole(n), w)
  {
    var q, r := n / 32, n % 32;
    Remainder(n, 32);
    assert Whole(n) == 32 * q && at - Whole(n) >= 0;
    CutOff(8, 4, q, r);
    CutOff(4, 8, q, r);
    CutOffAt(8, 4, q, at - Whole(n));
  }

  /** A change of one unit behind the stripes always changes the hash. */
  lemma TailUnitChange(seed: U64, a: Bytes, b: Bytes, at: nat, w: nat)
    requires DifferIn(a, b, at, w) && IsUnit(|a|, at, w) && at >= Whole(|a|)
    ensures Hash(seed, a) != Hash(seed, b)
  {
    hide Absorbed, Converge, MixTail, Hash, Add64, DifferIn, Whole, IsUnit;
    SameLength(a, b, at, w);
    if Hash(seed, a) == Hash(seed, b) {
      var n := Whole(|a|);
      HashAgain(seed, seed, a, b);
      DifferInRest(a, b, at, w, n);
      UnitBehind(|a|, at, w);
      SameStripes(Init(seed), a, b);
      TailChanged(Add64(Converged(seed, a), |a| % TWO_64), a[n..], b[n..], at - n, w);
      assert false;
    }
  }

  /** A change of one word of the stripes changes the hash unless it cancels out. */
  lemma StripeWordChange(seed: U64, a: Bytes, b: Bytes, at: nat)
    requires DifferIn(a, b, at, 8) && StripeWord(|a|, at)
    ensures Hash(seed, a) == Hash(seed, b) <==>
      Cancels(Absorbed(Init(seed), a), Absorbed(Init(seed), b), LaneOf(at))
  {
    hide Absorbed, Converge, Hash, DifferIn, DifferAt, Cancels, Whole;
    SameLength(a, b, at, 8);
    WholeWord(|a|, at);
    LaneIndex(at);
    StripeTailKept(a, b, at);
    SameTail(seed, seed, a, b);
    LaneChanged(Init(seed), a, b, at);
    ConvergeOneLane(Absorbed(Init(seed), a), Absorbed(Init(seed), b), LaneOf(at));
  }

  /** The lane that reads the word at an offset. */
  function LaneOf(at: nat): (i: nat)
    ensures i < 4
  {
    at % 32 / 8
  }

  lemma LaneIndex(at: nat)
    ensures if at < 32 then LaneOf(at) == at / 8 else LaneOf(at - 32) == LaneOf(at)
  {
    if at >= 32 {
      Remainder(at, 32);
      Quotient(at - 32, 32, at / 32 - 1, at % 32);
    }
  }

  lemma StripeTailKept(a: Bytes, b: Bytes, at: nat)
    requires DifferIn(a, b, at, 8) && StripeWord(|a|, at)
    ensures a[Whole(|a|)..] == b[Whole(|a|)..]
  {
    hide Whole;
    WholeWord(|a|, at);
    var n := Whole(|a|);
    assert a[n..] == a[at + 8..][n - at - 8..] && b[n..] == b[at + 8..][n - at - 8..];
  }

  /** A message shorter than a stripe has a different hash under every seed. */
  lemma SeedChange(seed: U64, seed': U64, msg: Bytes)
    requires |msg| < 32 && Hash(seed, msg) == Hash(seed', msg)
    ensures seed == seed'
  {
    hide Hash, Add64;
    SameTail(seed, seed', msg, msg);
    AddOneToOne64(seed, seed', PRIME64_5);
  }
}
