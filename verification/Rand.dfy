/**
  The fuzzer's random numbers: the Romu generators of afl-performance.c and the
  rejection sampling of rand_below() on top of them.
 */
module Rand {
  import opened Bits
  import opened Machine
  import opened Mixing
  import opened Options

  // ---- the generators ----

  /** romuDuoJr, the 64-bit build. */
  datatype Duo = Duo(x: U64, y: U64)

  const DUO_FACTOR: U64 := 15241094284759029579

  function DuoNext(s: Duo): Duo {
    Duo(Mul64(DUO_FACTOR, s.y), Rotl64(Sub64(s.y, s.x), 27))
  }

  /** RomuTrio32, the 32-bit build. */
  datatype Trio = Trio(x: U32, y: U32, z: U32)

  const TRIO_FACTOR: U32 := 3323815723

  function TrioNext(s: Trio): Trio {
    Trio(Mul32(TRIO_FACTOR, s.z), Rotl32(Sub32(s.y, s.x), 6), Rotl32(Sub32(s.z, s.y), 22))
  }

  // The inverses of the two factors, modulo the word size.
  const DUO_INVERSE: U64 := 4888251478366616163
  const TRIO_INVERSE: U32 := 862068611

  /** The state before a step. */
  function DuoBack(s: Duo): Duo {
    var y := Mul64(DUO_INVERSE, s.x);
    Duo(Sub64(y, Rotl64(s.y, 37)), y)
  }

  function TrioBack(s: Trio): Trio {
    var z := Mul32(TRIO_INVERSE, s.x);
    var y := Sub32(z, Rotl32(s.z, 10));
    Trio(Sub32(y, Rotl32(s.y, 26)), y, z)
  }

  lemma SubBack(x: U64, y: U64)
    ensures Sub64(y, Sub64(y, x)) == x
    ensures x < TWO_32 && y < TWO_32 ==> Sub32(y, Sub32(y, x)) == x
  {
  }

  /** Every step can be undone, so the generators never merge two states. */
  lemma DuoBackNext(s: Duo)
    ensures DuoBack(DuoNext(s)) == s
  {
    hide Rotl64, Sub64;
    FactorInverse(s.y, DUO_FACTOR, DUO_INVERSE, 4038777866256603611, TWO_64);
    RotlBack64(Sub64(s.y, s.x), 27);
    SubBack(s.x, s.y);
  }

  lemma TrioBackNext(s: Trio)
    ensures TrioBack(TrioNext(s)) == s
  {
    hide Rotl32, Sub32;
    FactorInverse(s.z, TRIO_FACTOR, TRIO_INVERSE, 667142962, TWO_32);
    RotlBack32(Sub32(s.y, s.x), 6);
    RotlBack32(Sub32(s.z, s.y), 22);
    SubBack(s.x, s.y);
    SubBack(s.y, s.z);
  }

  lemma ZeroStays()
    ensures DuoNext(Duo(0, 0)) == Duo(0, 0) && TrioNext(Trio(0, 0, 0)) == Trio(0, 0, 0)
  {
    hide Rotl32, Rotl64;
    RotlZero(27);
    RotlZero(6);
    RotlZero(22);
  }

  function DuoAfter(s: Duo, n: nat): Duo {
    if n == 0 then s else DuoNext(DuoAfter(s, n - 1))
  }

  function TrioAfter(s: Trio, n: nat): Trio {
    if n == 0 then s else TrioNext(TrioAfter(s, n - 1))
  }

  /** No number of steps leads from another state to the all-zero one, which never leaves itself. */
  lemma {:induction false} DuoNeverZero(s: Duo, n: nat)
    requires s != Duo(0, 0)
    ensures DuoAfter(s, n) != Duo(0, 0)
  {
    hide DuoNext, DuoBack;
    if n > 0 {
      DuoNeverZero(s, n - 1);
      DuoBackNext(DuoAfter(s, n - 1));
      DuoBackNext(Duo(0, 0));
      ZeroStays();
    }
  }

  lemma {:induction false} TrioNeverZero(s: Trio, n: nat)
    requires s != Trio(0, 0, 0)
    ensures TrioAfter(s, n) != Trio(0, 0, 0)
  {
    hide TrioNext, TrioBack;
    if n > 0 {
      TrioNeverZero(s, n - 1);
      TrioBackNext(TrioAfter(s, n - 1));
      TrioBackNext(Trio(0, 0, 0));
      ZeroStays();
    }
  }

  // ---- seeding ----

  const SEED_MIX: U64 := 0x1234_5678_90ab_cdef

  lemma {:induction false} XorWithZero(b: nat)
    ensures Xor(0, b) == b
  {
    if b > 0 { XorWithZero(b / 2); }
  }

  /** Whatever the hash of the seed is, the generator runs forever without reaching zero. */
  lemma SeededDuoNeverZero(hash: U64, n: nat)
    ensures DuoAfter(Duo(hash, Xor64(hash, SEED_MIX)), n) != Duo(0, 0)
  {
    XorWithZero(SEED_MIX);
    DuoNeverZero(Duo(hash, Xor64(hash, SEED_MIX)), n);
  }

  lemma SeededTrioNeverZero(hash: U32, z: U32, n: nat)
    ensures TrioAfter(Trio(hash, Xor32(hash, SEED_MIX % TWO_32), z), n) != Trio(0, 0, 0)
  {
    XorWithZero(SEED_MIX % TWO_32);
    TrioNeverZero(Trio(hash, Xor32(hash, SEED_MIX % TWO_32), z), n);
  }

  // ---- sampling ----

  /** Draws below this are accepted. */
  function Bound(limit: U32): (t: U64)
    requires limit > 0
    ensures t == (TWO_64 - 1) / limit * limit
  {
    assert (TWO_64 - 1) / limit * limit + (TWO_64 - 1) % limit == TWO_64 - 1;
    TWO_64 - 1 - (TWO_64 - 1) % limit
  }

  /** The draws below n that are reduced to r. */
  function Hits(n: nat, limit: nat, r: nat): (s: set<nat>)
    requires limit > 0
  {
    set u | 0 <= u < n && u % limit == r
  }

  lemma NextRemainder(n: nat, limit: nat)
    requires limit > 0
    ensures (n + 1) % limit == if n % limit + 1 == limit then 0 else n % limit + 1
    ensures (n + 1) / limit == n / limit + if n % limit + 1 == limit then 1 else 0
  {
    var q, m := n / limit, n % limit;
    assert n == q * limit + m;
    if m + 1 == limit {
      assert n + 1 == (q + 1) * limit;
      Quotient(n + 1, limit, q + 1, 0);
    } else {
      Quotient(n + 1, limit, q, m + 1);
    }
  }

  /** Residue r is hit n / limit times, and once more when it is below n % limit. */
  lemma {:induction false} HitCount(n: nat, limit: nat, r: nat)
    requires r < limit
    ensures |Hits(n, limit, r)| == n / limit + if r < n % limit then 1 else 0
  {
    if n == 0 {
      assert Hits(0, limit, r) == {};
      Quotient(0, limit, 0, 0);
    } else {
      HitCount(n - 1, limit, r);
      NextRemainder(n - 1, limit);
      if (n - 1) % limit == r {
        assert Hits(n, limit, r) == Hits(n - 1, limit, r) + {n - 1};
      } else {
        assert Hits(n, limit, r) == Hits(n - 1, limit, r);
      }
    }
  }

  /** Every residue is hit equally often by draws below n exactly when limit divides n. */
  lemma EvenlyHit(n: nat, limit: nat)
    requires limit > 0
    ensures (forall r, r' :: 0 <= r < limit && 0 <= r' < limit ==> |Hits(n, limit, r)| == |Hits(n, limit, r')|)
            <==> n % limit == 0
  {
    hide Hits;
    forall r | 0 <= r < limit
      ensures |Hits(n, limit, r)| == n / limit + if r < n % limit then 1 else 0
    {
      HitCount(n, limit, r);
    }
    if n % limit != 0 {
      assert |Hits(n, limit, 0)| == n / limit + 1;
      assert |Hits(n, limit, n % limit)| == n / limit;
    }
  }

  /** In the 64-bit build every result has exactly the same number of accepted draws. */
  lemma Unbiased(limit: U32, r: nat)
    requires r < limit
    ensures |Hits(Bound(limit), limit, r)| == (TWO_64 - 1) / limit
  {
    hide Hits;
    HitCount(Bound(limit), limit, r);
    Quotient(Bound(limit), limit, (TWO_64 - 1) / limit, 0);
  }

  /** In the 32-bit build no draw is rejected, so only divisors of 2^32 are unbiased. */
  lemma UnbiasedIn32Bits(limit: U32)
    requires limit > 0
    ensures TWO_32 <= Bound(limit)
    ensures (forall r, r' :: 0 <= r < limit && 0 <= r' < limit ==>
               |Hits(TWO_32, limit, r)| == |Hits(TWO_32, limit, r')|)
            <==> TWO_32 % limit == 0
  {
    hide Hits;
    EvenlyHit(TWO_32, limit);
  }

  /** With a limit of 3 the 32-bit build draws 0 once more often than 1 or 2. */
  lemma BiasedForThree()
    ensures |Hits(TWO_32, 3, 0)| == |Hits(TWO_32, 3, 1)| + 1 == |Hits(TWO_32, 3, 2)| + 1
  {
    hide Hits;
    HitCount(TWO_32, 3, 0);
    HitCount(TWO_32, 3, 1);
    HitCount(TWO_32, 3, 2);
  }

  // ---- rand_below() ----

  /** The generator and the countdown to its next reseeding. */
  datatype Gen = Gen(state: Duo, cnt: U32)

  /** What a call starts from: reseeded when the countdown is over. */
  function Started(g: Gen, fixedSeed: bool, urandom: Duo): Gen {
    if g.cnt == 0 && !fixedSeed then Gen(urandom, RESEED_RNG / 2 + urandom.y % RESEED_RNG)
    else Gen(g.state, Sub32(g.cnt, 1))
  }

  /** The n-th draw is the first to be accepted. */
  ghost predicate FirstAccepted(s: Duo, limit: U32, n: nat)
    requires limit > 0
  {
    && n > 0 && DuoAfter(s, n - 1).x < Bound(limit)
    && forall i :: 0 <= i < n - 1 ==> DuoAfter(s, i).x >= Bound(limit)
  }

  /** rand_below(limit) leads from g to h with this value after n draws. */
  ghost predicate Draws(g: Gen, h: Gen, fixedSeed: bool, urandom: Duo, limit: U32, value: U32, n: nat) {
    if limit <= 1 then h == g && value == 0
    else
      var start := Started(g, fixedSeed, urandom);
      && FirstAccepted(start.state, limit, n)
      && h == Gen(DuoAfter(start.state, n), start.cnt) && value == DuoAfter(start.state, n - 1).x % limit
  }

  const RESEED_RNG: nat := 2500000

  /** The 64-bit build's generator inside the fuzzer's state. */
  class Rng {
    var state: Duo
    var cnt: U32
    const fixedSeed: bool

    constructor (fixedSeed: bool, hash: U64)
      ensures this.fixedSeed == fixedSeed && cnt == 0 && state == Duo(hash, Xor64(hash, SEED_MIX))
    {
      this.fixedSeed, cnt, state := fixedSeed, 0, Duo(hash, Xor64(hash, SEED_MIX));
    }

    /** rand_next() */
    method Next() returns (x: U64)
      modifies this`state
      ensures x == old(state.x) && state == DuoNext(old(state))
    {
      hide Rotl64, Mul64;
      var xp := state.x;
      var first := Mul64(DUO_FACTOR, state.y);
      var second := Sub64(state.y, xp);
      second := Rotl64(second, 27);
      state := Duo(first, second);
      return xp;
    }

    ghost function Now(): Gen
      reads this
    {
      Gen(state, cnt)
    }

    /**
      rand_below(); `urandom` is what a due reseed would read, and after
      `patience` rejected draws the caller stops waiting for an answer.
     */
    method Below(limit: U32, urandom: Duo, patience: nat) returns (r: Option<U32>, ghost n: nat)
      modifies this
      ensures r.Some? ==> Draws(old(Now()), Now(), fixedSeed, urandom, limit, r.value, n)
      ensures r.Some? ==> if limit <= 1 then r.value == 0 else r.value < limit
      ensures r.None? ==>
        var start := Started(old(Now()), fixedSeed, urandom);
        && limit > 1 && n == patience && Now() == Gen(DuoAfter(start.state, n), start.cnt)
        && forall i :: 0 <= i < n ==> DuoAfter(start.state, i).x >= Bound(limit)
    {
      hide DuoNext, Bound;
      n := 0;
      if limit <= 1 { return Some(0), 0; }
      var due := cnt == 0;
      cnt := Sub32(cnt, 1);
      if due && !fixedSeed {
        state := urandom;
        cnt := RESEED_RNG / 2 + state.y % RESEED_RNG;
      }
      ghost var start := state;
      assert Now() == Started(old(Now()), fixedSeed, urandom);
      var tries := 0;
      while tries < patience
        modifies this`state
        invariant 0 <= tries <= patience && n == tries && state == DuoAfter(start, n)
        invariant forall i :: 0 <= i < n ==> DuoAfter(start, i).x >= Bound(limit)
      {
        var x := Next();
        tries, n := tries + 1, n + 1;
        if x < Bound(limit) {
          return Some(x % limit), n;
        }
      }
      return None, n;
    }

    /**
      rand_below_datalen(): a plain draw, lowered by none, one or two further
      ones. `steps` are the generator's states between the draws, `ns` the
      number of attempts each of them took.
     */
    method BelowDatalen(limit: U32, urandom: Duo, patience: nat)
      returns (r: Option<U32>, ghost picks: Picks, ghost steps: seq<Gen>, ghost ns: seq<nat>)
      modifies this
      ensures limit <= 1 ==> r == Some(0) && Now() == old(Now())
      ensures limit > 1 && r.Some? ==>
        && |steps| == picks.kind + 3 && steps[0] == old(Now()) && steps[picks.kind + 2] == Now()
        && PickedAlong(picks, steps, ns, fixedSeed, urandom, limit)
        && r.value == Lowered(picks) <= picks.first < limit
    {
      hide Draws;
      picks, steps, ns := Picks(0, 0, 0, 0), [Now()], [];
      if limit <= 1 { r := Some(0); return; }
      ghost var n;
      var which, a, b, c;
      which, n := Below(3, urandom, patience);
      if which.None? { r := None; return; }
      steps, ns := steps + [Now()], ns + [n];
      a, n := Below(limit, urandom, patience);
      if a.None? { r := None; return; }
      steps, ns := steps + [Now()], ns + [n];
      picks := Picks(which.value, a.value, 0, 0);
      LoweredAtMost(picks);
      if which.value == 0 { r := a; return; }
      b, n := Below(limit - 1, urandom, patience);
      if b.None? { r := None; return; }
      steps, ns := steps + [Now()], ns + [n];
      picks := picks.(second := b.value);
      LoweredAtMost(picks);
      if which.value == 1 { r := Some(a.value % (1 + b.value)); return; }
      c, n := Below(limit - 1, urandom, patience);
      if c.None? { r := None; return; }
      steps, ns := steps + [Now()], ns + [n];
      picks := picks.(third := c.value);
      LoweredAtMost(picks);
      r := Some(a.value % (1 + b.value) % (1 + c.value));
    }
  }

  /** What rand_below_datalen() drew: which case, and up to three numbers. */
  datatype Picks = Picks(kind: nat, first: U32, second: U32, third: U32)

  /** Each number comes out of rand_below(), one call after the other. */
  ghost predicate PickedAlong(p: Picks, steps: seq<Gen>, ns: seq<nat>, fixedSeed: bool, urandom: Duo, limit: U32)
    requires |steps| == p.kind + 3 && limit > 1
  {
    && p.kind < 3 && |ns| == p.kind + 2
    && Draws(steps[0], steps[1], fixedSeed, urandom, 3, p.kind, ns[0])
    && Draws(steps[1], steps[2], fixedSeed, urandom, limit, p.first, ns[1])
    && (p.kind >= 1 ==> Draws(steps[2], steps[3], fixedSeed, urandom, limit - 1, p.second, ns[2]))
    && (p.kind == 2 ==> Draws(steps[3], steps[4], fixedSeed, urandom, limit - 1, p.third, ns[3]))
  }

  function Lowered(p: Picks): nat {
    if p.kind == 0 then p.first
    else if p.kind == 1 then p.first % (1 + p.second)
    else p.first % (1 + p.second) % (1 + p.third)
  }

  /** The further draws can only lower the result. */
  lemma LoweredAtMost(p: Picks)
    ensures Lowered(p) <= p.first
  {
    RemainderAtMost(p.first, 1 + p.second);
    RemainderAtMost(p.first % (1 + p.second), 1 + p.third);
  }

  lemma RemainderAtMost(x: nat, m: nat)
    requires m > 0
    ensures x % m <= x
  {
    Remainder(x, m);
    if x < m {
      Quotient(x, m, 0, x);
    }
  }
}
