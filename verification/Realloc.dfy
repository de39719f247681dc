/**
  Growing buffers (alloc-inl.h): next_pow2() and afl_realloc(), on 64-bit sizes.
  The buffer's size is kept in a header in front of it.
 */
module Realloc {
  import opened Bits
  import opened Machine
  import opened Options

  const HEADER: nat := 8
  const INITIAL_GROWTH_SIZE: nat := 64

  // ---- next_pow2() ----

  /** Some bit among w bits from k upwards is set. */
  predicate Any(x: nat, k: nat, w: nat)
    decreases w
  {
    w > 0 && (Bit(x, k) || Any(x, k + 1, w - 1))
  }

  lemma {:induction false} AnySplit(x: nat, k: nat, w: nat, v: nat)
    ensures Any(x, k, w + v) <==> Any(x, k, w) || Any(x, k + w, v)
    decreases w
  {
    if w > 0 {
      AnySplit(x, k + 1, w - 1, v);
    }
  }

  lemma {:induction false} AnyBit(x: nat, k: nat, w: nat, j: nat)
    requires k <= j < k + w && Bit(x, j)
    ensures Any(x, k, w)
    decreases w
  {
    if j > k {
      AnyBit(x, k + 1, w - 1, j);
    }
  }

  /** One smearing step doubles the number of bits that each bit reaches down. */
  ghost predicate Smeared(x: nat, y: nat, w: nat) {
    forall k: nat :: Bit(y, k) <==> Any(x, k, w)
  }

  function SmearStep(y: U64, s: nat): (z: U64)
    ensures z >= y
  {
    Pow2Values();
    OrBound(y, Shr(y, s), 64);
    Or(y, Shr(y, s))
  }

  lemma SmearDoubles(x: nat, y: U64, w: nat)
    requires Smeared(x, y, w)
    ensures Smeared(x, SmearStep(y, w), w + w)
  {
    forall k: nat
      ensures Bit(SmearStep(y, w), k) <==> Any(x, k, w + w)
    {
      OrBit(y, Shr(y, w), k);
      ShrBit(y, w, k);
      AnySplit(x, k, w, w);
    }
  }

  /** The fill of next_pow2(): each set bit sets the 31 bits below it. */
  function Smear(x: U64): (y: U64)
    ensures y >= x
  {
    SmearStep(SmearStep(SmearStep(SmearStep(SmearStep(x, 1), 2), 4), 8), 16)
  }

  lemma SmearBits(x: U64)
    ensures Smeared(x, Smear(x), 32)
  {
    hide SmearStep, Smeared;
    assert Smeared(x, x, 1) by { SmearedOne(x); }
    var a := SmearStep(x, 1);
    SmearDoubles(x, x, 1);
    var b := SmearStep(a, 2);
    SmearDoubles(x, a, 2);
    var c := SmearStep(b, 4);
    SmearDoubles(x, b, 4);
    var d := SmearStep(c, 8);
    SmearDoubles(x, c, 8);
    SmearDoubles(x, d, 16);
  }

  lemma SmearedOne(x: nat)
    ensures Smeared(x, x, 1)
  {
    forall k: nat ensures Bit(x, k) <==> Any(x, k, 1) {
      assert !Any(x, k + 1, 0);
    }
  }

  lemma {:induction false} SmearBound(x: U64, n: nat)
    requires x < Pow2(n)
    ensures Smear(x) < Pow2(n)
  {
    hide Or;
    var a := SmearStep(x, 1);
    OrBound(x, Shr(x, 1), n);
    var b := SmearStep(a, 2);
    OrBound(a, Shr(a, 2), n);
    var c := SmearStep(b, 4);
    OrBound(b, Shr(b, 4), n);
    var d := SmearStep(c, 8);
    OrBound(c, Shr(c, 8), n);
    OrBound(d, Shr(d, 16), n);
  }

  /** next_pow2(), with the wrap-around of size_t at both ends. */
  method NextPow2(size: U64) returns (r: U64)
    ensures r == Next(size)
  {
    hide SmearStep;
    var out := Sub64(size, 1);
    out := SmearStep(out, 1);
    out := SmearStep(out, 2);
    out := SmearStep(out, 4);
    out := SmearStep(out, 8);
    out := SmearStep(out, 16);
    return Add64(out, 1);
  }

  function Next(size: U64): U64 { Add64(Smear(Sub64(size, 1)), 1) }

  /** 32 adjacent zero bits below the leading one. */
  ghost predicate Gap(x: nat) {
    exists k :: 0 <= k < Len(x) && !Any(x, k, 32)
  }

  ghost predicate IsPow2(n: nat) { exists e: nat :: n == Pow2(e) }

  lemma FullUnlessGap(x: U64)
    ensures Smear(x) < Pow2(Len(x))
    ensures Smear(x) == Pow2(Len(x)) - 1 <==> !Gap(x)
  {
    hide Smear, Any, Len, Pow2, Bit;
    LenBounds(x);
    SmearBound(x, Len(x));
    SmearBits(x);
    AllOnes(Smear(x), Len(x));
    if Gap(x) {
      var k :| 0 <= k < Len(x) && !Any(x, k, 32);
      assert !Bit(Smear(x), k);
    } else {
      forall k | 0 <= k < Len(x) ensures Bit(Smear(x), k) { assert Any(x, k, 32); }
    }
  }

  lemma Pow2Between(e: nat, n: nat, y: nat)
    requires y + 1 == Pow2(e) && y < Pow2(n) && (n > 0 ==> Pow2(n - 1) <= y)
    ensures e == n
  {
    if e > n {
      Pow2Grows(n, e);
      assert false;
    } else if e < n {
      if e < n - 1 { Pow2Grows(e, n - 1); }
      assert false;
    }
  }

  /**
    next_pow2() yields the least power of two that is not below its argument,
    exactly when the argument minus one has no gap.
   */
  lemma NextIsLeastPow2(size: U64)
    requires size >= 1
    ensures Smear(size - 1) + 1 >= size
    ensures IsPow2(Smear(size - 1) + 1) <==> !Gap(size - 1)
    ensures !Gap(size - 1) ==> Smear(size - 1) + 1 == Pow2(Len(size - 1))
    ensures size > 1 ==> Pow2(Len(size - 1) - 1) < size
  {
    hide Smear, Any, Len, Gap;
    var x := size - 1;
    LenBounds(x);
    FullUnlessGap(x);
    if IsPow2(Smear(x) + 1) {
      var e: nat :| Smear(x) + 1 == Pow2(e);
      LenZero(x);
      Pow2Between(e, Len(x), Smear(x));
    }
  }

  /** Up to 2^32 there is no room for a gap. */
  lemma NoGapBelow(size: U64)
    requires 1 <= size <= TWO_32
    ensures !Gap(size - 1)
  {
    hide Any;
    var x := size - 1;
    Pow2Values();
    LenWithin(x, 32);
    forall k | 0 <= k < Len(x)
      ensures Any(x, k, 32)
    {
      LeadingBit(x);
      AnyBit(x, k, 32, Len(x) - 1);
    }
  }

  lemma {:induction false} Pow2Any(e: nat, k: nat, w: nat)
    requires k + w <= e
    ensures !Any(Pow2(e), k, w)
    decreases w
  {
    if w > 0 {
      Pow2Bit(e, k);
      Pow2Any(e, k + 1, w - 1);
    }
  }

  /** One more than 2^e is not rounded up to a power of two, from e = 32 on. */
  lemma GapAbove(e: nat)
    requires 32 <= e < 64 && Pow2(e) < TWO_64
    ensures !IsPow2(Smear(Pow2(e)) + 1)
  {
    hide Smear, Any, Bit;
    Pow2Any(e, 0, 32);
    LenZero(Pow2(e));
    NextIsLeastPow2(Pow2(e) + 1);
  }

  // ---- afl_realloc() ----

  /** A heap block: its recorded size, and the bytes behind the header. */
  datatype Block = Block(completeSize: U64, bytes: Bytes) {
    predicate Sized() { completeSize == HEADER + |bytes| }
  }

  class Buffer {
    var block: Option<Block>

    // Every request so far stayed within 2^32 together with the header.
    ghost var modest: bool

    constructor ()
      ensures Valid() && block == None && modest
    {
      block, modest := None, true;
    }

    /** Modest buffers have sizes that are powers of two from 64 on. */
    ghost predicate Valid()
      reads this
    {
      block.Some? ==>
        && block.value.Sized()
        && (modest ==> IsPow2(block.value.completeSize) && block.value.completeSize >= INITIAL_GROWTH_SIZE)
    }

    /** afl_alloc_bufsize() */
    function Capacity(): nat
      reads this
      requires Valid() && block.Some?
    {
      block.value.completeSize - HEADER
    }

    /**
      afl_realloc(); `memory` says whether realloc() succeeds and `filler`
      is what the memory beyond the old contents holds.
     */
    method Realloc(size: U64, memory: bool, filler: U8) returns (ok: bool)
      requires Valid()
      modifies this
      ensures Valid() && modest == (old(modest) && size + HEADER <= TWO_32)
      ensures ok <==> block.Some?
      ensures ok ==> (Capacity() >= size <==> size + HEADER < TWO_64)
      ensures ok && old(block.Some?) ==> old(block.value.bytes) <= block.value.bytes
      ensures ok && block != old(block) && old(block.Some?) && modest ==>
        block.value.completeSize >= 2 * old(block.value.completeSize)
      ensures ok && block != old(block) && size + HEADER <= TWO_32 ==>
        block.value.completeSize == INITIAL_GROWTH_SIZE || block.value.completeSize < 2 * (size + HEADER)
      ensures !ok ==> !memory || (old(block.None?) && size + HEADER == TWO_64)
    {
      hide IsPow2, Next;
      modest := modest && size + HEADER <= TWO_32;
      var current: U64 := if block.None? then 0 else block.value.completeSize;
      var needed := Add64(size, HEADER);
      assert size + HEADER < TWO_64 ==> needed == size + HEADER;
      if current >= needed { return block.Some?; }
      var next := GrownSize(needed);
      if !memory {
        block := None;
        return false;
      }
      var bytes := if block.None? then [] else block.value.bytes;
      if modest && block.Some? {
        PowersDouble(current, next);
      }
      block := Some(Block(next, bytes + seq(next - HEADER - |bytes|, _ => filler)));
      return true;
    }
  }

  /** The size a buffer that is too small grows to. */
  method GrownSize(needed: U64) returns (next: U64)
    ensures next >= needed && next >= INITIAL_GROWTH_SIZE
    ensures needed <= TWO_32 ==> IsPow2(next) && (next == INITIAL_GROWTH_SIZE || next < 2 * needed)
  {
    hide Next, IsPow2;
    if needed < INITIAL_GROWTH_SIZE {
      InitialIsPow2();
      return INITIAL_GROWTH_SIZE;
    }
    next := NextPow2(needed);
    NextSize(needed);
    if needed <= TWO_32 { NextTight(needed); }
    if next == 0 {
      next := needed;
    }
  }

  lemma InitialIsPow2()
    ensures IsPow2(INITIAL_GROWTH_SIZE)
  {
    assert Pow2(6) == INITIAL_GROWTH_SIZE;
  }

  /** next_pow2() overflows to 0 or is not below its argument, and is a power of two up to 2^32. */
  lemma NextSize(needed: U64)
    requires needed >= 1
    ensures Next(needed) == 0 || Next(needed) >= needed
    ensures needed <= TWO_32 ==> IsPow2(Next(needed)) && Next(needed) >= needed
  {
    hide Smear, Gap, IsPow2, Len;
    NextIsLeastPow2(needed);
    assert Sub64(needed, 1) == needed - 1;
    if needed <= TWO_32 {
      NoGapBelow(needed);
      LenNeeded(needed);
    }
  }

  /** Up to 2^32 rounding up does not double. */
  lemma NextTight(needed: U64)
    requires 1 < needed <= TWO_32
    ensures Next(needed) < 2 * needed
  {
    hide Smear, Gap, Len;
    assert Sub64(needed, 1) == needed - 1;
    NextIsLeastPow2(needed);
    NoGapBelow(needed);
    LenNeeded(needed);
    LenPositive(needed - 1);
  }

  lemma LenPositive(x: nat)
    requires x > 0
    ensures Len(x) > 0 && Pow2(Len(x)) == 2 * Pow2(Len(x) - 1)
  {
  }

  /** Rounding up a size of at most 2^32 stays far from the end of size_t. */
  lemma LenNeeded(needed: U64)
    requires 1 <= needed <= TWO_32
    ensures Pow2(Len(needed - 1)) <= TWO_32
  {
    Pow2Values();
    LenWithin(needed - 1, 32);
    if Len(needed - 1) < 32 { Pow2Grows(Len(needed - 1), 32); }
  }

  /** The next larger power of two is at least twice as large. */
  lemma PowersDouble(a: nat, b: nat)
    requires IsPow2(a) && IsPow2(b) && a < b
    ensures 2 * a <= b
  {
    var d: nat :| a == Pow2(d);
    var e: nat :| b == Pow2(e);
    if e < d {
      Pow2Grows(e, d);
      assert false;
    } else if d < e {
      Pow2Grows(d, e);
    }
  }
}
