/**
  Numbers as strings of bits: powers of two, single bits, shifts and the bitwise
  operators, each defined bit by bit.
 */
module Bits {
  // ---- powers and positions ----

  function Pow2(n: nat): (r: nat)
    ensures r > 0
  {
    if n == 0 then 1 else 2 * Pow2(n - 1)
  }

  lemma {:induction false} Pow2Grows(a: nat, b: nat)
    requires a < b
    ensures 2 * Pow2(a) <= Pow2(b)
  {
    if a + 1 < b { Pow2Grows(a, b - 1); }
  }

  predicate Bit(x: nat, k: nat) {
    if k == 0 then x % 2 == 1 else Bit(x / 2, k - 1)
  }

  lemma {:induction false} Pow2Bit(e: nat, k: nat)
    requires k < e
    ensures !Bit(Pow2(e), k)
  {
    if k > 0 { Pow2Bit(e - 1, k - 1); }
  }

  /** The number of bits up to the leading one. */
  function Len(x: nat): nat {
    if x == 0 then 0 else 1 + Len(x / 2)
  }

  lemma LenZero(x: nat)
    ensures Len(x) == 0 <==> x == 0
  {
  }

  lemma {:induction false} LenBounds(x: nat)
    ensures x < Pow2(Len(x)) && (x > 0 ==> Pow2(Len(x) - 1) <= x)
  {
    if x > 0 {
      LenBounds(x / 2);
    }
  }

  lemma {:induction false} LenWithin(x: nat, n: nat)
    requires x < Pow2(n)
    ensures Len(x) <= n
  {
    if x > 0 {
      LenWithin(x / 2, n - 1);
    }
  }

  lemma {:induction false} LeadingBit(x: nat)
    requires x > 0
    ensures Bit(x, Len(x) - 1)
  {
    if x / 2 > 0 {
      LeadingBit(x / 2);
    }
  }

  lemma {:induction false} OnesBit(n: nat, k: nat)
    requires k < n
    ensures Bit(Pow2(n) - 1, k)
  {
    assert (Pow2(n) - 1) / 2 == Pow2(n - 1) - 1;
    if k > 0 { OnesBit(n - 1, k - 1); }
  }

  lemma {:induction false} BitsOnes(x: nat, n: nat)
    requires x < Pow2(n) && forall k :: 0 <= k < n ==> Bit(x, k)
    ensures x == Pow2(n) - 1
  {
    if n > 0 {
      assert Bit(x, 0);
      forall k | 0 <= k < n - 1
        ensures Bit(x / 2, k)
      {
        assert Bit(x, k + 1);
      }
      BitsOnes(x / 2, n - 1);
    }
  }

  ghost predicate AllBits(x: nat, n: nat) {
    forall k :: 0 <= k < n ==> Bit(x, k)
  }

  /** A number below 2^n has all of its n bits set exactly when it is 2^n - 1. */
  lemma AllOnes(x: nat, n: nat)
    requires x < Pow2(n)
    ensures x == Pow2(n) - 1 <==> AllBits(x, n)
  {
    if x == Pow2(n) - 1 {
      forall k | 0 <= k < n ensures Bit(x, k) { OnesBit(n, k); }
    } else if AllBits(x, n) {
      BitsOnes(x, n);
      assert false;
    }
  }

  // ---- shifts ----

  /** x shifted left by a number of bits. */
  function Shl(x: nat, bits: nat): nat {
    if bits == 0 then x else 2 * Shl(x, bits - 1)
  }

  lemma ShlByte(x: nat)
    ensures Shl(x, 8) == 0x100 * x
  {
    assert Shl(x, 1) == 2 * x;
    assert Shl(x, 2) == 4 * x;
    assert Shl(x, 3) == 8 * x;
    assert Shl(x, 4) == 0x10 * x;
    assert Shl(x, 5) == 0x20 * x;
    assert Shl(x, 6) == 0x40 * x;
    assert Shl(x, 7) == 0x80 * x;
  }

  function Shr(x: nat, s: nat): (r: nat)
    ensures r <= x
  {
    if s == 0 then x else Shr(x / 2, s - 1)
  }

  lemma {:induction false} ShrBit(x: nat, s: nat, k: nat)
    ensures Bit(Shr(x, s), k) <==> Bit(x, k + s)
  {
    if s > 0 {
      ShrBit(x / 2, s - 1, k);
    }
  }

  // ---- exclusive or ----

  /** Exclusive or, bit by bit. */
  function Xor(a: nat, b: nat): (r: nat)
    decreases a + b
  {
    if a == 0 && b == 0 then 0
    else (a + b) % 2 + 2 * Xor(a / 2, b / 2)
  }

  /** Exclusive or stays within any number of bits that holds both operands. */
  lemma {:induction false} XorBound(a: nat, b: nat, bits: nat)
    requires a < Pow2(bits) && b < Pow2(bits)
    ensures Xor(a, b) < Pow2(bits)
  {
    if bits > 0 {
      XorBound(a / 2, b / 2, bits - 1);
    }
  }

  // ---- or ----

  function Or(a: nat, b: nat): (r: nat)
    ensures r >= a
    decreases a + b
  {
    if a == 0 && b == 0 then 0
    else (if a % 2 == 1 || b % 2 == 1 then 1 else 0) + 2 * Or(a / 2, b / 2)
  }

  lemma OrHalf(a: nat, b: nat)
    ensures Or(a, b) / 2 == Or(a / 2, b / 2)
    ensures Or(a, b) % 2 == 1 <==> a % 2 == 1 || b % 2 == 1
  {
  }

  lemma {:induction false} OrBit(a: nat, b: nat, k: nat)
    ensures Bit(Or(a, b), k) <==> Bit(a, k) || Bit(b, k)
  {
    hide Or;
    OrHalf(a, b);
    if k > 0 {
      OrBit(a / 2, b / 2, k - 1);
    }
  }

  lemma {:induction false} OrBound(a: nat, b: nat, n: nat)
    requires a < Pow2(n) && b < Pow2(n)
    ensures Or(a, b) < Pow2(n)
  {
    if n > 0 {
      OrBound(a / 2, b / 2, n - 1);
    }
  }

  // ---- and ----

  /** Bitwise and. */
  function And(a: nat, b: nat): (r: nat)
    ensures r <= a && r <= b
    decreases a
  {
    if a == 0 || b == 0 then 0
    else (if a % 2 == 1 && b % 2 == 1 then 1 else 0) + 2 * And(a / 2, b / 2)
  }

  lemma AndStep(a: nat, b: nat)
    ensures And(a, b) == (if a % 2 == 1 && b % 2 == 1 then 1 else 0) + 2 * And(a / 2, b / 2)
  {
  }

  lemma AndZero()
    ensures And(0, 0) == 0
  {
  }

  lemma AndHalf(a: nat, b: nat)
    ensures And(a, b) / 2 == And(a / 2, b / 2)
    ensures And(a, b) % 2 == 1 <==> a % 2 == 1 && b % 2 == 1
  {
    hide And;
    AndStep(a, b);
  }

  lemma {:induction false} AndComm(a: nat, b: nat)
    ensures And(a, b) == And(b, a)
    decreases a
  {
    if a != 0 && b != 0 {
      AndComm(a / 2, b / 2);
    }
  }

  lemma {:induction false} AndAssoc(a: nat, b: nat, c: nat)
    ensures And(And(a, b), c) == And(a, And(b, c))
    decreases a
  {
    if a == 0 || b == 0 || c == 0 {
    } else {
      hide And;
      AndAssoc(a / 2, b / 2, c / 2);
      AndHalf(a, b);
      AndHalf(b, c);
      AndStep(And(a, b), c);
      AndStep(a, And(b, c));
    }
  }

  lemma {:induction false} AndFull(v: nat, bits: nat)
    requires v < Pow2(bits)
    ensures And(v, Pow2(bits) - 1) == v
  {
    if bits > 0 {
      AndFull(v / 2, bits - 1);
    }
  }

  lemma {:induction false} AndComplement(c: nat, bits: nat)
    requires c < Pow2(bits)
    ensures And(c, Pow2(bits) - 1 - c) == 0
  {
    if bits > 0 {
      AndComplement(c / 2, bits - 1);
      AndStep(c, Pow2(bits) - 1 - c);
      assert (Pow2(bits) - 1 - c) / 2 == Pow2(bits - 1) - 1 - c / 2;
    }
  }

  /** And works on the low bits and on the rest separately. */
  lemma {:induction false} AndSplit(q: nat, r: nat, x: nat, y: nat, bits: nat)
    requires r < Shl(1, bits) && y < Shl(1, bits)
    ensures And(Shl(q, bits) + r, Shl(x, bits) + y) == Shl(And(q, x), bits) + And(r, y)
  {
    hide And;
    if bits == 0 {
      AndZero();
    } else {
      var a, b := Shl(q, bits - 1) + r / 2, Shl(x, bits - 1) + y / 2;
      AndSplit(q, r / 2, x, y / 2, bits - 1);
      AndStep(2 * a + r % 2, 2 * b + y % 2);
      AndStep(r, y);
      assert Shl(q, bits) + r == 2 * a + r % 2 && Shl(x, bits) + y == 2 * b + y % 2;
    }
  }
}
