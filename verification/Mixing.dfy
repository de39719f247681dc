/**
  Word operations that lose nothing: adding, multiplying by an odd number,
  rotating, exclusive or, and exclusive or with a shifted copy of itself. The
  hashes and random number generators are built from them.
 */
module Mixing {
  import opened Bits
  import opened Machine

  // ---- adding and multiplying ----

  lemma AddOneToOne32(x: U32, y: U32, c: U32)
    ensures Add32(x, c) == Add32(y, c) ==> x == y
    ensures Add32(c, x) == Add32(c, y) ==> x == y
  {
  }

  lemma AddOneToOne64(x: U64, y: U64, c: U64)
    ensures Add64(x, c) == Add64(y, c) ==> x == y
    ensures Add64(c, x) == Add64(c, y) ==> x == y
  {
  }

  /** Multiplying by the inverse undoes a multiplication. */
  lemma FactorInverse(x: nat, c: nat, inv: nat, k: nat, m: nat)
    requires x < m && inv * c == 1 + k * m
    ensures inv * (c * x % m) % m == x
  {
    var q, y := c * x / m, c * x % m;
    Remainder(c * x, m);
    assert y == c * x - q * m;
    assert inv * y == x + (k * x - inv * q) * m by {
      assert inv * y == inv * (c * x) - inv * (q * m);
      assert inv * (c * x) == (1 + k * m) * x == x + k * x * m;
      assert inv * (q * m) == inv * q * m;
    }
    Quotient(inv * y, m, k * x - inv * q, x);
  }

  lemma MulOneToOne(x: nat, y: nat, c: nat, inv: nat, k: nat, m: nat)
    requires x < m && y < m && inv * c == 1 + k * m && x * c % m == y * c % m
    ensures x == y
  {
    assert x * c == c * x && y * c == c * y;
    FactorInverse(x, c, inv, k, m);
    FactorInverse(y, c, inv, k, m);
  }

  // ---- rotating ----

  lemma Pow2Next(n: nat)
    ensures Pow2(0) == 1 && (n > 0 ==> Pow2(n) == 2 * Pow2(n - 1))
  {
  }

  lemma {:induction false} Pow2Sum(a: nat, b: nat)
    ensures Pow2(a) * Pow2(b) == Pow2(a + b)
  {
    hide Pow2;
    Pow2Next(a);
    if a > 0 {
      Pow2Sum(a - 1, b);
      Pow2Next(a + b);
      var p, q := Pow2(a - 1), Pow2(b);
      assert 2 * p * q == 2 * (p * q);
    }
  }

  /** Rotating a word of a * b values by a and then by b. */
  lemma RotateBack(x: nat, a: nat, b: nat)
    requires a > 0 && b > 0 && x < a * b
    ensures
      var y := (x * a + x / b) % (a * b);
      (y * b + y / a) % (a * b) == x
  {
    var hi, lo := x / b, x % b;
    Remainder(x, b);
    if hi >= a {
      MulMono(a, b, hi, b);
      assert false;
    }
    RotatedWord(hi, lo, a, b);
  }

  lemma RotatedWord(hi: nat, lo: nat, a: nat, b: nat)
    requires hi < a && lo < b
    ensures
      var x, y := hi * b + lo, lo * a + hi;
      && (x * a + hi) % (a * b) == y && y / a == lo && (y * b + lo) % (a * b) == x
  {
    RotatedOnce(hi, lo, a, b);
    RotatedOnce(lo, hi, b, a);
    Quotient(lo * a + hi, a, lo, hi);
  }

  lemma RotatedOnce(hi: nat, lo: nat, a: nat, b: nat)
    requires hi < a && lo < b
    ensures ((hi * b + lo) * a + hi) % (a * b) == lo * a + hi
    ensures ((hi * b + lo) * a + hi) % (b * a) == lo * a + hi
  {
    var y := lo * a + hi;
    Further(lo, b, a);
    RotatedSum(hi, lo, a, b);
    Quotient(hi * (a * b) + y, a * b, hi, y);
    assert a * b == b * a;
  }

  lemma RotatedSum(hi: nat, lo: nat, a: nat, b: nat)
    ensures (hi * b + lo) * a + hi == hi * (a * b) + (lo * a + hi)
  {
    assert hi * b * a == hi * (a * b);
    assert (hi * b + lo) * a == hi * b * a + lo * a;
  }

  lemma RotlIs32(x: U32, r: nat, a: nat, b: nat)
    requires 0 < r < 32 && a == Pow2(r) && b == Pow2(32 - r)
    ensures Rotl32(x, r) == (x * a + x / b) % TWO_32
  {
    hide Pow2;
  }

  lemma RotlIs64(x: U64, r: nat, a: nat, b: nat)
    requires 0 < r < 64 && a == Pow2(r) && b == Pow2(64 - r)
    ensures Rotl64(x, r) == (x * a + x / b) % TWO_64
  {
    hide Pow2;
  }

  /** Rotating the rest of the way gives the word back. */
  lemma RotlBack32(x: U32, r: nat)
    requires 0 < r < 32
    ensures Rotl32(Rotl32(x, r), 32 - r) == x
  {
    hide Pow2, Rotl32;
    Pow2Values();
    Pow2Sum(r, 32 - r);
    var a, b := Pow2(r), Pow2(32 - r);
    RotlIs32(x, r, a, b);
    RotlIs32(Rotl32(x, r), 32 - r, b, a);
    RotateBack(x, a, b);
  }

  lemma RotlBack64(x: U64, r: nat)
    requires 0 < r < 64
    ensures Rotl64(Rotl64(x, r), 64 - r) == x
  {
    hide Pow2, Rotl64;
    Pow2Values();
    Pow2Sum(r, 64 - r);
    var a, b := Pow2(r), Pow2(64 - r);
    RotlIs64(x, r, a, b);
    RotlIs64(Rotl64(x, r), 64 - r, b, a);
    RotateBack(x, a, b);
  }

  lemma RotlZero(r: nat)
    ensures 0 < r < 32 ==> Rotl32(0, r) == 0
    ensures 0 < r < 64 ==> Rotl64(0, r) == 0
  {
    hide Pow2;
  }

  lemma RotlOneToOne32(x: U32, y: U32, r: nat)
    requires 0 < r < 32 && Rotl32(x, r) == Rotl32(y, r)
    ensures x == y
  {
    hide Rotl32;
    RotlBack32(x, r);
    RotlBack32(y, r);
  }

  lemma RotlOneToOne64(x: U64, y: U64, r: nat)
    requires 0 < r < 64 && Rotl64(x, r) == Rotl64(y, r)
    ensures x == y
  {
    hide Rotl64;
    RotlBack64(x, r);
    RotlBack64(y, r);
  }

  // ---- exclusive or ----

  lemma {:induction false} XorOneToOne(a: nat, b: nat, c: nat)
    requires Xor(a, c) == Xor(b, c)
    ensures a == b
    decreases a + b + c
  {
    hide Xor;
    if a + b + c > 0 {
      XorHalf(a, c);
      XorHalf(b, c);
      XorOneToOne(a / 2, b / 2, c / 2);
    }
  }

  lemma XorHalf(a: nat, b: nat)
    ensures Xor(a, b) / 2 == Xor(a / 2, b / 2) && Xor(a, b) % 2 == (a + b) % 2
  {
  }

  lemma {:induction false} XorSymmetric(a: nat, b: nat)
    ensures Xor(a, b) == Xor(b, a)
    decreases a + b
  {
    if a + b > 0 {
      XorSymmetric(a / 2, b / 2);
    }
  }

  lemma {:induction false} ShrDivides(x: nat, s: nat)
    ensures Shr(x, s) == x / Pow2(s)
  {
    hide Pow2;
    Pow2Next(s);
    if s > 0 {
      ShrDivides(x / 2, s - 1);
      DivideTwice(x, Pow2(s - 1));
    }
  }

  lemma DivideTwice(x: nat, p: nat)
    requires p > 0
    ensures x / 2 / p == x / (2 * p)
  {
    var h := x / 2;
    var q, r := h / p, h % p;
    Remainder(h, p);
    Doubled(x, h, q, p, r);
    Quotient(x, 2 * p, q, 2 * r + x % 2);
  }

  lemma Doubled(x: nat, h: nat, q: nat, p: nat, r: nat)
    requires h == x / 2 && q * p + r == h
    ensures x == q * (2 * p) + (2 * r + x % 2)
  {
    assert q * (2 * p) == 2 * (q * p);
  }

  lemma {:induction false} XorShr(a: nat, b: nat, s: nat)
    ensures Shr(Xor(a, b), s) == Xor(Shr(a, s), Shr(b, s))
  {
    hide Xor;
    if s > 0 {
      XorHalf(a, b);
      XorShr(a / 2, b / 2, s - 1);
    }
  }

  lemma ShrSmaller(x: nat, s: nat)
    requires s > 0 && x > 0
    ensures Shr(x, s) < x
  {
  }

  /** A word and its upper bits, shifted down, still tell the word. */
  lemma {:induction false} XorShiftOneToOne(x: nat, y: nat, s: nat)
    requires s > 0 && Xor(x, Shr(x, s)) == Xor(y, Shr(y, s))
    ensures x == y
    decreases x + y
  {
    if x + y > 0 {
      hide Xor, Shr;
      XorShr(x, Shr(x, s), s);
      XorShr(y, Shr(y, s), s);
      ShrShrinks(x, s);
      ShrShrinks(y, s);
      XorShiftOneToOne(Shr(x, s), Shr(y, s), s);
      XorOneToOne(x, y, Shr(x, s));
    }
  }

  lemma ShrShrinks(x: nat, s: nat)
    requires s > 0
    ensures Shr(x, s) <= x && (x > 0 ==> Shr(x, s) < x)
  {
    if x > 0 { ShrSmaller(x, s); }
  }

  // ---- reading ----

  lemma ReadOneToOne32(a: Bytes, b: Bytes, at: nat)
    requires at + 4 <= |a| && at + 4 <= |b| && ReadLE32(a, at) == ReadLE32(b, at)
    ensures a[at..at + 4] == b[at..at + 4]
  {
    var x, y := a[at..at + 4], b[at..at + 4];
    BytesOneToOne(x[0], x[1], x[2], x[3], y[0], y[1], y[2], y[3]);
  }

  lemma BytesOneToOne(a: U8, b: U8, c: U8, d: U8, a': U8, b': U8, c': U8, d': U8)
    requires a + 0x100 * b + 0x1_0000 * c + 0x100_0000 * d == a' + 0x100 * b' + 0x1_0000 * c' + 0x100_0000 * d'
    ensures a == a' && b == b' && c == c' && d == d'
  {
    LowByte(a, b + 0x100 * c + 0x1_0000 * d, a', b' + 0x100 * c' + 0x1_0000 * d');
    LowByte(b, c + 0x100 * d, b', c' + 0x100 * d');
    LowByte(c, d, c', d');
  }

  lemma LowByte(a: U8, rest: nat, a': U8, rest': nat)
    requires a + 0x100 * rest == a' + 0x100 * rest'
    ensures a == a' && rest == rest'
  {
  }

  lemma ReadOneToOne64(a: Bytes, b: Bytes, at: nat)
    requires at + 8 <= |a| && at + 8 <= |b| && ReadLE64(a, at) == ReadLE64(b, at)
    ensures a[at..at + 8] == b[at..at + 8]
  {
    hide ReadLE32;
    ReadOneToOne32(a, b, at);
    ReadOneToOne32(a, b, at + 4);
    assert a[at..at + 8] == a[at..at + 4] + a[at + 4..at + 8];
    assert b[at..at + 8] == b[at..at + 4] + b[at + 4..at + 8];
  }

  lemma ReadParts32(a: Bytes, b: Bytes, at: nat)
    ensures at + 4 <= |a| ==> ReadLE32(a + b, at) == ReadLE32(a, at)
    ensures at >= |a| && at + 4 <= |a| + |b| ==> ReadLE32(a + b, at) == ReadLE32(b, at - |a|)
  {
  }

  lemma ReadParts64(a: Bytes, b: Bytes, at: nat)
    ensures at + 8 <= |a| ==> ReadLE64(a + b, at) == ReadLE64(a, at)
    ensures at >= |a| && at + 8 <= |a| + |b| ==> ReadLE64(a + b, at) == ReadLE64(b, at - |a|)
  {
    hide ReadLE32;
    ReadParts32(a, b, at);
    ReadParts32(a, b, at + 4);
  }

  /** Cutting off q blocks of c units of d bytes each. */
  lemma CutOff(d: nat, c: nat, q: nat, r: nat)
    requires d > 0
    ensures (d * c * q + r) / d == c * q + r / d
  {
    Remainder(r, d);
    assert d * c * q + r == (c * q + r / d) * d + r % d by {
      assert (c * q + r / d) * d == c * q * d + r / d * d;
      assert c * q * d == d * c * q;
    }
    Quotient(d * c * q + r, d, c * q + r / d, r % d);
  }

  lemma CutOffAt(d: nat, c: nat, q: nat, r: nat)
    requires d > 0
    ensures (d * c * q + r) % d == r % d
  {
    Remainder(r, d);
    assert d * c * q + r == (c * q + r / d) * d + r % d by {
      assert (c * q + r / d) * d == c * q * d + r / d * d;
      assert c * q * d == d * c * q;
    }
    Quotient(d * c * q + r, d, c * q + r / d, r % d);
  }

  // ---- changing a message ----

  /** The messages differ in w bytes from offset `at` on, and nowhere else. */
  ghost predicate DifferIn(a: Bytes, b: Bytes, at: nat, w: nat) {
    && |a| == |b| && at + w <= |a|
    && a[..at] == b[..at] && a[at..at + w] != b[at..at + w] && a[at + w..] == b[at + w..]
  }

  lemma DifferInRest(a: Bytes, b: Bytes, at: nat, w: nat, n: nat)
    requires DifferIn(a, b, at, w) && n <= at
    ensures DifferIn(a[n..], b[n..], at - n, w) && a[..n] == b[..n]
  {
    RestSliced(a, n, at, at + w);
    RestSliced(b, n, at, at + w);
    assert a[..n] == a[..at][..n] && b[..n] == b[..at][..n];
  }

  lemma RestSliced<T>(s: seq<T>, n: nat, i: nat, j: nat)
    requires n <= i <= j <= |s|
    ensures s[n..][..i - n] == s[..i][n..] && s[n..][i - n..j - n] == s[i..j] && s[n..][j - n..] == s[j..]
  {
  }

  lemma SameWord(a: Bytes, b: Bytes, at: nat)
    requires at + 4 <= |a| && at + 4 <= |b| && a[at..at + 4] == b[at..at + 4]
    ensures ReadLE32(a, at) == ReadLE32(b, at)
  {
    var x, y := a[at..at + 4], b[at..at + 4];
    assert x[0] == a[at] && x[1] == a[at + 1] && x[2] == a[at + 2] && x[3] == a[at + 3];
    assert y[0] == b[at] && y[1] == b[at + 1] && y[2] == b[at + 2] && y[3] == b[at + 3];
  }

  lemma SameElsewhere(a: Bytes, b: Bytes, at: nat, w: nat, k: nat)
    requires DifferIn(a, b, at, w) && k + w <= |a| && (k + w <= at || at + w <= k)
    ensures a[k..k + w] == b[k..k + w]
  {
    if k + w <= at {
      assert a[k..k + w] == a[..at][k..k + w] && b[k..k + w] == b[..at][k..k + w];
    } else {
      var d := k - (at + w);
      assert a[k..k + w] == a[at + w..][d..d + w] && b[k..k + w] == b[at + w..][d..d + w];
    }
  }

  lemma SameLength(a: Bytes, b: Bytes, at: nat, w: nat)
    requires DifferIn(a, b, at, w)
    ensures |a| == |b|
  {
  }
}
