/** Machine words as bounded integers, with the operators of C's unsigned types. */
module Machine {
  import opened Bits

  const TWO_32: nat := 0x1_0000_0000
  const TWO_64: nat := 0x1_0000_0000_0000_0000

  type U8 = x: nat | x < 0x100
  type U32 = x: nat | x < TWO_32
  type U64 = x: nat | x < TWO_64

  type Bytes = seq<U8>

  lemma Pow2Values()
    ensures Pow2(32) == TWO_32 && Pow2(64) == TWO_64
  {
    assert Pow2(8) == 0x100;
    assert Pow2(16) == 0x10000 by { assert Pow2(12) == 0x1000; }
    assert Pow2(24) == 0x1000000 by { assert Pow2(20) == 0x100000; }
    assert Pow2(32) == TWO_32 by { assert Pow2(28) == 0x10000000; }
    assert Pow2(40) == 0x100 * TWO_32 by { assert Pow2(36) == 0x10 * TWO_32; }
    assert Pow2(48) == 0x10000 * TWO_32 by { assert Pow2(44) == 0x1000 * TWO_32; }
    assert Pow2(56) == 0x1000000 * TWO_32 by { assert Pow2(52) == 0x100000 * TWO_32; }
    assert Pow2(64) == TWO_64 by { assert Pow2(60) == 0x10000000 * TWO_32; }
  }

  function Xor64(a: U64, b: U64): U64 {
    Pow2Values();
    XorBound(a, b, 64);
    Xor(a, b)
  }

  function Xor32(a: U32, b: U32): U32 {
    Pow2Values();
    XorBound(a, b, 32);
    Xor(a, b)
  }

  function Add32(a: U32, b: U32): U32 { (a + b) % TWO_32 }

  function Sub32(a: U32, b: U32): U32 { (a - b) % TWO_32 }

  function Mul32(a: U32, b: U32): U32 { (a * b) % TWO_32 }

  function Max(a: nat, b: nat): nat { if a < b then b else a }

  /** XXH_rotl32(): the bits that leave at the top come back at the bottom. */
  function Rotl32(x: U32, r: nat): U32
    requires 0 < r < 32
  {
    (x * Pow2(r) + x / Pow2(32 - r)) % TWO_32
  }

  function Rotl64(x: U64, r: nat): U64
    requires 0 < r < 64
  {
    (x * Pow2(r) + x / Pow2(64 - r)) % TWO_64
  }

  function Add64(a: U64, b: U64): U64 { (a + b) % TWO_64 }

  function Sub64(a: U64, b: U64): U64 { (a - b) % TWO_64 }

  function Mul64(a: U64, b: U64): U64 { (a * b) % TWO_64 }

  function Lo32(x: U64): U32 { x % TWO_32 }

  function Hi32(x: U64): U32 { x / TWO_32 }

  /** XXH_mult32to64(): the exact product of two 32-bit values. */
  function Mult32to64(x: U32, y: U32): U64 {
    ProductFits(x, y);
    x * y
  }

  lemma ProductFits(x: nat, y: nat)
    requires x < TWO_32 && y < TWO_32
    ensures 0 <= x * y < TWO_64
  {
    MulMono(x, y, x, 0xffff_ffff);
  }

  lemma MulMono(x: nat, y: nat, a: nat, b: nat)
    requires x <= a && y <= b
    ensures x * y <= a * b
  {
    assert a * b - x * y == (a - x) * y + a * (b - y);
  }

  lemma Remainder(n: int, m: nat)
    requires m > 0
    ensures n / m * m + n % m == n && 0 <= n % m < m
  {
  }

  lemma Quotient(n: int, m: nat, q: int, r: int)
    requires n == q * m + r && 0 <= r < m
    ensures n / m == q && n % m == r
  {
    Remainder(n, m);
    Unique(n / m, n % m, q, r, m);
  }

  lemma Unique(p: int, s: int, q: int, r: int, m: nat)
    requires p * m + s == q * m + r && 0 <= s < m && 0 <= r < m
    ensures p == q && s == r
  {
    if q < p {
      Further(q, p, m);
      assert false;
    } else if p < q {
      Further(p, q, m);
      assert false;
    }
  }

  lemma Further(p: int, q: int, m: nat)
    requires p < q
    ensures p * m + m <= q * m
  {
    var d: nat := q - p - 1;
    assert q * m == p * m + m + d * m;
  }

  /** The 32-bit little-endian word at byte offset `at`. */
  function ReadLE32(b: Bytes, at: nat): U32
    requires at + 4 <= |b|
  {
    var b0: nat, b1: nat, b2: nat, b3: nat := b[at], b[at + 1], b[at + 2], b[at + 3];
    b0 + 0x100 * b1 + 0x1_0000 * b2 + 0x100_0000 * b3
  }

  /** The 64-bit little-endian word at byte offset `at`. */
  function ReadLE64(b: Bytes, at: nat): U64
    requires at + 8 <= |b|
  {
    ReadLE32(b, at) + TWO_32 * ReadLE32(b, at + 4)
  }

  /** Byte k of a word, least significant first. */
  function ByteOf(x: U64, k: nat): U8
    requires k < 8
  {
    x / Pow2(8 * k) % 0x100
  }

  lemma WrapAdd32(a: nat, b: nat)
    ensures (a % TWO_32 + b) % TWO_32 == (a + b) % TWO_32
  {
    var q, r := a / TWO_32, a % TWO_32;
    var t := (r + b) / TWO_32;
    assert a + b == (q + t) * TWO_32 + (r + b) % TWO_32;
  }

  /** Reducing early does not change a 64-bit sum. */
  lemma WrapAdd64(a: nat, b: nat)
    ensures (a % TWO_64 + b) % TWO_64 == (a + b) % TWO_64
  {
    var q, r := a / TWO_64, a % TWO_64;
    var t := (r + b) / TWO_64;
    assert a + b == (q + t) * TWO_64 + (r + b) % TWO_64;
  }

  lemma Associative<T>(a: seq<T>, b: seq<T>, c: seq<T>)
    ensures a + (b + c) == a + b + c
  {
  }
}
