/** Exclusive or of numbers written in hexadecimal, digit by digit. */
module Digits {
  import opened Bits

  lemma XorTwice(a: nat, b: nat, i: nat, j: nat)
    requires i < 2 && j < 2
    ensures Xor(2 * a + i, 2 * b + j) == 2 * Xor(a, b) + if i == j then 0 else 1
  {
    hide Xor;
    XorUnfolded(2 * a + i, 2 * b + j);
    assert (2 * a + i) / 2 == a && (2 * b + j) / 2 == b;
    assert (2 * a + i + (2 * b + j)) % 2 == (i + j) % 2;
  }

  lemma XorUnfolded(x: nat, y: nat)
    ensures Xor(x, y) == (x + y) % 2 + 2 * Xor(x / 2, y / 2)
  {
  }

  /** Digits of two bits. */
  lemma XorQuads()
    ensures Xor(0, 0) == 0 && Xor(0, 1) == 1 && Xor(0, 2) == 2 && Xor(0, 3) == 3
    ensures Xor(1, 0) == 1 && Xor(1, 1) == 0 && Xor(1, 2) == 3 && Xor(1, 3) == 2
    ensures Xor(2, 0) == 2 && Xor(2, 1) == 3 && Xor(2, 2) == 0 && Xor(2, 3) == 1
    ensures Xor(3, 0) == 3 && Xor(3, 1) == 2 && Xor(3, 2) == 1 && Xor(3, 3) == 0
  {
  }

  lemma XorFour(a: nat, b: nat, x: nat, y: nat)
    requires x < 4 && y < 4
    ensures Xor(4 * a + x, 4 * b + y) == 4 * Xor(a, b) + Xor(x, y)
  {
    hide Xor;
    XorQuads();
    var i, j := if x >= 2 then 1 else 0, if y >= 2 then 1 else 0;
    XorTwice(a, b, i, j);
    XorTwice(2 * a + i, 2 * b + j, x - 2 * i, y - 2 * j);
    XorTwice(0, 0, i, j);
    XorTwice(i, j, x - 2 * i, y - 2 * j);
  }

  lemma XorRow(a: nat, x: nat)
    requires a < 4 && x < 4
    ensures Xor(4 * a + x, 0) == 4 * Xor(a, 0) + Xor(x, 0)
    ensures Xor(4 * a + x, 1) == 4 * Xor(a, 0) + Xor(x, 1)
    ensures Xor(4 * a + x, 2) == 4 * Xor(a, 0) + Xor(x, 2)
    ensures Xor(4 * a + x, 3) == 4 * Xor(a, 0) + Xor(x, 3)
    ensures Xor(4 * a + x, 4) == 4 * Xor(a, 1) + Xor(x, 0)
    ensures Xor(4 * a + x, 5) == 4 * Xor(a, 1) + Xor(x, 1)
    ensures Xor(4 * a + x, 6) == 4 * Xor(a, 1) + Xor(x, 2)
    ensures Xor(4 * a + x, 7) == 4 * Xor(a, 1) + Xor(x, 3)
    ensures Xor(4 * a + x, 8) == 4 * Xor(a, 2) + Xor(x, 0)
    ensures Xor(4 * a + x, 9) == 4 * Xor(a, 2) + Xor(x, 1)
    ensures Xor(4 * a + x, 10) == 4 * Xor(a, 2) + Xor(x, 2)
    ensures Xor(4 * a + x, 11) == 4 * Xor(a, 2) + Xor(x, 3)
    ensures Xor(4 * a + x, 12) == 4 * Xor(a, 3) + Xor(x, 0)
    ensures Xor(4 * a + x, 13) == 4 * Xor(a, 3) + Xor(x, 1)
    ensures Xor(4 * a + x, 14) == 4 * Xor(a, 3) + Xor(x, 2)
    ensures Xor(4 * a + x, 15) == 4 * Xor(a, 3) + Xor(x, 3)
  {
    hide Xor;
    XorFour(a, 0, x, 0);
    XorFour(a, 0, x, 1);
    XorFour(a, 0, x, 2);
    XorFour(a, 0, x, 3);
    XorFour(a, 1, x, 0);
    XorFour(a, 1, x, 1);
    XorFour(a, 1, x, 2);
    XorFour(a, 1, x, 3);
    XorFour(a, 2, x, 0);
    XorFour(a, 2, x, 1);
    XorFour(a, 2, x, 2);
    XorFour(a, 2, x, 3);
    XorFour(a, 3, x, 0);
    XorFour(a, 3, x, 1);
    XorFour(a, 3, x, 2);
    XorFour(a, 3, x, 3);
  }

  /** Hexadecimal digits. */
  lemma XorTable()
    ensures Xor(0, 0) == 0 && Xor(0, 1) == 1 && Xor(0, 2) == 2 && Xor(0, 3) == 3
    ensures Xor(0, 4) == 4 && Xor(0, 5) == 5 && Xor(0, 6) == 6 && Xor(0, 7) == 7
    ensures Xor(0, 8) == 8 && Xor(0, 9) == 9 && Xor(0, 10) == 10 && Xor(0, 11) == 11
    ensures Xor(0, 12) == 12 && Xor(0, 13) == 13 && Xor(0, 14) == 14 && Xor(0, 15) == 15
    ensures Xor(1, 0) == 1 && Xor(1, 1) == 0 && Xor(1, 2) == 3 && Xor(1, 3) == 2
    ensures Xor(1, 4) == 5 && Xor(1, 5) == 4 && Xor(1, 6) == 7 && Xor(1, 7) == 6
    ensures Xor(1, 8) == 9 && Xor(1, 9) == 8 && Xor(1, 10) == 11 && Xor(1, 11) == 10
    ensures Xor(1, 12) == 13 && Xor(1, 13) == 12 && Xor(1, 14) == 15 && Xor(1, 15) == 14
    ensures Xor(2, 0) == 2 && Xor(2, 1) == 3 && Xor(2, 2) == 0 && Xor(2, 3) == 1
    ensures Xor(2, 4) == 6 && Xor(2, 5) == 7 && Xor(2, 6) == 4 && Xor(2, 7) == 5
    ensures Xor(2, 8) == 10 && Xor(2, 9) == 11 && Xor(2, 10) == 8 && Xor(2, 11) == 9
    ensures Xor(2, 12) == 14 && Xor(2, 13) == 15 && Xor(2, 14) == 12 && Xor(2, 15) == 13
    ensures Xor(3, 0) == 3 && Xor(3, 1) == 2 && Xor(3, 2) == 1 && Xor(3, 3) == 0
    ensures Xor(3, 4) == 7 && Xor(3, 5) == 6 && Xor(3, 6) == 5 && Xor(3, 7) == 4
    ensures Xor(3, 8) == 11 && Xor(3, 9) == 10 && Xor(3, 10) == 9 && Xor(3, 11) == 8
    ensures Xor(3, 12) == 15 && Xor(3, 13) == 14 && Xor(3, 14) == 13 && Xor(3, 15) == 12
    ensures Xor(4, 0) == 4 && Xor(4, 1) == 5 && Xor(4, 2) == 6 && Xor(4, 3) == 7
    ensures Xor(4, 4) == 0 && Xor(4, 5) == 1 && Xor(4, 6) == 2 && Xor(4, 7) == 3
    ensures Xor(4, 8) == 12 && Xor(4, 9) == 13 && Xor(4, 10) == 14 && Xor(4, 11) == 15
    ensures Xor(4, 12) == 8 && Xor(4, 13) == 9 && Xor(4, 14) == 10 && Xor(4, 15) == 11
    ensures Xor(5, 0) == 5 && Xor(5, 1) == 4 && Xor(5, 2) == 7 && Xor(5, 3) == 6
    ensures Xor(5, 4) == 1 && Xor(5, 5) == 0 && Xor(5, 6) == 3 && Xor(5, 7) == 2
    ensures Xor(5, 8) == 13 && Xor(5, 9) == 12 && Xor(5, 10) == 15 && Xor(5, 11) == 14
    ensures Xor(5, 12) == 9 && Xor(5, 13) == 8 && Xor(5, 14) == 11 && Xor(5, 15) == 10
    ensures Xor(6, 0) == 6 && Xor(6, 1) == 7 && Xor(6, 2) == 4 && Xor(6, 3) == 5
    ensures Xor(6, 4) == 2 && Xor(6, 5) == 3 && Xor(6, 6) == 0 && Xor(6, 7) == 1
    ensures Xor(6, 8) == 14 && Xor(6, 9) == 15 && Xor(6, 10) == 12 && Xor(6, 11) == 13
    ensures Xor(6, 12) == 10 && Xor(6, 13) == 11 && Xor(6, 14) == 8 && Xor(6, 15) == 9
    ensures Xor(7, 0) == 7 && Xor(7, 1) == 6 && Xor(7, 2) == 5 && Xor(7, 3) == 4
    ensures Xor(7, 4) == 3 && Xor(7, 5) == 2 && Xor(7, 6) == 1 && Xor(7, 7) == 0
    ensures Xor(7, 8) == 15 && Xor(7, 9) == 14 && Xor(7, 10) == 13 && Xor(7, 11) == 12
    ensures Xor(7, 12) == 11 && Xor(7, 13) == 10 && Xor(7, 14) == 9 && Xor(7, 15) == 8
    ensures Xor(8, 0) == 8 && Xor(8, 1) == 9 && Xor(8, 2) == 10 && Xor(8, 3) == 11
    ensures Xor(8, 4) == 12 && Xor(8, 5) == 13 && Xor(8, 6) == 14 && Xor(8, 7) == 15
    ensures Xor(8, 8) == 0 && Xor(8, 9) == 1 && Xor(8, 10) == 2 && Xor(8, 11) == 3
    ensures Xor(8, 12) == 4 && Xor(8, 13) == 5 && Xor(8, 14) == 6 && Xor(8, 15) == 7
    ensures Xor(9, 0) == 9 && Xor(9, 1) == 8 && Xor(9, 2) == 11 && Xor(9, 3) == 10
    ensures Xor(9, 4) == 13 && Xor(9, 5) == 12 && Xor(9, 6) == 15 && Xor(9, 7) == 14
    ensures Xor(9, 8) == 1 && Xor(9, 9) == 0 && Xor(9, 10) == 3 && Xor(9, 11) == 2
    ensures Xor(9, 12) == 5 && Xor(9, 13) == 4 && Xor(9, 14) == 7 && Xor(9, 15) == 6
    ensures Xor(10, 0) == 10 && Xor(10, 1) == 11 && Xor(10, 2) == 8 && Xor(10, 3) == 9
    ensures Xor(10, 4) == 14 && Xor(10, 5) == 15 && Xor(10, 6) == 12 && Xor(10, 7) == 13
    ensures Xor(10, 8) == 2 && Xor(10, 9) == 3 && Xor(10, 10) == 0 && Xor(10, 11) == 1
    ensures Xor(10, 12) == 6 && Xor(10, 13) == 7 && Xor(10, 14) == 4 && Xor(10, 15) == 5
    ensures Xor(11, 0) == 11 && Xor(11, 1) == 10 && Xor(11, 2) == 9 && Xor(11, 3) == 8
    ensures Xor(11, 4) == 15 && Xor(11, 5) == 14 && Xor(11, 6) == 13 && Xor(11, 7) == 12
    ensures Xor(11, 8) == 3 && Xor(11, 9) == 2 && Xor(11, 10) == 1 && Xor(11, 11) == 0
    ensures Xor(11, 12) == 7 && Xor(11, 13) == 6 && Xor(11, 14) == 5 && Xor(11, 15) == 4
    ensures Xor(12, 0) == 12 && Xor(12, 1) == 13 && Xor(12, 2) == 14 && Xor(12, 3) == 15
    ensures Xor(12, 4) == 8 && Xor(12, 5) == 9 && Xor(12, 6) == 10 && Xor(12, 7) == 11
    ensures Xor(12, 8) == 4 && Xor(12, 9) == 5 && Xor(12, 10) == 6 && Xor(12, 11) == 7
    ensures Xor(12, 12) == 0 && Xor(12, 13) == 1 && Xor(12, 14) == 2 && Xor(12, 15) == 3
    ensures Xor(13, 0) == 13 && Xor(13, 1) == 12 && Xor(13, 2) == 15 && Xor(13, 3) == 14
    ensures Xor(13, 4) == 9 && Xor(13, 5) == 8 && Xor(13, 6) == 11 && Xor(13, 7) == 10
    ensures Xor(13, 8) == 5 && Xor(13, 9) == 4 && Xor(13, 10) == 7 && Xor(13, 11) == 6
    ensures Xor(13, 12) == 1 && Xor(13, 13) == 0 && Xor(13, 14) == 3 && Xor(13, 15) == 2
    ensures Xor(14, 0) == 14 && Xor(14, 1) == 15 && Xor(14, 2) == 12 && Xor(14, 3) == 13
    ensures Xor(14, 4) == 10 && Xor(14, 5) == 11 && Xor(14, 6) == 8 && Xor(14, 7) == 9
    ensures Xor(14, 8) == 6 && Xor(14, 9) == 7 && Xor(14, 10) == 4 && Xor(14, 11) == 5
    ensures Xor(14, 12) == 2 && Xor(14, 13) == 3 && Xor(14, 14) == 0 && Xor(14, 15) == 1
    ensures Xor(15, 0) == 15 && Xor(15, 1) == 14 && Xor(15, 2) == 13 && Xor(15, 3) == 12
    ensures Xor(15, 4) == 11 && Xor(15, 5) == 10 && Xor(15, 6) == 9 && Xor(15, 7) == 8
    ensures Xor(15, 8) == 7 && Xor(15, 9) == 6 && Xor(15, 10) == 5 && Xor(15, 11) == 4
    ensures Xor(15, 12) == 3 && Xor(15, 13) == 2 && Xor(15, 14) == 1 && Xor(15, 15) == 0
  {
    hide *;
    XorQuads();
    XorRow(0, 0); XorRow(0, 1); XorRow(0, 2); XorRow(0, 3);
    XorRow(1, 0); XorRow(1, 1); XorRow(1, 2); XorRow(1, 3);
    XorRow(2, 0); XorRow(2, 1); XorRow(2, 2); XorRow(2, 3);
    XorRow(3, 0); XorRow(3, 1); XorRow(3, 2); XorRow(3, 3);
  }

  lemma XorDigit(a: nat, b: nat, x: nat, y: nat)
    requires x < 16 && y < 16
    ensures Xor(16 * a + x, 16 * b + y) == 16 * Xor(a, b) + Xor(x, y)
  {
    hide Xor;
    var i, j := TopDigit(x), TopDigit(y);
    XorFour(a, b, i, j);
    XorFour(4 * a + i, 4 * b + j, x - 4 * i, y - 4 * j);
    XorFour(i, j, x - 4 * i, y - 4 * j);
  }

  function TopDigit(x: nat): (i: nat)
    requires x < 16
    ensures i < 4 && 4 * i <= x < 4 * i + 4
  {
    if x < 4 then 0 else if x < 8 then 1 else if x < 12 then 2 else 3
  }

  /** Four more digits below p and q. */
  lemma XorDigits(p: nat, q: nat, d: nat, c: nat, b: nat, a: nat, d': nat, c': nat, b': nat, a': nat)
    requires d < 16 && c < 16 && b < 16 && a < 16 && d' < 16 && c' < 16 && b' < 16 && a' < 16
    ensures
      Xor(0x1_0000 * p + 0x1000 * d + 0x100 * c + 0x10 * b + a,
          0x1_0000 * q + 0x1000 * d' + 0x100 * c' + 0x10 * b' + a') ==
        0x1_0000 * Xor(p, q) + 0x1000 * Xor(d, d') + 0x100 * Xor(c, c') + 0x10 * Xor(b, b') + Xor(a, a')
  {
    hide Xor;
    XorDigit(p, q, d, d');
    XorDigit(16 * p + d, 16 * q + d', c, c');
    XorDigit(0x100 * p + 0x10 * d + c, 0x100 * q + 0x10 * d' + c', b, b');
    XorDigit(0x1000 * p + 0x100 * d + 0x10 * c + b, 0x1000 * q + 0x100 * d' + 0x10 * c' + b', a, a');
  }
}
