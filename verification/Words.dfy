/**
  Bitwise operators on numbers, and machine words as the bytes they are stored
  in: a bitwise operation on a word is the same operation on each of its bytes.
 */
module Words {
  import opened Bits
  import opened Machine

  /** The word stored in these bytes, least significant first. */
  function Word(b: Bytes): (w: nat)
    ensures w < Pow256(|b|)
  {
    if b == [] then 0 else b[0] + 0x100 * Word(b[1..])
  }

  function Pow256(n: nat): (p: nat)
    ensures p > 0
  {
    if n == 0 then 1 else 0x100 * Pow256(n - 1)
  }

  /** The bytes a word is stored in. */
  function Stored(w: nat, size: nat): (b: Bytes)
    requires w < Pow256(size)
    ensures |b| == size
  {
    if size == 0 then [] else [w % 0x100] + Stored(w / 0x100, size - 1)
  }

  lemma {:induction false} StoredWord(b: Bytes)
    ensures Stored(Word(b), |b|) == b
  {
    if b != [] {
      StoredWord(b[1..]);
      assert Word(b) / 0x100 == Word(b[1..]) && Word(b) % 0x100 == b[0];
    }
  }

  lemma {:induction false} WordZero(b: Bytes)
    ensures Word(b) == 0 <==> forall i :: 0 <= i < |b| ==> b[i] == 0
  {
    if b != [] {
      WordZero(b[1..]);
      if Word(b) == 0 {
        forall i | 0 <= i < |b|
          ensures b[i] == 0
        {
          if i > 0 { assert b[i] == b[1..][i - 1]; }
        }
      }
    }
  }

  function AndBytes(b: Bytes, c: Bytes): (r: Bytes)
    requires |b| == |c|
    ensures |r| == |b| && forall i :: 0 <= i < |r| ==> r[i] == And(b[i], c[i])
  {
    if b == [] then [] else [And(b[0], c[0])] + AndBytes(b[1..], c[1..])
  }

  lemma {:induction false} AndWord(b: Bytes, c: Bytes)
    requires |b| == |c|
    ensures And(Word(b), Word(c)) == Word(AndBytes(b, c))
  {
    hide And;
    if b == [] {
      AndZero();
    } else {
      AndWord(b[1..], c[1..]);
      ShlByte(1);
      ShlByte(Word(b[1..]));
      ShlByte(Word(c[1..]));
      ShlByte(And(Word(b[1..]), Word(c[1..])));
      AndSplit(Word(b[1..]), b[0], Word(c[1..]), c[0], 8);
    }
  }

  /** Bitwise complement within a word. */
  function NotBytes(b: Bytes): (r: Bytes)
    ensures |r| == |b| && forall i :: 0 <= i < |r| ==> r[i] == 0xff - b[i]
  {
    if b == [] then [] else [0xff - b[0]] + NotBytes(b[1..])
  }

  lemma {:induction false} NotWord(b: Bytes)
    ensures Word(NotBytes(b)) == Pow256(|b|) - 1 - Word(b)
  {
    if b != [] {
      NotWord(b[1..]);
    }
  }
}
