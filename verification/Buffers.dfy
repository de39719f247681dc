/** Byte buffers: memcpy and the vocabulary of hashing in pieces. */
module Buffers {
  import opened Machine

  datatype ErrorCode = OK | ERROR

  /** s with src written over it from position `at`. */
  function Overlay(s: Bytes, at: nat, src: Bytes): (r: Bytes)
    requires at + |src| <= |s|
    ensures |r| == |s|
  {
    s[..at] + src + s[at + |src|..]
  }

  /** memcpy() into a buffer. */
  method CopyInto(dst: array<U8>, at: nat, src: Bytes)
    requires at + |src| <= dst.Length
    modifies dst
    ensures dst[..] == Overlay(old(dst[..]), at, src)
  {
    forall i | 0 <= i < |src| {
      dst[at + i] := src[i];
    }
  }

  /** All pieces, one after the other. */
  function Concat(pieces: seq<Bytes>): Bytes {
    if pieces == [] then [] else Concat(pieces[..|pieces| - 1]) + pieces[|pieces| - 1]
  }

  /** Cutting the input at two places changes nothing. */
  lemma Regroup(done: Bytes, pending: Bytes, input: Bytes, from: nat, p: nat)
    requires from <= p <= |input|
    ensures done + pending + input[..from] + input[from..p] + input[p..] == done + pending + input
    ensures done + pending + input[..from] + input[from..] == done + pending + input
  {
    assert input[..from] + input[from..p] + input[p..] == input;
  }

  /** Writing behind a prefix extends it. */
  lemma Appended(buf: Bytes, pending: Bytes, more: Bytes)
    requires pending <= buf && |pending| + |more| <= |buf|
    ensures pending + more <= Overlay(buf, |pending|, more)
  {
  }

  lemma Filled(buf: Bytes, pending: Bytes, more: Bytes)
    requires pending <= buf && |pending| + |more| == |buf|
    ensures Overlay(buf, |pending|, more) == pending + more
  {
  }
}
