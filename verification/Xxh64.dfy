/**
  XXH64: the specification of the hash, the one-shot loop and the streaming state,
  which agrees with the one-shot hash for every way of cutting an input whose
  length fits 64 bits.
 */
module Xxh64 {
  import opened Machine
  import opened Buffers
  import opened Options

  const PRIME64_1: U64 := 0x9E3779B185EBCA87
  const PRIME64_2: U64 := 0xC2B2AE3D27D4EB4F
  const PRIME64_3: U64 := 0x165667B19E3779F9
  const PRIME64_4: U64 := 0x85EBCA77C2B2AE63
  const PRIME64_5: U64 := 0x27D4EB2F165667C5

  datatype Lanes = Lanes(v1: U64, v2: U64, v3: U64, v4: U64)

  // ---- The specification ----

  function Init(seed: U64): Lanes {
    Lanes(Add64(Add64(seed, PRIME64_1), PRIME64_2), Add64(seed, PRIME64_2), seed, Sub64(seed, PRIME64_1))
  }

  function Round(acc: U64, input: U64): U64 {
    Mul64(Rotl64(Add64(acc, Mul64(input, PRIME64_2)), 31), PRIME64_1)
  }

  function MergeRound(acc: U64, val: U64): U64 {
    Add64(Mul64(Xor64(acc, Round(0, val)), PRIME64_1), PRIME64_4)
  }

  /** One 32-byte stripe of data at offset `at`. */
  function Rounds(v: Lanes, data: Bytes, at: nat): Lanes
    requires at + 32 <= |data|
  {
    Lanes(Round(v.v1, ReadLE64(data, at)), Round(v.v2, ReadLE64(data, at + 8)),
          Round(v.v3, ReadLE64(data, at + 16)), Round(v.v4, ReadLE64(data, at + 24)))
  }

  /** All whole stripes, front to back. */
  ghost function Absorbed(v: Lanes, data: Bytes): Lanes
    decreases |data|
  {
    if |data| < 32 then v else Absorbed(Rounds(v, data, 0), data[32..])
  }

  function Converge(v: Lanes): U64 {
    var sum := Add64(Add64(Add64(Rotl64(v.v1, 1), Rotl64(v.v2, 7)), Rotl64(v.v3, 12)), Rotl64(v.v4, 18));
    MergeRound(MergeRound(MergeRound(MergeRound(sum, v.v1), v.v2), v.v3), v.v4)
  }

  function Avalanche(h: U64): U64 {
    var h1 := Mul64(Xor64(h, h / 0x2_0000_0000), PRIME64_2);
    var h2 := Mul64(Xor64(h1, h1 / 0x2000_0000), PRIME64_3);
    Xor64(h2, h2 / 0x1_0000_0000)
  }

  function Process8(h: U64, word: U64): U64 {
    Add64(Mul64(Rotl64(Xor64(h, Round(0, word)), 27), PRIME64_1), PRIME64_4)
  }

  function Process4(h: U64, word: U32): U64 {
    Add64(Mul64(Rotl64(Xor64(h, Mul64(word, PRIME64_1)), 23), PRIME64_2), PRIME64_3)
  }

  function Process1(h: U64, byte: U8): U64 {
    Mul64(Rotl64(Xor64(h, Mul64(byte, PRIME64_5)), 11), PRIME64_1)
  }

  /** The remaining bytes: 8 at a time, then 4, then one at a time. */
  ghost function MixTail(h: U64, tail: Bytes): U64
    decreases |tail|
  {
    if |tail| >= 8 then MixTail(Process8(h, ReadLE64(tail, 0)), tail[8..])
    else if |tail| >= 4 then MixTail(Process4(h, ReadLE32(tail, 0)), tail[4..])
    else if |tail| > 0 then MixTail(Process1(h, tail[0]), tail[1..])
    else h
  }

  /** XXH64 of a message, as the xxHash specification describes it in six steps. */
  ghost function Hash(seed: U64, msg: Bytes): U64 {
    var h := if |msg| >= 32 then Converge(Absorbed(Init(seed), msg)) else Add64(seed, PRIME64_5);
    Avalanche(MixTail(Add64(h, |msg| % TWO_64), msg[|msg| / 32 * 32..]))
  }

  // ---- Mixing the tail ----

  /** XXH64_finalize(). */
  method Finalize(h64: U64, ptr: Bytes, len: nat) returns (r: U64)
    requires len % 32 <= |ptr|
    ensures r == Avalanche(MixTail(h64, ptr[..len % 32]))
  {
    hide Process8, Process4, Process1, ReadLE64, ReadLE32, Avalanche;
    var h, n, p := h64, len % 32, 0;
    ghost var tail := ptr[..n];
    while n >= 8
      invariant 0 <= p && p + n == |tail| && MixTail(h, tail[p..]) == MixTail(h64, tail)
    {
      ReadsFromTail(ptr, tail, p);
      assert tail[p..][8..] == tail[p + 8..];
      h, p, n := Process8(h, ReadLE64(ptr, p)), p + 8, n - 8;
    }
    if n >= 4 {
      ReadsFromTail(ptr, tail, p);
      assert tail[p..][4..] == tail[p + 4..];
      h, p, n := Process4(h, ReadLE32(ptr, p)), p + 4, n - 4;
    }
    while n > 0
      invariant 0 <= p && p + n == |tail| && n < 4 && MixTail(h, tail[p..]) == MixTail(h64, tail)
    {
      assert tail[p..][1..] == tail[p + 1..];
      h, p, n := Process1(h, ptr[p]), p + 1, n - 1;
    }
    r := Avalanche(h);
  }

  lemma ReadsFromTail(ptr: Bytes, tail: Bytes, p: nat)
    requires tail <= ptr && p + 4 <= |tail|
    ensures ReadLE32(tail[p..], 0) == ReadLE32(ptr, p)
    ensures p + 8 <= |tail| ==> ReadLE64(tail[p..], 0) == ReadLE64(ptr, p)
  {
  }

  // ---- One-shot ----

  /** XXH64_endian_align(). */
  method OneShot(input: Bytes, seed: U64) returns (r: U64)
    requires |input| < TWO_64
    ensures r == Hash(seed, input)
  {
    hide Absorbed, Converge, Avalanche, MixTail, Init, Add64;
    var p := 0;
    var h64;
    if |input| >= 32 {
      var v;
      v, p := AbsorbAll(input, seed);
      h64 := Converge(v);
    } else {
      h64 := Add64(seed, PRIME64_5);
    }
    h64 := Add64(h64, |input|);
    TailAt(input, p);
    r := Finalize(h64, input[p..], |input|);
  }

  lemma TailAt(input: Bytes, p: nat)
    requires p == |input| / 32 * 32
    ensures p + |input| % 32 == |input| && input[p..][..|input| % 32] == input[|input| / 32 * 32..]
  {
  }

  /** The main loop of XXH64_endian_align(). */
  method AbsorbAll(input: Bytes, seed: U64) returns (v: Lanes, p: nat)
    requires |input| >= 32
    ensures p == |input| / 32 * 32 && v == Absorbed(Init(seed), input)
  {
    hide Rounds, Absorbed, Init;
    p := 0;
    v := Init(seed);
    var limit := |input| - 32;
    assert input[0..] == input;
    while true
      invariant 0 <= p <= limit && p % 32 == 0
      invariant Absorbed(v, input[p..]) == Absorbed(Init(seed), input)
      decreases limit - p
    {
      AbsorbStep(v, input, p);
      v := Rounds(v, input, p);
      p := p + 32;
      if !(p <= limit) { break; }
    }
    AbsorbNone(v, input[p..]);
  }

  lemma AbsorbNone(v: Lanes, data: Bytes)
    requires |data| < 32
    ensures Absorbed(v, data) == v
  {
  }

  lemma AbsorbStep(v: Lanes, data: Bytes, p: nat)
    requires p + 32 <= |data|
    ensures Absorbed(v, data[p..]) == Absorbed(Rounds(v, data, p), data[p + 32..])
  {
    assert data[p..][32..] == data[p + 32..];
    assert Rounds(v, data[p..], 0) == Rounds(v, data, p);
  }

  // ---- Streaming ----

  lemma {:induction false} AbsorbedAppend(v: Lanes, done: Bytes, more: Bytes)
    requires |done| % 32 == 0
    ensures Absorbed(v, done + more) == Absorbed(Absorbed(v, done), more)
    decreases |done|
  {
    hide Rounds;
    if |done| == 0 {
      assert done + more == more;
    } else {
      var v' := Rounds(v, done, 0);
      assert (done + more)[32..] == done[32..] + more;
      assert Rounds(v, done + more, 0) == v' by { RoundsPrefix(v, done, more); }
      AbsorbedAppend(v', done[32..], more);
    }
  }

  lemma RoundsSlice(v: Lanes, data: Bytes, p: nat)
    requires p + 32 <= |data|
    ensures Rounds(v, data[p..p + 32], 0) == Rounds(v, data, p)
  {
    hide Round, ReadLE64;
    ReadSlice(data, p, 0);
    ReadSlice(data, p, 8);
    ReadSlice(data, p, 16);
    ReadSlice(data, p, 24);
  }

  lemma ReadSlice(data: Bytes, p: nat, k: nat)
    requires p + 32 <= |data| && k + 8 <= 32
    ensures ReadLE64(data[p..p + 32], k) == ReadLE64(data, p + k)
  {
  }

  lemma RoundsPrefix(v: Lanes, a: Bytes, b: Bytes)
    requires |a| >= 32
    ensures Rounds(v, a + b, 0) == Rounds(v, a, 0)
  {
  }

  /** What the hash reads off the lanes and off the buffered rest. */
  lemma HashParts(seed: U64, done: Bytes, pending: Bytes)
    requires |done| % 32 == 0 && |pending| < 32
    ensures
      var m := done + pending;
      var lanes := Absorbed(Init(seed), done);
      var h := if |m| >= 32 then Converge(lanes) else Add64(lanes.v3, PRIME64_5);
      Hash(seed, m) == Avalanche(MixTail(Add64(h, |m| % TWO_64), pending))
  {
    hide Converge, MixTail, Avalanche, Rounds, Add64, Sub64;
    var m := done + pending;
    AbsorbedAppend(Init(seed), done, pending);
    assert Absorbed(Absorbed(Init(seed), done), pending) == Absorbed(Init(seed), done);
    assert |m| / 32 * 32 == |done|;
    assert m[|done|..] == pending;
    if |m| < 32 {
      assert Absorbed(Init(seed), done) == Init(seed);
    }
  }

  /** XXH64_state_t. */
  class State {
    var totalLen: U64
    var v1: U64
    var v2: U64
    var v3: U64
    var v4: U64
    const mem64: array<U8>
    var memsize: nat

    /** The seed, the bytes in the lanes and the bytes in mem64. */
    ghost var seed: U64
    ghost var done: Bytes
    ghost var pending: Bytes

    ghost function Fed(): Bytes
      reads this
    {
      done + pending
    }

    ghost predicate LanesHold()
      reads this`v1, this`v2, this`v3, this`v4, this`seed, this`done
    {
      && |done| % 32 == 0
      && Lanes(v1, v2, v3, v4) == Absorbed(Init(seed), done)
    }

    ghost predicate BufferHolds()
      reads this`memsize, this`pending, mem64
    {
      && mem64.Length == 32
      && memsize == |pending| < 32
      && pending <= mem64[..]
    }

    /** The length is kept modulo 2^64. */
    ghost predicate Ready()
      reads this, mem64
    {
      && LanesHold() && BufferHolds()
      && totalLen == |Fed()| % TWO_64
    }

    /** XXH64_createState() followed by XXH64_reset(). */
    constructor (seed: U64)
      ensures Ready() && this.seed == seed && Fed() == [] && fresh(mem64)
    {
      mem64 := new U8[32](_ => 0);
      new;
      Reset(seed);
    }

    /** XXH64_reset(). */
    method Reset(seed: U64)
      requires mem64.Length == 32
      modifies this
      ensures Ready() && this.seed == seed && Fed() == []
    {
      var v := Init(seed);
      v1, v2, v3, v4 := v.v1, v.v2, v.v3, v.v4;
      totalLen, memsize := 0, 0;
      this.seed, done, pending := seed, [], [];
    }

    /** Mixes one 32-byte stripe into the lanes. */
    method RoundsAt(data: Bytes, p: nat)
      requires LanesHold() && p + 32 <= |data|
      modifies this`v1, this`v2, this`v3, this`v4, this`done
      ensures LanesHold() && done == old(done) + data[p..p + 32]
    {
      hide Rounds, Init;
      AbsorbedAppend(Init(seed), done, data[p..p + 32]);
      AbsorbStep(Lanes(v1, v2, v3, v4), data[p..p + 32], 0);
      assert data[p..p + 32][0..] == data[p..p + 32];
      RoundsSlice(Lanes(v1, v2, v3, v4), data, p);
      var v := Rounds(Lanes(v1, v2, v3, v4), data, p);
      v1, v2, v3, v4 := v.v1, v.v2, v.v3, v.v4;
      done := done + data[p..p + 32];
    }

    /** XXH64_update(). */
    method Update(input: Option<Bytes>) returns (code: ErrorCode)
      requires Ready()
      modifies this, mem64
      ensures Ready() && seed == old(seed)
      ensures code == ERROR <==> input == None
      ensures Fed() == old(Fed()) + (if input.Some? then input.value else [])
    {
      if input == None { return ERROR; }
      Feed(input.value);
      return OK;
    }

    method Feed(input: Bytes)
      requires Ready()
      modifies this, mem64
      ensures Ready() && seed == old(seed) && Fed() == old(Fed()) + input
    {
      hide LanesHold, BufferHolds;
      var len := |input|;
      WrapAdd64(|Fed()|, len);
      totalLen := (totalLen + len) % TWO_64;
      if memsize + len < 32 {
        FeedShort(input);
      } else {
        FeedLong(input);
      }
    }

    /** Input that completes no stripe. */
    method FeedShort(input: Bytes)
      requires BufferHolds() && memsize + |input| < 32
      modifies this`pending, this`memsize, mem64
      ensures BufferHolds() && Fed() == old(Fed()) + input
    {
      hide Overlay;
      CopyInto(mem64, memsize, input);
      Appended(old(mem64[..]), pending, input);
      memsize := memsize + |input|;
      pending := pending + input;
      assert done + pending == old(done + pending) + input;
    }

    /** Input that completes at least one stripe. */
    method FeedLong(input: Bytes)
      requires LanesHold() && BufferHolds() && memsize + |input| >= 32
      modifies this`v1, this`v2, this`v3, this`v4, this`done, this`pending, this`memsize, mem64
      ensures LanesHold() && BufferHolds()
      ensures Fed() == old(Fed()) + input
    {
      hide LanesHold;
      var from := CompleteStripe(input);
      var p := ConsumeStripes(input, from);
      ParkTail(input, p);
      Regroup(old(done), old(pending), input, from, p);
    }

    /** Fills up and consumes a partial stripe. */
    method CompleteStripe(input: Bytes) returns (p: nat)
      requires LanesHold() && BufferHolds() && memsize + |input| >= 32
      modifies this`v1, this`v2, this`v3, this`v4, this`done, this`pending, this`memsize, mem64
      ensures LanesHold() && BufferHolds() && pending == []
      ensures p <= |input| && done == old(done) + old(pending) + input[..p]
    {
      hide Absorbed, Init, Overlay;
      p := 0;
      if memsize > 0 {
        p := 32 - memsize;
        CopyInto(mem64, memsize, input[..p]);
        Filled(old(mem64[..]), pending, input[..p]);
        RoundsAt(mem64[..], 0);
        assert mem64[..][0..32] == mem64[..];
        memsize, pending := 0, [];
      }
    }

    /** Consumes whole stripes straight from the input. */
    method ConsumeStripes(input: Bytes, from: nat) returns (p: nat)
      requires LanesHold() && from <= |input|
      modifies this`v1, this`v2, this`v3, this`v4, this`done
      ensures LanesHold() && from <= p <= |input| < p + 32 && done == old(done) + input[from..p]
    {
      hide Absorbed, Init;
      p := from;
      if p + 32 <= |input| {
        var limit := |input| - 32;
        while true
          invariant from <= p <= limit
          invariant LanesHold() && done == old(done) + input[from..p]
          decreases |input| - p
        {
          RoundsAt(input, p);
          assert input[from..p] + input[p..p + 32] == input[from..p + 32];
          p := p + 32;
          if !(p <= limit) { break; }
        }
      }
    }

    /** Keeps what is left for later. */
    method ParkTail(input: Bytes, p: nat)
      requires BufferHolds() && pending == [] && p <= |input| < p + 32
      modifies this`pending, this`memsize, mem64
      ensures BufferHolds() && pending == input[p..]
    {
      if p < |input| {
        ghost var buf := mem64[..];
        CopyInto(mem64, 0, input[p..]);
        Appended(buf, [], input[p..]);
        assert [] + input[p..] == input[p..];
        memsize, pending := |input| - p, input[p..];
      }
    }

    /** XXH64_digest(): the one-shot hash of everything fed. */
    method Digest() returns (r: U64)
      requires Ready() && |Fed()| < TWO_64
      ensures r == Hash(seed, Fed())
    {
      hide Converge, Absorbed, Init, MixTail, Avalanche, Hash, Add64;
      HashParts(seed, done, pending);
      KeptLength();
      var h64;
      if totalLen >= 32 {
        h64 := Converge(Lanes(v1, v2, v3, v4));
      } else {
        h64 := Add64(v3, PRIME64_5);
      }
      h64 := Add64(h64, totalLen);
      r := Finalize(h64, mem64[..], totalLen);
    }

    lemma KeptLength()
      requires Ready() && |Fed()| < TWO_64
      ensures totalLen == |done + pending| == totalLen % TWO_64
      ensures totalLen % 32 == memsize && mem64[..][..memsize] == pending
    {
      hide Absorbed, Init;
    }
  }

  /** However a message is cut into pieces, streaming gives the one-shot hash. */
  method HashInPieces(seed: U64, pieces: seq<Bytes>) returns (r: U64)
    requires |Concat(pieces)| < TWO_64
    ensures r == Hash(seed, Concat(pieces))
  {
    var st := new State(seed);
    for i := 0 to |pieces|
      invariant fresh(st) && fresh(st.mem64)
      invariant st.Ready() && st.seed == seed && st.Fed() == Concat(pieces[..i])
    {
      assert pieces[..i + 1][..i] == pieces[..i];
      st.Feed(pieces[i]);
    }
    assert pieces[..|pieces|] == pieces;
    r := st.Digest();
  }
}
