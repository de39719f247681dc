/**
  XXH32: the specification of the hash, the one-shot loop, the two forms of the
  tail mixing, and the streaming state, which agrees with the one-shot hash for
  every way of cutting the input and for inputs of any length.
 */
module Xxh32 {
  import opened Machine
  import opened Buffers
  import opened Options

  const PRIME32_1: U32 := 0x9E3779B1
  const PRIME32_2: U32 := 0x85EBCA77
  const PRIME32_3: U32 := 0xC2B2AE3D
  const PRIME32_4: U32 := 0x27D4EB2F
  const PRIME32_5: U32 := 0x165667B1

  datatype Lanes = Lanes(v1: U32, v2: U32, v3: U32, v4: U32)

  // ---- The specification ----

  function Init(seed: U32): Lanes {
    Lanes(Add32(Add32(seed, PRIME32_1), PRIME32_2), Add32(seed, PRIME32_2), seed, Sub32(seed, PRIME32_1))
  }

  function Round(acc: U32, input: U32): U32 {
    Mul32(Rotl32(Add32(acc, Mul32(input, PRIME32_2)), 13), PRIME32_1)
  }

  /** One 16-byte stripe of data at offset `at`. */
  function Rounds(v: Lanes, data: Bytes, at: nat): Lanes
    requires at + 16 <= |data|
  {
    Lanes(Round(v.v1, ReadLE32(data, at)), Round(v.v2, ReadLE32(data, at + 4)),
          Round(v.v3, ReadLE32(data, at + 8)), Round(v.v4, ReadLE32(data, at + 12)))
  }

  /** All whole stripes, front to back. */
  ghost function Absorbed(v: Lanes, data: Bytes): Lanes
    decreases |data|
  {
    if |data| < 16 then v else Absorbed(Rounds(v, data, 0), data[16..])
  }

  function Converge(v: Lanes): U32 {
    Add32(Add32(Add32(Rotl32(v.v1, 1), Rotl32(v.v2, 7)), Rotl32(v.v3, 12)), Rotl32(v.v4, 18))
  }

  function Avalanche(h: U32): U32 {
    var h1 := Mul32(Xor32(h, h / 0x8000), PRIME32_2);
    var h2 := Mul32(Xor32(h1, h1 / 0x2000), PRIME32_3);
    Xor32(h2, h2 / 0x1_0000)
  }

  function Process4(h: U32, word: U32): U32 {
    Mul32(Rotl32(Add32(h, Mul32(word, PRIME32_3)), 17), PRIME32_4)
  }

  function Process1(h: U32, byte: U8): U32 {
    Mul32(Rotl32(Add32(h, Mul32(byte, PRIME32_5)), 11), PRIME32_1)
  }

  /** The remaining bytes: words while there are four, then single bytes. */
  ghost function MixTail(h: U32, tail: Bytes): U32
    decreases |tail|
  {
    if |tail| >= 4 then MixTail(Process4(h, ReadLE32(tail, 0)), tail[4..])
    else if |tail| > 0 then MixTail(Process1(h, tail[0]), tail[1..])
    else h
  }

  /** XXH32 of a message, as the xxHash specification describes it in six steps. */
  ghost function Hash(seed: U32, msg: Bytes): U32 {
    var h := if |msg| >= 16 then Converge(Absorbed(Init(seed), msg)) else Add32(seed, PRIME32_5);
    Avalanche(MixTail(Add32(h, |msg| % TWO_32), msg[|msg| / 16 * 16..]))
  }

  // ---- Mixing the tail, two ways ----

  /** Mixing has reached offset p of the tail with hash h. */
  ghost predicate Mixed(h32: U32, tail: Bytes, h: U32, p: nat) {
    p <= |tail| && MixTail(h, tail[p..]) == MixTail(h32, tail)
  }

  /** XXH_PROCESS4 */
  method ProcessWord(h: U32, ptr: Bytes, p: nat, ghost h32: U32, ghost tail: Bytes) returns (h': U32, p': nat)
    requires tail <= ptr && p + 4 <= |tail| && Mixed(h32, tail, h, p)
    ensures p' == p + 4 && Mixed(h32, tail, h', p')
  {
    assert tail[p..][4..] == tail[p + 4..];
    assert ReadLE32(tail[p..], 0) == ReadLE32(ptr, p);
    h', p' := Process4(h, ReadLE32(ptr, p)), p + 4;
  }

  /** XXH_PROCESS1 */
  method ProcessByte(h: U32, ptr: Bytes, p: nat, ghost h32: U32, ghost tail: Bytes) returns (h': U32, p': nat)
    requires tail <= ptr && p < |tail| < p + 4 && Mixed(h32, tail, h, p)
    ensures p' == p + 1 && Mixed(h32, tail, h', p')
  {
    assert tail[p..][1..] == tail[p + 1..];
    h', p' := Process1(h, ptr[p]), p + 1;
  }

  /** XXH32_finalize(), rerolled. */
  method FinalizeRerolled(h32: U32, ptr: Bytes, len: nat) returns (r: U32)
    requires len % 16 <= |ptr|
    ensures r == Avalanche(MixTail(h32, ptr[..len % 16]))
  {
    var h, n, p := h32, len % 16, 0;
    ghost var tail := ptr[..n];
    while n >= 4
      invariant p + n == |tail| && Mixed(h32, tail, h, p)
    {
      h, p := ProcessWord(h, ptr, p, h32, tail);
      n := n - 4;
    }
    while n > 0
      invariant n < 4 && p + n == |tail| && Mixed(h32, tail, h, p)
    {
      h, p := ProcessByte(h, ptr, p, h32, tail);
      n := n - 1;
    }
    r := Avalanche(h);
  }

  /** XXH32_finalize(), unrolled: four chains of cases, each falling through. */
  method FinalizeUnrolled(h32: U32, ptr: Bytes, len: nat) returns (r: U32)
    requires len % 16 <= |ptr|
    ensures r == Avalanche(MixTail(h32, ptr[..len % 16]))
  {
    hide MixTail;
    var h, p, n := h32, 0, len % 16;
    ghost var tail := ptr[..n];
    if n in {12, 8, 4} {
      if n == 12 { h, p := ProcessWord(h, ptr, p, h32, tail); }
      if n >= 8 { h, p := ProcessWord(h, ptr, p, h32, tail); }
      h, p := ProcessWord(h, ptr, p, h32, tail);
    } else if n in {13, 9, 5} {
      if n == 13 { h, p := ProcessWord(h, ptr, p, h32, tail); }
      if n >= 9 { h, p := ProcessWord(h, ptr, p, h32, tail); }
      h, p := ProcessWord(h, ptr, p, h32, tail);
      h, p := ProcessByte(h, ptr, p, h32, tail);
    } else if n in {14, 10, 6} {
      if n == 14 { h, p := ProcessWord(h, ptr, p, h32, tail); }
      if n >= 10 { h, p := ProcessWord(h, ptr, p, h32, tail); }
      h, p := ProcessWord(h, ptr, p, h32, tail);
      h, p := ProcessByte(h, ptr, p, h32, tail);
      h, p := ProcessByte(h, ptr, p, h32, tail);
    } else {
      if n == 15 { h, p := ProcessWord(h, ptr, p, h32, tail); }
      if n >= 11 { h, p := ProcessWord(h, ptr, p, h32, tail); }
      if n >= 7 { h, p := ProcessWord(h, ptr, p, h32, tail); }
      if n >= 3 { h, p := ProcessByte(h, ptr, p, h32, tail); }
      if n >= 2 { h, p := ProcessByte(h, ptr, p, h32, tail); }
      if n >= 1 { h, p := ProcessByte(h, ptr, p, h32, tail); }
    }
    TailDone(h32, tail, h, p);
    r := Avalanche(h);
  }

  lemma TailDone(h32: U32, tail: Bytes, h: U32, p: nat)
    requires Mixed(h32, tail, h, p) && p == |tail|
    ensures h == MixTail(h32, tail)
  {
  }

  // ---- One-shot ----

  /** XXH32_endian_align(). */
  method OneShot(input: Bytes, seed: U32) returns (r: U32)
    ensures r == Hash(seed, input)
  {
    hide Absorbed, Converge, Avalanche, MixTail, Init;
    var p := 0;
    var h32;
    if |input| >= 16 {
      var v;
      v, p := AbsorbAll(input, seed);
      h32 := Converge(v);
    } else {
      h32 := Add32(seed, PRIME32_5);
    }
    h32 := Add32(h32, |input| % TWO_32);
    assert input[p..][..|input| % 16] == input[|input| / 16 * 16..];
    r := FinalizeUnrolled(h32, input[p..], |input| % 16);
  }

  /** The main loop of XXH32_endian_align(). */
  method AbsorbAll(input: Bytes, seed: U32) returns (v: Lanes, p: nat)
    requires |input| >= 16
    ensures p == |input| / 16 * 16 && v == Absorbed(Init(seed), input)
  {
    hide Rounds, Absorbed, Init;
    p := 0;
    v := Init(seed);
    var limit := |input| - 15;
    assert input[0..] == input;
    while true
      invariant 0 <= p < limit && p % 16 == 0
      invariant Absorbed(v, input[p..]) == Absorbed(Init(seed), input)
      decreases limit - p
    {
      AbsorbStep(v, input, p);
      v := Rounds(v, input, p);
      p := p + 16;
      if !(p < limit) { break; }
    }
    AbsorbNone(v, input[p..]);
  }

  lemma AbsorbNone(v: Lanes, data: Bytes)
    requires |data| < 16
    ensures Absorbed(v, data) == v
  {
  }

  lemma AbsorbStep(v: Lanes, data: Bytes, p: nat)
    requires p + 16 <= |data|
    ensures Absorbed(v, data[p..]) == Absorbed(Rounds(v, data, p), data[p + 16..])
  {
    assert data[p..][16..] == data[p + 16..];
    assert Rounds(v, data[p..], 0) == Rounds(v, data, p);
  }

  // ---- Streaming ----

  lemma {:induction false} AbsorbedAppend(v: Lanes, done: Bytes, more: Bytes)
    requires |done| % 16 == 0
    ensures Absorbed(v, done + more) == Absorbed(Absorbed(v, done), more)
    decreases |done|
  {
    hide Rounds;
    if |done| == 0 {
      assert done + more == more;
    } else {
      var v' := Rounds(v, done, 0);
      assert (done + more)[16..] == done[16..] + more;
      assert Rounds(v, done + more, 0) == v' by { RoundsPrefix(v, done, more); }
      AbsorbedAppend(v', done[16..], more);
    }
  }

  lemma RoundsSlice(v: Lanes, data: Bytes, p: nat)
    requires p + 16 <= |data|
    ensures Rounds(v, data[p..p + 16], 0) == Rounds(v, data, p)
  {
  }

  lemma RoundsPrefix(v: Lanes, a: Bytes, b: Bytes)
    requires |a| >= 16
    ensures Rounds(v, a + b, 0) == Rounds(v, a, 0)
  {
  }

  /** What the hash reads off the lanes and off the buffered rest. */
  lemma HashParts(seed: U32, done: Bytes, pending: Bytes)
    requires |done| % 16 == 0 && |pending| < 16
    ensures
      var m := done + pending;
      var lanes := Absorbed(Init(seed), done);
      var h := if |m| >= 16 then Converge(lanes) else Add32(lanes.v3, PRIME32_5);
      Hash(seed, m) == Avalanche(MixTail(Add32(h, |m| % TWO_32), pending))
  {
    hide Converge, MixTail, Avalanche, Rounds, Add32, Sub32;
    var m := done + pending;
    AbsorbedAppend(Init(seed), done, pending);
    assert Absorbed(Absorbed(Init(seed), done), pending) == Absorbed(Init(seed), done);
    assert |m| / 16 * 16 == |done|;
    assert m[|done|..] == pending;
    if |m| < 16 {
      assert Absorbed(Init(seed), done) == Init(seed);
    }
  }

  /** The wrapping counter and the flag together know whether 16 bytes were seen. */
  lemma CountWraps(fed: nat, len: nat)
    ensures Add32(fed % TWO_32, len % TWO_32) == (fed + len) % TWO_32
    ensures fed + len >= 16 <==> fed >= 16 || len >= 16 || (fed + len) % TWO_32 >= 16
  {
    WrapAdd32(fed, len % TWO_32);
    WrapAdd32(len, fed);
    if fed < 16 && len < 16 {
      assert (fed + len) % TWO_32 == fed + len;
    }
  }

  /** XXH32_state_t. */
  class State {
    var totalLen32: U32
    var largeLen: bool
    var v1: U32
    var v2: U32
    var v3: U32
    var v4: U32
    const mem32: array<U8>
    var memsize: nat

    /** The seed, the bytes in the lanes and the bytes in mem32. */
    ghost var seed: U32
    ghost var done: Bytes
    ghost var pending: Bytes

    ghost function Fed(): Bytes
      reads this
    {
      done + pending
    }

    ghost predicate LanesHold()
      reads this`v1, this`v2, this`v3, this`v4, this`seed, this`done
    {
      && |done| % 16 == 0
      && Lanes(v1, v2, v3, v4) == Absorbed(Init(seed), done)
    }

    ghost predicate BufferHolds()
      reads this`memsize, this`pending, mem32
    {
      && mem32.Length == 16
      && memsize == |pending| < 16
      && pending <= mem32[..]
    }

    /** The 32-bit length wraps; the flag remembers that 16 bytes were seen. */
    ghost predicate Ready()
      reads this, mem32
    {
      && LanesHold() && BufferHolds()
      && totalLen32 == |Fed()| % TWO_32
      && (largeLen <==> |Fed()| >= 16)
    }

    /** XXH32_createState() followed by XXH32_reset(). */
    constructor (seed: U32)
      ensures Ready() && this.seed == seed && Fed() == [] && fresh(mem32)
    {
      mem32 := new U8[16](_ => 0);
      new;
      Reset(seed);
    }

    /** XXH32_reset(). */
    method Reset(seed: U32)
      requires mem32.Length == 16
      modifies this
      ensures Ready() && this.seed == seed && Fed() == []
    {
      var v := Init(seed);
      v1, v2, v3, v4 := v.v1, v.v2, v.v3, v.v4;
      totalLen32, largeLen, memsize := 0, false, 0;
      this.seed, done, pending := seed, [], [];
    }

    /** Mixes one 16-byte stripe into the lanes. */
    method RoundsAt(data: Bytes, p: nat)
      requires LanesHold() && p + 16 <= |data|
      modifies this`v1, this`v2, this`v3, this`v4, this`done
      ensures LanesHold() && done == old(done) + data[p..p + 16]
    {
      hide Rounds, Init;
      AbsorbedAppend(Init(seed), done, data[p..p + 16]);
      AbsorbStep(Lanes(v1, v2, v3, v4), data[p..p + 16], 0);
      assert data[p..p + 16][0..] == data[p..p + 16];
      RoundsSlice(Lanes(v1, v2, v3, v4), data, p);
      var v := Rounds(Lanes(v1, v2, v3, v4), data, p);
      v1, v2, v3, v4 := v.v1, v.v2, v.v3, v.v4;
      done := done + data[p..p + 16];
    }

    /** XXH32_update(). */
    method Update(input: Option<Bytes>) returns (code: ErrorCode)
      requires Ready()
      modifies this, mem32
      ensures Ready() && seed == old(seed)
      ensures code == ERROR <==> input == None
      ensures Fed() == old(Fed()) + (if input.Some? then input.value else [])
    {
      if input == None { return ERROR; }
      Feed(input.value);
      return OK;
    }

    method Feed(input: Bytes)
      requires Ready()
      modifies this, mem32
      ensures Ready() && seed == old(seed) && Fed() == old(Fed()) + input
    {
      hide LanesHold, BufferHolds;
      var len := |input|;
      CountWraps(|Fed()|, len);
      totalLen32 := Add32(totalLen32, len % TWO_32);
      largeLen := largeLen || len >= 16 || totalLen32 >= 16;
      if memsize + len < 16 {
        FeedShort(input);
      } else {
        FeedLong(input);
      }
    }

    /** Input that completes no stripe. */
    method FeedShort(input: Bytes)
      requires BufferHolds() && memsize + |input| < 16
      modifies this`pending, this`memsize, mem32
      ensures BufferHolds() && Fed() == old(Fed()) + input
    {
      hide Overlay;
      CopyInto(mem32, memsize, input);
      Appended(old(mem32[..]), pending, input);
      memsize := memsize + |input|;
      pending := pending + input;
      assert done + pending == old(done + pending) + input;
    }

    /** Input that completes at least one stripe. */
    method FeedLong(input: Bytes)
      requires LanesHold() && BufferHolds() && memsize + |input| >= 16
      modifies this`v1, this`v2, this`v3, this`v4, this`done, this`pending, this`memsize, mem32
      ensures LanesHold() && BufferHolds()
      ensures Fed() == old(Fed()) + input
    {
      hide LanesHold;
      var from := CompleteStripe(input);
      var p := ConsumeStripes(input, from);
      ParkTail(input, p);
      Regroup(old(done), old(pending), input, from, p);
    }

    /** Fills up and consumes a partial stripe. */
    method CompleteStripe(input: Bytes) returns (p: nat)
      requires LanesHold() && BufferHolds() && memsize + |input| >= 16
      modifies this`v1, this`v2, this`v3, this`v4, this`done, this`pending, this`memsize, mem32
      ensures LanesHold() && BufferHolds() && pending == []
      ensures p <= |input| && done == old(done) + old(pending) + input[..p]
    {
      hide Absorbed, Init, Overlay;
      p := 0;
      if memsize > 0 {
        p := 16 - memsize;
        CopyInto(mem32, memsize, input[..p]);
        Filled(old(mem32[..]), pending, input[..p]);
        RoundsAt(mem32[..], 0);
        assert mem32[..][0..16] == mem32[..];
        memsize, pending := 0, [];
      }
    }

    /** Consumes whole stripes straight from the input. */
    method ConsumeStripes(input: Bytes, from: nat) returns (p: nat)
      requires LanesHold() && from <= |input|
      modifies this`v1, this`v2, this`v3, this`v4, this`done
      ensures LanesHold() && from <= p <= |input| < p + 16 && done == old(done) + input[from..p]
    {
      hide Absorbed, Init;
      p := from;
      if p + 16 <= |input| {
        var limit := |input| - 16;
        while true
          invariant from <= p <= limit
          invariant LanesHold() && done == old(done) + input[from..p]
          decreases |input| - p
        {
          RoundsAt(input, p);
          assert input[from..p] + input[p..p + 16] == input[from..p + 16];
          p := p + 16;
          if !(p <= limit) { break; }
        }
      }
    }

    /** Keeps what is left for later. */
    method ParkTail(input: Bytes, p: nat)
      requires BufferHolds() && pending == [] && p <= |input| < p + 16
      modifies this`pending, this`memsize, mem32
      ensures BufferHolds() && pending == input[p..]
    {
      if p < |input| {
        ghost var buf := mem32[..];
        CopyInto(mem32, 0, input[p..]);
        Appended(buf, [], input[p..]);
        assert [] + input[p..] == input[p..];
        memsize, pending := |input| - p, input[p..];
      }
    }

    /** XXH32_digest(): the one-shot hash of everything fed, at any length. */
    method Digest() returns (r: U32)
      requires Ready()
      ensures r == Hash(seed, Fed())
    {
      hide Converge, Absorbed, Init, MixTail, Avalanche, Hash;
      HashParts(seed, done, pending);
      var h32;
      if largeLen {
        h32 := Converge(Lanes(v1, v2, v3, v4));
      } else {
        h32 := Add32(v3, PRIME32_5);
      }
      h32 := Add32(h32, totalLen32);
      assert mem32[..][..memsize % 16] == pending;
      r := FinalizeUnrolled(h32, mem32[..], memsize);
    }
  }

  /** However a message is cut into pieces, streaming gives the one-shot hash. */
  method HashInPieces(seed: U32, pieces: seq<Bytes>) returns (r: U32)
    ensures r == Hash(seed, Concat(pieces))
  {
    var st := new State(seed);
    for i := 0 to |pieces|
      invariant fresh(st) && fresh(st.mem32)
      invariant st.Ready() && st.seed == seed && st.Fed() == Concat(pieces[..i])
    {
      assert pieces[..i + 1][..i] == pieces[..i];
      st.Feed(pieces[i]);
    }
    assert pieces[..|pieces|] == pieces;
    r := st.Digest();
  }
}
