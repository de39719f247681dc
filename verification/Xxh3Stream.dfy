/**
  XXH3's long-input machinery: the block loop of the one-shot hash and the
  buffered streaming state, both proved against one stripe-at-a-time definition.

  The kernels (accumulate one stripe, scramble the lanes, derive a secret from a
  seed) are function values, as they are in the source, so every result here
  holds whichever kernels are plugged in; module Xxh3Kernels defines the scalar
  and vector ones and proves them equal.
 */
module Xxh3Stream {
  import opened Buffers
  import opened Options
  import opened Machine
  import Xxh32
  import Xxh64

  const STRIPE_LEN: nat := 64
  const SECRET_CONSUME_RATE: nat := 8
  const SECRET_SIZE_MIN: nat := 136
  const SECRET_DEFAULT_SIZE: nat := 192
  const SECRET_LASTACC_START: nat := 7
  const MIDSIZE_MAX: nat := 240
  const INTERNALBUFFER_SIZE: nat := 256
  const INTERNALBUFFER_STRIPES: nat := INTERNALBUFFER_SIZE / STRIPE_LEN

  /** The eight accumulator lanes. */
  type Acc = a: seq<U64> | |a| == 8 witness seq(8, _ => 0)

  /** One stripe of input or of secret. */
  type Block64 = b: Bytes | |b| == STRIPE_LEN witness seq(STRIPE_LEN, _ => 0)

  /** A secret of the default size. */
  type DefaultSecret = s: Bytes | |s| == SECRET_DEFAULT_SIZE witness seq(SECRET_DEFAULT_SIZE, _ => 0)

  /** A secret long enough for hashing. */
  type Secret = s: Bytes | |s| >= SECRET_SIZE_MIN witness seq(SECRET_SIZE_MIN, _ => 0)

  /** The interchangeable inner functions: f_acc512, f_scramble and f_initSec. */
  datatype Kernel = Kernel(
    accumulate512: (Acc, Block64, Block64) -> Acc,
    scramble: (Acc, Block64) -> Acc,
    initCustomSecret: U64 -> DefaultSecret,
    defaultSecret: DefaultSecret)

  /** What distinguishes the 64-bit and the 128-bit hash: the hash of a short
      input, and how the lanes converge into the result. */
  datatype Variant<!H> = Variant(
    shortHash: (Bytes, U64, Bytes) -> H,
    merge: (Acc, Bytes, nat) -> H)

  const INIT_ACC: Acc := [
    Xxh32.PRIME32_3, Xxh64.PRIME64_1, Xxh64.PRIME64_2, Xxh64.PRIME64_3,
    Xxh64.PRIME64_4, Xxh32.PRIME32_2, Xxh64.PRIME64_5, Xxh32.PRIME32_1]

  function StripesPerBlock(secret: Secret): (n: nat)
    ensures 9 <= n && STRIPE_LEN + n * SECRET_CONSUME_RATE <= |secret|
  {
    (|secret| - STRIPE_LEN) / SECRET_CONSUME_RATE
  }

  // ---- The reference: one stripe at a time ----

  /** Accumulators and the position inside the current block. */
  datatype Cursor = Cursor(acc: Acc, soFar: nat)

  /** Absorbs one stripe; closing a block scrambles the lanes. */
  ghost function Absorb(k: Kernel, secret: Secret, c: Cursor, stripe: Block64): Cursor
    requires c.soFar < StripesPerBlock(secret)
  {
    var off := c.soFar * SECRET_CONSUME_RATE;
    var acc := k.accumulate512(c.acc, stripe, secret[off..off + STRIPE_LEN]);
    if c.soFar + 1 == StripesPerBlock(secret) then
      Cursor(k.scramble(acc, secret[|secret| - STRIPE_LEN..]), 0)
    else
      Cursor(acc, c.soFar + 1)
  }

  /** The n-th 64-byte stripe of a message. */
  function Stripe(msg: Bytes, n: nat): Block64
    requires (n + 1) * STRIPE_LEN <= |msg|
  {
    msg[n * STRIPE_LEN..(n + 1) * STRIPE_LEN]
  }

  /** The cursor after the first n stripes of a message. */
  ghost function Run(k: Kernel, secret: Secret, msg: Bytes, n: nat): (c: Cursor)
    requires n * STRIPE_LEN <= |msg|
    ensures c.soFar < StripesPerBlock(secret)
  {
    if n == 0 then Cursor(INIT_ACC, 0)
    else Absorb(k, secret, Run(k, secret, msg, n - 1), Stripe(msg, n - 1))
  }

  /** The lanes of a long message: every stripe that leaves at least one byte
      behind, then the last 64 bytes under their own piece of the secret. */
  ghost function LongAcc(k: Kernel, secret: Secret, msg: Bytes): Acc
    requires |msg| > STRIPE_LEN
  {
    LastStripe(k, secret, Run(k, secret, msg, (|msg| - 1) / STRIPE_LEN).acc, msg[|msg| - STRIPE_LEN..])
  }

  ghost function LastStripe(k: Kernel, secret: Secret, acc: Acc, stripe: Block64): Acc {
    var off := |secret| - STRIPE_LEN - SECRET_LASTACC_START;
    k.accumulate512(acc, stripe, secret[off..off + STRIPE_LEN])
  }

  lemma LastStripeAt(k: Kernel, secret: Secret, acc: Acc, stripe: Block64, off: nat)
    requires off == |secret| - STRIPE_LEN - SECRET_LASTACC_START
    ensures LastStripe(k, secret, acc, stripe) == k.accumulate512(acc, stripe, secret[off..off + STRIPE_LEN])
  {
  }

  /** How a hash is keyed. */
  datatype Mode = Default | WithSeed(seed: U64) | WithSecret(secret: Secret)

  /** The seed and secret handed to the short-input hash. */
  ghost function ShortKey(k: Kernel, mode: Mode): (U64, Bytes) {
    match mode
    case Default => (0, k.defaultSecret)
    case WithSeed(seed) => (seed, k.defaultSecret)
    case WithSecret(secret) => (0, secret)
  }

  /** The secret used for long inputs. */
  ghost function LongSecret(k: Kernel, mode: Mode): Secret {
    match mode
    case Default => k.defaultSecret
    case WithSeed(seed) => if seed == 0 then k.defaultSecret else k.initCustomSecret(seed)
    case WithSecret(secret) => secret
  }

  /** The hash of a whole message: the meaning every implementation must meet. */
  ghost function Hash<H>(k: Kernel, v: Variant<H>, mode: Mode, msg: Bytes): H {
    if |msg| <= MIDSIZE_MAX then
      var (seed, secret) := ShortKey(k, mode);
      v.shortHash(msg, seed, secret)
    else
      var secret := LongSecret(k, mode);
      v.merge(LongAcc(k, secret, msg), secret, |msg|)
  }

  /** Which seed and secret reach the hash, in each mode. */
  lemma HashByMode<H>(k: Kernel, v: Variant<H>, seed: U64, secret: Secret, msg: Bytes)
    ensures |msg| <= 240 ==>
      && Hash(k, v, Default, msg) == v.shortHash(msg, 0, k.defaultSecret)
      && Hash(k, v, WithSeed(seed), msg) == v.shortHash(msg, seed, k.defaultSecret)
      && Hash(k, v, WithSecret(secret), msg) == v.shortHash(msg, 0, secret)
    ensures |msg| > 240 ==>
      && Hash(k, v, Default, msg) == v.merge(LongAcc(k, k.defaultSecret, msg), k.defaultSecret, |msg|)
      && Hash(k, v, WithSecret(secret), msg) == v.merge(LongAcc(k, secret, msg), secret, |msg|)
      && (seed != 0 ==>
            var custom := k.initCustomSecret(seed);
            Hash(k, v, WithSeed(seed), msg) == v.merge(LongAcc(k, custom, msg), custom, |msg|))
    ensures Hash(k, v, WithSeed(0), msg) == Hash(k, v, WithSecret(k.defaultSecret), msg) == Hash(k, v, Default, msg)
  {
  }

  // ---- Facts about runs ----

  /** A run only looks at the stripes it consumes. */
  lemma {:induction false} RunExtend(k: Kernel, secret: Secret, msg: Bytes, more: Bytes, n: nat)
    requires n * STRIPE_LEN <= |msg|
    ensures Run(k, secret, msg + more, n) == Run(k, secret, msg, n)
  {
    if n > 0 {
      RunExtend(k, secret, msg, more, n - 1);
      assert Stripe(msg + more, n - 1) == Stripe(msg, n - 1);
    }
  }

  // ---- The one-shot loop ----

  /** n stripes of input starting at block position `from`, never scrambling. */
  ghost function Accumulated(k: Kernel, secret: Secret, acc: Acc, input: Bytes, from: nat, n: nat): Acc
    requires n * STRIPE_LEN <= |input|
    requires from + n <= StripesPerBlock(secret)
  {
    if n == 0 then acc
    else
      var off := (from + n - 1) * SECRET_CONSUME_RATE;
      k.accumulate512(Accumulated(k, secret, acc, input, from, n - 1), Stripe(input, n - 1),
                      secret[off..off + STRIPE_LEN])
  }

  /** XXH3_accumulate(): the secret advances 8 bytes per stripe. */
  method Accumulate(k: Kernel, secret: Secret, acc: Acc, input: Bytes, from: nat, nbStripes: nat) returns (r: Acc)
    requires nbStripes * STRIPE_LEN <= |input|
    requires from + nbStripes <= StripesPerBlock(secret)
    ensures r == Accumulated(k, secret, acc, input, from, nbStripes)
  {
    r := acc;
    for n := 0 to nbStripes
      invariant r == Accumulated(k, secret, acc, input, from, n)
    {
      var off := (from + n) * SECRET_CONSUME_RATE;
      r := k.accumulate512(r, input[n * STRIPE_LEN..(n + 1) * STRIPE_LEN], secret[off..off + STRIPE_LEN]);
    }
  }

  /** Accumulating inside a block is a run; at the block's end the run has
      scrambled as well. */
  lemma {:induction false} AccumulatedIsRun(k: Kernel, secret: Secret, msg: Bytes, at: nat, input: Bytes, n: nat)
    requires (at + n) * STRIPE_LEN <= |msg| && n * STRIPE_LEN <= |input|
    requires forall i :: 0 <= i < n ==> Stripe(input, i) == Stripe(msg, at + i)
    requires Run(k, secret, msg, at).soFar + n <= StripesPerBlock(secret)
    ensures
      var c := Run(k, secret, msg, at);
      var acc := Accumulated(k, secret, c.acc, input, c.soFar, n);
      Run(k, secret, msg, at + n) ==
        if n > 0 && c.soFar + n == StripesPerBlock(secret)
        then Cursor(k.scramble(acc, secret[|secret| - STRIPE_LEN..]), 0)
        else Cursor(acc, c.soFar + n)
  {
    hide Stripe, StripesPerBlock, Run, Accumulated;
    var c := Run(k, secret, msg, at);
    if n == 0 {
      assert Accumulated(k, secret, c.acc, input, c.soFar, 0) == c.acc by { NoneAccumulated(k, secret, c, input); }
    } else {
      AccumulatedIsRun(k, secret, msg, at, input, n - 1);
      assert Stripe(input, n - 1) == Stripe(msg, at + (n - 1));
      OneMoreAccumulated(k, secret, c, input, n - 1);
      OneMoreRun(k, secret, msg, at + (n - 1));
    }
  }

  lemma NoneAccumulated(k: Kernel, secret: Secret, c: Cursor, input: Bytes)
    requires c.soFar <= StripesPerBlock(secret)
    ensures Accumulated(k, secret, c.acc, input, c.soFar, 0) == c.acc
  {
  }

  lemma OneMoreAccumulated(k: Kernel, secret: Secret, c: Cursor, input: Bytes, n: nat)
    requires (n + 1) * STRIPE_LEN <= |input| && c.soFar + n + 1 <= StripesPerBlock(secret)
    ensures
      var off := (c.soFar + n) * SECRET_CONSUME_RATE;
      Accumulated(k, secret, c.acc, input, c.soFar, n + 1) ==
        k.accumulate512(Accumulated(k, secret, c.acc, input, c.soFar, n), Stripe(input, n),
                        secret[off..off + STRIPE_LEN])
  {
  }

  lemma OneMoreRun(k: Kernel, secret: Secret, msg: Bytes, n: nat)
    requires (n + 1) * STRIPE_LEN <= |msg|
    ensures Run(k, secret, msg, n + 1) == Absorb(k, secret, Run(k, secret, msg, n), Stripe(msg, n))
  {
  }

  /** XXH3_hashLong_internal_loop(): whole blocks, a partial block, the last stripe. */
  method HashLongInternalLoop(k: Kernel, secret: Secret, input: Bytes) returns (acc: Acc)
    requires |input| > STRIPE_LEN
    ensures acc == LongAcc(k, secret, input)
  {
    hide Run, Accumulated;
    var nbStripesPerBlock := (|secret| - STRIPE_LEN) / SECRET_CONSUME_RATE;
    var blockLen := STRIPE_LEN * nbStripesPerBlock;
    var nbBlocks := (|input| - 1) / blockLen;
    BlockCount(|input| - 1, nbStripesPerBlock);
    acc := INIT_ACC;
    RunStart(k, secret, input);
    for n := 0 to nbBlocks
      invariant n * blockLen <= |input|
      invariant IsRun(k, secret, input, n * nbStripesPerBlock, Cursor(acc, 0))
    {
      BlockFits(n, nbBlocks, nbStripesPerBlock);
      FullBlock(k, secret, input, n * nbStripesPerBlock, acc);
      acc := Accumulate(k, secret, acc, input[n * blockLen..], 0, nbStripesPerBlock);
      acc := k.scramble(acc, secret[|secret| - STRIPE_LEN..]);
    }
    var nbStripes := ((|input| - 1) - blockLen * nbBlocks) / STRIPE_LEN;
    PartialBlock(k, secret, input, nbBlocks * nbStripesPerBlock, acc, nbStripes);
    acc := Accumulate(k, secret, acc, input[nbBlocks * blockLen..], 0, nbStripes);
    var off := |secret| - STRIPE_LEN - SECRET_LASTACC_START;
    acc := k.accumulate512(acc, input[|input| - STRIPE_LEN..], secret[off..off + STRIPE_LEN]);
  }

  ghost predicate IsRun(k: Kernel, secret: Secret, msg: Bytes, n: nat, c: Cursor) {
    n * STRIPE_LEN <= |msg| && Run(k, secret, msg, n) == c
  }

  lemma RunStart(k: Kernel, secret: Secret, msg: Bytes)
    ensures IsRun(k, secret, msg, 0, Cursor(INIT_ACC, 0))
  {
  }

  lemma FullBlock(k: Kernel, secret: Secret, input: Bytes, at: nat, acc: Acc)
    requires IsRun(k, secret, input, at, Cursor(acc, 0))
    requires (at + StripesPerBlock(secret)) * STRIPE_LEN <= |input|
    ensures
      var next := Accumulated(k, secret, acc, input[at * STRIPE_LEN..], 0, StripesPerBlock(secret));
      var scrambled := k.scramble(next, secret[|secret| - STRIPE_LEN..]);
      IsRun(k, secret, input, at + StripesPerBlock(secret), Cursor(scrambled, 0))
  {
    SlicedStripes(input, at * STRIPE_LEN, at, StripesPerBlock(secret));
    AccumulatedIsRun(k, secret, input, at, input[at * STRIPE_LEN..], StripesPerBlock(secret));
  }

  lemma PartialBlock(k: Kernel, secret: Secret, input: Bytes, at: nat, acc: Acc, n: nat)
    requires IsRun(k, secret, input, at, Cursor(acc, 0))
    requires (at + n) * STRIPE_LEN <= |input|
    requires n < StripesPerBlock(secret)
    ensures IsRun(k, secret, input, at + n, Cursor(Accumulated(k, secret, acc, input[at * STRIPE_LEN..], 0, n), n))
  {
    SlicedStripes(input, at * STRIPE_LEN, at, n);
    AccumulatedIsRun(k, secret, input, at, input[at * STRIPE_LEN..], n);
  }

  /** Splitting a stripe count into blocks. */
  lemma BlockCount(last: nat, perBlock: nat)
    requires perBlock > 0
    ensures
      var blockLen := STRIPE_LEN * perBlock;
      var nb := last / blockLen;
      && 0 <= nb
      && nb * blockLen == nb * perBlock * STRIPE_LEN <= last
      && nb * perBlock + (last - blockLen * nb) / STRIPE_LEN == last / STRIPE_LEN
      && 0 <= (last - blockLen * nb) / STRIPE_LEN < perBlock
  {
    var blockLen := STRIPE_LEN * perBlock;
    var nb, rest := last / blockLen, last % blockLen;
    Remainder(last, blockLen);
    Regrouped(nb, perBlock);
    StripesOf(nb * perBlock, rest, last);
    assert rest < STRIPE_LEN * perBlock;
  }

  lemma Regrouped(nb: nat, perBlock: nat)
    ensures STRIPE_LEN * perBlock * nb == nb * (STRIPE_LEN * perBlock) == nb * perBlock * STRIPE_LEN
  {
  }

  lemma StripesOf(p: nat, rest: nat, last: nat)
    requires last == p * STRIPE_LEN + rest
    ensures last / STRIPE_LEN == p + rest / STRIPE_LEN
  {
  }

  lemma BlockFits(n: nat, nb: nat, perBlock: nat)
    requires n < nb
    ensures (n + 1) * perBlock == n * perBlock + perBlock <= nb * perBlock
    ensures n * (STRIPE_LEN * perBlock) == n * perBlock * STRIPE_LEN
    ensures (n + 1) * (STRIPE_LEN * perBlock) == (n + 1) * perBlock * STRIPE_LEN
  {
    assert n * perBlock + perBlock == (n + 1) * perBlock;
    assert (n + 1) * perBlock <= nb * perBlock;
  }

  /** Stripes of a suffix are stripes of the whole. */
  lemma SlicedStripes(msg: Bytes, from: nat, at: nat, n: nat)
    requires from == at * STRIPE_LEN && (at + n) * STRIPE_LEN <= |msg|
    ensures forall i :: 0 <= i < n ==> Stripe(msg[from..], i) == Stripe(msg, at + i)
  {
  }

  /** XXH3_hashLong_64b_internal() and its 128-bit sibling. */
  method HashLong<H>(k: Kernel, v: Variant<H>, input: Bytes, secret: Secret) returns (h: H)
    requires |input| > STRIPE_LEN
    ensures h == v.merge(LongAcc(k, secret, input), secret, |input|)
  {
    var acc := HashLongInternalLoop(k, secret, input);
    h := v.merge(acc, secret, |input|);
  }

  /** XXH3_64bits(). */
  method OneShotDefault<H>(k: Kernel, v: Variant<H>, input: Bytes) returns (h: H)
    ensures h == Hash(k, v, Default, input)
  {
    if |input| <= MIDSIZE_MAX { return v.shortHash(input, 0, k.defaultSecret); }
    h := HashLong(k, v, input, k.defaultSecret);
  }

  /** XXH3_64bits_withSecret(). */
  method OneShotWithSecret<H>(k: Kernel, v: Variant<H>, input: Bytes, secret: Secret) returns (h: H)
    ensures h == Hash(k, v, WithSecret(secret), input)
  {
    if |input| <= MIDSIZE_MAX { return v.shortHash(input, 0, secret); }
    h := HashLong(k, v, input, secret);
  }

  /** XXH3_64bits_withSeed(): long inputs get a secret of their own, unless the seed is 0. */
  method OneShotWithSeed<H>(k: Kernel, v: Variant<H>, input: Bytes, seed: U64) returns (h: H)
    ensures h == Hash(k, v, WithSeed(seed), input)
  {
    if |input| <= MIDSIZE_MAX { return v.shortHash(input, seed, k.defaultSecret); }
    if seed == 0 {
      h := HashLong(k, v, input, k.defaultSecret);
    } else {
      var secret := k.initCustomSecret(seed);
      h := HashLong(k, v, input, secret);
    }
  }

  // ---- Streaming ----

  /** The cursor after all whole stripes of a message. */
  ghost function RunAll(k: Kernel, secret: Secret, done: Bytes): (c: Cursor)
    ensures c.soFar < StripesPerBlock(secret)
  {
    Run(k, secret, done, |done| / STRIPE_LEN)
  }

  /** XXH3_consumeStripes(): extends a run by at most one block, so it scrambles
      at most once. */
  method ConsumeStripes(k: Kernel, secret: Secret, secretLimit: nat, nbStripesPerBlock: nat,
                        acc: Acc, soFar: nat, input: Bytes, nbStripes: nat, ghost done: Bytes)
    returns (acc': Acc, soFar': nat)
    requires secretLimit == |secret| - STRIPE_LEN && nbStripesPerBlock == StripesPerBlock(secret)
    requires nbStripes <= nbStripesPerBlock
    requires nbStripes * STRIPE_LEN <= |input| && |done| % STRIPE_LEN == 0
    requires RunAll(k, secret, done) == Cursor(acc, soFar)
    ensures RunAll(k, secret, done + input[..nbStripes * STRIPE_LEN]) == Cursor(acc', soFar')
  {
    hide RunAll, Accumulated, Stripe;
    if nbStripesPerBlock - soFar <= nbStripes {
      var nbStripesToEndofBlock := nbStripesPerBlock - soFar;
      var nbStripesAfterBlock := nbStripes - nbStripesToEndofBlock;
      RunAcrossBlockEnd(k, secret, done, input, nbStripes);
      acc' := Accumulate(k, secret, acc, input, soFar, nbStripesToEndofBlock);
      acc' := k.scramble(acc', secret[secretLimit..]);
      acc' := Accumulate(k, secret, acc', input[nbStripesToEndofBlock * STRIPE_LEN..], 0, nbStripesAfterBlock);
      soFar' := nbStripesAfterBlock;
    } else {
      RunWithinBlock(k, secret, done, input, nbStripes);
      acc' := Accumulate(k, secret, acc, input, soFar, nbStripes);
      soFar' := soFar + nbStripes;
    }
  }

  lemma {:induction false} RunWithinBlock(k: Kernel, secret: Secret, done: Bytes, input: Bytes, n: nat)
    requires n * STRIPE_LEN <= |input| && |done| % STRIPE_LEN == 0
    requires RunAll(k, secret, done).soFar + n < StripesPerBlock(secret)
    ensures
      var c := RunAll(k, secret, done);
      RunAll(k, secret, done + input[..n * STRIPE_LEN]) ==
        Cursor(Accumulated(k, secret, c.acc, input, c.soFar, n), c.soFar + n)
  {
    hide Stripe, Run, Accumulated;
    var at := |done| / STRIPE_LEN;
    RunExtend(k, secret, done, input[..n * STRIPE_LEN], at);
    AppendedStripes(done, input, n);
    AccumulatedIsRun(k, secret, done + input[..n * STRIPE_LEN], at, input, n);
  }

  lemma {:induction false} RunToBlockEnd(k: Kernel, secret: Secret, done: Bytes, input: Bytes, n: nat)
    requires 0 < n && n * STRIPE_LEN <= |input| && |done| % STRIPE_LEN == 0
    requires RunAll(k, secret, done).soFar + n == StripesPerBlock(secret)
    ensures
      var c := RunAll(k, secret, done);
      RunAll(k, secret, done + input[..n * STRIPE_LEN]) ==
        Cursor(k.scramble(Accumulated(k, secret, c.acc, input, c.soFar, n), secret[|secret| - STRIPE_LEN..]), 0)
  {
    hide Stripe, Run, Accumulated;
    var at := |done| / STRIPE_LEN;
    RunExtend(k, secret, done, input[..n * STRIPE_LEN], at);
    AppendedStripes(done, input, n);
    AccumulatedIsRun(k, secret, done + input[..n * STRIPE_LEN], at, input, n);
  }

  lemma {:induction false} RunAcrossBlockEnd(k: Kernel, secret: Secret, done: Bytes, input: Bytes, n: nat)
    requires n <= StripesPerBlock(secret)
    requires n * STRIPE_LEN <= |input| && |done| % STRIPE_LEN == 0
    requires StripesPerBlock(secret) <= RunAll(k, secret, done).soFar + n
    ensures
      var c := RunAll(k, secret, done);
      var toEnd := StripesPerBlock(secret) - c.soFar;
      var full := Accumulated(k, secret, c.acc, input, c.soFar, toEnd);
      var scrambled := k.scramble(full, secret[|secret| - STRIPE_LEN..]);
      RunAll(k, secret, done + input[..n * STRIPE_LEN]) ==
        Cursor(Accumulated(k, secret, scrambled, input[toEnd * STRIPE_LEN..], 0, n - toEnd), n - toEnd)
  {
    hide RunAll, Accumulated;
    var toEnd := StripesPerBlock(secret) - RunAll(k, secret, done).soFar;
    var split := toEnd * STRIPE_LEN;
    RunToBlockEnd(k, secret, done, input, toEnd);
    RunWithinBlock(k, secret, done + input[..split], input[split..], n - toEnd);
    assert input[..n * STRIPE_LEN] == input[..split] + input[split..][..(n - toEnd) * STRIPE_LEN];
    assert done + input[..n * STRIPE_LEN] == done + input[..split] + input[split..][..(n - toEnd) * STRIPE_LEN];
  }

  lemma AppendedStripes(done: Bytes, input: Bytes, n: nat)
    requires n * STRIPE_LEN <= |input| && |done| % STRIPE_LEN == 0
    ensures
      var msg := done + input[..n * STRIPE_LEN];
      var at := |done| / STRIPE_LEN;
      && |msg| == (at + n) * STRIPE_LEN && |msg| / STRIPE_LEN == at + n
      && forall i :: 0 <= i < n ==> Stripe(input, i) == Stripe(msg, at + i)
  {
  }

  /** The buffer's last stripe, from index `from` on, still shows the last bytes
      of `done`. */
  ghost predicate TailKept(buf: Bytes, done: Bytes, from: nat) {
    && |buf| == INTERNALBUFFER_SIZE <= |done|
    && forall i :: INTERNALBUFFER_SIZE - STRIPE_LEN <= i < INTERNALBUFFER_SIZE && from <= i
         ==> buf[i] == done[|done| - INTERNALBUFFER_SIZE + i]
  }

  /** The buffer starts with the pending bytes; once something was consumed, some
      byte is pending and what the last stripe may need is behind it. */
  ghost predicate Carries(buf: Bytes, done: Bytes, pending: Bytes) {
    && |buf| == INTERNALBUFFER_SIZE
    && pending <= buf
    && (done != [] ==> pending != [] && TailKept(buf, done, |pending|))
  }

  lemma CarriesAppended(buf: Bytes, done: Bytes, pending: Bytes, input: Bytes)
    requires Carries(buf, done, pending) && |pending| + |input| <= INTERNALBUFFER_SIZE
    ensures Carries(Overlay(buf, |pending|, input), done, pending + input)
  {
  }

  /** A buffer that was consumed whole, or had the last stripe parked at its end,
      carries the rest once it is copied to the front. */
  lemma CarriesRest(buf: Bytes, done: Bytes, rest: Bytes)
    requires 0 < |rest| <= INTERNALBUFFER_SIZE
    requires TailKept(buf, done, 0)
    ensures Carries(Overlay(buf, 0, rest), done, rest)
  {
  }

  lemma WholeBuffers(n: nat)
    requires n % INTERNALBUFFER_SIZE == 0
    ensures n % STRIPE_LEN == 0 && (n + INTERNALBUFFER_SIZE) % INTERNALBUFFER_SIZE == 0
  {
  }

  lemma SuffixOfSlice(mid: Bytes, input: Bytes, from: nat, p: nat)
    requires from + STRIPE_LEN <= p <= |input|
    ensures
      var done := mid + input[from..p];
      done[|done| - STRIPE_LEN..] == input[p - STRIPE_LEN..p]
  {
  }

  lemma ParkedTail(buf: Bytes, done: Bytes)
    requires |buf| == INTERNALBUFFER_SIZE <= |done|
    ensures TailKept(Overlay(buf, INTERNALBUFFER_SIZE - STRIPE_LEN, done[|done| - STRIPE_LEN..]), done, 0)
  {
  }

  /** XXH3_state_t. The kernels are fixed for the life of the state. */
  class State {
    const k: Kernel
    const buffer: array<U8>
    var acc: Acc
    var customSecret: DefaultSecret
    var bufferedSize: nat
    var nbStripesSoFar: nat
    var totalLen: nat
    var nbStripesPerBlock: nat
    var secretLimit: nat
    var seed: U64
    var extSecret: Option<Bytes>

    /** The keying chosen by the last successful reset, and the bytes fed since:
        those in the accumulators and those still in the buffer. */
    ghost var mode: Mode
    ghost var done: Bytes
    ghost var pending: Bytes

    ghost function Fed(): Bytes
      reads this
    {
      done + pending
    }

    /** What holds of a state from its creation on, whatever is called: a
        non-zero seed vouches for the cached custom secret. */
    ghost predicate Valid()
      reads this`seed, this`customSecret
    {
      && buffer.Length == INTERNALBUFFER_SIZE
      && (seed != 0 ==> customSecret == k.initCustomSecret(seed))
    }

    /** The fields that reset derives from the keying. */
    ghost predicate Keyed()
      reads this`mode, this`seed, this`customSecret, this`extSecret, this`secretLimit, this`nbStripesPerBlock
    {
      var secret := LongSecret(k, mode);
      && Valid()
      && seed == ShortKey(k, mode).0
      && extSecret == (if mode.WithSeed? && mode.seed != 0 then None else Some(secret))
      && secretLimit == |secret| - STRIPE_LEN
      && nbStripesPerBlock == StripesPerBlock(secret)
    }

    /** The accumulators stand for `done`. */
    ghost predicate Consumed()
      reads this`mode, this`seed, this`customSecret, this`extSecret, this`secretLimit, this`nbStripesPerBlock
      reads this`acc, this`nbStripesSoFar, this`done
    {
      && Keyed()
      && |done| % INTERNALBUFFER_SIZE == 0
      && RunAll(k, LongSecret(k, mode), done) == Cursor(acc, nbStripesSoFar)
    }

    /** The state stands for the bytes fed, with their number kept modulo 2^64. */
    ghost predicate Ready()
      reads this, buffer
    {
      && Consumed()
      && Carries(buffer[..], done, pending)
      && bufferedSize == |pending|
      && totalLen == |Fed()| % TWO_64
    }

    /** XXH3_createState(): only the seed is initialised. */
    constructor (k: Kernel)
      ensures Valid() && fresh(buffer) && this.k == k
    {
      this.k := k;
      buffer := new U8[INTERNALBUFFER_SIZE];
      seed := 0;
    }

    /** XXH3_reset_internal(); the subtraction wraps like size_t. */
    method ResetInternal(seed: U64, secret: Option<Bytes>, secretSize: nat)
      requires buffer.Length == INTERNALBUFFER_SIZE && secretSize < TWO_64
      requires seed != 0 ==> customSecret == k.initCustomSecret(seed)
      modifies this
      ensures Valid()
      ensures customSecret == old(customSecret)
      ensures bufferedSize == 0 && nbStripesSoFar == 0 && totalLen == 0 && acc == INIT_ACC
      ensures this.seed == seed && extSecret == secret
      ensures secretSize >= STRIPE_LEN ==> secretLimit == secretSize - STRIPE_LEN
      ensures secretSize < STRIPE_LEN ==> secretLimit == TWO_64 + secretSize - STRIPE_LEN
      ensures nbStripesPerBlock == secretLimit / SECRET_CONSUME_RATE
      ensures mode == old(mode)
    {
      bufferedSize, nbStripesSoFar, totalLen := 0, 0, 0;
      acc := INIT_ACC;
      this.seed := seed;
      extSecret := secret;
      secretLimit := (secretSize - STRIPE_LEN) % TWO_64;
      nbStripesPerBlock := secretLimit / SECRET_CONSUME_RATE;
    }

    method Reset()
      requires Valid()
      modifies this
      ensures Ready() && mode == Default && Fed() == []
    {
      ResetInternal(0, Some(k.defaultSecret), SECRET_DEFAULT_SIZE);
      mode, done, pending := Default, [], [];
      NothingFed();
    }

    lemma NothingFed()
      requires Keyed() && done == pending == []
      requires bufferedSize == 0 && nbStripesSoFar == 0 && totalLen == 0 && acc == INIT_ACC
      ensures Ready() && Fed() == []
    {
      assert RunAll(k, LongSecret(k, mode), []) == Cursor(INIT_ACC, 0);
    }

    /** A missing or short secret is reported only after the state was overwritten. */
    method ResetWithSecret(secret: Option<Bytes>, secretSize: nat) returns (code: ErrorCode)
      requires Valid()
      requires secretSize < TWO_64 && (secret.Some? ==> |secret.value| == secretSize)
      modifies this
      ensures Valid()
      ensures code == OK <==> secret.Some? && secretSize >= SECRET_SIZE_MIN
      ensures code == OK ==> Ready() && mode == WithSecret(secret.value) && Fed() == []
      ensures code == ERROR ==> seed == 0 && extSecret == secret
    {
      ResetInternal(0, secret, secretSize);
      if secret == None { return ERROR; }
      if secretSize < SECRET_SIZE_MIN { return ERROR; }
      mode, done, pending := WithSecret(secret.value), [], [];
      NothingFed();
      return OK;
    }

    /** The custom secret is rebuilt only when the seed changes. */
    method ResetWithSeed(seed: U64)
      requires Valid()
      modifies this
      ensures Ready() && mode == WithSeed(seed) && Fed() == []
    {
      if seed == 0 {
        Reset();
        mode := WithSeed(seed);
        return;
      }
      if seed != this.seed {
        customSecret := k.initCustomSecret(seed);
      }
      ResetInternal(seed, None, SECRET_DEFAULT_SIZE);
      mode, done, pending := WithSeed(seed), [], [];
      NothingFed();
    }

    function ActiveSecret(): (secret: Bytes)
      reads this
    {
      if extSecret == None then customSecret else extSecret.value
    }

    /** Feeds one buffer's worth of stripes. */
    method ConsumeBuffer(data: Bytes)
      requires Consumed() && |data| == INTERNALBUFFER_SIZE
      modifies this`acc, this`nbStripesSoFar, this`done
      ensures Consumed() && done == old(done) + data
    {
      hide RunAll, StripesPerBlock;
      WholeBuffers(|done|);
      assert data[..INTERNALBUFFER_STRIPES * STRIPE_LEN] == data;
      acc, nbStripesSoFar := ConsumeStripes(k, ActiveSecret(), secretLimit, nbStripesPerBlock,
                                            acc, nbStripesSoFar, data, INTERNALBUFFER_STRIPES, done);
      done := done + data;
    }

    /** Completes a partly filled buffer from the input, then consumes it. */
    method CompleteBuffer(input: Bytes) returns (used: nat)
      requires Consumed() && Carries(buffer[..], done, pending) && bufferedSize == |pending|
      requires |pending| + |input| > INTERNALBUFFER_SIZE
      modifies this`acc, this`nbStripesSoFar, this`done, this`bufferedSize, buffer
      ensures used == INTERNALBUFFER_SIZE - |pending| && bufferedSize == 0
      ensures Consumed() && done == old(done) + pending + input[..used]
      ensures TailKept(buffer[..], done, 0)
    {
      hide RunAll;
      used := INTERNALBUFFER_SIZE - bufferedSize;
      CopyInto(buffer, bufferedSize, input[..used]);
      assert buffer[..] == pending + input[..used];
      assert done + (pending + input[..used]) == done + pending + input[..used];
      ConsumeBuffer(buffer[..]);
      bufferedSize := 0;
    }

    /** Consumes straight from the input, 256 bytes at a time, leaving 1 to 256 bytes. */
    method ConsumeInput(input: Bytes, from: nat) returns (p: nat)
      requires Consumed() && from + INTERNALBUFFER_SIZE < |input|
      modifies this`acc, this`nbStripesSoFar, this`done
      ensures from + INTERNALBUFFER_SIZE <= p < |input| <= p + INTERNALBUFFER_SIZE
      ensures Consumed() && done == old(done) + input[from..p]
    {
      hide RunAll;
      p := from;
      var limit := |input| - INTERNALBUFFER_SIZE;
      while true
        invariant from <= p < limit
        invariant Consumed() && done == old(done) + input[from..p]
        decreases limit - p
      {
        ConsumeBuffer(input[p..p + INTERNALBUFFER_SIZE]);
        assert input[from..p] + input[p..p + INTERNALBUFFER_SIZE] == input[from..p + INTERNALBUFFER_SIZE];
        p := p + INTERNALBUFFER_SIZE;
        if !(p < limit) { break; }
      }
    }

    /** The body of XXH3_update() for a non-null input. */
    method Feed(input: Bytes)
      requires Ready()
      modifies this, buffer
      ensures Ready() && mode == old(mode) && Fed() == old(Fed()) + input
    {
      hide Consumed, Carries;
      WrapAdd64(|Fed()|, |input|);
      totalLen := (totalLen + |input|) % TWO_64;
      if bufferedSize + |input| <= INTERNALBUFFER_SIZE {
        FeedShort(input);
      } else {
        FeedLong(input);
      }
    }

    /** The input fits beside what is buffered. */
    method FeedShort(input: Bytes)
      requires Carries(buffer[..], done, pending)
      requires bufferedSize == |pending| && bufferedSize + |input| <= INTERNALBUFFER_SIZE
      modifies this`pending, this`bufferedSize, buffer
      ensures Carries(buffer[..], done, pending) && bufferedSize == |pending|
      ensures Fed() == old(Fed()) + input
    {
      hide TailKept, Overlay;
      CarriesAppended(buffer[..], done, pending, input);
      CopyInto(buffer, bufferedSize, input);
      bufferedSize := bufferedSize + |input|;
      pending := pending + input;
      assert done + pending == old(done + pending) + input;
    }

    /** The input no longer fits beside what is buffered. */
    method FeedLong(input: Bytes)
      requires Consumed() && Carries(buffer[..], done, pending) && bufferedSize == |pending|
      requires bufferedSize + |input| > INTERNALBUFFER_SIZE
      modifies this`acc, this`nbStripesSoFar, this`done, this`pending, this`bufferedSize, buffer
      ensures Consumed() && Carries(buffer[..], done, pending) && bufferedSize == |pending|
      ensures Fed() == old(Fed()) + input
    {
      hide RunAll, TailKept, Overlay, Carries, Keyed;
      var p;
      ghost var from;
      p, from := ConsumeMost(input);
      CarriesRest(buffer[..], done, input[p..]);
      CopyInto(buffer, 0, input[p..]);
      bufferedSize := |input| - p;
      pending := input[p..];
      Regroup(old(done), old(pending), input, from, p);
    }

    /** Consumes all of the input but 1 to 256 bytes, and keeps what the last stripe may need. */
    method ConsumeMost(input: Bytes) returns (p: nat, ghost from: nat)
      requires Consumed() && Carries(buffer[..], done, pending) && bufferedSize == |pending|
      requires bufferedSize + |input| > INTERNALBUFFER_SIZE
      modifies this`acc, this`nbStripesSoFar, this`done, this`bufferedSize, buffer
      ensures from <= p < |input| <= p + INTERNALBUFFER_SIZE
      ensures Consumed() && done == old(done) + pending + input[..from] + input[from..p]
      ensures TailKept(buffer[..], done, 0)
    {
      hide RunAll, TailKept, Overlay, Keyed;
      p := 0;
      if bufferedSize > 0 {
        p := CompleteBuffer(input);
      }
      ghost var mid := done;
      from := p;
      if |input| - p > INTERNALBUFFER_SIZE {
        p := ConsumeInput(input, p);
        // for the last partial stripe
        ParkedTail(buffer[..], done);
        SuffixOfSlice(mid, input, from, p);
        CopyInto(buffer, buffer.Length - STRIPE_LEN, input[p - STRIPE_LEN..p]);
      }
    }

    /** XXH3_update(). */
    method Update(input: Option<Bytes>) returns (code: ErrorCode)
      requires Ready()
      modifies this, buffer
      ensures Ready() && mode == old(mode)
      ensures code == ERROR <==> input == None
      ensures Fed() == old(Fed()) + (if input.Some? then input.value else [])
    {
      if input == None {
        return ERROR;
      }
      Feed(input.value);
      return OK;
    }

    /** XXH3_digest_long(): works on a local copy of the accumulators. */
    method DigestLong() returns (r: Acc)
      requires Ready() && |Fed()| > MIDSIZE_MAX
      ensures r == LongAcc(k, LongSecret(k, mode), Fed())
    {
      hide RunAll, LongAcc, LastStripe;
      var secret := ActiveSecret();
      if bufferedSize >= STRIPE_LEN {
        r := DigestPending(secret);
      } else {
        r := DigestCatchUp(secret);
      }
    }

    /** The last stripe lies in the buffer. */
    method DigestPending(secret: Secret) returns (r: Acc)
      requires Consumed() && Carries(buffer[..], done, pending) && bufferedSize == |pending|
      requires secret == LongSecret(k, mode) && bufferedSize >= STRIPE_LEN && STRIPE_LEN < |Fed()|
      ensures r == LongAcc(k, secret, Fed())
    {
      hide RunAll, LongAcc, LastStripe, TailKept;
      var off := secretLimit - SECRET_LASTACC_START;
      LongAccPending(k, secret, buffer[..], done, pending);
      var nbStripes := (bufferedSize - 1) / STRIPE_LEN;
      var soFar: nat;
      r, soFar := ConsumeStripes(k, secret, secretLimit, nbStripesPerBlock,
                                 acc, nbStripesSoFar, buffer[..], nbStripes, done);
      var lastStripe := buffer[bufferedSize - STRIPE_LEN..bufferedSize];
      LastStripeAt(k, secret, r, lastStripe, off);
      r := k.accumulate512(r, lastStripe, secret[off..off + STRIPE_LEN]);
    }

    /** The last stripe starts in bytes that were consumed before. */
    method DigestCatchUp(secret: Secret) returns (r: Acc)
      requires Consumed() && Carries(buffer[..], done, pending) && bufferedSize == |pending|
      requires secret == LongSecret(k, mode) && bufferedSize < STRIPE_LEN && done != []
      ensures r == LongAcc(k, secret, Fed())
    {
      hide RunAll, LongAcc, LastStripe;
      var off := secretLimit - SECRET_LASTACC_START;
      LongAccCatchUp(k, secret, buffer[..], done, pending);
      var catchupSize := STRIPE_LEN - bufferedSize;
      var lastStripe := buffer[buffer.Length - catchupSize..] + buffer[..bufferedSize];
      LastStripeAt(k, secret, acc, lastStripe, off);
      r := k.accumulate512(acc, lastStripe, secret[off..off + STRIPE_LEN]);
    }

    /** XXH3_64bits_digest() and XXH3_128bits_digest(): the digest of what was fed
        is the one-shot hash of it, and the state is left as it was. */
    method Digest<H>(v: Variant<H>) returns (h: H)
      requires Ready() && |Fed()| < TWO_64
      ensures h == Hash(k, v, mode, Fed())
    {
      var secret := ActiveSecret();
      if totalLen > MIDSIZE_MAX {
        var acc := DigestLong();
        h := v.merge(acc, secret, totalLen);
      } else {
        assert buffer[..totalLen] == Fed();
        if seed != 0 {
          h := OneShotWithSeed(k, v, buffer[..totalLen], seed);
        } else {
          h := OneShotWithSecret(k, v, buffer[..totalLen], secret);
        }
      }
    }
  }

  /** Accumulating all whole stripes of `front` is what precedes the last stripe,
      when what is left is a last stripe at most. */
  lemma {:induction false} LongAccFromFront(k: Kernel, secret: Secret, front: Bytes, rest: Bytes)
    requires |front| % STRIPE_LEN == 0 && 0 < |rest| <= STRIPE_LEN < |front + rest|
    ensures
      var m := front + rest;
      LongAcc(k, secret, m) == LastStripe(k, secret, RunAll(k, secret, front).acc, m[|m| - STRIPE_LEN..])
  {
    RunExtend(k, secret, front, rest, |front| / STRIPE_LEN);
  }

  /** A stripe or more is pending: the last stripe lies in the buffer. */
  lemma {:induction false} LongAccPending(k: Kernel, secret: Secret, buf: Bytes, done: Bytes, pending: Bytes)
    requires pending <= buf && |done| % STRIPE_LEN == 0
    requires STRIPE_LEN <= |pending| && STRIPE_LEN < |done + pending|
    ensures
      var n := |pending|;
      LongAcc(k, secret, done + pending) ==
        var whole := (n - 1) / STRIPE_LEN * STRIPE_LEN;
        LastStripe(k, secret, RunAll(k, secret, done + buf[..whole]).acc, buf[n - STRIPE_LEN..n])
  {
    var n := |pending|;
    var split := (n - 1) / STRIPE_LEN * STRIPE_LEN;
    var m := done + pending;
    assert done + buf[..split] + pending[split..] == m;
    assert m[|m| - STRIPE_LEN..] == buf[n - STRIPE_LEN..n];
    LongAccFromFront(k, secret, done + buf[..split], pending[split..]);
  }

  /** Less than a stripe is pending: the last stripe starts in the stale bytes at
      the buffer's end. */
  lemma {:induction false} LongAccCatchUp(k: Kernel, secret: Secret, buf: Bytes, done: Bytes, pending: Bytes)
    requires Carries(buf, done, pending) && done != [] && |done| % STRIPE_LEN == 0
    requires |pending| < STRIPE_LEN
    ensures
      var n := |pending|;
      LongAcc(k, secret, done + pending) ==
        LastStripe(k, secret, RunAll(k, secret, done).acc, buf[|buf| - (STRIPE_LEN - n)..] + buf[..n])
  {
    var n := |pending|;
    var m := done + pending;
    assert m[|m| - STRIPE_LEN..] == buf[|buf| - (STRIPE_LEN - n)..] + buf[..n];
    LongAccFromFront(k, secret, done, pending);
  }

  // ---- Streaming equals one-shot ----

  /** However a message is cut into pieces, and however the state is keyed,
      streaming gives the one-shot hash. */
  method HashInPieces<H>(k: Kernel, v: Variant<H>, mode: Mode, pieces: seq<Bytes>) returns (h: H)
    requires |Concat(pieces)| < TWO_64
    requires mode.WithSecret? ==> |mode.secret| < TWO_64
    ensures h == Hash(k, v, mode, Concat(pieces))
  {
    var st := new State(k);
    match mode {
      case Default => st.Reset();
      case WithSeed(seed) => st.ResetWithSeed(seed);
      case WithSecret(secret) =>
        var _ := st.ResetWithSecret(Some(secret), |secret|);
    }
    for i := 0 to |pieces|
      invariant fresh(st) && fresh(st.buffer) && st.k == k
      invariant st.Ready() && st.mode == mode && st.Fed() == Concat(pieces[..i])
    {
      assert pieces[..i + 1][..i] == pieces[..i];
      st.Feed(pieces[i]);
    }
    assert pieces[..|pieces|] == pieces;
    h := st.Digest(v);
  }
}
