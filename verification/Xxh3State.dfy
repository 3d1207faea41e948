/** The XXH3 incremental state (XXH3_state_t): reset, update, digest. */
module Xxh3State {
  import opened Options
  import opened Words
  import opened Xxh3Scalar
  import opened Xxh3Stream
  import opened Xxh3Invariant

  type DefaultSecret = s: Bytes | |s| == SECRET_DEFAULT_SIZE witness seq(192, _ => 0)

  /** The primitives chosen at compile time: the two kernels, the initial accumulators, the default
      secret, the derivation of a secret from a seed, the hash of inputs of at most 240 bytes, and
      the merge of the accumulators of a longer input. */
  datatype Suite<!A> = Suite(
    kernel: Kernel<A>,
    initAcc: A,
    kSecret: DefaultSecret,
    initCustomSecret: bv64 -> DefaultSecret,
    short: (Bytes, Bytes, bv64) -> bv64,
    merge: (A, Bytes, nat) -> bv64)

  /** How a hash is keyed. */
  datatype Mode = Default | WithSeed(seed: bv64) | WithSecret(secret: Bytes) {

    /** What the API asks of its caller: a custom secret has at least 136 bytes. */
    predicate Valid() {
      WithSecret? ==> |secret| >= SECRET_SIZE_MIN
    }

    /** The secret and the seed used for inputs of at most 240 bytes. */
    function ShortSecret<A>(p: Suite<A>): Bytes {
      if WithSecret? then secret else p.kSecret
    }

    function ShortSeed(): bv64 {
      if WithSeed? then seed else 0
    }

    /** The secret used for longer inputs. */
    function LongSecret<A>(p: Suite<A>): Bytes {
      if WithSecret? then secret
      else if WithSeed? && seed != 0 then p.initCustomSecret(seed)
      else p.kSecret
    }
  }

  /** The 64-bit XXH3 hash of `input`. */
  function Hash64<A>(p: Suite<A>, mode: Mode, input: Bytes): bv64
    requires mode.Valid() && |input| < W64
  {
    if |input| <= MIDSIZE_MAX then p.short(input, mode.ShortSecret(p), mode.ShortSeed())
    else p.merge(LongAcc(p.kernel, p.initAcc, input, mode.LongSecret(p)), mode.LongSecret(p), |input|)
  }

  /** XXH3_64bits and its _withSeed and _withSecret variants. */
  method OneShot<A>(p: Suite<A>, mode: Mode, input: Bytes) returns (h: bv64)
    requires mode.Valid() && |input| < W64
    ensures h == Hash64(p, mode, input)
  {
    if |input| <= MIDSIZE_MAX {
      return p.short(input, mode.ShortSecret(p), mode.ShortSeed());
    }
    var acc := HashLongLoop(p.kernel, p.initAcc, input, mode.LongSecret(p));
    return p.merge(acc, mode.LongSecret(p), |input|);
  }

  class State<A> {
    const p: Suite<A>
    var acc: A
    const customSecret: array<bv8>
    const buffer: array<bv8>
    var bufferedSize: nat
    var nbStripesSoFar: nat
    var totalLen: nat
    var nbStripesPerBlock: nat
    var secretLimit: nat
    var seed: bv64
    var extSecret: Option<Bytes>

    /** The input fed since the last reset, how many stripes of it were absorbed, and the keying. */
    ghost var fed: Bytes
    ghost var absorbed: nat
    ghost var mode: Mode

    /** Holds from creation on: whenever a non-zero seed is stored, the cached custom secret is the
        one derived from it. Resetting with the same seed relies on it. */
    ghost predicate Valid()
      reads this, customSecret
    {
      && buffer.Length == BUFFER_SIZE
      && customSecret.Length == SECRET_DEFAULT_SIZE
      && buffer != customSecret
      && (seed != 0 ==> customSecret[..] == p.initCustomSecret(seed))
    }

    function Secret(): Bytes
      reads this, customSecret
    {
      if extSecret.None? then customSecret[..] else extSecret.value
    }

    /** The fields that a successful reset fixes are those of the current mode. */
    ghost predicate Keyed()
      reads this, customSecret
    {
      && Valid()
      && mode.Valid()
      && Secret() == mode.LongSecret(p)
      && seed == mode.ShortSeed()
      && |Secret()| >= SECRET_SIZE_MIN
      && nbStripesPerBlock == StripesPerBlock(Secret())
      && secretLimit == |Secret()| - STRIPE_LEN
      && nbStripesSoFar < nbStripesPerBlock
    }

    /** The state stands for `fed`. */
    ghost predicate Ready()
      reads this, customSecret, buffer
    {
      && Keyed()
      && totalLen == |fed| % W64
      && Holds(p.kernel, p.initAcc, Secret(), fed, absorbed, buffer[..], bufferedSize, acc, nbStripesSoFar)
    }

    /** XXH3_createState. */
    constructor (p: Suite<A>)
      ensures Valid() && this.p == p && seed == 0 && fresh(buffer) && fresh(customSecret)
    {
      this.p := p;
      acc := p.initAcc;
      customSecret := new bv8[192];
      buffer := new bv8[256];
      bufferedSize, nbStripesSoFar, totalLen, nbStripesPerBlock, secretLimit := 0, 0, 0, 0, 0;
      seed := 0;
      extSecret := None;
      fed, absorbed, mode := [], 0, Default;
    }

    /** XXH3_reset_internal; the size subtraction wraps like size_t. */
    method ResetInternal(seed: bv64, secret: Option<Bytes>, secretSize: nat)
      modifies this
      ensures acc == p.initAcc && bufferedSize == nbStripesSoFar == totalLen == 0
      ensures this.seed == seed && extSecret == secret
      ensures secretLimit
        == (if secretSize >= STRIPE_LEN then secretSize - STRIPE_LEN else W64 + secretSize - STRIPE_LEN)
      ensures nbStripesPerBlock == secretLimit / CONSUME_RATE
      ensures fed == [] && absorbed == 0 && mode == old(mode)
    {
      bufferedSize, nbStripesSoFar, totalLen := 0, 0, 0;
      acc := p.initAcc;
      this.seed := seed;
      extSecret := secret;
      secretLimit := if secretSize >= STRIPE_LEN then secretSize - STRIPE_LEN else W64 + secretSize - STRIPE_LEN;
      nbStripesPerBlock := secretLimit / CONSUME_RATE;
      fed, absorbed := [], 0;
    }

    method Reset()
      requires Valid()
      modifies this
      ensures Ready() && mode == Default && fed == []
    {
      ResetInternal(0, Some(p.kSecret), SECRET_DEFAULT_SIZE);
      mode := Default;
    }

    /** A missing or a short secret is refused, but only after the state has been overwritten. */
    method ResetWithSecret(secret: Option<Bytes>) returns (ok: bool)
      requires Valid()
      modifies this
      ensures Valid()
      ensures ok == (secret.Some? && |secret.value| >= SECRET_SIZE_MIN)
      ensures ok ==> Ready() && mode == WithSecret(secret.value) && fed == []
    {
      ResetInternal(0, secret, if secret.Some? then |secret.value| else 0);
      if secret.None? || |secret.value| < SECRET_SIZE_MIN {
        return false;
      }
      mode := WithSecret(secret.value);
      return true;
    }

    /** The custom secret is recomputed only when the seed changed. */
    method ResetWithSeed(seed: bv64)
      requires Valid()
      modifies this, customSecret
      ensures Ready() && mode == WithSeed(seed) && fed == []
    {
      if seed == 0 {
        Reset();
      } else {
        if seed != this.seed {
          CopyInto(customSecret, 0, p.initCustomSecret(seed));
        }
        ResetInternal(seed, None, SECRET_DEFAULT_SIZE);
      }
      mode := WithSeed(seed);
    }

    /** The sizes a secret dictates. */
    ghost predicate Geared(secret: Bytes)
      reads this
    {
      && buffer.Length == BUFFER_SIZE
      && |secret| >= SECRET_SIZE_MIN
      && nbStripesPerBlock == StripesPerBlock(secret)
      && secretLimit == |secret| - STRIPE_LEN
      && nbStripesSoFar < nbStripesPerBlock
    }

    /** First part of XXH3_update: complete a partly filled buffer, then consume it. */
    method FillAndDrain(secret: Bytes, input: Bytes) returns (at: nat)
      requires Geared(secret)
      requires Holds(p.kernel, p.initAcc, secret, fed, absorbed, buffer[..], bufferedSize, acc, nbStripesSoFar)
      requires bufferedSize > 0 && bufferedSize + |input| > BUFFER_SIZE
      modifies this`acc, this`nbStripesSoFar, this`absorbed, buffer
      ensures Geared(secret) && at == BUFFER_SIZE - bufferedSize && 64 * absorbed >= BUFFER_SIZE
      ensures Drained(p.kernel, p.initAcc, secret, fed + input[..at], absorbed, acc, nbStripesSoFar)
      ensures TailKept(fed + input[..at], buffer[..])
    {
      at := BUFFER_SIZE - bufferedSize;
      ghost var before := buffer[..];
      CopyInto(buffer, bufferedSize, input[..at]);
      DrainFull(secret, input, before);
    }

    /** Consume the buffer that the start of the input has just filled. */
    method DrainFull(secret: Bytes, input: Bytes, ghost before: Bytes)
      requires Geared(secret)
      requires Holds(p.kernel, p.initAcc, secret, fed, absorbed, before, bufferedSize, acc, nbStripesSoFar)
      requires bufferedSize + |input| > BUFFER_SIZE
      requires buffer[..] == before[..bufferedSize] + input[..BUFFER_SIZE - bufferedSize] + before[BUFFER_SIZE..]
      modifies this`acc, this`nbStripesSoFar, this`absorbed
      ensures Geared(secret) && 64 * absorbed >= BUFFER_SIZE
      ensures Drained(p.kernel, p.initAcc, secret, fed + input[..BUFFER_SIZE - bufferedSize], absorbed, acc,
                      nbStripesSoFar)
      ensures TailKept(fed + input[..BUFFER_SIZE - bufferedSize], buffer[..])
    {
      ghost var acc0, pos0 := acc, nbStripesSoFar;
      acc, nbStripesSoFar := ConsumeStripes(p.kernel, acc, nbStripesSoFar, nbStripesPerBlock, buffer[..],
                                            BUFFER_STRIPES, secret, secretLimit);
      DrainBuffer(p.kernel, p.initAcc, secret, fed, absorbed, before, bufferedSize, acc0, pos0, input, buffer[..],
                  acc, nbStripesSoFar);
      absorbed := absorbed + BUFFER_STRIPES;
    }

    /** Second part: consume the input by whole buffer sizes, and keep the last stripe consumed. */
    method DrainAndKeep(secret: Bytes, input: Bytes, start: nat) returns (at: nat)
      requires Geared(secret) && start + BUFFER_SIZE < |input|
      requires Drained(p.kernel, p.initAcc, secret, fed + input[..start], absorbed, acc, nbStripesSoFar)
      modifies this`acc, this`nbStripesSoFar, this`absorbed, buffer
      ensures Geared(secret) && at < |input| <= at + BUFFER_SIZE && 64 * absorbed >= BUFFER_SIZE
      ensures Drained(p.kernel, p.initAcc, secret, fed + input[..at], absorbed, acc, nbStripesSoFar)
      ensures TailKept(fed + input[..at], buffer[..])
    {
      ghost var n;
      at, acc, nbStripesSoFar, n :=
        DrainInput(p, secret, fed, input, start, absorbed, acc, nbStripesSoFar, nbStripesPerBlock, secretLimit);
      absorbed := n;
      ghost var before := buffer[..];
      CopyInto(buffer, BUFFER_SIZE - STRIPE_LEN, input[at - STRIPE_LEN..at]);
      KeepTail(fed, input, at, before, buffer[..]);
    }

    /** The part of XXH3_update that runs when the input overflows the buffer. */
    method Overflow(secret: Bytes, input: Bytes)
      requires Geared(secret)
      requires Holds(p.kernel, p.initAcc, secret, fed, absorbed, buffer[..], bufferedSize, acc, nbStripesSoFar)
      requires bufferedSize + |input| > BUFFER_SIZE
      modifies this`acc, this`nbStripesSoFar, this`absorbed, this`bufferedSize, buffer
      ensures Geared(secret)
      ensures Holds(p.kernel, p.initAcc, secret, fed + input, absorbed, buffer[..], bufferedSize, acc, nbStripesSoFar)
    {
      var at := 0;
      if bufferedSize > 0 {
        at := FillAndDrain(secret, input);
      } else {
        assert fed + input[..at] == fed[..64 * absorbed];
      }
      if |input| - at > BUFFER_SIZE {
        at := DrainAndKeep(secret, input, at);
      }
      ghost var before := buffer[..];
      CopyInto(buffer, 0, input[at..]);
      BufferRest(p.kernel, p.initAcc, secret, fed, input, at, absorbed, acc, nbStripesSoFar, before, buffer[..]);
      bufferedSize := |input| - at;
    }

    /** The part of XXH3_update that runs when the input fits in the buffer. */
    method Append(secret: Bytes, input: Bytes)
      requires Geared(secret)
      requires Holds(p.kernel, p.initAcc, secret, fed, absorbed, buffer[..], bufferedSize, acc, nbStripesSoFar)
      requires bufferedSize + |input| <= BUFFER_SIZE
      modifies this`bufferedSize, buffer
      ensures Geared(secret)
      ensures Holds(p.kernel, p.initAcc, secret, fed + input, absorbed, buffer[..], bufferedSize, acc, nbStripesSoFar)
    {
      ghost var before := buffer[..];
      CopyInto(buffer, bufferedSize, input);
      BufferMore(p.kernel, p.initAcc, secret, fed, absorbed, before, bufferedSize, acc, nbStripesSoFar, input,
                 buffer[..]);
      bufferedSize := bufferedSize + |input|;
    }

    /** XXH3_update: whatever the split of the input into calls, the state stands for all of it. */
    method Update(input: Bytes)
      requires Ready() && |input| < W64
      modifies this, buffer
      ensures Ready() && fed == old(fed) + input && mode == old(mode)
    {
      totalLen := (totalLen + |input|) % W64;
      assert totalLen == |fed + input| % W64 by { AddModulo(|fed|, |input|); }
      var secret := Secret();
      if bufferedSize + |input| <= BUFFER_SIZE {
        Append(secret, input);
      } else {
        Overflow(secret, input);
      }
      fed := fed + input;
      assert Secret() == secret;
      assert Keyed();
    }

    /** The last 64 bytes fed, from the buffer or from both of its ends. */
    method LastStripe() returns (last: Stripe)
      requires Ready() && MIDSIZE_MAX < |fed|
      ensures last == fed[|fed| - 64..]
    {
      if bufferedSize >= STRIPE_LEN {
        last := buffer[bufferedSize - STRIPE_LEN..bufferedSize];
        assert last == buffer[..bufferedSize][bufferedSize - 64..] == fed[|fed| - 64..];
      } else {
        var catchup := STRIPE_LEN - bufferedSize;
        StraddlingStripe(p.kernel, p.initAcc, Secret(), fed, absorbed, buffer[..], bufferedSize, acc, nbStripesSoFar);
        assert buffer[..][BUFFER_SIZE - catchup..] == buffer[BUFFER_SIZE - catchup..];
        last := buffer[BUFFER_SIZE - catchup..] + buffer[..bufferedSize];
      }
    }

    /** The accumulators after the buffered stripes, all but the last one; the state keeps its own. */
    method ConsumeBuffered(secret: Bytes) returns (r: A, pos: nat)
      requires Geared(secret) && 0 < bufferedSize <= BUFFER_SIZE
      ensures Cursor(r, pos)
        == Fold(p.kernel, Cursor(acc, nbStripesSoFar), buffer[..], FullStripes(bufferedSize), secret)
    {
      r, pos := acc, nbStripesSoFar;
      if bufferedSize >= STRIPE_LEN {
        var nbStripes := (bufferedSize - 1) / STRIPE_LEN;
        r, pos := ConsumeStripes(p.kernel, r, pos, nbStripesPerBlock, buffer[..], nbStripes, secret, secretLimit);
      }
    }

    /** XXH3_digest_long: on a copy of the accumulators, so the state is unaltered. */
    method DigestLong() returns (r: A)
      requires Ready() && MIDSIZE_MAX < |fed|
      ensures r == LongAcc(p.kernel, p.initAcc, fed, Secret())
    {
      var pos;
      r, pos := ConsumeBuffered(Secret());
      var last := LastStripe();
      DigestIsLongAcc(p.kernel, p.initAcc, Secret(), fed, absorbed, buffer[..], bufferedSize, acc, nbStripesSoFar, r,
                      pos, last);
      r := p.kernel.acc512(r, last, At(Secret(), secretLimit - LASTACC_START));
    }

    /** XXH3_64bits_digest: the hash of everything fed so far. Reading it changes nothing. */
    method Digest() returns (h: bv64)
      requires Ready() && |fed| < W64
      ensures h == Hash64(p, mode, fed)
    {
      if totalLen > MIDSIZE_MAX {
        var r := DigestLong();
        return p.merge(r, Secret(), totalLen);
      }
      assert absorbed == 0;
      assert buffer[..totalLen] == fed;
      if seed != 0 {
        return p.short(buffer[..totalLen], p.kSecret, seed);
      }
      return p.short(buffer[..totalLen], Secret(), 0);
    }

    method UpdateThenDigest(input: Bytes) returns (h: bv64)
      requires Ready() && |fed| + |input| < W64
      modifies this, buffer
      ensures Ready() && fed == old(fed) + input && mode == old(mode)
      ensures h == Hash64(p, mode, fed)
    {
      Update(input);
      h := Digest();
    }
  }

  /** The middle loop of XXH3_update: absorb the input by whole buffer sizes, keeping at least one byte. */
  method DrainInput<A>(p: Suite<A>, secret: Bytes, ghost fed: Bytes, input: Bytes, start: nat, ghost n: nat, acc: A,
                       pos: nat, perBlock: nat, secretLimit: nat)
    returns (at: nat, acc': A, pos': nat, ghost n': nat)
    requires |secret| >= SECRET_SIZE_MIN && perBlock == StripesPerBlock(secret) && secretLimit == |secret| - STRIPE_LEN
    requires pos < perBlock && start + BUFFER_SIZE < |input|
    requires Drained(p.kernel, p.initAcc, secret, fed + input[..start], n, acc, pos)
    ensures start + BUFFER_SIZE <= at < |input| <= at + BUFFER_SIZE && pos' < perBlock
    ensures Drained(p.kernel, p.initAcc, secret, fed + input[..at], n', acc', pos')
    ensures n' >= n + BUFFER_STRIPES
  {
    at, acc', pos', n' := start, acc, pos, n;
    var limit := |input| - BUFFER_SIZE;
    while at < limit
      invariant start <= at < |input| && pos' < perBlock
      invariant (at == start && n' == n) || (start + BUFFER_SIZE <= at && n' >= n + BUFFER_STRIPES)
      invariant Drained(p.kernel, p.initAcc, secret, fed + input[..at], n', acc', pos')
    {
      ghost var acc0, pos0 := acc', pos';
      acc', pos' := ConsumeStripes(p.kernel, acc', pos', perBlock, input[at..at + BUFFER_SIZE], BUFFER_STRIPES,
                                   secret, secretLimit);
      DrainChunk(p.kernel, p.initAcc, secret, fed, input, at, n', acc0, pos0, acc', pos');
      at := at + BUFFER_SIZE;
      n' := n' + BUFFER_STRIPES;
    }
  }

  lemma AddModulo(a: nat, b: nat)
    ensures (a % W64 + b) % W64 == (a + b) % W64
  {
  }

  /** A fresh state, reset in the given mode. */
  method Begin<A>(p: Suite<A>, mode: Mode) returns (st: State<A>)
    requires mode.Valid()
    ensures st.Ready() && st.p == p && st.mode == mode && st.fed == []
    ensures fresh(st) && fresh(st.buffer) && fresh(st.customSecret)
  {
    st := new State(p);
    match mode {
      case Default => st.Reset();
      case WithSeed(seed) => st.ResetWithSeed(seed);
      case WithSecret(secret) =>
        var _ := st.ResetWithSecret(Some(secret));
    }
  }

  /** The one-shot hash of the first chunk, of the first two chunks, ... of the first `n` chunks. */
  function PrefixHashes<A>(p: Suite<A>, mode: Mode, chunks: seq<Bytes>, n: nat): (hs: seq<bv64>)
    requires mode.Valid() && n <= |chunks| && |Concat(chunks)| < W64
    ensures |hs| == n
  {
    if n == 0 then [] else
    ConcatPrefix(chunks, n);
    PrefixHashes(p, mode, chunks, n - 1) + [Hash64(p, mode, Concat(chunks[..n]))]
  }

  /** One digest after every chunk, from a single stream: each is the one-shot hash of all the
      input up to there. The digests in between leave no trace. */
  method HashStream<A>(p: Suite<A>, mode: Mode, chunks: seq<Bytes>) returns (hs: seq<bv64>)
    requires mode.Valid() && |Concat(chunks)| < W64
    ensures hs == PrefixHashes(p, mode, chunks, |chunks|)
  {
    var st := Begin(p, mode);
    hs := [];
    for n := 0 to |chunks|
      invariant st.Ready() && st.p == p && st.mode == mode
      invariant fresh(st) && fresh(st.buffer) && fresh(st.customSecret)
      invariant st.fed == Concat(chunks[..n])
      invariant hs == PrefixHashes(p, mode, chunks, n)
    {
      ConcatPrefix(chunks, n + 1);
      ConcatSnoc(chunks, n);
      var h := st.UpdateThenDigest(chunks[n]);
      hs := hs + [h];
    }
  }

  /** Hashing a stream chunk by chunk and hashing its concatenation at once, side by side. */
  method BothWays<A>(p: Suite<A>, mode: Mode, chunks: seq<Bytes>) returns (streamed: bv64, direct: bv64)
    requires mode.Valid() && |Concat(chunks)| < W64
    ensures streamed == direct == Hash64(p, mode, Concat(chunks))
  {
    direct := OneShot(p, mode, Concat(chunks));
    if chunks == [] {
      var st := Begin(p, mode);
      streamed := st.Digest();
    } else {
      var hs := HashStream(p, mode, chunks);
      streamed := hs[|chunks| - 1];
      assert chunks[..|chunks|] == chunks;
    }
  }

  /** A prefix of the chunks is no longer than all of them. */
  lemma {:induction false} ConcatPrefix(chunks: seq<Bytes>, n: nat)
    requires n <= |chunks|
    ensures |Concat(chunks[..n])| <= |Concat(chunks)|
  {
    if n == |chunks| {
      assert chunks[..n] == chunks;
    } else {
      var init := chunks[..|chunks| - 1];
      ConcatPrefix(init, n);
      assert init[..n] == chunks[..n];
    }
  }

  lemma ConcatSnoc(chunks: seq<Bytes>, n: nat)
    requires n < |chunks|
    ensures Concat(chunks[..n + 1]) == Concat(chunks[..n]) + chunks[n]
  {
    assert chunks[..n + 1][..n] == chunks[..n];
  }

  lemma {:induction false} Longer(s: Bytes, at: nat, more: Bytes)
    requires at + |more| <= |s| && s[at..at + |more|] == more
    ensures s[..at + |more|] == s[..at] + more
  {}

  /** XXH3_initCustomSecret: two words at a time. */
  method InitCustomSecret(customSecret: array<bv8>, kSecret: Bytes, seed: bv64)
    requires customSecret.Length == |kSecret| && |kSecret| % 16 == 0
    modifies customSecret
    ensures customSecret[..] == SeededPairs(kSecret, seed, |kSecret| / 16)
  {
    var nbRounds := |kSecret| / 16;
    for i := 0 to nbRounds
      invariant customSecret[..16 * i] == SeededPairs(kSecret, seed, i)
    {
      CopyInto(customSecret, 16 * i, SeededPair(kSecret, seed, i));
      Longer(customSecret[..], 16 * i, SeededPair(kSecret, seed, i));
    }
    assert customSecret[..] == customSecret[..16 * nbRounds];
  }

  // ---------------------------------------------------------------- the scalar instance

  function ScalarShort(input: Bytes, secret: Bytes, seed: bv64): bv64 {
    if |input| <= MIDSIZE_MAX && |secret| >= SECRET_SIZE_MIN then ShortHash(input, secret, seed) else 0
  }

  function ScalarMerge(acc: Lanes, secret: Bytes, len: nat): bv64 {
    if |secret| >= SECRET_SIZE_MIN && len < W64
    then MergeAccs(acc, secret, MERGEACCS_START, (len as bv64) * PRIME64_1)
    else 0
  }

  function ScalarInitSecret(seed: bv64): DefaultSecret {
    CustomSecret(seed)
  }

  /** The suite used when no vector unit is selected. */
  function ScalarSuite(): Suite<Lanes> {
    Suite(Kernel(Accumulate512, ScrambleAcc), INIT_ACC, KSecret(), ScalarInitSecret, ScalarShort, ScalarMerge)
  }

  /** What the suite takes as the derived secret is what the loop over the default one leaves. */
  method DeriveSecret(customSecret: array<bv8>, seed: bv64)
    requires customSecret.Length == SECRET_DEFAULT_SIZE
    modifies customSecret
    ensures customSecret[..] == ScalarSuite().initCustomSecret(seed)
  {
    InitCustomSecret(customSecret, KSecret(), seed);
  }

  /** The scalar code itself, with no primitive left open: for every chunking the stream gives the hash
      for short inputs, or the merged accumulators of the long loop. */
  method ScalarBothWays(mode: Mode, chunks: seq<Bytes>) returns (streamed: bv64, direct: bv64)
    requires mode.Valid() && |Concat(chunks)| < W64
    ensures streamed == direct
    ensures |Concat(chunks)| <= MIDSIZE_MAX ==>
      direct == ShortHash(Concat(chunks), mode.ShortSecret(ScalarSuite()), mode.ShortSeed())
    ensures |Concat(chunks)| > MIDSIZE_MAX ==>
      var secret := mode.LongSecret(ScalarSuite());
      direct == ScalarMerge(LongAcc(Kernel(Accumulate512, ScrambleAcc), INIT_ACC, Concat(chunks), secret), secret,
                            |Concat(chunks)|)
  {
    streamed, direct := BothWays(ScalarSuite(), mode, chunks);
  }
}
