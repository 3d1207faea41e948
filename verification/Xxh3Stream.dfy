/** XXH3 long inputs: the stripe-by-stripe reference, the blocked one-shot loop, and the buffered
    incremental state, all over an arbitrary pair of accumulate / scramble kernels. */
module Xxh3Stream {
  import opened Words
  import opened Xxh3Scalar

  /** The two kernels the source passes around as function pointers. */
  datatype Kernel<!A> = Kernel(acc512: (A, Stripe, Stripe) -> A, scramble: (A, Stripe) -> A)

  /** Accumulators plus the number of stripes already absorbed in the current block. */
  datatype Cursor<A> = Cursor(acc: A, pos: nat)

  const BUFFER_SIZE: nat := 256
  const BUFFER_STRIPES: nat := 4

  function StripesPerBlock(secret: Bytes): (n: nat)
    requires |secret| >= SECRET_SIZE_MIN
    ensures n >= 9 && 8 * n + 64 <= |secret| < 8 * n + 72
  {
    (|secret| - STRIPE_LEN) / CONSUME_RATE
  }

  /** The 64 bytes at offset `at`. */
  function At(s: Bytes, at: nat): Stripe
    requires at + 64 <= |s|
  {
    s[at..at + 64]
  }

  // ---------------------------------------------------------------- reference

  /** Absorb one stripe; at the end of a block, scramble. */
  function Step<A>(k: Kernel<A>, c: Cursor<A>, stripe: Stripe, secret: Bytes): (r: Cursor<A>)
    requires |secret| >= SECRET_SIZE_MIN && c.pos < StripesPerBlock(secret)
    ensures r.pos < StripesPerBlock(secret)
  {
    var acc := k.acc512(c.acc, stripe, At(secret, CONSUME_RATE * c.pos));
    if c.pos + 1 == StripesPerBlock(secret)
    then Cursor(k.scramble(acc, At(secret, |secret| - STRIPE_LEN)), 0)
    else Cursor(acc, c.pos + 1)
  }

  /** Absorb the first `n` stripes of `data`, one at a time. */
  function Fold<A>(k: Kernel<A>, c: Cursor<A>, data: Bytes, n: nat, secret: Bytes): (r: Cursor<A>)
    requires |secret| >= SECRET_SIZE_MIN && c.pos < StripesPerBlock(secret) && 64 * n <= |data|
    ensures r.pos < StripesPerBlock(secret)
  {
    if n == 0 then c
    else Step(k, Fold(k, c, data, n - 1, secret), At(data, 64 * (n - 1)), secret)
  }

  /** The number of stripes absorbed before the final one: at least one byte is always held back. */
  function FullStripes(len: nat): (n: nat)
    requires len > 0
    ensures 64 * n < len <= 64 * n + 64
  {
    (len - 1) / STRIPE_LEN
  }

  /** The accumulators after a long input: all full stripes, then the last 64 bytes of the input. */
  function LongAcc<A>(k: Kernel<A>, init: A, input: Bytes, secret: Bytes): A
    requires |input| > STRIPE_LEN && |secret| >= SECRET_SIZE_MIN
  {
    var body := Fold(k, Cursor(init, 0), input, FullStripes(|input|), secret);
    k.acc512(body.acc, At(input, |input| - 64), At(secret, |secret| - STRIPE_LEN - LASTACC_START))
  }

  /** Folding is compositional: this is what lets the input be cut on any stripe. */
  lemma {:induction false} FoldSplit<A>(k: Kernel<A>, c: Cursor<A>, data: Bytes, m: nat, rest: Bytes, n: nat,
                                        secret: Bytes)
    requires |secret| >= SECRET_SIZE_MIN && c.pos < StripesPerBlock(secret)
    requires 64 * (m + n) <= |data| && 64 * n <= |rest|
    requires forall i :: 0 <= i < 64 * n ==> rest[i] == data[64 * m + i]
    ensures Fold(k, c, data, m + n, secret) == Fold(k, Fold(k, c, data, m, secret), rest, n, secret)
    decreases n
  {
    if n > 0 {
      FoldSplit(k, c, data, m, rest, n - 1, secret);
      var d, r := At(data, 64 * (m + n - 1)), At(rest, 64 * (n - 1));
      forall j | 0 <= j < 64
        ensures d[j] == r[j]
      {
        assert rest[64 * (n - 1) + j] == data[64 * m + (64 * (n - 1) + j)];
      }
      assert d == r;
    }
  }

  // ---------------------------------------------------------------- accumulate and consume

  /** `n` stripes against successive secret segments, without any scrambling. */
  function AccumulateN<A>(k: Kernel<A>, acc: A, input: Bytes, secret: Bytes, n: nat): A
    requires 64 * n <= |input| && (n > 0 ==> 8 * n + 56 <= |secret|)
  {
    if n == 0 then acc
    else k.acc512(AccumulateN(k, acc, input, secret, n - 1), At(input, 64 * (n - 1)), At(secret, 8 * (n - 1)))
  }

  method Accumulate<A>(k: Kernel<A>, acc: A, input: Bytes, secret: Bytes, nbStripes: nat) returns (r: A)
    requires 64 * nbStripes <= |input| && (nbStripes > 0 ==> 8 * nbStripes + 56 <= |secret|)
    ensures r == AccumulateN(k, acc, input, secret, nbStripes)
  {
    r := acc;
    for n := 0 to nbStripes
      invariant r == AccumulateN(k, acc, input, secret, n)
    {
      r := k.acc512(r, At(input, n * STRIPE_LEN), At(secret, n * CONSUME_RATE));
    }
  }

  /** Inside a block, a run of stripes is a plain accumulation from the current secret segment. */
  lemma {:induction false} FoldInsideBlock<A>(k: Kernel<A>, c: Cursor<A>, input: Bytes, n: nat, secret: Bytes)
    requires |secret| >= SECRET_SIZE_MIN && c.pos + n < StripesPerBlock(secret)
    requires 64 * n <= |input|
    ensures Fold(k, c, input, n, secret)
         == Cursor(AccumulateN(k, c.acc, input, secret[8 * c.pos..], n), c.pos + n)
  {
    if n > 0 {
      FoldInsideBlock(k, c, input, n - 1, secret);
      assert At(secret[8 * c.pos..], 8 * (n - 1)) == At(secret, 8 * (c.pos + n - 1));
    }
  }

  /** A run of stripes that reaches the end of the block is an accumulation followed by a scramble. */
  lemma FoldToBlockEnd<A>(k: Kernel<A>, c: Cursor<A>, input: Bytes, n: nat, secret: Bytes)
    requires |secret| >= SECRET_SIZE_MIN && 0 < n && c.pos + n == StripesPerBlock(secret)
    requires 64 * n <= |input|
    ensures Fold(k, c, input, n, secret)
         == Cursor(k.scramble(AccumulateN(k, c.acc, input, secret[8 * c.pos..], n),
                              At(secret, |secret| - STRIPE_LEN)), 0)
  {
    FoldInsideBlock(k, c, input, n - 1, secret);
    assert At(secret[8 * c.pos..], 8 * (n - 1)) == At(secret, 8 * (c.pos + n - 1));
  }

  /** A run of stripes across the end of the block. */
  lemma FoldAcross<A>(k: Kernel<A>, c: Cursor<A>, input: Bytes, n: nat, more: nat, secret: Bytes)
    requires |secret| >= SECRET_SIZE_MIN && 0 < n && c.pos + n == StripesPerBlock(secret)
    requires more < StripesPerBlock(secret) && 64 * (n + more) <= |input|
    ensures var mid := k.scramble(AccumulateN(k, c.acc, input, secret[8 * c.pos..], n),
                                  At(secret, |secret| - STRIPE_LEN));
            Fold(k, c, input, n + more, secret) == Cursor(AccumulateN(k, mid, input[64 * n..], secret, more), more)
  {
    FoldToBlockEnd(k, c, input, n, secret);
    FoldPartialBlock(k, c, input, n, more, Fold(k, c, input, n, secret).acc, secret);
  }

  /** Absorb `nbStripes` stripes from any position in a block, scrambling at most once. */
  method ConsumeStripes<A>(k: Kernel<A>, acc: A, nbStripesSoFar: nat, nbStripesPerBlock: nat, input: Bytes,
                           nbStripes: nat, secret: Bytes, secretLimit: nat)
    returns (acc': A, nbStripesSoFar': nat)
    requires |secret| >= SECRET_SIZE_MIN && nbStripesPerBlock == StripesPerBlock(secret)
    requires secretLimit == |secret| - STRIPE_LEN
    requires nbStripes <= nbStripesPerBlock && nbStripesSoFar < nbStripesPerBlock
    requires 64 * nbStripes <= |input|
    ensures nbStripesSoFar' < nbStripesPerBlock
    ensures Cursor(acc', nbStripesSoFar') == Fold(k, Cursor(acc, nbStripesSoFar), input, nbStripes, secret)
  {
    var c := Cursor(acc, nbStripesSoFar);
    if nbStripesPerBlock - nbStripesSoFar <= nbStripes {
      var toEnd := nbStripesPerBlock - nbStripesSoFar;
      var afterBlock := nbStripes - toEnd;
      acc' := Accumulate(k, acc, input, secret[nbStripesSoFar * CONSUME_RATE..], toEnd);
      acc' := k.scramble(acc', At(secret, secretLimit));
      acc' := Accumulate(k, acc', input[toEnd * STRIPE_LEN..], secret, afterBlock);
      nbStripesSoFar' := afterBlock;
      FoldAcross(k, c, input, toEnd, afterBlock, secret);
    } else {
      acc' := Accumulate(k, acc, input, secret[nbStripesSoFar * CONSUME_RATE..], nbStripes);
      nbStripesSoFar' := nbStripesSoFar + nbStripes;
      FoldInsideBlock(k, c, input, nbStripes, secret);
    }
  }

  // ---------------------------------------------------------------- one shot

  /** From a block boundary, accumulating a whole block and scrambling reaches the next boundary. */
  lemma FoldBlock<A>(k: Kernel<A>, c: Cursor<A>, input: Bytes, m: nat, acc: A, secret: Bytes)
    requires |secret| >= SECRET_SIZE_MIN && c.pos < StripesPerBlock(secret)
    requires 64 * (m + StripesPerBlock(secret)) <= |input|
    requires Fold(k, c, input, m, secret) == Cursor(acc, 0)
    ensures Fold(k, c, input, m + StripesPerBlock(secret), secret)
         == Cursor(k.scramble(AccumulateN(k, acc, input[64 * m..], secret, StripesPerBlock(secret)),
                              At(secret, |secret| - STRIPE_LEN)), 0)
  {
    FoldSplit(k, c, input, m, input[64 * m..], StripesPerBlock(secret), secret);
    FoldToBlockEnd(k, Cursor(acc, 0), input[64 * m..], StripesPerBlock(secret), secret);
    assert secret[8 * 0..] == secret;
  }

  /** From a block boundary, accumulating less than a block needs no scramble. */
  lemma FoldPartialBlock<A>(k: Kernel<A>, c: Cursor<A>, input: Bytes, m: nat, n: nat, acc: A, secret: Bytes)
    requires |secret| >= SECRET_SIZE_MIN && c.pos < StripesPerBlock(secret)
    requires n < StripesPerBlock(secret) && 64 * (m + n) <= |input|
    requires Fold(k, c, input, m, secret) == Cursor(acc, 0)
    ensures Fold(k, c, input, m + n, secret) == Cursor(AccumulateN(k, acc, input[64 * m..], secret, n), n)
  {
    FoldSplit(k, c, input, m, input[64 * m..], n, secret);
    FoldInsideBlock(k, Cursor(acc, 0), input[64 * m..], n, secret);
    assert secret[8 * 0..] == secret;
  }

  /** Cutting the stripes before the last byte into whole blocks plus a remainder. */
  lemma BlockArithmetic(len: nat, perBlock: nat)
    requires len > 0 && perBlock > 0
    ensures
      var blockLen := STRIPE_LEN * perBlock;
      var blocks := (len - 1) / blockLen;
      var rest := ((len - 1) - blockLen * blocks) / STRIPE_LEN;
      && 0 <= (len - 1) - blockLen * blocks
      && rest < perBlock
      && blocks * blockLen == 64 * (blocks * perBlock)
      && FullStripes(len) == blocks * perBlock + rest
  {
    var blockLen := STRIPE_LEN * perBlock;
    var blocks := (len - 1) / blockLen;
    var left := (len - 1) - blockLen * blocks;
    assert 0 <= left < blockLen;
    assert blockLen * blocks == 64 * (blocks * perBlock);
    assert left / 64 < perBlock;
  }

  /** The block loop of XXH3_hashLong_internal_loop: it stops on a block boundary. */
  method HashBlocks<A>(k: Kernel<A>, init: A, input: Bytes, secret: Bytes, perBlock: nat, nbBlocks: nat)
    returns (acc: A)
    requires |input| > STRIPE_LEN && |secret| >= SECRET_SIZE_MIN && perBlock == StripesPerBlock(secret)
    requires nbBlocks == (|input| - 1) / (STRIPE_LEN * perBlock)
    ensures 64 * (nbBlocks * perBlock) <= |input|
    ensures Cursor(acc, 0) == Fold(k, Cursor(init, 0), input, nbBlocks * perBlock, secret)
  {
    var blockLen := STRIPE_LEN * perBlock;
    acc := init;
    for n := 0 to nbBlocks
      invariant 64 * (n * perBlock) <= |input|
      invariant Cursor(acc, 0) == Fold(k, Cursor(init, 0), input, n * perBlock, secret)
    {
      BlockFits(n, nbBlocks, perBlock, |input|);
      FoldBlock(k, Cursor(init, 0), input, n * perBlock, acc, secret);
      acc := Accumulate(k, acc, input[n * blockLen..], secret, perBlock);
      acc := k.scramble(acc, At(secret, |secret| - STRIPE_LEN));
    }
  }

  /** XXH3_hashLong_internal_loop: block by block, then the partial block, then the last stripe. */
  method HashLongLoop<A>(k: Kernel<A>, init: A, input: Bytes, secret: Bytes) returns (acc: A)
    requires |input| > STRIPE_LEN && |secret| >= SECRET_SIZE_MIN
    ensures acc == LongAcc(k, init, input, secret)
  {
    var perBlock := (|secret| - STRIPE_LEN) / CONSUME_RATE;
    var blockLen := STRIPE_LEN * perBlock;
    var nbBlocks := (|input| - 1) / blockLen;
    acc := HashBlocks(k, init, input, secret, perBlock, nbBlocks);

    BlockArithmetic(|input|, perBlock);
    var nbStripes := ((|input| - 1) - blockLen * nbBlocks) / STRIPE_LEN;
    FoldPartialBlock(k, Cursor(init, 0), input, nbBlocks * perBlock, nbStripes, acc, secret);
    acc := Accumulate(k, acc, input[nbBlocks * blockLen..], secret, nbStripes);
    acc := k.acc512(acc, At(input, |input| - STRIPE_LEN), At(secret, |secret| - STRIPE_LEN - LASTACC_START));
  }

  lemma BlockFits(n: nat, nbBlocks: nat, perBlock: nat, len: nat)
    requires n < nbBlocks && perBlock > 0 && len > 0 && nbBlocks == (len - 1) / (64 * perBlock)
    ensures n * (64 * perBlock) == 64 * (n * perBlock)
    ensures (n + 1) * perBlock == n * perBlock + perBlock
    ensures 64 * (n * perBlock + perBlock) <= len
  {
    assert (n + 1) * (64 * perBlock) <= nbBlocks * (64 * perBlock) <= len - 1;
  }
}
