/** The invariant of the XXH3 incremental state, on values: which part of the input has been
    absorbed and which part is buffered. */
module Xxh3Invariant {
  import opened Words
  import opened Xxh3Scalar
  import opened Xxh3Stream

  /** All of `fed`, which is `n` stripes long, has been absorbed into the accumulators. */
  ghost predicate Drained<A>(k: Kernel<A>, init: A, secret: Bytes, fed: Bytes, n: nat, acc: A, pos: nat) {
    && |secret| >= SECRET_SIZE_MIN
    && |fed| == 64 * n
    && Cursor(acc, pos) == Fold(k, Cursor(init, 0), fed, n, secret)
  }

  /** The last stripe absorbed is still at the end of the buffer. */
  ghost predicate TailKept(fed: Bytes, buffer: Bytes) {
    |fed| >= STRIPE_LEN && |buffer| == BUFFER_SIZE && buffer[192..] == fed[|fed| - 64..]
  }

  /** `fed` is `n` absorbed stripes followed by `size` buffered bytes. Once anything has been
      absorbed, at least one byte is buffered, and if few bytes are, the previous stripe is still
      at the end of the buffer. */
  ghost predicate Holds<A>(k: Kernel<A>, init: A, secret: Bytes, fed: Bytes, n: nat, buffer: Bytes, size: nat, acc: A,
                           pos: nat) {
    && |buffer| == BUFFER_SIZE
    && size <= BUFFER_SIZE
    && |fed| == 64 * n + size
    && Drained(k, init, secret, fed[..64 * n], n, acc, pos)
    && buffer[..size] == fed[64 * n..]
    && (n > 0 ==> size > 0 && 64 * n >= BUFFER_SIZE)
    && (n > 0 && size <= 192 ==> TailKept(fed[..64 * n], buffer))
  }

  /** Absorbing `m` stripes more. */
  lemma {:induction false} DrainMore<A>(k: Kernel<A>, init: A, secret: Bytes, fed: Bytes, n: nat, acc: A, pos: nat,
                                        chunk: Bytes, m: nat, acc': A, pos': nat)
    requires |secret| >= SECRET_SIZE_MIN && |chunk| == 64 * m
    requires Drained(k, init, secret, fed, n, acc, pos)
    requires pos < StripesPerBlock(secret)
    requires Cursor(acc', pos') == Fold(k, Cursor(acc, pos), chunk, m, secret)
    ensures Drained(k, init, secret, fed + chunk, n + m, acc', pos')
  {
    var c := Cursor(init, 0);
    FoldSplit(k, c, fed + chunk, 0, fed, n, secret);
    FoldSplit(k, c, fed + chunk, n, chunk, m, secret);
  }

  /** More input that still fits in the buffer. */
  lemma {:induction false} BufferMore<A>(k: Kernel<A>, init: A, secret: Bytes, fed: Bytes, n: nat, buffer: Bytes,
                                         size: nat, acc: A, pos: nat, input: Bytes, buffer': Bytes)
    requires Holds(k, init, secret, fed, n, buffer, size, acc, pos)
    requires size + |input| <= BUFFER_SIZE
    requires buffer' == buffer[..size] + input + buffer[size + |input|..]
    ensures Holds(k, init, secret, fed + input, n, buffer', size + |input|, acc, pos)
  {
    var fed' := fed + input;
    assert fed'[..64 * n] == fed[..64 * n];
    assert buffer'[..size + |input|] == fed'[64 * n..];
    if size + |input| <= 192 {
      assert buffer'[192..] == buffer[192..];
    }
  }

  /** Completing a partly filled buffer with the first bytes of the input, and absorbing it. */
  lemma {:induction false} DrainBuffer<A>(k: Kernel<A>, init: A, secret: Bytes, fed: Bytes, n: nat, buffer: Bytes,
                                          size: nat, acc: A, pos: nat, input: Bytes, buffer': Bytes, acc': A, pos': nat)
    requires Holds(k, init, secret, fed, n, buffer, size, acc, pos) && pos < StripesPerBlock(secret)
    requires size + |input| >= BUFFER_SIZE
    requires buffer' == buffer[..size] + input[..BUFFER_SIZE - size] + buffer[BUFFER_SIZE..]
    requires Cursor(acc', pos') == Fold(k, Cursor(acc, pos), buffer', BUFFER_STRIPES, secret)
    ensures Drained(k, init, secret, fed + input[..BUFFER_SIZE - size], n + BUFFER_STRIPES, acc', pos')
    ensures TailKept(fed + input[..BUFFER_SIZE - size], buffer')
  {
    DrainMore(k, init, secret, fed[..64 * n], n, acc, pos, buffer', BUFFER_STRIPES, acc', pos');
    assert buffer' == fed[64 * n..] + input[..BUFFER_SIZE - size];
    assert fed[..64 * n] + buffer' == fed + input[..BUFFER_SIZE - size];
  }

  /** Absorbing the next buffer-full straight from the input. */
  lemma {:induction false} DrainChunk<A>(k: Kernel<A>, init: A, secret: Bytes, fed: Bytes, input: Bytes, at: nat,
                                         n: nat, acc: A, pos: nat, acc': A, pos': nat)
    requires at + BUFFER_SIZE <= |input|
    requires Drained(k, init, secret, fed + input[..at], n, acc, pos) && pos < StripesPerBlock(secret)
    requires Cursor(acc', pos') == Fold(k, Cursor(acc, pos), input[at..at + BUFFER_SIZE], BUFFER_STRIPES, secret)
    ensures Drained(k, init, secret, fed + input[..at + BUFFER_SIZE], n + BUFFER_STRIPES, acc', pos')
  {
    var chunk := input[at..at + BUFFER_SIZE];
    DrainMore(k, init, secret, fed + input[..at], n, acc, pos, chunk, BUFFER_STRIPES, acc', pos');
    assert (fed + input[..at]) + chunk == fed + input[..at + BUFFER_SIZE];
  }

  /** Remembering the last stripe absorbed straight from the input. */
  lemma {:induction false} KeepTail(fed: Bytes, input: Bytes, at: nat, buffer: Bytes, buffer': Bytes)
    requires STRIPE_LEN <= at <= |input| && |buffer| == BUFFER_SIZE
    requires buffer' == buffer[..192] + input[at - STRIPE_LEN..at] + buffer[BUFFER_SIZE..]
    ensures TailKept(fed + input[..at], buffer')
  {
    var all := fed + input[..at];
    assert all[|all| - 64..] == input[at - 64..at];
    assert buffer'[192..] == input[at - 64..at];
  }

  /** Input left over after everything before it was absorbed goes to the start of the buffer. */
  lemma {:induction false} BufferRest<A>(k: Kernel<A>, init: A, secret: Bytes, fed: Bytes, input: Bytes, at: nat,
                                         n: nat, acc: A, pos: nat, buffer: Bytes, buffer': Bytes)
    requires at < |input| <= at + BUFFER_SIZE && |buffer| == BUFFER_SIZE && 64 * n >= BUFFER_SIZE
    requires Drained(k, init, secret, fed + input[..at], n, acc, pos)
    requires TailKept(fed + input[..at], buffer)
    requires buffer' == buffer[..0] + input[at..] + buffer[|input| - at..]
    ensures Holds(k, init, secret, fed + input, n, buffer', |input| - at, acc, pos)
  {
    var all := fed + input;
    assert all[..64 * n] == fed + input[..at];
    assert all[64 * n..] == input[at..];
    if |input| - at <= 192 {
      assert buffer'[192..] == buffer[192..];
    }
  }

  /** Digesting a long input from the state: the stripes still buffered, then the last 64 bytes. */
  lemma {:induction false} DigestIsLongAcc<A>(k: Kernel<A>, init: A, secret: Bytes, fed: Bytes, n: nat, buffer: Bytes,
                                              size: nat, acc: A, pos: nat, acc': A, pos': nat, last: Stripe)
    requires |fed| > MIDSIZE_MAX && size > 0
    requires Holds(k, init, secret, fed, n, buffer, size, acc, pos) && pos < StripesPerBlock(secret)
    requires Cursor(acc', pos') == Fold(k, Cursor(acc, pos), buffer, FullStripes(size), secret)
    requires last == fed[|fed| - 64..]
    ensures k.acc512(acc', last, At(secret, |secret| - STRIPE_LEN - LASTACC_START)) == LongAcc(k, init, fed, secret)
  {
    var c := Cursor(init, 0);
    FoldSplit(k, c, fed, 0, fed[..64 * n], n, secret);
    Continues(buffer, size, fed, 64 * n);
    FoldSplit(k, c, fed, n, buffer, FullStripes(size), secret);
    assert FullStripes(|fed|) == n + FullStripes(size);
    assert At(fed, |fed| - 64) == last;
  }

  lemma {:induction false} Continues(buffer: Bytes, size: nat, fed: Bytes, at: nat)
    requires size <= |buffer| && at + size == |fed| && buffer[..size] == fed[at..]
    ensures forall i :: 0 <= i < size ==> buffer[i] == fed[at + i]
  {
    forall i | 0 <= i < size
      ensures buffer[i] == fed[at + i]
    {
      assert buffer[..size][i] == fed[at..][i];
    }
  }

  /** When fewer than 64 bytes are buffered, the last stripe straddles the end and the start of the buffer. */
  lemma {:induction false} StraddlingStripe<A>(k: Kernel<A>, init: A, secret: Bytes, fed: Bytes, n: nat,
                                               buffer: Bytes, size: nat, acc: A, pos: nat)
    requires |fed| > MIDSIZE_MAX
    requires Holds(k, init, secret, fed, n, buffer, size, acc, pos)
    requires size < STRIPE_LEN
    ensures buffer[BUFFER_SIZE - (64 - size)..] + buffer[..size] == fed[|fed| - 64..]
  {
    var absorbed := fed[..64 * n];
    assert TailKept(absorbed, buffer);
    assert buffer[BUFFER_SIZE - (64 - size)..] == buffer[192..][size..] == absorbed[|absorbed| - 64..][size..];
    assert absorbed[|absorbed| - 64..][size..] == fed[|fed| - 64..][..64 - size];
    assert fed[|fed| - 64..] == fed[|fed| - 64..][..64 - size] + fed[64 * n..];
  }
}
