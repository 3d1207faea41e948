/** The scalar building blocks of XXH3: the wide multiply, the mixers, the short-input
    hashes, the default secret, and the accumulate / scramble / custom-secret kernels. */
module Xxh3Scalar {
  import opened Words

  const PRIME32_1: bv32 := 0x9E3779B1
  const PRIME32_2: bv32 := 0x85EBCA77
  const PRIME32_3: bv32 := 0xC2B2AE3D
  const PRIME64_1: bv64 := 0x9E3779B185EBCA87
  const PRIME64_2: bv64 := 0xC2B2AE3D27D4EB4F
  const PRIME64_3: bv64 := 0x165667B19E3779F9
  const PRIME64_4: bv64 := 0x85EBCA77C2B2AE63
  const PRIME64_5: bv64 := 0x27D4EB2F165667C5

  const STRIPE_LEN: nat := 64
  const CONSUME_RATE: nat := 8
  const SECRET_SIZE_MIN: nat := 136
  const SECRET_DEFAULT_SIZE: nat := 192
  const MIDSIZE_MAX: nat := 240
  const LASTACC_START: nat := 7
  const MERGEACCS_START: nat := 11

  /** The eight 64-bit accumulators. */
  type Lanes = s: seq<bv64> | |s| == 8 witness [0, 0, 0, 0, 0, 0, 0, 0]

  /** One 64-byte unit of input or of secret. */
  type Stripe = s: Bytes | |s| == 64 witness seq(64, _ => 0)

  const INIT_ACC: Lanes :=
    [PRIME32_3 as bv64, PRIME64_1, PRIME64_2, PRIME64_3, PRIME64_4, PRIME32_2 as bv64, PRIME64_5, PRIME32_1 as bv64]

  // ---------------------------------------------------------------- wide multiply

  /** XXH_mult32to64: the product of the low halves; it fits in 64 bits. */
  function Mult32to64(x: nat, y: nat): (p: nat)
    ensures x < W32 && y < W32 ==> p == x * y
    ensures p <= (W32 - 1) * (W32 - 1)
  {
    ProductBound(x % W32, y % W32, W32 - 1, W32 - 1);
    (x % W32) * (y % W32)
  }

  lemma ProductBound(a: nat, b: nat, m: nat, n: nat)
    requires a <= m && b <= n
    ensures a * b <= m * n
  {
    assert a * b <= m * b;
    assert m * b <= m * n;
  }

  /** Adding up the partial products of the schoolbook multiply. Every sum is reduced modulo 2^64
      as the machine would reduce it; `<< 32` drops the bits shifted out, and the two operands of
      the final bitwise or have no bit in common, so it is a sum. */
  function AddPartialProducts(loLo: nat, hiLo: nat, loHi: nat, hiHi: nat): (r: (nat, nat)) {
    var cross := (loLo / W32 + hiLo % W32 + loHi) % W64;
    var upper := (hiLo / W32 + cross / W32 + hiHi) % W64;
    var lower := (cross * W32) % W64 + loLo % W32;
    (lower, upper)
  }

  /** Neither sum of the multiply wraps. */
  lemma SumsFit(loLo: nat, hiLo: nat, loHi: nat, hiHi: nat)
    requires loLo <= (W32 - 1) * (W32 - 1) && hiLo <= (W32 - 1) * (W32 - 1)
    requires loHi <= (W32 - 1) * (W32 - 1) && hiHi <= (W32 - 1) * (W32 - 1)
    ensures loLo / W32 + hiLo % W32 + loHi < W64
    ensures hiLo / W32 + (loLo / W32 + hiLo % W32 + loHi) / W32 + hiHi < W64
  {}

  /** Shifting a word left by half a word drops its upper half. */
  lemma ShiftedHalf(cross: nat)
    ensures (cross * W32) % W64 == (cross % W32) * W32
    ensures cross * W32 == (cross / W32) * W64 + (cross % W32) * W32
  {
    assert cross * W32 == (cross / W32) * W64 + (cross % W32) * W32;
  }

  /** Putting the digits together again. */
  lemma Recombine(a: nat, a0: nat, b: nat, b0: nat, ch: nat, cl: nat, loHi: nat, hiHi: nat)
    requires ch * W32 + cl == a + b0 + loHi
    ensures (b + ch + hiHi) * W64 + (cl * W32 + a0) == hiHi * W64 + (b * W32 + b0) * W32 + loHi * W32 + (a * W32 + a0)
  {}

  lemma Digits(x: nat)
    ensures (x / W32) * W32 + x % W32 == x && x % W32 < W32
  {}

  /** So no carry is lost. */
  lemma NoCarryIsLost(loLo: nat, hiLo: nat, loHi: nat, hiHi: nat)
    requires loLo <= (W32 - 1) * (W32 - 1) && hiLo <= (W32 - 1) * (W32 - 1)
    requires loHi <= (W32 - 1) * (W32 - 1) && hiHi <= (W32 - 1) * (W32 - 1)
    ensures
      var (lower, upper) := AddPartialProducts(loLo, hiLo, loHi, hiHi);
      && lower < W64
      && upper < W64
      && upper * W64 + lower == hiHi * W64 + hiLo * W32 + loHi * W32 + loLo
  {
    SumsFit(loLo, hiLo, loHi, hiHi);
    var cross := loLo / W32 + hiLo % W32 + loHi;
    ShiftedHalf(cross);
    Digits(loLo);
    Digits(hiLo);
    Digits(cross);
    Recombine(loLo / W32, loLo % W32, hiLo / W32, hiLo % W32, cross / W32, cross % W32, loHi, hiHi);
    WordMod(cross);
    WordMod(hiLo / W32 + cross / W32 + hiHi);
  }

  lemma WordMod(x: nat)
    requires x < W64
    ensures x % W64 == x
  {}

  /** Expanding a product of two two-digit numbers. */
  lemma DigitProduct(a1: nat, a0: nat, b1: nat, b0: nat, w: nat)
    ensures (a1 * w + a0) * (b1 * w + b0) == (a1 * b1) * (w * w) + (a1 * b0) * w + (a0 * b1) * w + a0 * b0
  {
    calc {
      (a1 * w + a0) * (b1 * w + b0);
      (a1 * w + a0) * (b1 * w) + (a1 * w + a0) * b0;
      (a1 * w) * (b1 * w) + a0 * (b1 * w) + (a1 * w) * b0 + a0 * b0;
      { assert (a1 * w) * (b1 * w) == (a1 * b1) * (w * w); }
      { assert a0 * (b1 * w) == (a0 * b1) * w && (a1 * w) * b0 == (a1 * b0) * w; }
      (a1 * b1) * (w * w) + (a0 * b1) * w + (a1 * b0) * w + a0 * b0;
    }
  }

  /** The portable schoolbook 64x64 to 128-bit multiply is exact: the two result words are the low and
      the high half of the true product. */
  function Mult64to128(lhs: nat, rhs: nat): (r: (nat, nat))
    requires lhs < W64 && rhs < W64
    ensures r.0 < W64 && r.1 < W64 && r.1 * W64 + r.0 == lhs * rhs
  {
    DigitProduct(lhs / W32, lhs % W32, rhs / W32, rhs % W32, W32);
    NoCarryIsLost(
      Mult32to64(lhs % W32, rhs % W32), Mult32to64(lhs / W32, rhs % W32),
      Mult32to64(lhs % W32, rhs / W32), Mult32to64(lhs / W32, rhs / W32));
    AddPartialProducts(
      Mult32to64(lhs % W32, rhs % W32), Mult32to64(lhs / W32, rhs % W32),
      Mult32to64(lhs % W32, rhs / W32), Mult32to64(lhs / W32, rhs / W32))
  }

  /** The two halves of the product, folded into one word. */
  function FoldProduct(lhs: nat, rhs: nat): bv64
    requires lhs < W64 && rhs < W64
  {
    var r := Mult64to128(lhs, rhs);
    Word64(r.0) ^ Word64(r.1)
  }

  function Mul128Fold64(lhs: bv64, rhs: bv64): bv64 {
    FoldProduct(lhs as nat, rhs as nat)
  }

  // ---------------------------------------------------------------- mixers

  function Xorshift64(v: bv64, shift: nat): bv64
    requires 0 < shift < 64
  {
    v ^ (v >> shift)
  }

  function Xxh64Avalanche(h: bv64): bv64 {
    var h1 := (h ^ (h >> 33)) * PRIME64_2;
    var h2 := (h1 ^ (h1 >> 29)) * PRIME64_3;
    h2 ^ (h2 >> 32)
  }

  function Avalanche(h: bv64): bv64 {
    Xorshift64(Xorshift64(h, 37) * 0x165667919E3779F9, 32)
  }

  function Rrmxmx(h: bv64, len: bv64): bv64 {
    var h1 := (h ^ (Rotl64(h, 49) ^ Rotl64(h, 24))) * 0x9FB21C651E98DF25;
    var h2 := (h1 ^ ((h1 >> 35) + len)) * 0x9FB21C651E98DF25;
    Xorshift64(h2, 28)
  }

  function Mix16B(input: Bytes, at: nat, secret: Bytes, key: nat, seed: bv64): bv64
    requires at + 16 <= |input| && key + 16 <= |secret|
  {
    Mul128Fold64(
      ReadLE64(input, at) ^ (ReadLE64(secret, key) + seed),
      ReadLE64(input, at + 8) ^ (ReadLE64(secret, key + 8) - seed))
  }

  // ---------------------------------------------------------------- inputs of at most 240 bytes

  function Len1to3(input: Bytes, secret: Bytes, seed: bv64): bv64
    requires 1 <= |input| <= 3 && |secret| >= SECRET_SIZE_MIN
  {
    var c1, c2, c3 := input[0] as bv32, input[|input| / 2] as bv32, input[|input| - 1] as bv32;
    var combined := (c1 << 16) | (c2 << 24) | c3 | ((|input| as bv32) << 8);
    var bitflip := ((ReadLE32(secret, 0) ^ ReadLE32(secret, 4)) as bv64) + seed;
    Xxh64Avalanche((combined as bv64) ^ bitflip)
  }

  function Len4to8(input: Bytes, secret: Bytes, seed: bv64): bv64
    requires 4 <= |input| <= 8 && |secret| >= SECRET_SIZE_MIN
  {
    var seed' := seed ^ ((Swap32((seed & 0xffff_ffff) as bv32) as bv64) << 32);
    var input1, input2 := ReadLE32(input, 0) as bv64, ReadLE32(input, |input| - 4) as bv64;
    var bitflip := (ReadLE64(secret, 8) ^ ReadLE64(secret, 16)) - seed';
    Rrmxmx((input2 + (input1 << 32)) ^ bitflip, |input| as bv64)
  }

  function Len9to16(input: Bytes, secret: Bytes, seed: bv64): bv64
    requires 9 <= |input| <= 16 && |secret| >= SECRET_SIZE_MIN
  {
    var bitflip1 := (ReadLE64(secret, 24) ^ ReadLE64(secret, 32)) + seed;
    var bitflip2 := (ReadLE64(secret, 40) ^ ReadLE64(secret, 48)) - seed;
    var lo := ReadLE64(input, 0) ^ bitflip1;
    var hi := ReadLE64(input, |input| - 8) ^ bitflip2;
    Avalanche((|input| as bv64) + Swap64(lo) + hi + Mul128Fold64(lo, hi))
  }

  function Len0to16(input: Bytes, secret: Bytes, seed: bv64): bv64
    requires |input| <= 16 && |secret| >= SECRET_SIZE_MIN
  {
    if |input| > 8 then Len9to16(input, secret, seed)
    else if |input| >= 4 then Len4to8(input, secret, seed)
    else if |input| > 0 then Len1to3(input, secret, seed)
    else Xxh64Avalanche(seed ^ (ReadLE64(secret, 56) ^ ReadLE64(secret, 64)))
  }

  function Add64(x: bv64, y: bv64): bv64 {
    x + y
  }

  /** What the sums over an input of `n` bytes start from. */
  function LengthStart(n: nat): bv64
    requires n < W64
  {
    Word64(n) * PRIME64_1
  }

  /** The mix of 16 bytes of the input at one offset with 16 of the secret at another. */
  function MixAt(input: Bytes, secret: Bytes, seed: bv64): (nat, nat) -> bv64 {
    (at: nat, key: nat) =>
      if at + 16 <= |input| && key + 16 <= |secret| then Mix16B(input, at, secret, key, seed) else 0
  }

  /** The nested branches for `n` bytes, for any way to add and to mix. */
  function Branches<W>(add: (W, W) -> W, mix: (nat, nat) -> W, acc0: W, n: nat): W
    requires 16 < n <= 128
  {
    var acc1 := if n <= 96 then acc0 else add(add(acc0, mix(48, 96)), mix(n - 64, 112));
    var acc2 := if n <= 64 then acc1 else add(add(acc1, mix(32, 64)), mix(n - 48, 80));
    var acc3 := if n <= 32 then acc2 else add(add(acc2, mix(16, 32)), mix(n - 32, 48));
    add(add(acc3, mix(0, 0)), mix(n - 16, 16))
  }

  function Len17to128(input: Bytes, secret: Bytes, seed: bv64): bv64
    requires 16 < |input| <= 128 && |secret| >= SECRET_SIZE_MIN
  {
    Avalanche(Branches(Add64, MixAt(input, secret, seed), LengthStart(|input|), |input|))
  }

  /** Pair `k` of the 16-byte groups from both ends of `n` bytes, counted from the outside. */
  function GroupPair<W>(add: (W, W) -> W, mix: (nat, nat) -> W, acc: W, n: nat, k: nat): W
    requires 0 < 16 * k <= n
  {
    add(add(acc, mix(16 * (k - 1), 32 * (k - 1))), mix(n - 16 * k, 32 * k - 16))
  }

  /** The `k` outermost pairs, from the inside out. */
  function Pairs<W>(add: (W, W) -> W, mix: (nat, nat) -> W, acc: W, n: nat, k: nat): W
    requires 16 * k <= n
  {
    if k == 0 then acc else Pairs(add, mix, GroupPair(add, mix, acc, n, k), n, k - 1)
  }

  /** The branches take one pair for each 32 bytes begun. */
  lemma {:induction false} BranchesArePairs<W>(add: (W, W) -> W, mix: (nat, nat) -> W, acc: W, n: nat, k: nat)
    requires 16 < n <= 128 && 32 * (k - 1) < n <= 32 * k && 16 * k <= n
    ensures Branches(add, mix, acc, n) == Pairs(add, mix, acc, n, k)
  {
    if k == 4 {
      FourPairs(add, mix, acc, n);
    } else if k == 3 {
      ThreePairs(add, mix, acc, n);
    } else if k == 2 {
      TwoPairs(add, mix, acc, n);
    } else {
      OnePair(add, mix, acc, n);
    }
  }

  lemma {:induction false} OnePair<W>(add: (W, W) -> W, mix: (nat, nat) -> W, acc: W, n: nat)
    requires 16 <= n
    ensures Pairs(add, mix, acc, n, 1) == add(add(acc, mix(0, 0)), mix(n - 16, 16))
  {}

  lemma {:induction false} TwoPairs<W>(add: (W, W) -> W, mix: (nat, nat) -> W, acc: W, n: nat)
    requires 32 <= n
    ensures
      var next := add(add(acc, mix(16, 32)), mix(n - 32, 48));
      Pairs(add, mix, acc, n, 2) == add(add(next, mix(0, 0)), mix(n - 16, 16))
  {
    OnePair(add, mix, GroupPair(add, mix, acc, n, 2), n);
  }

  lemma {:induction false} ThreePairs<W>(add: (W, W) -> W, mix: (nat, nat) -> W, acc: W, n: nat)
    requires 48 <= n
    ensures
      var next := add(add(add(add(acc, mix(32, 64)), mix(n - 48, 80)), mix(16, 32)), mix(n - 32, 48));
      Pairs(add, mix, acc, n, 3) == add(add(next, mix(0, 0)), mix(n - 16, 16))
  {
    TwoPairs(add, mix, GroupPair(add, mix, acc, n, 3), n);
  }

  lemma {:induction false} FourPairs<W>(add: (W, W) -> W, mix: (nat, nat) -> W, acc: W, n: nat)
    requires 64 <= n
    ensures
      var acc1 := add(add(acc, mix(48, 96)), mix(n - 64, 112));
      var acc2 := add(add(acc1, mix(32, 64)), mix(n - 48, 80));
      var acc3 := add(add(acc2, mix(16, 32)), mix(n - 32, 48));
      Pairs(add, mix, acc, n, 4) == add(add(acc3, mix(0, 0)), mix(n - 16, 16))
  {
    ThreePairs(add, mix, GroupPair(add, mix, acc, n, 4), n);
  }

  /** `acc` plus the mixes of the 16-byte groups `lo .. hi` of the input, group `i` keyed at
      secret offset `16 * (i - lo) + key`. */
  function MixGroups<W>(add: (W, W) -> W, mix: (nat, nat) -> W, acc: W, lo: nat, hi: nat, key: nat): W
    requires lo <= hi
    decreases hi
  {
    if lo == hi then acc
    else add(MixGroups(add, mix, acc, lo, hi - 1, key), mix(16 * (hi - 1), 16 * (hi - 1 - lo) + key))
  }

  function Len129to240(input: Bytes, secret: Bytes, seed: bv64): bv64
    requires 128 < |input| <= MIDSIZE_MAX && |secret| >= SECRET_SIZE_MIN
  {
    var n, mix := |input|, MixAt(input, secret, seed);
    var acc0 := Avalanche(MixGroups(Add64, mix, LengthStart(n), 0, 8, 0));
    Avalanche(Add64(MixGroups(Add64, mix, acc0, 8, n / 16, 3), mix(n - 16, SECRET_SIZE_MIN - 17)))
  }

  /** The hash of an input of at most 240 bytes. */
  function ShortHash(input: Bytes, secret: Bytes, seed: bv64): bv64
    requires |input| <= MIDSIZE_MAX && |secret| >= SECRET_SIZE_MIN
  {
    if |input| <= 16 then Len0to16(input, secret, seed)
    else if |input| <= 128 then Len17to128(input, secret, seed)
    else Len129to240(input, secret, seed)
  }

  // ---------------------------------------------------------------- long-input kernels

  /** `i ^ 1`. */
  function Neighbour(i: nat): (k: nat)
    requires i < 8
    ensures k < 8
  {
    if i % 2 == 0 then i + 1 else i - 1
  }

  /** The first `n` rounds of absorbing eight words: each data word is added to the neighbouring lane,
      and its product to its own lane. */
  function Rounds<W>(add: (W, W) -> W, acc: seq<W>, data: seq<W>, product: seq<W>, n: nat): (r: seq<W>)
    requires |acc| == |data| == |product| == 8 && n <= 8
    ensures |r| == 8
  {
    if n == 0 then acc else
    var lanes := Rounds(add, acc, data, product, n - 1);
    var i := n - 1;
    var swapped := lanes[Neighbour(i) := add(lanes[Neighbour(i)], data[i])];
    swapped[i := add(swapped[i], product[i])]
  }

  /** What has reached lane `i` after `n` rounds: its own product, and the word of the other lane of
      its pair. */
  lemma {:induction false} LaneAfter<W>(add: (W, W) -> W, acc: seq<W>, data: seq<W>, product: seq<W>, n: nat, i: nat)
    requires |acc| == |data| == |product| == 8 && n <= 8 && i < 8
    ensures i % 2 == 0 ==>
      Rounds(add, acc, data, product, n)[i] ==
      if n <= i then acc[i]
      else if n == i + 1 then add(acc[i], product[i])
      else add(add(acc[i], product[i]), data[i + 1])
    ensures i % 2 == 1 ==>
      Rounds(add, acc, data, product, n)[i] ==
      if n < i then acc[i]
      else if n == i then add(acc[i], data[i - 1])
      else add(add(acc[i], data[i - 1]), product[i])
    decreases n
  {
    if n > 0 {
      LaneAfter(add, acc, data, product, n - 1, i);
    }
  }

  /** Absorbing eight words keyed by eight others, for any way to add and to mix two words. */
  function Absorb<W>(add: (W, W) -> W, mix: (W, W) -> W, acc: seq<W>, data: seq<W>, key: seq<W>): (r: seq<W>)
    requires |acc| == |data| == |key| == 8
    ensures |r| == 8
  {
    Rounds(add, acc, data, seq(8, i requires 0 <= i < 8 => mix(data[i], key[i])), 8)
  }

  lemma {:induction false} AbsorbedLane<W>(add: (W, W) -> W, mix: (W, W) -> W, acc: seq<W>, data: seq<W>, key: seq<W>,
                                           i: nat)
    requires |acc| == |data| == |key| == 8 && i < 8
    ensures i % 2 == 0 ==>
      Absorb(add, mix, acc, data, key)[i] == add(add(acc[i], mix(data[i], key[i])), data[i + 1])
    ensures i % 2 == 1 ==>
      Absorb(add, mix, acc, data, key)[i] == add(add(acc[i], data[i - 1]), mix(data[i], key[i]))
  {
    LaneAfter(add, acc, data, seq(8, i requires 0 <= i < 8 => mix(data[i], key[i])), 8, i);
  }

  /** The product of the two halves of the keyed word. */
  function KeyedProduct(data: bv64, key: bv64): bv64 {
    ((data ^ key) & 0xffff_ffff) * ((data ^ key) >> 32)
  }

  /** The eight words of a stripe. */
  function StripeWords(s: Stripe): Lanes {
    seq(8, i requires 0 <= i < 8 => ReadLE64(s, 8 * i))
  }

  function Accumulate512(acc: Lanes, input: Stripe, secret: Stripe): Lanes {
    Absorb(Add64, KeyedProduct, acc, StripeWords(input), StripeWords(secret))
  }

  /** Absorbing a stripe, lane by lane: the word of the other lane of the pair and the product of the
      two halves of the lane's own keyed word are added, in the order of the rounds. */
  lemma {:induction false} AccumulatedLane(acc: Lanes, input: Stripe, secret: Stripe, data: Lanes, key: Lanes, i: nat)
    requires data == StripeWords(input) && key == StripeWords(secret) && i < 8
    ensures i % 2 == 0 ==>
      Accumulate512(acc, input, secret)[i] == Add64(Add64(acc[i], KeyedProduct(data[i], key[i])), data[i + 1])
    ensures i % 2 == 1 ==>
      Accumulate512(acc, input, secret)[i] == Add64(Add64(acc[i], data[i - 1]), KeyedProduct(data[i], key[i]))
  {
    AbsorbedLane(Add64, KeyedProduct, acc, data, key, i);
  }

  lemma {:induction false} WordOfStripe(s: Stripe, i: nat)
    requires i < 8
    ensures StripeWords(s)[i] == ReadLE64(s, 8 * i)
  {}

  /** The loop of XXH3_accumulate_512_scalar, in place, for any way to add and to mix two words. */
  method AbsorbInPlace<W>(add: (W, W) -> W, mix: (W, W) -> W, acc: array<W>, data: seq<W>, key: seq<W>)
    requires acc.Length == |data| == |key| == 8
    modifies acc
    ensures acc[..] == Absorb(add, mix, old(acc[..]), data, key)
  {
    ghost var acc0, product := acc[..], seq(8, i requires 0 <= i < 8 => mix(data[i], key[i]));
    for i := 0 to 8
      invariant acc[..] == Rounds(add, acc0, data, product, i)
    {
      var other := if i % 2 == 0 then i + 1 else i - 1;
      acc[other] := add(acc[other], data[i]);
      acc[i] := add(acc[i], mix(data[i], key[i]));
    }
  }

  method AccumulateScalar(acc: array<bv64>, input: Stripe, secret: Stripe)
    requires acc.Length == 8
    modifies acc
    ensures acc[..] == Accumulate512(old(acc[..]), input, secret)
  {
    AbsorbInPlace(Add64, KeyedProduct, acc, StripeWords(input), StripeWords(secret));
  }

  function ScrambledWord(acc: bv64, key: bv64): bv64 {
    (Xorshift64(acc, 47) ^ key) * (PRIME32_1 as bv64)
  }

  function ScrambleAcc(acc: Lanes, secret: Stripe): Lanes {
    seq(8, j requires 0 <= j < 8 => ScrambledWord(acc[j], ReadLE64(secret, 8 * j)))
  }

  function Keyed(word: bv64, key: bv64): bv64 {
    word ^ key
  }

  function Mix2Accs(acc: Lanes, i: nat, secret: Bytes, key: nat): bv64
    requires i + 2 <= 8 && key + 16 <= |secret|
  {
    Mul128Fold64(Keyed(acc[i], ReadLE64(secret, key)), Keyed(acc[i + 1], ReadLE64(secret, key + 8)))
  }

  /** The mix of pair `i` of the accumulators with its 16 bytes of the secret from `key` on. */
  function PairAt(acc: Lanes, secret: Bytes, key: nat, i: nat): bv64 {
    if i < 4 && key + 16 * i + 16 <= |secret| then Mix2Accs(acc, 2 * i, secret, key + 16 * i) else 0
  }

  function PairMix(acc: Lanes, secret: Bytes, key: nat): nat -> bv64 {
    (i: nat) => PairAt(acc, secret, key, i)
  }

  function Four<W>(add: (W, W) -> W, mix: nat -> W, start: W): W {
    add(add(add(add(start, mix(0)), mix(1)), mix(2)), mix(3))
  }

  function MergeAccs(acc: Lanes, secret: Bytes, key: nat, start: bv64): bv64
    requires key + 64 <= |secret|
  {
    Avalanche(Four(Add64, PairMix(acc, secret, key), start))
  }

  // ---------------------------------------------------------------- secrets

  /** The default secret, as its 24 little-endian 64-bit words. */
  function SecretWord(k: nat): bv64
    requires k < 24
  {
    match k
    case 0 => 0xbe4ba423396cfeb8
    case 1 => 0x1cad21f72c81017c
    case 2 => 0xdb979083e96dd4de
    case 3 => 0x1f67b3b7a4a44072
    case 4 => 0x78e5c0cc4ee679cb
    case 5 => 0x2172ffcc7dd05a82
    case 6 => 0x8e2443f7744608b8
    case 7 => 0x4c263a81e69035e0
    case 8 => 0xcb00c391bb52283c
    case 9 => 0xa32e531b8b65d088
    case 10 => 0x4ef90da297486471
    case 11 => 0xd8acdea946ef1938
    case 12 => 0x3f349ce33f76faa8
    case 13 => 0x1d4f0bc7c7bbdcf9
    case 14 => 0x3159b4cd4be0518a
    case 15 => 0x647378d9c97e9fc8
    case 16 => 0xc3ebd33483acc5ea
    case 17 => 0xeb6313faffa081c5
    case 18 => 0x49daf0b751dd0d17
    case 19 => 0x9e68d429265516d3
    case 20 => 0xfca1477d58be162b
    case 21 => 0xce31d07ad1b8f88f
    case 22 => 0x280416958f3acb45
    case _ => 0x7e404bbbcafbd7af
  }

  function SecretByte(i: nat): bv8
    requires i < 192
  {
    WriteLE64(SecretWord(i / 8))[i % 8]
  }

  function KSecret(): (s: Bytes)
    ensures |s| == SECRET_DEFAULT_SIZE
  {
    seq(192, i requires 0 <= i < 192 => SecretByte(i))
  }

  /** Pair `i` of words of a secret, altered by a seed: the first plus the seed, the second minus it. */
  function SeededPair(base: Bytes, seed: bv64, i: nat): (s: Bytes)
    requires 16 * (i + 1) <= |base|
    ensures |s| == 16
  {
    WriteLE64(ReadLE64(base, 16 * i) + seed) + WriteLE64(ReadLE64(base, 16 * i + 8) - seed)
  }

  function SeededPairs(base: Bytes, seed: bv64, n: nat): (s: Bytes)
    requires 16 * n <= |base|
    ensures |s| == 16 * n
  {
    if n == 0 then [] else SeededPairs(base, seed, n - 1) + SeededPair(base, seed, n - 1)
  }

  /** The secret derived from a seed. */
  function CustomSecret(seed: bv64): (s: Bytes)
    ensures |s| == SECRET_DEFAULT_SIZE
  {
    SeededPairs(KSecret(), seed, |KSecret()| / 16)
  }

  /** Where strings grow by parts of 16 bytes, every part stays in its place. */
  lemma {:induction false} PartsKept(strings: seq<Bytes>, parts: seq<Bytes>, n: nat, i: nat)
    requires |strings| == |parts| + 1 && i < n <= |parts|
    requires forall k :: 0 <= k <= |parts| ==> |strings[k]| == 16 * k
    requires forall k :: 0 <= k < |parts| ==> |parts[k]| == 16 && strings[k + 1] == strings[k] + parts[k]
    ensures strings[n][16 * i..16 * i + 16] == parts[i]
    decreases n
  {
    assert strings[n - 1 + 1] == strings[n - 1] + parts[n - 1];
    if i < n - 1 {
      PartsKept(strings, parts, n - 1, i);
      assert strings[n][16 * i..16 * i + 16] == strings[n - 1][16 * i..16 * i + 16];
    }
  }

  lemma {:induction false} PairsKept(base: Bytes, seed: bv64, n: nat, i: nat)
    requires i < n && 16 * n <= |base|
    ensures SeededPairs(base, seed, n)[16 * i..16 * i + 16] == SeededPair(base, seed, i)
  {
    PartsKept(seq(n + 1, k requires 0 <= k <= n => SeededPairs(base, seed, k)),
              seq(n, k requires 0 <= k < n => SeededPair(base, seed, k)), n, i);
  }

  /** The words of the default secret are read back from its bytes. */
  lemma {:induction false} SecretReads(k: nat)
    requires k < 24
    ensures ReadLE64(KSecret(), 8 * k) == SecretWord(k)
  {
    var c := WriteLE64(SecretWord(k));
    forall i | 0 <= i < 8
      ensures KSecret()[8 * k + i] == c[i]
    {
      assert (8 * k + i) / 8 == k && (8 * k + i) % 8 == i;
    }
    assert KSecret()[8 * k..8 * k + 8] == c;
    ReadsBack64(KSecret(), 8 * k, SecretWord(k), c);
  }

  lemma {:induction false} PairReads(s: Bytes, at: nat, a: bv64, b: bv64)
    requires at + 16 <= |s| && s[at..at + 16] == WriteLE64(a) + WriteLE64(b)
    ensures ReadLE64(s, at) == a && ReadLE64(s, at + 8) == b
  {
    var c, d := WriteLE64(a), WriteLE64(b);
    Halved(s, at, c, d);
    ReadsBack64(s, at, a, c);
    ReadsBack64(s, at + 8, b, d);
  }

  lemma {:induction false} Halved(s: Bytes, at: nat, c: Bytes, d: Bytes)
    requires |c| == |d| == 8 && at + 16 <= |s| && s[at..at + 16] == c + d
    ensures s[at..at + 8] == c && s[at + 8..at + 16] == d
  {
    assert s[at..at + 8] == s[at..at + 16][..8] && s[at + 8..at + 16] == s[at..at + 16][8..];
  }

  lemma {:induction false} SeededReads(base: Bytes, seed: bv64, n: nat, i: nat)
    requires i < n && 16 * n <= |base|
    ensures ReadLE64(SeededPairs(base, seed, n), 16 * i) == ReadLE64(base, 16 * i) + seed
    ensures ReadLE64(SeededPairs(base, seed, n), 16 * i + 8) == ReadLE64(base, 16 * i + 8) - seed
  {
    PairsKept(base, seed, n, i);
    PairReads(SeededPairs(base, seed, n), 16 * i, ReadLE64(base, 16 * i) + seed, ReadLE64(base, 16 * i + 8) - seed);
  }

  /** The secret derived from a seed, word by word: the default one plus and minus the seed in turn. */
  lemma {:induction false} CustomSecretReads(seed: bv64, i: nat)
    requires i < 12
    ensures ReadLE64(CustomSecret(seed), 16 * i) == ReadLE64(KSecret(), 16 * i) + seed
    ensures ReadLE64(CustomSecret(seed), 16 * i + 8) == ReadLE64(KSecret(), 16 * i + 8) - seed
  {
    SeededReads(KSecret(), seed, |KSecret()| / 16, i);
  }
}
