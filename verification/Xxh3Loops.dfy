/** The remaining loops of the scalar XXH3, as the source runs them, and the places of the secret they read. */
module Xxh3Loops {
  import opened Words
  import opened Xxh3Scalar
  import opened Xxh3Stream

  /** The loop of XXH3_scrambleAcc_scalar: every lane in place, with its own word of the secret. */
  method ScrambleScalar(acc: array<bv64>, secret: Stripe)
    requires acc.Length == 8
    modifies acc
    ensures acc[..] == ScrambleAcc(old(acc[..]), secret)
  {
    for i := 0 to 8
      invariant forall j :: 0 <= j < i ==> acc[j] == ScrambledWord(old(acc[j]), ReadLE64(secret, 8 * j))
      invariant forall j :: i <= j < 8 ==> acc[j] == old(acc[j])
    {
      acc[i] := ScrambledWord(acc[i], ReadLE64(secret, 8 * i));
    }
  }

  function Sum<W>(add: (W, W) -> W, mix: nat -> W, start: W, n: nat): W {
    if n == 0 then start else add(Sum(add, mix, start, n - 1), mix(n - 1))
  }

  lemma {:induction false} FourIsSum<W>(add: (W, W) -> W, mix: nat -> W, start: W)
    ensures Four(add, mix, start) == Sum(add, mix, start, 4)
  {
    assert Sum(add, mix, start, 2) == add(Sum(add, mix, start, 1), mix(1));
    assert Sum(add, mix, start, 3) == add(Sum(add, mix, start, 2), mix(2));
  }

  /** What the loop of XXH3_mergeAccs adds in round `i`. */
  method MixPair(acc: Lanes, secret: Bytes, key: nat, i: nat) returns (m: bv64)
    requires i < 4 && key + 64 <= |secret|
    ensures m == PairMix(acc, secret, key)(i)
  {
    m := Mix2Accs(acc, 2 * i, secret, key + 16 * i);
    PairOfLanes(acc, secret, key, i);
  }

  lemma {:induction false} PairOfLanes(acc: Lanes, secret: Bytes, key: nat, i: nat)
    requires i < 4 && key + 64 <= |secret|
    ensures PairAt(acc, secret, key, i) == Mix2Accs(acc, 2 * i, secret, key + 16 * i)
  {}

  /** The loop of XXH3_mergeAccs. */
  method Merge(acc: Lanes, secret: Bytes, key: nat, start: bv64) returns (h: bv64)
    requires key + 64 <= |secret|
    ensures h == MergeAccs(acc, secret, key, start)
  {
    h := start;
    for i := 0 to 4
      invariant h == Sum(Add64, PairMix(acc, secret, key), start, i)
    {
      var m := MixPair(acc, secret, key, i);
      h := Add64(h, m);
    }
    FourIsSum(Add64, PairMix(acc, secret, key), start);
    h := Avalanche(h);
  }

  /** The loops of XXH3_len_129to240_64b over 16-byte groups, for any way to add and to mix. */
  method AddGroups<W>(add: (W, W) -> W, mix: (nat, nat) -> W, acc0: W, lo: nat, hi: nat, key: nat) returns (acc: W)
    requires lo <= hi
    ensures acc == MixGroups(add, mix, acc0, lo, hi, key)
  {
    acc := acc0;
    for i := lo to hi
      invariant acc == MixGroups(add, mix, acc0, lo, i, key)
    {
      acc := add(acc, mix(16 * i, 16 * (i - lo) + key));
    }
  }

  /** Eight groups, a mix, the other whole groups, and the last 16 bytes. */
  method Middle(input: Bytes, secret: Bytes, seed: bv64) returns (h: bv64)
    requires 128 < |input| <= 240 && |secret| >= 136
    ensures h == Len129to240(input, secret, seed)
  {
    var mix := MixAt(input, secret, seed);
    h := AddGroups(Add64, mix, LengthStart(|input|), 0, 8, 0);
    h := AddGroups(Add64, mix, Avalanche(h), 8, |input| / 16, 3);
    h := Avalanche(Add64(h, mix(|input| - 16, 119)));
  }

  /** A block is as many stripes as the secret has places for, eight bytes apart; the last stripe of the
      input is keyed seven bytes in front of the last place, which is the one that scrambles. */
  lemma {:induction false} Places<A>(k: Kernel<A>, init: A, input: Bytes, secret: Bytes)
    requires |input| > 64 && |secret| == 192
    ensures StripesPerBlock(secret) == 16 && FullStripes(|input|) == (|input| - 1) / 64
    ensures LongAcc(k, init, input, secret)
         == k.acc512(Fold(k, Cursor(init, 0), input, (|input| - 1) / 64, secret).acc,
                     input[|input| - 64..], secret[121..185])
  {
    assert At(input, |input| - 64) == input[|input| - 64..];
  }
}
