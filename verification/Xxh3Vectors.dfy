/** Known answers: the hashes of the shortest inputs, and the steps that longer ones go through. */
module Xxh3Vectors {
  import opened Words
  import opened Xxh3Scalar

  lemma {:induction false} Empty(input: Bytes)
    requires input == []
    ensures ShortHash(input, KSecret(), 0) == 0x2D06800538D394C2
  {
    SecretReads(7);
    SecretReads(8);
  }

  lemma {:induction false} LowHalf(s: Bytes, at: nat)
    requires at + 8 <= |s|
    ensures ReadLE64(s, at) == (ReadLE32(s, at) as bv64) | ((ReadLE32(s, at + 4) as bv64) << 32)
  {}

  lemma {:induction false} HalvesOf(w: bv64, lo: bv32, hi: bv32)
    requires w == (lo as bv64) | ((hi as bv64) << 32)
    ensures lo == (w & 0xffff_ffff) as bv32 && hi == (w >> 32) as bv32
  {}

  lemma {:induction false} OneByteMixed(h: bv64)
    requires h == 0x87275B9B
    ensures Xxh64Avalanche(h) == 0xC44BDFF4074EECDB
  {}

  lemma {:induction false} OneByteCombined(c: bv32, n: bv32, flip: bv64)
    requires c == 0 && n == 1 && flip == 0x87275A9B
    ensures (((c << 16) | (c << 24) | c | (n << 8)) as bv64) ^ flip == 0x87275B9B
  {}

  lemma {:induction false} OneByteFlip(secret: Bytes, lo: bv32, hi: bv32)
    requires lo == 0x396CFEB8 && hi == 0xBE4BA423
    ensures ((lo ^ hi) as bv64) + 0 == 0x87275A9B
  {}

  lemma {:induction false} OneByteLength(input: Bytes)
    requires |input| == 1
    ensures (|input| as bv32) == 1
  {}

  lemma {:induction false} OneByte(input: Bytes)
    requires input == [0]
    ensures ShortHash(input, KSecret(), 0) == 0xC44BDFF4074EECDB
  {
    var lo, hi := ReadLE32(KSecret(), 0), ReadLE32(KSecret(), 4);
    SecretReads(0);
    LowHalf(KSecret(), 0);
    HalvesOf(SecretWord(0), lo, hi);
    OneByteFlip(KSecret(), lo, hi);
    OneByteLength(input);
    OneByteCombined(input[0] as bv32, |input| as bv32, ((lo ^ hi) as bv64) + 0);
    OneByteMixed(0x87275B9B);
  }

  lemma {:induction false} FourBytes(input: Bytes)
    requires input == [0, 0, 0, 0]
    ensures ShortHash(input, KSecret(), 0) == 0x48B2C92616FC193D
  {
    SecretReads(1);
    SecretReads(2);
  }

  // ---------------------------------------------------------------- longer inputs, step by step

  lemma {:induction false} Halves(low: nat, high: nat)
    requires low < W64 && high * W64 + low == 0x46E53EE02C83F30ABD309B949CE455EA
    ensures low == 0xBD309B949CE455EA && high == 0x46E53EE02C83F30A
  {}

  lemma {:induction false} ProductVector(lo: nat, hi: nat, low: nat, high: nat)
    requires lo == 0x6782737BEA4239B9 && hi == 0xAF56BC3B0996523A && Mult64to128(lo, hi) == (low, high)
    ensures low == 0xBD309B949CE455EA && high == 0x46E53EE02C83F30A
  {
    assert lo * hi == 0x46E53EE02C83F30ABD309B949CE455EA;
    Halves(low, high);
  }

  lemma {:induction false} SameWord(n: nat, m: nat)
    requires n < W64 && n == m
    ensures Word64(n) == Word64(m)
  {}

  /** The folded product that nine zero bytes meet. */
  lemma {:induction false} FoldVector(lo: bv64, hi: bv64)
    requires lo == 0x6782737BEA4239B9 && hi == 0xAF56BC3B0996523A
    ensures Mul128Fold64(lo, hi) == 0xFBD5A574B067A6E0
  {
    var (lower, upper) := Mult64to128(lo as nat, hi as nat);
    ProductVector(lo as nat, hi as nat, lower, upper);
    SameWord(lower, 0xBD309B949CE455EA);
    SameWord(upper, 0x46E53EE02C83F30A);
  }

  lemma {:induction false} SwapVector()
    ensures Swap64(0x6782737BEA4239B9) == 0xB93942EA7B738267
  {}

  lemma {:induction false} AvalancheVector()
    ensures Avalanche(0x6465A49A35717B8A) == 0x34499569F0391857
  {
    assert Xorshift64(0x6465A49A35717B8A, 37) == 0x6465A49A365256AE;
    assert 0x6465A49A365256AE * 0x165667919E3779F9 == 0x34499569C4708D3E as bv64;
    assert Xorshift64(0x34499569C4708D3E, 32) == 0x34499569F0391857;
  }

  /** The steps of the long hash on one word. */
  lemma {:induction false} KeyedStep()
    ensures KeyedProduct(0x123456789ABCDEF, 0xBE4BA423396CFEB8) == 0x842D0BC8CD611A1C
  {}

  lemma {:induction false} ScrambleStep()
    ensures ScrambledWord(0x9E3779B185EBCA87, 0xBE4BA423396CFEB8) == 0xA5F0C77D7A010901
  {
    assert Xorshift64(0x9E3779B185EBCA87, 47) == 0x9E3779B185EAF6E9;
  }

  lemma {:induction false} FirstAccumulators()
    ensures INIT_ACC == [0xC2B2AE3D, 0x9E3779B185EBCA87, 0xC2B2AE3D27D4EB4F, 0x165667B19E3779F9,
                         0x85EBCA77C2B2AE63, 0x85EBCA77, 0x27D4EB2F165667C5, 0x9E3779B1]
  {}
}
