/** Laws of the rotations and byte swaps, and known answers of XXH32 and XXH64 and of their steps. */
module XxhVectors {
  import opened Words
  import Xxh32
  import Xxh64

  /** At every amount that XXH32 uses, the two shifts are a rotation. */
  lemma {:induction false} Rotations32(x: bv32)
    ensures Rotl32(x, 1) == x.RotateLeft(1)
    ensures Rotl32(x, 7) == x.RotateLeft(7)
    ensures Rotl32(x, 11) == x.RotateLeft(11)
    ensures Rotl32(x, 12) == x.RotateLeft(12)
    ensures Rotl32(x, 13) == x.RotateLeft(13)
    ensures Rotl32(x, 17) == x.RotateLeft(17)
    ensures Rotl32(x, 18) == x.RotateLeft(18)
  {}

  /** At every amount that XXH64 and XXH3 use, the two shifts are a rotation. */
  lemma {:induction false} Rotations64(x: bv64)
    ensures Rotl64(x, 1) == x.RotateLeft(1)
    ensures Rotl64(x, 7) == x.RotateLeft(7)
    ensures Rotl64(x, 11) == x.RotateLeft(11)
    ensures Rotl64(x, 12) == x.RotateLeft(12)
    ensures Rotl64(x, 18) == x.RotateLeft(18)
    ensures Rotl64(x, 23) == x.RotateLeft(23)
    ensures Rotl64(x, 24) == x.RotateLeft(24)
    ensures Rotl64(x, 27) == x.RotateLeft(27)
    ensures Rotl64(x, 31) == x.RotateLeft(31)
    ensures Rotl64(x, 49) == x.RotateLeft(49)
  {}

  lemma {:induction false} SwapTwice32(x: bv32)
    ensures Swap32(Swap32(x)) == x
  {}

  lemma {:induction false} SwapTwice64(x: bv64)
    ensures Swap64(Swap64(x)) == x
  {}

  lemma {:induction false} Swapped()
    ensures Swap32(0x01234567) == 0x67452301 && Swap64(0x0123456789ABCDEF) == 0xEFCDAB8967452301
    ensures Rotl32(0x80000001, 1) == 3 && Rotl64(0x8000000000000001, 1) == 3
  {}

  lemma {:induction false} Steps32()
    ensures Xxh32.Round(0x1234567, 0x89ABCDEF) == 0xDFD5F5FC
    ensures Xxh32.Process1(0x1234567, 0xA5) == 0x7D7E9E56
    ensures Xxh32.Avalanche(0x165667B1) == 0x02CC5D05
  {}

  lemma {:induction false} Init32()
    ensures Xxh32.Init(0) == Xxh32.Lanes(0x24234428, 0x85EBCA77, 0, 0x61C8864F)
  {}

  lemma {:induction false} Converge32()
    ensures Xxh32.Converge(Xxh32.Lanes(0x24234428, 0x85EBCA77, 0, 0x61C8864F)) == 0x57694B34
  {
    assert Rotl32(0x24234428, 1) == 0x48468850 && Rotl32(0x85EBCA77, 7) == 0xF5E53BC2;
    assert Rotl32(0, 12) == 0 && Rotl32(0x61C8864F, 18) == 0x193D8722;
  }

  lemma {:induction false} Steps64()
    ensures Xxh64.Round(0x123456789ABCDEF, 0xFEDCBA9876543210) == 0x9E9FA3BEA5C7BCD2
    ensures Xxh64.Process1(0x123456789ABCDEF, 0xA5) == 0xCD863E867F9BB9D8
  {}

  lemma {:induction false} MergeRound64()
    ensures Xxh64.MergeRound(0x123456789ABCDEF, 0xFEDCBA9876543210) == 0xB9F0D6953977F322
  {}

  lemma {:induction false} Avalanche64()
    ensures Xxh64.Avalanche(0x27D4EB2F165667C5) == 0xEF46DB3751D8E999
  {}

  lemma {:induction false} Init64()
    ensures Xxh64.Init(0) == Xxh64.Lanes(0x60EA27EEADC0B5D6, 0xC2B2AE3D27D4EB4F, 0, 0x61C8864E7A143579)
  {}

  lemma {:induction false} Empty32(input: Bytes)
    requires input == []
    ensures Xxh32.Hash(Xxh32.Suite32(), 0, input) == 0x02CC5D05
  {}

  lemma {:induction false} Empty64(input: Bytes)
    requires input == []
    ensures Xxh64.Hash(Xxh64.Suite64(), 0, input) == 0xEF46DB3751D8E999
  {
    Avalanche64();
  }

  lemma {:induction false} Converge64()
    ensures Xxh64.Converge(Xxh64.Lanes(0x60EA27EEADC0B5D6, 0xC2B2AE3D27D4EB4F, 0, 0x61C8864E7A143579))
         == 0x5AE1634AE2A70C06
  {
    assert Rotl64(0x60EA27EEADC0B5D6, 1) + Rotl64(0xC2B2AE3D27D4EB4F, 7) + Rotl64(0, 12)
           + Rotl64(0x61C8864E7A143579, 18) == 0x346556C21BDC9AAF;
    assert Xxh64.MergeRound(0x346556C21BDC9AAF, 0x60EA27EEADC0B5D6) == 0xAC68429F9D9B3BA5;
    assert Xxh64.MergeRound(0xAC68429F9D9B3BA5, 0xC2B2AE3D27D4EB4F) == 0xD15818CA13E4E0DF;
    assert Xxh64.MergeRound(0xD15818CA13E4E0DF, 0) == 0x0E385DD8218A39FC;
    assert Xxh64.MergeRound(0x0E385DD8218A39FC, 0x61C8864E7A143579) == 0x5AE1634AE2A70C06;
  }

  // ---------------------------------------------------------------- which words reach which lane

  lemma {:induction false} Rejoined32(w: bv32, c: Bytes)
    requires c == WriteLE32(w)
    ensures ReadLE32(c, 0) == w
  {}

  lemma {:induction false} ReadsBack32(s: Bytes, at: nat, w: bv32, c: Bytes)
    requires at + 4 <= |s| && s[at..at + 4] == c == WriteLE32(w)
    ensures ReadLE32(s, at) == w
  {
    assert c[0] == s[at] && c[1] == s[at + 1] && c[2] == s[at + 2] && c[3] == s[at + 3];
    Rejoined32(w, c);
  }

  /** The four words written into a stripe reach the four lanes in their order. */
  lemma {:induction false} AbsorbsWords32(v: Xxh32.Lanes, stripe: Bytes, a: bv32, b: bv32, c: bv32, d: bv32)
    requires |stripe| == 16 && stripe[..4] == WriteLE32(a) && stripe[4..8] == WriteLE32(b)
    requires stripe[8..12] == WriteLE32(c) && stripe[12..] == WriteLE32(d)
    ensures Xxh32.Absorb(v, stripe)
         == Xxh32.Lanes(Xxh32.Round(v.v1, a), Xxh32.Round(v.v2, b), Xxh32.Round(v.v3, c), Xxh32.Round(v.v4, d))
  {
    ReadsBack32(stripe, 0, a, WriteLE32(a));
    ReadsBack32(stripe, 4, b, WriteLE32(b));
    ReadsBack32(stripe, 8, c, WriteLE32(c));
    ReadsBack32(stripe, 12, d, WriteLE32(d));
  }

  lemma {:induction false} AbsorbsWords64(v: Xxh64.Lanes, stripe: Bytes, a: bv64, b: bv64, c: bv64, d: bv64)
    requires |stripe| == 32 && stripe[..8] == WriteLE64(a) && stripe[8..16] == WriteLE64(b)
    requires stripe[16..24] == WriteLE64(c) && stripe[24..] == WriteLE64(d)
    ensures Xxh64.Absorb(v, stripe)
         == Xxh64.Lanes(Xxh64.Round(v.v1, a), Xxh64.Round(v.v2, b), Xxh64.Round(v.v3, c), Xxh64.Round(v.v4, d))
  {
    ReadsBack64(stripe, 0, a, WriteLE64(a));
    ReadsBack64(stripe, 8, b, WriteLE64(b));
    ReadsBack64(stripe, 16, c, WriteLE64(c));
    ReadsBack64(stripe, 24, d, WriteLE64(d));
  }

  /** The word steps of the finalizers. */
  lemma {:induction false} Tail32(word: Bytes)
    requires word == [0xEF, 0xCD, 0xAB, 0x89]
    ensures Xxh32.Process4(0x1234567, word) == 0xA8C7001D
    ensures Xxh64.Process4(0x123456789ABCDEF, word) == 0xF8731EAAB708B3C3
  {
    assert ReadLE32(word, 0) == 0x89ABCDEF;
  }

  lemma {:induction false} Tail64(word: Bytes)
    requires word == [0x10, 0x32, 0x54, 0x76, 0x98, 0xBA, 0xDC, 0xFE]
    ensures Xxh64.Process8(0x123456789ABCDEF, word) == 0x1C861D5B0F222540
  {
    assert ReadLE64(word, 0) == 0xFEDCBA9876543210;
  }
}
