/** Machine words and little-endian memory access. */
module Words {

  type Bytes = seq<bv8>

  /** 2^32 and 2^64: the number of values of an unsigned 32- and 64-bit word. */
  const W32: nat := 0x1_0000_0000
  const W64: nat := 0x1_0000_0000_0000_0000

  function Word64(n: nat): bv64
    requires n < W64
  {
    n as bv64
  }

  function ReadLE32(s: Bytes, at: nat): bv32
    requires at + 4 <= |s|
  {
    (s[at] as bv32) | ((s[at + 1] as bv32) << 8) | ((s[at + 2] as bv32) << 16) | ((s[at + 3] as bv32) << 24)
  }

  function ReadLE64(s: Bytes, at: nat): bv64
    requires at + 8 <= |s|
  {
    (ReadLE32(s, at) as bv64) | ((ReadLE32(s, at + 4) as bv64) << 32)
  }

  function WriteLE32(w: bv32): (s: Bytes)
    ensures |s| == 4
  {
    [(w & 0xff) as bv8, ((w >> 8) & 0xff) as bv8, ((w >> 16) & 0xff) as bv8, (w >> 24) as bv8]
  }

  function WriteLE64(w: bv64): (s: Bytes)
    ensures |s| == 8
  {
    [(w & 0xff) as bv8, ((w >> 8) & 0xff) as bv8, ((w >> 16) & 0xff) as bv8, ((w >> 24) & 0xff) as bv8,
     ((w >> 32) & 0xff) as bv8, ((w >> 40) & 0xff) as bv8, ((w >> 48) & 0xff) as bv8, (w >> 56) as bv8]
  }

  function Rotl32(x: bv32, r: bv32): bv32
    requires 0 < r < 32
  {
    (x << r) | (x >> (32 - r))
  }

  function Rotl64(x: bv64, r: bv64): bv64
    requires 0 < r < 64
  {
    (x << r) | (x >> (64 - r))
  }

  function Swap32(x: bv32): bv32 {
    ((x << 24) & 0xff00_0000) | ((x << 8) & 0x00ff_0000) | ((x >> 8) & 0x0000_ff00) | ((x >> 24) & 0x0000_00ff)
  }

  function Swap64(x: bv64): bv64 {
    ((Swap32((x & 0xffff_ffff) as bv32) as bv64) << 32) | (Swap32((x >> 32) as bv32) as bv64)
  }

  lemma {:induction false} Rejoined64(w: bv64, c: Bytes)
    requires c == WriteLE64(w)
    ensures ReadLE64(c, 0) == w
  {}

  lemma {:induction false} SameBytes(s: Bytes, at: nat, c: Bytes)
    requires at + 8 <= |s| && c == s[at..at + 8]
    ensures ReadLE64(s, at) == ReadLE64(c, 0)
  {
    assert c[0] == s[at] && c[1] == s[at + 1] && c[2] == s[at + 2] && c[3] == s[at + 3];
    assert c[4] == s[at + 4] && c[5] == s[at + 5] && c[6] == s[at + 6] && c[7] == s[at + 7];
  }

  /** Reading gives back what was written. */
  lemma {:induction false} ReadsBack64(s: Bytes, at: nat, w: bv64, c: Bytes)
    requires at + 8 <= |s| && s[at..at + 8] == c == WriteLE64(w)
    ensures ReadLE64(s, at) == w
  {
    SameBytes(s, at, c);
    Rejoined64(w, c);
  }

  /** The concatenation of a run of chunks, in order. */
  function Concat(chunks: seq<Bytes>): Bytes {
    if chunks == [] then [] else Concat(chunks[..|chunks| - 1]) + chunks[|chunks| - 1]
  }

  /** memcpy: overwrite `dst` from index `at` with `src`. */
  method CopyInto(dst: array<bv8>, at: nat, src: Bytes)
    requires at + |src| <= dst.Length
    modifies dst
    ensures dst[..] == old(dst[..at]) + src + old(dst[at + |src|..])
  {
    forall i | 0 <= i < |src| {
      dst[at + i] := src[i];
    }
  }
}
