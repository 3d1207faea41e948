/** XXH64: the one-shot hash and the incremental state. */
module Xxh64 {
  import opened Words
  import opened LaneHash

  const P1: bv64 := 0x9E3779B185EBCA87
  const P2: bv64 := 0xC2B2AE3D27D4EB4F
  const P3: bv64 := 0x165667B19E3779F9
  const P4: bv64 := 0x85EBCA77C2B2AE63
  const P5: bv64 := 0x27D4EB2F165667C5

  datatype Lanes = Lanes(v1: bv64, v2: bv64, v3: bv64, v4: bv64)

  function Init(seed: bv64): Lanes {
    Lanes(seed + P1 + P2, seed + P2, seed + 0, seed - P1)
  }

  function Round(acc: bv64, input: bv64): bv64 {
    Rotl64(acc + input * P2, 31) * P1
  }

  function MergeRound(acc: bv64, val: bv64): bv64 {
    (acc ^ Round(0, val)) * P1 + P4
  }

  function Absorb(v: Lanes, stripe: Bytes): Lanes {
    if |stripe| < 32 then v else
    Lanes(Round(v.v1, ReadLE64(stripe, 0)), Round(v.v2, ReadLE64(stripe, 8)),
          Round(v.v3, ReadLE64(stripe, 16)), Round(v.v4, ReadLE64(stripe, 24)))
  }

  function Converge(v: Lanes): bv64 {
    var h := Rotl64(v.v1, 1) + Rotl64(v.v2, 7) + Rotl64(v.v3, 12) + Rotl64(v.v4, 18);
    MergeRound(MergeRound(MergeRound(MergeRound(h, v.v1), v.v2), v.v3), v.v4)
  }

  // ---------------------------------------------------------------- finalizer

  function Avalanche(h: bv64): bv64 {
    var h1 := (h ^ (h >> 33)) * P2;
    var h2 := (h1 ^ (h1 >> 29)) * P3;
    h2 ^ (h2 >> 32)
  }

  function Process8(h: bv64, word: Bytes): bv64 {
    if |word| < 8 then h else Rotl64(h ^ Round(0, ReadLE64(word, 0)), 27) * P1 + P4
  }

  function Process4(h: bv64, word: Bytes): bv64 {
    if |word| < 4 then h else Rotl64(h ^ ((ReadLE32(word, 0) as bv64) * P1), 23) * P2 + P3
  }

  function Process1(h: bv64, b: bv8): bv64 {
    Rotl64(h ^ ((b as bv64) * P5), 11) * P1
  }

  datatype Steps<!H> = Steps(process1: (H, bv8) -> H, process4: (H, Bytes) -> H, process8: (H, Bytes) -> H,
                             avalanche: H -> H)

  /** Eight bytes at a time, then four, then one at a time. */
  function Finalize<H>(k: Steps<H>, h: H, p: Bytes): H
    decreases |p|
  {
    if |p| >= 8 then Finalize(k, k.process8(h, p[..8]), p[8..])
    else if |p| >= 4 then Finalize(k, k.process4(h, p[..4]), p[4..])
    else if |p| > 0 then Finalize(k, k.process1(h, p[0]), p[1..])
    else k.avalanche(h)
  }

  /** The loops of XXH64_finalize, on the low five bits of the length. */
  method FinalizeLoops<H>(k: Steps<H>, h0: H, ptr: Bytes, length: nat) returns (h: H)
    requires length % 32 <= |ptr|
    ensures h == Finalize(k, h0, ptr[..length % 32])
  {
    h := h0;
    var len := length % 32;
    ghost var all := ptr[..len];
    var at := 0;
    while len >= 8
      invariant at + len == |all|
      invariant Finalize(k, h, all[at..]) == Finalize(k, h0, all)
    {
      assert all[at..][..8] == ptr[at..at + 8] && all[at..][8..] == all[at + 8..];
      h := k.process8(h, ptr[at..at + 8]);
      at, len := at + 8, len - 8;
    }
    if len >= 4 {
      assert all[at..][..4] == ptr[at..at + 4] && all[at..][4..] == all[at + 4..];
      h := k.process4(h, ptr[at..at + 4]);
      at, len := at + 4, len - 4;
    }
    while len > 0
      invariant len < 4 && at + len == |all|
      invariant Finalize(k, h, all[at..]) == Finalize(k, h0, all)
    {
      assert all[at..][1..] == all[at + 1..];
      h := k.process1(h, ptr[at]);
      at, len := at + 1, len - 1;
    }
    h := k.avalanche(h);
  }

  // ---------------------------------------------------------------- one shot and incremental

  /** What the streaming argument needs to know of the hash, and no more. `short` is the starting
      value of an input under 32 bytes as the one-shot hash computes it from the seed, `shortOf` as
      the digest recovers it from the lanes. */
  datatype Suite<!V> = Suite(
    absorb: (V, Bytes) -> V, init: bv64 -> V, converge: V -> bv64, short: bv64 -> bv64, shortOf: V -> bv64,
    addLength: (bv64, nat) -> bv64, steps: Steps<bv64>)
  {
    /** The third initial lane is the seed itself, so the digest can start from it. */
    ghost predicate Coherent() {
      forall seed :: shortOf(init(seed)) == short(seed)
    }

    function Rounds(): Rounds<V> {
      LaneHash.Rounds(32, absorb)
    }
  }

  function AddLength(h: bv64, len: nat): bv64 {
    h + ((len % W64) as bv64)
  }

  function ShortStart(seed: bv64): bv64 {
    seed + P5
  }

  function ShortStartOf(v: Lanes): bv64 {
    v.v3 + P5
  }

  function Suite64(): Suite<Lanes> {
    Suite(Absorb, Init, Converge, ShortStart, ShortStartOf, AddLength, Steps(Process1, Process4, Process8, Avalanche))
  }

  lemma Suite64IsCoherent()
    ensures Suite64().Coherent()
  {
    forall seed
      ensures ShortStartOf(Init(seed)) == ShortStart(seed)
    {
    }
  }

  /** XXH64 of an input; a length is a 64-bit number. */
  function Hash<V>(p: Suite<V>, seed: bv64, input: Bytes): bv64
    requires |input| < W64
  {
    var v := Fold(p.Rounds(), p.init(seed), input);
    var h := if |input| >= 32 then p.converge(v) else p.short(seed);
    Finalize(p.steps, p.addLength(h, |input|), Rest(32, input))
  }

  method OneShot<V>(p: Suite<V>, input: Bytes, seed: bv64) returns (h: bv64)
    requires |input| < W64
    ensures h == Hash(p, seed, input)
  {
    var at := 0;
    if |input| >= 32 {
      var v;
      v, at := AbsorbAll(p.Rounds(), p.init(seed), input, 0);
      assert input[0..] == input;
      h := p.converge(v);
    } else {
      h := p.short(seed);
    }
    h := p.addLength(h, |input|);
    RestLength(32, input);
    var rest := input[at..];
    assert rest[..|input| % 32] == rest == Rest(32, input);
    h := FinalizeLoops(p.steps, h, rest, |input|);
  }

  lemma LengthTracking(total: nat, len: nat)
    ensures (total % W64 + len) % W64 == (total + len) % W64
  {
  }

  /** XXH64_state_t. */
  class State<V> {
    const p: Suite<V>
    var totalLen: nat
    var v: V
    const mem: array<bv8>
    var memsize: nat

    ghost var seed: bv64
    ghost var fed: Bytes

    ghost predicate Valid()
      reads this, mem
    {
      && p.Coherent()
      && mem.Length == 32
      && memsize < 32
      && totalLen == |fed| % W64
      && v == Fold(p.Rounds(), p.init(seed), fed)
      && mem[..memsize] == Rest(32, fed)
    }

    /** XXH64_createState followed by XXH64_reset. */
    constructor (p: Suite<V>, seed: bv64)
      requires p.Coherent()
      ensures Valid() && this.p == p && this.seed == seed && fed == [] && fresh(mem)
    {
      this.p := p;
      mem := new bv8[32];
      totalLen, memsize := 0, 0;
      v := p.init(seed);
      this.seed, fed := seed, [];
    }

    method Reset(seed: bv64)
      requires p.Coherent() && mem.Length == 32
      modifies this
      ensures Valid() && this.seed == seed && fed == []
    {
      totalLen, memsize := 0, 0;
      v := p.init(seed);
      this.seed, fed := seed, [];
    }

    method Update(input: Bytes)
      requires Valid()
      modifies this, mem
      ensures Valid() && seed == old(seed) && fed == old(fed) + input
    {
      LengthTracking(|fed|, |input|);
      FoldSplit(p.Rounds(), p.init(seed), fed, input);
      totalLen := (totalLen + |input|) % W64;
      v, memsize := LaneHash.Update(p.Rounds(), v, mem, memsize, input);
      fed := fed + input;
    }

    /** The finalizer is given the total length, not the number of buffered bytes: their low five
        bits agree. */
    method Digest() returns (h: bv64)
      requires Valid() && |fed| < W64
      ensures h == Hash(p, seed, fed)
    {
      if totalLen >= 32 {
        h := p.converge(v);
      } else {
        h := p.shortOf(v);
      }
      h := p.addLength(h, totalLen);
      RestLength(32, fed);
      assert mem[..][..totalLen % 32] == mem[..memsize];
      h := FinalizeLoops(p.steps, h, mem[..], totalLen);
    }
  }

  /** For every split of the input into updates, the digest is the one-shot hash. */
  method HashChunks<V>(p: Suite<V>, seed: bv64, chunks: seq<Bytes>) returns (h: bv64)
    requires p.Coherent() && |Concat(chunks)| < W64
    ensures h == Hash(p, seed, Concat(chunks))
  {
    var st := new State(p, seed);
    for n := 0 to |chunks|
      invariant st.Valid() && fresh(st) && fresh(st.mem)
      invariant st.p == p && st.seed == seed && st.fed == Concat(chunks[..n])
    {
      assert chunks[..n + 1][..n] == chunks[..n];
      st.Update(chunks[n]);
    }
    assert chunks[..|chunks|] == chunks;
    h := st.Digest();
  }

  /** The scalar code itself, streamed in any chunks and hashed at once. */
  method ScalarBothWays(seed: bv64, chunks: seq<Bytes>) returns (streamed: bv64, direct: bv64)
    requires |Concat(chunks)| < W64
    ensures streamed == direct == Hash(Suite64(), seed, Concat(chunks))
  {
    Suite64IsCoherent();
    streamed := HashChunks(Suite64(), seed, chunks);
    direct := OneShot(Suite64(), Concat(chunks), seed);
  }
}
