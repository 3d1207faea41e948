/** XXH32: the one-shot hash, the incremental state, and the two forms of the finalizer. */
module Xxh32 {
  import opened Words
  import opened LaneHash

  const P1: bv32 := 0x9E3779B1
  const P2: bv32 := 0x85EBCA77
  const P3: bv32 := 0xC2B2AE3D
  const P4: bv32 := 0x27D4EB2F
  const P5: bv32 := 0x165667B1

  datatype Lanes = Lanes(v1: bv32, v2: bv32, v3: bv32, v4: bv32)

  function Init(seed: bv32): Lanes {
    Lanes(seed + P1 + P2, seed + P2, seed + 0, seed - P1)
  }

  function Round(acc: bv32, input: bv32): bv32 {
    Rotl32(acc + input * P2, 13) * P1
  }

  function Absorb(v: Lanes, stripe: Bytes): Lanes {
    if |stripe| < 16 then v else
    Lanes(Round(v.v1, ReadLE32(stripe, 0)), Round(v.v2, ReadLE32(stripe, 4)),
          Round(v.v3, ReadLE32(stripe, 8)), Round(v.v4, ReadLE32(stripe, 12)))
  }

  function Converge(v: Lanes): bv32 {
    Rotl32(v.v1, 1) + Rotl32(v.v2, 7) + Rotl32(v.v3, 12) + Rotl32(v.v4, 18)
  }

  // ---------------------------------------------------------------- finalizer

  function Avalanche(h: bv32): bv32 {
    var h1 := (h ^ (h >> 15)) * P2;
    var h2 := (h1 ^ (h1 >> 13)) * P3;
    h2 ^ (h2 >> 16)
  }

  /** The two steps of the finalizer and its last mix, kept abstract: nothing about the finalizer's
      shape depends on what they compute. */
  datatype Steps<!H> = Steps(process1: (H, bv8) -> H, process4: (H, Bytes) -> H, avalanche: H -> H)

  /** Four bytes at a time while possible, then one at a time. */
  function Finalize<H>(k: Steps<H>, h: H, p: Bytes): H
    decreases |p|
  {
    if |p| >= 4 then Finalize(k, k.process4(h, p[..4]), p[4..])
    else if |p| > 0 then Finalize(k, k.process1(h, p[0]), p[1..])
    else k.avalanche(h)
  }

  /** The compact rerolled loops of XXH32_finalize, on the low four bits of the length. */
  method FinalizeRerolled<H>(k: Steps<H>, h0: H, ptr: Bytes, length: nat) returns (h: H)
    requires length % 16 <= |ptr|
    ensures h == Finalize(k, h0, ptr[..length % 16])
  {
    h := h0;
    var len := length % 16;
    ghost var all := ptr[..len];
    var at := 0;
    while len >= 4
      invariant at + len == |all|
      invariant Finalize(k, h, all[at..]) == Finalize(k, h0, all)
    {
      assert all[at..][..4] == ptr[at..at + 4] && all[at..][4..] == all[at + 4..];
      h := k.process4(h, ptr[at..at + 4]);
      at, len := at + 4, len - 4;
    }
    while len > 0
      invariant len < 4 && at + len == |all|
      invariant Finalize(k, h, all[at..]) == Finalize(k, h0, all)
    {
      assert all[at..][1..] == all[at + 1..];
      h := k.process1(h, ptr[at]);
      at, len := at + 1, len - 1;
    }
    h := k.avalanche(h);
  }

  // The switch form. A case that falls through to another continues with that case.

  function Take4<H>(k: Steps<H>, h: H, p: Bytes): H
    requires |p| >= 4
  {
    k.process4(h, p[..4])
  }

  function Take1<H>(k: Steps<H>, h: H, p: Bytes): H
    requires |p| >= 1
  {
    k.process1(h, p[0])
  }

  /** Cases 12, 8 and 4. */
  function Cases12<H>(k: Steps<H>, h: H, p: Bytes): H
    requires |p| in {4, 8, 12}
  {
    if |p| == 4 then k.avalanche(Take4(k, h, p)) else Cases12(k, Take4(k, h, p), p[4..])
  }

  /** Cases 13, 9 and 5. */
  function Cases13<H>(k: Steps<H>, h: H, p: Bytes): H
    requires |p| in {5, 9, 13}
  {
    if |p| == 5 then k.avalanche(Take1(k, Take4(k, h, p), p[4..])) else Cases13(k, Take4(k, h, p), p[4..])
  }

  /** Cases 14, 10 and 6. */
  function Cases14<H>(k: Steps<H>, h: H, p: Bytes): H
    requires |p| in {6, 10, 14}
  {
    if |p| == 6 then k.avalanche(Take1(k, Take1(k, Take4(k, h, p), p[4..]), p[5..]))
    else Cases14(k, Take4(k, h, p), p[4..])
  }

  /** Cases 15, 11, 7, then 3, 2, 1 and 0. */
  function Cases15<H>(k: Steps<H>, h: H, p: Bytes): H
    requires |p| in {0, 1, 2, 3, 7, 11, 15}
  {
    if |p| == 0 then k.avalanche(h)
    else if |p| <= 3 then Cases15(k, Take1(k, h, p), p[1..])
    else Cases15(k, Take4(k, h, p), p[4..])
  }

  function FinalizeSwitch<H>(k: Steps<H>, h: H, ptr: Bytes, length: nat): H
    requires length % 16 <= |ptr|
  {
    var p := ptr[..length % 16];
    if |p| in {4, 8, 12} then Cases12(k, h, p)
    else if |p| in {5, 9, 13} then Cases13(k, h, p)
    else if |p| in {6, 10, 14} then Cases14(k, h, p)
    else Cases15(k, h, p)
  }

  lemma {:induction false} CasesAgree<H>(k: Steps<H>, h: H, p: Bytes)
    requires |p| < 16
    ensures |p| in {4, 8, 12} ==> Cases12(k, h, p) == Finalize(k, h, p)
    ensures |p| in {5, 9, 13} ==> Cases13(k, h, p) == Finalize(k, h, p)
    ensures |p| in {6, 10, 14} ==> Cases14(k, h, p) == Finalize(k, h, p)
    ensures |p| in {0, 1, 2, 3, 7, 11, 15} ==> Cases15(k, h, p) == Finalize(k, h, p)
    decreases |p|
  {
    if |p| >= 4 {
      CasesAgree(k, k.process4(h, p[..4]), p[4..]);
      if |p| == 5 {
        FinalizeFew(k, k.process4(h, p[..4]), p[4..]);
      } else if |p| == 6 {
        FinalizeFew(k, k.process4(h, p[..4]), p[4..]);
        assert p[4..][1..] == p[5..];
      }
    } else if |p| > 0 {
      CasesAgree(k, k.process1(h, p[0]), p[1..]);
    }
  }

  lemma FinalizeFew<H>(k: Steps<H>, h: H, p: Bytes)
    requires |p| in {1, 2}
    ensures |p| == 1 ==> Finalize(k, h, p) == k.avalanche(k.process1(h, p[0]))
    ensures |p| == 2 ==> Finalize(k, h, p) == k.avalanche(k.process1(k.process1(h, p[0]), p[1..][0]))
  {
    assert Finalize(k, h, p) == Finalize(k, k.process1(h, p[0]), p[1..]);
  }

  /** The switch and the loops compute the same hash for every length. */
  lemma SwitchIsLoop<H>(k: Steps<H>, h: H, ptr: Bytes, length: nat)
    requires length % 16 <= |ptr|
    ensures FinalizeSwitch(k, h, ptr, length) == Finalize(k, h, ptr[..length % 16])
  {
    CasesAgree(k, h, ptr[..length % 16]);
  }

  function Process1(h: bv32, b: bv8): bv32 {
    Rotl32(h + (b as bv32) * P5, 11) * P1
  }

  function Process4(h: bv32, word: Bytes): bv32 {
    if |word| < 4 then h else Rotl32(h + ReadLE32(word, 0) * P3, 17) * P4
  }

  // ---------------------------------------------------------------- one shot and incremental

  /** What the streaming argument needs to know of the hash, and no more. `short` is the starting
      value of an input under 16 bytes as the one-shot hash computes it from the seed, `shortOf` as
      the digest recovers it from the lanes. */
  datatype Suite<!V> = Suite(
    absorb: (V, Bytes) -> V, init: bv32 -> V, converge: V -> bv32, short: bv32 -> bv32, shortOf: V -> bv32,
    addLength: (bv32, nat) -> bv32, steps: Steps<bv32>)
  {
    /** The third initial lane is the seed itself, so the digest can start from it. */
    ghost predicate Coherent() {
      forall seed :: shortOf(init(seed)) == short(seed)
    }

    function Rounds(): Rounds<V> {
      LaneHash.Rounds(16, absorb)
    }
  }

  function AddLength(h: bv32, len: nat): bv32 {
    h + ((len % W32) as bv32)
  }

  function ShortStart(seed: bv32): bv32 {
    seed + P5
  }

  function ShortStartOf(v: Lanes): bv32 {
    v.v3 + P5
  }

  function Suite32(): Suite<Lanes> {
    Suite(Absorb, Init, Converge, ShortStart, ShortStartOf, AddLength, Steps(Process1, Process4, Avalanche))
  }

  lemma Suite32IsCoherent()
    ensures Suite32().Coherent()
  {
    forall seed
      ensures ShortStartOf(Init(seed)) == ShortStart(seed)
    {
    }
  }

  /** XXH32 of an input of any length. The length is added modulo 2^32. */
  function Hash<V>(p: Suite<V>, seed: bv32, input: Bytes): bv32 {
    var v := Fold(p.Rounds(), p.init(seed), input);
    var h := if |input| >= 16 then p.converge(v) else p.short(seed);
    Finalize(p.steps, p.addLength(h, |input| % W32), Rest(16, input))
  }

  method OneShot<V>(p: Suite<V>, input: Bytes, seed: bv32) returns (h: bv32)
    ensures h == Hash(p, seed, input)
  {
    var at := 0;
    if |input| >= 16 {
      var v;
      v, at := AbsorbAll(p.Rounds(), p.init(seed), input, 0);
      assert input[0..] == input;
      h := p.converge(v);
    } else {
      h := p.short(seed);
    }
    h := p.addLength(h, |input| % W32);
    RestLength(16, input);
    var rest := input[at..];
    assert rest[..|input| % 16] == rest == Rest(16, input);
    h := FinalizeRerolled(p.steps, h, rest, |input|);
  }

  /** The flag is set by the first update that brings the total to 16, wrapped or not. */
  lemma LengthTracking(total: nat, len: nat)
    ensures (total % W32 + len) % W32 == (total + len) % W32
    ensures (total >= 16 || len >= 16 || (total + len) % W32 >= 16) == (total + len >= 16)
  {
  }

  /** XXH32_state_t. */
  class State<V> {
    const p: Suite<V>
    var totalLen32: nat
    var largeLen: bool
    var v: V
    const mem: array<bv8>
    var memsize: nat

    ghost var seed: bv32
    ghost var fed: Bytes

    /** `largeLen` says whether the true total is at least 16, even after `totalLen32` wrapped. */
    ghost predicate Valid()
      reads this, mem
    {
      && p.Coherent()
      && mem.Length == 16
      && memsize < 16
      && totalLen32 == |fed| % W32
      && largeLen == (|fed| >= 16)
      && v == Fold(p.Rounds(), p.init(seed), fed)
      && mem[..memsize] == Rest(16, fed)
    }

    /** XXH32_createState followed by XXH32_reset. */
    constructor (p: Suite<V>, seed: bv32)
      requires p.Coherent()
      ensures Valid() && this.p == p && this.seed == seed && fed == [] && fresh(mem)
    {
      this.p := p;
      mem := new bv8[16];
      totalLen32, largeLen, memsize := 0, false, 0;
      v := p.init(seed);
      this.seed, fed := seed, [];
    }

    method Reset(seed: bv32)
      requires p.Coherent() && mem.Length == 16
      modifies this
      ensures Valid() && this.seed == seed && fed == []
    {
      totalLen32, largeLen, memsize := 0, false, 0;
      v := p.init(seed);
      this.seed, fed := seed, [];
    }

    /** The length fields, before the input is taken in. */
    method Track(len: nat)
      requires totalLen32 == |fed| % W32 && largeLen == (|fed| >= 16)
      modifies this`totalLen32, this`largeLen
      ensures totalLen32 == (|fed| + len) % W32 && largeLen == (|fed| + len >= 16)
    {
      LengthTracking(|fed|, len);
      totalLen32 := (totalLen32 + len) % W32;
      largeLen := largeLen || len >= 16 || totalLen32 >= 16;
    }

    method Update(input: Bytes)
      requires Valid()
      modifies this, mem
      ensures Valid() && seed == old(seed) && fed == old(fed) + input
    {
      Track(|input|);
      FoldSplit(p.Rounds(), p.init(seed), fed, input);
      v, memsize := LaneHash.Update(p.Rounds(), v, mem, memsize, input);
      fed := fed + input;
    }

    /** The hash of everything fed so far, however long. */
    method Digest() returns (h: bv32)
      requires Valid()
      ensures h == Hash(p, seed, fed)
    {
      if largeLen {
        h := p.converge(v);
      } else {
        h := p.shortOf(v);
      }
      h := p.addLength(h, totalLen32);
      assert mem[..][..memsize % 16] == mem[..memsize];
      h := FinalizeRerolled(p.steps, h, mem[..], memsize);
    }
  }

  /** For every split of the input into updates, the digest is the one-shot hash. */
  method HashChunks<V>(p: Suite<V>, seed: bv32, chunks: seq<Bytes>) returns (h: bv32)
    requires p.Coherent()
    ensures h == Hash(p, seed, Concat(chunks))
  {
    var st := new State(p, seed);
    for n := 0 to |chunks|
      invariant st.Valid() && fresh(st) && fresh(st.mem)
      invariant st.p == p && st.seed == seed && st.fed == Concat(chunks[..n])
    {
      assert chunks[..n + 1][..n] == chunks[..n];
      st.Update(chunks[n]);
    }
    assert chunks[..|chunks|] == chunks;
    h := st.Digest();
  }

  /** The scalar code itself, streamed in any chunks and hashed at once. */
  method ScalarBothWays(seed: bv32, chunks: seq<Bytes>) returns (streamed: bv32, direct: bv32)
    ensures streamed == direct == Hash(Suite32(), seed, Concat(chunks))
  {
    Suite32IsCoherent();
    streamed := HashChunks(Suite32(), seed, chunks);
    direct := OneShot(Suite32(), Concat(chunks), seed);
  }
}
