/** What XXH32 and XXH64 share: an input absorbed by fixed-size stripes, either in one go or through
    a buffer that holds the bytes of an unfinished stripe. */
module LaneHash {
  import opened Words

  /** The stripe length and the four-lane round that absorbs one stripe. */
  datatype Rounds<!V> = Rounds(size: nat, absorb: (V, Bytes) -> V)

  /** Absorb every whole stripe of `data`. */
  function Fold<V>(k: Rounds<V>, v: V, data: Bytes): V
    requires k.size > 0
    decreases |data|
  {
    if |data| < k.size then v else Fold(k, k.absorb(v, data[..k.size]), data[k.size..])
  }

  /** The bytes after the last whole stripe. */
  function Rest(size: nat, data: Bytes): (r: Bytes)
    requires size > 0
    ensures |r| < size
    decreases |data|
  {
    if |data| < size then data else Rest(size, data[size..])
  }

  /** Absorbing `a` and then `b` with the leftover of `a` in between is absorbing `a + b`. */
  lemma {:induction false} FoldSplit<V>(k: Rounds<V>, v: V, a: Bytes, b: Bytes)
    requires k.size > 0
    ensures Fold(k, v, a + b) == Fold(k, Fold(k, v, a), Rest(k.size, a) + b)
    ensures Rest(k.size, a + b) == Rest(k.size, Rest(k.size, a) + b)
    decreases |a|
  {
    if |a| >= k.size {
      FoldSplit(k, k.absorb(v, a[..k.size]), a[k.size..], b);
      assert (a + b)[..k.size] == a[..k.size];
      assert (a + b)[k.size..] == a[k.size..] + b;
    }
  }

  lemma {:induction false} RestLength(size: nat, data: Bytes)
    requires size > 0
    ensures |Rest(size, data)| == |data| % size
    decreases |data|
  {
    if |data| >= size {
      RestLength(size, data[size..]);
      ModuloStep(|data|, size);
    }
  }

  lemma ModuloStep(x: nat, m: nat)
    requires 0 < m <= x
    ensures (x - m) % m == x % m
  {
    DivisionIsUnique(m, (x - m) / m + 1, (x - m) % m, x / m, x % m);
  }

  lemma DivisionIsUnique(m: nat, q: nat, r: nat, q': nat, r': nat)
    requires r < m && r' < m && m * q + r == m * q' + r'
    ensures r == r'
  {
    assert q < q' ==> m * (q + 1) <= m * q';
    assert q' < q ==> m * (q' + 1) <= m * q;
  }

  /** The one-shot loop: absorb stripe by stripe, and stop at the leftover. */
  method AbsorbAll<V>(k: Rounds<V>, v0: V, input: Bytes, start: nat) returns (v: V, at: nat)
    requires k.size > 0 && start <= |input|
    ensures v == Fold(k, v0, input[start..])
    ensures start <= at <= |input| && input[at..] == Rest(k.size, input[start..])
  {
    v, at := v0, start;
    while at + k.size <= |input|
      invariant start <= at <= |input|
      invariant Fold(k, v, input[at..]) == Fold(k, v0, input[start..])
      invariant Rest(k.size, input[at..]) == Rest(k.size, input[start..])
    {
      assert input[at..][..k.size] == input[at..at + k.size];
      assert input[at..][k.size..] == input[at + k.size..];
      v := k.absorb(v, input[at..at + k.size]);
      at := at + k.size;
    }
  }

  /** The buffered update, common to XXH32_update and XXH64_update. */
  method Update<V>(k: Rounds<V>, v0: V, mem: array<bv8>, memsize: nat, input: Bytes) returns (v: V, memsize': nat)
    requires mem.Length == k.size && memsize < k.size
    modifies mem
    ensures memsize' < k.size
    ensures v == Fold(k, v0, old(mem[..memsize]) + input)
    ensures mem[..memsize'] == Rest(k.size, old(mem[..memsize]) + input)
  {
    v := v0;
    ghost var held := mem[..memsize];
    if memsize + |input| < k.size {
      CopyInto(mem, memsize, input);
      assert mem[..memsize + |input|] == held + input;
      return v, memsize + |input|;
    }
    var at := 0;
    if memsize > 0 {
      at := k.size - memsize;
      CopyInto(mem, memsize, input[..at]);
      assert mem[..] == held + input[..at] == (held + input)[..k.size];
      assert (held + input)[k.size..] == input[at..];
      v := k.absorb(v, mem[..]);
    } else {
      assert held + input == input[at..];
    }
    v, at := AbsorbAll(k, v, input, at);
    CopyInto(mem, 0, input[at..]);
    memsize' := |input| - at;
    assert mem[..memsize'] == input[at..];
  }
}
