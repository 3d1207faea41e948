/** Bytes, 32-bit words and 64-bit words as the coverage loops use them. */
module CoverageWords {
  import opened CoverageMap
  import opened Words

  /** count_class_lookup8: hit counts in eight classes. */
  function CountClass(b: bv8): bv8 {
    if b <= 2 then b
    else if b == 3 then 4
    else if b <= 7 then 8
    else if b <= 15 then 16
    else if b <= 31 then 32
    else if b <= 127 then 64
    else 128
  }

  function Lo(h: bv16): bv8 {
    (h & 0xff) as bv8
  }

  function Hi(h: bv16): bv8 {
    (h >> 8) as bv8
  }

  /** count_class_lookup16, as init_count_class16 fills it. */
  function CountClass16(h: bv16): bv16 {
    ((CountClass(Hi(h)) as bv16) << 8) | (CountClass(Lo(h)) as bv16)
  }

  predicate Hit(c: bv8, v: bv8) {
    c & v != 0
  }

  predicate NewByte(c: bv8, v: bv8) {
    c != 0 && v == 0xff
  }

  function Washed(v: bv8, c: bv8): bv8 {
    v & !c
  }

  function Either(c: bv8, d: bv8): bv8 {
    c | d
  }

  const BYTE: Cell<bv8> := Cell(0, Hit, NewByte, Washed, Either, CountClass)

  lemma ByteIsLawful()
    ensures LawfulCell(BYTE)
  {
    forall c: bv8, v: bv8
      ensures BYTE.pristine(c, v) ==> BYTE.hit(c, v)
    {
      NewIsHit(c, v);
    }
    forall v: bv8, c: bv8
      ensures !BYTE.hit(c, v) ==> BYTE.wash(v, c) == v
    {
      UnhitIsUnwashed(c, v);
    }
    forall v: bv8
      ensures !BYTE.hit(BYTE.zero, v)
    {
      ZeroHitsNothing(v);
    }
  }

  lemma ByteJoins()
    ensures LawfulJoin(BYTE)
  {
    forall v: bv8, c: bv8, d: bv8
      ensures BYTE.wash(BYTE.wash(v, c), d) == BYTE.wash(v, BYTE.join(c, d))
    {
      WashedTwice(v, c, d);
    }
  }

  lemma ZeroHitsNothing(v: bv8)
    ensures !Hit(0, v)
  {}

  lemma NewIsHit(c: bv8, v: bv8)
    ensures NewByte(c, v) ==> Hit(c, v)
  {}

  lemma UnhitIsUnwashed(c: bv8, v: bv8)
    ensures !Hit(c, v) ==> Washed(v, c) == v
  {}

  lemma WashedTwice(v: bv8, c: bv8, d: bv8)
    ensures Washed(Washed(v, c), d) == Washed(v, Either(c, d))
  {}

  lemma TableBytes(h: bv16)
    ensures RatesHalf(Lo, Hi, CountClass16, CountClass, h)
  {}

  /** The 64-bit word. */

  predicate Some64(w: bv64) {
    w != 0
  }

  predicate Meets64(w: bv64, v: bv64) {
    w & v != 0
  }

  function Clear64(v: bv64, w: bv64): bv64 {
    v & !w
  }

  predicate Pristine64(w: bv64, v: bv64) {
    var c, u := WriteLE64(w), WriteLE64(v);
    NewByte(c[0], u[0]) || NewByte(c[1], u[1]) || NewByte(c[2], u[2]) || NewByte(c[3], u[3]) ||
    NewByte(c[4], u[4]) || NewByte(c[5], u[5]) || NewByte(c[6], u[6]) || NewByte(c[7], u[7])
  }

  function Halves64(w: bv64): (h: seq<bv16>)
    ensures |h| == 4
  {
    [(w & 0xffff) as bv16, ((w >> 16) & 0xffff) as bv16, ((w >> 32) & 0xffff) as bv16, (w >> 48) as bv16]
  }

  function Joined64(m: seq<bv16>): bv64
    requires |m| == 4
  {
    (m[0] as bv64) | ((m[1] as bv64) << 16) | ((m[2] as bv64) << 32) | ((m[3] as bv64) << 48)
  }

  /** The lookup of each half-word in the table, put together again. */
  function Classify64(w: bv64): bv64 {
    Joined64(Looked(CountClass16, Halves64(w)))
  }

  const WORD64: Width<bv64, bv8> := Width(8, WriteLE64, Some64, Meets64, Pristine64, Clear64, Classify64)

  lemma Zero64(w: bv64)
    ensures w == 0 ==> WriteLE64(w) == [0, 0, 0, 0, 0, 0, 0, 0]
  {}

  lemma And64(w: bv64, v: bv64, c: seq<bv8>, u: seq<bv8>)
    requires c == WriteLE64(w) && u == WriteLE64(v)
    ensures w & v != 0 <==>
              (c[0] & u[0] != 0 || c[1] & u[1] != 0 || c[2] & u[2] != 0 || c[3] & u[3] != 0 ||
               c[4] & u[4] != 0 || c[5] & u[5] != 0 || c[6] & u[6] != 0 || c[7] & u[7] != 0)
  {}

  lemma Cleared64(v: bv64, w: bv64, r: seq<bv8>, u: seq<bv8>, c: seq<bv8>)
    requires r == WriteLE64(v & !w) && u == WriteLE64(v) && c == WriteLE64(w)
    ensures r[0] == u[0] & !c[0]
    ensures r[1] == u[1] & !c[1]
    ensures r[2] == u[2] & !c[2]
    ensures r[3] == u[3] & !c[3]
    ensures r[4] == u[4] & !c[4]
    ensures r[5] == u[5] & !c[5]
    ensures r[6] == u[6] & !c[6]
    ensures r[7] == u[7] & !c[7]
  {}

  lemma {:induction false} HalvedAt64(w: bv64, c: seq<bv8>)
    requires c == WriteLE64(w)
    ensures Lo((w & 0xffff) as bv16) == c[0] && Hi((w & 0xffff) as bv16) == c[1]
    ensures Lo(((w >> 16) & 0xffff) as bv16) == c[2] && Hi(((w >> 16) & 0xffff) as bv16) == c[3]
    ensures Lo(((w >> 32) & 0xffff) as bv16) == c[4] && Hi(((w >> 32) & 0xffff) as bv16) == c[5]
    ensures Lo((w >> 48) as bv16) == c[6] && Hi((w >> 48) as bv16) == c[7]
  {}

  lemma {:induction false} JoinedAt64(m0: bv16, m1: bv16, m2: bv16, m3: bv16, r: seq<bv8>)
    requires r == WriteLE64((m0 as bv64) | ((m1 as bv64) << 16) | ((m2 as bv64) << 32) | ((m3 as bv64) << 48))
    ensures r[0] == Lo(m0) && r[1] == Hi(m0)
    ensures r[2] == Lo(m1) && r[3] == Hi(m1)
    ensures r[4] == Lo(m2) && r[5] == Hi(m2)
    ensures r[6] == Lo(m3) && r[7] == Hi(m3)
  {}

  lemma {:induction false} Halved8<H, B>(lo: H -> B, hi: H -> B, h: seq<H>, c: seq<B>)
    requires |h| == 4 && |c| == 8
    requires c[0] == lo(h[0]) && c[1] == hi(h[0]) && c[2] == lo(h[1]) && c[3] == hi(h[1])
    requires c[4] == lo(h[2]) && c[5] == hi(h[2]) && c[6] == lo(h[3]) && c[7] == hi(h[3])
    ensures Halved(lo, hi, h, c)
  {}

  lemma {:induction false} Splits64(w: bv64)
    ensures Halved(Lo, Hi, Halves64(w), WriteLE64(w))
  {
    HalvedAt64(w, WriteLE64(w));
    Halved8(Lo, Hi, Halves64(w), WriteLE64(w));
  }

  lemma {:induction false} Joins64(m: seq<bv16>)
    requires |m| == 4
    ensures Halved(Lo, Hi, m, WriteLE64(Joined64(m)))
  {
    JoinedAt64(m[0], m[1], m[2], m[3], WriteLE64(Joined64(m)));
    Halved8(Lo, Hi, m, WriteLE64(Joined64(m)));
  }

  lemma Word64Meets(w: bv64, v: bv64)
    ensures Meets64(w, v) <==> Any(BYTE.hit, WriteLE64(w), WriteLE64(v))
  {
    And64(w, v, WriteLE64(w), WriteLE64(v));
    Any8(BYTE.hit, WriteLE64(w), WriteLE64(v));
  }

  lemma Any8<B>(p: (B, B) -> bool, c: seq<B>, u: seq<B>)
    requires |c| == |u| == 8
    ensures Any(p, c, u) <==> (p(c[0], u[0]) || p(c[1], u[1]) || p(c[2], u[2]) || p(c[3], u[3]) ||
                               p(c[4], u[4]) || p(c[5], u[5]) || p(c[6], u[6]) || p(c[7], u[7]))
  {}

  lemma Word64Pristine(w: bv64, v: bv64)
    ensures Pristine64(w, v) <==> Any(BYTE.pristine, WriteLE64(w), WriteLE64(v))
  {
    Any8(BYTE.pristine, WriteLE64(w), WriteLE64(v));
  }

  lemma Word64Clears(v: bv64, w: bv64)
    ensures WriteLE64(Clear64(v, w)) == Wash(BYTE, WriteLE64(v), WriteLE64(w))
  {
    var r, u, c := WriteLE64(v & !w), WriteLE64(v), WriteLE64(w);
    Cleared64(v, w, r, u, c);
    Washed8(BYTE, r, u, c);
  }

  lemma Washed8<B>(x: Cell<B>, r: seq<B>, u: seq<B>, c: seq<B>)
    requires |r| == |c| == |u| == 8
    requires r[0] == x.wash(u[0], c[0])
    requires r[1] == x.wash(u[1], c[1])
    requires r[2] == x.wash(u[2], c[2])
    requires r[3] == x.wash(u[3], c[3])
    requires r[4] == x.wash(u[4], c[4])
    requires r[5] == x.wash(u[5], c[5])
    requires r[6] == x.wash(u[6], c[6])
    requires r[7] == x.wash(u[7], c[7])
    ensures r == Wash(x, u, c)
  {}

  lemma Word64Rates(w: bv64)
    ensures WriteLE64(Classify64(w)) == Rate(BYTE, WriteLE64(w))
  {
    var h := Halves64(w);
    var m := Looked(CountClass16, h);
    Splits64(w);
    Joins64(m);
    AllRated(h);
    LookupRates(BYTE, Lo, Hi, CountClass16, h, WriteLE64(w), WriteLE64(Joined64(m)));
  }

  lemma {:induction false} AllRated(h: seq<bv16>)
    ensures forall j :: 0 <= j < |h| ==> RatesHalf(Lo, Hi, CountClass16, BYTE.rate, h[j])
  {
    forall j | 0 <= j < |h|
      ensures RatesHalf(Lo, Hi, CountClass16, BYTE.rate, h[j])
    {
      TableBytes(h[j]);
    }
  }

  lemma Word64IsLawful()
    ensures Lawful(WORD64, BYTE)
  {
    ByteIsLawful();
    forall w: bv64
      ensures |WORD64.bytes(w)| == 8
      ensures !WORD64.some(w) ==> forall i :: 0 <= i < 8 ==> WORD64.bytes(w)[i] == BYTE.zero
      ensures WORD64.bytes(WORD64.classify(w)) == Rate(BYTE, WORD64.bytes(w))
    {
      Zero64(w);
      Word64Rates(w);
    }
    forall w: bv64, v: bv64
      ensures WORD64.meets(w, v) <==> Meets(BYTE, WORD64.bytes(w), WORD64.bytes(v))
      ensures WORD64.pristine(w, v) <==> Pristine(BYTE, WORD64.bytes(w), WORD64.bytes(v))
    {
      Word64Meets(w, v);
      Word64Pristine(w, v);
    }
    forall v: bv64, w: bv64
      ensures WORD64.bytes(WORD64.clear(v, w)) == Wash(BYTE, WORD64.bytes(v), WORD64.bytes(w))
    {
      Word64Clears(v, w);
    }
  }

  /** The 32-bit word. */

  predicate Some32(w: bv32) {
    w != 0
  }

  predicate Meets32(w: bv32, v: bv32) {
    w & v != 0
  }

  function Clear32(v: bv32, w: bv32): bv32 {
    v & !w
  }

  predicate Pristine32(w: bv32, v: bv32) {
    var c, u := WriteLE32(w), WriteLE32(v);
    NewByte(c[0], u[0]) || NewByte(c[1], u[1]) || NewByte(c[2], u[2]) || NewByte(c[3], u[3])
  }

  function Halves32(w: bv32): (h: seq<bv16>)
    ensures |h| == 2
  {
    [(w & 0xffff) as bv16, (w >> 16) as bv16]
  }

  function Joined32(m: seq<bv16>): bv32
    requires |m| == 2
  {
    (m[0] as bv32) | ((m[1] as bv32) << 16)
  }

  /** The lookup of each half-word in the table, put together again. */
  function Classify32(w: bv32): bv32 {
    Joined32(Looked(CountClass16, Halves32(w)))
  }

  const WORD32: Width<bv32, bv8> := Width(4, WriteLE32, Some32, Meets32, Pristine32, Clear32, Classify32)

  lemma Zero32(w: bv32)
    ensures w == 0 ==> WriteLE32(w) == [0, 0, 0, 0]
  {}

  lemma And32(w: bv32, v: bv32, c: seq<bv8>, u: seq<bv8>)
    requires c == WriteLE32(w) && u == WriteLE32(v)
    ensures w & v != 0 <==>
              (c[0] & u[0] != 0 || c[1] & u[1] != 0 || c[2] & u[2] != 0 || c[3] & u[3] != 0)
  {}

  lemma Cleared32(v: bv32, w: bv32, r: seq<bv8>, u: seq<bv8>, c: seq<bv8>)
    requires r == WriteLE32(v & !w) && u == WriteLE32(v) && c == WriteLE32(w)
    ensures r[0] == u[0] & !c[0]
    ensures r[1] == u[1] & !c[1]
    ensures r[2] == u[2] & !c[2]
    ensures r[3] == u[3] & !c[3]
  {}

  lemma {:induction false} HalvedAt32(w: bv32, c: seq<bv8>)
    requires c == WriteLE32(w)
    ensures Lo((w & 0xffff) as bv16) == c[0] && Hi((w & 0xffff) as bv16) == c[1]
    ensures Lo((w >> 16) as bv16) == c[2] && Hi((w >> 16) as bv16) == c[3]
  {}

  lemma {:induction false} JoinedAt32(m0: bv16, m1: bv16, r: seq<bv8>)
    requires r == WriteLE32((m0 as bv32) | ((m1 as bv32) << 16))
    ensures r[0] == Lo(m0) && r[1] == Hi(m0)
    ensures r[2] == Lo(m1) && r[3] == Hi(m1)
  {}

  lemma {:induction false} Halved4<H, B>(lo: H -> B, hi: H -> B, h: seq<H>, c: seq<B>)
    requires |h| == 2 && |c| == 4
    requires c[0] == lo(h[0]) && c[1] == hi(h[0]) && c[2] == lo(h[1]) && c[3] == hi(h[1])
    ensures Halved(lo, hi, h, c)
  {}

  lemma {:induction false} Splits32(w: bv32)
    ensures Halved(Lo, Hi, Halves32(w), WriteLE32(w))
  {
    HalvedAt32(w, WriteLE32(w));
    Halved4(Lo, Hi, Halves32(w), WriteLE32(w));
  }

  lemma {:induction false} Joins32(m: seq<bv16>)
    requires |m| == 2
    ensures Halved(Lo, Hi, m, WriteLE32(Joined32(m)))
  {
    JoinedAt32(m[0], m[1], WriteLE32(Joined32(m)));
    Halved4(Lo, Hi, m, WriteLE32(Joined32(m)));
  }

  lemma Word32Meets(w: bv32, v: bv32)
    ensures Meets32(w, v) <==> Any(BYTE.hit, WriteLE32(w), WriteLE32(v))
  {
    And32(w, v, WriteLE32(w), WriteLE32(v));
    Any4(BYTE.hit, WriteLE32(w), WriteLE32(v));
  }

  lemma Any4<B>(p: (B, B) -> bool, c: seq<B>, u: seq<B>)
    requires |c| == |u| == 4
    ensures Any(p, c, u) <==> (p(c[0], u[0]) || p(c[1], u[1]) || p(c[2], u[2]) || p(c[3], u[3]))
  {}

  lemma Word32Pristine(w: bv32, v: bv32)
    ensures Pristine32(w, v) <==> Any(BYTE.pristine, WriteLE32(w), WriteLE32(v))
  {
    Any4(BYTE.pristine, WriteLE32(w), WriteLE32(v));
  }

  lemma Word32Clears(v: bv32, w: bv32)
    ensures WriteLE32(Clear32(v, w)) == Wash(BYTE, WriteLE32(v), WriteLE32(w))
  {
    var r, u, c := WriteLE32(v & !w), WriteLE32(v), WriteLE32(w);
    Cleared32(v, w, r, u, c);
    Washed4(BYTE, r, u, c);
  }

  lemma Washed4<B>(x: Cell<B>, r: seq<B>, u: seq<B>, c: seq<B>)
    requires |r| == |c| == |u| == 4
    requires r[0] == x.wash(u[0], c[0])
    requires r[1] == x.wash(u[1], c[1])
    requires r[2] == x.wash(u[2], c[2])
    requires r[3] == x.wash(u[3], c[3])
    ensures r == Wash(x, u, c)
  {}

  lemma Word32Rates(w: bv32)
    ensures WriteLE32(Classify32(w)) == Rate(BYTE, WriteLE32(w))
  {
    var h := Halves32(w);
    var m := Looked(CountClass16, h);
    Splits32(w);
    Joins32(m);
    AllRated(h);
    LookupRates(BYTE, Lo, Hi, CountClass16, h, WriteLE32(w), WriteLE32(Joined32(m)));
  }

  lemma Word32IsLawful()
    ensures Lawful(WORD32, BYTE)
  {
    ByteIsLawful();
    forall w: bv32
      ensures |WORD32.bytes(w)| == 4
      ensures !WORD32.some(w) ==> forall i :: 0 <= i < 4 ==> WORD32.bytes(w)[i] == BYTE.zero
      ensures WORD32.bytes(WORD32.classify(w)) == Rate(BYTE, WORD32.bytes(w))
    {
      Zero32(w);
      Word32Rates(w);
    }
    forall w: bv32, v: bv32
      ensures WORD32.meets(w, v) <==> Meets(BYTE, WORD32.bytes(w), WORD32.bytes(v))
      ensures WORD32.pristine(w, v) <==> Pristine(BYTE, WORD32.bytes(w), WORD32.bytes(v))
    {
      Word32Meets(w, v);
      Word32Pristine(w, v);
    }
    forall v: bv32, w: bv32
      ensures WORD32.bytes(WORD32.clear(v, w)) == Wash(BYTE, WORD32.bytes(v), WORD32.bytes(w))
    {
      Word32Clears(v, w);
    }
  }

  /** On the same bytes, the 64-bit and the 32-bit loop give the same verdict and the same virgin map. */
  method BothWidths(trace64: array<bv64>, virgin64: array<bv64>, trace32: array<bv32>, virgin32: array<bv32>)
    returns (ret64: nat, ret32: nat)
    requires trace64 != virgin64 && trace64.Length == virgin64.Length
    requires trace32 != virgin32 && trace32.Length == virgin32.Length
    requires Flat(WORD64, trace64[..]) == Flat(WORD32, trace32[..])
    requires Flat(WORD64, virgin64[..]) == Flat(WORD32, virgin32[..])
    modifies virgin64, virgin32
    ensures ret64 == ret32 == Verdict(BYTE, Flat(WORD64, trace64[..]), old(Flat(WORD64, virgin64[..])))
    ensures Flat(WORD64, virgin64[..]) == Flat(WORD32, virgin32[..])
    ensures Flat(WORD64, virgin64[..]) == Wash(BYTE, old(Flat(WORD64, virgin64[..])), Flat(WORD64, trace64[..]))
  {
    Word64IsLawful();
    Word32IsLawful();
    ghost var n, m := virgin64.Length, virgin32.Length;
    assert trace64[..n] == trace64[..] && virgin64[..n] == virgin64[..];
    assert trace32[..m] == trace32[..] && virgin32[..m] == virgin32[..];
    ret64 := HasNewBits(WORD64, BYTE, trace64, virgin64, virgin64.Length);
    assert trace32[..m] == trace32[..] && virgin32[..m] == virgin32[..];
    ret32 := HasNewBits(WORD32, BYTE, trace32, virgin32, virgin32.Length);
    assert virgin64[..n] == virgin64[..] && virgin32[..m] == virgin32[..];
  }

  /** After any run of traces, the virgin bytes are the initial ones without the bits of any trace. */
  lemma VirginAfterRun(v: seq<bv8>, maps: seq<seq<bv8>>)
    requires SameSize(maps, |v|)
    ensures After(BYTE, v, maps, |maps|) == Wash(BYTE, v, Union(BYTE, maps, |maps|, |v|))
  {
    ByteIsLawful();
    ByteJoins();
    AfterIsUnion(BYTE, v, maps, |maps|);
  }

  /** Any run of traces over 64-bit words: the verdicts, and the virgin map, which has lost exactly the
      bits that some trace of the run had set. */
  method Discover64(traces: seq<seq<bv64>>, virgin: array<bv64>) returns (rets: seq<nat>)
    requires forall i :: 0 <= i < |traces| ==> |traces[i]| == virgin.Length
    modifies virgin
    ensures rets == Verdicts(BYTE, old(Flat(WORD64, virgin[..])), Flats(WORD64, traces), |traces|)
    ensures
      var v := old(Flat(WORD64, virgin[..]));
      Flat(WORD64, virgin[..]) == Wash(BYTE, v, Union(BYTE, Flats(WORD64, traces), |traces|, |v|))
  {
    Word64IsLawful();
    FlatSizes(WORD64, BYTE, traces, virgin[..]);
    VirginAfterRun(Flat(WORD64, virgin[..]), Flats(WORD64, traces));
    rets := Discover(WORD64, BYTE, traces, virgin);
  }

  /** The same over 32-bit words. */
  method Discover32(traces: seq<seq<bv32>>, virgin: array<bv32>) returns (rets: seq<nat>)
    requires forall i :: 0 <= i < |traces| ==> |traces[i]| == virgin.Length
    modifies virgin
    ensures rets == Verdicts(BYTE, old(Flat(WORD32, virgin[..])), Flats(WORD32, traces), |traces|)
    ensures
      var v := old(Flat(WORD32, virgin[..]));
      Flat(WORD32, virgin[..]) == Wash(BYTE, v, Union(BYTE, Flats(WORD32, traces), |traces|, |v|))
  {
    Word32IsLawful();
    FlatSizes(WORD32, BYTE, traces, virgin[..]);
    VirginAfterRun(Flat(WORD32, virgin[..]), Flats(WORD32, traces));
    rets := Discover(WORD32, BYTE, traces, virgin);
  }
}
