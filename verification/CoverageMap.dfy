/** Coverage maps, word by word: rating hit counts, finding new bits, and the quick test for them.
    The word width and the bits of a byte are parameters; the loops are the same for both widths. */
module CoverageMap {

  /** What the loops need to know of two bytes: c of a trace, v of the virgin map. */
  datatype Cell<!B> = Cell(
    zero: B,
    hit: (B, B) -> bool,       // c has a bit that is still set in v
    pristine: (B, B) -> bool,  // c is not zero and v has every bit set
    wash: (B, B) -> B,         // v without the bits of c
    join: (B, B) -> B,         // the bits of either
    rate: B -> B)              // the class of a hit count

  ghost predicate LawfulCell<B(!new)>(x: Cell<B>) {
    && (forall c, v :: x.pristine(c, v) ==> x.hit(c, v))
    && (forall v, c :: !x.hit(c, v) ==> x.wash(v, c) == v)
    && (forall v :: !x.hit(x.zero, v))
    && x.rate(x.zero) == x.zero
  }

  ghost predicate LawfulJoin<B(!new)>(x: Cell<B>) {
    forall v, c, d :: x.wash(x.wash(v, c), d) == x.wash(v, x.join(c, d))
  }

  /** A byte map against a byte map. */

  /** Some pair of bytes at the same place is related by p. */
  predicate Any<B>(p: (B, B) -> bool, c: seq<B>, v: seq<B>) {
    exists i :: 0 <= i < |c| && i < |v| && p(c[i], v[i])
  }

  predicate Meets<B>(x: Cell<B>, c: seq<B>, v: seq<B>) {
    Any(x.hit, c, v)
  }

  predicate Pristine<B>(x: Cell<B>, c: seq<B>, v: seq<B>) {
    Any(x.pristine, c, v)
  }

  function Wash<B>(x: Cell<B>, v: seq<B>, c: seq<B>): (r: seq<B>)
    ensures |r| == |v|
  {
    seq(|v|, i requires 0 <= i < |v| => if i < |c| then x.wash(v[i], c[i]) else v[i])
  }

  function Rate<B>(x: Cell<B>, c: seq<B>): (r: seq<B>)
    ensures |r| == |c|
  {
    seq(|c|, i requires 0 <= i < |c| => x.rate(c[i]))
  }

  /** `c` holds the two bytes of each half-word of `h`, the low one first. */
  predicate Halved<H, B(==)>(lo: H -> B, hi: H -> B, h: seq<H>, c: seq<B>) {
    |c| == 2 * |h| && forall j :: 0 <= j < |h| ==> c[2 * j] == lo(h[j]) && c[2 * j + 1] == hi(h[j])
  }

  /** Each half-word looked up in a table. */
  function Looked<H>(table: H -> H, h: seq<H>): (m: seq<H>)
    ensures |m| == |h|
  {
    seq(|h|, j requires 0 <= j < |h| => table(h[j]))
  }

  /** A table lookup of a half-word rates both of its bytes. */
  predicate RatesHalf<H, B(==)>(lo: H -> B, hi: H -> B, table: H -> H, rate: B -> B, h: H) {
    lo(table(h)) == rate(lo(h)) && hi(table(h)) == rate(hi(h))
  }

  /** If each lookup rates both bytes, looking up all half-words rates all bytes. */
  lemma {:induction false} LookupRates<H, B>(x: Cell<B>, lo: H -> B, hi: H -> B, table: H -> H, h: seq<H>,
                                             c: seq<B>, r: seq<B>)
    requires Halved(lo, hi, h, c) && Halved(lo, hi, Looked(table, h), r)
    requires forall j :: 0 <= j < |h| ==> RatesHalf(lo, hi, table, x.rate, h[j])
    ensures r == Rate(x, c)
  {
    forall i | 0 <= i < |c|
      ensures r[i] == x.rate(c[i])
    {
      var j := i / 2;
      assert RatesHalf(lo, hi, table, x.rate, h[j]) && Looked(table, h)[j] == table(h[j]);
      assert i == 2 * j || i == 2 * j + 1;
    }
  }

  /** 2: a byte was hit for the first time; 1: only new counts; 0: nothing new. */
  function Verdict<B>(x: Cell<B>, c: seq<B>, v: seq<B>): (r: nat)
    ensures r <= 2
  {
    if Pristine(x, c, v) then 2 else if Meets(x, c, v) then 1 else 0
  }

  function Max(a: nat, b: nat): nat {
    if a < b then b else a
  }

  lemma AnyJoins<B>(p: (B, B) -> bool, a: seq<B>, b: seq<B>, v: seq<B>, w: seq<B>)
    requires |a| == |v| && |b| == |w|
    ensures Any(p, a + b, v + w) <==> Any(p, a, v) || Any(p, b, w)
  {
    if Any(p, a, v) {
      var i :| 0 <= i < |a| && p(a[i], v[i]);
      assert (a + b)[i] == a[i] && (v + w)[i] == v[i];
    } else if Any(p, b, w) {
      var i :| 0 <= i < |b| && p(b[i], w[i]);
      assert (a + b)[|a| + i] == b[i] && (v + w)[|a| + i] == w[i];
    } else {
      forall i | 0 <= i < |a + b|
        ensures !p((a + b)[i], (v + w)[i])
      {
      }
    }
  }

  /** New bits are what a pristine byte is made of, so 2 is the larger news. */
  lemma VerdictJoins<B(!new)>(x: Cell<B>, a: seq<B>, b: seq<B>, v: seq<B>, w: seq<B>)
    requires LawfulCell(x) && |a| == |v| && |b| == |w|
    ensures Verdict(x, a + b, v + w) == Max(Verdict(x, a, v), Verdict(x, b, w))
    ensures Wash(x, v + w, a + b) == Wash(x, v, a) + Wash(x, w, b)
  {
    AnyJoins(x.hit, a, b, v, w);
    AnyJoins(x.pristine, a, b, v, w);
  }

  lemma NothingNew<B(!new)>(x: Cell<B>, c: seq<B>, v: seq<B>)
    requires LawfulCell(x) && |c| == |v|
    ensures Verdict(x, c, v) == 0 <==> !Meets(x, c, v)
    ensures !Meets(x, c, v) ==> Wash(x, v, c) == v
  {
    if Pristine(x, c, v) {
      var i :| 0 <= i < |c| && x.pristine(c[i], v[i]);
      assert x.hit(c[i], v[i]);
    }
  }

  /** The words of one width, and what their operations do to the bytes in them. */
  datatype Width<!W, !B> = Width(
    size: nat,
    bytes: W -> seq<B>,
    some: W -> bool,
    meets: (W, W) -> bool,
    pristine: (W, W) -> bool,
    clear: (W, W) -> W,
    classify: W -> W)

  ghost predicate LawfulWord<W(!new), B(!new)>(o: Width<W, B>, x: Cell<B>) {
    && (forall w :: |o.bytes(w)| == o.size)
    && (forall w :: !o.some(w) ==> forall i :: 0 <= i < o.size ==> o.bytes(w)[i] == x.zero)
    && (forall w, v :: o.meets(w, v) <==> Meets(x, o.bytes(w), o.bytes(v)))
    && (forall w, v :: o.pristine(w, v) <==> Pristine(x, o.bytes(w), o.bytes(v)))
    && (forall v, w :: o.bytes(o.clear(v, w)) == Wash(x, o.bytes(v), o.bytes(w)))
    && (forall w :: o.bytes(o.classify(w)) == Rate(x, o.bytes(w)))
  }

  ghost predicate Lawful<W(!new), B(!new)>(o: Width<W, B>, x: Cell<B>) {
    LawfulCell(x) && LawfulWord(o, x)
  }

  /** The bytes of a run of words. */
  function Flat<W, B>(o: Width<W, B>, ws: seq<W>): seq<B> {
    if ws == [] then [] else Flat(o, ws[..|ws| - 1]) + o.bytes(ws[|ws| - 1])
  }

  lemma {:induction false} FlatLength<W(!new), B(!new)>(o: Width<W, B>, x: Cell<B>, a: seq<W>, b: seq<W>)
    requires Lawful(o, x) && |a| == |b|
    ensures |Flat(o, a)| == |Flat(o, b)|
    decreases |a|
  {
    if a != [] {
      FlatLength(o, x, a[..|a| - 1], b[..|b| - 1]);
    }
  }

  /** A zero word meets nothing, so it may be passed over. */
  lemma ZeroWord<W(!new), B(!new)>(o: Width<W, B>, x: Cell<B>, w: W, v: W)
    requires Lawful(o, x) && !o.some(w)
    ensures !Meets(x, o.bytes(w), o.bytes(v)) && Verdict(x, o.bytes(w), o.bytes(v)) == 0
    ensures Wash(x, o.bytes(v), o.bytes(w)) == o.bytes(v)
    ensures Rate(x, o.bytes(w)) == o.bytes(w)
  {
    NothingNew(x, o.bytes(w), o.bytes(v));
  }

  /** The news in one word, and what it leaves of the virgin word. */
  function WordVerdict<W, B>(o: Width<W, B>, c: W, v: W): (r: nat)
    ensures r <= 2
  {
    if !o.some(c) || !o.meets(c, v) then 0 else if o.pristine(c, v) then 2 else 1
  }

  function WordLeft<W, B>(o: Width<W, B>, c: W, v: W): W {
    if o.some(c) && o.meets(c, v) then o.clear(v, c) else v
  }

  lemma WordInBytes<W(!new), B(!new)>(o: Width<W, B>, x: Cell<B>, c: W, v: W)
    requires Lawful(o, x)
    ensures WordVerdict(o, c, v) == Verdict(x, o.bytes(c), o.bytes(v))
    ensures o.bytes(WordLeft(o, c, v)) == Wash(x, o.bytes(v), o.bytes(c))
  {
    NothingNew(x, o.bytes(c), o.bytes(v));
    if !o.some(c) {
      ZeroWord(o, x, c, v);
    }
  }

  /** discover_word on a word that is not zero. */
  method DiscoverWord<W, B>(o: Width<W, B>, ret0: nat, current: W, virgin0: W) returns (ret: nat, virgin: W)
    requires ret0 <= 2 && o.some(current)
    ensures ret == Max(ret0, WordVerdict(o, current, virgin0))
    ensures virgin == WordLeft(o, current, virgin0)
  {
    ret, virgin := ret0, virgin0;
    if o.meets(current, virgin) {
      if ret < 2 {
        ret := if o.pristine(current, virgin) then 2 else 1;
      }
      virgin := o.clear(virgin, current);
    }
  }

  lemma FlatSnoc<W, B>(o: Width<W, B>, ws: seq<W>, i: nat)
    requires i < |ws|
    ensures Flat(o, ws[..i + 1]) == Flat(o, ws[..i]) + o.bytes(ws[i])
  {
    assert ws[..i + 1][..i] == ws[..i];
  }

  function BestVerdict<W, B>(o: Width<W, B>, cs: seq<W>, vs: seq<W>, n: nat): (r: nat)
    requires n <= |cs| == |vs|
    ensures r <= 2
  {
    if n == 0 then 0 else Max(BestVerdict(o, cs, vs, n - 1), WordVerdict(o, cs[n - 1], vs[n - 1]))
  }

  /** The loop over the words. */
  method Sweep<W, B>(o: Width<W, B>, current: array<W>, virgin: array<W>, n: nat) returns (ret: nat)
    requires current != virgin && n <= current.Length == virgin.Length
    modifies virgin
    ensures ret == BestVerdict(o, current[..], old(virgin[..]), n)
    ensures forall i :: 0 <= i < n ==> virgin[i] == WordLeft(o, current[i], old(virgin[i]))
    ensures forall i :: n <= i < virgin.Length ==> virgin[i] == old(virgin[i])
  {
    ret := 0;
    var i := 0;
    while i < n
      invariant 0 <= i <= n
      invariant ret == BestVerdict(o, current[..], old(virgin[..]), i)
      invariant forall j :: 0 <= j < i ==> virgin[j] == WordLeft(o, current[j], old(virgin[j]))
      invariant forall j :: i <= j < virgin.Length ==> virgin[j] == old(virgin[j])
    {
      if o.some(current[i]) {
        var v;
        ret, v := DiscoverWord(o, ret, current[i], virgin[i]);
        virgin[i] := v;
      }
      i := i + 1;
    }
  }

  /** The sweep as the bytes see it. */
  lemma {:induction false} SweepInBytes<W(!new), B(!new)>(o: Width<W, B>, x: Cell<B>, cs: seq<W>, vs: seq<W>,
                                                          left: seq<W>, n: nat)
    requires Lawful(o, x) && n <= |cs| == |vs| == |left|
    requires forall i :: 0 <= i < n ==> left[i] == WordLeft(o, cs[i], vs[i])
    ensures |Flat(o, cs[..n])| == |Flat(o, vs[..n])|
    ensures BestVerdict(o, cs, vs, n) == Verdict(x, Flat(o, cs[..n]), Flat(o, vs[..n]))
    ensures Flat(o, left[..n]) == Wash(x, Flat(o, vs[..n]), Flat(o, cs[..n]))
    decreases n
  {
    if n > 0 {
      var i := n - 1;
      SweepInBytes(o, x, cs, vs, left, i);
      FlatSnoc(o, cs, i);
      FlatSnoc(o, vs, i);
      FlatSnoc(o, left, i);
      WordInBytes(o, x, cs[i], vs[i]);
      VerdictJoins(x, Flat(o, cs[..i]), o.bytes(cs[i]), Flat(o, vs[..i]), o.bytes(vs[i]));
    }
  }

  /** has_new_bits over the first n words. */
  method HasNewBits<W(!new), B(!new)>(o: Width<W, B>, ghost x: Cell<B>, current: array<W>, virgin: array<W>, n: nat)
    returns (ret: nat)
    requires Lawful(o, x) && current != virgin && n <= current.Length == virgin.Length
    modifies virgin
    ensures |Flat(o, current[..n])| == |Flat(o, old(virgin[..n]))|
    ensures ret == Verdict(x, Flat(o, current[..n]), Flat(o, old(virgin[..n])))
    ensures Flat(o, virgin[..n]) == Wash(x, Flat(o, old(virgin[..n])), Flat(o, current[..n]))
    ensures virgin[n..] == old(virgin[n..])
  {
    ghost var vs := virgin[..];
    ret := Sweep(o, current, virgin, n);
    SweepInBytes(o, x, current[..], vs, virgin[..], n);
    Prefixes(current, n);
    Prefixes(virgin, n);
    assert vs[..n] == old(virgin[..n]);
  }

  lemma Prefixes<W>(a: array<W>, n: nat)
    requires n <= a.Length
    ensures a[..][..n] == a[..n]
  {}

  function Rated<W, B>(o: Width<W, B>, w: W): W {
    if o.some(w) then o.classify(w) else w
  }

  /** classify_counts. */
  method ClassifyCounts<W, B>(o: Width<W, B>, trace: array<W>)
    modifies trace
    ensures forall i :: 0 <= i < trace.Length ==> trace[i] == Rated(o, old(trace[i]))
  {
    for i := 0 to trace.Length
      invariant forall j :: 0 <= j < i ==> trace[j] == Rated(o, old(trace[j]))
      invariant forall j :: i <= j < trace.Length ==> trace[j] == old(trace[j])
    {
      if o.some(trace[i]) {
        trace[i] := o.classify(trace[i]);
      }
    }
  }

  /** Passing over zero words changes nothing: the whole trace is rated byte by byte. */
  lemma {:induction false} RatedInBytes<W(!new), B(!new)>(o: Width<W, B>, x: Cell<B>, ws: seq<W>, rs: seq<W>)
    requires Lawful(o, x) && |ws| == |rs| && forall i :: 0 <= i < |ws| ==> rs[i] == Rated(o, ws[i])
    ensures Flat(o, rs) == Rate(x, Flat(o, ws))
    decreases |ws|
  {
    if ws != [] {
      var i := |ws| - 1;
      RatedInBytes(o, x, ws[..i], rs[..i]);
      if !o.some(ws[i]) {
        ZeroWord(o, x, ws[i], ws[i]);
      }
      RateJoins(x, Flat(o, ws[..i]), o.bytes(ws[i]));
    }
  }

  lemma RateJoins<B>(x: Cell<B>, a: seq<B>, b: seq<B>)
    ensures Rate(x, a + b) == Rate(x, a) + Rate(x, b)
  {}

  /** Word i of the trace, once rated, meets the virgin map. */
  predicate News<W, B>(o: Width<W, B>, current: seq<W>, virgin: seq<W>, i: nat)
    requires i < |current| == |virgin|
  {
    o.some(current[i]) && o.meets(o.classify(current[i]), virgin[i])
  }

  predicate NoNews<W, B>(o: Width<W, B>, current: seq<W>, virgin: seq<W>, n: nat)
    requires n <= |current| == |virgin|
  {
    forall i :: 0 <= i < n ==> !News(o, current, virgin, i)
  }

  lemma NoNewsStep<W, B>(o: Width<W, B>, current: seq<W>, virgin: seq<W>, i: nat)
    requires i < |current| == |virgin|
    ensures NoNews(o, current, virgin, i + 1) <==> NoNews(o, current, virgin, i) && !News(o, current, virgin, i)
  {}

  /** One pack of the plain variant. */
  method PackPlain<W, B>(o: Width<W, B>, virgin: array<W>, current: array<W>, at: nat, pack: nat) returns (found: bool)
    requires at + pack <= current.Length == virgin.Length
    ensures found <==> exists i :: at <= i < at + pack && News(o, current[..], virgin[..], i)
  {
    for j := 0 to pack
      invariant forall i :: at <= i < at + j ==> !News(o, current[..], virgin[..], i)
    {
      if o.some(current[at + j]) && o.meets(o.classify(current[at + j]), virgin[at + j]) {
        assert News(o, current[..], virgin[..], at + j);
        return true;
      }
    }
    found := false;
  }

  /** One pack of the variants that first take a mask of the zero words. */
  method PackMasked<W, B>(o: Width<W, B>, virgin: array<W>, current: array<W>, at: nat, pack: nat) returns (found: bool)
    requires at + pack <= current.Length == virgin.Length
    ensures found <==> exists i :: at <= i < at + pack && News(o, current[..], virgin[..], i)
  {
    var mask, zeroes := [], true;
    for j := 0 to pack
      invariant |mask| == j && forall k :: 0 <= k < j ==> mask[k] == !o.some(current[at + k])
      invariant zeroes <==> forall i :: at <= i < at + j ==> !o.some(current[i])
    {
      mask, zeroes := mask + [!o.some(current[at + j])], zeroes && !o.some(current[at + j]);
    }
    if zeroes {
      return false;
    }
    for j := 0 to pack
      invariant forall i :: at <= i < at + j ==> !News(o, current[..], virgin[..], i)
    {
      if !mask[j] && o.meets(o.classify(current[at + j]), virgin[at + j]) {
        assert News(o, current[..], virgin[..], at + j);
        return true;
      }
    }
    found := false;
  }

  lemma PackFits(j: nat, packs: nat, pack: nat)
    requires j < packs
    ensures j * pack + pack == (j + 1) * pack <= packs * pack
  {
    Grow(j + 1, packs, pack);
  }

  lemma {:induction false} Grow(a: nat, b: nat, k: nat)
    requires a <= b
    ensures a * k <= b * k
    decreases b - a
  {
    if a < b {
      Grow(a + 1, b, k);
      assert (a + 1) * k == a * k + k;
    }
  }

  /** skim, in either variant, over a whole number of packs. */
  method Skim<W, B>(o: Width<W, B>, virgin: array<W>, current: array<W>, packs: nat, pack: nat, masked: bool)
    returns (r: nat)
    requires current.Length == virgin.Length == packs * pack
    ensures r <= 1 && (r == 0 <==> NoNews(o, current[..], virgin[..], current.Length))
  {
    var j, at := 0, 0;
    while j < packs
      invariant j <= packs && at == j * pack && at <= current.Length
      invariant NoNews(o, current[..], virgin[..], at)
    {
      PackFits(j, packs, pack);
      var found;
      if masked {
        found := PackMasked(o, virgin, current, at, pack);
      } else {
        found := PackPlain(o, virgin, current, at, pack);
      }
      if found {
        return 1;
      }
      j, at := j + 1, at + pack;
    }
    r := 0;
  }

  /** Skimming finds nothing exactly when rating the trace and then discovering every word would find
      nothing, and then discovering would leave the virgin map as it is. */
  lemma {:induction false} SkimInBytes<W(!new), B(!new)>(o: Width<W, B>, x: Cell<B>, cs: seq<W>, vs: seq<W>, n: nat)
    requires Lawful(o, x) && n <= |cs| == |vs|
    ensures |Flat(o, cs[..n])| == |Flat(o, vs[..n])|
    ensures NoNews(o, cs, vs, n) <==> !Meets(x, Rate(x, Flat(o, cs[..n])), Flat(o, vs[..n]))
    decreases n
  {
    if n > 0 {
      var i := n - 1;
      SkimInBytes(o, x, cs, vs, i);
      FlatSnoc(o, cs, i);
      FlatSnoc(o, vs, i);
      NewsInBytes(o, x, cs, vs, i);
      var c, v := Flat(o, cs[..i]), Flat(o, vs[..i]);
      RateJoins(x, c, o.bytes(cs[i]));
      AnyJoins(x.hit, Rate(x, c), Rate(x, o.bytes(cs[i])), v, o.bytes(vs[i]));
      NoNewsStep(o, cs, vs, i);
    }
  }

  lemma NewsInBytes<W(!new), B(!new)>(o: Width<W, B>, x: Cell<B>, cs: seq<W>, vs: seq<W>, i: nat)
    requires Lawful(o, x) && i < |cs| == |vs|
    ensures News(o, cs, vs, i) <==> Meets(x, Rate(x, o.bytes(cs[i])), o.bytes(vs[i]))
  {
    if !o.some(cs[i]) {
      ZeroWord(o, x, cs[i], vs[i]);
    }
  }

  /** has_new_bits_unclassified: skim first, and only where that finds something rate the trace and
      discover. The answer and the virgin map are those of rating and discovering at once; the trace
      is kept as it is where the skim finds nothing, and rated otherwise. */
  method HasNewBitsUnclassified<W(!new), B(!new)>(o: Width<W, B>, ghost x: Cell<B>, trace: array<W>, virgin: array<W>,
                                                  packs: nat, pack: nat, masked: bool, n: nat)
    returns (ret: nat)
    requires Lawful(o, x) && trace != virgin && n <= trace.Length == virgin.Length == packs * pack
    modifies trace, virgin
    ensures |Flat(o, old(trace[..n]))| == |Flat(o, old(virgin[..n]))|
    ensures ret == Verdict(x, Rate(x, Flat(o, old(trace[..n]))), Flat(o, old(virgin[..n])))
    ensures Flat(o, virgin[..n]) == Wash(x, Flat(o, old(virgin[..n])), Rate(x, Flat(o, old(trace[..n]))))
    ensures virgin[n..] == old(virgin[n..])
    ensures old(NoNews(o, trace[..], virgin[..], trace.Length)) ==> trace[..] == old(trace[..])
    ensures old(!NoNews(o, trace[..], virgin[..], trace.Length)) ==>
      forall i :: 0 <= i < trace.Length ==> trace[i] == Rated(o, old(trace[i]))
    ensures n == trace.Length ==> (ret == 0 <==> old(NoNews(o, trace[..], virgin[..], trace.Length)))
  {
    ghost var cs, vs := trace[..], virgin[..];
    assert cs[..n] == trace[..n] && vs[..n] == virgin[..n];
    SkimInBytes(o, x, cs, vs, n);
    var found := Skim(o, virgin, trace, packs, pack, masked);
    if found == 0 {
      NothingNew(x, Rate(x, Flat(o, cs[..n])), Flat(o, vs[..n]));
      return 0;
    }
    ClassifyCounts(o, trace);
    RatedInBytes(o, x, cs[..n], trace[..n]);
    ret := HasNewBits(o, x, trace, virgin, n);
  }

  /** A run of traces. */

  function Or<B>(x: Cell<B>, c: seq<B>, d: seq<B>): (r: seq<B>)
    ensures |r| == |c|
  {
    seq(|c|, i requires 0 <= i < |c| => if i < |d| then x.join(c[i], d[i]) else c[i])
  }

  lemma WashTwice<B(!new)>(x: Cell<B>, v: seq<B>, c: seq<B>, d: seq<B>)
    requires LawfulJoin(x) && |v| == |c| == |d|
    ensures Wash(x, Wash(x, v, c), d) == Wash(x, v, Or(x, c, d))
  {}

  ghost predicate SameSize<B>(maps: seq<seq<B>>, n: nat) {
    forall i :: 0 <= i < |maps| ==> |maps[i]| == n
  }

  function Zeros<B>(x: Cell<B>, n: nat): (r: seq<B>)
    ensures |r| == n
  {
    seq(n, _ => x.zero)
  }

  /** The bits of the first k traces. */
  ghost function Union<B>(x: Cell<B>, maps: seq<seq<B>>, k: nat, size: nat): (r: seq<B>)
    requires k <= |maps|
    ensures |r| == size
  {
    if k == 0 then Zeros(x, size) else Or(x, Union(x, maps, k - 1, size), maps[k - 1])
  }

  /** The map left by the first k traces, one after the other. */
  ghost function After<B>(x: Cell<B>, v: seq<B>, maps: seq<seq<B>>, k: nat): (r: seq<B>)
    requires k <= |maps|
    ensures |r| == |v|
  {
    if k == 0 then v else Wash(x, After(x, v, maps, k - 1), maps[k - 1])
  }

  lemma Untouched<B(!new)>(x: Cell<B>, v: seq<B>)
    requires LawfulCell(x)
    ensures Wash(x, v, Zeros(x, |v|)) == v
  {}

  /** The virgin map is the initial one with the union of the traces cleared. */
  lemma {:induction false} AfterIsUnion<B(!new)>(x: Cell<B>, v: seq<B>, maps: seq<seq<B>>, k: nat)
    requires LawfulCell(x) && LawfulJoin(x) && SameSize(maps, |v|) && k <= |maps|
    ensures After(x, v, maps, k) == Wash(x, v, Union(x, maps, k, |v|))
    decreases k
  {
    if k == 0 {
      Untouched(x, v);
    } else {
      AfterIsUnion(x, v, maps, k - 1);
      WashTwice(x, v, Union(x, maps, k - 1, |v|), maps[k - 1]);
    }
  }

  function Flats<W, B>(o: Width<W, B>, traces: seq<seq<W>>): (r: seq<seq<B>>)
    ensures |r| == |traces| && forall i :: 0 <= i < |r| ==> r[i] == Flat(o, traces[i])
  {
    seq(|traces|, i requires 0 <= i < |traces| => Flat(o, traces[i]))
  }

  /** The verdicts on the first k traces, each against what those before it left. */
  ghost function Verdicts<B>(x: Cell<B>, v: seq<B>, maps: seq<seq<B>>, k: nat): (r: seq<nat>)
    requires k <= |maps|
    ensures |r| == k
  {
    if k == 0 then [] else Verdicts(x, v, maps, k - 1) + [Verdict(x, maps[k - 1], After(x, v, maps, k - 1))]
  }

  /** A run of traces, each judged in turn. */
  method Discover<W(!new), B(!new)>(o: Width<W, B>, ghost x: Cell<B>, traces: seq<seq<W>>, virgin: array<W>)
    returns (rets: seq<nat>)
    requires Lawful(o, x)
    requires forall i :: 0 <= i < |traces| ==> |traces[i]| == virgin.Length
    modifies virgin
    ensures rets == Verdicts(x, Flat(o, old(virgin[..])), Flats(o, traces), |traces|)
    ensures Flat(o, virgin[..]) == After(x, Flat(o, old(virgin[..])), Flats(o, traces), |traces|)
  {
    ghost var maps, v0 := Flats(o, traces), Flat(o, virgin[..]);
    rets := [];
    var k := 0;
    while k < |traces|
      invariant 0 <= k <= |traces|
      invariant rets == Verdicts(x, v0, maps, k)
      invariant Flat(o, virgin[..]) == After(x, v0, maps, k)
    {
      var r := JudgeOne(o, x, traces[k], virgin);
      rets, k := rets + [r], k + 1;
    }
  }

  lemma FlatSizes<W(!new), B(!new)>(o: Width<W, B>, x: Cell<B>, traces: seq<seq<W>>, virgin: seq<W>)
    requires Lawful(o, x) && forall i :: 0 <= i < |traces| ==> |traces[i]| == |virgin|
    ensures SameSize(Flats(o, traces), |Flat(o, virgin)|)
  {
    forall i | 0 <= i < |traces|
      ensures |Flat(o, traces[i])| == |Flat(o, virgin)|
    {
      FlatLength(o, x, traces[i], virgin);
    }
  }

  /** One run of the target: the trace is filled, then the virgin map is consulted. */
  method JudgeOne<W(!new), B(!new)>(o: Width<W, B>, ghost x: Cell<B>, words: seq<W>, virgin: array<W>)
    returns (ret: nat)
    requires Lawful(o, x) && |words| == virgin.Length
    modifies virgin
    ensures |Flat(o, words)| == |Flat(o, old(virgin[..]))|
    ensures ret == Verdict(x, Flat(o, words), Flat(o, old(virgin[..])))
    ensures Flat(o, virgin[..]) == Wash(x, Flat(o, old(virgin[..])), Flat(o, words))
  {
    var trace := new W[|words|](i requires 0 <= i < |words| => words[i]);
    assert trace[..] == words;
    ghost var n := virgin.Length;
    assert trace[..n] == words && virgin[..n] == virgin[..];
    ret := HasNewBits(o, x, trace, virgin, virgin.Length);
    assert virgin[..n] == virgin[..];
  }
}
