/** The growable buffer: rounding a size up to a power of two, and growing by it. Sizes are 64-bit
    words; the header in front of the data holds the complete size. */
module GrowBuffer {
  import opened Bits

  const WORD: nat := 0x1_0000_0000_0000_0000
  const LIMIT: nat := 0x1_0000_0000
  const HEADER: nat := 8
  const INITIAL_GROWTH_SIZE: nat := 64

  type Size = n: int | 0 <= n < WORD

  function NextPow2(n: Size): Size {
    (Smear((n - 1) % WORD) + 1) % WORD
  }

  ghost predicate PowerOfTwo(p: nat) {
    exists k: nat :: p == Pow2(k)
  }

  /** The promise: the least power of two that is not below n, or 0 where none fits a word. */
  ghost predicate RoundsUp(n: Size, p: Size) {
    if 2 * n > WORD then p == 0 else PowerOfTwo(p) && n <= p && (p == 1 || p < 2 * n)
  }

  /** Nowhere in x are there 32 zero bits right below a set bit. */
  ghost predicate NoGap(x: nat) {
    forall j: nat :: Bit(x, j + 32) ==> Near(x, j, 32)
  }

  /** Smearing reaches no further up than the top bit. */
  lemma SmearTop(x: nat)
    requires x > 0
    ensures Bit(Smear(x), Top(x))
    ensures forall j: nat :: j > Top(x) ==> !Bit(Smear(x), j)
  {
    TopIs(x);
    SmearBits(x, Top(x));
    forall j: nat | j > Top(x)
      ensures !Bit(Smear(x), j)
    {
      SmearBits(x, j);
      if Near(x, j, 32) {
        var i: nat :| j <= i < j + 32 && Bit(x, i);
        BitBelow(x, i);
        PowGrows(Top(x) + 1, i);
      }
    }
  }

  /** Without a gap, every bit below the top is reached from the next set bit above it. */
  lemma {:induction false} NoGapFills(x: nat, j: nat)
    requires x > 0 && NoGap(x) && j <= Top(x)
    ensures Near(x, j, 32)
    decreases Top(x) - j
  {
    TopIs(x);
    if j < Top(x) {
      NoGapFills(x, j + 1);
      var i: nat :| j + 1 <= i < j + 1 + 32 && Bit(x, i);
      if i == j + 32 {
        assert Bit(x, j + 32);
      }
    }
  }

  lemma Filled(x: nat)
    requires x > 0 && NoGap(x)
    ensures Smear(x) == Pow2(Top(x) + 1) - 1
  {
    SmearTop(x);
    forall j: nat
      ensures Bit(Smear(x), j) <==> j < Top(x) + 1
    {
      SmearBits(x, j);
      if j <= Top(x) {
        NoGapFills(x, j);
      }
    }
    AllOnes(Smear(x), Top(x) + 1);
  }

  /** With a gap, some bit below the top stays clear, and the result is no power of two. */
  lemma Unfilled(x: nat, m: nat)
    requires x > 0 && !NoGap(x)
    ensures Smear(x) != Pow2(m) - 1
  {
    var j: nat :| Bit(x, j + 32) && !Near(x, j, 32);
    SmearBits(x, j);
    SmearTop(x);
    BelowTop(x, j + 32);
    Ones(m, j);
    Ones(m, Top(x));
  }

  lemma BelowTop(x: nat, j: nat)
    requires x > 0 && Bit(x, j)
    ensures j <= Top(x)
  {
    TopIs(x);
    BitBelow(x, j);
    PowGrows(if Top(x) < j then Top(x) + 1 else j, j);
  }

  lemma SmearFits(x: nat, m: nat)
    requires x < Pow2(m)
    ensures x <= Smear(x) < Pow2(m)
  {
    SmearAtLeast(x);
    var y := Smear(x);
    if y > 0 {
      TopIs(y);
      SmearBits(x, Top(y));
      var i: nat :| Top(y) <= i < Top(y) + 32 && Bit(x, i);
      BitBelow(x, i);
      if m <= Top(y) {
        PowGrows(m, i);
      }
      PowGrows(Top(y) + 1, m);
    }
  }

  lemma SmearAtLeast(x: nat)
    ensures Smear(x) >= x
  {
    var a := Or(x, x / 2);
    var b := Or(a, a / 4);
    var c := Or(b, b / 16);
    var d := Or(c, c / 256);
    OrAtLeast(x, x / 2);
    OrAtLeast(a, a / 4);
    OrAtLeast(b, b / 16);
    OrAtLeast(c, c / 256);
    OrAtLeast(d, d / 65536);
  }

  lemma {:induction false} Square(k: nat)
    ensures Pow2(2 * k) == Pow2(k) * Pow2(k)
    decreases k
  {
    if k > 0 {
      Square(k - 1);
      var p := Pow2(k - 1);
      assert Pow2(2 * k) == 2 * (2 * Pow2(2 * (k - 1)));
      assert (2 * p) * (2 * p) == 4 * (p * p);
    }
  }

  /** 64, 2^32 and 2^64 as powers of two. */
  lemma Exponents() returns (small: nat, half: nat, full: nat)
    ensures small == 6 && half == 32 && full == 64
    ensures Pow2(small) == INITIAL_GROWTH_SIZE && Pow2(half) == LIMIT && Pow2(full) == WORD
  {
    small := 6;
    assert Pow2(8) == 256;
    Square(8);
    Square(16);
    Square(32);
    half, full := 2 * 16, 2 * 32;
  }

  lemma SmearFitsWord(x: Size)
    ensures x <= Smear(x) < WORD
  {
    var _, _, w := Exponents();
    SmearFits(x, w);
  }

  lemma WrapsOnce(x: Size)
    ensures x % WORD == x
    ensures (x + 1) % WORD == if x == WORD - 1 then 0 else x + 1
  {}

  /** What the final increment gives. */
  lemma NextIs(n: Size)
    requires n > 0
    ensures n - 1 <= Smear(n - 1) < WORD
    ensures NextPow2(n) == if Smear(n - 1) == WORD - 1 then 0 else Smear(n - 1) + 1
  {
    SmearFitsWord(n - 1);
    NextWraps(n, n - 1, Smear(n - 1));
  }

  lemma NextWraps(n: Size, x: Size, y: Size)
    requires n == x + 1 && y == Smear(x)
    ensures NextPow2(n) == if y == WORD - 1 then 0 else y + 1
  {
    WrapsOnce(x);
    WrapsOnce(y);
  }

  /** Exactly when the rounding keeps its promise. */
  lemma RoundsUpExactly(n: Size)
    ensures RoundsUp(n, NextPow2(n)) <==> n > 0 && NoGap(n - 1)
  {
    if n == 0 {
      FailsAtZero(n);
    } else if n == 1 {
      NothingToSmear();
      NextIs(n);
    } else if NoGap(n - 1) {
      GapFree(n);
    } else {
      Gapped(n);
    }
  }

  lemma NothingToSmear()
    ensures Smear(0) == 0 && NoGap(0)
    ensures PowerOfTwo(1)
  {
    forall j: nat
      ensures !Bit(0, j)
    {
      NoBits(j);
    }
    assert Pow2(0) == 1;
  }

  lemma GapFree(n: Size)
    requires n > 1 && NoGap(n - 1)
    ensures RoundsUp(n, NextPow2(n))
  {
    var h := Top(n - 1);
    var _, _, w := Exponents();
    TopIs(n - 1);
    Filled(n - 1);
    NextIs(n);
    if h + 1 < w {
      PowGrows(h + 1, w);
    } else {
      PowGrows(w, h + 1);
    }
  }

  lemma Gapped(n: Size)
    requires n > 1 && !NoGap(n - 1)
    ensures !RoundsUp(n, NextPow2(n))
  {
    var _, _, w := Exponents();
    NextIs(n);
    Unfilled(n - 1, w);
    if RoundsUp(n, NextPow2(n)) && 2 * n <= WORD {
      var k: nat :| NextPow2(n) == Pow2(k);
      Unfilled(n - 1, k);
    }
  }

  lemma NoHighBit(x: nat, m: nat, j: nat)
    requires x < Pow2(m) && m <= j
    ensures !Bit(x, j)
  {
    PowGrows(m, j);
    if Bit(x, j) {
      BitBelow(x, j);
    }
  }

  /** A number below 2^32 has no gap. */
  lemma SmallHasNoGap(x: nat)
    requires x < LIMIT
    ensures NoGap(x)
  {
    var _, m, _ := Exponents();
    forall j: nat | j >= m
      ensures !Bit(x, j)
    {
      NoHighBit(x, m, j);
    }
  }

  lemma StaysBelowLimit(n: Size)
    requires 0 < n <= LIMIT
    ensures NextPow2(n) <= LIMIT
  {
    var _, m, _ := Exponents();
    SmearFits(n - 1, m);
    NextIs(n);
  }

  /** Up to 2^32 the promise fails for 0 alone. */
  lemma RoundsUpBelowLimit(n: Size)
    requires n <= LIMIT
    ensures RoundsUp(n, NextPow2(n)) <==> n > 0
  {
    RoundsUpExactly(n);
    if n > 0 {
      SmallHasNoGap(n - 1);
    }
  }

  /** 0 goes once around the word: it gives 0, and the least power of two from 0 on is 1. */
  lemma FailsAtZero(n: Size)
    requires n == 0
    ensures NextPow2(n) == 0 && !RoundsUp(n, NextPow2(n))
  {
    var x: Size := (n - 1) % WORD;
    AroundTheWord(n, x);
  }

  lemma AroundTheWord(n: Size, x: Size)
    requires n == 0 && x == (n - 1) % WORD
    ensures NextPow2(n) == 0
  {
    SmearFitsWord(x);
    WrapsOnce(Smear(x));
  }

  /** 2^32 + 1 is the first size after 0 for which it fails. */
  lemma FailsAboveLimit(n: Size)
    requires n == LIMIT + 1
    ensures !RoundsUp(n, NextPow2(n))
  {
    var _, m, _ := Exponents();
    var x := n - 1;
    PowerBit(m);
    forall i: nat | i < m
      ensures !Bit(x, i)
    {
      PowerOnly(m, i);
    }
    assert Bit(x, 0 + 32) && !Near(x, 0, 32);
    RoundsUpExactly(n);
  }

  lemma {:induction false} PowerBit(k: nat)
    ensures Bit(Pow2(k), k)
    decreases k
  {
    if k > 0 {
      PowerBit(k - 1);
    }
  }

  lemma {:induction false} PowerOnly(k: nat, i: nat)
    requires i < k
    ensures !Bit(Pow2(k), i)
    decreases k
  {
    if i > 0 {
      PowerOnly(k - 1, i - 1);
    }
  }

  /** The request plus the header, in a word. */
  function Total(needed: Size): Size {
    (needed + HEADER) % WORD
  }

  lemma TotalIs(needed: Size)
    ensures Total(needed) == if needed + HEADER < WORD then needed + HEADER else needed + HEADER - WORD
  {}

  /** The size to ask the allocator for. */
  function NextSize(total: Size): Size {
    if total < INITIAL_GROWTH_SIZE then INITIAL_GROWTH_SIZE
    else if NextPow2(total) == 0 then total
    else NextPow2(total)
  }

  lemma NextSizeCovers(total: Size)
    ensures NextSize(total) >= total && NextSize(total) >= INITIAL_GROWTH_SIZE
  {
    if total >= INITIAL_GROWTH_SIZE {
      NextIs(total);
    }
  }

  lemma NextSizeRounds(total: Size)
    requires total <= LIMIT
    ensures PowerOfTwo(NextSize(total)) && NextSize(total) <= LIMIT
  {
    if total >= INITIAL_GROWTH_SIZE {
      RoundsUpBelowLimit(total);
      StaysBelowLimit(total);
      NextIs(total);
    } else {
      var k, _, _ := Exponents();
    }
  }

  /** At least the initial size, doubled for every reallocation but the first. */
  ghost predicate Earned(size: nat, grown: nat) {
    exists k: nat :: size == INITIAL_GROWTH_SIZE * Pow2(k) && grown <= k + 1
  }

  lemma {:induction false} Earn(was: nat, grown: nat, size: nat)
    requires Earned(was, grown) && PowerOfTwo(size) && size > was
    ensures Earned(size, grown + 1)
  {
    var k: nat :| was == INITIAL_GROWTH_SIZE * Pow2(k) && grown <= k + 1;
    var m: nat :| size == Pow2(m);
    var s, _, _ := Exponents();
    Product(s, k);
    if m <= s + k {
      PowGrows(m, s + k);
    }
    Product(s, m - s);
    assert size == INITIAL_GROWTH_SIZE * Pow2(m - s);
  }

  lemma {:induction false} EarnFirst(size: nat)
    requires PowerOfTwo(size) && size >= INITIAL_GROWTH_SIZE
    ensures Earned(size, 1)
  {
    var m: nat :| size == Pow2(m);
    var s, _, _ := Exponents();
    if m < s {
      PowGrows(m, s);
    }
    Product(s, m - s);
    assert size == INITIAL_GROWTH_SIZE * Pow2(m - s);
  }

  lemma {:induction false} Product(a: nat, b: nat)
    ensures Pow2(a + b) == Pow2(a) * Pow2(b)
    decreases b
  {
    if b > 0 {
      Product(a, b - 1);
      assert Pow2(a) * (2 * Pow2(b - 1)) == 2 * (Pow2(a) * Pow2(b - 1));
    }
  }

  class Buffer {
    var present: bool
    /** The complete size, header included; meaningless while the buffer is absent. */
    var size: Size
    /** How often the allocator gave a new block since the buffer was last absent. */
    var grown: nat

    constructor ()
      ensures !present && grown == 0
    {
      present, size, grown := false, 0, 0;
    }

    /** The room behind the header holds the request. */
    ghost predicate Covers(needed: nat)
      reads this
    {
      present && size >= needed + HEADER
    }

    /** What holds as long as no request goes beyond 2^32 bytes with its header: the capacity is a
        power of two from 64 on, and pays for every reallocation with a doubling. */
    ghost predicate Sized()
      reads this
    {
      if present then PowerOfTwo(size) && INITIAL_GROWTH_SIZE <= size <= LIMIT && Earned(size, grown)
      else grown == 0
    }

    /** afl_realloc; `granted` is what the allocator does if it is asked. */
    method Realloc(needed: Size, granted: bool) returns (ok: bool)
      modifies this
      ensures ok <==> present
      ensures old(present) && ok ==> size >= old(size)
      ensures ok ==> (Covers(needed) <==> needed + HEADER < WORD)
      ensures granted && needed + HEADER < WORD ==> ok
      ensures !old(present) && needed + HEADER == WORD ==> !ok
      ensures !old(present) && granted && needed + HEADER > WORD ==> ok && size == INITIAL_GROWTH_SIZE
      ensures old(Sized()) && needed + HEADER <= LIMIT ==> Sized()
    {
      var current := if present then size else 0;
      var total := Total(needed);
      TotalIs(needed);
      if current >= total {
        return present;
      }
      NextSizeCovers(total);
      if !granted {
        present, grown := false, 0;
        return false;
      }
      if old(Sized()) && needed + HEADER <= LIMIT {
        NextSizeRounds(total);
        if present {
          Earn(size, grown, NextSize(total));
        } else {
          EarnFirst(NextSize(total));
        }
      }
      present, size, grown := true, NextSize(total), if present then grown + 1 else 1;
      ok := true;
    }
  }

  /** Any run of requests that the allocator grants, none beyond 2^32 bytes with its header: the
      capacity covers them all, is a power of two, and pays for every reallocation but the first with
      a doubling. */
  method Run(requests: seq<Size>) returns (capacity: nat, grown: nat)
    requires forall i :: 0 <= i < |requests| ==> requests[i] + HEADER <= LIMIT
    ensures forall i :: 0 <= i < |requests| ==> capacity >= requests[i] + HEADER
    ensures requests == [] ==> capacity == grown == 0
    ensures requests != [] ==>
      PowerOfTwo(capacity) && INITIAL_GROWTH_SIZE <= capacity <= LIMIT && Earned(capacity, grown)
  {
    var b := new Buffer();
    for i := 0 to |requests|
      invariant fresh(b) && b.Sized() && (b.present <==> i > 0)
      invariant forall j :: 0 <= j < i ==> b.Covers(requests[j])
    {
      var ok := b.Realloc(requests[i], true);
    }
    if b.present {
      return b.size, b.grown;
    }
    return 0, 0;
  }
}
