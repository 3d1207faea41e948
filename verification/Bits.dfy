/** Natural numbers as words: bits, or, and the smearing of a set bit over the bits below it. */
module Bits {

  function Pow2(k: nat): (p: nat)
    ensures p >= 1
  {
    if k == 0 then 1 else 2 * Pow2(k - 1)
  }

  predicate Bit(n: nat, j: nat) {
    if j == 0 then n % 2 == 1 else Bit(n / 2, j - 1)
  }

  function Or(a: nat, b: nat): nat {
    if a == 0 then b
    else if b == 0 then a
    else 2 * Or(a / 2, b / 2) + if a % 2 == 1 || b % 2 == 1 then 1 else 0
  }

  lemma {:induction false} NoBits(j: nat)
    ensures !Bit(0, j)
    decreases j
  {
    if j > 0 {
      NoBits(j - 1);
    }
  }

  lemma {:induction false} BitOr(a: nat, b: nat, j: nat)
    ensures Bit(Or(a, b), j) <==> Bit(a, j) || Bit(b, j)
    decreases a
  {
    if a == 0 || b == 0 {
      NoBits(j);
    } else {
      OrHalf(a, b);
      if j > 0 {
        BitOr(a / 2, b / 2, j - 1);
      }
    }
  }

  lemma {:induction false} OrHalf(a: nat, b: nat)
    requires a > 0 && b > 0
    ensures Or(a, b) / 2 == Or(a / 2, b / 2)
    ensures Or(a, b) % 2 == 1 <==> a % 2 == 1 || b % 2 == 1
  {}

  lemma {:induction false} OrAtLeast(a: nat, b: nat)
    ensures Or(a, b) >= a
    decreases a
  {
    if a != 0 && b != 0 {
      OrAtLeast(a / 2, b / 2);
    }
  }

  /** The highest set bit. */
  function Top(x: nat): nat {
    if x <= 1 then 0 else 1 + Top(x / 2)
  }

  lemma {:induction false} TopIs(x: nat)
    requires x > 0
    ensures Bit(x, Top(x)) && Pow2(Top(x)) <= x < Pow2(Top(x) + 1)
    decreases x
  {
    if x > 1 {
      TopIs(x / 2);
    }
  }

  /** A number below 2^m has no bit from m on. */
  lemma {:induction false} BitBelow(x: nat, j: nat)
    requires Bit(x, j)
    ensures x >= Pow2(j)
    decreases j
  {
    if j > 0 {
      BitBelow(x / 2, j - 1);
    }
  }

  lemma {:induction false} PowGrows(a: nat, b: nat)
    requires a <= b
    ensures Pow2(a) <= Pow2(b)
    ensures a < b ==> 2 * Pow2(a) <= Pow2(b)
    decreases b
  {
    if a < b {
      PowGrows(a, b - 1);
    }
  }

  /** The number whose bits are exactly the lowest m. */
  lemma {:induction false} Ones(m: nat, j: nat)
    ensures Bit(Pow2(m) - 1, j) <==> j < m
    decreases m
  {
    if m == 0 {
      NoBits(j);
    } else if j > 0 {
      assert (Pow2(m) - 1) / 2 == Pow2(m - 1) - 1;
      Ones(m - 1, j - 1);
    }
  }

  lemma {:induction false} AllOnes(y: nat, m: nat)
    requires forall j: nat :: Bit(y, j) <==> j < m
    ensures y == Pow2(m) - 1
    decreases m
  {
    if m == 0 {
      if y > 0 {
        TopIs(y);
      }
    } else {
      assert Bit(y, 0);
      forall j: nat
        ensures Bit(y / 2, j) <==> j < m - 1
      {
        assert Bit(y / 2, j) == Bit(y, j + 1);
      }
      AllOnes(y / 2, m - 1);
    }
  }

  /** Some bit of x from j to j + k - 1 is set. */
  ghost predicate Near(x: nat, j: nat, k: nat) {
    exists i: nat :: j <= i < j + k && Bit(x, i)
  }

  lemma NearDoubles(x: nat, j: nat, k: nat)
    ensures Near(x, j, 2 * k) <==> Near(x, j, k) || Near(x, j + k, k)
  {}

  /** x >> 1, 2, 4, 8 and 16. */

  lemma Shift1(a: nat, j: nat)
    ensures Bit(a / 2, j) == Bit(a, j + 1)
  {}

  lemma Shift2(a: nat, j: nat)
    ensures Bit(a / 4, j) == Bit(a, j + 2)
  {
    assert a / 4 == (a / 2) / 2;
    Shift1(a / 2, j);
    Shift1(a, j + 1);
  }

  lemma Shift4(a: nat, j: nat)
    ensures Bit(a / 16, j) == Bit(a, j + 4)
  {
    assert a / 16 == (a / 4) / 4;
    Shift2(a / 4, j);
    Shift2(a, j + 2);
  }

  lemma Shift8(a: nat, j: nat)
    ensures Bit(a / 256, j) == Bit(a, j + 8)
  {
    assert a / 256 == (a / 16) / 16;
    Shift4(a / 16, j);
    Shift4(a, j + 4);
  }

  lemma Shift16(a: nat, j: nat)
    ensures Bit(a / 65536, j) == Bit(a, j + 16)
  {
    assert a / 65536 == (a / 256) / 256;
    Shift8(a / 256, j);
    Shift8(a, j + 8);
  }

  /** The five steps that let each set bit fill the 31 bits below it. */
  function Smear(x: nat): nat {
    var a := Or(x, x / 2);
    var b := Or(a, a / 4);
    var c := Or(b, b / 16);
    var d := Or(c, c / 256);
    Or(d, d / 65536)
  }

  lemma Stage1(x: nat, j: nat)
    ensures Bit(Or(x, x / 2), j) <==> Near(x, j, 2)
  {
    BitOr(x, x / 2, j);
    Shift1(x, j);
  }

  lemma Stage2(x: nat, a: nat, j: nat)
    requires forall i: nat :: Bit(a, i) <==> Near(x, i, 2)
    ensures Bit(Or(a, a / 4), j) <==> Near(x, j, 4)
  {
    BitOr(a, a / 4, j);
    Shift2(a, j);
    NearDoubles(x, j, 2);
  }

  lemma Stage4(x: nat, a: nat, j: nat)
    requires forall i: nat :: Bit(a, i) <==> Near(x, i, 4)
    ensures Bit(Or(a, a / 16), j) <==> Near(x, j, 8)
  {
    BitOr(a, a / 16, j);
    Shift4(a, j);
    NearDoubles(x, j, 4);
  }

  lemma Stage8(x: nat, a: nat, j: nat)
    requires forall i: nat :: Bit(a, i) <==> Near(x, i, 8)
    ensures Bit(Or(a, a / 256), j) <==> Near(x, j, 16)
  {
    BitOr(a, a / 256, j);
    Shift8(a, j);
    NearDoubles(x, j, 8);
  }

  lemma Stage16(x: nat, a: nat, j: nat)
    requires forall i: nat :: Bit(a, i) <==> Near(x, i, 16)
    ensures Bit(Or(a, a / 65536), j) <==> Near(x, j, 32)
  {
    BitOr(a, a / 65536, j);
    Shift16(a, j);
    NearDoubles(x, j, 16);
  }

  /** A bit of the smeared word is set exactly when one of the 32 bits of x from there up is. */
  lemma SmearBits(x: nat, j: nat)
    ensures Bit(Smear(x), j) <==> Near(x, j, 32)
  {
    var a := Or(x, x / 2);
    var b := Or(a, a / 4);
    var c := Or(b, b / 16);
    var d := Or(c, c / 256);
    forall i: nat
      ensures Bit(a, i) <==> Near(x, i, 2)
    {
      Stage1(x, i);
    }
    forall i: nat
      ensures Bit(b, i) <==> Near(x, i, 4)
    {
      Stage2(x, a, i);
    }
    forall i: nat
      ensures Bit(c, i) <==> Near(x, i, 8)
    {
      Stage4(x, b, i);
    }
    forall i: nat
      ensures Bit(d, i) <==> Near(x, i, 16)
    {
      Stage8(x, c, i);
    }
    Stage16(x, d, j);
  }
}
