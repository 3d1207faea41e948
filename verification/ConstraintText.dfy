/** Argument constraints and their concrete syntax. */
module ConstraintText {

  datatype Rel = Le | Ge | Eq

  /** A right-hand side: another argument, a constant, a recorded value or a file. */
  datatype Rhs = Ref(n: nat) | Constant(value: nat) | Rec | File

  datatype Constraint = Constraint(lhs: nat, deref: bool, rel: Rel, rhs: Rhs)

  const ZERO := 0
  const ONE := 1
  const PAGE := 4096
  const MAX := 18446744073709551615

  /** Decimal numerals. */

  function Digit(d: nat): char
    requires d < 10
  {
    "0123456789"[d]
  }

  predicate IsDigit(c: char) {
    '0' <= c <= '9'
  }

  function Dec(n: nat): (s: string)
    ensures s != [] && forall i :: 0 <= i < |s| ==> IsDigit(s[i])
  {
    if n < 10 then [Digit(n)] else Dec(n / 10) + [Digit(n % 10)]
  }

  function DigitValue(c: char): nat
    requires IsDigit(c)
  {
    (c as int) - ('0' as int)
  }

  function Value(s: string): nat
    requires forall i :: 0 <= i < |s| ==> IsDigit(s[i])
  {
    if s == [] then 0 else 10 * Value(s[..|s| - 1]) + DigitValue(s[|s| - 1])
  }

  lemma {:induction false} ReadsBack(n: nat)
    ensures Value(Dec(n)) == n
    decreases n
  {
    if n < 10 {
      assert Value([]) == 0;
      assert [Digit(n)][..0] == [];
    } else {
      ReadsBack(n / 10);
      assert Dec(n)[..|Dec(n)| - 1] == Dec(n / 10);
    }
  }

  lemma Injective(m: nat, n: nat)
    requires Dec(m) == Dec(n)
    ensures m == n
  {
    ReadsBack(m);
    ReadsBack(n);
  }

  /** Printing. */

  /** The constants that have a letter. */
  predicate Lettered(c: Constraint) {
    c.rhs.Constant? ==> c.rhs.value in {ZERO, ONE, PAGE, MAX}
  }

  function RelText(deref: bool, rel: Rel): (s: string)
  {
    (if deref then "d" else "") + match rel case Le => "<" case Ge => ">" case Eq => "="
  }

  function RhsText(rhs: Rhs): (s: string)
    ensures s != []
  {
    match rhs
    case Ref(n) => Dec(n)
    case Constant(v) => if v == ZERO then "z" else if v == ONE then "p" else if v == PAGE then "c" else "u"
    case Rec => "r"
    case File => "f"
  }

  function Print(c: Constraint): string {
    Dec(c.lhs) + " " + RelText(c.deref, c.rel) + " " + RhsText(c.rhs)
  }

  function Prints(cs: seq<Constraint>): (r: seq<string>)
    ensures |r| == |cs|
  {
    seq(|cs|, i requires 0 <= i < |cs| => Print(cs[i]))
  }

  function Join(parts: seq<string>): string {
    if parts == [] then "" else if |parts| == 1 then parts[0] else parts[0] + "," + Join(parts[1..])
  }

  /** The words of a text. */

  predicate IsSpace(c: char) {
    c in " \t\n"
  }

  predicate Solid(s: string) {
    s != [] && forall i :: 0 <= i < |s| ==> !IsSpace(s[i])
  }

  /** How many characters there are before the first white space. */
  function WordLength(s: string): (n: nat)
    ensures n <= |s| && (n < |s| ==> IsSpace(s[n]))
    ensures forall i :: 0 <= i < n ==> !IsSpace(s[i])
  {
    if s == [] || IsSpace(s[0]) then 0 else 1 + WordLength(s[1..])
  }

  function Split(s: string): seq<string>
    decreases |s|
  {
    if s == [] then []
    else if IsSpace(s[0]) then Split(s[1..])
    else [s[..WordLength(s)]] + Split(s[WordLength(s)..])
  }

  lemma SplitWord(w: string, rest: string)
    requires Solid(w) && (rest == [] || IsSpace(rest[0]))
    ensures Split(w + rest) == [w] + Split(rest)
  {
    var s := w + rest;
    WordEnds(w, rest);
    assert s[..|w|] == w && s[|w|..] == rest;
  }

  lemma {:induction false} WordEnds(w: string, rest: string)
    requires (forall i :: 0 <= i < |w| ==> !IsSpace(w[i])) && (rest == [] || IsSpace(rest[0]))
    ensures WordLength(w + rest) == |w|
    decreases |w|
  {
    if w == [] {
      assert w + rest == rest;
    } else {
      WordEnds(w[1..], rest);
      assert (w + rest)[1..] == w[1..] + rest;
    }
  }

  lemma SplitSpace(rest: string)
    ensures Split(" " + rest) == Split(rest)
  {
    assert (" " + rest)[1..] == rest;
  }

  lemma DecSolid(n: nat)
    ensures Solid(Dec(n))
  {
    forall i | 0 <= i < |Dec(n)|
      ensures !IsSpace(Dec(n)[i])
    {
      assert IsDigit(Dec(n)[i]);
    }
  }

  lemma RhsSolid(rhs: Rhs)
    ensures Solid(RhsText(rhs))
  {
    if rhs.Ref? {
      DecSolid(rhs.n);
    }
  }

  lemma {:induction false} ThreeWords(l: string, m: string, r: string)
    requires Solid(l) && Solid(m) && Solid(r)
    ensures Split(l + " " + m + " " + r) == [l, m, r]
  {
    Regroup(l, m, r);
    SplitWord(l, " " + (m + (" " + r)));
    SplitSpace(m + (" " + r));
    SplitWord(m, " " + r);
    SplitSpace(r);
    SplitWord(r, "");
    assert r + "" == r;
  }

  lemma {:induction false} Regroup(l: string, m: string, r: string)
    ensures l + " " + m + " " + r == l + (" " + (m + (" " + r)))
  {}

  /** A printed constraint is three words. */
  lemma {:induction false} Words(c: Constraint)
    ensures Split(Print(c)) == [Dec(c.lhs), RelText(c.deref, c.rel), RhsText(c.rhs)]
  {
    DecSolid(c.lhs);
    RhsSolid(c.rhs);
    ThreeWords(Dec(c.lhs), RelText(c.deref, c.rel), RhsText(c.rhs));
  }

  predicate Mentions(c: Constraint, j: nat) {
    c.lhs == j || c.rhs == Ref(j)
  }

  /** Looking for a number among the words of a printed constraint finds exactly the arguments it mentions. */
  lemma {:induction false} WordTest(c: Constraint, j: nat)
    ensures Dec(j) in Split(Print(c)) <==> Mentions(c, j)
  {
    Words(c);
    var ws := Split(Print(c));
    assert ws[0] == Dec(c.lhs) && ws[2] == RhsText(c.rhs);
    assert IsDigit(Dec(j)[0]);
    assert !IsDigit(RelText(c.deref, c.rel)[0]);
    if Dec(j) == Dec(c.lhs) {
      Injective(j, c.lhs);
    }
    if c.rhs.Ref? && Dec(j) == Dec(c.rhs.n) {
      Injective(j, c.rhs.n);
    }
  }
}
