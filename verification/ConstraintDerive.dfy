/** Deriving constraints from a parameter list. The guesses by name and type are left open. */
module ConstraintDerive {
  import opened ConstraintText

  /** Type and name of a parameter. */
  datatype Param = Param(ptype: string, name: string)

  /** The guesses: a byte buffer, a file name, an output, the length of a given buffer, the stars. */
  datatype Guess = Guess(
    buffer: Param -> bool,
    file: Param -> bool,
    out: Param -> bool,
    length: (Param, Param) -> bool,
    stars: Param -> nat)

  /** None where the source raises: a buffer with a length that is not a single or double pointer. */
  datatype Result = None | Some(cs: seq<Constraint>)

  predicate Mentioned(cs: seq<Constraint>, j: int) {
    j >= 0 && exists k :: 0 <= k < |cs| && Mentions(cs[k], j)
  }

  /** A neighbour j of buffer i is taken for its length. */
  predicate Pairs(g: Guess, ps: seq<Param>, i: nat, j: int, cs: seq<Constraint>)
    requires i < |ps|
  {
    0 <= j < |ps| && !Mentioned(cs, j) && g.length(ps[i], ps[j])
  }

  predicate Pointer(g: Guess, p: Param) {
    g.stars(p) == 1 || g.stars(p) == 2
  }

  /** Buffer i goes with length j, which is recorded. */
  function Pair(g: Guess, p: Param, i: nat, j: nat): seq<Constraint> {
    [Constraint(i, g.stars(p) == 2, Eq, Ref(j)), Constraint(j, false, Le, Rec)]
  }

  function Derive(g: Guess, ps: seq<Param>, i: nat, cs: seq<Constraint>): Result
    decreases |ps| - i
  {
    if i >= |ps| then Some(cs)
    else if !g.buffer(ps[i]) then Derive(g, ps, i + 1, cs)
    else if g.file(ps[i]) then Derive(g, ps, i + 1, cs + [Constraint(i, false, Eq, File)])
    else if g.out(ps[i]) then Derive(g, ps, i + 1, cs)
    else if Pairs(g, ps, i, i + 1, cs) then
      (if Pointer(g, ps[i]) then Derive(g, ps, i + 2, cs + Pair(g, ps[i], i, i + 1)) else None)
    else if Pairs(g, ps, i, i - 1, cs) then
      (if Pointer(g, ps[i]) then Derive(g, ps, i + 2, cs + Pair(g, ps[i], i, i - 1)) else None)
    else Derive(g, ps, i + 1, cs)
  }

  /** Every index is below `bound` and below the parameter count. */
  predicate InRange(cs: seq<Constraint>, bound: nat, n: nat) {
    forall k :: 0 <= k < |cs| ==>
      && cs[k].lhs < bound && cs[k].lhs < n
      && (cs[k].rhs.Ref? ==> cs[k].rhs.n < bound && cs[k].rhs.n < n)
  }

  /** Each parameter is a left side at most once, and a length at most once. */
  predicate Once(cs: seq<Constraint>) {
    forall k, m :: 0 <= k < m < |cs| ==>
      cs[k].lhs != cs[m].lhs && (cs[k].rhs.Ref? && cs[m].rhs.Ref? ==> cs[k].rhs != cs[m].rhs)
  }

  /** Each length is itself a recorded value. */
  predicate LengthsRecorded(cs: seq<Constraint>) {
    forall k :: 0 <= k < |cs| && cs[k].rhs.Ref? ==> Constraint(cs[k].rhs.n, false, Le, Rec) in cs
  }

  predicate Plain(cs: seq<Constraint>) {
    forall k :: 0 <= k < |cs| ==> !cs[k].rhs.Constant?
  }

  predicate Sound(cs: seq<Constraint>, bound: nat, n: nat) {
    InRange(cs, bound, n) && Once(cs) && LengthsRecorded(cs) && Plain(cs)
  }

  /** a takes its value from b. */
  predicate DependsOn(cs: seq<Constraint>, a: nat, b: nat) {
    exists k :: 0 <= k < |cs| && cs[k].lhs == a && cs[k].rhs == Ref(b)
  }

  // ---------------------------------------------------------------- which constraints there are

  /** A constraint that parameter m got in its own turn: a file name, or a buffer with its length. */
  predicate Own(c: Constraint, m: int) {
    c.lhs == m && (c.rhs.File? || c.rhs.Ref?)
  }

  predicate Owns(cs: seq<Constraint>, m: int) {
    exists k :: 0 <= k < |cs| && Own(cs[k], m)
  }

  /** Parameter m is a buffer that went with a length, so the parameter behind it got no turn. */
  predicate Paired(cs: seq<Constraint>, m: int) {
    exists k :: 0 <= k < |cs| && cs[k].lhs == m && cs[k].rhs.Ref?
  }

  /** The parameter behind m is a length for it. */
  predicate LengthBehind(g: Guess, ps: seq<Param>, m: nat)
    requires m < |ps|
  {
    m + 1 < |ps| && g.length(ps[m], ps[m + 1])
  }

  /** The parameter in front of m is a length for it, is no file name and does not serve the buffer in
      front of that. */
  predicate LengthInFront(g: Guess, ps: seq<Param>, cs: seq<Constraint>, m: nat)
    requires m < |ps|
  {
    && m > 0 && g.length(ps[m], ps[m - 1])
    && Constraint(m - 1, false, Eq, File) !in cs
    && !(m > 1 && DependsOn(cs, m - 2, m - 1))
  }

  /** Buffer m goes with length j, by the number of its stars, and the length is recorded. */
  predicate GoesWith(g: Guess, ps: seq<Param>, cs: seq<Constraint>, m: nat, j: nat)
    requires m < |ps|
  {
    && Pointer(g, ps[m])
    && Constraint(m, g.stars(ps[m]) == 2, Eq, Ref(j)) in cs
    && Constraint(j, false, Le, Rec) in cs
  }

  /** What parameter m gets if it has a turn. */
  predicate Gets(g: Guess, ps: seq<Param>, cs: seq<Constraint>, m: nat)
    requires m < |ps|
  {
    if !g.buffer(ps[m]) then !Owns(cs, m)
    else if g.file(ps[m]) then Constraint(m, false, Eq, File) in cs
    else if g.out(ps[m]) then !Owns(cs, m)
    else if LengthBehind(g, ps, m) then GoesWith(g, ps, cs, m, m + 1)
    else if LengthInFront(g, ps, cs, m) then GoesWith(g, ps, cs, m, m - 1)
    else !Owns(cs, m)
  }

  predicate Turn(g: Guess, ps: seq<Param>, cs: seq<Constraint>, m: nat)
    requires m < |ps|
  {
    if m > 0 && Paired(cs, m - 1) then !Owns(cs, m) else Gets(g, ps, cs, m)
  }

  /** Every constraint is one of three: a file name, a buffer with its length, a recorded length right
      behind the constraint of its buffer. */
  predicate Placed(cs: seq<Constraint>, k: nat)
    requires k < |cs|
  {
    match cs[k].rhs
    case File => cs[k] == Constraint(cs[k].lhs, false, Eq, File)
    case Ref(j) => cs[k].rel == Eq && k + 1 < |cs| && cs[k + 1] == Constraint(j, false, Le, Rec)
    case Rec => k > 0 && cs[k - 1].rhs == Ref(cs[k].lhs)
    case Constant(_) => false
  }

  /** Those of the first two kinds go by increasing parameters. */
  predicate InOrder(cs: seq<Constraint>) {
    && (forall k :: 0 <= k < |cs| ==> Placed(cs, k))
    && (forall k, l :: 0 <= k < l < |cs| && !cs[k].rhs.Rec? && !cs[l].rhs.Rec? ==> cs[k].lhs < cs[l].lhs)
  }

  /** What the constraints of the parameters before i have to be, without reference to how they are found. */
  predicate ExactUpTo(g: Guess, ps: seq<Param>, cs: seq<Constraint>, i: nat) {
    InOrder(cs) && forall m :: 0 <= m < i && m < |ps| ==> Turn(g, ps, cs, m)
  }

  /** Where the walk stands when parameter i has its turn. */
  predicate AtTurn(g: Guess, ps: seq<Param>, cs: seq<Constraint>, i: nat) {
    Sound(cs, i, |ps|) && ExactUpTo(g, ps, cs, i) && (i > 0 ==> !Paired(cs, i - 1))
  }

  /** Constraints added in turn i or later: their parameters are i or later, recorded lengths aside. */
  predicate Later(es: seq<Constraint>, i: nat) {
    forall k :: 0 <= k < |es| ==> es[k].rhs.Rec? || es[k].lhs >= i
  }

  /** Parameter m has a turn in which the source raises: it has a length, but not one star or two. */
  predicate Raises(g: Guess, ps: seq<Param>, cs: seq<Constraint>, m: nat) {
    && m < |ps| && g.buffer(ps[m]) && !g.file(ps[m]) && !g.out(ps[m]) && !Pointer(g, ps[m])
    && (LengthBehind(g, ps, m) || LengthInFront(g, ps, cs, m))
  }
}
