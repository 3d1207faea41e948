/** The derived constraints: sound, and exactly those that the parameters call for. */
module ConstraintExact {
  import opened ConstraintText
  import opened ConstraintDerive

  lemma AddFile(cs: seq<Constraint>, i: nat, n: nat)
    requires Sound(cs, i, n) && i < n
    ensures Sound(cs + [Constraint(i, false, Eq, File)], i + 1, n)
  {}

  lemma AddPair(cs: seq<Constraint>, g: Guess, p: Param, i: nat, j: nat, n: nat)
    requires Sound(cs, i, n) && i < n && j < n && j < i + 2 && j != i && !Mentioned(cs, j)
    ensures Sound(cs + Pair(g, p, i, j), i + 2, n)
  {
    var ds := cs + Pair(g, p, i, j);
    assert forall k :: 0 <= k < |cs| ==> ds[k] == cs[k] && !Mentions(cs[k], j);
    assert ds[|cs| + 1] == Constraint(j, false, Le, Rec);
    forall k | 0 <= k < |ds| && ds[k].rhs.Ref?
      ensures Constraint(ds[k].rhs.n, false, Le, Rec) in ds
    {
      if k == |cs| {
        assert ds[|cs| + 1] in ds;
      }
    }
  }

  /** Every derived list is sound. */
  lemma {:induction false} DeriveSound(g: Guess, ps: seq<Param>, i: nat, cs: seq<Constraint>)
    requires Sound(cs, i, |ps|)
    ensures Derive(g, ps, i, cs).Some? ==> Sound(Derive(g, ps, i, cs).cs, |ps|, |ps|)
    decreases |ps| - i
  {
    if i >= |ps| {
    } else if g.buffer(ps[i]) && g.file(ps[i]) {
      AddFile(cs, i, |ps|);
      DeriveSound(g, ps, i + 1, cs + [Constraint(i, false, Eq, File)]);
    } else if g.buffer(ps[i]) && !g.out(ps[i]) && Pairs(g, ps, i, i + 1, cs) && Pointer(g, ps[i]) {
      AddPair(cs, g, ps[i], i, i + 1, |ps|);
      DeriveSound(g, ps, i + 2, cs + Pair(g, ps[i], i, i + 1));
    } else if g.buffer(ps[i]) && !g.out(ps[i]) && Pairs(g, ps, i, i - 1, cs) && Pointer(g, ps[i]) {
      AddPair(cs, g, ps[i], i, i - 1, |ps|);
      DeriveSound(g, ps, i + 2, cs + Pair(g, ps[i], i, i - 1));
    } else {
      DeriveSound(g, ps, i + 1, cs);
    }
  }

  predicate Path(cs: seq<Constraint>, p: seq<nat>) {
    forall k :: 0 <= k < |p| - 1 ==> DependsOn(cs, p[k], p[k + 1])
  }

  /** A length depends on nothing. */
  lemma NoTwoSteps(cs: seq<Constraint>, a: nat, b: nat, c: nat)
    requires Once(cs) && LengthsRecorded(cs) && DependsOn(cs, a, b)
    ensures !DependsOn(cs, b, c)
  {
    var k :| 0 <= k < |cs| && cs[k].lhs == a && cs[k].rhs == Ref(b);
    var m :| 0 <= m < |cs| && cs[m] == Constraint(b, false, Le, Rec);
    assert forall l :: 0 <= l < |cs| && cs[l].lhs == b ==> l == m;
  }

  /** The dependencies have no cycle: no path leads back to where it started. */
  lemma Acyclic(cs: seq<Constraint>, p: seq<nat>)
    requires Once(cs) && LengthsRecorded(cs) && Path(cs, p) && |p| >= 2
    ensures |p| == 2 && p[0] != p[1]
  {
    assert DependsOn(cs, p[0], p[1]);
    NoTwoSteps(cs, p[0], p[1], p[1]);
    if |p| > 2 {
      NoTwoSteps(cs, p[0], p[1], p[2]);
    }
  }

  // ---------------------------------------------------------------- the constraints are exact

  /** Later turns take nothing back. */
  lemma {:induction false} SameBefore(cs: seq<Constraint>, es: seq<Constraint>, i: nat, m: int)
    requires Later(es, i) && m < i
    ensures Owns(cs + es, m) <==> Owns(cs, m)
    ensures Paired(cs + es, m) <==> Paired(cs, m)
    ensures m >= 0 ==> (Constraint(m, false, Eq, File) in cs + es <==> Constraint(m, false, Eq, File) in cs)
  {
    var ds := cs + es;
    assert forall k :: 0 <= k < |cs| ==> ds[k] == cs[k];
    assert forall k :: |cs| <= k < |ds| ==> ds[k] == es[k - |cs|];
    if Owns(cs, m) {
      var k :| 0 <= k < |cs| && Own(cs[k], m);
      assert Own(ds[k], m);
    }
    if Paired(cs, m) {
      var k :| 0 <= k < |cs| && cs[k].lhs == m && cs[k].rhs.Ref?;
      assert ds[k].lhs == m && ds[k].rhs.Ref?;
    }
  }

  lemma {:induction false} SameDependence(cs: seq<Constraint>, es: seq<Constraint>, i: nat, a: nat, b: nat)
    requires Later(es, i) && a < i
    ensures DependsOn(cs + es, a, b) <==> DependsOn(cs, a, b)
  {
    var ds := cs + es;
    assert forall k :: 0 <= k < |cs| ==> ds[k] == cs[k];
    assert forall k :: |cs| <= k < |ds| ==> ds[k] == es[k - |cs|];
    if DependsOn(cs, a, b) {
      var k :| 0 <= k < |cs| && cs[k].lhs == a && cs[k].rhs == Ref(b);
      assert ds[k].lhs == a && ds[k].rhs == Ref(b);
    }
  }

  lemma {:induction false} TurnKept(g: Guess, ps: seq<Param>, cs: seq<Constraint>, es: seq<Constraint>, i: nat, m: nat)
    requires Later(es, i) && m < i && m < |ps| && Turn(g, ps, cs, m)
    ensures Turn(g, ps, cs + es, m)
  {
    SameBefore(cs, es, i, m);
    SameBefore(cs, es, i, m - 1);
    if m > 1 {
      SameDependence(cs, es, i, m - 2, m - 1);
    }
  }

  lemma {:induction false} AllKept(g: Guess, ps: seq<Param>, cs: seq<Constraint>, es: seq<Constraint>, i: nat)
    requires Later(es, i) && forall m :: 0 <= m < i && m < |ps| ==> Turn(g, ps, cs, m)
    ensures forall m :: 0 <= m < i && m < |ps| ==> Turn(g, ps, cs + es, m)
  {
    forall m | 0 <= m < i && m < |ps|
      ensures Turn(g, ps, cs + es, m)
    {
      TurnKept(g, ps, cs, es, i, m);
    }
  }

  /** Before its turn a parameter owns nothing. */
  lemma {:induction false} NotYet(cs: seq<Constraint>, i: nat, n: nat, m: nat)
    requires Sound(cs, i, n) && m >= i
    ensures !Owns(cs, m) && !Paired(cs, m)
  {}

  lemma {:induction false} OrderFile(cs: seq<Constraint>, i: nat, n: nat)
    requires Sound(cs, i, n) && InOrder(cs)
    ensures InOrder(cs + [Constraint(i, false, Eq, File)])
  {
    var ds := cs + [Constraint(i, false, Eq, File)];
    PlacesKept(cs, [Constraint(i, false, Eq, File)]);
    assert ds[|cs|] == Constraint(i, false, Eq, File);
    assert Placed(ds, |cs|);
    assert forall k :: 0 <= k < |cs| ==> ds[k] == cs[k];
  }

  lemma {:induction false} PlacesKept(cs: seq<Constraint>, es: seq<Constraint>)
    requires forall k :: 0 <= k < |cs| ==> Placed(cs, k)
    ensures forall k :: 0 <= k < |cs| ==> Placed(cs + es, k)
  {
    var ds := cs + es;
    forall k | 0 <= k < |cs|
      ensures Placed(ds, k)
    {
      assert Placed(cs, k) && ds[k] == cs[k];
      assert k + 1 < |cs| ==> ds[k + 1] == cs[k + 1];
      assert k > 0 ==> ds[k - 1] == cs[k - 1];
    }
  }

  lemma {:induction false} OrderPair(cs: seq<Constraint>, g: Guess, p: Param, i: nat, j: nat, n: nat)
    requires Sound(cs, i, n) && InOrder(cs)
    ensures InOrder(cs + Pair(g, p, i, j))
  {
    var ds := cs + Pair(g, p, i, j);
    assert forall k :: 0 <= k < |cs| ==> ds[k] == cs[k];
    assert ds[|cs|].rhs == Ref(j) && ds[|cs| + 1] == Constraint(j, false, Le, Rec);
    PlacesKept(cs, Pair(g, p, i, j));
    assert Placed(ds, |cs|) && Placed(ds, |cs| + 1);
  }

  /** A buffer in front of turn i goes with one of its two neighbours, as its turn says. */
  lemma {:induction false} RefIsNeighbour(g: Guess, ps: seq<Param>, cs: seq<Constraint>, i: nat, k: nat)
    requires Once(cs) && ExactUpTo(g, ps, cs, i) && k < |cs| && cs[k].rhs.Ref? && cs[k].lhs < i && cs[k].lhs < |ps|
    ensures
      var a := cs[k].lhs;
      && g.buffer(ps[a]) && !g.file(ps[a]) && !g.out(ps[a]) && Pointer(g, ps[a])
      && cs[k] == Constraint(a, g.stars(ps[a]) == 2, Eq, cs[k].rhs)
      && if LengthBehind(g, ps, a) then cs[k].rhs == Ref(a + 1)
         else LengthInFront(g, ps, cs, a) && cs[k].rhs == Ref(a - 1)
  {
    var a := cs[k].lhs;
    assert Own(cs[k], a);
    assert Turn(g, ps, cs, a);
    assert forall l :: 0 <= l < |cs| && cs[l].lhs == a ==> l == k;
  }

  /** At turn i the parameter in front is mentioned if it is a file name or serves the buffer before it. */
  lemma {:induction false} MentionedInFront(g: Guess, ps: seq<Param>, cs: seq<Constraint>, i: nat)
    requires AtTurn(g, ps, cs, i) && 0 < i <= |ps|
    ensures Mentioned(cs, i - 1) <==>
            Constraint(i - 1, false, Eq, File) in cs || (i > 1 && DependsOn(cs, i - 2, i - 1))
  {
    if Mentioned(cs, i - 1) {
      var k :| 0 <= k < |cs| && Mentions(cs[k], i - 1);
      assert Placed(cs, k);
      var l := if cs[k].rhs.Rec? then k - 1 else k;
      if cs[k].rhs.File? {
        assert cs[k] == Constraint(i - 1, false, Eq, File);
      } else {
        assert cs[k].rhs.Ref? ==> cs[k].lhs != i - 1;
        assert cs[l].rhs == Ref(i - 1);
        RefIsNeighbour(g, ps, cs, i, l);
      }
    }
    if Constraint(i - 1, false, Eq, File) in cs {
      var k :| 0 <= k < |cs| && cs[k] == Constraint(i - 1, false, Eq, File);
      assert Mentions(cs[k], i - 1);
    } else if i > 1 && DependsOn(cs, i - 2, i - 1) {
      var k :| 0 <= k < |cs| && cs[k].lhs == i - 2 && cs[k].rhs == Ref(i - 1);
      assert Mentions(cs[k], i - 1);
    }
  }

  /** The tests of the walk are those of the specification. */
  lemma {:induction false} SameTests(g: Guess, ps: seq<Param>, cs: seq<Constraint>, i: nat)
    requires AtTurn(g, ps, cs, i) && i < |ps|
    ensures Pairs(g, ps, i, i + 1, cs) <==> LengthBehind(g, ps, i)
    ensures Pairs(g, ps, i, i - 1, cs) <==> LengthInFront(g, ps, cs, i)
  {
    assert !Mentioned(cs, i + 1);
    if i > 0 {
      MentionedInFront(g, ps, cs, i);
    }
  }

  lemma {:induction false} NothingStep(g: Guess, ps: seq<Param>, cs: seq<Constraint>, i: nat)
    requires AtTurn(g, ps, cs, i) && i < |ps| && Gets(g, ps, cs, i) && !Owns(cs, i)
    ensures AtTurn(g, ps, cs, i + 1)
  {
    NotYet(cs, i, |ps|, i);
  }

  lemma {:induction false} FileStep(g: Guess, ps: seq<Param>, cs: seq<Constraint>, i: nat)
    requires AtTurn(g, ps, cs, i) && i < |ps| && g.buffer(ps[i]) && g.file(ps[i])
    ensures AtTurn(g, ps, cs + [Constraint(i, false, Eq, File)], i + 1)
  {
    var es := [Constraint(i, false, Eq, File)];
    AddFile(cs, i, |ps|);
    OrderFile(cs, i, |ps|);
    AllKept(g, ps, cs, es, i);
    SameBefore(cs, es, i, i - 1);
    NotYet(cs, i, |ps|, i);
    assert (cs + es)[|cs|] == es[0];
  }

  lemma {:induction false} PairStep(g: Guess, ps: seq<Param>, cs: seq<Constraint>, i: nat, j: nat)
    requires AtTurn(g, ps, cs, i) && i < |ps| && j < |ps| && !Mentioned(cs, j)
    requires g.buffer(ps[i]) && !g.file(ps[i]) && !g.out(ps[i]) && Pointer(g, ps[i])
    requires j == if LengthBehind(g, ps, i) then i + 1 else i - 1
    requires LengthBehind(g, ps, i) || LengthInFront(g, ps, cs, i)
    ensures AtTurn(g, ps, cs + Pair(g, ps[i], i, j), i + 2)
  {
    var es := Pair(g, ps[i], i, j);
    var ds := cs + es;
    AddPair(cs, g, ps[i], i, j, |ps|);
    OrderPair(cs, g, ps[i], i, j, |ps|);
    AllKept(g, ps, cs, es, i);
    SameBefore(cs, es, i, i - 1);
    if i > 1 {
      SameDependence(cs, es, i, i - 2, i - 1);
    }
    assert ds[|cs|] == es[0] && ds[|cs| + 1] == es[1];
    NotYet(cs, i, |ps|, i + 1);
    PairOwns(cs, g, ps[i], i, j);
  }

  lemma {:induction false} PairOwns(cs: seq<Constraint>, g: Guess, p: Param, i: nat, j: nat)
    requires !Owns(cs, i + 1)
    ensures !Owns(cs + Pair(g, p, i, j), i + 1) && !Paired(cs + Pair(g, p, i, j), i + 1)
    ensures Paired(cs + Pair(g, p, i, j), i)
  {
    var ds := cs + Pair(g, p, i, j);
    assert forall k :: 0 <= k < |cs| ==> ds[k] == cs[k];
    assert ds[|cs|].lhs == i && ds[|cs|].rhs.Ref?;
    forall k | 0 <= k < |ds|
      ensures !Own(ds[k], i + 1) && (ds[k].rhs.Ref? ==> ds[k].lhs != i + 1)
    {
      assert k < |cs| ==> !Own(cs[k], i + 1);
    }
  }

  /** The derived constraints are exactly those that the parameters call for. */
  lemma {:induction false} DeriveExact(g: Guess, ps: seq<Param>, i: nat, cs: seq<Constraint>)
    requires AtTurn(g, ps, cs, i)
    ensures Derive(g, ps, i, cs).Some? ==> ExactUpTo(g, ps, Derive(g, ps, i, cs).cs, |ps|)
    decreases |ps| - i
  {
    if i < |ps| {
      SameTests(g, ps, cs, i);
      NotYet(cs, i, |ps|, i);
      if !g.buffer(ps[i]) || (!g.file(ps[i]) && g.out(ps[i])) {
        NothingStep(g, ps, cs, i);
        DeriveExact(g, ps, i + 1, cs);
      } else if g.file(ps[i]) {
        FileStep(g, ps, cs, i);
        DeriveExact(g, ps, i + 1, cs + [Constraint(i, false, Eq, File)]);
      } else if !LengthBehind(g, ps, i) && !LengthInFront(g, ps, cs, i) {
        NothingStep(g, ps, cs, i);
        DeriveExact(g, ps, i + 1, cs);
      } else if Pointer(g, ps[i]) {
        var j := if LengthBehind(g, ps, i) then i + 1 else i - 1;
        PairStep(g, ps, cs, i, j);
        DeriveExact(g, ps, i + 2, cs + Pair(g, ps[i], i, j));
      }
    }
  }

  lemma {:induction false} Start(g: Guess, ps: seq<Param>)
    ensures AtTurn(g, ps, [], 0)
  {}

  /** Where nothing is derived, some parameter had a turn in which the source raises. */
  lemma {:induction false} DeriveRaises(g: Guess, ps: seq<Param>, i: nat, cs: seq<Constraint>)
    returns (m: nat, ds: seq<Constraint>)
    requires AtTurn(g, ps, cs, i) && Derive(g, ps, i, cs).None?
    ensures AtTurn(g, ps, ds, m) && Raises(g, ps, ds, m)
    decreases |ps| - i
  {
    SameTests(g, ps, cs, i);
    NotYet(cs, i, |ps|, i);
    if Raises(g, ps, cs, i) {
      m, ds := i, cs;
    } else if g.buffer(ps[i]) && g.file(ps[i]) {
      FileStep(g, ps, cs, i);
      m, ds := DeriveRaises(g, ps, i + 1, cs + [Constraint(i, false, Eq, File)]);
    } else if Gets(g, ps, cs, i) {
      NothingStep(g, ps, cs, i);
      m, ds := DeriveRaises(g, ps, i + 1, cs);
    } else {
      var j := if LengthBehind(g, ps, i) then i + 1 else i - 1;
      PairStep(g, ps, cs, i, j);
      m, ds := DeriveRaises(g, ps, i + 2, cs + Pair(g, ps[i], i, j));
    }
  }

  /** And where something is, none had. */
  lemma {:induction false} NoneRaised(g: Guess, ps: seq<Param>, cs: seq<Constraint>, m: nat)
    requires ExactUpTo(g, ps, cs, |ps|) && m < |ps| && !(m > 0 && Paired(cs, m - 1))
    ensures !Raises(g, ps, cs, m)
  {
    assert Turn(g, ps, cs, m);
  }

  /** The file names among the constraints are those of the buffers with such a name that had a turn. */
  lemma {:induction false} FilesExactly(g: Guess, ps: seq<Param>, cs: seq<Constraint>, m: nat)
    requires Sound(cs, |ps|, |ps|) && ExactUpTo(g, ps, cs, |ps|)
    ensures Constraint(m, false, Eq, File) in cs <==>
            m < |ps| && g.buffer(ps[m]) && g.file(ps[m]) && !(m > 0 && Paired(cs, m - 1))
  {
    if Constraint(m, false, Eq, File) in cs {
      var k :| 0 <= k < |cs| && cs[k] == Constraint(m, false, Eq, File);
      assert Own(cs[k], m) && Turn(g, ps, cs, m);
      assert forall l :: 0 <= l < |cs| && cs[l].lhs == m ==> l == k;
    } else if m < |ps| {
      assert Turn(g, ps, cs, m);
    }
  }

  /** The lengths are exactly the recorded parameters. */
  lemma {:induction false} RecordsExactly(cs: seq<Constraint>, j: nat)
    requires LengthsRecorded(cs) && InOrder(cs)
    ensures Constraint(j, false, Le, Rec) in cs <==> exists a: nat :: DependsOn(cs, a, j)
  {
    if Constraint(j, false, Le, Rec) in cs {
      var k :| 0 <= k < |cs| && cs[k] == Constraint(j, false, Le, Rec);
      assert Placed(cs, k);
      assert DependsOn(cs, cs[k - 1].lhs, j);
    }
    if a: nat :| DependsOn(cs, a, j) {
      var k :| 0 <= k < |cs| && cs[k].lhs == a && cs[k].rhs == Ref(j);
      assert cs[k].rhs.n == j;
    }
  }
}
