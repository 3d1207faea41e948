/** Leaving out the arguments that no constraint mentions, and renumbering the rest. */
module Renumber {
  import opened ConstraintText
  import opened ConstraintDerive
  import opened ConstraintExact
  import opened ConstraintGenerator

  /** The arguments mentioned by the first n constraints. */
  function Referenced(cs: seq<Constraint>, n: nat): set<nat>
    requires n <= |cs|
  {
    if n == 0 then {}
    else Referenced(cs, n - 1) + {cs[n - 1].lhs} + if cs[n - 1].rhs.Ref? then {cs[n - 1].rhs.n} else {}
  }

  lemma {:induction false} ReferencedHas(cs: seq<Constraint>, n: nat, k: nat)
    requires k < n <= |cs|
    ensures cs[k].lhs in Referenced(cs, n)
    ensures cs[k].rhs.Ref? ==> cs[k].rhs.n in Referenced(cs, n)
    decreases n
  {
    if k < n - 1 {
      ReferencedHas(cs, n - 1, k);
    }
  }

  predicate Increasing(s: seq<nat>) {
    forall i, j :: 0 <= i < j < |s| ==> s[i] < s[j]
  }

  /** The list of mentioned arguments, each once. */
  method Gather(cs: seq<Constraint>) returns (refs: seq<nat>)
    ensures forall p :: p in refs <==> p in Referenced(cs, |cs|)
    ensures forall i, j :: 0 <= i < j < |refs| ==> refs[i] != refs[j]
  {
    refs := [];
    for k := 0 to |cs|
      invariant forall p :: p in refs <==> p in Referenced(cs, k)
      invariant forall i, j :: 0 <= i < j < |refs| ==> refs[i] != refs[j]
    {
      if cs[k].lhs !in refs {
        refs := refs + [cs[k].lhs];
      }
      if cs[k].rhs.Ref? && cs[k].rhs.n !in refs {
        refs := refs + [cs[k].rhs.n];
      }
    }
  }

  /** Sorting a list without repetitions. */
  function Insert(s: seq<nat>, x: nat): (r: seq<nat>)
    requires Increasing(s) && x !in s
    ensures Increasing(r) && forall p :: p in r <==> p in s || p == x
  {
    if s == [] || x < s[0] then [x] + s
    else
      var t := Insert(s[1..], x);
      assert forall i :: 0 <= i < |t| ==> t[i] in t;
      [s[0]] + t
  }

  function Sort(s: seq<nat>): (r: seq<nat>)
    requires forall i, j :: 0 <= i < j < |s| ==> s[i] != s[j]
    ensures Increasing(r) && forall p :: p in r <==> p in s
  {
    if s == [] then [] else Insert(Sort(s[1..]), s[0])
  }

  /** The new number of each argument is its place among those mentioned. */
  ghost predicate Numbers(m: map<nat, nat>, refs: seq<nat>) {
    && (forall p :: p in m <==> p in refs)
    && forall k :: 0 <= k < |refs| ==> refs[k] in m && m[refs[k]] == k
  }

  function Rename(c: Constraint, m: map<nat, nat>): Constraint {
    c.(lhs := if c.lhs in m then m[c.lhs] else c.lhs,
       rhs := if c.rhs.Ref? && c.rhs.n in m then Ref(m[c.rhs.n]) else c.rhs)
  }

  method NumberAll(refs: seq<nat>) returns (m: map<nat, nat>)
    requires Increasing(refs)
    ensures Numbers(m, refs)
  {
    m := map[];
    var last := 0;
    while last < |refs|
      invariant 0 <= last <= |refs| && Numbers(m, refs[..last])
    {
      m := m[refs[last] := last];
      last := last + 1;
      assert refs[..last] == refs[..last - 1] + [refs[last - 1]];
    }
    assert refs[..last] == refs;
  }

  /** The skipped arguments, the renamed constraints, and the sorted list of the arguments kept. */
  method Transform(n: nat, cs: seq<Constraint>)
    returns (skip: seq<nat>, out: seq<Constraint>, refs: seq<nat>, m: map<nat, nat>)
    ensures Increasing(refs) && Numbers(m, refs) && forall p :: p in refs <==> p in Referenced(cs, |cs|)
    ensures Increasing(skip) && forall p :: p in skip <==> 0 <= p < n && p !in refs
    ensures |out| == |cs| && forall k :: 0 <= k < |cs| ==> out[k] == Rename(cs[k], m)
  {
    refs := Gather(cs);
    refs := Sort(refs);
    m := NumberAll(refs);
    out := cs;
    for k := 0 to |cs|
      invariant |out| == |cs|
      invariant forall j :: 0 <= j < k ==> out[j] == Rename(cs[j], m)
      invariant forall j :: k <= j < |cs| ==> out[j] == cs[j]
    {
      out := out[k := Rename(out[k], m)];
    }
    skip := Unmentioned(n, refs);
  }

  /** The arguments below n that are not in `refs`, in order. */
  function Unmentioned(n: nat, refs: seq<nat>): (r: seq<nat>)
    ensures Increasing(r) && forall p :: p in r <==> 0 <= p < n && p !in refs
  {
    if n == 0 then []
    else
      var r := Unmentioned(n - 1, refs);
      assert forall i :: 0 <= i < |r| ==> r[i] in r;
      if n - 1 in refs then r else r + [n - 1]
  }

  /** Evaluation of a constraint on argument values, for any reading of the relations. */
  datatype Meaning<!V> = Meaning(
    related: (bool, Rel, V, V) -> bool,
    constant: (bool, Rel, V, nat) -> bool,
    recorded: (bool, Rel, V) -> bool,
    isFile: (bool, Rel, V) -> bool)

  predicate Defined(c: Constraint, n: nat) {
    c.lhs < n && (c.rhs.Ref? ==> c.rhs.n < n)
  }

  predicate Eval<V>(sem: Meaning<V>, c: Constraint, args: seq<V>)
    requires Defined(c, |args|)
  {
    var x := args[c.lhs];
    match c.rhs
    case Ref(j) => sem.related(c.deref, c.rel, x, args[j])
    case Constant(v) => sem.constant(c.deref, c.rel, x, v)
    case Rec => sem.recorded(c.deref, c.rel, x)
    case File => sem.isFile(c.deref, c.rel, x)
  }

  /** The arguments from position i on that are not skipped. */
  function Remaining<V>(args: seq<V>, skip: seq<nat>, i: nat): seq<V>
    requires i <= |args|
    decreases |args| - i
  {
    if i == |args| then [] else (if i in skip then [] else [args[i]]) + Remaining(args, skip, i + 1)
  }

  predicate Bounded(refs: seq<nat>, low: nat, high: nat) {
    forall j :: 0 <= j < |refs| ==> low <= refs[j] < high
  }

  function Picked<V>(args: seq<V>, refs: seq<nat>): (r: seq<V>)
    requires Bounded(refs, 0, |args|)
    ensures |r| == |refs| && forall j :: 0 <= j < |refs| ==> r[j] == args[refs[j]]
  {
    if refs == [] then [] else [args[refs[0]]] + Picked(args, refs[1..])
  }

  /** The arguments that remain are the mentioned ones, in their order. */
  lemma {:induction false} Kept<V>(args: seq<V>, skip: seq<nat>, refs: seq<nat>, i: nat)
    requires Increasing(refs) && i <= |args| && Bounded(refs, i, |args|)
    requires forall p :: i <= p < |args| ==> (p in skip <==> p !in refs)
    ensures Remaining(args, skip, i) == Picked(args, refs)
    decreases |args| - i
  {
    if i == |args| {
      assert refs == [];
    } else if refs != [] && refs[0] == i {
      HeadTaken(refs, i, |args|);
      Kept(args, skip, refs[1..], i + 1);
    } else {
      NotHere(refs, i, |args|);
      Kept(args, skip, refs, i + 1);
    }
  }

  lemma HeadTaken(refs: seq<nat>, i: nat, n: nat)
    requires Increasing(refs) && Bounded(refs, i, n) && refs != [] && refs[0] == i
    ensures Increasing(refs[1..]) && Bounded(refs[1..], i + 1, n) && i in refs
    ensures forall p :: p > i ==> (p in refs <==> p in refs[1..])
  {
    assert refs == [i] + refs[1..];
  }

  lemma NotHere(refs: seq<nat>, i: nat, n: nat)
    requires Increasing(refs) && Bounded(refs, i, n) && (refs == [] || refs[0] != i)
    ensures Bounded(refs, i + 1, n) && i !in refs
  {}

  /** The renumbering is an order isomorphism from the arguments mentioned onto 0..k-1. */
  lemma OrderIsomorphism(m: map<nat, nat>, refs: seq<nat>, p: nat, q: nat)
    requires Increasing(refs) && Numbers(m, refs) && p in m && q in m
    ensures m[p] < |refs| && refs[m[p]] == p
    ensures p < q <==> m[p] < m[q]
  {
    var i :| 0 <= i < |refs| && refs[i] == p;
    var j :| 0 <= j < |refs| && refs[j] == q;
  }

  lemma Place(m: map<nat, nat>, refs: seq<nat>, p: nat)
    requires Numbers(m, refs) && p in refs
    ensures p in m && m[p] < |refs| && refs[m[p]] == p
  {
    var i :| 0 <= i < |refs| && refs[i] == p;
  }

  lemma OneMeaning<V>(sem: Meaning<V>, args: seq<V>, c: Constraint, refs: seq<nat>, m: map<nat, nat>)
    requires Bounded(refs, 0, |args|) && Numbers(m, refs)
    requires c.lhs in refs && (c.rhs.Ref? ==> c.rhs.n in refs)
    ensures Defined(c, |args|) && Defined(Rename(c, m), |refs|)
    ensures Eval(sem, Rename(c, m), Picked(args, refs)) == Eval(sem, c, args)
  {
    Place(m, refs, c.lhs);
    if c.rhs.Ref? {
      Place(m, refs, c.rhs.n);
    }
  }

  lemma AllBounded(cs: seq<Constraint>, refs: seq<nat>, n: nat)
    requires forall j :: 0 <= j < |cs| ==> Defined(cs[j], n)
    requires forall p :: p in refs <==> p in Referenced(cs, |cs|)
    ensures Bounded(refs, 0, n)
  {
    forall j | 0 <= j < |refs|
      ensures refs[j] < n
    {
      assert refs[j] in refs;
      ReferencedBound(cs, |cs|, n, refs[j]);
    }
  }

  /** Renumbering preserves meaning: a renamed constraint says about the arguments that remain what
      the original says about all of them. */
  lemma SameMeaning<V>(sem: Meaning<V>, args: seq<V>, cs: seq<Constraint>, k: nat,
                       skip: seq<nat>, refs: seq<nat>, m: map<nat, nat>)
    requires k < |cs| && forall j :: 0 <= j < |cs| ==> Defined(cs[j], |args|)
    requires Increasing(refs) && Numbers(m, refs) && forall p :: p in refs <==> p in Referenced(cs, |cs|)
    requires forall p :: p in skip <==> 0 <= p < |args| && p !in refs
    ensures Defined(Rename(cs[k], m), |Remaining(args, skip, 0)|)
    ensures Eval(sem, Rename(cs[k], m), Remaining(args, skip, 0)) == Eval(sem, cs[k], args)
  {
    AllBounded(cs, refs, |args|);
    Kept(args, skip, refs, 0);
    ReferencedHas(cs, |cs|, k);
    OneMeaning(sem, args, cs[k], refs, m);
  }

  lemma {:induction false} ReferencedBound(cs: seq<Constraint>, n: nat, bound: nat, p: nat)
    requires n <= |cs| && (forall j :: 0 <= j < |cs| ==> Defined(cs[j], bound)) && p in Referenced(cs, n)
    ensures p < bound
    decreases n
  {
    if p in Referenced(cs, n - 1) {
      ReferencedBound(cs, n - 1, bound, p);
    }
  }

  /** From the parameters of a function to its renumbered constraints: nothing is lost on the way. */
  method Configure<V>(g: Guess, ps: seq<Param>, ghost sem: Meaning<V>, ghost args: seq<V>)
    returns (ok: bool, skip: seq<nat>, out: seq<Constraint>)
    requires |args| == |ps|
    ensures ok <==> Derive(g, ps, 0, []).Some?
    ensures ok ==> |out| == |Derive(g, ps, 0, []).cs| && ExactUpTo(g, ps, Derive(g, ps, 0, []).cs, |ps|)
    ensures ok ==> forall k :: 0 <= k < |out| ==>
      && Defined(out[k], |Remaining(args, skip, 0)|) && Defined(Derive(g, ps, 0, []).cs[k], |args|)
      && Eval(sem, out[k], Remaining(args, skip, 0)) == Eval(sem, Derive(g, ps, 0, []).cs[k], args)
  {
    skip, out := [], [];
    var text, parsed;
    ok, text, parsed := GenerateAndParse(g, ps);
    if ok {
      var refs, m;
      skip, out, refs, m := Transform(|ps|, parsed);
      forall k | 0 <= k < |out|
        ensures Defined(out[k], |Remaining(args, skip, 0)|) && Defined(parsed[k], |args|)
        ensures Eval(sem, out[k], Remaining(args, skip, 0)) == Eval(sem, parsed[k], args)
      {
        SameMeaning(sem, args, parsed, k, skip, refs, m);
      }
    }
  }
}
