/** Generating the text of the constraints of a parameter list. */
module ConstraintGenerator {
  import opened ConstraintText
  import opened ConstraintParser
  import opened ConstraintDerive
  import opened ConstraintExact

  /** No line has j among its words. */
  method AnyMentions(lines: seq<string>, j: nat, ghost cs: seq<Constraint>) returns (r: bool)
    requires lines == Prints(cs)
    ensures r <==> Mentioned(cs, j)
  {
    for k := 0 to |lines|
      invariant forall m :: 0 <= m < k ==> !Mentions(cs[m], j)
    {
      WordTest(cs[k], j);
      if Dec(j) in Split(lines[k]) {
        return true;
      }
    }
    r := false;
  }

  /** The filter on the lines without j; it drops nothing when no line mentions j. */
  method DropMentions(lines: seq<string>, j: nat, ghost cs: seq<Constraint>) returns (kept: seq<string>)
    requires lines == Prints(cs) && !Mentioned(cs, j)
    ensures kept == lines
  {
    kept := [];
    for k := 0 to |lines|
      invariant kept == lines[..k]
    {
      WordTest(cs[k], j);
      if Dec(j) !in Split(lines[k]) {
        kept := kept + [lines[k]];
      }
    }
  }

  lemma PrintsSnoc(cs: seq<Constraint>, ds: seq<Constraint>)
    ensures Prints(cs + ds) == Prints(cs) + Prints(ds)
  {}

  /** The pair of lines for buffer i and length j, or nothing where the source raises. */
  method AppendPair(g: Guess, p: Param, i: nat, j: nat, lines: seq<string>, ghost cs: seq<Constraint>)
    returns (ok: bool, more: seq<string>)
    requires lines == Prints(cs) && !Mentioned(cs, j)
    ensures ok <==> Pointer(g, p)
    ensures ok ==> more == Prints(cs + Pair(g, p, i, j))
  {
    more := DropMentions(lines, j, cs);
    ok := true;
    if g.stars(p) == 1 {
      more := more + [Dec(i) + " " + "=" + " " + Dec(j)];
    } else if g.stars(p) == 2 {
      more := more + [Dec(i) + " " + "d=" + " " + Dec(j)];
    } else {
      return false, [];
    }
    more := more + [Dec(j) + " " + "<" + " " + "r"];
    PrintsSnoc(cs, Pair(g, p, i, j));
    PairText(g, p, i, j);
  }

  lemma PairText(g: Guess, p: Param, i: nat, j: nat)
    requires Pointer(g, p)
    ensures Prints(Pair(g, p, i, j)) ==
              [Dec(i) + " " + (if g.stars(p) == 2 then "d=" else "=") + " " + Dec(j), Dec(j) + " " + "<" + " " + "r"]
  {
    assert "" + "=" == "=" && "" + "<" == "<" && "d" + "=" == "d=";
  }

  /** One turn of the loop at a buffer that is neither a file name nor an output. */
  method TryLengths(g: Guess, ps: seq<Param>, i: nat, lines: seq<string>, ghost cs: seq<Constraint>)
    returns (ok: bool, more: seq<string>, next: nat, ghost ds: seq<Constraint>)
    requires i < |ps| && lines == Prints(cs) && g.buffer(ps[i]) && !g.file(ps[i]) && !g.out(ps[i])
    ensures !ok ==> Derive(g, ps, i, cs).None?
    ensures ok ==> next > i && more == Prints(ds) && Derive(g, ps, i, cs) == Derive(g, ps, next, ds)
  {
    var used := true;
    if i + 1 < |ps| {
      used := AnyMentions(lines, i + 1, cs);
      if !used && g.length(ps[i], ps[i + 1]) {
        ok, more := AppendPair(g, ps[i], i, i + 1, lines, cs);
        return ok, more, i + 2, cs + Pair(g, ps[i], i, i + 1);
      }
    }
    if i > 0 {
      used := AnyMentions(lines, i - 1, cs);
      if !used && g.length(ps[i], ps[i - 1]) {
        ok, more := AppendPair(g, ps[i], i, i - 1, lines, cs);
        return ok, more, i + 2, cs + Pair(g, ps[i], i, i - 1);
      }
    }
    return true, lines, i + 1, cs;
  }

  /** What there is to derive, or that there is a parameter at which the source raises. */
  lemma {:induction false} Judged(g: Guess, ps: seq<Param>)
    ensures Derive(g, ps, 0, []).Some? ==> ExactUpTo(g, ps, Derive(g, ps, 0, []).cs, |ps|)
    ensures Derive(g, ps, 0, []).None? ==> exists m: nat, cs :: AtTurn(g, ps, cs, m) && Raises(g, ps, cs, m)
  {
    Start(g, ps);
    DeriveExact(g, ps, 0, []);
    if Derive(g, ps, 0, []).None? {
      var m, cs := DeriveRaises(g, ps, 0, []);
    }
  }

  method Generate(g: Guess, ps: seq<Param>) returns (ok: bool, lines: seq<string>)
    ensures ok <==> Derive(g, ps, 0, []).Some?
    ensures ok ==> lines == Prints(Derive(g, ps, 0, []).cs) && ExactUpTo(g, ps, Derive(g, ps, 0, []).cs, |ps|)
    ensures !ok ==> exists m: nat, cs :: AtTurn(g, ps, cs, m) && Raises(g, ps, cs, m)
  {
    Judged(g, ps);
    lines, ok := [], true;
    ghost var cs: seq<Constraint> := [];
    var i := 0;
    while i < |ps|
      invariant lines == Prints(cs) && ok
      invariant Derive(g, ps, 0, []) == Derive(g, ps, i, cs)
      decreases |ps| - i
    {
      if !g.buffer(ps[i]) {
        i := i + 1;
      } else if g.file(ps[i]) {
        PrintsSnoc(cs, [Constraint(i, false, Eq, File)]);
        assert "" + "=" == "=";
        lines := lines + [Dec(i) + " " + "=" + " " + "f"];
        cs := cs + [Constraint(i, false, Eq, File)];
        i := i + 1;
      } else if !g.out(ps[i]) {
        ok, lines, i, cs := TryLengths(g, ps, i, lines, cs);
        if !ok {
          return;
        }
      } else {
        i := i + 1;
      }
    }
  }

  /** From parameters to text and back: the text of a list that is not empty parses to exactly the
      constraints derived, and these are sound. */
  method GenerateAndParse(g: Guess, ps: seq<Param>) returns (ok: bool, text: string, parsed: seq<Constraint>)
    ensures ok <==> Derive(g, ps, 0, []).Some?
    ensures ok ==> parsed == Derive(g, ps, 0, []).cs && Sound(parsed, |ps|, |ps|) && ExactUpTo(g, ps, parsed, |ps|)
    ensures ok ==> (text == [] <==> parsed == [])
  {
    text, parsed := [], [];
    var lines;
    ok, lines := Generate(g, ps);
    if !ok {
      return;
    }
    ghost var cs := Derive(g, ps, 0, []).cs;
    DeriveSound(g, ps, 0, []);
    text := Join(lines);
    if cs != [] {
      assert Prints(cs)[0] == Print(cs[0]);
      JoinIs(cs);
      RoundTrip(cs);
      assert text != [];
    }
    if text != [] {
      var parser := new ConstraintListParser(text);
      ok, parsed := parser.ConstraintList();
    }
  }
}
