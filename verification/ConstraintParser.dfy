/** The recursive-descent parser of constraint lists, and its round trip with the printer. */
module ConstraintParser {
  import opened ConstraintText

  /** What a parsing step gives: the value and the text behind it, or an exception. */
  datatype Parse<T> = Fail | Got(value: T, rest: string)

  function Skip(s: string): (t: string)
    ensures |t| <= |s| && (t == [] || !IsSpace(t[0]))
  {
    if s != [] && IsSpace(s[0]) then Skip(s[1..]) else s
  }

  /** The length of the run of digits at the start. */
  function Digits(s: string): (n: nat)
    ensures n <= |s| && forall i :: 0 <= i < n ==> IsDigit(s[i])
  {
    if s != [] && IsDigit(s[0]) then 1 + Digits(s[1..]) else 0
  }

  function Num(s: string): (r: Parse<nat>)
    ensures r.Got? ==> |r.rest| < |s|
  {
    var t := Skip(s);
    var n := Digits(t);
    if n == 0 then Fail else Got(Value(t[..n]), t[n..])
  }

  function RelOf(c: char): Parse<Rel> {
    if c == '<' then Got(Le, "") else if c == '>' then Got(Ge, "") else if c == '=' then Got(Eq, "") else Fail
  }

  /** The relation of a non-empty text, after an optional dereference. */
  function Relation(s: string): (r: Parse<(bool, Rel)>)
    ensures r.Got? ==> |r.rest| < |s|
  {
    var t := Skip(s);
    if t == [] then Fail
    else if t[0] != 'd' then
      (if RelOf(t[0]).Fail? then Fail else Got((false, RelOf(t[0]).value), t[1..]))
    else if |t| < 2 || RelOf(t[1]).Fail? then Fail
    else Got((true, RelOf(t[1]).value), t[2..])
  }

  function LetterOf(c: char): Parse<Rhs> {
    match c
    case 'z' => Got(Constant(ZERO), "")
    case 'c' => Got(Constant(PAGE), "")
    case 'p' => Got(Constant(ONE), "")
    case 'u' => Got(Constant(MAX), "")
    case 'r' => Got(Rec, "")
    case 'f' => Got(File, "")
    case _ => Fail
  }

  function Right(s: string): (r: Parse<Rhs>)
    ensures r.Got? ==> |r.rest| < |s|
  {
    var t := Skip(s);
    if t == [] then Fail
    else if IsDigit(t[0]) then
      (var n := Num(t); if n.Fail? then Fail else Got(Ref(n.value), n.rest))
    else if LetterOf(t[0]).Fail? then Fail
    else Got(LetterOf(t[0]).value, t[1..])
  }

  function One(s: string): (r: Parse<Constraint>)
    ensures r.Got? ==> |r.rest| < |s|
  {
    var l := Num(s);
    if l.Fail? then Fail
    else
      var m := Relation(l.rest);
      if m.Fail? then Fail
      else
        var r := Right(m.rest);
        if r.Fail? then Fail else Got(Constraint(l.value, m.value.0, m.value.1, r.value), r.rest)
  }

  /** A separator and the constraint behind it, up to the next solid character. */
  function Separated(s: string): (r: Parse<Constraint>)
    ensures r.Got? ==> |r.rest| < |s|
  {
    var t := Skip(s);
    if t == [] || t[0] != ',' then Fail
    else
      var c := One(t[1..]);
      if c.Fail? then Fail else Got(c.value, Skip(c.rest))
  }

  /** What follows the first constraint, up to the end. */
  function More(s: string): Parse<seq<Constraint>>
    decreases |s|
  {
    if s == [] then Got([], "")
    else
      var c := Separated(s);
      if c.Fail? then Fail
      else
        var cs := More(c.rest);
        if cs.Fail? then Fail else Got([c.value] + cs.value, "")
  }

  function All(s: string): Parse<seq<Constraint>> {
    var c := One(s);
    if c.Fail? then Fail
    else
      var cs := More(Skip(c.rest));
      if cs.Fail? then Fail else Got([c.value] + cs.value, "")
  }

  /** Skipping twice, or before a step that skips itself, changes nothing. */
  lemma SkipTwice(s: string)
    ensures Skip(Skip(s)) == Skip(s)
    ensures Num(Skip(s)) == Num(s) && Relation(Skip(s)) == Relation(s) && Right(Skip(s)) == Right(s)
    ensures One(Skip(s)) == One(s)
  {}

  class ConstraintListParser {
    var buf: string

    constructor (buf: string)
      ensures this.buf == buf
    {
      this.buf := buf;
    }

    method ConsumeChar() returns (c: char)
      requires buf != []
      modifies this
      ensures c == old(buf)[0] && buf == old(buf)[1..]
    {
      c, buf := buf[0], buf[1..];
    }

    method SkipWhitespace()
      modifies this
      ensures buf == Skip(old(buf))
    {
      while buf != [] && IsSpace(buf[0])
        invariant Skip(buf) == Skip(old(buf))
        decreases |buf|
      {
        var _ := ConsumeChar();
      }
    }

    /** `ok` is false where the source raises an exception. */
    method Number() returns (ok: bool, n: nat)
      modifies this
      ensures ok <==> Num(old(buf)).Got?
      ensures ok ==> Num(old(buf)) == Got(n, buf)
    {
      n := 0;
      SkipWhitespace();
      ghost var t := buf;
      var res := "";
      while buf != [] && IsDigit(buf[0])
        invariant |res| <= |t| && res == t[..|res|] && buf == t[|res|..]
        invariant Digits(t) == |res| + Digits(buf)
        decreases |buf|
      {
        var c := ConsumeChar();
        res := res + [c];
      }
      ok := res != [];
      if ok {
        n := ToInt(res);
      }
    }

    method Relate() returns (ok: bool, deref: bool, rel: Rel)
      modifies this
      ensures ok <==> Relation(old(buf)).Got?
      ensures ok ==> Relation(old(buf)) == Got((deref, rel), buf)
    {
      ok, deref, rel := false, false, Eq;
      SkipWhitespace();
      if buf == [] {
        return;
      }
      var c := ConsumeChar();
      if c == 'd' {
        deref := true;
        if buf == [] {
          return;
        }
        c := ConsumeChar();
      }
      if c == '<' {
        ok, rel := true, Le;
      } else if c == '>' {
        ok, rel := true, Ge;
      } else if c == '=' {
        ok, rel := true, Eq;
      }
    }

    method Righthandside() returns (ok: bool, rhs: Rhs)
      modifies this
      ensures ok <==> Right(old(buf)).Got?
      ensures ok ==> Right(old(buf)) == Got(rhs, buf)
    {
      ok, rhs := false, File;
      SkipWhitespace();
      if buf == [] {
        return;
      }
      if IsDigit(buf[0]) {
        var n;
        ok, n := Number();
        return ok, Ref(n);
      }
      var c := ConsumeChar();
      var constants := map['z' := Constant(ZERO), 'c' := Constant(PAGE), 'p' := Constant(ONE),
                           'r' := Rec, 'f' := File, 'u' := Constant(MAX)];
      if c in constants {
        ok, rhs := true, constants[c];
      }
    }

    method Item() returns (ok: bool, c: Constraint)
      modifies this
      ensures ok <==> One(old(buf)).Got?
      ensures ok ==> One(old(buf)) == Got(c, buf)
    {
      ghost var s := buf;
      SkipTwice(s);
      var lhs, deref, rel, rhs := 0, false, Eq, File;
      c := Constraint(lhs, deref, rel, rhs);
      SkipWhitespace();
      ok, lhs := Number();
      if !ok {
        return;
      }
      ok, deref, rel := Relate();
      if !ok {
        return;
      }
      ok, rhs := Righthandside();
      c := Constraint(lhs, deref, rel, rhs);
    }

    method ConstraintList() returns (ok: bool, res: seq<Constraint>)
      modifies this
      ensures ok <==> All(old(buf)).Got?
      ensures ok ==> res == All(old(buf)).value
    {
      ghost var s := buf;
      SkipTwice(s);
      var c;
      SkipWhitespace();
      ok, c := Item();
      if !ok {
        return false, [];
      }
      SkipWhitespace();
      ok, res := Others(c);
    }

    /** The list loop, behind the first constraint. */
    method Others(first: Constraint) returns (ok: bool, res: seq<Constraint>)
      modifies this
      ensures ok <==> More(old(buf)).Got?
      ensures ok ==> res == [first] + More(old(buf)).value
    {
      ghost var s := buf;
      var c;
      ok, res := true, [first];
      while buf != []
        invariant ok && (More(s).Got? <==> More(buf).Got?)
        invariant More(buf).Got? ==> [first] + More(s).value == res + More(buf).value
        decreases |buf|
      {
        ok, c := Another();
        if !ok {
          return;
        }
        res := res + [c];
      }
    }

    /** One turn of the list loop. */
    method Another() returns (ok: bool, c: Constraint)
      modifies this
      ensures ok <==> Separated(old(buf)).Got?
      ensures ok ==> Separated(old(buf)) == Got(c, buf)
    {
      ok, c := false, Constraint(0, false, Eq, File);
      SkipWhitespace();
      if buf == [] {
        return;
      }
      var separator := ConsumeChar();
      if separator != ',' {
        return;
      }
      SkipTwice(buf);
      SkipWhitespace();
      ok, c := Item();
      if ok {
        SkipWhitespace();
      }
    }
  }

  /** int() on a string of digits. */
  method ToInt(s: string) returns (n: nat)
    requires forall i :: 0 <= i < |s| ==> IsDigit(s[i])
    ensures n == Value(s)
  {
    n := 0;
    for i := 0 to |s|
      invariant n == Value(s[..i])
    {
      assert s[..i + 1][..i] == s[..i];
      n := 10 * n + DigitValue(s[i]);
    }
    assert s[..|s|] == s;
  }

  /** Nothing here goes on a number. */
  predicate Breaks(rest: string) {
    rest == [] || !IsDigit(rest[0])
  }

  lemma {:induction false} DigitsEnd(d: string, rest: string)
    requires (forall i :: 0 <= i < |d| ==> IsDigit(d[i])) && Breaks(rest)
    ensures Digits(d + rest) == |d|
    decreases |d|
  {
    if d == [] {
      assert d + rest == rest;
    } else {
      DigitsEnd(d[1..], rest);
      assert (d + rest)[1..] == d[1..] + rest;
    }
  }

  lemma NumReads(n: nat, rest: string)
    requires Breaks(rest)
    ensures Num(Dec(n) + rest) == Got(n, rest)
  {
    var t := Dec(n) + rest;
    assert IsDigit(t[0]);
    assert Skip(t) == t;
    DigitsEnd(Dec(n), rest);
    assert t[..|Dec(n)|] == Dec(n) && t[|Dec(n)|..] == rest;
    ReadsBack(n);
  }

  lemma SkipsOne(t: string)
    requires t != [] && !IsSpace(t[0])
    ensures Skip(" " + t) == t
  {
    assert (" " + t)[1..] == t;
  }

  lemma RelationReads(deref: bool, rel: Rel, rest: string)
    ensures Relation(" " + (RelText(deref, rel) + rest)) == Got((deref, rel), rest)
  {
    var t := RelText(deref, rel) + rest;
    SkipsOne(t);
    if deref {
      assert t[0] == 'd' && t[2..] == rest;
    } else {
      assert t[1..] == rest;
    }
  }

  lemma RightReads(rhs: Rhs, rest: string)
    requires Breaks(rest) && (rhs.Constant? ==> rhs.value in {ZERO, ONE, PAGE, MAX})
    ensures Right(" " + (RhsText(rhs) + rest)) == Got(rhs, rest)
  {
    var t := RhsText(rhs) + rest;
    RhsSolid(rhs);
    assert t[0] == RhsText(rhs)[0];
    SkipsOne(t);
    if rhs.Ref? {
      NumReads(rhs.n, rest);
    } else {
      assert t[1..] == rest;
    }
  }

  lemma Regroup(l: string, m: string, r: string, rest: string)
    ensures l + " " + m + " " + r + rest == l + (" " + (m + (" " + (r + rest))))
  {}

  lemma OneReads(c: Constraint, rest: string)
    requires Breaks(rest) && Lettered(c)
    ensures One(Print(c) + rest) == Got(c, rest)
  {
    var r := " " + (RhsText(c.rhs) + rest);
    var m := " " + (RelText(c.deref, c.rel) + r);
    Regroup(Dec(c.lhs), RelText(c.deref, c.rel), RhsText(c.rhs), rest);
    NumReads(c.lhs, m);
    RelationReads(c.deref, c.rel, r);
    RightReads(c.rhs, rest);
  }

  /** What the separator and the constraints behind it look like. */
  function Tail(cs: seq<Constraint>): (s: string)
    ensures Breaks(s) && (s == [] || s[0] == ',')
  {
    if cs == [] then "" else "," + (Print(cs[0]) + Tail(cs[1..]))
  }

  lemma {:induction false} JoinIs(cs: seq<Constraint>)
    requires cs != []
    ensures Join(Prints(cs)) == Print(cs[0]) + Tail(cs[1..])
    decreases |cs|
  {
    assert Prints(cs)[1..] == Prints(cs[1..]);
    if |cs| > 1 {
      JoinIs(cs[1..]);
      JoinTwo(Print(cs[0]), Print(cs[1]), Tail(cs[1..][1..]));
    } else {
      assert Print(cs[0]) + "" == Print(cs[0]);
    }
  }

  lemma JoinTwo(a: string, b: string, t: string)
    ensures a + "," + (b + t) == a + ("," + (b + t))
  {}

  predicate AllLettered(cs: seq<Constraint>) {
    forall i :: 0 <= i < |cs| ==> Lettered(cs[i])
  }

  lemma MoreStep(c: Constraint, t: string, cs: seq<Constraint>)
    requires Lettered(c) && (t == [] || t[0] == ',') && More(t) == Got(cs, "")
    ensures More("," + (Print(c) + t)) == Got([c] + cs, "")
  {
    var u := Print(c) + t;
    var s := "," + u;
    assert s[0] == ',' && s[1..] == u && Skip(s) == s;
    OneReads(c, t);
    assert Skip(t) == t;
  }

  lemma {:induction false} MoreReads(cs: seq<Constraint>)
    requires AllLettered(cs)
    ensures More(Tail(cs)) == Got(cs, "")
    decreases |cs|
  {
    if cs != [] {
      MoreReads(cs[1..]);
      MoreStep(cs[0], Tail(cs[1..]), cs[1..]);
      assert [cs[0]] + cs[1..] == cs;
    }
  }

  /** What the printer writes, the parser reads back: for every non-empty list of constraints. */
  lemma RoundTrip(cs: seq<Constraint>)
    requires cs != [] && AllLettered(cs)
    ensures All(Join(Prints(cs))) == Got(cs, "")
  {
    JoinIs(cs);
    OneReads(cs[0], Tail(cs[1..]));
    MoreReads(cs[1..]);
    assert [cs[0]] + cs[1..] == cs;
  }
}
