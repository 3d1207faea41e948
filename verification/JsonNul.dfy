/** Which trees a text can carry: what the parser builds, what an accepted text cannot hold, and what
    the writers put into a text. */
module JsonNul {
  import opened JsonText
  import opened JsonPieces
  import opened JsonLexeme
  import opened JsonNumber
  import opened JsonGrammar
  import opened JsonWriter

  // ---------------------------------------------------------------- trees

  /** Every number is a lexeme of section 6 of RFC 8259. */
  ghost predicate Lexical(j: Json)
    decreases j
  {
    match j
    case Number(n) => IsLexeme(n)
    case Object(ms) => LexicalMembers(ms)
    case Array(es) => LexicalElements(es)
    case _ => true
  }

  ghost predicate LexicalMembers(ms: seq<Member>)
    decreases ms
  {
    ms != [] ==> LexicalMember(ms[0]) && LexicalMembers(ms[1..])
  }

  ghost predicate LexicalMember(m: Member)
    decreases m
  {
    Lexical(m.value)
  }

  ghost predicate LexicalElements(es: seq<Json>)
    decreases es
  {
    es != [] ==> Lexical(es[0]) && LexicalElements(es[1..])
  }

  /** No string and no name holds a NUL byte. */
  predicate NulFree(j: Json)
    decreases j
  {
    match j
    case String(s) => 0 !in s
    case Object(ms) => NulFreeMembers(ms)
    case Array(es) => NulFreeElements(es)
    case _ => true
  }

  predicate NulFreeMembers(ms: seq<Member>)
    decreases ms
  {
    ms != [] ==> NulFreeMember(ms[0]) && NulFreeMembers(ms[1..])
  }

  predicate NulFreeMember(m: Member)
    decreases m
  {
    0 !in m.name && NulFree(m.value)
  }

  predicate NulFreeElements(es: seq<Json>)
    decreases es
  {
    es != [] ==> NulFree(es[0]) && NulFreeElements(es[1..])
  }

  /** The trees that come through a text unharmed. */
  ghost predicate Writable(j: Json) {
    Lexical(j) && NulFree(j)
  }

  ghost predicate WritableMembers(ms: seq<Member>) {
    LexicalMembers(ms) && NulFreeMembers(ms)
  }

  ghost predicate WritableMember(m: Member) {
    LexicalMember(m) && NulFreeMember(m)
  }

  ghost predicate WritableElements(es: seq<Json>) {
    LexicalElements(es) && NulFreeElements(es)
  }

  /** What the parser can leave: the lone minus is accepted, but only as a whole text. */
  ghost predicate Parseable(j: Json) {
    Lexical(j) || j == Number([MINUS])
  }

  // ---------------------------------------------------------------- an accepted text holds no NUL

  ghost predicate Clean(src: Bytes, i: nat, j: nat) {
    i <= j <= |src| && forall k :: i <= k < j ==> src[k] != 0
  }

  lemma UnitIsClean(src: Bytes, i: nat)
    requires HasUnit(src, i)
    ensures Clean(src, i, i + 6)
  {
    forall k | i <= k < i + 6
      ensures src[k] != 0
    {
      if k >= i + 2 {
        assert HexDigit(src[k]) >= 0;
      }
    }
  }

  lemma PieceIsClean(src: Bytes, i: nat)
    requires i < |src| && src[i] != QUOTE && PieceAt(src, i).Some?
    ensures Clean(src, i, i + PieceAt(src, i).value.Length())
  {
    var p := PieceAt(src, i).value;
    if p.Unit? || p.Pair? {
      UnitIsClean(src, i);
    }
    if p.Pair? {
      UnitIsClean(src, i + 6);
    }
  }

  lemma {:induction false} LexIsClean(src: Bytes, i: nat)
    requires Lex(src, i).Good?
    ensures Clean(src, i, Lex(src, i).end)
    decreases |src| - i
  {
    if src[i] != QUOTE {
      PieceIsClean(src, i);
      LexIsClean(src, i + PieceAt(src, i).value.Length());
    }
  }

  lemma LiteralIsClean(src: Bytes, i: nat)
    requires Literal(src, i).Accept?
    ensures Clean(src, i, Literal(src, i).end)
  {
    LexIsClean(src, i + 1);
  }

  lemma ColonIsClean(src: Bytes, i: nat)
    requires i <= |src| && AfterColon(src, i).Some?
    ensures Clean(src, i, AfterColon(src, i).value)
  {
    Skipped(src, i);
    Skipped(src, SkipSpace(src, i) + 1);
  }

  lemma SeparatorIsClean(src: Bytes, i: nat, comma: bool)
    requires i < |src| && Separator(src, i, comma).Some?
    ensures Clean(src, i, Separator(src, i, comma).value)
  {
    Skipped(src, i + 1);
  }

  lemma KeywordIsClean(src: Bytes, i: nat)
    requires KeywordAt(src, i).Accept?
    ensures Clean(src, i, KeywordAt(src, i).end)
  {
    var w :=
      if Occurs(src, i, TRUE_TEXT) then TRUE_TEXT
      else if Occurs(src, i, FALSE_TEXT) then FALSE_TEXT
      else NULL_TEXT;
    WordIsClean(src, i, w);
  }

  lemma WordIsClean(src: Bytes, i: nat, w: Bytes)
    requires Occurs(src, i, w) && 0 !in w
    ensures Clean(src, i, i + |w|)
  {
    forall k | i <= k < i + |w|
      ensures src[k] != 0
    {
      assert src[i + (k - i)] == w[k - i];
    }
  }

  /** A value read from `i` on: no NUL in its text, and a number that is no lexeme only at the very end. */
  ghost predicate Sound(src: Bytes, i: nat, r: Parsed<Json>) {
    r.Accept? ==> Clean(src, i, r.end) && (Lexical(r.value) || (r.value == Number([MINUS]) && r.end == |src|))
  }

  lemma NumberIsSound(src: Bytes, i: nat)
    requires i < |src| && StartsNumber(src[i])
    ensures Sound(src, i, NumberAt(src, i))
  {
    if NumberEnd(src, i).Some? {
      NumberBytes(src, i);
      ScannedIsLexeme(src, i);
    }
  }

  lemma {:induction false} ValueAtIsSound(src: Bytes, i: nat)
    requires i < |src|
    ensures Sound(src, i, ValueAt(src, i))
    decreases |src| - i, 2
  {
    if ValueAt(src, i).Accept? {
      if src[i] == QUOTE {
        LiteralIsClean(src, i);
      } else if src[i] == LBRACE {
        MembersAreSound(src, i + 1, false);
      } else if src[i] == LBRACKET {
        ElementsAreSound(src, i + 1, false);
      } else if StartsNumber(src[i]) {
        NumberIsSound(src, i);
      } else {
        KeywordIsClean(src, i);
      }
    }
  }

  lemma {:induction false} ValueIsSound(src: Bytes, i: nat)
    requires i <= |src|
    ensures Sound(src, i, Value(src, i))
    decreases |src| - i, 3
  {
    Skipped(src, i);
    if Value(src, i).Accept? {
      ValueAtIsSound(src, SkipSpace(src, i));
    }
  }

  lemma {:induction false} MembersAreSound(src: Bytes, i: nat, comma: bool)
    requires i <= |src| && Members(src, i, comma).Accept?
    ensures Clean(src, i, Members(src, i, comma).end) && LexicalMembers(Members(src, i, comma).value)
    decreases |src| - i, 5
  {
    var j := SkipSpace(src, i);
    Skipped(src, i);
    if src[j] != RBRACE {
      MembersAtAreSound(src, j, comma);
    }
  }

  lemma {:induction false} MembersAtAreSound(src: Bytes, j: nat, comma: bool)
    requires j < |src| && MembersAt(src, j, comma).Accept?
    ensures Clean(src, j, MembersAt(src, j, comma).end) && LexicalMembers(MembersAt(src, j, comma).value)
    decreases |src| - j, 4
  {
    var k := Separator(src, j, comma).value;
    var name := Literal(src, k);
    var at := AfterColon(src, name.end).value;
    var v := Value(src, at);
    SeparatorIsClean(src, j, comma);
    LiteralIsClean(src, k);
    ColonIsClean(src, name.end);
    ValueIsSound(src, at);
    MembersAreSound(src, v.end, true);
    var rest := Members(src, v.end, true);
    var all := [Member(name.value, v.value)] + rest.value;
    assert all[1..] == rest.value;
  }

  lemma {:induction false} ElementsAreSound(src: Bytes, i: nat, comma: bool)
    requires i <= |src| && Elements(src, i, comma).Accept?
    ensures Clean(src, i, Elements(src, i, comma).end) && LexicalElements(Elements(src, i, comma).value)
    decreases |src| - i, 5
  {
    var j := SkipSpace(src, i);
    Skipped(src, i);
    if src[j] != RBRACKET {
      ElementsAtAreSound(src, j, comma);
    }
  }

  lemma {:induction false} ElementsAtAreSound(src: Bytes, j: nat, comma: bool)
    requires j < |src| && ElementsAt(src, j, comma).Accept?
    ensures Clean(src, j, ElementsAt(src, j, comma).end) && LexicalElements(ElementsAt(src, j, comma).value)
    decreases |src| - j, 4
  {
    var k := Separator(src, j, comma).value;
    var v := Value(src, k);
    SeparatorIsClean(src, j, comma);
    ValueIsSound(src, k);
    ElementsAreSound(src, v.end, true);
    var rest := Elements(src, v.end, true);
    var all := [v.value] + rest.value;
    assert all[1..] == rest.value;
  }

  /** An accepted text holds no NUL byte, and gives a tree whose numbers are lexemes, the lone minus aside. */
  lemma AcceptedText(src: Bytes)
    requires Document(src).Accept?
    ensures 0 !in src && Parseable(Document(src).value)
  {
    ValueIsSound(src, 0);
    Skipped(src, Value(src, 0).end);
  }

  // ---------------------------------------------------------------- a NUL is written as it stands

  lemma {:induction false} EscapedKeepsNul(s: Bytes)
    requires 0 in s
    ensures 0 in Escaped(s)
    decreases |s|
  {
    if s[0] == 0 {
      assert EscapeByte(s[0]) == [0];
      assert Escaped(s)[0] == 0;
    } else {
      EscapedKeepsNul(s[1..]);
    }
  }

  lemma {:induction false} NulIsWritten(l: Layout, j: Json, depth: nat)
    requires !NulFree(j)
    ensures 0 in Write(l, j, depth)
    decreases j
  {
    match j
    case String(s) => EscapedKeepsNul(s);
    case Object(ms) =>
      NulInMembers(l, ms, depth + 1, true);
      BodyKeeps(l, MembersText(l, ms, depth + 1, true), depth);
    case Array(es) =>
      NulInElements(l, es, depth + 1, true);
      BodyKeeps(l, ElementsText(l, es, depth + 1, true), depth);
    case _ =>
  }

  lemma BodyKeeps(l: Layout, items: Bytes, depth: nat)
    requires 0 in items
    ensures 0 in Body(l, items, false, depth)
  {}

  lemma {:induction false} NulInMembers(l: Layout, ms: seq<Member>, depth: nat, first: bool)
    requires !NulFreeMembers(ms)
    ensures 0 in MembersText(l, ms, depth, first)
    decreases ms
  {
    if !NulFreeMember(ms[0]) {
      NulInMember(l, ms[0], depth);
    } else {
      NulInMembers(l, ms[1..], depth, false);
    }
  }

  lemma {:induction false} NulInMember(l: Layout, m: Member, depth: nat)
    requires !NulFreeMember(m)
    ensures 0 in MemberText(l, m, depth)
    decreases m
  {
    if 0 in m.name {
      EscapedKeepsNul(m.name);
    } else {
      NulIsWritten(l, m.value, depth);
    }
  }

  lemma {:induction false} NulInElements(l: Layout, es: seq<Json>, depth: nat, first: bool)
    requires !NulFreeElements(es)
    ensures 0 in ElementsText(l, es, depth, first)
    decreases es
  {
    if !NulFree(es[0]) {
      NulIsWritten(l, es[0], depth);
    } else {
      NulInElements(l, es[1..], depth, false);
    }
  }

  /** The escape \u0000 makes such a tree. */
  lemma NulIsParsed(src: Bytes)
    requires src == [QUOTE, BACKSLASH, LOWER_U, ZERO, ZERO, ZERO, ZERO, QUOTE]
    ensures Document(src).Accept? && Document(src).value == String([0])
  {
    var p := PieceAt(src, 1).value;
    assert p == Unit(0);
    var ps := [p];
    assert ps[..0] == [];
    assert Text(ps) == Text(ps[..0]) + p.Text() == [0];
    assert Lex(src, 7) == Good(8, []);
    assert Lex(src, 1) == Good(8, ps);
    assert StringAt(src, 0).value == String([0]);
    assert Value(src, 0) == ValueAt(src, 0);
  }
}
