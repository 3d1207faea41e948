/** What the grammar and the writers do with each byte, in the letters of the texts themselves. */
module JsonCodes {
  import opened Options
  import opened JsonText
  import opened JsonPieces
  import opened JsonNumber
  import opened JsonGrammar
  import opened JsonWriter

  /** The bytes of a text in ASCII. */
  function Ascii(s: string): (r: Bytes)
    requires forall i :: 0 <= i < |s| ==> s[i] < 128 as char
    ensures |r| == |s|
  {
    seq(|s|, i requires 0 <= i < |s| => s[i] as byte)
  }

  /** The words, and the bytes that open, close and part. */
  lemma Letters()
    ensures TRUE_TEXT == Ascii("true") && FALSE_TEXT == Ascii("false") && NULL_TEXT == Ascii("null")
    ensures [LBRACE, RBRACE, LBRACKET, RBRACKET, COLON, COMMA, QUOTE, BACKSLASH, SLASH] == Ascii("{}[]:,\"\\/")
    ensures [MINUS, PLUS, DOT, ZERO, NINE, LOWER_E, UPPER_E, LOWER_U] == Ascii("-+.09eEu")
    ensures [SPACE, TAB, LF, CR] == Ascii(" \t\n\r")
  {}

  lemma {:induction false} TrueAt(src: Bytes, j: nat)
    requires j + 4 <= |src| && src[j] == 116 && src[j + 1] == 114 && src[j + 2] == 117 && src[j + 3] == 101
    ensures ValueAt(src, j) == Accept(j + 4, True, 16, 0, 0)
  {}

  lemma {:induction false} FalseAt(src: Bytes, j: nat)
    requires j + 5 <= |src| && src[j] == 102 && src[j + 1] == 97 && src[j + 2] == 108 && src[j + 3] == 115
    requires src[j + 4] == 101
    ensures ValueAt(src, j) == Accept(j + 5, False, 16, 0, 0)
  {
    assert src[j + 0] != TRUE_TEXT[0];
  }

  lemma {:induction false} NullAt(src: Bytes, j: nat)
    requires j + 4 <= |src| && src[j] == 110 && src[j + 1] == 117 && src[j + 2] == 108 && src[j + 3] == 108
    ensures ValueAt(src, j) == Accept(j + 4, Null, 16, 0, 0)
  {
    assert src[j + 0] != TRUE_TEXT[0] && src[j + 0] != FALSE_TEXT[0];
  }

  /** The first byte decides; any other byte starts no value. */
  lemma {:induction false} Dispatch(src: Bytes, j: nat)
    requires j < |src|
    ensures src[j] == 34 ==> ValueAt(src, j) == StringAt(src, j)
    ensures src[j] == 123 ==> ValueAt(src, j) == ObjectAt(src, j)
    ensures src[j] == 91 ==> ValueAt(src, j) == ArrayAt(src, j)
    ensures src[j] == 45 || 48 <= src[j] <= 57 ==> ValueAt(src, j) == NumberAt(src, j)
    ensures src[j] !in [34, 123, 91, 45, 116, 102, 110] && !(48 <= src[j] <= 57) ==> ValueAt(src, j) == Reject
  {
    var b := src[j];
    assert Occurs(src, j, TRUE_TEXT) ==> src[j + 0] == TRUE_TEXT[0];
    assert Occurs(src, j, FALSE_TEXT) ==> src[j + 0] == FALSE_TEXT[0];
    assert Occurs(src, j, NULL_TEXT) ==> src[j + 0] == NULL_TEXT[0];
  }

  lemma WhitespaceTable(b: byte)
    ensures IsWhitespace(b) <==> b in [9, 10, 13, 32]
  {}

  /** What may follow a number. */
  lemma DelimiterTable(b: byte)
    ensures IsDelimiter(b) <==> b in [9, 10, 13, 32, 44, 93, 125]
  {}

  /** The bytes that the structures take on a machine of 64 bits. */
  lemma StructureSizes()
    ensures [VALUE_SIZE, STRING_SIZE, NUMBER_SIZE, OBJECT_SIZE, ARRAY_SIZE, ELEMENT_SIZE] == [16, 16, 16, 16, 16, 16]
    ensures MEMBER_SIZE == 24
  {}

  /** The letters that a backslash may precede, \u aside, and what they mean. */
  const ESCAPE_LETTERS: Bytes := [34, 47, 92, 98, 102, 110, 114, 116]
  const ESCAPE_MEANINGS: Bytes := [34, 47, 92, 8, 12, 10, 13, 9]

  lemma EscapesRead(c: byte, k: nat)
    requires k < 8
    ensures c == ESCAPE_LETTERS[k] ==> Unescape(c) == Some(ESCAPE_MEANINGS[k])
    ensures c !in ESCAPE_LETTERS ==> Unescape(c) == None
  {}

  /** All but the slash are also written so, and every other byte as it stands. */
  lemma EscapesWritten(b: byte, k: nat)
    requires k < 8
    ensures b == ESCAPE_MEANINGS[k] && k != 1 ==> EscapeByte(b) == [92, ESCAPE_LETTERS[k]]
    ensures b !in ESCAPE_MEANINGS || b == 47 ==> EscapeByte(b) == [b]
  {}

  /** A byte stands for itself unless it ends the literal, starts an escape or is one of four controls. */
  lemma RawBytes(src: Bytes, i: nat)
    requires i < |src| && src[i] != 34
    ensures PieceAt(src, i) == Some(Raw(src[i])) <==> src[i] !in [0, 9, 10, 13, 92]
    ensures src[i] in [0, 9, 10, 13] ==> PieceAt(src, i) == None
  {}

  // ---------------------------------------------------------------- where brackets, blanks and separators go

  /** The two layouts, and the indents they repeat. */
  lemma {:induction false} Layouts(indent: Bytes, newline: Bytes, l: Layout, n: nat)
    ensures MINIFIED == Layout([], [], [58]) && Pretty(indent, newline) == Layout(newline, indent, [32, 58, 32])
    ensures Pad(l, 0) == [] && Pad(l, n + 1) == l.indent + Pad(l, n)
  {}

  lemma {:induction false} TwoElements(l: Layout, es: seq<Json>, depth: nat)
    requires |es| == 2
    ensures ElementsText(l, es, depth, true)
         == (Pad(l, depth) + Write(l, es[0], depth)) + ([44] + l.newline + (Pad(l, depth) + Write(l, es[1], depth)))
  {
    var rest := es[1..];
    assert rest[1..] == [];
    assert ElementsText(l, rest, depth, false) == [44] + l.newline + (Pad(l, depth) + Write(l, es[1], depth)) + [];
  }

  lemma {:induction false} TwoMembers(l: Layout, ms: seq<Member>, depth: nat)
    requires |ms| == 2
    ensures MembersText(l, ms, depth, true)
         == (Pad(l, depth) + MemberText(l, ms[0], depth))
            + ([44] + l.newline + (Pad(l, depth) + MemberText(l, ms[1], depth)))
  {
    var rest := ms[1..];
    assert rest[1..] == [];
    assert MembersText(l, rest, depth, false) == [44] + l.newline + (Pad(l, depth) + MemberText(l, ms[1], depth)) + [];
  }

  lemma {:induction false} InBrackets(open: byte, newline: Bytes, a: Bytes, b: Bytes, pad: Bytes, close: byte)
    ensures [open] + (newline + (a + ([44] + newline + b)) + newline + pad) + [close]
         == [open] + newline + a + [44] + newline + b + newline + pad + [close]
  {}

  /** Two elements in any layout at any depth: each on its own line behind one indent more, with a comma
      between them. */
  lemma {:induction false} ArrayLayout(l: Layout, es: seq<Json>, depth: nat)
    requires |es| == 2
    ensures ArrayText(l, es, depth)
         == [91] + l.newline + (Pad(l, depth + 1) + Write(l, es[0], depth + 1)) + [44]
            + l.newline + (Pad(l, depth + 1) + Write(l, es[1], depth + 1)) + l.newline + Pad(l, depth) + [93]
  {
    TwoElements(l, es, depth + 1);
    InBrackets(91, l.newline, Pad(l, depth + 1) + Write(l, es[0], depth + 1),
               Pad(l, depth + 1) + Write(l, es[1], depth + 1), Pad(l, depth), 93);
  }

  lemma {:induction false} ObjectLayout(l: Layout, ms: seq<Member>, depth: nat)
    requires |ms| == 2
    ensures ObjectText(l, ms, depth)
         == [123] + l.newline + (Pad(l, depth + 1) + MemberText(l, ms[0], depth + 1)) + [44]
            + l.newline + (Pad(l, depth + 1) + MemberText(l, ms[1], depth + 1)) + l.newline + Pad(l, depth) + [125]
  {
    TwoMembers(l, ms, depth + 1);
    InBrackets(123, l.newline, Pad(l, depth + 1) + MemberText(l, ms[0], depth + 1),
               Pad(l, depth + 1) + MemberText(l, ms[1], depth + 1), Pad(l, depth), 125);
  }

  /** One element or one member stands on a line of its own, without a comma. */
  lemma {:induction false} SingleLayout(l: Layout, e: Json, m: Member, depth: nat)
    ensures ArrayText(l, [e], depth)
         == [91] + (l.newline + (Pad(l, depth + 1) + Write(l, e, depth + 1)) + l.newline + Pad(l, depth)) + [93]
    ensures ObjectText(l, [m], depth)
         == [123] + (l.newline + (Pad(l, depth + 1) + MemberText(l, m, depth + 1)) + l.newline + Pad(l, depth)) + [125]
  {
    assert [e][1..] == [] && [m][1..] == [];
    assert ElementsText(l, [e], depth + 1, true) == Pad(l, depth + 1) + Write(l, e, depth + 1);
    assert MembersText(l, [m], depth + 1, true) == Pad(l, depth + 1) + MemberText(l, m, depth + 1);
  }

  /** A member: the quoted name, the colon of the layout, the value; and what is written for empty lists. */
  lemma {:induction false} MemberLayout(l: Layout, m: Member, depth: nat)
    ensures MemberText(l, m, depth) == [34] + Escaped(m.name) + [34] + l.colon + Write(l, m.value, depth)
    ensures ArrayText(l, [], depth) == [91, 93] && ObjectText(l, [], depth) == [123, 125]
  {}

  /** Lists of trees are written by these. */
  lemma ListsAreWritten(l: Layout, es: seq<Json>, ms: seq<Member>, depth: nat)
    ensures Write(l, Array(es), depth) == ArrayText(l, es, depth)
    ensures Write(l, Object(ms), depth) == ObjectText(l, ms, depth)
    ensures Write(l, True, depth) == Ascii("true") && Write(l, False, depth) == Ascii("false")
    ensures Write(l, Null, depth) == Ascii("null")
  {}
}
