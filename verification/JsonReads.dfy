/** Layouts that a reader skips, and what it means that the grammar reads something at an offset. */
module JsonReads {
  import opened JsonText
  import opened JsonPieces
  import opened JsonNumber
  import opened JsonGrammar
  import opened JsonWriter

  /** `w` stands in `src` at offset `i`. */
  ghost predicate Holds(src: Bytes, i: nat, w: Bytes) {
    Occurs(src, i, w)
  }

  ghost predicate Blank(s: Bytes) {
    forall b <- s :: IsWhitespace(b)
  }

  /** Only whitespace surrounds the parts of the text, and a colon in whitespace separates a name
      from its value. */
  ghost predicate Airy(l: Layout) {
    && Blank(l.newline) && Blank(l.indent)
    && exists a, b :: ColonBetween(l, a, b)
  }

  ghost predicate ColonBetween(l: Layout, a: Bytes, b: Bytes) {
    Blank(a) && Blank(b) && l.colon == a + [COLON] + b
  }

  /** The text ends at `i`, or goes on with a byte that may follow a value. */
  predicate Ends(src: Bytes, i: nat) {
    i == |src| || (i < |src| && IsDelimiter(src[i]))
  }

  /** A byte that can start a value: no blank, no comma and no closing byte. */
  predicate StartsValue(b: byte) {
    !IsWhitespace(b) && b != COMMA && b != RBRACE && b != RBRACKET && b != COLON
  }

  /** What follows the items of a list: blanks, and the closing byte. */
  ghost predicate Closes(tail: Bytes, close: byte) {
    |tail| > 0 && tail[|tail| - 1] == close && Blank(tail[..|tail| - 1])
  }

  /** From offset `i` on, the inside of a literal stands for `s`, and its closing quote is just before `end`. */
  ghost predicate LexesTo(src: Bytes, i: nat, s: Bytes, end: nat) {
    var r := Lex(src, i);
    r.Good? && r.end == end && Text(r.pieces) == s && Pairs(r.pieces) == 0
  }

  /** The grammar reads the string `s` in a literal that ends at `end`. */
  ghost predicate ReadsString(src: Bytes, i: nat, s: Bytes, end: nat) {
    var r := Literal(src, i);
    r.Accept? && r.end == end && r.value == s && r.pairs == 0
  }

  /** The grammar reads `j` from offset `i` to `end`. */
  ghost predicate ReadsBack(src: Bytes, i: nat, j: Json, end: nat) {
    && i <= |src|
    && var r := Value(src, i);
    r.Accept? && r.end == end && r.value == j && r.pairs == 0
  }

  /** The same of a value that starts right at `i`. */
  ghost predicate ReadsHere(src: Bytes, i: nat, j: Json, end: nat) {
    && i < |src|
    && var r := ValueAt(src, i);
    r.Accept? && r.end == end && r.value == j && r.pairs == 0
  }

  /** The grammar reads the elements `es`, or the members `ms`, at offset `i`, and then the closing
      byte just before `end`. */
  ghost predicate ReadsElements(src: Bytes, i: nat, comma: bool, es: seq<Json>, end: nat) {
    && i <= |src|
    && var r := Elements(src, i, comma);
    r.Accept? && r.end == end && r.value == es && r.pairs == 0
  }

  ghost predicate ReadsMembers(src: Bytes, i: nat, comma: bool, ms: seq<Member>, end: nat) {
    && i <= |src|
    && var r := Members(src, i, comma);
    r.Accept? && r.end == end && r.value == ms && r.pairs == 0
  }

  /** The grammar reads a name, a colon and a value at offset `at`, up to `end`. */
  ghost predicate ReadsMember(src: Bytes, at: nat, m: Member, end: nat) {
    var name := Literal(src, at);
    && name.Accept? && name.value == m.name && name.pairs == 0
    && AfterColon(src, name.end).Some?
    && var v := Value(src, AfterColon(src, name.end).value);
    v.Accept? && v.end == end && v.value == m.value && v.pairs == 0
  }
}
