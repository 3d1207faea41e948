/** What json_parse accepts under its default flags, what tree each text stands for, and how much
    memory the tree takes. */
module JsonGrammar {
  import opened Options
  import opened JsonText
  import opened JsonPieces
  import opened JsonNumber

  datatype Json =
    | String(text: Bytes)
    | Number(lexeme: Bytes)
    | Object(members: seq<Member>)
    | Array(elements: seq<Json>)
    | True
    | False
    | Null

  datatype Member = Member(name: Bytes, value: Json)

  /** The sizes of the structures that make up a tree, on a machine with 64-bit pointers. */
  const VALUE_SIZE: nat := 16
  const STRING_SIZE: nat := 16
  const NUMBER_SIZE: nat := 16
  const OBJECT_SIZE: nat := 16
  const MEMBER_SIZE: nat := 24
  const ARRAY_SIZE: nat := 16
  const ELEMENT_SIZE: nat := 16

  /** An accepted part of the text: where it ends, what it stands for, the bytes of structure it
      takes, the bytes of string and number data counted for it, and the surrogate pairs in it. */
  datatype Parsed<T> = Reject | Accept(end: nat, value: T, dom: nat, data: nat, pairs: nat)

  /** A string literal at offset `i`. */
  ghost function Literal(src: Bytes, i: nat): (r: Parsed<Bytes>)
    ensures r.Accept? ==> i < r.end <= |src| && r.data == |r.value| + r.pairs + 1
  {
    if i >= |src| || src[i] != QUOTE || Lex(src, i + 1).Bad? then Reject else
    var lexed := Lex(src, i + 1);
    var text := Text(lexed.pieces);
    Accept(lexed.end, text, STRING_SIZE, |text| + Pairs(lexed.pieces) + 1, Pairs(lexed.pieces))
  }

  predicate StartsNumber(b: byte) {
    b == MINUS || IsDigit(b)
  }

  ghost function StringAt(src: Bytes, j: nat): (r: Parsed<Json>)
    ensures r.Accept? ==> j < r.end <= |src| && r.pairs <= r.data && r.dom >= VALUE_SIZE
  {
    var s := Literal(src, j);
    if s.Reject? then Reject else Accept(s.end, String(s.value), VALUE_SIZE + s.dom, s.data, s.pairs)
  }

  ghost function NumberAt(src: Bytes, j: nat): (r: Parsed<Json>)
    requires j < |src| && StartsNumber(src[j])
    ensures r.Accept? ==> j < r.end <= |src| && r.pairs <= r.data && r.dom >= VALUE_SIZE
  {
    var n := NumberEnd(src, j);
    if n.None? then Reject else
    NumberAdvances(src, j);
    Accept(n.value, Number(src[j..n.value]), VALUE_SIZE + NUMBER_SIZE, n.value - j + 1, 0)
  }

  ghost function KeywordAt(src: Bytes, j: nat): (r: Parsed<Json>)
    ensures r.Accept? ==> j < r.end <= |src| && r.pairs <= r.data && r.dom >= VALUE_SIZE
  {
    if Occurs(src, j, TRUE_TEXT) then Accept(j + 4, True, VALUE_SIZE, 0, 0)
    else if Occurs(src, j, FALSE_TEXT) then Accept(j + 5, False, VALUE_SIZE, 0, 0)
    else if Occurs(src, j, NULL_TEXT) then Accept(j + 4, Null, VALUE_SIZE, 0, 0)
    else Reject
  }

  ghost function ObjectAt(src: Bytes, j: nat): (r: Parsed<Json>)
    requires j < |src|
    ensures r.Accept? ==> j < r.end <= |src| && r.pairs <= r.data && r.dom >= VALUE_SIZE
    decreases |src| - j, 1
  {
    var m := Members(src, j + 1, false);
    if m.Reject? then Reject else Accept(m.end, Object(m.value), VALUE_SIZE + OBJECT_SIZE + m.dom, m.data, m.pairs)
  }

  ghost function ArrayAt(src: Bytes, j: nat): (r: Parsed<Json>)
    requires j < |src|
    ensures r.Accept? ==> j < r.end <= |src| && r.pairs <= r.data && r.dom >= VALUE_SIZE
    decreases |src| - j, 1
  {
    var e := Elements(src, j + 1, false);
    if e.Reject? then Reject else Accept(e.end, Array(e.value), VALUE_SIZE + ARRAY_SIZE + e.dom, e.data, e.pairs)
  }

  /** A value starting at offset `j`; its first byte tells which kind it is. */
  ghost function ValueAt(src: Bytes, j: nat): (r: Parsed<Json>)
    requires j < |src|
    ensures r.Accept? ==> j < r.end <= |src| && r.pairs <= r.data && r.dom >= VALUE_SIZE
    decreases |src| - j, 2
  {
    if src[j] == QUOTE then StringAt(src, j)
    else if src[j] == LBRACE then ObjectAt(src, j)
    else if src[j] == LBRACKET then ArrayAt(src, j)
    else if StartsNumber(src[j]) then NumberAt(src, j)
    else KeywordAt(src, j)
  }

  /** A value at offset `i`, possibly after whitespace. */
  ghost function Value(src: Bytes, i: nat): (r: Parsed<Json>)
    requires i <= |src|
    ensures r.Accept? ==> i < r.end <= |src| && r.pairs <= r.data && r.dom >= VALUE_SIZE
    decreases |src| - i, 3
  {
    var j := SkipSpace(src, i);
    if j == |src| then Reject else ValueAt(src, j)
  }

  lemma NumberAdvances(src: Bytes, j: nat)
    requires j < |src| && StartsNumber(src[j]) && NumberEnd(src, j).Some?
    ensures j < NumberEnd(src, j).value
  {
    NumberBytes(src, j);
  }

  /** Past an optional separator: a comma is required after the first item, and something must follow. */
  function Separator(src: Bytes, i: nat, comma: bool): (r: Option<nat>)
    requires i < |src|
    ensures r.Some? ==> i <= r.value < |src|
  {
    if !comma then Some(i)
    else if src[i] != COMMA then None
    else
      var j := SkipSpace(src, i + 1);
      if j == |src| then None else Some(j)
  }

  /** Past the colon that follows a member's name. */
  function AfterColon(src: Bytes, i: nat): (r: Option<nat>)
    requires i <= |src|
    ensures r.Some? ==> i < r.value < |src|
  {
    var j := SkipSpace(src, i);
    if j == |src| || src[j] != COLON then None else
    var k := SkipSpace(src, j + 1);
    if k == |src| then None else Some(k)
  }

  /** The rest of an object from offset `i`, up to and including the closing brace. */
  ghost function Members(src: Bytes, i: nat, comma: bool): (r: Parsed<seq<Member>>)
    requires i <= |src|
    ensures r.Accept? ==> i < r.end <= |src| && r.pairs <= r.data
    decreases |src| - i, 5
  {
    var j := SkipSpace(src, i);
    if j == |src| then Reject
    else if src[j] == RBRACE then Accept(j + 1, [], 0, 0, 0)
    else MembersAt(src, j, comma)
  }

  /** One more member, after its separator, and the rest of the object. */
  ghost function MembersAt(src: Bytes, j: nat, comma: bool): (r: Parsed<seq<Member>>)
    requires j < |src|
    ensures r.Accept? ==> j < r.end <= |src| && r.pairs <= r.data
    decreases |src| - j, 4
  {
    var k := Separator(src, j, comma);
    if k.None? then Reject else
    var name := Literal(src, k.value);
    if name.Reject? then Reject else
    var at := AfterColon(src, name.end);
    if at.None? then Reject else
    var v := Value(src, at.value);
    if v.Reject? then Reject else
    var rest := Members(src, v.end, true);
    if rest.Reject? then Reject else
    Accept(rest.end, [Member(name.value, v.value)] + rest.value,
           MEMBER_SIZE + name.dom + v.dom + rest.dom, name.data + v.data + rest.data, name.pairs + v.pairs + rest.pairs)
  }

  /** The rest of an array from offset `i`, up to and including the closing bracket. */
  ghost function Elements(src: Bytes, i: nat, comma: bool): (r: Parsed<seq<Json>>)
    requires i <= |src|
    ensures r.Accept? ==> i < r.end <= |src| && r.pairs <= r.data
    decreases |src| - i, 5
  {
    var j := SkipSpace(src, i);
    if j == |src| then Reject
    else if src[j] == RBRACKET then Accept(j + 1, [], 0, 0, 0)
    else ElementsAt(src, j, comma)
  }

  /** One more element, after its separator, and the rest of the array. */
  ghost function ElementsAt(src: Bytes, j: nat, comma: bool): (r: Parsed<seq<Json>>)
    requires j < |src|
    ensures r.Accept? ==> j < r.end <= |src| && r.pairs <= r.data
    decreases |src| - j, 4
  {
    var k := Separator(src, j, comma);
    if k.None? then Reject else
    var v := Value(src, k.value);
    if v.Reject? then Reject else
    var rest := Elements(src, v.end, true);
    if rest.Reject? then Reject else
    Accept(rest.end, [v.value] + rest.value, ELEMENT_SIZE + v.dom + rest.dom, v.data + rest.data, v.pairs + rest.pairs)
  }

  /** A whole text: one value and nothing else but whitespace. */
  ghost function Document(src: Bytes): (r: Parsed<Json>) {
    var v := Value(src, 0);
    if v.Reject? || SkipSpace(src, v.end) != |src| then Reject else v
  }
}
