/** Writing a tree with either writer and parsing the result with both passes of the parser. */
module JsonCycle {
  import opened JsonText
  import opened JsonGrammar
  import opened JsonTree
  import opened JsonWriter
  import opened JsonPrinter
  import opened JsonNul
  import opened JsonReads
  import opened JsonRoundTrip
  import JsonParse

  lemma {:induction false} LexicalIsPlain(j: Json)
    requires Lexical(j)
    ensures Plain(j)
    decreases j
  {
    match j
    case Number(n) => LexemeText(n);
    case Object(ms) => LexicalMembersArePlain(ms);
    case Array(es) => LexicalElementsArePlain(es);
    case _ =>
  }

  lemma {:induction false} LexicalMembersArePlain(ms: seq<Member>)
    requires LexicalMembers(ms)
    ensures PlainMembers(ms)
    decreases ms
  {
    if ms != [] {
      LexicalMemberIsPlain(ms[0]);
      LexicalMembersArePlain(ms[1..]);
    }
  }

  lemma {:induction false} LexicalMemberIsPlain(m: Member)
    requires LexicalMember(m)
    ensures PlainMember(m)
    decreases m
  {
    LexicalIsPlain(m.value);
  }

  lemma {:induction false} LexicalElementsArePlain(es: seq<Json>)
    requires LexicalElements(es)
    ensures PlainElements(es)
    decreases es
  {
    if es != [] {
      LexicalIsPlain(es[0]);
      LexicalElementsArePlain(es[1..]);
    }
  }

  lemma ParseableIsPlain(j: Json)
    requires Parseable(j)
    ensures Plain(j)
  {
    if Lexical(j) {
      LexicalIsPlain(j);
    }
  }

  /** The minified text, without its NUL, parses exactly when no string and no name holds a NUL, and
      then to a tree in memory that stands for the same value. */
  method MinifyAndParse(j: Json) returns (r: JsonParse.Outcome)
    requires Parseable(j)
    ensures r.Parsed? <==> NulFree(j)
    ensures r.Parsed? ==> Load(r.memory, r.root) == j
  {
    ParseableIsPlain(j);
    var text, size := Minified(j);
    MinifiedRoundTrip(j);
    assert text[..size - 1] == Write(MINIFIED, j, 0);
    r := JsonParse.Parse(text[..size - 1], true);
  }

  /** So does the pretty text, for every whitespace-only indent and newline. */
  method PrettyPrintAndParse(j: Json, indent: Bytes, newline: Bytes) returns (r: JsonParse.Outcome)
    requires Parseable(j) && Blank(indent) && Blank(newline)
    ensures r.Parsed? <==> NulFree(j)
    ensures r.Parsed? ==> Load(r.memory, r.root) == j
  {
    ParseableIsPlain(j);
    var text, size := PrettyPrinted(j, indent, newline);
    PrettyRoundTrip(j, indent, newline);
    assert text[..size - 1] == Write(Pretty(indent, newline), j, 0);
    r := JsonParse.Parse(text[..size - 1], true);
  }

  /** Any accepted text, minified and parsed again. */
  method ParseMinifyParse(src: Bytes) returns (first: JsonParse.Outcome, again: JsonParse.Outcome)
    ensures first.Parsed? <==> Document(src).Accept?
    ensures first.Parsed? ==>
      var j := Load(first.memory, first.root);
      (again.Parsed? <==> NulFree(j)) && (again.Parsed? ==> Load(again.memory, again.root) == j)
  {
    first := JsonParse.Parse(src, true);
    again := JsonParse.Failed;
    if first.Parsed? {
      AcceptedText(src);
      again := MinifyAndParse(Load(first.memory, first.root));
    }
  }
}
