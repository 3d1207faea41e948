/** The text json_write_minified and json_write_pretty produce, for a tree. */
module JsonWriter {
  import opened JsonText
  import opened JsonLexeme
  import opened JsonNumber
  import opened JsonGrammar

  /** What goes between the parts of a text: after brackets and commas, before items, and between a
      name and its value. */
  datatype Layout = Layout(newline: Bytes, indent: Bytes, colon: Bytes)

  const MINIFIED: Layout := Layout([], [], [COLON])

  function Pretty(indent: Bytes, newline: Bytes): Layout {
    Layout(newline, indent, [SPACE, COLON, SPACE])
  }

  /** `n` indents. */
  function Pad(l: Layout, n: nat): (s: Bytes)
    ensures |s| == n * |l.indent|
  {
    if n == 0 then [] else
    var s := l.indent + Pad(l, n - 1);
    assert |l.indent| + (n - 1) * |l.indent| == n * |l.indent|;
    s
  }

  function EscapeByte(b: byte): (s: Bytes)
    ensures 1 <= |s| <= 2
  {
    if b == QUOTE || b == BACKSLASH then [BACKSLASH, b]
    else if b == 8 then [BACKSLASH, 98]
    else if b == 12 then [BACKSLASH, 102]
    else if b == LF then [BACKSLASH, 110]
    else if b == CR then [BACKSLASH, 114]
    else if b == TAB then [BACKSLASH, 116]
    else [b]
  }

  function Escaped(s: Bytes): Bytes {
    if s == [] then [] else EscapeByte(s[0]) + Escaped(s[1..])
  }

  function Quoted(s: Bytes): Bytes {
    [QUOTE] + Escaped(s) + [QUOTE]
  }

  // ---------------------------------------------------------------- numbers

  function SignLength(n: Bytes): nat {
    if |n| > 0 && IsPlusMinus(n[0]) then 1 else 0
  }

  /** A number a parse without hexadecimal, infinity and not-a-number extensions can leave in a tree. */
  predicate IsPlain(n: Bytes) {
    && (|n| >= 2 ==> n[1] != 120 && n[1] != 88)
    && (SignLength(n) < |n| ==> n[SignLength(n)] != 73 && n[SignLength(n)] != 78)
  }

  predicate LeadingPoint(n: Bytes) {
    SignLength(n) < |n| && n[SignLength(n)] == DOT
  }

  predicate TrailingPoint(n: Bytes) {
    var i := SkipDigits(n, SignLength(n));
    i + 1 == |n| && n[i] == DOT
  }

  function WithoutPlus(n: Bytes): Bytes {
    if |n| > 0 && n[0] == PLUS then n[1..] else n
  }

  /** json_write_number: a point gets a zero where it has no digit, and a plus sign is dropped. */
  function NumberText(n: Bytes): Bytes {
    if LeadingPoint(n) then (if n[0] == MINUS then [MINUS] else []) + [ZERO] + n[SignLength(n)..]
    else if TrailingPoint(n) then WithoutPlus(n) + [ZERO]
    else WithoutPlus(n)
  }

  /** A number of the grammar is written as it stands. */
  lemma LexemeText(n: Bytes)
    requires IsLexeme(n)
    ensures IsPlain(n) && NumberText(n) == n && n != []
  {
    var a: nat, b: nat, c: nat :| Parts(n, a, b, c);
    assert n[a..b][0] == n[a];
    LexemeBytes(n, a, b, c);
    assert n[0] == MINUS || IsDigit(n[0]) by {
      if a == 1 { assert n[..a][0] == n[0]; } else { assert |n[..a]| == a; }
    }
    assert n[|n| - 1] != DOT && IsDigit(n[a]);
    assert SignLength(n) == a by {
      if a == 1 { assert n[..a][0] == n[0]; } else { assert |n[..a]| == a; }
    }
  }

  /** Every byte of a lexeme is a number byte, and the last one is a digit. */
  lemma LexemeBytes(n: Bytes, a: nat, b: nat, c: nat)
    requires Parts(n, a, b, c)
    ensures forall k :: 0 <= k < |n| ==> IsNumberByte(n[k])
    ensures |n| > 0 && IsDigit(n[|n| - 1])
  {
    forall k | 0 <= k < |n|
      ensures IsNumberByte(n[k])
    {
      if k < a {
        assert n[k] == n[..a][k];
      } else if k < b {
        assert n[k] == n[a..b][k - a];
      } else if k < c {
        assert n[k] == n[b..c][k - b];
        if k > b { assert n[k] == n[b..c][1..][k - b - 1]; }
      } else {
        assert n[k] == n[c..][k - c];
        if k > c { assert n[k] == n[c..][1..][k - c - 1]; }
        if k > c + 1 { assert n[k] == n[c..][2..][k - c - 2]; }
      }
    }
    assert |n[a..b]| > 0;
    if c < |n| {
      assert n[|n| - 1] == n[c..][|n[c..]| - 1];
      if IsDigit(n[c..][1]) {
        assert n[|n| - 1] == n[c..][1..][|n[c..]| - 2];
      } else {
        assert n[|n| - 1] == n[c..][2..][|n[c..]| - 3];
      }
    } else if b < c {
      assert n[|n| - 1] == n[b..c][1..][|n[b..c]| - 2];
    } else {
      assert n[|n| - 1] == n[a..b][|n[a..b]| - 1];
    }
  }

  // ---------------------------------------------------------------- trees

  /** The text of a tree whose value starts at the given depth. */
  function Write(l: Layout, j: Json, depth: nat): Bytes
    decreases j
  {
    match j
    case String(s) => Quoted(s)
    case Number(n) => NumberText(n)
    case Object(ms) => ObjectText(l, ms, depth)
    case Array(es) => ArrayText(l, es, depth)
    case True => TRUE_TEXT
    case False => FALSE_TEXT
    case Null => NULL_TEXT
  }

  function ObjectText(l: Layout, ms: seq<Member>, depth: nat): Bytes
    decreases ms, 1
  {
    [LBRACE] + Body(l, MembersText(l, ms, depth + 1, true), ms == [], depth) + [RBRACE]
  }

  function ArrayText(l: Layout, es: seq<Json>, depth: nat): Bytes
    decreases es, 1
  {
    [LBRACKET] + Body(l, ElementsText(l, es, depth + 1, true), es == [], depth) + [RBRACKET]
  }

  /** What stands between the brackets: nothing at all in an empty list. */
  function Body(l: Layout, items: Bytes, empty: bool, depth: nat): Bytes {
    if empty then [] else l.newline + items + l.newline + Pad(l, depth)
  }

  function Between(l: Layout, first: bool): Bytes {
    if first then [] else [COMMA] + l.newline
  }

  function MembersText(l: Layout, ms: seq<Member>, depth: nat, first: bool): Bytes
    decreases ms, 0
  {
    if ms == [] then []
    else Between(l, first) + (Pad(l, depth) + MemberText(l, ms[0], depth)) + MembersText(l, ms[1..], depth, false)
  }

  function MemberText(l: Layout, m: Member, depth: nat): Bytes
    decreases m
  {
    Quoted(m.name) + l.colon + Write(l, m.value, depth)
  }

  function ElementsText(l: Layout, es: seq<Json>, depth: nat, first: bool): Bytes
    decreases es, 0
  {
    if es == [] then []
    else Between(l, first) + (Pad(l, depth) + Write(l, es[0], depth)) + ElementsText(l, es[1..], depth, false)
  }
}
