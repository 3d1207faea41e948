/** The writers themselves: a pass that measures the text, and a pass that writes it into a buffer of
    exactly that size. */
module JsonPrinter {
  import opened JsonText
  import opened JsonString
  import opened JsonNumber
  import opened JsonGrammar
  import opened JsonWriter

  /** The numbers in a tree are ones the default flags can leave there. */
  ghost predicate Plain(j: Json)
    decreases j
  {
    match j
    case Number(n) => IsPlain(n)
    case Object(ms) => PlainMembers(ms)
    case Array(es) => PlainElements(es)
    case _ => true
  }

  ghost predicate PlainMembers(ms: seq<Member>)
    decreases ms
  {
    ms != [] ==> PlainMember(ms[0]) && PlainMembers(ms[1..])
  }

  ghost predicate PlainMember(m: Member)
    decreases m
  {
    Plain(m.value)
  }

  ghost predicate PlainElements(es: seq<Json>)
    decreases es
  {
    es != [] ==> Plain(es[0]) && PlainElements(es[1..])
  }

  lemma {:induction false} PlainAt(es: seq<Json>, k: nat)
    requires PlainElements(es) && k < |es|
    ensures Plain(es[k])
  {
    if k > 0 {
      PlainAt(es[1..], k - 1);
    }
  }

  lemma {:induction false} PlainMemberAt(ms: seq<Member>, k: nat)
    requires PlainMembers(ms) && k < |ms|
    ensures PlainMember(ms[k])
  {
    if k > 0 {
      PlainMemberAt(ms[1..], k - 1);
    }
  }

  // ---------------------------------------------------------------- measuring

  /** json_write_get_string_size. */
  method StringTextSize(s: Bytes, size0: nat) returns (size: nat)
    ensures size == size0 + |Quoted(s)|
  {
    size := size0;
    for i := 0 to |s|
      invariant size + |Escaped(s[i..])| == size0 + |Escaped(s)|
    {
      assert s[i..][1..] == s[i + 1..];
      if s[i] == QUOTE || s[i] == BACKSLASH || s[i] == 8 || s[i] == 12 || s[i] == LF || s[i] == CR || s[i] == TAB {
        size := size + 2;
      } else {
        size := size + 1;
      }
    }
    size := size + 2;
  }

  /** json_write_get_number_size, for numbers without extensions. */
  method NumberTextSize(n: Bytes, size0: nat) returns (size: nat)
    requires IsPlain(n)
    ensures size == size0 + |NumberText(n)|
  {
    size := size0;
    var i := 0;
    if i < |n| && (PLUS == n[i] || MINUS == n[i]) {
      i := i + 1;
    }
    if i < |n| && DOT == n[i] {
      size := size + 1;
    } else {
      i := DigitsFrom(n, i);
      if i + 1 == |n| && DOT == n[i] {
        size := size + 1;
      }
    }
    size := size + |n|;
    if |n| > 0 && PLUS == n[0] {
      size := size - 1;
    }
  }

  /** What the measuring loops add up: every item with its indent and a newline. */
  ghost function ElementsSum(l: Layout, es: seq<Json>, depth: nat): nat
    decreases |es|
  {
    if es == [] then 0
    else |Pad(l, depth)| + |Write(l, es[0], depth)| + |l.newline| + ElementsSum(l, es[1..], depth)
  }

  ghost function MembersSum(l: Layout, ms: seq<Member>, depth: nat): nat
    decreases |ms|
  {
    if ms == [] then 0
    else |Pad(l, depth)| + |MemberText(l, ms[0], depth)| + |l.newline| + MembersSum(l, ms[1..], depth)
  }

  /** The sum and the commas make up the text, which has one newline less in front. */
  lemma {:induction false} ElementsLength(l: Layout, es: seq<Json>, depth: nat, first: bool)
    ensures |ElementsText(l, es, depth, first)| + (if first && es != [] then 1 + |l.newline| else 0)
         == ElementsSum(l, es, depth) + |es|
    decreases |es|
  {
    if es != [] {
      ElementsLength(l, es[1..], depth, false);
    }
  }

  lemma {:induction false} MembersLength(l: Layout, ms: seq<Member>, depth: nat, first: bool)
    ensures |MembersText(l, ms, depth, first)| + (if first && ms != [] then 1 + |l.newline| else 0)
         == MembersSum(l, ms, depth) + |ms|
    decreases |ms|
  {
    if ms != [] {
      MembersLength(l, ms[1..], depth, false);
    }
  }

  lemma NoPad(n: nat)
    ensures Pad(MINIFIED, n) == []
  {
    assert n * 0 == 0;
  }

  /** json_write_minified_get_value_size; the depth only serves to name the text. */
  method MinifiedSize(j: Json, ghost depth: nat, size0: nat) returns (size: nat)
    requires Plain(j)
    ensures size == size0 + |Write(MINIFIED, j, depth)|
    decreases j
  {
    match j
    case Number(n) => size := NumberTextSize(n, size0);
    case String(s) => size := StringTextSize(s, size0);
    case Array(es) => size := MinifiedArraySize(es, depth, size0);
    case Object(ms) => size := MinifiedObjectSize(ms, depth, size0);
    case True => size := size0 + 4;
    case False => size := size0 + 5;
    case Null => size := size0 + 4;
  }

  method MinifiedArraySize(es: seq<Json>, ghost depth: nat, size0: nat) returns (size: nat)
    requires PlainElements(es)
    ensures size == size0 + |Write(MINIFIED, Array(es), depth)|
    decreases es
  {
    size := size0 + 2;
    if 1 < |es| {
      size := size + (|es| - 1);
    }
    ghost var sum := ElementsSum(MINIFIED, es, depth + 1);
    ghost var start := size;
    for k := 0 to |es|
      invariant size + ElementsSum(MINIFIED, es[k..], depth + 1) == start + sum
    {
      PlainAt(es, k);
      NoPad(depth + 1);
      assert es[k..][1..] == es[k + 1..];
      size := MinifiedSize(es[k], depth + 1, size);
    }
    ElementsLength(MINIFIED, es, depth + 1, true);
    NoPad(depth);
  }

  method MinifiedObjectSize(ms: seq<Member>, ghost depth: nat, size0: nat) returns (size: nat)
    requires PlainMembers(ms)
    ensures size == size0 + |Write(MINIFIED, Object(ms), depth)|
    decreases ms
  {
    size := size0 + 2 + |ms|;
    if 1 < |ms| {
      size := size + (|ms| - 1);
    }
    ghost var sum := MembersSum(MINIFIED, ms, depth + 1);
    ghost var start := size;
    for k := 0 to |ms|
      invariant size + MembersSum(MINIFIED, ms[k..], depth + 1) == start + sum - k
    {
      PlainMemberAt(ms, k);
      NoPad(depth + 1);
      assert ms[k..][1..] == ms[k + 1..];
      size := StringTextSize(ms[k].name, size);
      size := MinifiedSize(ms[k].value, depth + 1, size);
    }
    MembersLength(MINIFIED, ms, depth + 1, true);
    NoPad(depth);
  }

  /** json_write_pretty_get_value_size. */
  method PrettySize(j: Json, depth: nat, ghost l: Layout, indentSize: nat, newlineSize: nat, size0: nat)
    returns (size: nat)
    requires Plain(j) && |l.indent| == indentSize && |l.newline| == newlineSize && |l.colon| == 3
    ensures size == size0 + |Write(l, j, depth)|
    decreases j
  {
    match j
    case Number(n) => size := NumberTextSize(n, size0);
    case String(s) => size := StringTextSize(s, size0);
    case Array(es) => size := PrettyArraySize(es, depth, l, indentSize, newlineSize, size0);
    case Object(ms) => size := PrettyObjectSize(ms, depth, l, indentSize, newlineSize, size0);
    case True => size := size0 + 4;
    case False => size := size0 + 5;
    case Null => size := size0 + 4;
  }

  method PrettyArraySize(es: seq<Json>, depth: nat, ghost l: Layout, indentSize: nat, newlineSize: nat, size0: nat)
    returns (size: nat)
    requires PlainElements(es) && |l.indent| == indentSize && |l.newline| == newlineSize && |l.colon| == 3
    ensures size == size0 + |Write(l, Array(es), depth)|
    decreases es
  {
    size := size0 + 1;
    if 0 < |es| {
      size := size + newlineSize;
      size := size + (|es| - 1);
      ghost var total := size + ElementsSum(l, es, depth + 1);
      for k := 0 to |es|
        invariant size + ElementsSum(l, es[k..], depth + 1) == total
      {
        PlainAt(es, k);
        assert es[k..][1..] == es[k + 1..];
        size := size + (depth + 1) * indentSize;
        size := PrettySize(es[k], depth + 1, l, indentSize, newlineSize, size);
        size := size + newlineSize;
      }
      size := size + depth * indentSize;
    }
    size := size + 1;
    ElementsLength(l, es, depth + 1, true);
  }

  method PrettyObjectSize(ms: seq<Member>, depth: nat, ghost l: Layout, indentSize: nat, newlineSize: nat, size0: nat)
    returns (size: nat)
    requires PlainMembers(ms) && |l.indent| == indentSize && |l.newline| == newlineSize && |l.colon| == 3
    ensures size == size0 + |Write(l, Object(ms), depth)|
    decreases ms
  {
    size := size0 + 1;
    if 0 < |ms| {
      size := size + newlineSize;
      size := size + (|ms| - 1);
      ghost var total := size + MembersSum(l, ms, depth + 1);
      for k := 0 to |ms|
        invariant size + MembersSum(l, ms[k..], depth + 1) == total
      {
        PlainMemberAt(ms, k);
        assert ms[k..][1..] == ms[k + 1..];
        size := size + (depth + 1) * indentSize;
        size := size + newlineSize;
        size := StringTextSize(ms[k].name, size);
        size := size + 3;
        size := PrettySize(ms[k].value, depth + 1, l, indentSize, newlineSize, size);
      }
      size := size + depth * indentSize;
    }
    size := size + 1;
    MembersLength(l, ms, depth + 1, true);
  }

  // ---------------------------------------------------------------- writing

  lemma OverwrittenAcross(was: Bytes, base: nat, done: Bytes, mid: Bytes, more: Bytes, now: Bytes)
    requires Overwritten(was, base, done, mid) && Overwritten(mid, base + |done|, more, now)
    ensures Overwritten(was, base, done + more, now)
  {
    PutExtends(was, base, done, more);
  }

  /** Of the text `whole`, to be written from `base` on over memory that was `was`, the part `done`
      has been written and `rest` is still to come at `at`. */
  ghost predicate Writing(was: Bytes, base: nat, whole: Bytes, done: Bytes, rest: Bytes, at: nat, now: Bytes) {
    Overwritten(was, base, done, now) && at == base + |done| && whole == done + rest && base + |whole| <= |was|
  }

  lemma WritingStarts(was: Bytes, base: nat, whole: Bytes)
    requires base + |whole| <= |was|
    ensures Writing(was, base, whole, [], whole, base, was)
  {
  }

  lemma WritingNext(was: Bytes, base: nat, whole: Bytes, done: Bytes, rest: Bytes, at: nat, mid: Bytes,
                    s: Bytes, rest': Bytes, now: Bytes)
    requires Writing(was, base, whole, done, rest, at, mid) && rest == s + rest'
    requires Overwritten(mid, at, s, now)
    ensures Writing(was, base, whole, done + s, rest', at + |s|, now)
  {
    OverwrittenAcross(was, base, done, mid, s, now);
    assert done + (s + rest') == (done + s) + rest';
  }

  lemma WritingEnds(was: Bytes, base: nat, whole: Bytes, done: Bytes, at: nat, now: Bytes)
    requires Writing(was, base, whole, done, [], at, now)
    ensures at == base + |whole| && Overwritten(was, base, whole, now)
  {
    assert done + [] == done;
  }

  /** Write the next bytes of the text. */
  method Emit(data: array<byte>, at: nat, s: Bytes) returns (at': nat)
    requires at + |s| <= data.Length
    modifies data
    ensures at' == at + |s| && Overwritten(old(data[..]), at, s, data[..])
  {
    forall i | 0 <= i < |s| {
      data[at + i] := s[i];
    }
    at' := at + |s|;
  }

  /** json_write_string. */
  method WriteString(s: Bytes, data: array<byte>, at: nat) returns (at': nat)
    requires at + |Quoted(s)| <= data.Length
    modifies data
    ensures at' == at + |Quoted(s)| && Overwritten(old(data[..]), at, Quoted(s), data[..])
  {
    ghost var whole := Quoted(s);
    ghost var done, rest: Bytes := [], whole;
    WritingStarts(data[..], at, whole);
    at', done, rest := EmitNext(data, old(data[..]), at, whole, done, rest, at, [QUOTE], Escaped(s) + [QUOTE]);
    assert s[0..] == s;
    for i := 0 to |s|
      invariant rest == Escaped(s[i..]) + [QUOTE] && Writing(old(data[..]), at, whole, done, rest, at', data[..])
    {
      EscapedStep(s, i);
      at', done, rest := EmitNext(data, old(data[..]), at, whole, done, rest, at',
                                  EscapeByte(s[i]), Escaped(s[i + 1..]) + [QUOTE]);
    }
    at', done, rest := EmitNext(data, old(data[..]), at, whole, done, rest, at', [QUOTE], []);
    WritingEnds(old(data[..]), at, whole, done, at', data[..]);
  }

  lemma EscapedStep(s: Bytes, i: nat)
    requires i < |s|
    ensures Escaped(s[i..]) + [QUOTE] == EscapeByte(s[i]) + (Escaped(s[i + 1..]) + [QUOTE])
  {
    assert s[i..][1..] == s[i + 1..];
  }

  method EmitNext(data: array<byte>, ghost was: Bytes, ghost base: nat, ghost whole: Bytes, ghost done: Bytes,
                  ghost rest: Bytes, at: nat, s: Bytes, ghost after: Bytes)
    returns (at': nat, ghost done': Bytes, ghost rest': Bytes)
    requires |was| == data.Length && Writing(was, base, whole, done, rest, at, data[..]) && rest == s + after
    modifies data
    ensures rest' == after && Writing(was, base, whole, done', rest', at', data[..])
  {
    ghost var mid := data[..];
    at' := Emit(data, at, s);
    WritingNext(was, base, whole, done, rest, at, mid, s, after, data[..]);
    done', rest' := done + s, after;
  }

  /** json_write_number, for numbers without extensions. */
  method WriteNumber(n: Bytes, data: array<byte>, at: nat) returns (at': nat)
    requires IsPlain(n) && at + |NumberText(n)| <= data.Length
    modifies data
    ensures at' == at + |NumberText(n)| && Overwritten(old(data[..]), at, NumberText(n), data[..])
  {
    var i := 0;
    if i < |n| && (PLUS == n[i] || MINUS == n[i]) {
      i := i + 1;
    }
    var text;
    if i < |n| && DOT == n[i] {
      text := (if MINUS == n[0] then [MINUS] else []) + [ZERO] + n[i..];
    } else {
      var k := DigitsFrom(n, i);
      text := if |n| > 0 && PLUS == n[0] then n[1..] else n;
      if k + 1 == |n| && DOT == n[k] {
        text := text + [ZERO];
      }
    }
    assert text == NumberText(n);
    at' := Emit(data, at, text);
  }

  /** What is still to be written after the items of a list. */
  ghost function Tail(l: Layout, empty: bool, depth: nat, close: byte): Bytes {
    if empty then [close] else l.newline + (Pad(l, depth) + [close])
  }

  ghost function Opening(l: Layout, empty: bool): Bytes {
    if empty then [] else l.newline
  }

  lemma ListText(l: Layout, open: byte, items: Bytes, empty: bool, depth: nat, close: byte)
    requires empty ==> items == []
    ensures [open] + Body(l, items, empty, depth) + [close]
      == [open] + (Opening(l, empty) + (items + Tail(l, empty, depth, close)))
  {
  }

  lemma ElementStep(l: Layout, es: seq<Json>, k: nat, depth: nat, tail: Bytes)
    requires k < |es|
    ensures ElementsText(l, es[k..], depth, k == 0) + tail
         == Between(l, k == 0)
            + (Pad(l, depth) + (Write(l, es[k], depth) + (ElementsText(l, es[k + 1..], depth, false) + tail)))
  {
    assert es[k..][1..] == es[k + 1..];
    Reassociate(Between(l, k == 0), Pad(l, depth), Write(l, es[k], depth), ElementsText(l, es[k + 1..], depth, false),
                tail);
  }

  lemma MemberStep(l: Layout, ms: seq<Member>, k: nat, depth: nat, tail: Bytes)
    requires k < |ms|
    ensures MembersText(l, ms[k..], depth, k == 0) + tail
         == Between(l, k == 0)
            + (Pad(l, depth) + (MemberText(l, ms[k], depth) + (MembersText(l, ms[k + 1..], depth, false) + tail)))
  {
    assert ms[k..][1..] == ms[k + 1..];
    Reassociate(Between(l, k == 0), Pad(l, depth), MemberText(l, ms[k], depth),
                MembersText(l, ms[k + 1..], depth, false), tail);
  }

  lemma Reassociate(a: Bytes, b: Bytes, c: Bytes, d: Bytes, e: Bytes)
    ensures (a + (b + c) + d) + e == a + (b + (c + (d + e)))
  {
  }

  lemma MemberTextStep(l: Layout, m: Member, depth: nat, tail: Bytes)
    ensures MemberText(l, m, depth) + tail == Quoted(m.name) + (l.colon + (Write(l, m.value, depth) + tail))
  {
  }

  // The minified writer.

  method WriteMinified(j: Json, ghost depth: nat, data: array<byte>, at: nat) returns (at': nat)
    requires Plain(j) && at + |Write(MINIFIED, j, depth)| <= data.Length
    modifies data
    ensures at' == at + |Write(MINIFIED, j, depth)|
      && Overwritten(old(data[..]), at, Write(MINIFIED, j, depth), data[..])
    decreases j, 0
  {
    match j
    case Number(n) => at' := WriteNumber(n, data, at);
    case String(s) => at' := WriteString(s, data, at);
    case Array(es) => at' := WriteMinifiedArray(es, depth, data, at);
    case Object(ms) => at' := WriteMinifiedObject(ms, depth, data, at);
    case True => at' := Emit(data, at, TRUE_TEXT);
    case False => at' := Emit(data, at, FALSE_TEXT);
    case Null => at' := Emit(data, at, NULL_TEXT);
  }

  method WriteMinifiedArray(es: seq<Json>, ghost depth: nat, data: array<byte>, at: nat) returns (at': nat)
    requires PlainElements(es) && at + |Write(MINIFIED, Array(es), depth)| <= data.Length
    modifies data
    ensures at' == at + |Write(MINIFIED, Array(es), depth)|
    ensures Overwritten(old(data[..]), at, Write(MINIFIED, Array(es), depth), data[..])
    decreases es
  {
    ghost var was, whole := data[..], Write(MINIFIED, Array(es), depth);
    ghost var done;
    at', done := BeginMinified(LBRACKET, ElementsText(MINIFIED, es, depth + 1, true), es == [], depth, RBRACKET, data,
                               at, whole);
    assert es[0..] == es;
    for k := 0 to |es|
      invariant Writing(was, at, whole, done, ElementsText(MINIFIED, es[k..], depth + 1, k == 0) + [RBRACKET], at',
                        data[..])
    {
      PlainAt(es, k);
      ElementStep(MINIFIED, es, k, depth + 1, [RBRACKET]);
      at', done := WriteMinifiedElement(es[k], k == 0, depth + 1, data, was, at, whole, done,
                                        ElementsText(MINIFIED, es[k + 1..], depth + 1, false) + [RBRACKET], at');
    }
    NothingLeft(MINIFIED, es, [], depth + 1, |es| == 0, [RBRACKET]);
    at' := EndMinified(RBRACKET, data, was, at, whole, done, at');
  }

  method WriteMinifiedElement(e: Json, first: bool, ghost depth: nat, data: array<byte>, ghost was: Bytes,
                              ghost base: nat, ghost whole: Bytes, ghost done: Bytes, ghost after: Bytes, at: nat)
    returns (at': nat, ghost done': Bytes)
    requires Plain(e) && |was| == data.Length
    requires Writing(was, base, whole, done,
                     Between(MINIFIED, first) + (Pad(MINIFIED, depth) + (Write(MINIFIED, e, depth) + after)),
                     at, data[..])
    modifies data
    ensures Writing(was, base, whole, done', after, at', data[..])
    decreases e, 1
  {
    ghost var text := Write(MINIFIED, e, depth);
    at', done' := MinifiedComma(first, depth, data, was, base, whole, done, text + after, at);
    ghost var mid := data[..];
    ghost var start := at';
    at' := WriteMinified(e, depth, data, at');
    WritingNext(was, base, whole, done', text + after, start, mid, text, after, data[..]);
    done' := done' + text;
  }

  /** A comma in front of every item but the first. */
  method MinifiedComma(first: bool, ghost depth: nat, data: array<byte>, ghost was: Bytes, ghost base: nat,
                       ghost whole: Bytes, ghost done: Bytes, ghost after: Bytes, at: nat)
    returns (at': nat, ghost done': Bytes)
    requires |was| == data.Length
    requires Writing(was, base, whole, done, Between(MINIFIED, first) + (Pad(MINIFIED, depth) + after), at, data[..])
    modifies data
    ensures Writing(was, base, whole, done', after, at', data[..])
  {
    NoPad(depth);
    at', done' := at, done;
    if !first {
      ghost var rest := Between(MINIFIED, first) + (Pad(MINIFIED, depth) + after);
      assert rest == [COMMA] + after;
      at', done', rest := EmitNext(data, was, base, whole, done', rest, at', [COMMA], after);
    } else {
      assert Between(MINIFIED, first) + (Pad(MINIFIED, depth) + after) == after;
    }
  }

  method BeginMinified(open: byte, ghost items: Bytes, ghost empty: bool, ghost depth: nat, ghost close: byte,
                       data: array<byte>, at: nat, ghost whole: Bytes)
    returns (at': nat, ghost done: Bytes)
    requires whole == [open] + Body(MINIFIED, items, empty, depth) + [close] && (empty ==> items == [])
    requires at + |whole| <= data.Length
    modifies data
    ensures Writing(old(data[..]), at, whole, done, items + [close], at', data[..])
  {
    ghost var was, rest := data[..], whole;
    WritingStarts(was, at, whole);
    MinifiedList(open, items, empty, depth, close);
    at', done, rest := EmitNext(data, was, at, whole, [], rest, at, [open], items + [close]);
  }

  method EndMinified(close: byte, data: array<byte>, ghost was: Bytes, ghost base: nat, ghost whole: Bytes,
                     ghost done: Bytes, at: nat)
    returns (at': nat)
    requires |was| == data.Length && Writing(was, base, whole, done, [close], at, data[..])
    modifies data
    ensures at' == base + |whole| && Overwritten(was, base, whole, data[..])
  {
    ghost var done', rest: Bytes := done, [close];
    assert rest == [close] + [];
    at', done', rest := EmitNext(data, was, base, whole, done', rest, at, [close], []);
    WritingEnds(was, base, whole, done', at', data[..]);
  }

  lemma MinifiedList(open: byte, items: Bytes, empty: bool, depth: nat, close: byte)
    requires empty ==> items == []
    ensures [open] + Body(MINIFIED, items, empty, depth) + [close] == [open] + (items + [close])
  {
    NoPad(depth);
  }

  method WriteMinifiedObject(ms: seq<Member>, ghost depth: nat, data: array<byte>, at: nat) returns (at': nat)
    requires PlainMembers(ms) && at + |Write(MINIFIED, Object(ms), depth)| <= data.Length
    modifies data
    ensures at' == at + |Write(MINIFIED, Object(ms), depth)|
    ensures Overwritten(old(data[..]), at, Write(MINIFIED, Object(ms), depth), data[..])
    decreases ms
  {
    ghost var was, whole := data[..], Write(MINIFIED, Object(ms), depth);
    ghost var done;
    at', done := BeginMinified(LBRACE, MembersText(MINIFIED, ms, depth + 1, true), ms == [], depth, RBRACE, data, at,
                               whole);
    assert ms[0..] == ms;
    for k := 0 to |ms|
      invariant Writing(was, at, whole, done, MembersText(MINIFIED, ms[k..], depth + 1, k == 0) + [RBRACE], at',
                        data[..])
    {
      PlainMemberAt(ms, k);
      ghost var after := MembersText(MINIFIED, ms[k + 1..], depth + 1, false) + [RBRACE];
      MemberStep(MINIFIED, ms, k, depth + 1, [RBRACE]);
      at', done := MinifiedComma(k == 0, depth + 1, data, was, at, whole, done,
                                 MemberText(MINIFIED, ms[k], depth + 1) + after, at');
      at', done := WriteMinifiedMember(ms[k], depth + 1, data, was, at, whole, done, after, at');
    }
    NothingLeft(MINIFIED, [], ms, depth + 1, |ms| == 0, [RBRACE]);
    at' := EndMinified(RBRACE, data, was, at, whole, done, at');
  }

  /** A name, a colon and a value. */
  method WriteMinifiedMember(m: Member, ghost depth: nat, data: array<byte>, ghost was: Bytes, ghost base: nat,
                             ghost whole: Bytes, ghost done: Bytes, ghost after: Bytes, at: nat)
    returns (at': nat, ghost done': Bytes)
    requires PlainMember(m) && |was| == data.Length
    requires Writing(was, base, whole, done, MemberText(MINIFIED, m, depth) + after, at, data[..])
    modifies data
    ensures Writing(was, base, whole, done', after, at', data[..])
    decreases m
  {
    MemberTextStep(MINIFIED, m, depth, after);
    ghost var rest := MemberText(MINIFIED, m, depth) + after;
    ghost var value := Write(MINIFIED, m.value, depth);
    ghost var mid := data[..];
    at' := WriteString(m.name, data, at);
    WritingNext(was, base, whole, done, rest, at, mid, Quoted(m.name), MINIFIED.colon + (value + after), data[..]);
    at', done', rest := EmitNext(data, was, base, whole, done + Quoted(m.name), MINIFIED.colon + (value + after), at',
                                 [COLON], value + after);
    mid := data[..];
    ghost var start := at';
    at' := WriteMinified(m.value, depth, data, at');
    WritingNext(was, base, whole, done', rest, start, mid, value, after, data[..]);
    done' := done' + value;
  }

  // The pretty writer.

  /** The indent loops: `n` indents. */
  method WritePad(l: Layout, n: nat, data: array<byte>, at: nat) returns (at': nat)
    requires at + |Pad(l, n)| <= data.Length
    modifies data
    ensures at' == at + |Pad(l, n)| && Overwritten(old(data[..]), at, Pad(l, n), data[..])
  {
    ghost var whole := Pad(l, n);
    ghost var done, rest: Bytes := [], whole;
    at' := at;
    WritingStarts(data[..], at, whole);
    for k := 0 to n
      invariant rest == Pad(l, n - k) && Writing(old(data[..]), at, whole, done, rest, at', data[..])
    {
      at', done, rest := EmitNext(data, old(data[..]), at, whole, done, rest, at', l.indent, Pad(l, n - k - 1));
    }
    WritingEnds(old(data[..]), at, whole, done, at', data[..]);
  }

  /** What comes before an item: a comma and a newline unless it is the first, and the indent. */
  method BeginItem(l: Layout, first: bool, depth: nat, data: array<byte>, ghost was: Bytes, ghost base: nat,
                   ghost whole: Bytes, ghost done: Bytes, ghost after: Bytes, at: nat)
    returns (at': nat, ghost done': Bytes)
    requires |was| == data.Length
    requires Writing(was, base, whole, done, Between(l, first) + (Pad(l, depth) + after), at, data[..])
    modifies data
    ensures Writing(was, base, whole, done', after, at', data[..])
  {
    ghost var rest := Between(l, first) + (Pad(l, depth) + after);
    at', done' := at, done;
    if !first {
      assert rest == [COMMA] + (l.newline + (Pad(l, depth) + after));
      at', done', rest := EmitNext(data, was, base, whole, done', rest, at',
                                   [COMMA], l.newline + (Pad(l, depth) + after));
      at', done', rest := EmitNext(data, was, base, whole, done', rest, at', l.newline, Pad(l, depth) + after);
    } else {
      assert rest == Pad(l, depth) + after;
    }
    ghost var mid := data[..];
    ghost var start := at';
    at' := WritePad(l, depth, data, at');
    WritingNext(was, base, whole, done', rest, start, mid, Pad(l, depth), after, data[..]);
    done' := done' + Pad(l, depth);
  }

  /** What comes after the last item: a newline, the indent and the closing byte. */
  method EndList(l: Layout, empty: bool, depth: nat, close: byte, data: array<byte>, ghost was: Bytes, ghost base: nat,
                 ghost whole: Bytes, ghost done: Bytes, at: nat)
    returns (at': nat)
    requires |was| == data.Length
    requires Writing(was, base, whole, done, Tail(l, empty, depth, close), at, data[..])
    modifies data
    ensures at' == base + |whole| && Overwritten(was, base, whole, data[..])
  {
    ghost var done', rest := done, Tail(l, empty, depth, close);
    at' := at;
    if !empty {
      at', done', rest := EmitNext(data, was, base, whole, done', rest, at', l.newline, Pad(l, depth) + [close]);
      ghost var mid := data[..];
      ghost var start := at';
      at' := WritePad(l, depth, data, at');
      WritingNext(was, base, whole, done', rest, start, mid, Pad(l, depth), [close], data[..]);
      done', rest := done' + Pad(l, depth), [close];
    }
    assert rest == [close] + [];
    at', done', rest := EmitNext(data, was, base, whole, done', rest, at', [close], []);
    WritingEnds(was, base, whole, done', at', data[..]);
  }

  method WritePretty(j: Json, depth: nat, l: Layout, data: array<byte>, at: nat) returns (at': nat)
    requires Plain(j) && at + |Write(l, j, depth)| <= data.Length
    modifies data
    ensures at' == at + |Write(l, j, depth)| && Overwritten(old(data[..]), at, Write(l, j, depth), data[..])
    decreases j, 0
  {
    match j
    case Number(n) => at' := WriteNumber(n, data, at);
    case String(s) => at' := WriteString(s, data, at);
    case Array(es) => at' := WritePrettyArray(es, depth, l, data, at);
    case Object(ms) => at' := WritePrettyObject(ms, depth, l, data, at);
    case True => at' := Emit(data, at, TRUE_TEXT);
    case False => at' := Emit(data, at, FALSE_TEXT);
    case Null => at' := Emit(data, at, NULL_TEXT);
  }

  /** The opening byte, and a newline if anything follows. */
  method BeginList(l: Layout, open: byte, ghost items: Bytes, empty: bool, ghost depth: nat, ghost close: byte,
                   data: array<byte>, at: nat, ghost whole: Bytes)
    returns (at': nat, ghost done: Bytes)
    requires whole == [open] + Body(l, items, empty, depth) + [close] && (empty ==> items == [])
    requires at + |whole| <= data.Length
    modifies data
    ensures Writing(old(data[..]), at, whole, done, items + Tail(l, empty, depth, close), at', data[..])
  {
    ghost var was, after := data[..], items + Tail(l, empty, depth, close);
    ghost var rest;
    WritingStarts(was, at, whole);
    ListText(l, open, items, empty, depth, close);
    at', done, rest := EmitNext(data, was, at, whole, [], whole, at, [open], Opening(l, empty) + after);
    at', done, rest := EmitNext(data, was, at, whole, done, rest, at', if empty then [] else l.newline, after);
  }

  method WritePrettyArray(es: seq<Json>, depth: nat, l: Layout, data: array<byte>, at: nat) returns (at': nat)
    requires PlainElements(es) && at + |Write(l, Array(es), depth)| <= data.Length
    modifies data
    ensures at' == at + |Write(l, Array(es), depth)|
      && Overwritten(old(data[..]), at, Write(l, Array(es), depth), data[..])
    decreases es
  {
    ghost var was, whole := data[..], Write(l, Array(es), depth);
    ghost var tail := Tail(l, es == [], depth, RBRACKET);
    ghost var done;
    at', done := BeginList(l, LBRACKET, ElementsText(l, es, depth + 1, true), |es| == 0, depth, RBRACKET, data, at,
                           whole);
    assert es[0..] == es;
    for k := 0 to |es|
      invariant Writing(was, at, whole, done, ElementsText(l, es[k..], depth + 1, k == 0) + tail, at', data[..])
    {
      PlainAt(es, k);
      ElementStep(l, es, k, depth + 1, tail);
      at', done := WritePrettyElement(es[k], k == 0, depth + 1, l, data, was, at, whole, done,
                                      ElementsText(l, es[k + 1..], depth + 1, false) + tail, at');
    }
    NothingLeft(l, es, [], depth + 1, |es| == 0, tail);
    at' := EndList(l, |es| == 0, depth, RBRACKET, data, was, at, whole, done, at');
  }

  lemma NothingLeft(l: Layout, es: seq<Json>, ms: seq<Member>, depth: nat, first: bool, tail: Bytes)
    ensures ElementsText(l, es[|es|..], depth, first) + tail == tail
    ensures MembersText(l, ms[|ms|..], depth, first) + tail == tail
  {
  }

  method WritePrettyElement(e: Json, first: bool, depth: nat, l: Layout, data: array<byte>, ghost was: Bytes,
                            ghost base: nat, ghost whole: Bytes, ghost done: Bytes, ghost after: Bytes, at: nat)
    returns (at': nat, ghost done': Bytes)
    requires Plain(e) && |was| == data.Length
    requires Writing(was, base, whole, done, Between(l, first) + (Pad(l, depth) + (Write(l, e, depth) + after)), at,
                     data[..])
    modifies data
    ensures Writing(was, base, whole, done', after, at', data[..])
    decreases e, 1
  {
    ghost var text := Write(l, e, depth);
    at', done' := BeginItem(l, first, depth, data, was, base, whole, done, text + after, at);
    ghost var mid := data[..];
    ghost var start := at';
    at' := WritePretty(e, depth, l, data, at');
    WritingNext(was, base, whole, done', text + after, start, mid, text, after, data[..]);
    done' := done' + text;
  }

  method WritePrettyObject(ms: seq<Member>, depth: nat, l: Layout, data: array<byte>, at: nat) returns (at': nat)
    requires PlainMembers(ms) && at + |Write(l, Object(ms), depth)| <= data.Length
    modifies data
    ensures at' == at + |Write(l, Object(ms), depth)|
      && Overwritten(old(data[..]), at, Write(l, Object(ms), depth), data[..])
    decreases ms
  {
    ghost var was, whole := data[..], Write(l, Object(ms), depth);
    ghost var tail := Tail(l, ms == [], depth, RBRACE);
    ghost var done;
    at', done := BeginList(l, LBRACE, MembersText(l, ms, depth + 1, true), |ms| == 0, depth, RBRACE, data, at, whole);
    assert ms[0..] == ms;
    for k := 0 to |ms|
      invariant Writing(was, at, whole, done, MembersText(l, ms[k..], depth + 1, k == 0) + tail, at', data[..])
    {
      PlainMemberAt(ms, k);
      ghost var after := MembersText(l, ms[k + 1..], depth + 1, false) + tail;
      MemberStep(l, ms, k, depth + 1, tail);
      at', done := BeginItem(l, k == 0, depth + 1, data, was, at, whole, done,
                             MemberText(l, ms[k], depth + 1) + after, at');
      at', done := WritePrettyMember(ms[k], depth + 1, l, data, was, at, whole, done, after, at');
    }
    NothingLeft(l, [], ms, depth + 1, |ms| == 0, tail);
    at' := EndList(l, |ms| == 0, depth, RBRACE, data, was, at, whole, done, at');
  }

  method WritePrettyMember(m: Member, depth: nat, l: Layout, data: array<byte>, ghost was: Bytes, ghost base: nat,
                           ghost whole: Bytes, ghost done: Bytes, ghost after: Bytes, at: nat)
    returns (at': nat, ghost done': Bytes)
    requires PlainMember(m) && |was| == data.Length
    requires Writing(was, base, whole, done, MemberText(l, m, depth) + after, at, data[..])
    modifies data
    ensures Writing(was, base, whole, done', after, at', data[..])
    decreases m
  {
    MemberTextStep(l, m, depth, after);
    ghost var rest := MemberText(l, m, depth) + after;
    ghost var value := Write(l, m.value, depth);
    ghost var mid := data[..];
    at' := WriteString(m.name, data, at);
    WritingNext(was, base, whole, done, rest, at, mid, Quoted(m.name), l.colon + (value + after), data[..]);
    at', done', rest := EmitNext(data, was, base, whole, done + Quoted(m.name), l.colon + (value + after), at',
                                 l.colon, value + after);
    mid := data[..];
    ghost var start := at';
    at' := WritePretty(m.value, depth, l, data, at');
    WritingNext(was, base, whole, done', rest, start, mid, value, after, data[..]);
    done' := done' + value;
  }

  // ---------------------------------------------------------------- whole texts

  /** json_write_minified: the measured size is exactly what the text and its NUL take. */
  method Minified(j: Json) returns (text: Bytes, outSize: nat)
    requires Plain(j)
    ensures text == Write(MINIFIED, j, 0) + [0] && outSize == |text|
  {
    var size := MinifiedSize(j, 0, 0);
    size := size + 1;
    var data := new byte[size];
    ghost var was := data[..];
    var end := WriteMinified(j, 0, data, 0);
    data[end] := 0;
    text, outSize := data[..], size;
    assert text == Write(MINIFIED, j, 0) + [0];
  }

  /** json_write_pretty, with the caller's indent and newline. */
  method PrettyPrinted(j: Json, indent: Bytes, newline: Bytes) returns (text: Bytes, outSize: nat)
    requires Plain(j)
    ensures text == Write(Pretty(indent, newline), j, 0) + [0] && outSize == |text|
  {
    var l := Pretty(indent, newline);
    var size := PrettySize(j, 0, l, |indent|, |newline|, 0);
    size := size + 1;
    var data := new byte[size];
    var end := WritePretty(j, 0, l, data, 0);
    data[end] := 0;
    text, outSize := data[..], size;
    assert text == Write(l, j, 0) + [0];
  }
}
