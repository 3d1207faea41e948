/** Parsing what the writers produce gives back the tree. */
module JsonRoundTrip {
  import opened Options
  import opened JsonText
  import opened JsonPieces
  import opened JsonLexeme
  import opened JsonNumber
  import opened JsonGrammar
  import opened JsonWriter
  import opened JsonNul
  import opened JsonReads

  // ---------------------------------------------------------------- text at an offset

  lemma {:induction false} HeadAndTail<T>(s: seq<T>)
    requires s != []
    ensures [s[0]] + s[1..] == s
  {
  }

  lemma {:induction false} Regroup(a: Bytes, b: Bytes, c: Bytes)
    ensures (a + b) + c == a + (b + c)
  {
  }

  /** The text of a list in brackets, cut before its items and after them. */
  lemma {:induction false} BracketText(open: byte, newline: Bytes, items: Bytes, pad: Bytes, close: byte)
    ensures [open] + (newline + items + newline + pad) + [close]
      == ([open] + newline) + (items + (newline + pad + [close]))
  {
  }

  lemma {:induction false} OccursSplit(src: Bytes, i: nat, a: Bytes, b: Bytes)
    requires Holds(src, i, a + b)
    ensures Holds(src, i, a) && Holds(src, i + |a|, b)
  {
    forall k | 0 <= k < |b|
      ensures src[i + |a| + k] == b[k]
    {
      assert (a + b)[|a| + k] == b[k];
    }
    forall k | 0 <= k < |a|
      ensures src[i + k] == a[k]
    {
      assert (a + b)[k] == a[k];
    }
  }

  lemma {:induction false} OccursJoin(src: Bytes, i: nat, a: Bytes, b: Bytes)
    requires Holds(src, i, a) && Holds(src, i + |a|, b)
    ensures Holds(src, i, a + b)
  {
    forall k | 0 <= k < |a + b|
      ensures src[i + k] == (a + b)[k]
    {
      if k >= |a| {
        assert src[i + |a| + (k - |a|)] == b[k - |a|];
      }
    }
  }

  lemma {:induction false} OccursByte(src: Bytes, i: nat, b: byte)
    requires Holds(src, i, [b])
    ensures i < |src| && src[i] == b
  {
    assert src[i + 0] == [b][0];
  }

  /** A run of blanks in front of a byte that is none is skipped whole. */
  lemma {:induction false} SkipBlank(src: Bytes, i: nat, s: Bytes)
    requires Holds(src, i, s) && Blank(s)
    requires i + |s| < |src| ==> !IsWhitespace(src[i + |s|])
    ensures SkipSpace(src, i) == i + |s|
  {
    forall k | i <= k < i + |s|
      ensures IsWhitespace(src[k])
    {
      assert src[i + (k - i)] == s[k - i];
    }
    SkipOver(src, i, i + |s|);
  }

  lemma {:induction false} PadIsBlank(l: Layout, n: nat)
    requires Blank(l.indent)
    ensures Blank(Pad(l, n))
  {
    if n > 0 {
      PadIsBlank(l, n - 1);
    }
  }

  // ---------------------------------------------------------------- strings

  lemma {:induction false} TextCons(p: Piece, ps: seq<Piece>)
    requires p.Valid() && AllValid(ps)
    ensures AllValid([p] + ps) && Text([p] + ps) == p.Text() + Text(ps)
    ensures Pairs([p] + ps) == (if p.Pair? then 1 else 0) + Pairs(ps)
    decreases |ps|
  {
    var all := [p] + ps;
    if ps == [] {
      assert all[..0] == [];
    } else {
      var init, last := ps[..|ps| - 1], ps[|ps| - 1];
      TextCons(p, init);
      assert all == ([p] + init) + [last];
      TextSnoc([p] + init, last);
      Regroup(p.Text(), Text(init), last.Text());
    }
  }

  /** A byte written by json_write_string is read back as one piece standing for it. */
  lemma {:induction false} EscapedByteIsPiece(src: Bytes, i: nat, b: byte)
    requires Holds(src, i, EscapeByte(b)) && b != 0
    ensures i < |src| && src[i] != QUOTE && PieceAt(src, i).Some?
    ensures
      var p := PieceAt(src, i).value;
      p.Text() == [b] && !p.Pair? && p.Length() == |EscapeByte(b)|
  {
    var e := EscapeByte(b);
    assert src[i + 0] == e[0];
    if |e| == 2 {
      assert src[i + 1] == e[1];
    }
  }

  lemma {:induction false} EscapedIsLexed(src: Bytes, i: nat, s: Bytes)
    requires Holds(src, i, Escaped(s) + [QUOTE]) && 0 !in s
    ensures LexesTo(src, i, s, i + |Escaped(s)| + 1)
    decreases |s|
  {
    if s == [] {
      OccursSplit(src, i, [], [QUOTE]);
      OccursByte(src, i, QUOTE);
    } else {
      var e := EscapeByte(s[0]);
      assert Escaped(s) + [QUOTE] == e + (Escaped(s[1..]) + [QUOTE]);
      OccursSplit(src, i, e, Escaped(s[1..]) + [QUOTE]);
      EscapedByteIsPiece(src, i, s[0]);
      EscapedIsLexed(src, i + |e|, s[1..]);
      LexCons(src, i, |e|, s[0], s[1..], i + |Escaped(s)| + 1);
      HeadAndTail(s);
    }
  }

  /** A piece that stands for the first byte, in front of the rest of the literal. */
  lemma {:induction false} LexCons(src: Bytes, i: nat, length: nat, b: byte, rest: Bytes, end: nat)
    requires i < |src| && src[i] != QUOTE && PieceAt(src, i).Some?
    requires
      var p := PieceAt(src, i).value;
      p.Text() == [b] && !p.Pair? && p.Length() == length
    requires LexesTo(src, i + length, rest, end)
    ensures LexesTo(src, i, [b] + rest, end)
  {
    var p := PieceAt(src, i).value;
    var ps := Lex(src, i + length).pieces;
    assert Lex(src, i) == Good(end, [p] + ps);
    ByteCons(p, ps, b, rest);
  }

  lemma {:induction false} ByteCons(p: Piece, ps: seq<Piece>, b: byte, rest: Bytes)
    requires p.Valid() && AllValid(ps) && p.Text() == [b] && !p.Pair? && Text(ps) == rest && Pairs(ps) == 0
    ensures AllValid([p] + ps) && Text([p] + ps) == [b] + rest && Pairs([p] + ps) == 0
  {
    TextCons(p, ps);
  }

  lemma {:induction false} QuotedReadsBack(src: Bytes, i: nat, s: Bytes)
    requires Holds(src, i, Quoted(s)) && 0 !in s
    ensures ReadsString(src, i, s, i + |Quoted(s)|)
  {
    assert Quoted(s) == [QUOTE] + (Escaped(s) + [QUOTE]);
    OccursSplit(src, i, [QUOTE], Escaped(s) + [QUOTE]);
    OccursByte(src, i, QUOTE);
    EscapedIsLexed(src, i + 1, s);
  }

  /** A text that is read over its whole length holds no NUL. */
  lemma {:induction false} NulIsSeen(src: Bytes, i: nat, w: Bytes)
    requires Holds(src, i, w) && Clean(src, i, i + |w|)
    ensures 0 !in w
  {
    forall k | 0 <= k < |w|
      ensures w[k] != 0
    {
      assert src[i + k] == w[k];
    }
  }

  /** A written string is read back if and only if it holds no NUL. */
  lemma {:induction false} QuotedIsLiteral(src: Bytes, i: nat, s: Bytes)
    requires Holds(src, i, Quoted(s))
    ensures ReadsString(src, i, s, i + |Quoted(s)|) <==> 0 !in s
  {
    if 0 !in s {
      QuotedReadsBack(src, i, s);
    } else {
      EscapedKeepsNul(s);
      if ReadsString(src, i, s, i + |Quoted(s)|) {
        LiteralIsClean(src, i);
        NulIsSeen(src, i, Quoted(s));
      }
    }
  }

  // ---------------------------------------------------------------- values

  lemma {:induction false} WriteStarts(l: Layout, j: Json, depth: nat)
    requires Lexical(j)
    ensures Write(l, j, depth) != [] && StartsValue(Write(l, j, depth)[0])
  {
    if j.Number? {
      LexemeText(j.lexeme);
      LexemeStarts(j.lexeme);
    }
  }

  lemma {:induction false} LexemeStarts(n: Bytes)
    requires IsLexeme(n)
    ensures n != [] && StartsNumber(n[0])
  {
    var a: nat, b: nat, c: nat :| Parts(n, a, b, c);
    assert n[a..b][0] == n[a];
    if a == 1 {
      assert n[..a][0] == n[0];
    } else {
      assert |n[..a]| == a;
    }
  }

  lemma {:induction false} HereIsBack(src: Bytes, i: nat, j: Json, end: nat)
    requires ReadsHere(src, i, j, end) && !IsWhitespace(src[i])
    ensures ReadsBack(src, i, j, end)
  {
    assert SkipSpace(src, i) == i;
    assert Value(src, i) == ValueAt(src, i);
  }

  lemma {:induction false} NumberReadsBack(src: Bytes, i: nat, n: Bytes)
    requires IsLexeme(n) && Holds(src, i, n) && Ends(src, i + |n|)
    ensures ReadsHere(src, i, Number(n), i + |n|)
  {
    LexemeStarts(n);
    assert src[i + 0] == n[0];
    assert src[i..i + |n|] == n;
    LexemeIsScanned(src, i, i + |n|);
  }

  lemma {:induction false} KeywordReadsBack(src: Bytes, i: nat, j: Json, w: Bytes)
    requires (j == True && w == TRUE_TEXT) || (j == False && w == FALSE_TEXT) || (j == Null && w == NULL_TEXT)
    requires Holds(src, i, w)
    ensures ReadsHere(src, i, j, i + |w|)
  {
    assert src[i + 0] == w[0];
    assert Holds(src, i, TRUE_TEXT) ==> src[i + 0] == TRUE_TEXT[0];
    assert Holds(src, i, FALSE_TEXT) ==> src[i + 0] == FALSE_TEXT[0];
  }

  /** After an item comes a comma, a blank or the closing byte. */
  lemma {:induction false} RestStarts(items: Bytes, tail: Bytes, close: byte, src: Bytes, i: nat)
    requires items == [] || items[0] == COMMA
    requires Closes(tail, close) && (close == RBRACE || close == RBRACKET)
    requires Holds(src, i, items + tail)
    ensures Ends(src, i) && i < |src|
  {
    var w := items + tail;
    assert src[i + 0] == w[0];
    if items == [] {
      assert w[0] == tail[0];
      if |tail| > 1 {
        assert tail[0] == tail[..|tail| - 1][0];
      }
    }
  }

  /** An item starts behind its separator: the blanks in front of it are skipped. */
  lemma {:induction false} ItemStarts(l: Layout, src: Bytes, i: nat, first: bool, depth: nat, item: Bytes, close: byte)
    requires Blank(l.newline) && Blank(l.indent)
    requires item != [] && StartsValue(item[0]) && (close == RBRACE || close == RBRACKET)
    requires Holds(src, i, Between(l, first) + (Pad(l, depth) + item))
    ensures
      var at := i + |Between(l, first)| + |Pad(l, depth)|;
      var j := SkipSpace(src, i);
      Holds(src, at, item) && j < |src| && src[j] != close && Separator(src, j, !first) == Some(at)
  {
    var pad := Pad(l, depth);
    PadIsBlank(l, depth);
    var k := i + |Between(l, first)|;
    OccursSplit(src, i, Between(l, first), pad + item);
    OccursSplit(src, k, pad, item);
    OccursByteFirst(src, k + |pad|, item);
    if first {
      SkipBlank(src, k, pad);
    } else {
      LaterItemStarts(src, i, l.newline, pad, item[0]);
    }
  }

  lemma {:induction false} LaterItemStarts(src: Bytes, i: nat, newline: Bytes, pad: Bytes, b: byte)
    requires Blank(newline) && Blank(pad) && !IsWhitespace(b)
    requires Holds(src, i, [COMMA] + newline) && Holds(src, i + 1 + |newline|, pad)
    requires
      var at := i + 1 + |newline| + |pad|;
      at < |src| && src[at] == b
    ensures SkipSpace(src, i) == i && src[i] == COMMA
    ensures Separator(src, i, true) == Some(i + 1 + |newline| + |pad|)
  {
    OccursSplit(src, i, [COMMA], newline);
    OccursByte(src, i, COMMA);
    OccursJoin(src, i + 1, newline, pad);
    SkipBlank(src, i + 1, newline + pad);
  }

  /** One element in front of an accepted rest. */
  lemma {:induction false} ElementsCons(src: Bytes, i: nat, comma: bool, at: nat, next: nat, es: seq<Json>, end: nat)
    requires es != []
    requires i <= |src| && SkipSpace(src, i) < |src| && src[SkipSpace(src, i)] != RBRACKET
    requires Separator(src, SkipSpace(src, i), comma) == Some(at)
    requires ReadsBack(src, at, es[0], next) && ReadsElements(src, next, true, es[1..], end)
    ensures ReadsElements(src, i, comma, es, end)
  {
    HeadAndTail(es);
    assert Elements(src, i, comma) == ElementsAt(src, SkipSpace(src, i), comma);
  }

  /** One member in front of an accepted rest. */
  lemma {:induction false} MembersCons(src: Bytes, i: nat, comma: bool, at: nat, mid: nat, ms: seq<Member>, end: nat)
    requires ms != []
    requires i <= |src| && SkipSpace(src, i) < |src| && src[SkipSpace(src, i)] != RBRACE
    requires Separator(src, SkipSpace(src, i), comma) == Some(at)
    requires ReadsMember(src, at, ms[0], mid) && ReadsMembers(src, mid, true, ms[1..], end)
    ensures ReadsMembers(src, i, comma, ms, end)
  {
    HeadAndTail(ms);
    assert Members(src, i, comma) == MembersAt(src, SkipSpace(src, i), comma);
    assert ms[0] == Member(ms[0].name, ms[0].value);
  }

  /** An opening byte in front of a list, with blanks in between. */
  lemma {:induction false} ArrayOf(src: Bytes, i: nat, blanks: Bytes, es: seq<Json>, end: nat)
    requires i < |src| && src[i] == LBRACKET && Holds(src, i + 1, blanks) && Blank(blanks)
    requires ReadsElements(src, i + 1 + |blanks|, false, es, end)
    ensures ReadsHere(src, i, Array(es), end)
  {
    ElementsSkip(src, i + 1, blanks);
    assert ValueAt(src, i) == ArrayAt(src, i);
  }

  lemma {:induction false} ElementsSkip(src: Bytes, i: nat, blanks: Bytes)
    requires Holds(src, i, blanks) && Blank(blanks)
    ensures Elements(src, i, false) == Elements(src, i + |blanks|, false)
  {
    SkipSame(src, i, blanks);
  }

  lemma {:induction false} ObjectOf(src: Bytes, i: nat, blanks: Bytes, ms: seq<Member>, end: nat)
    requires i < |src| && src[i] == LBRACE && Holds(src, i + 1, blanks) && Blank(blanks)
    requires ReadsMembers(src, i + 1 + |blanks|, false, ms, end)
    ensures ReadsHere(src, i, Object(ms), end)
  {
    MembersSkip(src, i + 1, blanks);
    assert ValueAt(src, i) == ObjectAt(src, i);
  }

  lemma {:induction false} MembersSkip(src: Bytes, i: nat, blanks: Bytes)
    requires Holds(src, i, blanks) && Blank(blanks)
    ensures Members(src, i, false) == Members(src, i + |blanks|, false)
  {
    SkipSame(src, i, blanks);
  }

  lemma {:induction false} SkipSame(src: Bytes, i: nat, blanks: Bytes)
    requires Holds(src, i, blanks) && Blank(blanks)
    ensures SkipSpace(src, i) == SkipSpace(src, i + |blanks|)
  {
    forall k | i <= k < i + |blanks|
      ensures IsWhitespace(src[k])
    {
      assert src[i + (k - i)] == blanks[k - i];
    }
    SkipOver(src, i, i + |blanks|);
  }

  lemma {:induction false} ListCloses(src: Bytes, i: nat, tail: Bytes, close: byte)
    requires Closes(tail, close) && (close == RBRACE || close == RBRACKET) && Holds(src, i, tail)
    ensures
      var j := SkipSpace(src, i);
      j < |src| && src[j] == close && j + 1 == i + |tail|
  {
    var blanks := tail[..|tail| - 1];
    assert tail == blanks + [close];
    OccursSplit(src, i, blanks, [close]);
    OccursByte(src, i + |blanks|, close);
    SkipBlank(src, i, blanks);
  }

  lemma {:induction false} ElementsReadBack(l: Layout, src: Bytes, i: nat, es: seq<Json>, depth: nat, first: bool,
                                            tail: Bytes)
    requires Airy(l) && WritableElements(es) && Closes(tail, RBRACKET)
    requires Holds(src, i, ElementsText(l, es, depth, first) + tail)
    ensures ReadsElements(src, i, !first, es, i + |ElementsText(l, es, depth, first)| + |tail|)
    decreases es, 1
  {
    if es == [] {
      assert ElementsText(l, es, depth, first) + tail == tail;
      ListCloses(src, i, tail, RBRACKET);
    } else {
      var at, next := FirstElement(l, src, i, es, depth, first, tail);
      ElementsReadBack(l, src, next, es[1..], depth, false, tail);
      ElementsCons(src, i, !first, at, next, es, i + |ElementsText(l, es, depth, first)| + |tail|);
    }
  }

  lemma {:induction false} FirstElement(l: Layout, src: Bytes, i: nat, es: seq<Json>, depth: nat, first: bool,
                                        tail: Bytes)
    returns (at: nat, next: nat)
    requires Airy(l) && es != [] && WritableElements(es) && Closes(tail, RBRACKET)
    requires Holds(src, i, ElementsText(l, es, depth, first) + tail)
    ensures
      var j := SkipSpace(src, i);
      j < |src| && src[j] != RBRACKET && Separator(src, j, !first) == Some(at)
    ensures ReadsBack(src, at, es[0], next)
    ensures Holds(src, next, ElementsText(l, es[1..], depth, false) + tail)
    ensures next + |ElementsText(l, es[1..], depth, false)| == i + |ElementsText(l, es, depth, first)|
    decreases es, 0
  {
    var item := Write(l, es[0], depth);
    WriteStarts(l, es[0], depth);
    at, next := ItemSplits(l, src, i, first, depth, item, ElementsText(l, es[1..], depth, false), tail, RBRACKET);
    WritableReadsBack(l, src, at, es[0], depth);
  }

  /** The text of a list, cut behind its first item. */
  lemma {:induction false} ItemSplits(l: Layout, src: Bytes, i: nat, first: bool, depth: nat, item: Bytes,
                                      rest: Bytes, tail: Bytes, close: byte)
    returns (at: nat, next: nat)
    requires Blank(l.newline) && Blank(l.indent)
    requires item != [] && StartsValue(item[0]) && (close == RBRACE || close == RBRACKET)
    requires (rest == [] || rest[0] == COMMA) && Closes(tail, close)
    requires Holds(src, i, (Between(l, first) + (Pad(l, depth) + item) + rest) + tail)
    ensures
      var j := SkipSpace(src, i);
      && Holds(src, at, item) && Ends(src, at + |item|)
      && j < |src| && src[j] != close && Separator(src, j, !first) == Some(at)
    ensures next == at + |item| && Holds(src, next, rest + tail)
    ensures next + |rest| == i + |Between(l, first) + (Pad(l, depth) + item) + rest|
  {
    var head := Between(l, first) + (Pad(l, depth) + item);
    Regroup(head, rest, tail);
    OccursSplit(src, i, head, rest + tail);
    ItemStarts(l, src, i, first, depth, item, close);
    at := i + |Between(l, first)| + |Pad(l, depth)|;
    next := i + |head|;
    RestStarts(rest, tail, close, src, next);
  }

  lemma {:induction false} WritableReadsBack(l: Layout, src: Bytes, i: nat, j: Json, depth: nat)
    requires Airy(l) && Writable(j)
    requires Holds(src, i, Write(l, j, depth)) && Ends(src, i + |Write(l, j, depth)|)
    ensures ReadsBack(src, i, j, i + |Write(l, j, depth)|)
    decreases j
  {
    var w := Write(l, j, depth);
    WriteStarts(l, j, depth);
    assert src[i + 0] == w[0];
    match j
    case String(s) => QuotedReadsBack(src, i, s);
    case Number(n) =>
      LexemeText(n);
      NumberReadsBack(src, i, n);
    case Array(es) => ArrayReadsBack(l, src, i, es, depth);
    case Object(ms) => ObjectReadsBack(l, src, i, ms, depth);
    case _ => KeywordReadsBack(src, i, j, w);
    HereIsBack(src, i, j, i + |w|);
  }

  lemma {:induction false} ArrayReadsBack(l: Layout, src: Bytes, i: nat, es: seq<Json>, depth: nat)
    requires Airy(l) && WritableElements(es)
    requires Holds(src, i, ArrayText(l, es, depth))
    ensures ReadsHere(src, i, Array(es), i + |ArrayText(l, es, depth)|)
    decreases es, 2
  {
    var items := ElementsText(l, es, depth + 1, true);
    var newline, tail := ListSplits(l, src, i, LBRACKET, items, es == [], depth, RBRACKET);
    ElementsReadBack(l, src, i + 1 + |newline|, es, depth + 1, true, tail);
    ArrayOf(src, i, newline, es, i + 1 + |newline| + |items| + |tail|);
  }

  /** The text of a list in brackets, cut around its items. */
  lemma {:induction false} ListSplits(l: Layout, src: Bytes, i: nat, open: byte, items: Bytes, empty: bool,
                                      depth: nat, close: byte)
    returns (newline: Bytes, tail: Bytes)
    requires Blank(l.newline) && Blank(l.indent) && (empty ==> items == []) && (close == RBRACE || close == RBRACKET)
    requires Holds(src, i, [open] + Body(l, items, empty, depth) + [close])
    ensures i < |src| && src[i] == open && Blank(newline) && Closes(tail, close)
    ensures Holds(src, i + 1, newline) && Holds(src, i + 1 + |newline|, items + tail)
    ensures |[open] + Body(l, items, empty, depth) + [close]| == 1 + |newline| + |items| + |tail|
  {
    if empty {
      newline, tail := [], [close];
      assert [open] + Body(l, items, empty, depth) + [close] == ([open] + newline) + (items + tail);
    } else {
      PadIsBlank(l, depth);
      newline, tail := l.newline, l.newline + Pad(l, depth) + [close];
      BracketText(open, l.newline, items, Pad(l, depth), close);
      assert tail[..|tail| - 1] == l.newline + Pad(l, depth);
    }
    OccursSplit(src, i, [open] + newline, items + tail);
    OccursSplit(src, i, [open], newline);
    OccursByte(src, i, open);
  }

  lemma {:induction false} OccursByteFirst(src: Bytes, i: nat, w: Bytes)
    requires w != [] && Holds(src, i, w)
    ensures i < |src| && src[i] == w[0]
  {
    assert src[i + 0] == w[0];
  }

  // ---------------------------------------------------------------- objects

  /** The colon between a name and a value, with the blanks around it. */
  lemma {:induction false} ColonReadsBack(l: Layout, src: Bytes, i: nat)
    requires Airy(l) && Holds(src, i, l.colon)
    requires i + |l.colon| < |src| && !IsWhitespace(src[i + |l.colon|])
    ensures AfterColon(src, i) == Some(i + |l.colon|)
  {
    var a, b :| ColonBetween(l, a, b);
    assert l.colon == a + ([COLON] + b);
    OccursSplit(src, i, a, [COLON] + b);
    OccursSplit(src, i + |a|, [COLON], b);
    OccursByte(src, i + |a|, COLON);
    SkipBlank(src, i, a);
    SkipBlank(src, i + |a| + 1, b);
  }

  lemma {:induction false} MembersReadBack(l: Layout, src: Bytes, i: nat, ms: seq<Member>, depth: nat, first: bool,
                                           tail: Bytes)
    requires Airy(l) && WritableMembers(ms) && Closes(tail, RBRACE)
    requires Holds(src, i, MembersText(l, ms, depth, first) + tail)
    ensures ReadsMembers(src, i, !first, ms, i + |MembersText(l, ms, depth, first)| + |tail|)
    decreases ms, 0
  {
    if ms == [] {
      assert MembersText(l, ms, depth, first) + tail == tail;
      ListCloses(src, i, tail, RBRACE);
    } else {
      var item := MemberText(l, ms[0], depth);
      var rest := MembersText(l, ms[1..], depth, false);
      MemberStarts(l, ms[0], depth);
      var at, next := ItemSplits(l, src, i, first, depth, item, rest, tail, RBRACE);
      MemberReadsBack(l, src, at, ms[0], depth);
      MembersReadBack(l, src, next, ms[1..], depth, false, tail);
      MembersCons(src, i, !first, at, next, ms, next + |rest| + |tail|);
    }
  }

  lemma {:induction false} MemberStarts(l: Layout, m: Member, depth: nat)
    ensures MemberText(l, m, depth) != [] && MemberText(l, m, depth)[0] == QUOTE
  {
  }

  lemma {:induction false} OccursThree(src: Bytes, i: nat, a: Bytes, b: Bytes, c: Bytes)
    requires Holds(src, i, a + b + c)
    ensures Holds(src, i, a) && Holds(src, i + |a|, b) && Holds(src, i + |a| + |b|, c)
  {
    OccursSplit(src, i, a + b, c);
    OccursSplit(src, i, a, b);
  }

  /** The text of a member, cut around its colon. */
  lemma {:induction false} MemberSplits(l: Layout, src: Bytes, at: nat, name: Bytes, w: Bytes)
    returns (colon: nat, k: nat)
    requires Airy(l) && 0 !in name && w != [] && StartsValue(w[0])
    requires Holds(src, at, Quoted(name) + l.colon + w)
    ensures k + |w| == at + |Quoted(name) + l.colon + w| && Holds(src, k, w)
    ensures ReadsString(src, at, name, colon) && AfterColon(src, colon) == Some(k)
  {
    OccursThree(src, at, Quoted(name), l.colon, w);
    colon := at + |Quoted(name)|;
    k := colon + |l.colon|;
    OccursByteFirst(src, k, w);
    QuotedReadsBack(src, at, name);
    ColonReadsBack(l, src, colon);
  }

  /** A name, the colon and a value make a member. */
  lemma {:induction false} MemberOf(src: Bytes, at: nat, m: Member, colon: nat, k: nat, end: nat)
    requires ReadsString(src, at, m.name, colon) && AfterColon(src, colon) == Some(k)
    requires ReadsBack(src, k, m.value, end)
    ensures ReadsMember(src, at, m, end)
  {
  }

  lemma {:induction false} MemberReadsBack(l: Layout, src: Bytes, at: nat, m: Member, depth: nat)
    requires Airy(l) && WritableMember(m)
    requires Holds(src, at, MemberText(l, m, depth)) && Ends(src, at + |MemberText(l, m, depth)|)
    ensures ReadsMember(src, at, m, at + |MemberText(l, m, depth)|)
    decreases m, 1
  {
    var end := at + |MemberText(l, m, depth)|;
    var colon, k := MemberParts(l, src, at, m, depth, end);
    MemberOf(src, at, m, colon, k, end);
  }

  lemma {:induction false} MemberParts(l: Layout, src: Bytes, at: nat, m: Member, depth: nat, end: nat)
    returns (colon: nat, k: nat)
    requires Airy(l) && WritableMember(m)
    requires Holds(src, at, MemberText(l, m, depth)) && end == at + |MemberText(l, m, depth)| && Ends(src, end)
    ensures ReadsString(src, at, m.name, colon) && AfterColon(src, colon) == Some(k)
    ensures ReadsBack(src, k, m.value, end)
    decreases m, 0
  {
    WriteStarts(l, m.value, depth);
    colon, k := MemberSplits(l, src, at, m.name, Write(l, m.value, depth));
    WritableReadsBack(l, src, k, m.value, depth);
  }

  lemma {:induction false} ObjectReadsBack(l: Layout, src: Bytes, i: nat, ms: seq<Member>, depth: nat)
    requires Airy(l) && WritableMembers(ms)
    requires Holds(src, i, ObjectText(l, ms, depth))
    ensures ReadsHere(src, i, Object(ms), i + |ObjectText(l, ms, depth)|)
    decreases ms, 1
  {
    var items := MembersText(l, ms, depth + 1, true);
    var newline, tail := ListSplits(l, src, i, LBRACE, items, ms == [], depth, RBRACE);
    MembersReadBack(l, src, i + 1 + |newline|, ms, depth + 1, true, tail);
    ObjectOf(src, i, newline, ms, i + 1 + |newline| + |items| + |tail|);
  }

  /** What was written is read back, wherever it stands in a text, if and only if no string and no
      name holds a NUL. */
  lemma {:induction false} ReadBack(l: Layout, src: Bytes, i: nat, j: Json, depth: nat)
    requires Airy(l) && Lexical(j)
    requires Holds(src, i, Write(l, j, depth)) && Ends(src, i + |Write(l, j, depth)|)
    ensures ReadsBack(src, i, j, i + |Write(l, j, depth)|) <==> NulFree(j)
  {
    if NulFree(j) {
      WritableReadsBack(l, src, i, j, depth);
    } else {
      var w := Write(l, j, depth);
      NulIsWritten(l, j, depth);
      if ReadsBack(src, i, j, i + |w|) {
        ValueIsSound(src, i);
        NulIsSeen(src, i, w);
      }
    }
  }

  /** Writing a tree and parsing the text gives the tree back, for every whitespace-only layout, if and
      only if no string and no name holds a NUL; otherwise the text is rejected. */
  lemma {:induction false} RoundTrip(l: Layout, j: Json)
    requires Airy(l) && Parseable(j)
    ensures
      var r := Document(Write(l, j, 0));
      (r.Accept? <==> NulFree(j)) && (r.Accept? ==> r.value == j && r.pairs == 0)
  {
    if !NulFree(j) {
      NulIsWritten(l, j, 0);
      if Document(Write(l, j, 0)).Accept? {
        AcceptedText(Write(l, j, 0));
      }
    } else if Lexical(j) {
      WritableRoundTrip(l, j);
    } else {
      MinusRoundTrip(Write(l, j, 0));
    }
  }

  lemma {:induction false} WritableRoundTrip(l: Layout, j: Json)
    requires Airy(l) && Writable(j)
    ensures
      var r := Document(Write(l, j, 0));
      r.Accept? && r.value == j && r.pairs == 0
  {
    var src := Write(l, j, 0);
    WriteStarts(l, j, 0);
    WritableReadsBack(l, src, 0, j, 0);
  }

  lemma {:induction false} MinusRoundTrip(src: Bytes)
    requires src == [MINUS]
    ensures Document(src).Accept? && Document(src).value == Number([MINUS]) && Document(src).pairs == 0
  {
    assert src[0..] == src;
    LoneMinus(src, 0);
    assert Value(src, 0) == ValueAt(src, 0) == NumberAt(src, 0);
  }

  lemma {:induction false} MinifiedRoundTrip(j: Json)
    requires Parseable(j)
    ensures
      var r := Document(Write(MINIFIED, j, 0));
      (r.Accept? <==> NulFree(j)) && (r.Accept? ==> r.value == j)
  {
    assert ColonBetween(MINIFIED, [], []);
    RoundTrip(MINIFIED, j);
  }

  lemma {:induction false} PrettyRoundTrip(j: Json, indent: Bytes, newline: Bytes)
    requires Parseable(j) && Blank(indent) && Blank(newline)
    ensures
      var r := Document(Write(Pretty(indent, newline), j, 0));
      (r.Accept? <==> NulFree(j)) && (r.Accept? ==> r.value == j)
  {
    assert ColonBetween(Pretty(indent, newline), [SPACE], [SPACE]);
    RoundTrip(Pretty(indent, newline), j);
  }

  /** For every accepted text: writing its tree out again, in any such layout, and reading that gives
      the same tree if and only if the tree holds no NUL. */
  lemma {:induction false} ParsedRoundTrip(l: Layout, src: Bytes)
    requires Airy(l) && Document(src).Accept?
    ensures
      var j := Document(src).value;
      var r := Document(Write(l, j, 0));
      (r.Accept? <==> NulFree(j)) && (r.Accept? ==> r.value == j)
  {
    AcceptedText(src);
    RoundTrip(l, Document(src).value);
  }
}
