/** JSON string literals: what they are made of, what they stand for, and where a scan of one stands. */
module JsonPieces {
  import opened Options
  import opened JsonText

  /** What a string literal is made of: a byte standing for itself, a one-letter escape, a \u escape
      outside the surrogate range, or two \u escapes forming a surrogate pair. */
  datatype Piece = Raw(b: byte) | Simple(b: byte) | Unit(cp: nat) | Pair(high: nat, low: nat) {

    ghost predicate Valid() {
      match this
      case Unit(cp) => cp <= 0xFFFF && IsScalar(cp)
      case Pair(high, low) => IsHighSurrogate(high) && IsLowSurrogate(low)
      case _ => true
    }

    /** How many bytes the piece takes in the source text. */
    function Length(): nat {
      match this
      case Raw(_) => 1
      case Simple(_) => 2
      case Unit(_) => 6
      case Pair(_, _) => 12
    }

    /** The bytes the piece stands for. */
    ghost function Text(): Bytes
      requires Valid()
    {
      match this
      case Raw(b) => [b]
      case Simple(b) => [b]
      case Unit(cp) => Utf8(cp)
      case Pair(high, low) => Utf8(Combine(high, low))
    }
  }

  /** The byte meant by the letter after a backslash, `\u` aside. */
  function Unescape(c: byte): Option<byte> {
    if c == QUOTE || c == BACKSLASH || c == SLASH then Some(c)
    else if c == 98 then Some(8)
    else if c == 102 then Some(12)
    else if c == 110 then Some(LF)
    else if c == 114 then Some(CR)
    else if c == 116 then Some(TAB)
    else None
  }

  /** A complete \uXXXX at offset `i`, with at least one byte after it. */
  predicate HasUnit(src: Bytes, i: nat) {
    i + 6 < |src| && src[i] == BACKSLASH && src[i + 1] == LOWER_U && IsHex4(src, i + 2)
  }

  /** The piece starting at offset `i`, if there is a well-formed one. */
  function PieceAt(src: Bytes, i: nat): (p: Option<Piece>)
    requires i < |src| && src[i] != QUOTE
    ensures p.Some? ==> p.value.Valid() && i + p.value.Length() <= |src|
  {
    var b := src[i];
    if b == 0 || b == TAB || b == LF || b == CR then None
    else if b != BACKSLASH then Some(Raw(b))
    else if i + 1 == |src| then None
    else if src[i + 1] != LOWER_U then
      var u := Unescape(src[i + 1]);
      if u.Some? then Some(Simple(u.value)) else None
    else if !HasUnit(src, i) then None
    else
      var cp := Hex4(src, i + 2);
      if IsLowSurrogate(cp) then None
      else if !IsHighSurrogate(cp) then Some(Unit(cp))
      else if HasUnit(src, i + 6) && IsLowSurrogate(Hex4(src, i + 8)) then Some(Pair(cp, Hex4(src, i + 8)))
      else None
  }

  datatype Lexed = Bad | Good(end: nat, pieces: seq<Piece>)

  /** The rest of a string literal from offset `i`, up to and including the closing quote. */
  function Lex(src: Bytes, i: nat): (r: Lexed)
    ensures r.Good? ==> i < r.end <= |src| && AllValid(r.pieces)
    decreases |src| - i
  {
    if i >= |src| then Bad
    else if src[i] == QUOTE then Good(i + 1, [])
    else
      var p := PieceAt(src, i);
      if p.None? then Bad else
      var rest := Lex(src, i + p.value.Length());
      if rest.Bad? then Bad else Good(rest.end, [p.value] + rest.pieces)
  }

  ghost predicate AllValid(pieces: seq<Piece>) {
    forall i :: 0 <= i < |pieces| ==> pieces[i].Valid()
  }

  /** The bytes that a run of pieces takes in the source text. */
  function Span(pieces: seq<Piece>): nat {
    if pieces == [] then 0 else pieces[0].Length() + Span(pieces[1..])
  }

  /** Piece `k` of the run that starts at `i` stands behind the pieces before it. */
  predicate Stands(src: Bytes, i: nat, pieces: seq<Piece>, k: nat)
    requires k < |pieces|
  {
    var at := i + Span(pieces[..k]);
    at < |src| && src[at] != QUOTE && PieceAt(src, at) == Some(pieces[k])
  }

  /** The pieces stand one behind the other from `i` on, and the closing quote right behind them. */
  ghost predicate Spelled(src: Bytes, i: nat, pieces: seq<Piece>, end: nat) {
    && (forall k :: 0 <= k < |pieces| ==> Stands(src, i, pieces, k))
    && end == i + Span(pieces) + 1 && end <= |src| && src[end - 1] == QUOTE
  }

  lemma {:induction false} StandsBehind(src: Bytes, i: nat, pieces: seq<Piece>, k: nat)
    requires k < |pieces| - 1
    ensures Stands(src, i, pieces, k + 1) <==> Stands(src, i + pieces[0].Length(), pieces[1..], k)
  {
    assert pieces[..k + 1][1..] == pieces[1..][..k];
  }

  lemma {:induction false} SpelledCons(src: Bytes, i: nat, pieces: seq<Piece>, end: nat)
    requires pieces != []
    ensures Spelled(src, i, pieces, end) <==>
            Stands(src, i, pieces, 0) && Spelled(src, i + pieces[0].Length(), pieces[1..], end)
  {
    var rest, next := pieces[1..], i + pieces[0].Length();
    if Spelled(src, i, pieces, end) {
      forall k | 0 <= k < |rest|
        ensures Stands(src, next, rest, k)
      {
        StandsBehind(src, i, pieces, k);
      }
    }
    if Stands(src, i, pieces, 0) && Spelled(src, next, rest, end) {
      forall k | 0 <= k < |pieces|
        ensures Stands(src, i, pieces, k)
      {
        if k > 0 {
          StandsBehind(src, i, pieces, k - 1);
        }
      }
    }
  }

  /** A literal is accepted with exactly the pieces that are spelled out from there on. */
  lemma {:induction false} LexSpells(src: Bytes, i: nat, pieces: seq<Piece>, end: nat)
    ensures Lex(src, i) == Good(end, pieces) <==> Spelled(src, i, pieces, end)
    decreases |pieces|
  {
    if pieces != [] {
      SpelledCons(src, i, pieces, end);
      LexSpells(src, i + pieces[0].Length(), pieces[1..], end);
      assert pieces[..0] == [];
      assert [pieces[0]] + pieces[1..] == pieces;
      if Lex(src, i) == Good(end, pieces) {
        var p := PieceAt(src, i).value;
        var rest := Lex(src, i + p.Length());
        assert ([p] + rest.pieces)[0] == p && ([p] + rest.pieces)[1..] == rest.pieces;
      }
    }
  }

  /** The string a literal denotes: what its pieces stand for, in order. */
  ghost function Text(pieces: seq<Piece>): Bytes
    requires AllValid(pieces)
  {
    if pieces == [] then [] else Text(pieces[..|pieces| - 1]) + pieces[|pieces| - 1].Text()
  }

  /** The number of surrogate pairs. */
  ghost function Pairs(pieces: seq<Piece>): nat {
    if pieces == [] then 0 else Pairs(pieces[..|pieces| - 1]) + (if pieces[|pieces| - 1].Pair? then 1 else 0)
  }

  lemma TextSnoc(pieces: seq<Piece>, p: Piece)
    requires AllValid(pieces) && p.Valid()
    ensures AllValid(pieces + [p])
    ensures Text(pieces + [p]) == Text(pieces) + p.Text()
    ensures Pairs(pieces + [p]) == Pairs(pieces) + (if p.Pair? then 1 else 0)
  {
    var all := pieces + [p];
    assert all[..|all| - 1] == pieces;
  }

  /** What is left to scan, after the pieces in `got`. */
  ghost predicate Continues(whole: Lexed, got: seq<Piece>, rest: Lexed) {
    && whole.Good? == rest.Good?
    && (whole.Good? ==> whole.end == rest.end && whole.pieces == got + rest.pieces)
  }

  lemma ContinueWith(src: Bytes, whole: Lexed, got: seq<Piece>, i: nat)
    requires i < |src| && src[i] != QUOTE && Continues(whole, got, Lex(src, i))
    requires PieceAt(src, i).Some?
    ensures Continues(whole, got + [PieceAt(src, i).value], Lex(src, i + PieceAt(src, i).value.Length()))
  {
    var p := PieceAt(src, i).value;
    var rest := Lex(src, i + p.Length());
    if rest.Good? {
      assert got + ([p] + rest.pieces) == (got + [p]) + rest.pieces;
    }
  }

  /** Bytes counted for the pieces in `got`: a pair is counted as five bytes, although it is stored
      in four. */
  ghost function Counted(got: seq<Piece>): nat
    requires AllValid(got)
  {
    |Text(got)| + Pairs(got)
  }

  /** Where the sizing scan stands: all of `got` is behind it, and possibly the first half of a
      surrogate pair. */
  ghost predicate Scanning(src: Bytes, whole: Lexed, got: seq<Piece>, offset: nat, high: nat, dataSize: nat) {
    && offset <= |src|
    && AllValid(got)
    && (high == 0 ==> Continues(whole, got, Lex(src, offset)) && dataSize == Counted(got))
    && (high != 0 ==>
          && 6 <= offset && offset + 6 <= |src| && src[offset] == BACKSLASH && src[offset + 1] == LOWER_U
          && HasUnit(src, offset - 6) && Hex4(src, offset - 4) == high && IsHighSurrogate(high)
          && Continues(whole, got, Lex(src, offset - 6)) && dataSize == Counted(got) + 1)
  }

  /** Where the storing scan stands; it meets the same positions as the sizing scan. */
  ghost predicate Storing(src: Bytes, whole: Lexed, got: seq<Piece>, offset: nat, high: nat) {
    AllValid(got) && Scanning(src, whole, got, offset, high, Counted(got) + if high != 0 then 1 else 0)
  }
}
