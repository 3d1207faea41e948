/** JSON string literals: the sizing scan and the storing scan. */
module JsonString {
  import opened Options
  import opened JsonText
  import opened JsonPieces

  // ---------------------------------------------------------------- the sizing scan

  /** The \u case of the sizing scan; `offset` is at the letter u. */
  method UnitSize(src: Bytes, offset: nat, high: nat) returns (err: bool, high': nat, extra: nat)
    requires 0 < offset < |src| && src[offset - 1] == BACKSLASH && src[offset] == LOWER_U
    requires high != 0 ==> IsHighSurrogate(high)
    ensures !HasUnit(src, offset - 1) ==> err
    ensures HasUnit(src, offset - 1) ==>
      var cp := Hex4(src, offset + 1);
      if high != 0 then err == !IsLowSurrogate(cp) && (!err ==> high' == 0 && extra == 3)
      else if IsHighSurrogate(cp) then
        && err == !(offset + 11 <= |src| && src[offset + 5] == BACKSLASH && src[offset + 6] == LOWER_U)
        && (!err ==> high' == cp && extra == 0)
      else err == IsLowSurrogate(cp) && (!err ==> high' == 0 && extra == |Utf8(cp)| - 1)
  {
    if !(offset + 5 < |src|) {
      return true, high, 0;
    }
    var ok, codepoint := HexadecimalValue(src, offset + 1);
    if !ok {
      return true, high, 0;
    }
    if high != 0 {
      if 0xDC00 <= codepoint <= 0xDFFF {
        return false, 0, 3;
      }
      return true, high, 0;
    } else if codepoint <= 0x7F {
      return false, 0, 0;
    } else if codepoint <= 0x7FF {
      return false, 0, 1;
    } else if 0xD800 <= codepoint <= 0xDBFF {
      if offset + 11 > |src| || BACKSLASH != src[offset + 5] || LOWER_U != src[offset + 6] {
        return true, 0, 0;
      }
      return false, codepoint, 0;
    } else if 0xD800 <= codepoint <= 0xDFFF {
      return true, 0, 0;
    } else {
      return false, 0, 2;
    }
  }

  /** What one round of the sizing loop does with the byte at `offset`: it fails, completes a pair,
      takes in a whole piece, or takes in the first half of a pair. */
  ghost predicate Stepped(src: Bytes, offset: nat, high: nat, err: bool, offset': nat, high': nat, extra: nat)
    requires offset < |src| && src[offset] != QUOTE
  {
    if high != 0 then
      && err == !(HasUnit(src, offset) && IsLowSurrogate(Hex4(src, offset + 2)))
      && (!err ==> offset' == offset + 6 && high' == 0 && extra == 3)
    else
      var p := PieceAt(src, offset);
      if err then p.None?
      else if high' == 0 then
        p.Some? && !p.value.Pair? && offset' == offset + p.value.Length() && extra + 1 == |p.value.Text()|
      else
        && HasUnit(src, offset) && IsHighSurrogate(Hex4(src, offset + 2)) && high' == Hex4(src, offset + 2)
        && offset + 12 <= |src| && src[offset + 6] == BACKSLASH && src[offset + 7] == LOWER_U
        && offset' == offset + 6 && extra == 0
  }

  /** One round of the sizing loop. */
  method ScanStep(src: Bytes, offset: nat, high: nat) returns (err: bool, offset': nat, high': nat, extra: nat)
    requires offset < |src| && src[offset] != QUOTE
    requires high != 0 ==>
      IsHighSurrogate(high) && offset + 1 < |src| && src[offset] == BACKSLASH && src[offset + 1] == LOWER_U
    ensures Stepped(src, offset, high, err, offset', high', extra)
    ensures !err ==> offset < offset' <= |src|
  {
    if src[offset] == 0 || src[offset] == TAB {
      return true, offset, 0, 0;
    }
    if BACKSLASH == src[offset] {
      if offset + 1 == |src| {
        return true, offset, 0, 0;
      }
      if src[offset + 1] == LOWER_U {
        err, high', extra := UnitSize(src, offset + 1, high);
        offset' := offset + 6;
      } else {
        err, offset', high', extra := Unescape(src[offset + 1]).None?, offset + 2, 0, 0;
      }
    } else if CR == src[offset] || LF == src[offset] {
      return true, offset, 0, 0;
    } else {
      return false, offset + 1, 0, 0;
    }
  }

  /** Note the piece at offset `i` as scanned. */
  lemma Advance(src: Bytes, whole: Lexed, got: seq<Piece>, i: nat) returns (got': seq<Piece>)
    requires i < |src| && src[i] != QUOTE && PieceAt(src, i).Some? && AllValid(got)
    requires Continues(whole, got, Lex(src, i))
    ensures AllValid(got')
    ensures
      var p := PieceAt(src, i).value;
      && Continues(whole, got', Lex(src, i + p.Length()))
      && Text(got') == Text(got) + p.Text()
      && Pairs(got') == Pairs(got) + (if p.Pair? then 1 else 0)
  {
    got' := got + [PieceAt(src, i).value];
    ContinueWith(src, whole, got, i);
    TextSnoc(got, PieceAt(src, i).value);
  }

  /** The second half of a pair completes the piece that began six bytes before. */
  lemma {:induction false} PairCompletes(src: Bytes, offset: nat, high: nat)
    requires 6 <= offset && HasUnit(src, offset - 6) && Hex4(src, offset - 4) == high && IsHighSurrogate(high)
    requires HasUnit(src, offset) && IsLowSurrogate(Hex4(src, offset + 2))
    ensures PieceAt(src, offset - 6) == Some(Pair(high, Hex4(src, offset + 2)))
  {}

  lemma {:induction false} ScanLow(src: Bytes, whole: Lexed, got: seq<Piece>, offset: nat, high: nat, dataSize: nat)
    returns (got': seq<Piece>)
    requires high != 0 && Scanning(src, whole, got, offset, high, dataSize)
    requires HasUnit(src, offset) && IsLowSurrogate(Hex4(src, offset + 2))
    ensures Scanning(src, whole, got', offset + 6, 0, dataSize + 4)
  {
    PairCompletes(src, offset, high);
    got' := Advance(src, whole, got, offset - 6);
  }

  lemma {:induction false} ScanPiece(src: Bytes, whole: Lexed, got: seq<Piece>, offset: nat, dataSize: nat)
    returns (got': seq<Piece>)
    requires Scanning(src, whole, got, offset, 0, dataSize)
    requires offset < |src| && src[offset] != QUOTE && PieceAt(src, offset).Some? && !PieceAt(src, offset).value.Pair?
    ensures
      var p := PieceAt(src, offset).value;
      Scanning(src, whole, got', offset + p.Length(), 0, dataSize + |p.Text()|)
  {
    got' := Advance(src, whole, got, offset);
  }

  /** The sizing scan keeps its place. */
  lemma {:induction false} StepKeepsScanning(src: Bytes, whole: Lexed, got: seq<Piece>, offset: nat, high: nat,
                                             dataSize: nat, offset': nat, high': nat, extra: nat)
    returns (got': seq<Piece>)
    requires Scanning(src, whole, got, offset, high, dataSize)
    requires offset < |src| && src[offset] != QUOTE
    requires Stepped(src, offset, high, false, offset', high', extra)
    ensures Scanning(src, whole, got', offset', high', dataSize + 1 + extra)
  {
    if high != 0 {
      got' := ScanLow(src, whole, got, offset, high, dataSize);
    } else if high' == 0 {
      got' := ScanPiece(src, whole, got, offset, dataSize);
    } else {
      got' := got;
    }
  }

  /** A failing round, or the end of the text, means a malformed literal. */
  lemma Stuck(src: Bytes, whole: Lexed, got: seq<Piece>, offset: nat, high: nat, dataSize: nat)
    requires Scanning(src, whole, got, offset, high, dataSize)
    requires offset < |src| ==> src[offset] != QUOTE && Stepped(src, offset, high, true, 0, 0, 0)
    ensures whole.Bad?
  {
    if high != 0 {
      assert PieceAt(src, offset - 6).None?;
    }
  }

  /** The closing quote. */
  lemma Closed(src: Bytes, whole: Lexed, got: seq<Piece>, offset: nat, high: nat, dataSize: nat)
    requires Scanning(src, whole, got, offset, high, dataSize)
    requires offset < |src| && src[offset] == QUOTE
    ensures whole == Good(offset + 1, got) && dataSize == |Text(got)| + Pairs(got)
  {
  }

  /** json_get_string_size: accepts exactly the well-formed literals, and counts the stored bytes,
      one more for every surrogate pair, and the terminating NUL. */
  method StringSize(src: Bytes, start: nat) returns (err: bool, end: nat, dataSize: nat)
    requires start < |src|
    ensures err == (src[start] != QUOTE || Lex(src, start + 1).Bad?)
    ensures !err ==>
      var lexed := Lex(src, start + 1);
      end == lexed.end && dataSize == |Text(lexed.pieces)| + Pairs(lexed.pieces) + 1
  {
    dataSize := 0;
    if QUOTE != src[start] {
      return true, start, 0;
    }
    var offset := start + 1;
    var high := 0;
    ghost var whole := Lex(src, offset);
    ghost var got: seq<Piece> := [];
    while offset < |src| && QUOTE != src[offset]
      invariant Scanning(src, whole, got, offset, high, dataSize)
      decreases |src| - offset
    {
      var bad, offset', high', extra := ScanStep(src, offset, high);
      if bad {
        Stuck(src, whole, got, offset, high, dataSize);
        return true, offset, 0;
      }
      got := StepKeepsScanning(src, whole, got, offset, high, dataSize, offset', high', extra);
      offset, high, dataSize := offset', high', dataSize + 1 + extra;
    }
    if offset == |src| {
      Stuck(src, whole, got, offset, high, dataSize);
      return true, offset, 0;
    }
    Closed(src, whole, got, offset, high, dataSize);
    assert Lex(src, start + 1) == Good(offset + 1, got);
    err, end, dataSize := false, offset + 1, dataSize + 1;
  }

  // ---------------------------------------------------------------- the storing scan

  /** In an accepted literal, the storing scan always finds what it trusts to be there. */
  lemma NeverStuck(src: Bytes, whole: Lexed, got: seq<Piece>, offset: nat, high: nat)
    requires whole.Good? && Storing(src, whole, got, offset, high)
    ensures offset < |src|
    ensures high == 0 && src[offset] != QUOTE ==> PieceAt(src, offset).Some?
    ensures high != 0 ==> HasUnit(src, offset) && IsLowSurrogate(Hex4(src, offset + 2))
  {
    if high != 0 {
      assert PieceAt(src, offset - 6).Some?;
    }
  }

  /** The \u case of the storing loop: what is written for one escape. The first half of a pair
      writes nothing and is remembered. */
  method StoreUnit(codepoint: nat, high: nat) returns (high': nat, out: Bytes)
    requires codepoint <= 0xFFFF && (IsHighSurrogate(high) || (high == 0 && !IsLowSurrogate(codepoint)))
    ensures IsLowSurrogate(codepoint) ==> high' == 0 && out == Utf8(Combine(high, codepoint))
    ensures IsHighSurrogate(codepoint) ==> high' == codepoint && out == []
    ensures IsScalar(codepoint) ==> high' == high && out == Utf8(codepoint)
  {
    high', out := high, [];
    if codepoint <= 0x7F {
      out := [ToChar(codepoint)];
    } else if codepoint <= 0x7FF {
      out := [ToChar(0xC0 + codepoint / 0x40), ToChar(0x80 + codepoint % 0x40)];
    } else if 0xD800 <= codepoint <= 0xDBFF {
      high' := codepoint;
    } else if 0xDC00 <= codepoint <= 0xDFFF {
      PairBytesAreUtf8(high, codepoint);
      out := StoredBytes(RawCombine(high, codepoint));
      high' := 0;
    } else {
      out := [ToChar(0xE0 + codepoint / 0x1000), ToChar(0x80 + codepoint / 0x40 % 0x40),
              ToChar(0x80 + codepoint % 0x40)];
    }
  }

  /** One round of the storing loop: where it goes on, and the bytes it writes. */
  method StoreStep(src: Bytes, start: nat, high: nat) returns (offset: nat, high': nat, out: Bytes)
    requires start < |src| && src[start] != QUOTE
    requires high == 0 ==> PieceAt(src, start).Some?
    requires high != 0 ==> IsHighSurrogate(high) && HasUnit(src, start) && IsLowSurrogate(Hex4(src, start + 2))
    ensures Stored(src, start, high, offset, high', out)
  {
    if BACKSLASH == src[start] {
      var c := src[start + 1];
      if c == LOWER_U {
        var ok, codepoint := HexadecimalValue(src, start + 2);
        high', out := StoreUnit(codepoint, high);
        offset := start + 6;
      } else {
        offset, high', out := start + 2, high, [Unescape(c).value];
      }
    } else {
      offset, high', out := start + 1, high, [src[start]];
    }
  }

  /** Write `out` just behind what has been written. */
  method Put(data: array<byte>, ghost was: Bytes, base: nat, ghost done: Bytes, written: nat, out: Bytes)
    requires written == |done| && base + written + |out| <= |was| == data.Length
    requires Overwritten(was, base, done, data[..])
    modifies data
    ensures Overwritten(was, base, done + out, data[..])
  {
    ghost var before := data[..];
    forall i | 0 <= i < |out| {
      data[base + written + i] := out[i];
    }
    assert data[..] == before[..base + written] + out + before[base + written + |out|..];
    PutExtends(was, base, done, out);
  }

  lemma PutExtends(was: Bytes, base: nat, done: Bytes, out: Bytes)
    requires base + |done| + |out| <= |was|
    ensures
      var now := was[..base] + done + was[base + |done|..];
      now[..base + |done|] + out + now[base + |done| + |out|..]
      == was[..base] + (done + out) + was[base + |done + out|..]
  {
  }

  /** One round of the loop of json_parse_string. */
  method StoreRound(src: Bytes, ghost whole: Lexed, ghost got: seq<Piece>, offset: nat, high: nat,
                    data: array<byte>, ghost was: Bytes, base: nat, written: nat)
    returns (offset': nat, high': nat, written': nat, ghost got': seq<Piece>)
    requires whole.Good? && Storing(src, whole, got, offset, high) && offset < |src| && src[offset] != QUOTE
    requires |was| == data.Length && base + |Text(whole.pieces)| <= data.Length
    requires written == |Text(got)| && Overwritten(was, base, Text(got), data[..])
    modifies data
    ensures offset < offset' < |src| && Storing(src, whole, got', offset', high')
    ensures written' == |Text(got')| && Overwritten(was, base, Text(got'), data[..])
  {
    NeverStuck(src, whole, got, offset, high);
    var out;
    offset', high', out := StoreStep(src, offset, high);
    got' := StoreKeepsScanning(src, whole, got, offset, high, offset', high', out);
    Put(data, was, base, Text(got), written, out);
    written' := written + |out|;
    NeverStuck(src, whole, got', offset', high');
  }

  /** The loop of json_parse_string: stops at the closing quote. */
  method StorePieces(src: Bytes, start: nat, data: array<byte>, base: nat) returns (offset: nat, written: nat)
    requires Lex(src, start).Good? && base + |Text(Lex(src, start).pieces)| <= data.Length
    modifies data
    ensures offset + 1 == Lex(src, start).end && written == |Text(Lex(src, start).pieces)|
    ensures Overwritten(old(data[..]), base, Text(Lex(src, start).pieces), data[..])
  {
    offset, written := start, 0;
    var high := 0;
    ghost var whole := Lex(src, start);
    ghost var got: seq<Piece> := [];
    NeverStuck(src, whole, got, offset, high);
    while QUOTE != src[offset]
      invariant Storing(src, whole, got, offset, high) && offset < |src|
      invariant written == |Text(got)| && Overwritten(old(data[..]), base, Text(got), data[..])
      decreases |src| - offset
    {
      offset, high, written, got := StoreRound(src, whole, got, offset, high, data, old(data[..]), base, written);
    }
    Closed(src, whole, got, offset, high, Counted(got) + if high != 0 then 1 else 0);
  }

  /** json_parse_string: stores what the pieces stand for, in order, then a NUL, and nothing else.
      It needs one byte less than was counted for every surrogate pair. */
  method StoreString(src: Bytes, start: nat, data: array<byte>, base: nat) returns (end: nat, size: nat)
    requires start < |src| && src[start] == QUOTE && Lex(src, start + 1).Good?
    requires base + |Text(Lex(src, start + 1).pieces)| + 1 <= data.Length
    modifies data
    ensures end == Lex(src, start + 1).end && size == |Text(Lex(src, start + 1).pieces)|
    ensures Overwritten(old(data[..]), base, Text(Lex(src, start + 1).pieces) + [0], data[..])
  {
    var offset;
    offset, size := StorePieces(src, start + 1, data, base);
    Put(data, old(data[..]), base, Text(Lex(src, start + 1).pieces), size, [0]);
    end := offset + 1;
  }

  /** What one round of the storing loop does. */
  ghost predicate Stored(src: Bytes, offset: nat, high: nat, offset': nat, high': nat, out: Bytes)
    requires offset < |src| && src[offset] != QUOTE
    requires high == 0 ==> PieceAt(src, offset).Some?
    requires high != 0 ==> IsHighSurrogate(high) && HasUnit(src, offset) && IsLowSurrogate(Hex4(src, offset + 2))
  {
    if high != 0 then
      offset' == offset + 6 && high' == 0 && out == Utf8(Combine(high, Hex4(src, offset + 2)))
    else
      var p := PieceAt(src, offset).value;
      if p.Pair? then offset' == offset + 6 && high' == p.high && out == []
      else offset' == offset + p.Length() && high' == 0 && out == p.Text()
  }

  lemma StoreKeepsScanning(src: Bytes, whole: Lexed, got: seq<Piece>, offset: nat, high: nat, offset': nat,
                           high': nat, out: Bytes)
    returns (got': seq<Piece>)
    requires whole.Good? && Storing(src, whole, got, offset, high)
    requires offset < |src| && src[offset] != QUOTE
    requires high == 0 ==> PieceAt(src, offset).Some?
    requires high != 0 ==> HasUnit(src, offset) && IsLowSurrogate(Hex4(src, offset + 2))
    requires Stored(src, offset, high, offset', high', out)
    ensures Storing(src, whole, got', offset', high')
    ensures Text(got') == Text(got) + out && Text(got') <= Text(whole.pieces)
    ensures offset < offset'
  {
    if high != 0 {
      got' := StoreLow(src, whole, got, offset, high);
    } else if PieceAt(src, offset).value.Pair? {
      StoreHigh(src, whole, got, offset);
      got' := got;
    } else {
      got' := StorePiece(src, whole, got, offset);
    }
    TextPrefix(whole.pieces, got');
  }

  lemma {:induction false} StoreLow(src: Bytes, whole: Lexed, got: seq<Piece>, offset: nat, high: nat)
    returns (got': seq<Piece>)
    requires whole.Good? && high != 0 && Storing(src, whole, got, offset, high)
    requires HasUnit(src, offset) && IsLowSurrogate(Hex4(src, offset + 2))
    ensures Storing(src, whole, got', offset + 6, 0) && got' <= whole.pieces
    ensures Text(got') == Text(got) + Utf8(Combine(high, Hex4(src, offset + 2)))
  {
    PairCompletes(src, offset, high);
    got' := Advance(src, whole, got, offset - 6);
  }

  lemma StorePiece(src: Bytes, whole: Lexed, got: seq<Piece>, offset: nat) returns (got': seq<Piece>)
    requires whole.Good? && Storing(src, whole, got, offset, 0)
    requires offset < |src| && src[offset] != QUOTE && PieceAt(src, offset).Some? && !PieceAt(src, offset).value.Pair?
    ensures Storing(src, whole, got', offset + PieceAt(src, offset).value.Length(), 0) && got' <= whole.pieces
    ensures Text(got') == Text(got) + PieceAt(src, offset).value.Text()
  {
    got' := Advance(src, whole, got, offset);
  }

  lemma StoreHigh(src: Bytes, whole: Lexed, got: seq<Piece>, offset: nat)
    requires whole.Good? && Storing(src, whole, got, offset, 0)
    requires offset < |src| && src[offset] != QUOTE && PieceAt(src, offset).Some? && PieceAt(src, offset).value.Pair?
    ensures Storing(src, whole, got, offset + 6, PieceAt(src, offset).value.high) && got <= whole.pieces
  {
    assert HasUnit(src, offset) && HasUnit(src, offset + 6);
  }

  /** The text of the first pieces is the start of the text. */
  lemma {:induction false} TextPrefix(pieces: seq<Piece>, got: seq<Piece>)
    requires AllValid(pieces) && got <= pieces
    ensures AllValid(got) && Text(got) <= Text(pieces)
    decreases |pieces|
  {
    if |got| < |pieces| {
      TextPrefix(pieces[..|pieces| - 1], got);
    } else {
      assert got == pieces;
    }
  }
}
