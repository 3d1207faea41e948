/** JSON numbers: the sizing scan and the copying scan, and what they accept. */
module JsonNumber {
  import opened Options
  import opened JsonText
  import opened JsonString
  import opened JsonLexeme

  // ---------------------------------------------------------------- the sizing scan, as a function

  predicate IsDelimiter(b: byte) {
    IsWhitespace(b) || b == RBRACE || b == COMMA || b == RBRACKET
  }

  function SkipDigits(src: Bytes, i: nat): (j: nat)
    requires i <= |src|
    ensures i <= j <= |src|
    ensures forall k :: i <= k < j ==> IsDigit(src[k])
    ensures j < |src| ==> !IsDigit(src[j])
    decreases |src| - i
  {
    if i < |src| && IsDigit(src[i]) then SkipDigits(src, i + 1) else i
  }

  /** After an optional minus, which a digit must follow unless the text ends there. */
  function AfterSign(src: Bytes, i: nat): (r: Option<nat>)
    requires i <= |src|
    ensures r.Some? ==> i <= r.value <= |src|
  {
    if i < |src| && src[i] == MINUS then
      if i + 1 < |src| && !IsDigit(src[i + 1]) then None else Some(i + 1)
    else Some(i)
  }

  /** After the integer part: a leading zero stands alone. */
  function AfterInt(src: Bytes, i: nat): (r: Option<nat>)
    requires i <= |src|
    ensures r.Some? ==> i <= r.value <= |src|
  {
    if i < |src| && src[i] == ZERO then
      if i + 1 < |src| && IsDigit(src[i + 1]) then None else Some(i + 1)
    else Some(SkipDigits(src, i))
  }

  /** After an optional fraction. A point at the very end makes the scan read past the text. */
  function AfterFrac(src: Bytes, i: nat): (r: Option<nat>)
    requires i <= |src|
    ensures r.Some? ==> i <= r.value <= |src|
  {
    if i < |src| && src[i] == DOT then
      if i + 1 == |src| || !IsDigit(src[i + 1]) then None else Some(SkipDigits(src, i + 1))
    else Some(i)
  }

  /** After an optional exponent. An exponent without a digit at the very end makes the scan step
      past the text. */
  function AfterExp(src: Bytes, i: nat): (r: Option<nat>)
    requires i <= |src|
    ensures r.Some? ==> i <= r.value <= |src|
  {
    if i < |src| && IsE(src[i]) then
      var k := if i + 1 < |src| && IsPlusMinus(src[i + 1]) then i + 2 else i + 1;
      if k == |src| || !IsDigit(src[k]) then None else Some(SkipDigits(src, k + 1))
    else Some(i)
  }

  /** Where the number starting at `i` ends, if the sizing scan accepts it. */
  function NumberEnd(src: Bytes, i: nat): (r: Option<nat>)
    requires i <= |src|
    ensures r.Some? ==> i <= r.value <= |src|
  {
    var a := AfterSign(src, i);
    if a.None? then None else
    var b := AfterInt(src, a.value);
    if b.None? then None else
    var c := AfterFrac(src, b.value);
    if c.None? then None else
    var d := AfterExp(src, c.value);
    if d.None? || (d.value < |src| && !IsDelimiter(src[d.value])) then None else d
  }

  // ---------------------------------------------------------------- what the scan accepts

  lemma {:induction false} SkipDigitsOver(src: Bytes, i: nat, j: nat)
    requires i <= j <= |src| && Digits(src[i..j]) && (j < |src| ==> !IsDigit(src[j]))
    ensures SkipDigits(src, i) == j
    decreases j - i
  {
    if i < j {
      assert src[i] == src[i..j][0];
      assert src[i + 1..j] == src[i..j][1..];
      SkipDigitsOver(src, i + 1, j);
    }
  }

  lemma IntScanned(src: Bytes, p: nat, q: nat)
    requires p <= q <= |src| && IsInt(src[p..q]) && (q < |src| ==> !IsDigit(src[q]))
    ensures AfterInt(src, p) == Some(q)
  {
    assert src[p..q][0] == src[p];
    if src[p..q] != [ZERO] {
      SkipDigitsOver(src, p, q);
    }
  }

  lemma FracScanned(src: Bytes, q: nat, r: nat)
    requires q <= r <= |src| && IsFrac(src[q..r]) && (r < |src| ==> !IsDigit(src[r]) && src[r] != DOT)
    ensures AfterFrac(src, q) == Some(r)
  {
    if q < r {
      assert src[q..r][0] == src[q] && src[q..r][1..] == src[q + 1..r];
      assert src[q + 1..r][0] == src[q + 1];
      SkipDigitsOver(src, q + 1, r);
    }
  }

  lemma ExpScanned(src: Bytes, r: nat, j: nat)
    requires r <= j <= |src| && IsExp(src[r..j]) && (j < |src| ==> IsDelimiter(src[j]))
    ensures AfterExp(src, r) == Some(j)
  {
    if r < j {
      var k := if IsDigit(src[r..j][1]) then r + 1 else r + 2;
      assert src[r..j][0] == src[r] && src[r..j][1] == src[r + 1];
      assert src[r..j][1..] == src[r + 1..j] && src[r..j][2..] == src[r + 2..j];
      assert src[k..j][0] == src[k] && src[k + 1..j] == src[k..j][1..];
      SkipDigitsOver(src, k + 1, j);
    }
  }

  /** The first byte of each part tells it from a digit, a point and an exponent letter. */
  lemma PartStarts(src: Bytes, q: nat, r: nat, j: nat)
    requires q <= r <= j <= |src| && IsFrac(src[q..r]) && IsExp(src[r..j]) && (j < |src| ==> IsDelimiter(src[j]))
    ensures q < |src| ==> !IsDigit(src[q])
    ensures r < |src| ==> !IsDigit(src[r]) && src[r] != DOT
  {
    if r < j {
      assert src[r..j][0] == src[r];
    }
    if q < r {
      assert src[q..r][0] == src[q];
    }
  }

  lemma {:induction false} SliceOfSlice(src: Bytes, i: nat, j: nat, a: nat, b: nat)
    requires i <= j <= |src| && a <= b <= j - i
    ensures src[i..j][a..b] == src[i + a..i + b]
  {
    var x, y := src[i..j][a..b], src[i + a..i + b];
    assert |x| == |y|;
    forall k | 0 <= k < |x|
      ensures x[k] == y[k]
    {
      assert x[k] == src[i..j][a + k];
    }
  }

  lemma SignScanned(src: Bytes, i: nat, p: nat, q: nat)
    requires i <= p <= q <= |src| && IsInt(src[p..q]) && (src[i..p] == [] || src[i..p] == [MINUS])
    ensures AfterSign(src, i) == Some(p)
  {
    assert src[p..q][0] == src[p];
    assert src[p] in src[p..q] && IsDigit(src[p]);
    if i < p {
      assert src[i..p][0] == src[i] && |src[i..p]| == p - i;
    } else {
      assert p == i;
    }
  }

  lemma {:induction false} PartsByOffset(src: Bytes, i: nat, j: nat, a: nat, b: nat, c: nat)
    requires i <= j <= |src| && a <= b <= c <= j - i
    ensures Parts(src[i..j], a, b, c) == PartsAt(src, i, i + a, i + b, i + c, j)
  {
    var n := src[i..j];
    assert n[..a] == src[i..i + a] by { SliceOfSlice(src, i, j, 0, a); assert n[..a] == n[0..a]; }
    assert n[a..b] == src[i + a..i + b] by { SliceOfSlice(src, i, j, a, b); }
    assert n[b..c] == src[i + b..i + c] by { SliceOfSlice(src, i, j, b, c); }
    assert n[c..] == src[i + c..j] by { SliceOfSlice(src, i, j, c, |n|); assert n[c..] == n[c..|n|]; }
  }

  lemma {:induction false} PartsAreScanned(src: Bytes, i: nat, p: nat, q: nat, r: nat, j: nat)
    requires PartsAt(src, i, p, q, r, j) && (j < |src| ==> IsDelimiter(src[j]))
    ensures NumberEnd(src, i) == Some(j)
  {
    SignScanned(src, i, p, q);
    PartStarts(src, q, r, j);
    IntScanned(src, p, q);
    FracScanned(src, q, r);
    ExpScanned(src, r, j);
  }

  /** A lexeme followed by the end of the text or a delimiter is scanned whole. */
  lemma LexemeIsScanned(src: Bytes, i: nat, j: nat)
    requires i <= j <= |src| && IsLexeme(src[i..j]) && (j < |src| ==> IsDelimiter(src[j]))
    ensures NumberEnd(src, i) == Some(j)
  {
    var a: nat, b: nat, c: nat :| Parts(src[i..j], a, b, c);
    PartsByOffset(src, i, j, a, b, c);
    PartsAreScanned(src, i, i + a, i + b, i + c, j);
  }

  lemma {:induction false} ScannedInt(src: Bytes, p: nat)
    requires p < |src| && IsDigit(src[p]) && AfterInt(src, p).Some?
    ensures IsInt(src[p..AfterInt(src, p).value])
  {
    assert src[p..AfterInt(src, p).value][0] == src[p];
  }

  lemma {:induction false} ScannedFrac(src: Bytes, q: nat)
    requires q <= |src| && AfterFrac(src, q).Some?
    ensures IsFrac(src[q..AfterFrac(src, q).value])
  {
    var r := AfterFrac(src, q).value;
    if r > q {
      assert src[q..r][1..] == src[q + 1..r];
    }
  }

  lemma {:induction false} ScannedExp(src: Bytes, r: nat)
    requires r <= |src| && AfterExp(src, r).Some?
    ensures IsExp(src[r..AfterExp(src, r).value])
  {
    var j := AfterExp(src, r).value;
    if j > r {
      assert src[r..j][1..] == src[r + 1..j] && src[r..j][2..] == src[r + 2..j];
    }
  }

  lemma {:induction false} LexemeFromParts(src: Bytes, i: nat, p: nat, q: nat, r: nat, j: nat)
    requires PartsAt(src, i, p, q, r, j)
    ensures IsLexeme(src[i..j])
  {
    PartsByOffset(src, i, j, p - i, q - i, r - i);
    Witnessed(src[i..j], p - i, q - i, r - i);
  }

  lemma {:induction false} Witnessed(n: Bytes, a: nat, b: nat, c: nat)
    requires Parts(n, a, b, c)
    ensures IsLexeme(n)
  {}

  lemma {:induction false} ScannedIsLexeme(src: Bytes, i: nat)
    requires i < |src| && (src[i] == MINUS || IsDigit(src[i])) && NumberEnd(src, i).Some?
    ensures
      var j := NumberEnd(src, i).value;
      IsLexeme(src[i..j]) || (src[i..j] == [MINUS] && j == |src|)
  {
    var p := AfterSign(src, i).value;
    var j := NumberEnd(src, i).value;
    if p < |src| {
      var q := AfterInt(src, p).value;
      var r := AfterFrac(src, q).value;
      ScannedInt(src, p);
      ScannedFrac(src, q);
      ScannedExp(src, r);
      LexemeFromParts(src, i, p, q, r, j);
    } else {
      assert src[i..j] == [MINUS];
    }
  }

  /** The sizing scan accepts exactly the numbers of the grammar, when the text ends or a delimiter
      follows, with one exception: a lone minus at the very end of the text. */
  lemma ScanAcceptsLexemes(src: Bytes, i: nat, j: nat)
    requires i < |src| && (src[i] == MINUS || IsDigit(src[i]))
    ensures NumberEnd(src, i) == Some(j) <==>
            && i <= j <= |src|
            && (j < |src| ==> IsDelimiter(src[j]))
            && (IsLexeme(src[i..j]) || (src[i..j] == [MINUS] && j == |src|))
  {
    if NumberEnd(src, i) == Some(j) {
      ScannedIsLexeme(src, i);
    } else if i <= j <= |src| && (j < |src| ==> IsDelimiter(src[j])) {
      if IsLexeme(src[i..j]) {
        LexemeIsScanned(src, i, j);
      } else if src[i..j] == [MINUS] && j == |src| {
        LoneMinus(src, i);
      }
    }
  }

  lemma LoneMinus(src: Bytes, i: nat)
    requires i < |src| && src[i..] == [MINUS]
    ensures NumberEnd(src, i) == Some(|src|)
  {
    assert src[i] == src[i..][0];
    assert |src| == i + 1;
  }

  // ---------------------------------------------------------------- the two passes

  method DigitsFrom(src: Bytes, start: nat) returns (offset: nat)
    requires start <= |src|
    ensures offset == SkipDigits(src, start)
  {
    offset := start;
    while offset < |src| && IsDigit(src[offset])
      invariant start <= offset <= |src| && SkipDigits(src, offset) == SkipDigits(src, start)
    {
      offset := offset + 1;
    }
  }

  /** The four stages of json_get_number_size. */
  method ScanSign(src: Bytes, start: nat) returns (err: bool, offset: nat)
    requires start <= |src|
    ensures AfterSign(src, start) == if err then None else Some(offset)
  {
    offset := start;
    var foundSign := false;
    if offset < |src| && MINUS == src[offset] {
      offset := offset + 1;
      foundSign := true;
    }
    err := foundSign && offset < |src| && !IsDigit(src[offset]);
  }

  method ScanInt(src: Bytes, start: nat) returns (err: bool, offset: nat)
    requires start <= |src|
    ensures AfterInt(src, start) == if err then None else Some(offset)
  {
    offset := start;
    if offset < |src| && ZERO == src[offset] {
      offset := offset + 1;
      if offset < |src| && IsDigit(src[offset]) {
        return true, offset;
      }
    }
    offset := DigitsFrom(src, offset);
    err := false;
  }

  method ScanFrac(src: Bytes, start: nat) returns (err: bool, offset: nat)
    requires start <= |src|
    ensures AfterFrac(src, start) == if err then None else Some(offset)
  {
    offset := start;
    if offset < |src| && DOT == src[offset] {
      offset := offset + 1;
      if offset == |src| || !IsDigit(src[offset]) {
        return true, offset;
      }
      offset := DigitsFrom(src, offset);
    }
    err := false;
  }

  method ScanExp(src: Bytes, start: nat) returns (err: bool, offset: nat)
    requires start <= |src|
    ensures AfterExp(src, start) == if err then None else Some(offset)
  {
    offset := start;
    if offset < |src| && IsE(src[offset]) {
      offset := offset + 1;
      if offset < |src| && IsPlusMinus(src[offset]) {
        offset := offset + 1;
      }
      if offset == |src| || !IsDigit(src[offset]) {
        return true, offset;
      }
      offset := DigitsFrom(src, offset + 1);
    }
    err := false;
  }

  /** json_get_number_size: counts the bytes of the number and its terminating NUL. */
  method NumberSize(src: Bytes, start: nat) returns (err: bool, end: nat, dataSize: nat)
    requires start < |src|
    ensures err == NumberEnd(src, start).None?
    ensures !err ==> end == NumberEnd(src, start).value && dataSize == end - start + 1
  {
    dataSize := 0;
    err, end := ScanSign(src, start);
    if err { return; }
    err, end := ScanInt(src, end);
    if err { return; }
    err, end := ScanFrac(src, end);
    if err { return; }
    err, end := ScanExp(src, end);
    if err { return; }
    if end < |src| && !IsDelimiter(src[end]) {
      err := true;
      return;
    }
    dataSize := end - start + 1;
  }

  /** The bytes the copying pass takes for part of a number. */
  predicate IsNumberByte(b: byte) {
    IsDigit(b) || b == DOT || IsE(b) || IsPlusMinus(b)
  }

  /** The copying pass, which only looks at the class of each byte, stops where the sizing pass did. */
  lemma NumberBytes(src: Bytes, i: nat)
    requires i <= |src| && NumberEnd(src, i).Some?
    ensures forall k :: i <= k < NumberEnd(src, i).value ==> IsNumberByte(src[k])
    ensures NumberEnd(src, i).value < |src| ==> !IsNumberByte(src[NumberEnd(src, i).value])
  {
  }

  /** The loop of json_parse_number: copies number bytes up to `stop`. */
  method CopyNumber(src: Bytes, start: nat, ghost stop: nat, data: array<byte>, base: nat)
    returns (offset: nat, size: nat)
    requires start <= stop <= |src| && base + (stop - start) <= data.Length
    requires forall k :: start <= k < stop ==> IsNumberByte(src[k])
    requires stop < |src| ==> !IsNumberByte(src[stop])
    modifies data
    ensures offset == stop && size == stop - start
    ensures Overwritten(old(data[..]), base, src[start..stop], data[..])
  {
    offset, size := start, 0;
    while offset < |src| && IsNumberByte(src[offset])
      invariant start <= offset <= stop && size == offset - start
      invariant Overwritten(old(data[..]), base, src[start..offset], data[..])
    {
      Put(data, old(data[..]), base, src[start..offset], size, [src[offset]]);
      assert src[start..offset] + [src[offset]] == src[start..offset + 1];
      offset, size := offset + 1, size + 1;
    }
  }

  /** json_parse_number: copies the number, then a NUL, and nothing else. */
  method StoreNumber(src: Bytes, start: nat, data: array<byte>, base: nat) returns (end: nat, size: nat)
    requires start <= |src| && NumberEnd(src, start).Some?
    requires base + (NumberEnd(src, start).value - start) + 1 <= data.Length
    modifies data
    ensures end == NumberEnd(src, start).value && size == end - start
    ensures Overwritten(old(data[..]), base, src[start..end] + [0], data[..])
  {
    NumberBytes(src, start);
    end, size := CopyNumber(src, start, NumberEnd(src, start).value, data, base);
    Put(data, old(data[..]), base, src[start..end], size, [0]);
  }
}
