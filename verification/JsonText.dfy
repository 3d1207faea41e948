/** JSON text as bytes: character classes, whitespace, hexadecimal escapes and UTF-8. */
module JsonText {
  import Words

  type byte = b: int | 0 <= b < 256
  type Bytes = seq<byte>

  const TAB: byte := 9
  const LF: byte := 10
  const CR: byte := 13
  const SPACE: byte := 32
  const QUOTE: byte := 34
  const PLUS: byte := 43
  const COMMA: byte := 44
  const MINUS: byte := 45
  const DOT: byte := 46
  const SLASH: byte := 47
  const ZERO: byte := 48
  const NINE: byte := 57
  const COLON: byte := 58
  const UPPER_E: byte := 69
  const LBRACKET: byte := 91
  const BACKSLASH: byte := 92
  const RBRACKET: byte := 93
  const LOWER_E: byte := 101
  const LOWER_U: byte := 117
  const LBRACE: byte := 123
  const RBRACE: byte := 125

  const TRUE_TEXT: Bytes := [116, 114, 117, 101]
  const FALSE_TEXT: Bytes := [102, 97, 108, 115, 101]
  const NULL_TEXT: Bytes := [110, 117, 108, 108]

  /** `w` occurs in `src` at offset `i`. */
  predicate Occurs(src: Bytes, i: nat, w: Bytes) {
    i + |w| <= |src| && forall k :: 0 <= k < |w| ==> src[i + k] == w[k]
  }

  /** `now` is `was` with `done` written over it from index `base` on. */
  ghost predicate Overwritten(was: Bytes, base: nat, done: Bytes, now: Bytes) {
    base + |done| <= |was| && now == was[..base] + done + was[base + |done|..]
  }

  // ---------------------------------------------------------------- whitespace

  predicate IsWhitespace(b: byte) {
    b == SPACE || b == CR || b == TAB || b == LF
  }

  /** The first offset at or after `i` that does not hold whitespace. */
  function SkipSpace(src: Bytes, i: nat): (j: nat)
    requires i <= |src|
    ensures i <= j <= |src|
    ensures j < |src| ==> !IsWhitespace(src[j])
    decreases |src| - i
  {
    if i < |src| && IsWhitespace(src[i]) then SkipSpace(src, i + 1) else i
  }

  /** What is skipped is whitespace. */
  lemma {:induction false} Skipped(src: Bytes, i: nat)
    requires i <= |src|
    ensures forall k :: i <= k < SkipSpace(src, i) ==> IsWhitespace(src[k])
    decreases |src| - i
  {
    if i < |src| && IsWhitespace(src[i]) {
      Skipped(src, i + 1);
    }
  }

  /** Skipping past a known run of whitespace. */
  lemma {:induction false} SkipOver(src: Bytes, i: nat, j: nat)
    requires i <= j <= |src|
    requires forall k :: i <= k < j ==> IsWhitespace(src[k])
    ensures SkipSpace(src, i) == SkipSpace(src, j)
    decreases j - i
  {
    if i < j {
      SkipOver(src, i + 1, j);
    }
  }

  // ---------------------------------------------------------------- hexadecimal

  predicate IsDigit(b: byte) {
    ZERO <= b <= NINE
  }

  /** json_hexadecimal_digit; a byte that is no digit gives -1. */
  function HexDigit(b: byte): (d: int)
    ensures -1 <= d <= 15
  {
    if ZERO <= b <= NINE then b - ZERO
    else if 97 <= b <= 102 then b - 97 + 10
    else if 65 <= b <= 70 then b - 65 + 10
    else -1
  }

  const HEX_LOWER: Bytes := [48, 49, 50, 51, 52, 53, 54, 55, 56, 57, 97, 98, 99, 100, 101, 102]
  const HEX_UPPER: Bytes := [48, 49, 50, 51, 52, 53, 54, 55, 56, 57, 65, 66, 67, 68, 69, 70]

  /** The value of a digit is its place among the sixteen, in either case. */
  lemma HexDigitPlace(b: byte, d: nat)
    requires d < 16
    ensures HexDigit(b) == d <==> b == HEX_LOWER[d] || b == HEX_UPPER[d]
  {}

  lemma HexDigitMissing(b: byte)
    ensures HexDigit(b) == -1 <==> b !in HEX_LOWER && b !in HEX_UPPER
  {
    if HexDigit(b) >= 0 {
      HexDigitPlace(b, HexDigit(b));
    }
  }

  predicate IsHex4(src: Bytes, i: nat) {
    i + 4 <= |src| && forall k :: i <= k < i + 4 ==> HexDigit(src[k]) >= 0
  }

  function Hex4(src: Bytes, i: nat): (v: nat)
    requires IsHex4(src, i)
    ensures v <= 0xFFFF
  {
    HexDigit(src[i]) * 0x1000 + HexDigit(src[i + 1]) * 0x100 + HexDigit(src[i + 2]) * 0x10 + HexDigit(src[i + 3])
  }

  /** json_hexadecimal_value on four digits. */
  method HexadecimalValue(src: Bytes, i: nat) returns (ok: bool, result: nat)
    requires i + 4 <= |src|
    ensures ok == IsHex4(src, i)
    ensures ok ==> result == Hex4(src, i)
  {
    result := 0;
    for p := 0 to 4
      invariant forall k :: i <= k < i + p ==> HexDigit(src[k]) >= 0
      invariant p == 1 ==> result == HexDigit(src[i])
      invariant p == 2 ==> result == HexDigit(src[i]) * 0x10 + HexDigit(src[i + 1])
      invariant p == 3 ==> result == HexDigit(src[i]) * 0x100 + HexDigit(src[i + 1]) * 0x10 + HexDigit(src[i + 2])
      invariant p == 4 ==> IsHex4(src, i) && result == Hex4(src, i)
      invariant p == 0 ==> result == 0
    {
      var digit := HexDigit(src[i + p]);
      if digit < 0 {
        return false, result;
      }
      result := result * 16 + digit;
    }
    ok := true;
  }

  // ---------------------------------------------------------------- UTF-8

  predicate IsHighSurrogate(u: nat) {
    0xD800 <= u <= 0xDBFF
  }

  predicate IsLowSurrogate(u: nat) {
    0xDC00 <= u <= 0xDFFF
  }

  /** A Unicode scalar value: a code point that is not a surrogate. */
  predicate IsScalar(cp: nat) {
    cp <= 0x10FFFF && !IsHighSurrogate(cp) && !IsLowSurrogate(cp)
  }

  /** The UTF-8 form of a code point, section 3 of RFC 3629. */
  function Utf8(cp: nat): (s: Bytes)
    requires cp <= 0x10FFFF
  {
    if cp <= 0x7F then [cp]
    else if cp <= 0x7FF then [0xC0 + cp / 0x40, 0x80 + cp % 0x40]
    else if cp <= 0xFFFF then [0xE0 + cp / 0x1000, 0x80 + cp / 0x40 % 0x40, 0x80 + cp % 0x40]
    else [0xF0 + cp / 0x40000, 0x80 + cp / 0x1000 % 0x40, 0x80 + cp / 0x40 % 0x40, 0x80 + cp % 0x40]
  }

  /** Reading UTF-8 back: the lead byte gives the length and the high bits. */
  function FromUtf8(s: seq<int>): int
    requires |s| > 0
  {
    if s[0] < 0x80 then s[0]
    else if s[0] < 0xE0 && |s| == 2 then (s[0] - 0xC0) * 0x40 + (s[1] - 0x80)
    else if s[0] < 0xF0 && |s| == 3 then (s[0] - 0xE0) * 0x1000 + (s[1] - 0x80) * 0x40 + (s[2] - 0x80)
    else if |s| == 4 then (s[0] - 0xF0) * 0x40000 + (s[1] - 0x80) * 0x1000 + (s[2] - 0x80) * 0x40 + (s[3] - 0x80)
    else -1
  }

  /** The six-bit digits of a number. */
  lemma SixBitDigits(x: nat)
    ensures x == x / 0x40 * 0x40 + x % 0x40
    ensures x / 0x40 == x / 0x1000 * 0x40 + x / 0x40 % 0x40
    ensures x / 0x1000 == x / 0x40000 * 0x40 + x / 0x1000 % 0x40
  {
  }

  lemma Utf8RoundTrip(cp: nat)
    requires cp <= 0x10FFFF
    ensures FromUtf8(Utf8(cp)) == cp
  {
    SixBitDigits(cp);
  }

  /** The code point of a surrogate pair, section 7 of RFC 8259. */
  function Combine(high: nat, low: nat): (cp: nat)
    requires IsHighSurrogate(high) && IsLowSurrogate(low)
    ensures 0x10000 <= cp <= 0x10FFFF
  {
    0x10000 + (high - 0xD800) * 0x400 + (low - 0xDC00)
  }

  /** The offset the parser adds to a pair. It is computed in 32-bit unsigned arithmetic, where it
      wraps, and only then widened to 64 bits. */
  const SURROGATE_OFFSET: nat := (0x10000 - 0xD800 * 0x400 - 0xDC00) % Words.W32

  /** The "code point" the parser works with: 64-bit, so the wrap of the offset is not undone. */
  function RawCombine(high: nat, low: nat): nat {
    (high * 0x400 + low + SURROGATE_OFFSET) % Words.W64
  }

  /** A conversion to char keeps the low eight bits. */
  function ToChar(x: nat): byte {
    x % 0x100
  }

  /** The four bytes the parser stores for a combined pair. The operands of each bitwise or have
      no bit in common, so it is a sum. */
  function StoredBytes(cp: nat): Bytes {
    [ToChar(0xF0 + cp / 0x40000), ToChar(0x80 + cp / 0x1000 % 0x40), ToChar(0x80 + cp / 0x40 % 0x40),
     ToChar(0x80 + cp % 0x40)]
  }

  lemma StoredBytesAreUtf8(cp: nat)
    requires 0x10000 <= cp <= 0x10FFFF
    ensures StoredBytes(cp + Words.W32) == Utf8(cp)
  {
    AddWord(cp);
    LowBits(cp / 0x40000, cp / 0x1000 % 0x40);
    LowBits(0, cp / 0x40 % 0x40);
    LowBits(0, cp % 0x40);
  }

  lemma LowBits(lead: nat, digit: nat)
    requires lead <= 4 && digit < 0x40
    ensures ToChar(0xF0 + (lead + 0x4000)) == 0xF0 + lead && ToChar(0x80 + digit) == 0x80 + digit
  {
  }

  lemma OffByOneWord(high: nat, low: nat)
    requires IsHighSurrogate(high) && IsLowSurrogate(low)
    ensures RawCombine(high, low) == Combine(high, low) + Words.W32
  {
  }

  /** The parser's value is off by exactly 2^32, and the four bytes do not see it. */
  lemma PairBytesAreUtf8(high: nat, low: nat)
    requires IsHighSurrogate(high) && IsLowSurrogate(low)
    ensures RawCombine(high, low) == Combine(high, low) + Words.W32
    ensures StoredBytes(RawCombine(high, low)) == Utf8(Combine(high, low))
  {
    OffByOneWord(high, low);
    StoredBytesAreUtf8(Combine(high, low));
  }

  lemma AddWord(cp: nat)
    ensures (cp + Words.W32) / 0x40000 == cp / 0x40000 + 0x4000
    ensures (cp + Words.W32) / 0x1000 == cp / 0x1000 + 0x100000
    ensures (cp + Words.W32) / 0x40 == cp / 0x40 + 0x4000000
    ensures (cp + Words.W32) % 0x40 == cp % 0x40
    ensures (cp / 0x1000 + 0x100000) % 0x40 == cp / 0x1000 % 0x40
    ensures (cp / 0x40 + 0x4000000) % 0x40 == cp / 0x40 % 0x40
  {
  }
}
