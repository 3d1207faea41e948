/** JSON numbers: the grammar of section 6 of RFC 8259. */
module JsonLexeme {
  import opened JsonText

  ghost predicate Digits(s: Bytes) {
    forall b <- s :: IsDigit(b)
  }

  ghost predicate IsInt(s: Bytes) {
    s == [ZERO] || (|s| > 0 && s[0] != ZERO && Digits(s))
  }

  ghost predicate IsFrac(s: Bytes) {
    s == [] || (|s| >= 2 && s[0] == DOT && Digits(s[1..]))
  }

  ghost predicate IsExp(s: Bytes) {
    || s == []
    || (|s| >= 2 && IsE(s[0]) && IsDigit(s[1]) && Digits(s[1..]))
    || (|s| >= 3 && IsE(s[0]) && IsPlusMinus(s[1]) && Digits(s[2..]))
  }

  predicate IsE(b: byte) {
    b == LOWER_E || b == UPPER_E
  }

  predicate IsPlusMinus(b: byte) {
    b == MINUS || b == PLUS
  }

  /** `n` splits at `a`, `b`, `c` into an optional minus, an integer, a fraction and an exponent. */
  ghost predicate Parts(n: Bytes, a: nat, b: nat, c: nat) {
    && a <= b <= c <= |n|
    && (n[..a] == [] || n[..a] == [MINUS])
    && IsInt(n[a..b])
    && IsFrac(n[b..c])
    && IsExp(n[c..])
  }

  ghost predicate IsLexeme(n: Bytes) {
    exists a: nat, b: nat, c: nat :: Parts(n, a, b, c)
  }

  /** The parts of a number, by their offsets in the text. */
  ghost predicate PartsAt(src: Bytes, i: nat, p: nat, q: nat, r: nat, j: nat) {
    && i <= p <= q <= r <= j <= |src|
    && (src[i..p] == [] || src[i..p] == [MINUS])
    && IsInt(src[p..q])
    && IsFrac(src[q..r])
    && IsExp(src[r..j])
  }
}
