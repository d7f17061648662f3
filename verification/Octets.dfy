/**
 The character tables of the HTTP parser. A byte of the C source is a `char` below 256;
 every function is total on `char`, so the theorems also cover characters that are no byte.
 */
module Octets {

  const CR := '\r'
  const LF := '\n'
  const NUL := '\0'

  predicate IsDigit(c: char) { '0' <= c <= '9' }

  function DigitOf(c: char): (d: nat)
    requires IsDigit(c)
    ensures d <= 9
  {
    (c as int) - ('0' as int)
  }

  /** The characters with a non-zero entry in the `tokens` table; a space is one of them. */
  predicate IsTokenChar(c: char) {
    || ' ' <= c <= '\'' || '*' <= c <= '+' || '-' <= c <= '9'
    || 'A' <= c <= 'Z' || '^' <= c <= 'z' || '|' <= c <= '~'
  }

  function ToLower(c: char): char {
    if 'A' <= c <= 'Z' then (c as int + 32) as char else c
  }

  /** The `tokens` table: NUL for a character that may not occur in a token, else its lower case. */
  function Token(c: char): char {
    if IsTokenChar(c) then ToLower(c) else NUL
  }

  /** `LOWER(c)`: bit 5 of the byte set, which is a lower-casing only for letters. */
  function OrBit5(c: char): char {
    if (c as int) < 256 && (c as int / 32) % 2 == 0 then (c as int + 32) as char else c
  }

  /** `OrBit5` agrees with `ToLower` on everything the value matchers compare with. */
  lemma OrBit5IsLowerCase(c: char, target: char)
    requires 'a' <= target <= 'z' || target == '-'
    requires c != CR
    ensures OrBit5(c) == target <==> ToLower(c) == target
  {
    var n := c as int;
    if n < 256 && (n / 32) % 2 == 0 {
      var q := n / 32;
      assert 0 <= q < 8 && q % 2 == 0 && 32 * q <= n < 32 * q + 32;
      assert q == 0 || q == 2 || q == 4 || q == 6;
    }
  }

  /** The `unhex` table. It has only 128 initialisers, so the other 128 entries are 0, not -1. */
  function Unhex(c: char): int {
    if IsDigit(c) then c as int - '0' as int
    else if 'A' <= c <= 'F' then c as int - 'A' as int + 10
    else if 'a' <= c <= 'f' then c as int - 'a' as int + 10
    else if c as int >= 128 then 0
    else -1
  }

  /** C string indexing: the terminating NUL is at index |s|. */
  function CharAt(s: string, i: nat): char {
    if i < |s| then s[i] else NUL
  }

  function Lowered(s: string): (r: string)
    ensures |r| == |s|
    ensures forall i :: 0 <= i < |s| ==> r[i] == ToLower(s[i])
  {
    seq(|s|, i requires 0 <= i < |s| => ToLower(s[i]))
  }

  /** `s` is `word` followed by spaces only. */
  predicate IsPadded(word: string, s: string) {
    && |word| <= |s|
    && s[..|word|] == word
    && forall i :: |word| <= i < |s| ==> s[i] == ' '
  }

  predicate AllDigits(s: string) {
    forall i :: 0 <= i < |s| ==> IsDigit(s[i])
  }

  /** The number written by a string of decimal digits. */
  function DecimalValue(s: string): nat
    requires AllDigits(s)
  {
    if s == [] then 0 else 10 * DecimalValue(s[..|s|-1]) + DigitOf(s[|s|-1])
  }

  lemma DecimalSnoc(s: string, ch: char)
    requires AllDigits(s) && IsDigit(ch)
    ensures AllDigits(s + [ch]) && DecimalValue(s + [ch]) == 10 * DecimalValue(s) + DigitOf(ch)
  {
    assert (s + [ch])[..|s|] == s;
  }

  /** What the parser takes for a digit of a chunk size. */
  predicate IsSizeDigit(c: char) { Unhex(c) != -1 }

  predicate AllHex(s: string) {
    forall i :: 0 <= i < |s| ==> IsSizeDigit(s[i])
  }

  /** The number written by a string of such digits. */
  function HexValue(s: string): nat
    requires AllHex(s)
  {
    if s == [] then 0 else 16 * HexValue(s[..|s|-1]) + Unhex(s[|s|-1])
  }

  lemma HexSnoc(s: string, ch: char)
    requires AllHex(s) && IsSizeDigit(ch)
    ensures AllHex(s + [ch]) && HexValue(s + [ch]) == 16 * HexValue(s) + Unhex(ch)
  {
    assert (s + [ch])[..|s|] == s;
  }
}
