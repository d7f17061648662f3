/**
 Digits and letters by the alphabets that they are taken from, and numbers as they are written: by
 repeated division.
 */
module Numerals {
  import opened Octets

  const DIGITS: string := "0123456789"
  const HEX_LETTERS: string := "abcdef"
  const HEX_CAPITALS: string := "ABCDEF"
  const HEX_DIGITS: string := "0123456789abcdef"
  const LETTERS: string := "abcdefghijklmnopqrstuvwxyz"
  const CAPITALS: string := "ABCDEFGHIJKLMNOPQRSTUVWXYZ"
  const SEPARATORS: string := "()<>@,;:\\\"/[]?={}"

  // ----- single characters

  lemma DigitIs(k: nat)
    requires k < 10
    ensures IsDigit(DIGITS[k]) && DigitOf(DIGITS[k]) == k
  {}

  /** The digit of worth k in base 16, in small and in capital letters. */
  lemma HexDigitIs(k: nat)
    requires k < 16
    ensures |HEX_DIGITS| == 16 && IsSizeDigit(HEX_DIGITS[k]) && Unhex(HEX_DIGITS[k]) == k
    ensures k >= 10 ==> IsSizeDigit(HEX_CAPITALS[k - 10]) && Unhex(HEX_CAPITALS[k - 10]) == k
    ensures k >= 10 ==> HEX_LETTERS[k - 10] == HEX_DIGITS[k]
  {}

  lemma {:induction false} InDigits(c: char)
    ensures IsDigit(c) <==> c in DIGITS
  {
    if IsDigit(c) {
      assert DIGITS[DigitOf(c)] == c;
    }
  }

  lemma InHexLetters(c: char)
    ensures 'a' <= c <= 'f' <==> c in HEX_LETTERS
    ensures 'A' <= c <= 'F' <==> c in HEX_CAPITALS
  {
    if 'a' <= c <= 'f' {
      assert HEX_LETTERS[c as int - 97] == c;
    }
    if 'A' <= c <= 'F' {
      assert HEX_CAPITALS[c as int - 65] == c;
    }
  }

  /** Nothing else is a digit, except that every byte from 128 on counts as one of worth 0. */
  lemma NoHexDigit(c: char)
    requires c !in DIGITS && c !in HEX_LETTERS && c !in HEX_CAPITALS
    ensures Unhex(c) == if c as int >= 128 then 0 else -1
  {
    InDigits(c);
    InHexLetters(c);
  }

  /** Capitals become the letters in their places; every other character stays. */
  lemma LowerCase(c: char)
    ensures forall k :: 0 <= k < 26 && CAPITALS[k] == c ==> ToLower(c) == LETTERS[k]
    ensures c !in CAPITALS ==> ToLower(c) == c
  {
    forall k | 0 <= k < 26
      ensures CAPITALS[k] == 'A' + k as char && LETTERS[k] == 'a' + k as char
    {
      LettersAt(k);
    }
    if 'A' <= c <= 'Z' {
      assert CAPITALS[c as int - 65] == c;
    }
  }

  lemma LettersAt(k: nat)
    requires k < 26
    ensures CAPITALS[k] == 'A' + k as char && LETTERS[k] == 'a' + k as char
  {}

  /** The characters of a name: those of section 2.2 of RFC 2616, and four of its separators. */
  lemma TokenChars(c: char)
    ensures IsTokenChar(c) <==>
      (' ' < c < 127 as char && c !in SEPARATORS) || c == ' ' || c == '\"' || c == '/' || c == '}'
  {
    assert SEPARATORS == ['(', ')', '<', '>', '@', ',', ';', ':', '\\', '\"', '/', '[', ']', '?', '=', '{', '}'];
    assert forall i :: 0 <= i < 17 ==> SEPARATORS[i] in SEPARATORS;
  }

  // ----- numbers

  /** A number in base 10. */
  function DecimalText(n: nat): (s: string)
    ensures s != []
  {
    (if n < 10 then [] else DecimalText(n / 10)) + [DIGITS[n % 10]]
  }

  /** A number in base 16. */
  function HexText(n: nat): (s: string)
    ensures s != []
  {
    (if n < 16 then [] else HexText(n / 16)) + [HEX_DIGITS[n % 16]]
  }

  lemma {:induction false} DecimalReads(n: nat)
    ensures AllDigits(DecimalText(n)) && DecimalValue(DecimalText(n)) == n
    ensures n != 0 ==> DecimalText(n)[0] != '0'
  {
    hide DecimalValue;
    DigitIs(n % 10);
    if n < 10 {
      DecimalSnoc([], DIGITS[n]);
      NoDecimal();
      DigitIs(0);
      assert [] + [DIGITS[n]] == DecimalText(n);
    } else {
      DecimalReads(n / 10);
      DecimalSnoc(DecimalText(n / 10), DIGITS[n % 10]);
    }
  }

  lemma NoDecimal()
    ensures AllDigits([]) && DecimalValue([]) == 0
  {}

  lemma {:induction false} HexReads(n: nat)
    ensures AllHex(HexText(n)) && HexValue(HexText(n)) == n
  {
    hide HexValue, Unhex;
    HexDigitIs(n % 16);
    if n < 16 {
      HexSnoc([], HEX_DIGITS[n]);
      NoHexText();
      assert [] + [HEX_DIGITS[n]] == HexText(n);
    } else {
      HexReads(n / 16);
      HexSnoc(HexText(n / 16), HEX_DIGITS[n % 16]);
    }
  }

  lemma NoHexText()
    ensures AllHex([]) && HexValue([]) == 0
  {}

  function Power(k: nat): nat { if k == 0 then 1 else 10 * Power(k - 1) }

  /** A number below a power of ten has no more digits than that. */
  lemma {:induction false} DecimalFits(n: nat, k: nat)
    requires 0 < k && n < Power(k)
    ensures |DecimalText(n)| <= k
    decreases k
  {
    if n >= 10 {
      assert k > 1;
      DecimalFits(n / 10, k - 1);
    }
  }

  lemma DecimalShort(n: nat)
    requires n < 1000
    ensures |DecimalText(n)| <= 3
  {
    assert Power(3) == 1000;
    DecimalFits(n, 3);
  }

  /** Every length that the source's 64-bit integer can hold. */
  lemma DecimalLong(n: nat)
    requires n < 0x8000_0000_0000_0000
    ensures |DecimalText(n)| <= 19
  {
    assert Power(10) == 10000000000;
    assert Power(19) == 10000000000000000000;
    DecimalFits(n, 19);
  }
}
