/**
 The Base64 decoder: a loop that writes every byte in two steps and looks ahead so as not to write
 past the last one; and the encoding of section 4 of RFC 4648 that it inverts.
 */
module Base64 {

  type octet = x: int | 0 <= x < 256

  const BASE64_PAD: char := '='
  const BASE64DE_FIRST: char := '+'
  const BASE64DE_LAST: char := 'z'

  /** The decoding table, from '+' to 'z'; -1 stands for a character that is not a digit. */
  function Table(k: int): int {
    match k
    case 0 => 62 case 1 => -1 case 2 => -1 case 3 => -1 case 4 => 63 case 5 => 52 case 6 => 53 case 7 => 54
    case 8 => 55 case 9 => 56 case 10 => 57 case 11 => 58 case 12 => 59 case 13 => 60 case 14 => 61 case 15 => -1
    case 16 => -1 case 17 => -1 case 18 => -1 case 19 => -1 case 20 => -1 case 21 => -1 case 22 => 0 case 23 => 1
    case 24 => 2 case 25 => 3 case 26 => 4 case 27 => 5 case 28 => 6 case 29 => 7 case 30 => 8 case 31 => 9
    case 32 => 10 case 33 => 11 case 34 => 12 case 35 => 13 case 36 => 14 case 37 => 15 case 38 => 16 case 39 => 17
    case 40 => 18 case 41 => 19 case 42 => 20 case 43 => 21 case 44 => 22 case 45 => 23 case 46 => 24 case 47 => 25
    case 48 => -1 case 49 => -1 case 50 => -1 case 51 => -1 case 52 => -1 case 53 => -1 case 54 => 26 case 55 => 27
    case 56 => 28 case 57 => 29 case 58 => 30 case 59 => 31 case 60 => 32 case 61 => 33 case 62 => 34 case 63 => 35
    case 64 => 36 case 65 => 37 case 66 => 38 case 67 => 39 case 68 => 40 case 69 => 41 case 70 => 42 case 71 => 43
    case 72 => 44 case 73 => 45 case 74 => 46 case 75 => 47 case 76 => 48 case 77 => 49 case 78 => 50 case 79 => 51
    case _ => -1
  }

  /** The value of a digit, or -1. */
  function Digit(c: char): (d: int)
    ensures -1 <= d < 64
  {
    if c < BASE64DE_FIRST || c > BASE64DE_LAST then -1 else Table(c as int - BASE64DE_FIRST as int)
  }

  // ----- what is decoded

  /** How many characters precede the first one that is not a digit. */
  function Stop(s: string, i: nat := 0): (k: nat)
    requires i <= |s|
    ensures i <= k <= |s| && forall n :: i <= n < k ==> Digit(s[n]) >= 0
    ensures k < |s| ==> Digit(s[k]) < 0
    decreases |s| - i
  {
    if i == |s| || Digit(s[i]) < 0 then i else Stop(s, i + 1)
  }

  /** Only the end or a padding character may stop the digits. */
  predicate Accepted(s: string) { Stop(s) == |s| || s[Stop(s)] == BASE64_PAD }

  /** Whole bytes in `k` digits. */
  function Size(k: nat): nat { 3 * (k / 4) + (if k % 4 == 0 then 0 else k % 4 - 1) }

  /** The first of the two digits that byte n is spread over. */
  function First(n: nat): nat { n / 3 * 4 + n % 3 }

  type sextet = x: int | 0 <= x < 64

  /** A byte: the low bits of one digit and the high bits of the next; which, depends on the place. */
  function Join(place: nat, a: sextet, b: sextet): octet {
    if place == 0 then a * 4 + b / 16 else if place == 1 then a % 16 * 16 + b / 4 else a % 4 * 64 + b
  }

  function ByteAt(s: string, n: nat): octet
    requires First(n) + 1 < |s| && Digit(s[First(n)]) >= 0 && Digit(s[First(n) + 1]) >= 0
  {
    Join(n % 3, Digit(s[First(n)]), Digit(s[First(n) + 1]))
  }

  lemma FirstInside(k: nat, n: nat)
    requires n < Size(k)
    ensures First(n) + 1 < k
  {}

  function Decoded(s: string): (x: seq<octet>)
    ensures |x| == if Accepted(s) then Size(Stop(s)) else 0
  {
    if Accepted(s) then
      seq(Size(Stop(s)), n requires 0 <= n < Size(Stop(s)) => FirstInside(Stop(s), n); ByteAt(s, n))
    else []
  }

  // ----- texts and their letters

  /** Table 1 of RFC 4648. */
  const UPPER: string := "ABCDEFGHIJKLMNOPQRSTUVWXYZ"
  const LOWER: string := "abcdefghijklmnopqrstuvwxyz"
  const OTHER: string := "0123456789+/"
  const ALPHABET: string := UPPER + LOWER + OTHER

  /** The characters before the first padding character. */
  function BeforePad(s: string, i: nat := 0): (t: string)
    requires i <= |s|
    ensures i + |t| <= |s| && t == s[i..i + |t|]
    ensures '=' !in t && (i + |t| < |s| ==> s[i + |t|] == '=')
    decreases |s| - i
  {
    if i == |s| || s[i] == '=' then [] else [s[i]] + BeforePad(s, i + 1)
  }

  /** All of them are letters. */
  predicate Lettered(s: string) { forall i :: 0 <= i < |BeforePad(s)| ==> BeforePad(s)[i] in ALPHABET }

  lemma UpperHas(d: nat)
    requires d < 26
    ensures UPPER[d] == 'A' + d as char
  {}

  lemma LowerHas(d: nat)
    requires d < 26
    ensures LOWER[d] == 'a' + d as char
  {}

  lemma LetterHas(d: sextet)
    ensures |ALPHABET| == 64 && ALPHABET[d] == Letter(d)
  {
    if d < 26 {
      UpperHas(d);
    } else if d < 52 {
      LowerHas(d - 26);
    }
  }

  lemma DigitIsLetter(c: char)
    ensures Digit(c) >= 0 <==> c in ALPHABET
    ensures Digit(c) >= 0 ==> ALPHABET[Digit(c)] == c
  {
    hide Digit, Letter;
    if Digit(c) >= 0 {
      DigitLetter(c);
      LetterHas(Digit(c));
    }
    if c in ALPHABET {
      var i :| 0 <= i < |ALPHABET| && ALPHABET[i] == c;
      LetterHas(i);
      LetterDigit(i);
    }
  }

  /** A text is accepted exactly if all characters before the first padding character are letters. */
  lemma AcceptedIsLettered(s: string)
    ensures Accepted(s) <==> Lettered(s)
    ensures Lettered(s) ==> Stop(s) == |BeforePad(s)|
  {
    hide Digit, ALPHABET;
    var t, k := BeforePad(s), Stop(s);
    PadStops();
    forall i | 0 <= i < |s|
      ensures Digit(s[i]) >= 0 <==> s[i] in ALPHABET
    {
      DigitIsLetter(s[i]);
    }
    assert k < |t| ==> t[k] == s[k];
  }

  lemma SizeIsBits(k: nat)
    ensures Size(k) == 6 * k / 8
  {}

  /** How many bytes are decoded, from the text alone. */
  lemma DecodedSize(s: string)
    ensures |Decoded(s)| == if Lettered(s) then 6 * |BeforePad(s)| / 8 else 0
  {
    hide Accepted, Lettered, Size;
    AcceptedIsLettered(s);
    SizeIsBits(Stop(s));
  }

  /** The number that a letter stands for. */
  ghost predicate Worth(c: char, v: nat) { v < 64 && ALPHABET[v] == c }

  /** Four letters are a number in base 64, and three bytes are the same number in base 256; of a last
   group that is not full, the low bits are dropped. */
  lemma DecodedValue(s: string, g: nat, a: nat, b: nat, c: nat, d: nat)
    requires Lettered(s) && 4 * g + 2 <= |BeforePad(s)|
    requires Worth(s[4 * g], a) && Worth(s[4 * g + 1], b)
    requires 4 * g + 2 < |BeforePad(s)| ==> Worth(s[4 * g + 2], c)
    requires 4 * g + 3 < |BeforePad(s)| ==> Worth(s[4 * g + 3], d)
    ensures var x, k := Decoded(s), |BeforePad(s)|;
      && (k >= 4 * g + 4 ==>
            65536 * OrZero(x, 3 * g) + 256 * OrZero(x, 3 * g + 1) + OrZero(x, 3 * g + 2)
            == 262144 * a + 4096 * b + 64 * c + d)
      && (k == 4 * g + 3 ==> 256 * OrZero(x, 3 * g) + OrZero(x, 3 * g + 1) == (4096 * a + 64 * b + c) / 4)
      && (k == 4 * g + 2 ==> OrZero(x, 3 * g) == (64 * a + b) / 16)
  {
    hide *;
    AcceptedIsLettered(s);
    var k := Stop(s);
    DigitWorth(s[4 * g], a);
    DigitWorth(s[4 * g + 1], b);
    ByteOf(s, g, 0);
    if k > 4 * g + 2 {
      DigitWorth(s[4 * g + 2], c);
      ByteOf(s, g, 1);
      if k > 4 * g + 3 {
        DigitWorth(s[4 * g + 3], d);
        ByteOf(s, g, 2);
        JoinedValue(a, b, c, d);
      } else {
        JoinedValue(a, b, c, 0);
      }
    } else {
      JoinedValue(a, b, 0, 0);
    }
  }

  lemma ByteOf(s: string, g: nat, m: nat)
    requires Accepted(s) && m < 3 && 4 * g + m + 1 < Stop(s)
    ensures OrZero(Decoded(s), 3 * g + m) == Join(m, Digit(s[4 * g + m]), Digit(s[4 * g + m + 1]))
  {
    hide Digit, Join, Decoded;
    DecodedByte(s, g, m);
  }

  lemma DigitWorth(c: char, v: nat)
    requires Worth(c, v)
    ensures v < 64 && Digit(c) == v
  {
    hide Digit, Letter;
    LetterHas(v);
    LetterDigit(v);
  }

  lemma JoinedValue(a: sextet, b: sextet, c: sextet, d: sextet)
    ensures Join(0, a, b) == (64 * a + b) / 16
    ensures 256 * Join(0, a, b) + Join(1, b, c) == (4096 * a + 64 * b + c) / 4
    ensures 65536 * Join(0, a, b) + 256 * Join(1, b, c) + Join(2, c, d) == 262144 * a + 4096 * b + 64 * c + d
  {}

  // ----- the decoder

  /** Subtraction of C's unsigned int. */
  function Minus(a: nat, b: nat): nat { (a - b) % 0x1_0000_0000 }

  lemma StopAt(s: string, i: nat)
    requires i < |s| && i <= Stop(s)
    ensures if Digit(s[i]) < 0 then Stop(s) == i else i + 1 <= Stop(s)
  {
    hide Digit;
  }

  lemma PadStops()
    ensures Digit(BASE64_PAD) == -1
  {}

  /** What the byte under way holds before digit i, of the digit `a` before it, unless padding follows. */
  predicate Begun(s: string, i: nat, a: sextet, b: octet)
    requires i <= |s|
  {
    (i % 4 == 1 ==> b == a * 4)
    && (i % 4 == 2 && i < |s| && s[i] != BASE64_PAD ==> b == a % 16 * 16)
    && (i % 4 == 3 && i < |s| && s[i] != BASE64_PAD ==> b == a % 4 * 64)
  }

  /** Nothing is begun: there is no digit left over, or it is followed by nothing but padding. */
  predicate Spared(s: string, i: nat)
    requires i <= |s|
  {
    i % 4 == 0
    || (i % 4 == 2 && i + 2 == |s| && s[i] == BASE64_PAD)
    || (i % 4 == 3 && i + 1 == |s| && s[i] == BASE64_PAD)
  }

  lemma SizeRoom(n: nat, i: nat, room: nat)
    requires i < n && 3 * n <= 4 * room
    ensures Size(i) < room && ((i + 1) % 4 != 0 ==> Size(i + 1) < room)
    ensures Size(i + 1) <= room && (i % 4 == 0 ==> Size(i + 1) == Size(i))
  {}

  lemma FirstAt(i: nat)
    requires i % 4 != 0
    ensures Size(i + 1) == Size(i) + 1 && First(Size(i)) + 1 == i && Size(i) % 3 == i % 4 - 1
  {}

  /** The test after the second digit of a group finds out whether only padding follows. */
  lemma LookAheadTwo(s: string, i: nat)
    requires i < |s| < 0x1_0000_0000 && i % 4 == 1 && s[i] != BASE64_PAD && s[i - 1] != BASE64_PAD
    ensures i < Minus(|s|, 3) || s[|s| - 2] != BASE64_PAD <==> !Spared(s, i + 1)
  {
    hide Minus;
    Wraps(|s|, i, 3);
  }

  /** So does the test after the third. */
  lemma LookAheadOne(s: string, i: nat)
    requires i < |s| < 0x1_0000_0000 && i % 4 == 2 && s[i] != BASE64_PAD
    ensures i < Minus(|s|, 2) || s[|s| - 1] != BASE64_PAD <==> !Spared(s, i + 1)
  {
    hide Minus;
    Wraps(|s|, i, 2);
  }

  /** A byte that is spared need not have been begun. */
  lemma SparedBegun(s: string, i: nat, c: sextet, b: octet)
    requires i <= |s| && Spared(s, i)
    ensures Begun(s, i, c, b)
  {}

  /** The first digit of a group begins a byte. */
  method PutFirst(j: nat, c: sextet, out: array<octet>)
    requires j < out.Length
    modifies out
    ensures out[j] == c * 4
    ensures forall n :: 0 <= n < out.Length && n != j ==> out[n] == old(out[n])
  {
    Small(c);
    out[j] := c * 4 % 0x100;
  }

  /** The second completes it, and begins the next unless that is spared. */
  method PutSecond(s: string, i: nat, j: nat, ghost a: sextet, c: sextet, out: array<octet>)
    requires i < |s| < 0x1_0000_0000 && i % 4 == 1 && s[i] != BASE64_PAD && s[i - 1] != BASE64_PAD
    requires j + 1 < out.Length && out[j] == a * 4
    modifies out
    ensures out[j] == Join(0, a, c)
    ensures out[j + 1] == if Spared(s, i + 1) then old(out[j + 1]) else c % 16 * 16
    ensures forall n :: 0 <= n < out.Length && n != j && n != j + 1 ==> out[n] == old(out[n])
  {
    hide Join, Minus, Spared;
    Sum(0, a, c);
    LookAheadTwo(s, i);
    out[j] := (out[j] + c / 16 % 4) % 0x100;
    if i < Minus(|s|, 3) || s[|s| - 2] != BASE64_PAD {
      out[j + 1] := c % 16 * 16;
    }
  }

  /** The third does the same for the next byte. */
  method PutThird(s: string, i: nat, j: nat, ghost a: sextet, c: sextet, out: array<octet>)
    requires i < |s| < 0x1_0000_0000 && i % 4 == 2 && s[i] != BASE64_PAD
    requires j + 1 < out.Length && out[j] == a % 16 * 16
    modifies out
    ensures out[j] == Join(1, a, c)
    ensures out[j + 1] == if Spared(s, i + 1) then old(out[j + 1]) else c % 4 * 64
    ensures forall n :: 0 <= n < out.Length && n != j && n != j + 1 ==> out[n] == old(out[n])
  {
    hide Join, Minus, Spared;
    Sum(1, a, c);
    LookAheadOne(s, i);
    out[j] := (out[j] + c / 4 % 16) % 0x100;
    if i < Minus(|s|, 2) || s[|s| - 1] != BASE64_PAD {
      out[j + 1] := c % 4 * 64;
    }
  }

  /** The fourth completes the last byte of the group. */
  method PutFourth(j: nat, ghost a: sextet, c: sextet, out: array<octet>)
    requires j < out.Length && out[j] == a % 4 * 64
    modifies out
    ensures out[j] == Join(2, a, c)
    ensures forall n :: 0 <= n < out.Length && n != j ==> out[n] == old(out[n])
  {
    hide Join;
    Sum(2, a, c);
    out[j] := (out[j] + c) % 0x100;
  }

  /** The value of the byte under way before digit i, of the digit `a` before it. */
  function UnderWay(i: nat, a: sextet): octet {
    if i % 4 == 1 then a * 4 else if i % 4 == 2 then a % 16 * 16 else a % 4 * 64
  }

  lemma BegunIs(s: string, i: nat, a: sextet, b: octet)
    requires i <= |s| && i % 4 != 0
    ensures i < |s| && s[i] != BASE64_PAD && Begun(s, i, a, b) ==> b == UnderWay(i, a)
    ensures i % 4 == 1 && Begun(s, i, a, b) ==> b == UnderWay(i, a)
    ensures b == UnderWay(i, a) ==> Begun(s, i, a, b)
  {}

  lemma SparedPlaces(s: string, i: nat)
    requires i <= |s|
    ensures i % 4 == 0 ==> Spared(s, i)
    ensures i % 4 == 1 ==> !Spared(s, i)
  {}

  /** Digit i: completes a byte, begins one, or both. `a` is the digit before it. */
  method Put(s: string, i: nat, j0: nat, ghost a: sextet, c: sextet, out: array<octet>) returns (j: nat)
    requires i < |s| < 0x1_0000_0000 && 3 * |s| <= 4 * out.Length && j0 == Size(i) < out.Length
    requires s[i] != BASE64_PAD && (i % 4 != 0 ==> s[i - 1] != BASE64_PAD && Begun(s, i, a, out[j0]))
    modifies out
    ensures j == if i % 4 == 0 then j0 else j0 + 1
    ensures i % 4 != 0 ==> out[j0] == Join(i % 4 - 1, a, c)
    ensures (i + 1) % 4 != 0 ==> j < out.Length && Begun(s, i + 1, c, out[j])
    ensures forall n :: 0 <= n < out.Length && n != j0 && n != j ==> out[n] == old(out[n])
    ensures i % 4 == 0 ==> !Spared(s, i + 1)
    ensures Spared(s, i + 1) && j < out.Length ==> out[j] == old(out[j])
  {
    hide Size, Join, Begun, Spared;
    SizeRoom(|s|, i, out.Length);
    SparedPlaces(s, i + 1);
    if i % 4 != 0 {
      FirstAt(i);
      BegunIs(s, i, a, out[j0]);
    }
    j := j0;
    if i % 4 == 0 {
      PutFirst(j, c, out);
    } else if i % 4 == 1 {
      PutSecond(s, i, j, a, c, out);
      j := j + 1;
    } else if i % 4 == 2 {
      PutThird(s, i, j, a, c, out);
      j := j + 1;
    } else {
      PutFourth(j, a, c, out);
      j := j + 1;
    }
    if (i + 1) % 4 != 0 {
      BegunIs(s, i + 1, c, out[j]);
      if Spared(s, i + 1) {
        SparedBegun(s, i + 1, c, out[j]);
      }
    }
  }

  lemma Small(c: sextet)
    ensures c * 4 % 0x100 == c * 4
  {}

  /** The parts of a byte do not overlap, so adding them does not carry. */
  lemma Sum(place: nat, a: sextet, c: sextet)
    requires place < 3
    ensures Join(place, a, c)
      == if place == 0 then (a * 4 + c / 16 % 4) % 0x100
         else if place == 1 then (a % 16 * 16 + c / 4 % 16) % 0x100
         else (a % 4 * 64 + c) % 0x100
  {}

  /** The subtraction wraps for short strings, and then the comparison holds. */
  lemma Wraps(n: nat, i: nat, b: nat)
    requires i < n < 0x1_0000_0000 && 0 < b <= 3
    ensures i < Minus(n, b) <==> n < b || i < n - b
  {}

  /** Decodes into `out` and returns the number of bytes, or 0 if a character is not allowed. */
  method Decode(s: string, out: array<octet>) returns (r: nat)
    requires |s| < 0x1_0000_0000 && 3 * |s| <= 4 * out.Length
    modifies out
    ensures r == |Decoded(s)| && out[..r] == Decoded(s)
    ensures r == if Lettered(s) then 6 * |BeforePad(s)| / 8 else 0
    ensures forall n :: Size(Stop(s)) < n < out.Length ==> out[n] == old(out[n])
    ensures Spared(s, Stop(s)) && Size(Stop(s)) < out.Length ==> out[Size(Stop(s))] == old(out[Size(Stop(s))])
  {
    hide Digit, First, Begun, Spared, Join, Size, Lettered;
    DecodedSize(s);
    SizeStart();
    var i, j := 0, 0;
    ghost var a: sextet := 0;
    while i < |s|
      invariant i <= Stop(s) && j == Size(i) && j <= out.Length
      invariant forall n :: 0 <= n < j ==> First(n) + 1 < i
      invariant forall n :: 0 <= n < j ==> n < out.Length && out[n] == ByteAt(s, n)
      invariant i % 4 != 0 ==> j < out.Length && 0 <= a < 64
      invariant i % 4 != 0 ==> a == Digit(s[i - 1]) && s[i - 1] != BASE64_PAD && Begun(s, i, a, out[j])
      invariant forall n :: j < n < out.Length ==> out[n] == old(out[n])
      invariant Spared(s, i) && j < out.Length ==> out[j] == old(out[j])
    {
      StopAt(s, i);
      if s[i] == BASE64_PAD {
        PadStops();
        Whole(s, out[..j]);
        return j;
      }
      var c := Digit(s[i]);
      if c == -1 {
        return 0;
      }
      SizeRoom(|s|, i, out.Length);
      if i % 4 != 0 {
        FirstAt(i);
      }
      j := Put(s, i, j, a, c, out);
      i := i + 1;
      a := c;
    }
    Whole(s, out[..j]);
    return j;
  }

  lemma Whole(s: string, bytes: seq<octet>)
    requires Accepted(s) && |bytes| == Size(Stop(s))
    requires forall n :: 0 <= n < |bytes| ==> First(n) + 1 < Stop(s) && bytes[n] == ByteAt(s, n)
    ensures bytes == Decoded(s)
  {
    hide Digit, ByteAt, First, Size;
  }

  lemma SizeStart()
    ensures Size(0) == 0
  {}

  // ----- the encoding

  /** The alphabet of RFC 4648, table 1. */
  function Letter(d: sextet): char {
    if d < 26 then 'A' + d as char
    else if d < 52 then 'a' + (d - 26) as char
    else if d < 62 then '0' + (d - 52) as char
    else if d == 62 then '+' else '/'
  }

  lemma LetterDigit(d: sextet)
    ensures Digit(Letter(d)) == d
  {}

  lemma DigitLetter(c: char)
    requires Digit(c) >= 0
    ensures Letter(Digit(c)) == c
  {}

  /** Byte i, or zero bits past the end. */
  function OrZero(x: seq<octet>, i: nat): octet { if i < |x| then x[i] else 0 }

  /** Six bits out of the stream of bytes: sextet p. */
  function SextetAt(x: seq<octet>, p: nat): sextet {
    var g := p / 4 * 3;
    if p % 4 == 0 then OrZero(x, g) / 4
    else if p % 4 == 1 then OrZero(x, g) % 4 * 16 + OrZero(x, g + 1) / 16
    else if p % 4 == 2 then OrZero(x, g + 1) % 16 * 4 + OrZero(x, g + 2) / 64
    else OrZero(x, g + 2) % 64
  }

  /** Digits needed for n bytes. */
  function Digits(n: nat): nat { 4 * (n / 3) + (if n % 3 == 0 then 0 else n % 3 + 1) }

  function Padding(n: nat): string { if n % 3 == 0 then "" else if n % 3 == 1 then "==" else "=" }

  function Encode(x: seq<octet>): (s: string)
    ensures |s| == Digits(|x|) + |Padding(|x|)|
  {
    seq(Digits(|x|), p requires 0 <= p < Digits(|x|) => Letter(SextetAt(x, p))) + Padding(|x|)
  }

  lemma SizeOfDigits(n: nat)
    ensures Size(Digits(n)) == n && (Digits(n) + |Padding(n)|) % 4 == 0 && Digits(n) % 4 != 1
  {}

  lemma StopIs(s: string, k: nat)
    requires k <= |s| && (forall n :: 0 <= n < k ==> Digit(s[n]) >= 0) && (k < |s| ==> Digit(s[k]) < 0)
    ensures Stop(s) == k
  {
    hide Digit;
  }

  lemma EncodedDigit(x: seq<octet>, p: nat)
    requires p < Digits(|x|)
    ensures Digit(Encode(x)[p]) == SextetAt(x, p)
  {
    hide Digit, Letter, SextetAt;
    LetterDigit(SextetAt(x, p));
  }

  lemma EncodedStop(x: seq<octet>)
    ensures Stop(Encode(x)) == Digits(|x|) && Accepted(Encode(x)) && Spared(Encode(x), Digits(|x|))
  {
    hide Digit, SextetAt, Letter, Stop, Encode;
    var e, k := Encode(x), Digits(|x|);
    EncodedEnd(x);
    forall n | 0 <= n < k
      ensures Digit(e[n]) >= 0
    {
      EncodedDigit(x, n);
    }
    PadStops();
    assert k < |e| ==> e[k] == e[k..][0];
    StopIs(e, k);
    EncodedSpared(x);
  }

  lemma EncodedSpared(x: seq<octet>)
    ensures Spared(Encode(x), Digits(|x|))
    ensures Digits(|x|) < |Encode(x)| ==> Encode(x)[Digits(|x|)] == BASE64_PAD
  {
    hide Encode, Digits, Spared;
    EncodedEnd(x);
    PaddedSpared(Encode(x), |x|);
  }

  lemma PaddedSpared(e: string, n: nat)
    requires |e| == Digits(n) + |Padding(n)| && e[Digits(n)..] == Padding(n)
    ensures Spared(e, Digits(n)) && (Digits(n) < |e| ==> e[Digits(n)] == BASE64_PAD)
  {
    DigitsLeft(n);
    hide Digits;
    var k := Digits(n);
    assert k < |e| ==> e[k] == e[k..][0];
  }

  lemma DigitsLeft(n: nat)
    ensures Digits(n) % 4 == if n % 3 == 0 then 0 else n % 3 + 1
  {}

  lemma Place(g: nat, m: nat)
    requires m < 3
    ensures First(3 * g + m) == 4 * g + m && (4 * g + m) / 4 == (4 * g + m + 1) / 4 == g
    ensures (4 * g + m) % 4 == m && (4 * g + m + 1) % 4 == m + 1
    ensures (3 * g + m) / 3 == g && (3 * g + m) % 3 == m
  {}

  /** Joining neighbouring sextets gives the bytes back. */
  lemma JoinSplit(x: seq<octet>, n: nat)
    requires n < |x|
    ensures Join(n % 3, SextetAt(x, First(n)), SextetAt(x, First(n) + 1)) == x[n]
  {
    var g, m := n / 3, n % 3;
    Place(g, m);
    assert n == 3 * g + m;
    hide OrZero;
    SplitByte(OrZero(x, 3 * g), OrZero(x, 3 * g + 1), OrZero(x, 3 * g + 2));
  }

  lemma SplitByte(a: octet, b: octet, c: octet)
    ensures a / 4 * 4 + (a % 4 * 16 + b / 16) / 16 == a
    ensures (a % 4 * 16 + b / 16) % 16 * 16 + (b % 16 * 4 + c / 64) / 4 == b
    ensures (b % 16 * 4 + c / 64) % 4 * 64 + c % 64 == c
  {}

  /** Decoding what was encoded gives back exactly the bytes, and disturbs nothing behind them. */
  lemma RoundTrip(x: seq<octet>)
    ensures Decoded(Encode(x)) == x
    ensures Size(Stop(Encode(x))) == |x| && Spared(Encode(x), Stop(Encode(x)))
  {
    hide Digit, SextetAt, Join, First, Encode, Spared;
    var e := Encode(x);
    EncodedStop(x);
    SizeOfDigits(|x|);
    forall n | 0 <= n < |x|
      ensures First(n) + 1 < Stop(e) && x[n] == ByteAt(e, n)
    {
      FirstInside(Stop(e), n);
      EncodedDigit(x, First(n));
      EncodedDigit(x, First(n) + 1);
      JoinSplit(x, n);
    }
    Whole(e, x);
  }

  /** The one encoding of its bytes: fully padded, with no stray bits in the last digit. */
  predicate Canonical(s: string) {
    var k := Stop(s);
    && k % 4 != 1 && s[k..] == (if k % 4 == 0 then "" else if k % 4 == 2 then "==" else "=")
    && (k % 4 == 2 ==> Digit(s[k - 1]) % 16 == 0)
    && (k % 4 == 3 ==> Digit(s[k - 1]) % 4 == 0)
  }

  lemma DigitsOfSize(k: nat)
    requires k % 4 != 1
    ensures Digits(Size(k)) == k
    ensures Padding(Size(k)) == if k % 4 == 0 then "" else if k % 4 == 2 then "==" else "="
  {}

  lemma JoinParts(a: sextet, b: sextet)
    ensures Join(0, a, b) / 4 == a && Join(0, a, b) % 4 == b / 16
    ensures Join(1, a, b) / 16 == a % 16 && Join(1, a, b) % 16 == b / 4
    ensures Join(2, a, b) / 64 == a % 4 && Join(2, a, b) % 64 == b
  {}

  lemma DecodedByte(s: string, g: nat, m: nat)
    requires Accepted(s) && m < 3 && 4 * g + m + 1 < Stop(s)
    ensures 3 * g + m < |Decoded(s)|
    ensures Decoded(s)[3 * g + m] == Join(m, Digit(s[4 * g + m]), Digit(s[4 * g + m + 1]))
  {
    hide Digit, Join;
    Place(g, m);
  }

  lemma DecodedShort(s: string, g: nat, m: nat)
    requires Accepted(s) && m < 3 && 4 * g + m + 1 == Stop(s)
    ensures OrZero(Decoded(s), 3 * g + m) == 0
  {
    hide Digit;
  }

  /** The two bytes that sextet p is taken from. */
  lemma Neighbours(s: string, g: nat, m: nat)
    requires Accepted(s) && m < 4 && 4 * g + m < Stop(s)
    ensures m > 0 ==> OrZero(Decoded(s), 3 * g + m - 1) == Join(m - 1, Digit(s[4 * g + m - 1]), Digit(s[4 * g + m]))
    ensures m < 3 && 4 * g + m + 1 < Stop(s) ==>
      OrZero(Decoded(s), 3 * g + m) == Join(m, Digit(s[4 * g + m]), Digit(s[4 * g + m + 1]))
    ensures m < 3 && 4 * g + m + 1 >= Stop(s) ==> OrZero(Decoded(s), 3 * g + m) == 0
  {
    hide Digit, Join, Decoded;
    if m > 0 {
      DecodedByte(s, g, m - 1);
    }
    if m < 3 {
      if 4 * g + m + 1 < Stop(s) {
        DecodedByte(s, g, m);
      } else {
        DecodedShort(s, g, m);
      }
    }
  }

  /** Sextet p of what was decoded is digit p. */
  lemma DecodedSextet(s: string, p: nat)
    requires Accepted(s) && Canonical(s) && p < Stop(s)
    ensures SextetAt(Decoded(s), p) == Digit(s[p])
  {
    hide Digit, Join, Decoded, Accepted, First, Size, OrZero, Stop;
    var g, m := p / 4, p % 4;
    Neighbours(s, g, m);
    if m > 0 {
      JoinParts(Digit(s[p - 1]), Digit(s[p]));
    }
    if p + 1 < Stop(s) {
      JoinParts(Digit(s[p]), Digit(s[p + 1]));
    }
  }

  /** Encoding what was decoded gives back the text, if it was the encoding of anything. */
  lemma Reencode(s: string)
    requires Canonical(s)
    ensures Encode(Decoded(s)) == s
  {
    hide Digit, SextetAt, Join, First, Decoded, Letter;
    var k, x := Stop(s), Decoded(s);
    DigitsOfSize(k);
    assert k < |s| ==> s[k] == s[k..][0] == BASE64_PAD;
    forall p | 0 <= p < k
      ensures Encode(x)[p] == s[p]
    {
      DecodedSextet(s, p);
      DigitLetter(s[p]);
    }
    assert s == s[..k] + s[k..];
    assert Encode(x)[..k] == s[..k];
  }

  lemma LastSextet(x: seq<octet>)
    requires x != []
    ensures Digits(|x|) % 4 == 2 ==> SextetAt(x, Digits(|x|) - 1) % 16 == 0
    ensures Digits(|x|) % 4 == 3 ==> SextetAt(x, Digits(|x|) - 1) % 4 == 0
  {
    var n := |x|;
    if n % 3 == 1 {
      assert Digits(n) - 1 == 4 * (n / 3) + 1 && OrZero(x, n / 3 * 3 + 1) == 0;
    } else if n % 3 == 2 {
      assert Digits(n) - 1 == 4 * (n / 3) + 2 && OrZero(x, n / 3 * 3 + 2) == 0;
    }
  }

  lemma EncodedEnd(x: seq<octet>)
    ensures Encode(x)[Digits(|x|)..] == Padding(|x|)
  {}

  /** Every encoding is of this form. */
  lemma EncodedCanonical(x: seq<octet>)
    ensures Canonical(Encode(x))
  {
    hide Digit, SextetAt, Encode;
    var e, k := Encode(x), Digits(|x|);
    EncodedStop(x);
    EncodedEnd(x);
    if k > 0 {
      EncodedDigit(x, k - 1);
      LastSextet(x);
    }
  }
}
