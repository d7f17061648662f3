/**
 The laws of the TDES Monte Carlo test, read on the inputs, outputs and keys of a run alone: which
 earlier unit every input repeats, and which outputs go into which key.
 */
module TdesFeedback {
  import opened Bits
  import opened ShiftRegister
  import opened TdesLaw
  import P = TdesParity

  // ----- texts

  /** The text behind step `j` of round `i`: the next input, or the text left for the next round. */
  ghost function Behind(rounds: seq<Round>, last: Start, i: nat, j: nat): seq<bv8>
    requires i < |rounds| && j < |rounds[i].ins|
  {
    if j + 1 < |rounds[i].ins| then rounds[i].ins[j + 1] else Follower(rounds, last, i).text
  }

  /** The sizes of a run. */
  lemma RoundShape<S(!new)>(c: Cipher<S>, mode: Mode, encrypt: bool, option: nat, rounds: seq<Round>, last: Start,
                            i: nat)
    requires MonteCarlo(c, mode, encrypt, option, rounds, last) && i < |rounds|
    ensures var r := rounds[i];
      && |r.ins| == |r.outs| == 10000 && Units(mode, r.ins) && Units(mode, r.outs) && |r.start.iv| == 8
      && Sized(c) && Texts(c, mode, encrypt, r) && Answers(c, mode, r)
      && NextStart(c, mode, encrypt, option, r, Follower(rounds, last, i))
  {
    hide NextStart, Answers;
    assert RoundLaws(c, mode, encrypt, option, rounds[i], Follower(rounds, last, i));
  }

  lemma BehindIs<S(!new)>(c: Cipher<S>, mode: Mode, encrypt: bool, option: nat, rounds: seq<Round>, last: Start,
                          i: nat, j: nat)
    requires MonteCarlo(c, mode, encrypt, option, rounds, last) && i < |rounds| && j < |rounds[i].ins|
    requires mode == OFB ==> j + 1 < |rounds[i].ins|
    ensures var r := rounds[i];
      && |r.ins| == |r.outs| == 10000 && Units(mode, r.ins) && Units(mode, r.outs) && |r.start.iv| == 8 && Sized(c)
      && |Behind(rounds, last, i, j)| == UnitLen(mode)
      && View(mode, Behind(rounds, last, i, j)) == TextAfter(c, mode, encrypt, r, j)
  {
    hide View, TextAfter, NextKey, Stream, Answers, ChainAt, Before;
    RoundShape(c, mode, encrypt, option, rounds, last, i);
  }

  /** A whole unit is what it shows. */
  lemma WholeUnit(mode: Mode, a: seq<bv8>, b: seq<bv8>)
    requires BitLen(mode) == 64 && |a| == |b| == 8 && View(mode, a) == View(mode, b)
    ensures a == b
  {
    assert View(mode, a) == ToBits(a) && View(mode, b) == ToBits(b);
    ToBitsInjective(a, b);
  }

  /** In ECB, and in CBC decryption, every output is the next input, also from round to round. */
  lemma OutputFeeds<S(!new)>(c: Cipher<S>, mode: Mode, encrypt: bool, option: nat, rounds: seq<Round>, last: Start,
                             i: nat, j: nat)
    requires MonteCarlo(c, mode, encrypt, option, rounds, last) && i < |rounds| && j < |rounds[i].ins|
    requires mode == ECB || (mode == CBC && !encrypt)
    ensures j < |rounds[i].outs| && Behind(rounds, last, i, j) == rounds[i].outs[j]
  {
    hide View, ChainAt;
    BehindIs(c, mode, encrypt, option, rounds, last, i, j);
    WholeUnit(mode, Behind(rounds, last, i, j), rounds[i].outs[j]);
  }

  /** In CBC and CFB64 encryption it is the output before that, and the IV at first. */
  lemma OlderOutputFeeds<S(!new)>(c: Cipher<S>, mode: Mode, option: nat, rounds: seq<Round>, last: Start,
                                  i: nat, j: nat)
    requires MonteCarlo(c, mode, true, option, rounds, last) && i < |rounds| && j < |rounds[i].ins|
    requires mode == CBC || mode == CFB64
    ensures j < |rounds[i].outs|
    ensures Behind(rounds, last, i, j) == if j == 0 then rounds[i].start.iv else rounds[i].outs[j - 1]
  {
    hide View, ChainAt;
    BehindIs(c, mode, true, option, rounds, last, i, j);
    WholeUnit(mode, Behind(rounds, last, i, j), Previous(rounds[i], j));
  }

  /** In OFB, and in CFB8 and CFB1 encryption, it is the head of the register before the step; the IV at first. */
  lemma RegisterFeeds<S(!new)>(c: Cipher<S>, mode: Mode, encrypt: bool, option: nat, rounds: seq<Round>, last: Start,
                               i: nat, j: nat)
    requires MonteCarlo(c, mode, encrypt, option, rounds, last) && i < |rounds| && j < |rounds[i].ins|
    requires (mode == OFB && j + 1 < |rounds[i].ins|) || (encrypt && (mode == CFB8 || mode == CFB1))
    ensures var r := rounds[i];
      var register := if j == 0 then r.start.iv else c.register(ChainAt(c, mode, r.start, r.ins[..j]));
      && |register| == 8 && View(mode, Behind(rounds, last, i, j)) == View(mode, register)
      && (mode == OFB ==> Behind(rounds, last, i, j) == register)
  {
    hide View, ChainAt, MonteCarlo, Behind;
    BehindIs(c, mode, encrypt, option, rounds, last, i, j);
    if mode == OFB {
      WholeUnit(mode, Behind(rounds, last, i, j), Before(c, mode, rounds[i], j));
    }
  }

  /** After a round of OFB, the first text comes back, xor the register before the last step. */
  lemma OfbRestarts<S(!new)>(c: Cipher<S>, encrypt: bool, option: nat, rounds: seq<Round>, last: Start, i: nat)
    requires MonteCarlo(c, OFB, encrypt, option, rounds, last) && i < |rounds|
    ensures var r := rounds[i]; var text := Follower(rounds, last, i).text;
      var register := c.register(ChainAt(c, OFB, r.start, r.ins[..9999]));
      && |text| == |register| == |r.start.text| == 8
      && forall n :: 0 <= n < 8 ==> text[n] == r.start.text[n] ^ register[n]
  {
    hide View, ChainAt, TextAfter, NextKey, Stream, Answers;
    RoundShape(c, OFB, encrypt, option, rounds, last, i);
    var r, text := rounds[i], Follower(rounds, last, i).text;
    var register := c.register(ChainAt(c, OFB, r.start, r.ins[..9999]));
    XorUnit(OFB, r.start.text, register, text);
  }

  /** A unit that shows the exclusive or of two units is their exclusive or. */
  lemma XorUnit(mode: Mode, a: seq<bv8>, b: seq<bv8>, x: seq<bv8>)
    requires UnitLen(mode) * 8 == BitLen(mode) && |a| == |b| == |x| == UnitLen(mode)
    requires View(mode, x) == XorBits(View(mode, a), View(mode, b))
    ensures forall n :: 0 <= n < |x| ==> x[n] == a[n] ^ b[n]
  {
    hide ToBits;
    assert View(mode, x) == ToBits(x) && View(mode, a) == ToBits(a) && View(mode, b) == ToBits(b);
    ToBitsXor(a, b);
    ToBitsInjective(x, XorBytes(a, b));
  }

  /** In the CFB modes, decryption feeds input xor output; of CFB1 only the first bit counts. */
  lemma DifferenceFeeds<S(!new)>(c: Cipher<S>, mode: Mode, option: nat, rounds: seq<Round>, last: Start, i: nat, j: nat)
    requires MonteCarlo(c, mode, false, option, rounds, last) && i < |rounds| && j < |rounds[i].ins|
    requires mode == CFB64 || mode == CFB8 || mode == CFB1
    ensures var x, r := Behind(rounds, last, i, j), rounds[i];
      && |x| == |r.ins[j]| && j < |r.outs| && |r.outs[j]| == |x| > 0
      && (mode != CFB1 ==> forall n :: 0 <= n < |x| ==> x[n] == r.ins[j][n] ^ r.outs[j][n])
      && (mode == CFB1 ==> x[0] & 0x80 == (r.ins[j][0] ^ r.outs[j][0]) & 0x80)
  {
    hide View, ChainAt, MonteCarlo, Behind;
    BehindIs(c, mode, false, option, rounds, last, i, j);
    var x, r := Behind(rounds, last, i, j), rounds[i];
    DifferenceText(c, mode, r, j);
    hide TextAfter, XorBits;
    if mode == CFB1 {
      FirstBits(r.ins[j], r.outs[j], x);
    } else {
      XorUnit(mode, r.ins[j], r.outs[j], x);
    }
  }

  lemma FirstBit(x: seq<bv8>)
    requires |x| >= 1
    ensures View(CFB1, x) == [x[0] & 0x80 != 0]
  {
    assert View(CFB1, x) == [BitAt(x, 0)];
  }

  lemma FirstBits(a: seq<bv8>, b: seq<bv8>, x: seq<bv8>)
    requires |a| >= 1 && |b| >= 1 && |x| >= 1 && View(CFB1, x) == XorBits(View(CFB1, a), View(CFB1, b))
    ensures x[0] & 0x80 == (a[0] ^ b[0]) & 0x80
  {
    hide View;
    FirstBit(a);
    FirstBit(b);
    FirstBit(x);
    assert View(CFB1, x)[0] == (View(CFB1, a)[0] != View(CFB1, b)[0]);
    TopBits(a[0], b[0], x[0]);
  }

  lemma TopBits(a: bv8, b: bv8, x: bv8)
    requires (x & 0x80 != 0) == ((a & 0x80 != 0) != (b & 0x80 != 0))
    ensures x & 0x80 == (a ^ b) & 0x80
  {}

  // ----- what that means for a cipher with a mask

  function Zeros(n: nat): (z: seq<bv8>)
    ensures |z| == n
  {
    seq(n, _ => 0)
  }

  /** In every state, the cipher xors one mask onto its input: its answer to zeros. */
  ghost predicate Masks<S(!new)>(c: Cipher<S>, mode: Mode) {
    forall s: S, x: seq<bv8> :: |x| == UnitLen(mode) ==>
      && |c.step(s, x).1| == |c.step(s, Zeros(|x|)).1| == |x|
      && View(mode, c.step(s, x).1) == XorBits(View(mode, x), View(mode, c.step(s, Zeros(|x|)).1))
  }

  lemma XorTwice(a: seq<bool>, m: seq<bool>)
    requires |a| == |m|
    ensures XorBits(a, XorBits(a, m)) == m
  {}

  lemma MaskedAnswer<S(!new)>(c: Cipher<S>, mode: Mode, s: S, x: seq<bv8>, y: seq<bv8>)
    requires Masks(c, mode) && |x| == UnitLen(mode) && y == c.step(s, x).1
    ensures |y| == |c.step(s, Zeros(UnitLen(mode))).1| == UnitLen(mode)
    ensures XorBits(View(mode, x), View(mode, y)) == View(mode, c.step(s, Zeros(UnitLen(mode))).1)
  {
    hide View, XorBits, Zeros;
    XorTwice(View(mode, x), View(mode, c.step(s, Zeros(|x|)).1));
  }

  lemma AnswerOf<S>(c: Cipher<S>, mode: Mode, r: Round, j: nat)
    requires Answers(c, mode, r) && j < |r.ins|
    ensures r.outs[j] == c.step(ChainAt(c, mode, r.start, r.ins[..j]), r.ins[j]).1
  {}

  lemma DifferenceText<S(!new)>(c: Cipher<S>, mode: Mode, r: Round, j: nat)
    requires Sized(c) && |r.start.iv| == 8 && |r.ins| == |r.outs| && Units(mode, r.ins) && Units(mode, r.outs)
    requires j < |r.ins| && (mode == CFB64 || mode == CFB8 || mode == CFB1)
    ensures |r.ins[j]| == |r.outs[j]| == UnitLen(mode)
    ensures TextAfter(c, mode, false, r, j) == XorBits(View(mode, r.ins[j]), View(mode, r.outs[j]))
  {
    hide View, XorBits, ChainAt;
  }

  /** CFB decryption feeds the mask: what the cipher would answer to zeros in the same state. */
  lemma MaskFeeds<S(!new)>(c: Cipher<S>, mode: Mode, option: nat, rounds: seq<Round>, last: Start, i: nat, j: nat)
    requires MonteCarlo(c, mode, false, option, rounds, last) && i < |rounds| && j < |rounds[i].ins|
    requires (mode == CFB64 || mode == CFB8 || mode == CFB1) && Masks(c, mode)
    ensures var r := rounds[i];
      var mask := c.step(ChainAt(c, mode, r.start, r.ins[..j]), Zeros(UnitLen(mode))).1;
      && |mask| == UnitLen(mode) == |Behind(rounds, last, i, j)|
      && View(mode, Behind(rounds, last, i, j)) == View(mode, mask)
  {
    BehindIs(c, mode, false, option, rounds, last, i, j);
    RoundShape(c, mode, false, option, rounds, last, i);
    var r := rounds[i];
    hide *;
    AnswerOf(c, mode, r, j);
    DifferenceText(c, mode, r, j);
    MaskedAnswer(c, mode, ChainAt(c, mode, r.start, r.ins[..j]), r.ins[j], r.outs[j]);
  }

  lemma ToyMask(s: seq<bv8>, x: seq<bv8>)
    requires |x| == 8
    ensures var z := Toy().step(s, Zeros(8)).1; |z| == 8 && Toy().step(s, x).1 == XorBytes(x, z)
  {}

  lemma WholeXor(x: seq<bv8>, z: seq<bv8>)
    requires |x| == |z| == 8
    ensures View(CFB64, XorBytes(x, z)) == XorBits(View(CFB64, x), View(CFB64, z))
  {
    ToBitsXor(x, z);
    hide ToBits, XorBytes, XorBits;
    assert ToBits(XorBytes(x, z))[..64] == ToBits(XorBytes(x, z));
    assert ToBits(x)[..64] == ToBits(x) && ToBits(z)[..64] == ToBits(z);
  }

  /** There are such ciphers. */
  lemma MaskExists()
    ensures Sized(Toy()) && Masks(Toy(), CFB64)
  {
    GenuineExists(CFB64);
    hide View, Toy, XorBytes, XorBits, Zeros;
    forall s: seq<bv8>, x: seq<bv8> | |x| == 8
      ensures |Toy().step(s, x).1| == |Toy().step(s, Zeros(|x|)).1| == |x|
      ensures View(CFB64, Toy().step(s, x).1) == XorBits(View(CFB64, x), View(CFB64, Toy().step(s, Zeros(|x|)).1))
    {
      ToyMask(s, x);
      WholeXor(x, Toy().step(s, Zeros(8)).1);
    }
  }

  // ----- keys

  /** Where the bits of a unit are in the output stream. */
  lemma {:induction false} StreamAt(mode: Mode, outs: seq<seq<bv8>>, p: nat, q: nat)
    requires Units(mode, outs) && p < |outs| && q < BitLen(mode)
    ensures |Stream(mode, outs)| == BitLen(mode) * |outs| && BitLen(mode) * p + q < BitLen(mode) * |outs|
    ensures Stream(mode, outs)[BitLen(mode) * p + q] == View(mode, outs[p])[q]
    decreases |outs|
  {
    hide View;
    StreamSize(mode, outs);
    var init := outs[..|outs| - 1];
    StreamSize(mode, init);
    UnitPlace(BitLen(mode), p, q, |outs|);
    if p < |init| {
      StreamAt(mode, init, p, q);
    }
  }

  lemma UnitPlace(w: nat, p: nat, q: nat, n: nat)
    requires q < w && p < n
    ensures w * p + q < w * n && w * n == w * (n - 1) + w
  {
    if p < n - 1 {
      UnitPlace(w, p, q, n - 1);
    }
  }

  lemma {:induction false} StreamSize(mode: Mode, outs: seq<seq<bv8>>)
    requires Units(mode, outs)
    ensures |Stream(mode, outs)| == BitLen(mode) * |outs|
    decreases |outs|
  {
    hide View;
    if outs != [] {
      StreamSize(mode, outs[..|outs| - 1]);
    }
  }

  /** Byte b of key a + 1 takes in bits of the last 192: those of key 1 stand last. */
  lemma KeyBit(option: nat, key: seq<bv8>, window: seq<bool>, next: seq<bv8>, a: nat, b: nat, k: nat)
    requires NextKey(option, key, window, next) && (a < 2 || (a == 2 && option == 1)) && b < 8 && k < 7
    ensures |key| == |next| == 24 && |window| == 192
    ensures GetBit(next[8 * a + b], k) == (GetBit(key[8 * a + b], k) != window[128 - 64 * a + 8 * b + k])
  {
    hide GetBit, P.Ones;
    var n := 8 * a + b;
    assert Slot(n) == 16 - 8 * a + b;
    assert MixedByte(key[n], window[8 * Slot(n)..8 * Slot(n) + 8], next[n]);
    assert window[8 * Slot(n)..8 * Slot(n) + 8][k] == window[8 * Slot(n) + k];
  }

  /** The same, of the whole output stream. */
  lemma StreamBit(mode: Mode, option: nat, key: seq<bv8>, outs: seq<seq<bv8>>, next: seq<bv8>, a: nat, b: nat, k: nat)
    requires Units(mode, outs) && 192 <= |Stream(mode, outs)|
    requires NextKey(option, key, LastBits(Stream(mode, outs), WIDTH), next)
    requires (a < 2 || (a == 2 && option == 1)) && b < 8 && k < 7
    ensures |key| == |next| == 24
    ensures GetBit(next[8 * a + b], k)
      == (GetBit(key[8 * a + b], k) != Stream(mode, outs)[|Stream(mode, outs)| - 64 - 64 * a + 8 * b + k])
  {
    KeyBit(option, key, LastBits(Stream(mode, outs), WIDTH), next, a, b, k);
    hide GetBit, Stream, NextKey;
  }

  lemma Stream64(mode: Mode, outs: seq<seq<bv8>>, p: nat, b: nat, k: nat)
    requires BitLen(mode) == 64 && Units(mode, outs) && p < |outs| && b < 8 && k < 8
    ensures |Stream(mode, outs)| == 64 * |outs| && |outs[p]| == 8
    ensures Stream(mode, outs)[64 * p + 8 * b + k] == GetBit(outs[p][b], k)
  {
    StreamAt(mode, outs, p, 8 * b + k);
    UnitBit(mode, outs[p], b, k);
    hide GetBit, Stream, View;
  }

  lemma Stream8(outs: seq<seq<bv8>>, p: nat, k: nat)
    requires Units(CFB8, outs) && p < |outs| && k < 8
    ensures |Stream(CFB8, outs)| == 8 * |outs| && |outs[p]| == 1
    ensures Stream(CFB8, outs)[8 * p + k] == GetBit(outs[p][0], k)
  {
    StreamAt(CFB8, outs, p, k);
    ByteView(outs[p], k);
    hide GetBit, Stream, View;
  }

  lemma Stream1(outs: seq<seq<bv8>>, p: nat)
    requires Units(CFB1, outs) && p < |outs|
    ensures |Stream(CFB1, outs)| == |outs| && |outs[p]| == 1
    ensures Stream(CFB1, outs)[p] == (outs[p][0] & 0x80 != 0)
  {
    StreamAt(CFB1, outs, p, 0);
    FirstBit(outs[p]);
    hide Stream, View;
  }

  lemma UnitBit(mode: Mode, y: seq<bv8>, n: nat, k: nat)
    requires BitLen(mode) == 64 && |y| == 8 && n < 8 && k < 8
    ensures View(mode, y)[8 * n + k] == GetBit(y[n], k)
  {
    hide GetBit;
    assert (8 * n + k) / 8 == n && (8 * n + k) % 8 == k;
  }

  lemma ByteView(y: seq<bv8>, k: nat)
    requires |y| == 1 && k < 8
    ensures View(CFB8, y)[k] == GetBit(y[0], k)
  {
    hide GetBit;
  }

  /** Two bytes that are equal but for the parity bit. */
  predicate SameKeyBits(a: bv8, b: bv8) { a & 0xfe == b & 0xfe }

  lemma SevenBits(a: bv8, b: bv8)
    requires forall k: nat :: k < 7 ==> GetBit(a, k) == GetBit(b, k)
    ensures SameKeyBits(a, b)
  {
    assert GetBit(a, 0) == GetBit(b, 0) && GetBit(a, 1) == GetBit(b, 1) && GetBit(a, 2) == GetBit(b, 2);
    assert GetBit(a, 3) == GetBit(b, 3) && GetBit(a, 4) == GetBit(b, 4);
    assert GetBit(a, 5) == GetBit(b, 5) && GetBit(a, 6) == GetBit(b, 6);
  }

  lemma KeyByte64(mode: Mode, option: nat, key: seq<bv8>, outs: seq<seq<bv8>>, next: seq<bv8>, a: nat, b: nat)
    requires BitLen(mode) == 64 && Units(mode, outs) && |outs| == 10000 && 192 <= |Stream(mode, outs)|
    requires NextKey(option, key, LastBits(Stream(mode, outs), WIDTH), next)
    requires (a < 2 || (a == 2 && option == 1)) && b < 8
    ensures |key| == |next| == 24 && |outs[9999 - a]| == 8
    ensures SameKeyBits(next[8 * a + b], key[8 * a + b] ^ outs[9999 - a][b])
  {
    hide *;
    StreamBit(mode, option, key, outs, next, a, b, 0);
    Stream64(mode, outs, 9999 - a, b, 0);
    var was, now, y := key[8 * a + b], next[8 * a + b], outs[9999 - a][b];
    forall k: nat | k < 7
      ensures GetBit(now, k) == GetBit(was ^ y, k)
    {
      StreamBit(mode, option, key, outs, next, a, b, k);
      Stream64(mode, outs, 9999 - a, b, k);
      XorGet(was, y, k);
    }
    SevenBits(now, was ^ y);
  }

  lemma RoundKeys<S(!new)>(c: Cipher<S>, mode: Mode, encrypt: bool, option: nat, rounds: seq<Round>, last: Start,
                           i: nat)
    requires MonteCarlo(c, mode, encrypt, option, rounds, last) && i < |rounds|
    ensures var r, next := rounds[i], Follower(rounds, last, i);
      && |r.outs| == 10000 && Units(mode, r.outs) && 192 <= |Stream(mode, r.outs)|
      && NextKey(option, r.start.key, LastBits(Stream(mode, r.outs), WIDTH), next.key)
  {
    hide *;
    RoundShape(c, mode, encrypt, option, rounds, last, i);
    NextStartKey(c, mode, encrypt, option, rounds[i], Follower(rounds, last, i));
  }

  /**
   The keys, byte for byte and parity aside, in the modes with 64-bit units: the next key 1 (a = 0) is key 1
   xor the last output, key 2 is key 2 xor the output before it, and with three keys key 3 is key 3 xor the
   one before that.
   */
  lemma KeysTakeOutputs<S(!new)>(c: Cipher<S>, mode: Mode, encrypt: bool, option: nat, rounds: seq<Round>, last: Start,
                                 i: nat, a: nat, b: nat)
    requires MonteCarlo(c, mode, encrypt, option, rounds, last) && i < |rounds|
    requires (a < 2 || (a == 2 && option == 1)) && b < 8
    requires mode == ECB || mode == CBC || mode == CFB64 || mode == OFB
    ensures var key, next, outs := rounds[i].start.key, Follower(rounds, last, i).key, rounds[i].outs;
      && |key| == |next| == 24 && |outs| == 10000 && |outs[9999 - a]| == 8
      && SameKeyBits(next[8 * a + b], key[8 * a + b] ^ outs[9999 - a][b])
  {
    assert BitLen(mode) == 64;
    hide *;
    RoundKeys(c, mode, encrypt, option, rounds, last, i);
    KeyByte64(mode, option, rounds[i].start.key, rounds[i].outs, Follower(rounds, last, i).key, a, b);
  }

  lemma SingleBytes(mode: Mode, outs: seq<seq<bv8>>)
    requires (mode == CFB8 || mode == CFB1) && Units(mode, outs)
    ensures forall n :: 0 <= n < |outs| ==> |outs[n]| == 1
  {}

  /** In CFB8 a key byte takes in one output, in CFB1 every one of its bits does: the last ones into key 1. */
  lemma KeysTakeUnits<S(!new)>(c: Cipher<S>, mode: Mode, encrypt: bool, option: nat, rounds: seq<Round>, last: Start,
                               i: nat, a: nat, b: nat, k: nat)
    requires MonteCarlo(c, mode, encrypt, option, rounds, last) && i < |rounds|
    requires (a < 2 || (a == 2 && option == 1)) && b < 8 && k < 7 && (mode == CFB8 || mode == CFB1)
    ensures var key, next, outs := rounds[i].start.key, Follower(rounds, last, i).key, rounds[i].outs;
      && |key| == |next| == 24 && |outs| == 10000 && (forall n :: 0 <= n < 10000 ==> |outs[n]| == 1)
      && (mode == CFB8 ==>
            GetBit(next[8 * a + b], k) == (GetBit(key[8 * a + b], k) != GetBit(outs[9992 - 8 * a + b][0], k)))
      && (mode == CFB1 ==>
            GetBit(next[8 * a + b], k)
            == (GetBit(key[8 * a + b], k) != (outs[9936 - 64 * a + 8 * b + k][0] & 0x80 != 0)))
  {
    hide *;
    RoundKeys(c, mode, encrypt, option, rounds, last, i);
    var key, next, outs := rounds[i].start.key, Follower(rounds, last, i).key, rounds[i].outs;
    SingleBytes(mode, outs);
    if mode == CFB8 {
      Stream8(outs, 9992 - 8 * a + b, k);
    } else {
      Stream1(outs, 9936 - 64 * a + 8 * b + k);
    }
    StreamBit(mode, option, key, outs, next, a, b, k);
  }
}
