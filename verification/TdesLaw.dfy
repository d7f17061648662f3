/**
 The laws of the TDES Monte Carlo tests (section 5 of NIST SP 800-20) for any cipher that reports its
 IV register before and after every operation.
 */
module TdesLaw {
  import opened Bits
  import opened ShiftRegister
  import opened TdesParity

  const INNER: nat := 10000
  const OUTER: nat := 400

  datatype Mode = ECB | CBC | CFB64 | OFB | CFB8 | CFB1

  function BitLen(mode: Mode): nat { if mode == CFB1 then 1 else if mode == CFB8 then 8 else 64 }

  /** Bytes of a unit; in CFB1 only the first bit of the byte counts. */
  function UnitLen(mode: Mode): nat { if mode == CFB1 || mode == CFB8 then 1 else 8 }

  function View(mode: Mode, x: seq<bv8>): (v: seq<bool>)
    requires |x| >= UnitLen(mode)
    ensures |v| == BitLen(mode)
  {
    ToBits(x)[..BitLen(mode)]
  }

  ghost predicate Units(mode: Mode, xs: seq<seq<bv8>>) {
    forall k :: 0 <= k < |xs| ==> |xs[k]| == UnitLen(mode)
  }

  /** The output bits of a round, one unit after the other. */
  ghost function Stream(mode: Mode, xs: seq<seq<bv8>>): (s: seq<bool>)
    requires Units(mode, xs)
    ensures |s| >= |xs|
  {
    if xs == [] then [] else Stream(mode, xs[..|xs|-1]) + View(mode, xs[|xs|-1])
  }

  lemma StreamSnoc(mode: Mode, xs: seq<seq<bv8>>, x: seq<bv8>)
    requires Units(mode, xs) && |x| == UnitLen(mode)
    ensures Units(mode, xs + [x]) && Stream(mode, xs + [x]) == Stream(mode, xs) + View(mode, x)
  {
    hide View;
    assert (xs + [x])[..|xs + [x]| - 1] == xs;
  }

  /** The implementation under test: a state with an IV register, stepped one unit at a time. */
  datatype Cipher<!S> = Cipher(
    init: (seq<bv8>, seq<bv8>) -> S, step: (S, seq<bv8>) -> (S, seq<bv8>), register: S -> seq<bv8>)

  ghost predicate Sized<S(!new)>(c: Cipher<S>) {
    && (forall s: S, x: seq<bv8> :: |c.step(s, x).1| == |x|)
    && (forall s: S :: |c.register(s)| == 8)
  }

  /** What a round starts from. */
  datatype Start = Start(key: seq<bv8>, iv: seq<bv8>, text: seq<bv8>)

  datatype Round = Round(start: Start, ins: seq<seq<bv8>>, outs: seq<seq<bv8>>)

  /** ECB is set up without an IV. */
  function InitIv(mode: Mode, iv: seq<bv8>): seq<bv8> { if mode == ECB then [] else iv }

  function ChainAt<S>(c: Cipher<S>, mode: Mode, start: Start, xs: seq<seq<bv8>>): S {
    if xs == [] then c.init(start.key, InitIv(mode, start.iv))
    else c.step(ChainAt(c, mode, start, xs[..|xs|-1]), xs[|xs|-1]).0
  }

  ghost predicate Answers<S>(c: Cipher<S>, mode: Mode, r: Round) {
    && |r.ins| == |r.outs|
    && forall j :: 0 <= j < |r.ins| ==>
         r.outs[j] == c.step(ChainAt(c, mode, r.start, r.ins[..j]), r.ins[j]).1
  }

  /** The IV register before step j; the IV stands for it at the first step. */
  ghost function Before<S>(c: Cipher<S>, mode: Mode, r: Round, j: nat): seq<bv8>
    requires j <= |r.ins|
  {
    if j == 0 then r.start.iv else c.register(ChainAt(c, mode, r.start, r.ins[..j]))
  }

  /** The output before that of step j; the IV stands for it at the first step. */
  ghost function Previous(r: Round, j: nat): seq<bv8>
    requires j <= |r.outs|
  {
    if j == 0 then r.start.iv else r.outs[j - 1]
  }

  /** The text after a step that turned `x` into `y`. */
  function NextText(mode: Mode, encrypt: bool, x: seq<bv8>, y: seq<bv8>, before: seq<bv8>,
          previous: seq<bv8>): seq<bool>
    requires |x| >= UnitLen(mode) && |y| >= UnitLen(mode) && |before| >= 8 && |previous| >= UnitLen(mode)
  {
    if mode == ECB || (mode == CBC && !encrypt) then View(mode, y)
    else if encrypt && (mode == CBC || mode == CFB64) then View(mode, previous)
    else if encrypt || mode == OFB then View(mode, before)
    else XorBits(View(mode, x), View(mode, y))
  }

  /** The texts of one round follow from each other. */
  ghost predicate Texts<S(!new)>(c: Cipher<S>, mode: Mode, encrypt: bool, r: Round) {
    && Sized(c) && |r.start.iv| == 8 && |r.ins| == |r.outs| && Units(mode, r.ins) && Units(mode, r.outs)
    && (r.ins != [] ==> r.ins[0] == r.start.text)
    && forall j: nat :: j + 1 < |r.ins| ==> View(mode, r.ins[j + 1]) == TextAfter(c, mode, encrypt, r, j)
  }

  ghost function TextAfter<S(!new)>(c: Cipher<S>, mode: Mode, encrypt: bool, r: Round, j: nat): seq<bool>
    requires Sized(c) && |r.start.iv| == 8
    requires |r.ins| == |r.outs| && Units(mode, r.ins) && Units(mode, r.outs) && j < |r.ins|
  {
    NextText(mode, encrypt, r.ins[j], r.outs[j], Before(c, mode, r, j), Previous(r, j))
  }

  /** Only the first bytes of a buffer are seen. */
  lemma SameView(mode: Mode, a: seq<bv8>, b: seq<bv8>)
    requires |a| >= UnitLen(mode) && |b| >= UnitLen(mode) && a[..UnitLen(mode)] == b[..UnitLen(mode)]
    ensures View(mode, a) == View(mode, b)
  {
    hide ToBits;
    ToBitsSlice(a, 0, UnitLen(mode));
    ToBitsSlice(b, 0, UnitLen(mode));
    assert a[0..UnitLen(mode)] == b[0..UnitLen(mode)];
    assert ToBits(a)[..BitLen(mode)] == ToBits(a)[0..8 * UnitLen(mode)][..BitLen(mode)];
    assert ToBits(b)[..BitLen(mode)] == ToBits(b)[0..8 * UnitLen(mode)][..BitLen(mode)];
  }

  lemma XorView(mode: Mode, a: seq<bv8>, b: seq<bv8>, c: seq<bv8>)
    requires |a| >= 8 && |b| >= 8 && |c| >= 8
    requires forall k :: 0 <= k < 8 ==> c[k] == a[k] ^ b[k]
    ensures View(mode, c) == XorBits(View(mode, a), View(mode, b))
  {
    hide GetBit, BitAt, ToBits;
    forall n: nat | n < BitLen(mode)
      ensures View(mode, c)[n] == XorBits(View(mode, a), View(mode, b))[n]
    {
      XorBitAt(a, b, c, n);
      assert View(mode, a)[n] == ToBits(a)[n] && View(mode, b)[n] == ToBits(b)[n] && View(mode, c)[n] == ToBits(c)[n];
    }
  }

  lemma XorBitAt(a: seq<bv8>, b: seq<bv8>, c: seq<bv8>, n: nat)
    requires |a| >= 8 && |b| >= 8 && |c| >= 8 && n < 64
    requires forall k :: 0 <= k < 8 ==> c[k] == a[k] ^ b[k]
    ensures BitAt(c, n) == (BitAt(a, n) != BitAt(b, n))
  {
    hide GetBit;
    XorGet(a[n / 8], b[n / 8], n % 8);
  }

  // ----- from one round to the next

  /** The eight-byte slice of the last 192 output bits that goes into a key byte: last slice first. */
  function Slot(n: nat): nat
    requires n < 24
  {
    if n < 8 then 16 + n else if n < 16 then n else n - 16
  }

  /** Key byte n after the round: odd parity, and otherwise the old byte xor its slice. */
  ghost predicate MixedByte(was: bv8, slice: seq<bool>, now: bv8)
    requires |slice| == 8
  {
    && Ones(now) % 2 == 1
    && forall k: nat :: k < 7 ==> GetBit(now, k) == (GetBit(was, k) != slice[k])
  }

  ghost predicate NextKey(option: nat, key: seq<bv8>, window: seq<bool>, next: seq<bv8>) {
    && |key| == |next| == 24 && |window| == WIDTH
    && (forall n: nat :: n < 16 || (n < 24 && option == 1) ==>
          MixedByte(key[n], window[8 * Slot(n)..8 * Slot(n) + 8], next[n]))
    && (option != 1 ==> next[16..] == next[..8])
  }

  lemma ByteMade(was: bv8, slice: bv8)
    ensures MixedByte(was, ToBits([slice]), ParityTable(was ^ slice))
  {
    hide ParityTable, GetBit, Ones;
    TableIsParity(was ^ slice);
    forall k: nat | k < 7
      ensures GetBit(ParityTable(was ^ slice), k) == (GetBit(was, k) != ToBits([slice])[k])
    {
      XorGet(was, slice, k);
    }
  }

  lemma KeyMade(option: nat, key: seq<bv8>, nk: seq<bv8>, next: seq<bv8>)
    requires |key| == |next| == |nk| == 24
    requires forall n: nat :: n < 16 || (n < 24 && option == 1) ==> next[n] == ParityTable(key[n] ^ nk[Slot(n)])
    requires option != 1 ==> next[16..] == next[..8]
    ensures NextKey(option, key, ToBits(nk), next)
  {
    hide ParityTable, MixedByte, ToBits;
    forall n: nat | n < 16 || (n < 24 && option == 1)
      ensures MixedByte(key[n], ToBits(nk)[8 * Slot(n)..8 * Slot(n) + 8], next[n])
    {
      var m := Slot(n);
      ByteMade(key[n], nk[m]);
      ToBitsSlice(nk, m, m + 1);
      assert nk[m..m + 1] == [nk[m]];
    }
  }

  ghost predicate NextStart<S(!new)>(c: Cipher<S>, mode: Mode, encrypt: bool, option: nat, r: Round, next: Start) {
    && |r.ins| > 0 && Texts(c, mode, encrypt, r) && |next.text| == UnitLen(mode)
    && WIDTH <= |Stream(mode, r.outs)|
    && NextKey(option, r.start.key, LastBits(Stream(mode, r.outs), WIDTH), next.key)
    && next.iv == c.register(ChainAt(c, mode, r.start, r.ins))
    && View(mode, next.text)
       == if mode == OFB then XorBits(View(mode, r.ins[0]), View(mode, Before(c, mode, r, |r.ins| - 1)))
          else TextAfter(c, mode, encrypt, r, |r.ins| - 1)
  }

  /** A complete round that leads to `next`. */
  ghost predicate RoundLaws<S(!new)>(c: Cipher<S>, mode: Mode, encrypt: bool, option: nat, r: Round, next: Start) {
    && |r.ins| == INNER && Answers(c, mode, r) && Texts(c, mode, encrypt, r)
    && NextStart(c, mode, encrypt, option, r, next)
  }

  /** What comes after round i: the start of the next round, or what the last one leaves. */
  function Follower(rounds: seq<Round>, last: Start, i: nat): Start {
    if i + 1 < |rounds| then rounds[i + 1].start else last
  }

  /** A run of the test that leaves `last` behind. */
  ghost predicate MonteCarlo<S(!new)>(c: Cipher<S>, mode: Mode, encrypt: bool, option: nat, rounds: seq<Round>,
          last: Start) {
    forall i: nat :: i < |rounds| ==> RoundLaws(c, mode, encrypt, option, rounds[i], Follower(rounds, last, i))
  }

  lemma NoRounds<S(!new)>(c: Cipher<S>, mode: Mode, encrypt: bool, option: nat, now: Start)
    ensures MonteCarlo(c, mode, encrypt, option, [], now)
  {}

  lemma SeenText<S(!new)>(c: Cipher<S>, mode: Mode, encrypt: bool, option: nat, r: Round, next: Start, seen: Start)
    requires NextStart(c, mode, encrypt, option, r, next)
    requires seen.key == next.key && seen.iv == next.iv && |seen.text| == UnitLen(mode)
    requires View(mode, seen.text) == View(mode, next.text)
    ensures NextStart(c, mode, encrypt, option, r, seen)
  {
    hide View, ChainAt, Texts, TextAfter, NextKey, Stream, Before;
  }

  /** One more round, started from what the ones before left, up to unused bits. */
  lemma MoreRounds<S(!new)>(c: Cipher<S>, mode: Mode, encrypt: bool, option: nat, rounds: seq<Round>,
          now: Start, r: Round, next: Start)
    requires MonteCarlo(c, mode, encrypt, option, rounds, now) && RoundLaws(c, mode, encrypt, option, r, next)
    requires r.start.key == now.key && r.start.iv == now.iv && |now.text| == |r.start.text| == UnitLen(mode)
    requires View(mode, r.start.text) == View(mode, now.text)
    ensures MonteCarlo(c, mode, encrypt, option, rounds + [r], next)
  {
    hide View, RoundLaws;
    var all := rounds + [r];
    forall i: nat | i < |all|
      ensures RoundLaws(c, mode, encrypt, option, all[i], Follower(all, next, i))
    {
      if i < |rounds| {
        assert RoundLaws(c, mode, encrypt, option, rounds[i], Follower(rounds, now, i));
        if i == |rounds| - 1 {
          SeenLaws(c, mode, encrypt, option, rounds[i], now, r.start);
        }
      }
    }
  }

  lemma SeenLaws<S(!new)>(c: Cipher<S>, mode: Mode, encrypt: bool, option: nat, r: Round, next: Start, seen: Start)
    requires RoundLaws(c, mode, encrypt, option, r, next)
    requires seen.key == next.key && seen.iv == next.iv && |seen.text| == UnitLen(mode)
    requires |next.text| == UnitLen(mode) && View(mode, seen.text) == View(mode, next.text)
    ensures RoundLaws(c, mode, encrypt, option, r, seen)
  {
    hide View, NextStart;
    SeenText(c, mode, encrypt, option, r, next, seen);
  }

  /** More outputs than the register has bits. */
  lemma StreamLong(mode: Mode, outs: seq<seq<bv8>>)
    requires Units(mode, outs) && |outs| >= INNER
    ensures WIDTH <= |Stream(mode, outs)|
  {}

  lemma MaskedView(was: seq<bv8>, now: seq<bv8>)
    requires |was| >= 1 && |now| >= 1 && now[0] == was[0] & 0x80
    ensures View(CFB1, now) == View(CFB1, was)
  {
    assert View(CFB1, now) == [BitAt(now, 0)] && View(CFB1, was) == [BitAt(was, 0)];
  }

  lemma StartRound<S(!new)>(c: Cipher<S>, mode: Mode, encrypt: bool, start: Start)
    requires Sized(c) && |start.iv| == 8
    ensures Answers(c, mode, Round(start, [], [])) && Texts(c, mode, encrypt, Round(start, [], []))
    ensures Units(mode, []) && Stream(mode, []) == []
  {}

  // ----- how a round grows

  lemma AnswersGrow<S>(c: Cipher<S>, mode: Mode, r: Round, x: seq<bv8>, y: seq<bv8>)
    requires Answers(c, mode, r) && y == c.step(ChainAt(c, mode, r.start, r.ins), x).1
    ensures Answers(c, mode, r.(ins := r.ins + [x], outs := r.outs + [y]))
  {
    hide ChainAt;
    var u := r.(ins := r.ins + [x], outs := r.outs + [y]);
    forall j | 0 <= j < |u.ins|
      ensures u.outs[j] == c.step(ChainAt(c, mode, u.start, u.ins[..j]), u.ins[j]).1
    {
      if j < |r.ins| {
        assert u.ins[..j] == r.ins[..j];
      } else {
        assert u.ins[..j] == r.ins;
      }
    }
  }

  lemma ChainSnoc<S>(c: Cipher<S>, mode: Mode, start: Start, xs: seq<seq<bv8>>, x: seq<bv8>)
    ensures ChainAt(c, mode, start, xs + [x]) == c.step(ChainAt(c, mode, start, xs), x).0
  {
    assert (xs + [x])[..|xs + [x]| - 1] == xs;
  }

  lemma NoChain<S>(c: Cipher<S>, mode: Mode, start: Start)
    ensures ChainAt(c, mode, start, []) == c.init(start.key, InitIv(mode, start.iv))
  {}

  lemma TextKept<S(!new)>(c: Cipher<S>, mode: Mode, encrypt: bool, r: Round, x: seq<bv8>, y: seq<bv8>, j: nat)
    requires Sized(c) && |r.start.iv| == 8
    requires |r.ins| == |r.outs| && Units(mode, r.ins) && Units(mode, r.outs) && j < |r.ins|
    requires |x| == |y| == UnitLen(mode)
    ensures var u := r.(ins := r.ins + [x], outs := r.outs + [y]);
      && Units(mode, u.ins) && Units(mode, u.outs)
      && TextAfter(c, mode, encrypt, u, j) == TextAfter(c, mode, encrypt, r, j)
  {
    hide ChainAt, NextText;
    var u := r.(ins := r.ins + [x], outs := r.outs + [y]);
    assert u.ins[..j] == r.ins[..j];
  }

  lemma TextsGrow<S(!new)>(c: Cipher<S>, mode: Mode, encrypt: bool, r: Round, x: seq<bv8>, y: seq<bv8>)
    requires Texts(c, mode, encrypt, r) && |x| == |y| == UnitLen(mode)
    requires if r.ins == [] then x == r.start.text else View(mode, x) == TextAfter(c, mode, encrypt, r, |r.ins| - 1)
    ensures Texts(c, mode, encrypt, r.(ins := r.ins + [x], outs := r.outs + [y]))
  {
    hide View, TextAfter;
    var u := r.(ins := r.ins + [x], outs := r.outs + [y]);
    forall j: nat | j + 1 < |u.ins|
      ensures Units(mode, u.ins) && Units(mode, u.outs) && View(mode, u.ins[j + 1]) == TextAfter(c, mode, encrypt, u, j)
    {
      TextKept(c, mode, encrypt, r, x, y, j);
    }
  }

  lemma TextsParts<S(!new)>(c: Cipher<S>, mode: Mode, encrypt: bool, r: Round)
    requires Texts(c, mode, encrypt, r)
    ensures Sized(c) && |r.start.iv| == 8 && |r.ins| == |r.outs| && Units(mode, r.ins) && Units(mode, r.outs)
    ensures r.ins != [] ==> r.ins[0] == r.start.text
  {}

  /** The text after the last step, from buffers that agree with it where they are looked at. */
  lemma TextMatches<S(!new)>(c: Cipher<S>, mode: Mode, encrypt: bool, r: Round, x: seq<bv8>, y: seq<bv8>,
          before: seq<bv8>, previous: seq<bv8>)
    requires Sized(c) && |r.start.iv| == 8 && |r.ins| == |r.outs| > 0 && Units(mode, r.ins) && Units(mode, r.outs)
    requires |x| >= 8 && |y| >= 8 && |before| >= 8 && |previous| >= 8
    requires x[..UnitLen(mode)] == r.ins[|r.ins| - 1] && y[..UnitLen(mode)] == r.outs[|r.ins| - 1]
    requires mode != ECB ==> before[..8] == Before(c, mode, r, |r.ins| - 1)
    requires mode != ECB ==> previous[..UnitLen(mode)] == Previous(r, |r.ins| - 1)[..UnitLen(mode)]
    ensures NextText(mode, encrypt, x, y, before, previous) == TextAfter(c, mode, encrypt, r, |r.ins| - 1)
  {
    hide View, ChainAt;
    var j := |r.ins| - 1;
    SameView(mode, x, r.ins[j]);
    SameView(mode, y, r.outs[j]);
    if mode != ECB {
      var b := Before(c, mode, r, j);
      assert before[..8] == b && before[..UnitLen(mode)] == b[..UnitLen(mode)];
      SameView(mode, before, b);
      SameView(mode, previous, Previous(r, j));
    }
  }

  // ----- over a whole run

  /** A key the driver made: odd parity everywhere and, unless there are three keys, the third is the first. */
  ghost predicate WellMade(option: nat, key: seq<bv8>) {
    && |key| == 24 && (forall n: nat :: n < 24 ==> Ones(key[n]) % 2 == 1)
    && (option != 1 ==> key[16..] == key[..8])
  }

  lemma MadeByMixing(option: nat, key: seq<bv8>, window: seq<bool>, next: seq<bv8>)
    requires NextKey(option, key, window, next)
    ensures WellMade(option, next)
  {
    hide Ones, GetBit;
    forall n: nat | n < 24
      ensures Ones(next[n]) % 2 == 1
    {
      if n < 16 || option == 1 {
        assert MixedByte(key[n], window[8 * Slot(n)..8 * Slot(n) + 8], next[n]);
      } else {
        assert MixedByte(key[n - 16], window[8 * Slot(n - 16)..8 * Slot(n - 16) + 8], next[n - 16]);
        assert next[n] == next[16..][n - 16] == next[..8][n - 16];
      }
    }
  }

  lemma NextStartKey<S(!new)>(c: Cipher<S>, mode: Mode, encrypt: bool, option: nat, r: Round, next: Start)
    requires NextStart(c, mode, encrypt, option, r, next)
    ensures Units(mode, r.outs) && WIDTH <= |Stream(mode, r.outs)|
    ensures NextKey(option, r.start.key, LastBits(Stream(mode, r.outs), WIDTH), next.key)
  {
    hide NextKey, Stream, View, TextAfter, ChainAt, LastBits;
  }

  /** Every key after the first is well made, whatever the first one was. */
  lemma KeysWellMade<S(!new)>(c: Cipher<S>, mode: Mode, encrypt: bool, option: nat, rounds: seq<Round>,
          last: Start, i: nat)
    requires MonteCarlo(c, mode, encrypt, option, rounds, last) && i < |rounds|
    ensures WellMade(option, Follower(rounds, last, i).key)
  {
    hide Texts, Answers, NextStart, NextKey, WellMade, Stream, LastBits;
    var r, next := rounds[i], Follower(rounds, last, i);
    assert RoundLaws(c, mode, encrypt, option, r, next);
    NextStartKey(c, mode, encrypt, option, r, next);
    MadeByMixing(option, r.start.key, LastBits(Stream(mode, r.outs), WIDTH), next.key);
  }

  // ----- what it means for a real cipher

  /** The register starts as the IV, and in CBC and CFB64 encryption it then holds the last output. */
  ghost predicate Genuine<S(!new)>(c: Cipher<S>, mode: Mode) {
    && (forall key: seq<bv8>, iv: seq<bv8> :: |iv| == 8 ==> c.register(c.init(key, iv)) == iv)
    && (mode == CBC || mode == CFB64 ==>
          forall s: S, x: seq<bv8> :: |x| == 8 ==> c.register(c.step(s, x).0) == c.step(s, x).1)
  }

  /** A toy cipher with block feedback: the state is the register, and a step is its xor with the input. */
  function Toy(): Cipher<seq<bv8>> {
    Cipher((key, iv) => Eight(iv),
           (s, x) => var y := if |x| == |s| then XorBytes(s, x) else x; (Eight(y), y),
           s => Eight(s))
  }

  /** The first eight bytes, filled up with zeros. */
  function Eight(s: seq<bv8>): (r: seq<bv8>)
    ensures |r| == 8 && (|s| == 8 ==> r == s)
  {
    if |s| >= 8 then s[..8] else s + seq(8 - |s|, _ => 0)
  }

  /** There are such ciphers, in every mode. */
  lemma GenuineExists(mode: Mode)
    ensures Sized(Toy()) && Genuine(Toy(), mode)
  {}

  lemma GenuinePrevious<S(!new)>(c: Cipher<S>, mode: Mode, r: Round, j: nat)
    requires Genuine(c, mode) && (mode == CBC || mode == CFB64) && Answers(c, mode, r) && j <= |r.ins|
    requires |r.start.iv| == 8 && Units(mode, r.ins)
    ensures Previous(r, j) == Before(c, mode, r, j) == c.register(ChainAt(c, mode, r.start, r.ins[..j]))
  {
    if j > 0 {
      assert r.ins[..j][..j - 1] == r.ins[..j - 1];
    } else {
      assert r.ins[..0] == [];
    }
  }

  /** In every encrypting mode with an IV, the next text is the head of the register before the step. */
  lemma EncryptionFeedsRegister<S(!new)>(c: Cipher<S>, mode: Mode, r: Round, j: nat)
    requires Genuine(c, mode) && mode != ECB && Answers(c, mode, r) && Texts(c, mode, true, r) && j + 1 < |r.ins|
    ensures |c.register(ChainAt(c, mode, r.start, r.ins[..j]))| == 8
    ensures View(mode, r.ins[j + 1]) == View(mode, c.register(ChainAt(c, mode, r.start, r.ins[..j])))
  {
    hide View;
    if mode == CBC || mode == CFB64 {
      GenuinePrevious(c, mode, r, j);
    }
    assert r.ins[..0] == [];
    assert View(mode, r.ins[j + 1]) == TextAfter(c, mode, true, r, j);
  }

  const ZERO: seq<bv8> := [0, 0, 0, 0, 0, 0, 0, 0]

  /** The lemma speaks of something: two steps of the toy cipher that meet all its conditions. */
  lemma EncryptionExample(key: seq<bv8>)
    ensures var r := Round(Start(key, ZERO, ZERO), [ZERO, ZERO], [ZERO, ZERO]);
      Genuine(Toy(), CBC) && Answers(Toy(), CBC, r) && Texts(Toy(), CBC, true, r)
  {
    hide View;
    var c, start := Toy(), Start(key, ZERO, ZERO);
    var r := Round(start, [ZERO, ZERO], [ZERO, ZERO]);
    GenuineExists(CBC);
    assert XorBytes(ZERO, ZERO) == ZERO;
    NoChain(c, CBC, start);
    ChainSnoc(c, CBC, start, [], ZERO);
    assert r.ins[..0] == [] && r.ins[..1] == [] + [ZERO];
    assert c.step(ZERO, ZERO) == (ZERO, ZERO);
  }
}
