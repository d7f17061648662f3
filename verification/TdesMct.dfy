/**
 The TDES Monte Carlo driver: the adjustment after every call of the cipher, the register of the
 last output bits, and the key change that closes a round.
 */
module TdesMct {
  import opened Bits
  import opened ShiftRegister
  import opened TdesParity
  import opened TdesLaw

  const KEY_MAX := 64
  const IV_MAX := 128
  const TEXT_MAX := 16384
  const TEXT_ROWS := 10001
  const TEXT_ROW := 8
  const NK_LEN := 32
  const CFB1_BIT_MASK: bv8 := 0x80

  /** One entry of the response. */
  datatype Report = Report(key1: seq<bv8>, key2: seq<bv8>, key3: seq<bv8>,
                           iv: seq<bv8>, text: seq<bv8>, answer: seq<bv8>)

  predicate Table(t: seq<seq<bv8>>) {
    |t| == TEXT_ROWS && forall k :: 0 <= k < TEXT_ROWS ==> |t[k]| == TEXT_ROW
  }

  class TdesMct<S(!new)> {
    const cipher: Cipher<S>
    const mode: Mode
    const encrypt: bool
    const keyingOption: nat

    // the test case and the cipher context it drives
    var key: seq<bv8>
    var iv: seq<bv8>
    var pt: seq<bv8>
    var ct: seq<bv8>
    var ivRet: seq<bv8>
    var ivRetAfter: seq<bv8>
    var mctIndex: nat
    var context: S

    var oldIv: seq<bv8>
    var ptext: seq<seq<bv8>>
    var ctext: seq<seq<bv8>>

    var results: seq<Report>

    // the round under way
    ghost var round: Round

    /** A test case as parsed; tables, old IV and cipher context hold whatever earlier runs left. */
    constructor (cipher: Cipher<S>, mode: Mode, encrypt: bool, keyingOption: nat,
                 key: seq<bv8>, iv: seq<bv8>, pt: seq<bv8>, ct: seq<bv8>, context: S,
                 oldIv: seq<bv8>, ptext: seq<seq<bv8>>, ctext: seq<seq<bv8>>)
      requires |key| == KEY_MAX && |iv| == IV_MAX && |pt| == |ct| == TEXT_MAX && |oldIv| == 8
      requires Table(ptext) && Table(ctext)
      ensures Shapes() && this.cipher == cipher && this.mode == mode && this.encrypt == encrypt
      ensures this.keyingOption == keyingOption && this.key == key && this.iv == iv && this.pt == pt && this.ct == ct
      ensures results == []
    {
      this.cipher, this.mode, this.encrypt, this.keyingOption := cipher, mode, encrypt, keyingOption;
      this.key, this.iv, this.pt, this.ct, this.mctIndex, this.context := key, iv, pt, ct, 0, context;
      this.ivRet, this.ivRetAfter := seq(IV_MAX, _ => 0), seq(IV_MAX, _ => 0);
      this.oldIv, this.ptext, this.ctext := oldIv, ptext, ctext;
      this.results := [];
      this.round := Round(Start([], [], []), [], []);
    }

    ghost predicate Shapes()
      reads this
    {
      && |key| == KEY_MAX && |iv| == |ivRet| == |ivRetAfter| == IV_MAX && |pt| == |ct| == TEXT_MAX
      && |oldIv| == 8 && Table(ptext) && Table(ctext)
    }

    /** The buffer the cipher reads, the one it writes, and the history of both. */
    function In(): seq<bv8> reads `pt, `ct { if encrypt then pt else ct }

    function Out(): seq<bv8> reads `pt, `ct { if encrypt then ct else pt }

    function InRows(): seq<seq<bv8>> reads `ptext, `ctext { if encrypt then ptext else ctext }

    function OutRows(): seq<seq<bv8>> reads `ptext, `ctext { if encrypt then ctext else ptext }

    /** One call of the crypto handler: initialise on index 0 or else report the register, process
     one unit, and report the register again. */
    method Process()
      requires Shapes() && Sized(cipher)
      modifies `pt, `ct, `context, `ivRet, `ivRetAfter
      ensures Shapes() && In() == old(In())
      ensures var s := if mctIndex == 0 then cipher.init(key[..24], InitIv(mode, iv[..8])) else old(context);
        && (context, Out()[..UnitLen(mode)]) == cipher.step(s, old(In())[..UnitLen(mode)])
        && ivRet == (if mctIndex == 0 then old(ivRet) else Copy(old(ivRet), cipher.register(s), 8))
      ensures ivRetAfter[..8] == cipher.register(context)
    {
      if mctIndex == 0 {
        context := cipher.init(key[..24], InitIv(mode, iv[..8]));
      } else {
        ivRet := Copy(ivRet, cipher.register(context), 8);
      }
      if encrypt {
        var (s, y) := cipher.step(context, pt[..UnitLen(mode)]);
        context, ct := s, Copy(ct, y, UnitLen(mode));
        assert ct[..UnitLen(mode)] == y;
      } else {
        var (s, y) := cipher.step(context, ct[..UnitLen(mode)]);
        context, pt := s, Copy(pt, y, UnitLen(mode));
        assert pt[..UnitLen(mode)] == y;
      }
      CopyPrefix(ivRetAfter, cipher.register(context), 8);
      ivRetAfter := Copy(ivRetAfter, cipher.register(context), 8);
    }

    /** Files the texts and prepares the next step. */
    method Iterate()
      requires Shapes() && mctIndex < INNER
      modifies `ptext, `ctext, `pt, `ct, `iv
      ensures Shapes() && Out() == old(Out())
      ensures InRows()[mctIndex][..UnitLen(mode)] == old(In())[..UnitLen(mode)]
      ensures OutRows()[mctIndex][..UnitLen(mode)] == Out()[..UnitLen(mode)]
      ensures forall k :: 0 <= k < TEXT_ROWS && k != mctIndex ==>
        InRows()[k] == old(InRows()[k]) && OutRows()[k] == old(OutRows()[k])
      ensures View(mode, In())
        == NextText(mode, encrypt, old(In()), Out(), if mctIndex == 0 then oldIv else ivRet,
                    if mctIndex == 0 then oldIv else OutRows()[mctIndex - 1])
    {
      hide View, NextText;
      Record();
      match mode
      case ECB => IterateEcb();
      case CBC => IterateCbc();
      case CFB64 => IterateCfb64();
      case OFB => IterateOfb();
      case CFB8 => IterateCfb();
      case CFB1 => IterateCfb();
    }

    method Record()
      requires Shapes() && mctIndex < INNER
      modifies `ptext, `ctext
      ensures Shapes()
      ensures InRows()[mctIndex][..UnitLen(mode)] == In()[..UnitLen(mode)]
      ensures OutRows()[mctIndex][..UnitLen(mode)] == Out()[..UnitLen(mode)]
      ensures forall k :: 0 <= k < TEXT_ROWS && k != mctIndex ==>
        InRows()[k] == old(InRows()[k]) && OutRows()[k] == old(OutRows()[k])
    {
      var j := mctIndex;
      CopyPrefix(ctext[j], ct, UnitLen(mode));
      CopyPrefix(ptext[j], pt, UnitLen(mode));
      ctext := ctext[j := Copy(ctext[j], ct, UnitLen(mode))];
      ptext := ptext[j := Copy(ptext[j], pt, UnitLen(mode))];
    }

    /** The text after the step that has just been filed. */
    ghost function Next(x: seq<bv8>): seq<bool>
      reads this
      requires Shapes() && mctIndex < INNER && |x| == TEXT_MAX
    {
      NextText(mode, encrypt, x, Out(), if mctIndex == 0 then oldIv else ivRet,
               if mctIndex == 0 then oldIv else OutRows()[mctIndex - 1])
    }

    method IterateEcb()
      requires Shapes() && mctIndex < INNER && mode == ECB
      modifies `pt, `ct
      ensures Shapes() && Out() == old(Out()) && View(mode, In()) == Next(old(In()))
    {
      if encrypt {
        pt := Copy(pt, ct, 8);
      } else {
        ct := Copy(ct, pt, 8);
      }
      SameView(mode, In(), Out());
    }

    method IterateCbc()
      requires Shapes() && mctIndex < INNER && mode == CBC
      requires OutRows()[mctIndex][..8] == Out()[..8]
      modifies `pt, `ct, `iv
      ensures Shapes() && Out() == old(Out()) && View(mode, In()) == Next(old(In()))
    {
      var j := mctIndex;
      if encrypt {
        if j == 0 {
          pt := Copy(pt, oldIv, 8);
        } else {
          pt := Copy(pt, ctext[j - 1], 8);
        }
        iv := Copy(iv, ctext[j], 8);
        SameView(mode, pt, if j == 0 then oldIv else ctext[j - 1]);
      } else {
        ct := Copy(ct, ptext[j], 8);
        if j != 0 {
          iv := Copy(iv, ptext[j - 1], 8);
        }
        SameView(mode, ct, pt);
      }
    }

    method IterateCfb64()
      requires Shapes() && mctIndex < INNER && mode == CFB64
      modifies `pt, `ct, `iv
      ensures Shapes() && Out() == old(Out()) && View(mode, In()) == Next(old(In()))
    {
      var j := mctIndex;
      if encrypt {
        if j == 0 {
          pt := Copy(pt, oldIv, 8);
        } else {
          pt := Copy(pt, ctext[j - 1], 8);
        }
        iv := Copy(iv, ctext[j], 8);
        SameView(mode, pt, if j == 0 then oldIv else ctext[j - 1]);
      } else {
        XorCipherText();
      }
    }

    method IterateOfb()
      requires Shapes() && mctIndex < INNER && mode == OFB
      modifies `pt, `ct
      ensures Shapes() && Out() == old(Out()) && View(mode, In()) == Next(old(In()))
    {
      if encrypt {
        if mctIndex == 0 {
          pt := Copy(pt, oldIv, 8);
        } else {
          pt := Copy(pt, ivRet, 8);
        }
      } else {
        if mctIndex == 0 {
          ct := Copy(ct, oldIv, 8);
        } else {
          ct := Copy(ct, ivRet, 8);
        }
      }
      SameView(mode, In(), if mctIndex == 0 then oldIv else ivRet);
    }

    method IterateCfb()
      requires Shapes() && mctIndex < INNER && (mode == CFB8 || mode == CFB1)
      modifies `pt, `ct, `iv
      ensures Shapes() && Out() == old(Out()) && View(mode, In()) == Next(old(In()))
    {
      if encrypt {
        if mctIndex == 0 {
          pt := Copy(pt, oldIv, 8);
        } else {
          pt := Copy(pt, ivRet, 8);
        }
        SameView(mode, pt, if mctIndex == 0 then oldIv else ivRet);
      } else {
        XorCipherText();
      }
    }

    /** The bytewise exclusive or of the first eight bytes, over those of `dst`. */
    static method XorPrefix(dst: seq<bv8>, a: seq<bv8>, b: seq<bv8>) returns (r: seq<bv8>)
      requires |dst| >= 8 && |a| >= 8 && |b| >= 8
      ensures |r| == |dst| && r[8..] == dst[8..]
      ensures forall k :: 0 <= k < 8 ==> r[k] == a[k] ^ b[k]
    {
      r := dst;
      var n := 0;
      while n < 8
        invariant n <= 8 && |r| == |dst|
        invariant forall k :: 0 <= k < n ==> r[k] == a[k] ^ b[k]
        invariant forall k :: n <= k < |dst| ==> r[k] == dst[k]
      {
        r := r[n := a[n] ^ b[n]];
        n := n + 1;
      }
    }

    /** CFB decryption: the next cipher text is this one xor the plain text, eight bytes wide. */
    method XorCipherText()
      requires Shapes() && !encrypt
      modifies `ct, `iv
      ensures Shapes()
      ensures View(mode, ct) == XorBits(View(mode, old(ct)), View(mode, pt))
    {
      ct := XorPrefix(ct, ct, pt);
      XorView(mode, old(ct), pt, ct);
      iv := XorPrefix(iv, pt, ct);
    }

    // ----- a step

    /** The fields after `j` steps agree with the round under way; `nk` holds the last 192 bits of
     `before`, what it held when the round began, and the outputs since. */
    ghost predicate Between(j: nat, nk: array<bv8>, before: seq<bool>)
      reads this, nk
    {
      && Shapes() && j <= INNER && Told(j) && Gathered(nk, before) && Filed(j)
      && (j == 0 ==> In()[..UnitLen(mode)] == round.start.text && iv[..8] == round.start.iv)
      && (j > 0 ==> View(mode, In()) == TextAfter(cipher, mode, encrypt, round, j - 1) && Held(j))
    }

    /** The round under way obeys the laws so far. */
    ghost predicate Told(j: nat)
      reads `key, `round
    {
      && Sized(cipher) && |key| == KEY_MAX && |round.ins| == |round.outs| == j
      && Answers(cipher, mode, round) && Texts(cipher, mode, encrypt, round)
      && round.start.key == key[..24] && |round.start.text| == UnitLen(mode)
    }

    ghost predicate Gathered(nk: array<bv8>, before: seq<bool>)
      reads `round, nk
    {
      && Units(mode, round.outs) && nk.Length == NK_LEN && |before| == WIDTH
      && ToBits(nk[..BYTES]) == LastBits(before + Stream(mode, round.outs), WIDTH)
    }

    /** The history rows hold the outputs and the first text. */
    ghost predicate Filed(j: nat)
      reads `round, `ptext, `ctext
    {
      && Table(ptext) && Table(ctext) && j <= |round.outs| && j < TEXT_ROWS && Units(mode, round.outs)
      && (forall k :: 0 <= k < j ==> OutRows()[k][..UnitLen(mode)] == round.outs[k])
      && (j > 0 ==> InRows()[0][..UnitLen(mode)] == round.start.text)
    }

    /** The cipher context and the IVs after at least one step. */
    ghost predicate Held(j: nat)
      reads `round, `context, `oldIv, `ivRet, `ivRetAfter
    {
      && 0 < j <= |round.ins| && |ivRet| == |ivRetAfter| == IV_MAX
      && context == ChainAt(cipher, mode, round.start, round.ins)
      && ivRetAfter[..8] == cipher.register(context)
      && (mode != ECB ==> oldIv == round.start.iv)
      && (j > 1 ==> ivRet[..8] == Before(cipher, mode, round, j - 1))
    }

    /** Saves the IV on the first step and calls the cipher. */
    method Call(j: nat)
      requires j < INNER && Shapes() && Sized(cipher) && |round.ins| == j && |round.start.iv| == 8
      requires j == 0 ==> key[..24] == round.start.key && iv[..8] == round.start.iv
      requires j > 0 ==> context == ChainAt(cipher, mode, round.start, round.ins)
      requires j > 0 && mode != ECB ==> oldIv == round.start.iv
      modifies `mctIndex, `oldIv, `pt, `ct, `context, `ivRet, `ivRetAfter
      ensures Shapes() && mctIndex == j && In() == old(In())
      ensures (context, Out()[..UnitLen(mode)])
        == cipher.step(ChainAt(cipher, mode, round.start, round.ins), In()[..UnitLen(mode)])
      ensures mode != ECB ==> oldIv == round.start.iv
      ensures j > 0 ==> ivRet[..8] == Before(cipher, mode, round, j)
      ensures ivRetAfter[..8] == cipher.register(context)
    {
      hide ChainAt;
      if j == 0 {
        NoChain(cipher, mode, round.start);
        assert round.ins == [];
        CopyPrefix(oldIv, iv, if mode == ECB then 0 else 8);
        oldIv := Copy(oldIv, iv, if mode == ECB then 0 else 8);
      } else {
        CopyPrefix(ivRet, cipher.register(context), 8);
        assert round.ins[..j] == round.ins;
      }
      mctIndex := j;
      Process();
    }

    /** Calls the cipher for step `j`, which lengthens the round. */
    method Ask(j: nat)
      requires j < INNER && Shapes() && Told(j) && Filed(j)
      requires j == 0 ==> In()[..UnitLen(mode)] == round.start.text && iv[..8] == round.start.iv
      requires j > 0 ==> View(mode, In()) == TextAfter(cipher, mode, encrypt, round, j - 1) && Held(j)
      modifies `mctIndex, `oldIv, `pt, `ct, `context, `ivRet, `ivRetAfter, `round
      ensures Shapes() && mctIndex == j && Told(j + 1) && Filed(j) && Held(j + 1)
      ensures round == old(round).(ins := round.ins, outs := old(round).outs + [Out()[..UnitLen(mode)]])
      ensures In()[..UnitLen(mode)] == round.ins[j]
    {
      hide View, TextAfter, ChainAt, Answers, Texts, Units;
      ghost var r := round;
      TextsParts(cipher, mode, encrypt, r);
      Call(j);
      ghost var x, y := In()[..UnitLen(mode)], Out()[..UnitLen(mode)];
      SameView(mode, In(), x);
      AnswersGrow(cipher, mode, r, x, y);
      TextsGrow(cipher, mode, encrypt, r, x, y);
      ChainSnoc(cipher, mode, r.start, r.ins, x);
      round := r.(ins := r.ins + [x], outs := r.outs + [y]);
      TextsParts(cipher, mode, encrypt, round);
      assert round.ins[..j] == r.ins[..j];
    }

    /** Calls the cipher for step `j` and gathers its output. */
    method Consult(j: nat, nk: array<bv8>, ghost before: seq<bool>)
      requires j < INNER && Between(j, nk, before)
      modifies `mctIndex, `oldIv, `pt, `ct, `context, `ivRet, `ivRetAfter, `round, nk
      ensures Shapes() && mctIndex == j && Told(j + 1) && Gathered(nk, before) && Filed(j) && Held(j + 1)
      ensures round.start == old(round.start)
      ensures In()[..UnitLen(mode)] == round.ins[j] && Out()[..UnitLen(mode)] == round.outs[j]
    {
      hide View, TextAfter, Stream, ToBits, Held, Filed, ChainAt, Answers, Texts, Value, Pow2, Shifted;
      ghost var outs := round.outs;
      Ask(j);
      ShiftIn(nk, Out(), BitLen(mode));
      Gathering(before, outs, Out()[..UnitLen(mode)], Out(), old(ToBits(nk[..BYTES])), ToBits(nk[..BYTES]));
    }

    lemma Gathering(before: seq<bool>, outs: seq<seq<bv8>>, y: seq<bv8>, out: seq<bv8>, was: seq<bool>, now: seq<bool>)
      requires |before| == WIDTH && Units(mode, outs) && |y| == UnitLen(mode) && |out| >= 8 && y == out[..UnitLen(mode)]
      requires was == LastBits(before + Stream(mode, outs), WIDTH)
      requires now == Shifted(was, ToBits(out)[..BitLen(mode)])
      ensures Units(mode, outs + [y]) && now == LastBits(before + Stream(mode, outs + [y]), WIDTH)
    {
      hide Stream, ToBits;
      StreamSnoc(mode, outs, y);
      SameView(mode, out, y);
      ShiftedStream(before, Stream(mode, outs), View(mode, y));
    }

    /** Files the answer and prepares the next step. */
    method Advance(j: nat, nk: array<bv8>, ghost before: seq<bool>)
      requires j < INNER && mctIndex == j
      requires Shapes() && Told(j + 1) && Gathered(nk, before) && Filed(j) && Held(j + 1)
      requires In()[..UnitLen(mode)] == round.ins[j] && Out()[..UnitLen(mode)] == round.outs[j]
      modifies `ptext, `ctext, `pt, `ct, `iv
      ensures Between(j + 1, nk, before) && Out() == old(Out())
    {
      hide View, ChainAt, Answers, Texts, Stream, ToBits, NextText;
      TextsParts(cipher, mode, encrypt, round);
      ghost var x := In();
      Iterate();
      TextMatches(cipher, mode, encrypt, round, x, Out(), if j == 0 then oldIv else ivRet,
                  if j == 0 then oldIv else OutRows()[j - 1]);
    }

    // ----- a round

    method InnerLoop(nk: array<bv8>, ghost before: seq<bool>)
      requires Between(0, nk, before)
      modifies `mctIndex, `oldIv, `pt, `ct, `context, `ivRet, `ivRetAfter, `round, `ptext, `ctext, `iv, nk
      ensures Between(INNER, nk, before) && round.start == old(round.start)
      ensures |round.outs| == INNER && Out()[..UnitLen(mode)] == round.outs[INNER - 1]
    {
      hide View, TextAfter, Told, Gathered, Filed, Held;
      var j := 0;
      while j < INNER
        invariant j <= INNER && Between(j, nk, before) && round.start == old(round.start)
        invariant j > 0 ==> |round.outs| == j && Out()[..UnitLen(mode)] == round.outs[j - 1]
      {
        Consult(j, nk, before);
        ToldLength(j + 1);
        Advance(j, nk, before);
        j := j + 1;
      }
    }

    lemma ToldLength(j: nat)
      requires Told(j)
      ensures |round.outs| == j
    {}

    /** Eight key bytes xor eight bytes of `nk`. */
    method XorSlice(at: nat, nk: array<bv8>, from: nat)
      requires Shapes() && nk.Length == NK_LEN && at <= 16 && from <= 16
      modifies `key
      ensures Shapes()
      ensures forall k :: at <= k < at + 8 ==> key[k] == old(key)[k] ^ nk[from + k - at]
      ensures forall k :: 0 <= k < at || at + 8 <= k < KEY_MAX ==> key[k] == old(key)[k]
    {
      var n := 0;
      while n < 8
        invariant n <= 8 && |key| == KEY_MAX
        invariant forall k :: at <= k < at + n ==> key[k] == old(key)[k] ^ nk[from + k - at]
        invariant forall k :: 0 <= k < at || at + n <= k < KEY_MAX ==> key[k] == old(key)[k]
      {
        key := key[at + n := key[at + n] ^ nk[from + n]];
        n := n + 1;
      }
    }

    /** The first eight key bytes over the last. */
    method RepeatFirst()
      requires Shapes()
      modifies `key
      ensures Shapes() && forall k :: 0 <= k < 16 ==> key[k] == old(key)[k]
      ensures forall k :: 0 <= k < 8 ==> key[16 + k] == key[k]
    {
      var n := 0;
      while n < 8
        invariant n <= 8 && |key| == KEY_MAX
        invariant forall k :: 0 <= k < 16 ==> key[k] == old(key)[k]
        invariant forall k :: 0 <= k < n ==> key[16 + k] == key[k]
      {
        key := key[16 + n := key[n]];
        n := n + 1;
      }
    }

    /** The new key, before parity: the slices of `nk`, last one first. */
    method MixKey(nk: array<bv8>)
      requires Shapes() && nk.Length == NK_LEN
      modifies `key
      ensures Shapes()
      ensures forall n: nat :: n < 16 || (n < 24 && keyingOption == 1) ==> key[n] == old(key)[n] ^ nk[Slot(n)]
      ensures keyingOption != 1 ==> forall n :: 0 <= n < 8 ==> key[16 + n] == key[n]
    {
      XorSlice(0, nk, 16);
      XorSlice(8, nk, 8);
      assert forall n: nat :: n < 16 ==> key[n] == old(key)[n] ^ nk[Slot(n)];
      if keyingOption == 1 {
        XorSlice(16, nk, 0);
      } else {
        RepeatFirst();
      }
    }

    method SetOddParity()
      requires Shapes()
      modifies `key
      ensures Shapes() && forall k :: 0 <= k < 24 ==> key[k] == ParityTable(old(key)[k])
    {
      hide ParityTable;
      var i := 0;
      while i < 24
        invariant i <= 24 && |key| == KEY_MAX
        invariant forall k :: 0 <= k < i ==> key[k] == ParityTable(old(key)[k])
        invariant forall k :: i <= k < KEY_MAX ==> key[k] == old(key)[k]
      {
        key := key[i := ParityTable(key[i])];
        i := i + 1;
      }
    }

    method ChangeKey(nk: array<bv8>)
      requires Shapes() && nk.Length == NK_LEN
      modifies `key
      ensures Shapes() && NextKey(keyingOption, old(key)[..24], ToBits(nk[..BYTES]), key[..24])
    {
      hide ParityTable;
      MixKey(nk);
      ghost var mixed := key;
      SetOddParity();
      if keyingOption != 1 {
        forall k | 0 <= k < 8
          ensures key[..24][16..][k] == key[..24][..8][k]
        {
          assert mixed[16 + k] == mixed[k];
        }
      }
      KeyMade(keyingOption, old(key)[..24], nk[..BYTES], key[..24]);
    }

    /** OFB restarts from the first text of the round xor the register before its last step. */
    method Restart()
      requires Shapes() && mode == OFB
      modifies `pt, `ct
      ensures Shapes() && Out() == old(Out())
      ensures View(mode, In()) == XorBits(View(mode, InRows()[0]), View(mode, ivRet))
    {
      if encrypt {
        pt := XorPrefix(pt, ptext[0], ivRet);
      } else {
        ct := XorPrefix(ct, ctext[0], ivRet);
      }
      XorView(mode, InRows()[0], ivRet, In());
    }

    /** What the test case holds for the next round. */
    function Now(): Start
      reads `key, `iv, `pt, `ct
      requires |key| == KEY_MAX && |iv| == IV_MAX && |pt| == |ct| == TEXT_MAX
    {
      Start(key[..24], iv[..8], In()[..UnitLen(mode)])
    }

    /** Closes a round: changes the key, takes over the register as IV, restarts OFB. */
    method Close(nk: array<bv8>, ghost before: seq<bool>)
      requires Between(INNER, nk, before)
      modifies `key, `iv, `pt, `ct
      ensures Shapes() && NextStart(cipher, mode, encrypt, keyingOption, round, Now()) && Out() == old(Out())
    {
      hide View, ChainAt, Answers, Texts, NextKey, NextText, Stream, ToBits, TextAfter;
      TextsParts(cipher, mode, encrypt, round);
      ChangeKey(nk);
      Forgotten(before, Stream(mode, round.outs));
      StreamLong(mode, round.outs);
      CopyPrefix(iv, ivRetAfter, 8);
      iv := Copy(iv, ivRetAfter, 8);
      if mode == OFB {
        Restart();
        SameView(mode, InRows()[0], round.ins[0]);
        SameView(mode, ivRet, Before(cipher, mode, round, INNER - 1));
      }
      SameView(mode, In(), In()[..UnitLen(mode)]);
    }

    /** The report of a round. */
    ghost function Reported(r: Round): Report
      requires |r.start.key| == 24 && |r.outs| > 0 && |r.outs[|r.outs| - 1]| == UnitLen(mode)
    {
      Report(r.start.key[..8], r.start.key[8..16], r.start.key[16..], InitIv(mode, r.start.iv), r.start.text,
             Masked(r.outs[|r.outs| - 1]))
    }

    /** A unit as it is reported: CFB1 encryption keeps only the bit that counts. */
    function Masked(unit: seq<bv8>): seq<bv8>
      requires |unit| == UnitLen(mode)
    {
      if encrypt && mode == CFB1 then [unit[0] & CFB1_BIT_MASK] else unit
    }

    lemma MaskedText(text: seq<bv8>)
      requires |text| == UnitLen(mode)
      ensures |Masked(text)| == UnitLen(mode) && View(mode, Masked(text)) == View(mode, text)
    {
      if encrypt && mode == CFB1 {
        MaskedView(text, Masked(text));
      }
    }

    /** Masks the text of a CFB1 encryption, reports what the round starts from, and begins it. */
    method Begin(nk: array<bv8>) returns (report: Report)
      requires Shapes() && Sized(cipher) && nk.Length == NK_LEN
      modifies `pt, `round
      ensures Between(0, nk, ToBits(nk[..BYTES]))
      ensures round.start == old(Now()).(text := Masked(old(Now().text)))
      ensures report == Report(round.start.key[..8], round.start.key[8..16], round.start.key[16..],
                               InitIv(mode, round.start.iv), round.start.text, [])
    {
      hide ChainAt, Answers, Texts, Stream, ToBits, View, TextAfter, Held, Units;
      if encrypt && mode == CFB1 {
        pt := pt[0 := pt[0] & CFB1_BIT_MASK];
        assert pt[..1] == [pt[0]] && old(pt)[..1] == [old(pt)[0]];
      }
      report := Report(key[..8], key[8..16], key[16..24], InitIv(mode, iv[..8]), In()[..UnitLen(mode)], []);
      round := Round(Now(), [], []);
      StartRound(cipher, mode, encrypt, Now());
      assert ToBits(nk[..BYTES]) + [] == ToBits(nk[..BYTES]);
      assert key[..24][..8] == key[..8] && key[..24][8..16] == key[8..16] && key[..24][16..] == key[16..24];
    }

    /** Masks the answer of a CFB1 encryption. */
    method MaskAnswer() returns (answer: seq<bv8>)
      requires Shapes()
      modifies `ct
      ensures Shapes() && In() == old(In()) && answer == Masked(old(Out())[..UnitLen(mode)])
    {
      if encrypt && mode == CFB1 {
        ct := ct[0 := ct[0] & CFB1_BIT_MASK];
        answer := ct[..1];
        assert ct[..1] == [ct[0]] && old(ct)[..1] == [old(ct)[0]];
      } else {
        answer := Out()[..UnitLen(mode)];
      }
    }

    /** One round: report, run the inner loop, close. */
    method DoRound(nk: array<bv8>)
      requires Shapes() && Sized(cipher) && nk.Length == NK_LEN
      modifies this, nk
      ensures Shapes() && RoundLaws(cipher, mode, encrypt, keyingOption, round, Now())
      ensures round.start == old(Now()).(text := Masked(old(Now()).text))
      ensures Texts(cipher, mode, encrypt, round) && |round.start.key| == 24 && |round.outs| == 10000
      ensures results == old(results) + [Reported(round)]
    {
      hide View, ChainAt, Answers, Texts, NextText, Stream, ToBits, TextAfter, NextStart, Gathered, Filed, Held, Units;
      ghost var before := ToBits(nk[..BYTES]);
      var report := Begin(nk);
      InnerLoop(nk, before);
      TextsParts(cipher, mode, encrypt, round);
      Close(nk, before);
      var answer := MaskAnswer();
      results := results + [report.(answer := answer)];
    }

    /** The whole test. The buffer of the last output bits starts out uninitialised. */
    method Run() returns (ghost rounds: seq<Round>)
      requires Shapes() && Sized(cipher) && results == []
      modifies this
      ensures Shapes() && |rounds| == 400 && MonteCarlo(cipher, mode, encrypt, keyingOption, rounds, Now())
      ensures rounds[0].start.key == old(key[..24]) && rounds[0].start.iv == old(iv[..8])
      ensures var text := old(if encrypt then pt else ct);
        rounds[0].start.text == if encrypt && mode == CFB1 then [text[0] & 0x80] else text[..UnitLen(mode)]
      ensures |results| == 400 && forall i :: 0 <= i < 400 ==>
        var start, outs := rounds[i].start, rounds[i].outs;
        && |start.key| == 24 && |outs| == 10000 && |outs[9999]| > 0
        && results[i] == Report(start.key[..8], start.key[8..16], start.key[16..],
                                if mode == ECB then [] else start.iv, start.text,
                                if encrypt && mode == CFB1 then [outs[9999][0] & 0x80] else outs[9999])
    {
      hide View, RoundLaws, Texts, MonteCarlo;
      var nk := new bv8[NK_LEN];
      rounds := [];
      NoRounds(cipher, mode, encrypt, keyingOption, Now());
      var i := 0;
      while i < OUTER
        invariant i <= OUTER && Shapes() && |rounds| == i && nk.Length == NK_LEN && fresh(nk)
        invariant MonteCarlo(cipher, mode, encrypt, keyingOption, rounds, Now())
        invariant i == 0 ==> Now() == old(Now())
        invariant i > 0 ==> rounds[0].start == old(Now()).(text := Masked(old(Now()).text))
        invariant |results| == i && forall k :: 0 <= k < i ==>
          && |rounds[k].start.key| == 24 && |rounds[k].outs| == 10000 && Units(mode, rounds[k].outs)
          && results[k] == Reported(rounds[k])
      {
        ghost var start := Now();
        DoRound(nk);
        TextsParts(cipher, mode, encrypt, round);
        MaskedText(start.text);
        MoreRounds(cipher, mode, encrypt, keyingOption, rounds, start, round, Now());
        rounds := rounds + [round];
        i := i + 1;
      }
    }
  }
}
