/**
 The AES Monte Carlo driver: the history tables, the adjustment after every call of the cipher,
 and the closing of a round.
 */
module AesMct {
  import opened Bits
  import opened AesLaw
  import opened AesRun

  const KEY_MAX := 64
  const IV_MAX := 128
  const TEXT_MAX := 16384
  const KEY_ROWS := 101
  const KEY_ROW := 32
  const IV_ROWS := 101
  const IV_ROW := 16
  const TEXT_ROWS := 1001
  const TEXT_ROW := 32
  const MCT_CT_LEN := 68

  /** One entry of the response: what the round started from and what it ended in. */
  datatype Report = Report(key: seq<bv8>, iv: seq<bv8>, text: seq<bv8>, answer: seq<bv8>)

  predicate Table(t: seq<seq<bv8>>, rows: nat, len: nat) {
    |t| == rows && forall k :: 0 <= k < rows ==> |t[k]| == len
  }

  class AesMct<S(!new)> {
    const crypto: Crypto<S>
    const mode: Mode
    const encrypt: bool
    const keyLen: nat

    // the test case and the cipher context it drives
    var key: seq<bv8>
    var iv: seq<bv8>
    var pt: seq<bv8>
    var ct: seq<bv8>
    var mctIndex: nat
    var context: S

    // the history tables
    var mkey: seq<seq<bv8>>
    var miv: seq<seq<bv8>>
    var ptext: seq<seq<bv8>>
    var ctext: seq<seq<bv8>>

    var results: seq<Report>

    // what has gone through the cipher so far, and the bits of the text it began with
    ghost var run: Trace
    ghost var first: seq<bool>

    /** A test case as parsed, over tables and a cipher context that hold whatever earlier runs left. */
    constructor (crypto: Crypto<S>, mode: Mode, encrypt: bool, keyLen: nat,
                 key: seq<bv8>, iv: seq<bv8>, pt: seq<bv8>, ct: seq<bv8>, context: S,
                 mkey: seq<seq<bv8>>, miv: seq<seq<bv8>>, ptext: seq<seq<bv8>>, ctext: seq<seq<bv8>>)
      requires keyLen == 128 || keyLen == 192 || keyLen == 256
      requires |key| == KEY_MAX && |iv| == IV_MAX && |pt| == |ct| == TEXT_MAX
      requires Table(mkey, KEY_ROWS, KEY_ROW) && Table(miv, IV_ROWS, IV_ROW)
      requires Table(ptext, TEXT_ROWS, TEXT_ROW) && Table(ctext, TEXT_ROWS, TEXT_ROW)
      ensures Shapes() && this.crypto == crypto && this.mode == mode && this.encrypt == encrypt
      ensures this.keyLen == keyLen && this.key == key && this.iv == iv && this.pt == pt && this.ct == ct
      ensures results == []
    {
      this.crypto, this.mode, this.encrypt, this.keyLen := crypto, mode, encrypt, keyLen;
      this.key, this.iv, this.pt, this.ct, this.mctIndex, this.context := key, iv, pt, ct, 0, context;
      this.mkey, this.miv, this.ptext, this.ctext := mkey, miv, ptext, ctext;
      this.results := [];
      this.run, this.first := Trace([], [], [], []), [];
    }

    ghost predicate Shapes()
      reads this
    {
      && (keyLen == 128 || keyLen == 192 || keyLen == 256)
      && |key| == KEY_MAX && |iv| == IV_MAX && |pt| == |ct| == TEXT_MAX
      && Table(mkey, KEY_ROWS, KEY_ROW) && Table(miv, IV_ROWS, IV_ROW)
      && Table(ptext, TEXT_ROWS, TEXT_ROW) && Table(ctext, TEXT_ROWS, TEXT_ROW)
    }

    /** The buffer the cipher reads, the one it writes, and the history of the latter. */
    function In(): seq<bv8> reads `pt, `ct { if encrypt then pt else ct }

    function Out(): seq<bv8> reads `pt, `ct { if encrypt then ct else pt }

    function History(): seq<seq<bv8>> reads `ptext, `ctext { if encrypt then ctext else ptext }

    /** Where the units of the IV come from while round `i` runs. */
    function IvSource(i: nat): seq<bv8>
      reads this
      requires Shapes() && i < IV_ROWS
    {
      if mode == CFB1 then miv[i] else iv[..IvLen(mode)]
    }

    /** One call of the crypto handler: initialise on index 0, then process one unit. */
    method Process()
      requires Shapes() && Sized(crypto)
      modifies `pt, `ct, `context
      ensures Shapes() && In() == old(In())
      ensures var s := if mctIndex == 0 then crypto.init(key[..keyLen / 8], iv[..IvLen(mode)]) else old(context);
        (context, Out()[..UnitLen(mode)]) == crypto.step(s, old(In())[..UnitLen(mode)])
    {
      if mctIndex == 0 {
        context := crypto.init(key[..keyLen / 8], iv[..IvLen(mode)]);
      }
      if encrypt {
        var (s, y) := crypto.step(context, pt[..UnitLen(mode)]);
        context, ct := s, Copy(ct, y, UnitLen(mode));
        assert ct[..UnitLen(mode)] == y;
      } else {
        var (s, y) := crypto.step(context, ct[..UnitLen(mode)]);
        context, pt := s, Copy(pt, y, UnitLen(mode));
        assert pt[..UnitLen(mode)] == y;
      }
    }

    /** Files text and cipher text of step `mctIndex`, and on the first step the key. */
    method Record()
      requires Shapes() && mctIndex < INNER
      modifies `ptext, `ctext, `mkey
      ensures Shapes()
      ensures History()[mctIndex][..UnitLen(mode)] == Out()[..UnitLen(mode)]
      ensures forall k :: 0 <= k < TEXT_ROWS && k != mctIndex ==> History()[k] == old(History()[k])
      ensures mkey[0][..keyLen / 8] == if mctIndex == 0 then key[..keyLen / 8] else old(mkey[0][..keyLen / 8])
    {
      var j := mctIndex;
      if mode != CFB1 {
        ctext := ctext[j := Copy(ctext[j], ct, UnitLen(mode))];
        ptext := ptext[j := Copy(ptext[j], pt, UnitLen(mode))];
        CopyPrefix(old(ctext[j]), ct, UnitLen(mode));
        CopyPrefix(old(ptext[j]), pt, UnitLen(mode));
      } else {
        ctext := ctext[j := ctext[j][0 := ct[0]]];
        ptext := ptext[j := ptext[j][0 := pt[0]]];
        assert ctext[j][..1] == [ct[0]] == ct[..1];
        assert ptext[j][..1] == [pt[0]] == pt[..1];
      }
      if j == 0 {
        CopyPrefix(mkey[0], key, keyLen / 8);
        mkey := mkey[0 := Copy(mkey[0], key, keyLen / 8)];
      }
    }

    /** Prepares the next step. Whatever the mode and direction, the next input is the unit that
     entered the delay line `IvUnits` steps before this step's output. */
    method Iterate(i: nat)
      requires Shapes() && mctIndex < INNER && i < OUTER
      modifies `ptext, `ctext, `mkey, `pt, `ct, `iv
      ensures Shapes()
      ensures Out() == old(Out())
      ensures History()[mctIndex][..UnitLen(mode)] == old(Out()[..UnitLen(mode)])
      ensures forall k :: 0 <= k < mctIndex ==> History()[k] == old(History()[k])
      ensures View(mode, In()) == NextUnit(mode, old(IvSource(i)), History(), mctIndex)
      ensures iv == if IvUnits(mode) == 1 && mctIndex > 0 then Copy(old(iv), old(Out()), 16) else old(iv)
      ensures mkey[0][..keyLen / 8] == if mctIndex == 0 then key[..keyLen / 8] else old(mkey[0][..keyLen / 8])
    {
      hide View, NextUnit, Copy;
      Record();
      match mode
      case ECB => IterateEcb();
      case CBC => IterateBlock(); NextBlock(mode, In(), old(iv)[..16], History(), mctIndex);
      case OFB => IterateBlock(); NextBlock(mode, In(), old(iv)[..16], History(), mctIndex);
      case CFB128 => IterateBlock(); NextBlock(mode, In(), old(iv)[..16], History(), mctIndex);
      case CFB8 => IterateCfb8();
      case CFB1 => IterateCfb1(i);
    }

    method IterateEcb()
      requires Shapes() && mctIndex < INNER && mode == ECB
      modifies `pt, `ct
      ensures Shapes() && Out() == old(Out())
      ensures View(mode, In()) == NextUnit(mode, [], History(), mctIndex)
    {
      hide ToBits;
      var j := mctIndex;
      if encrypt {
        CopyPrefix(pt, ctext[j], 16);
        pt := Copy(pt, ctext[j], 16);
      } else {
        CopyPrefix(ct, ptext[j], 16);
        ct := Copy(ct, ptext[j], 16);
      }
    }

    method IterateBlock()
      requires Shapes() && mctIndex < INNER && (mode == CBC || mode == OFB || mode == CFB128)
      requires History()[mctIndex][..16] == Out()[..16]
      modifies `pt, `ct, `iv
      ensures Shapes() && Out() == old(Out())
      ensures In()[..16] == if mctIndex == 0 then old(iv)[..16] else History()[mctIndex - 1][..16]
      ensures iv == if mctIndex > 0 then Copy(old(iv), old(Out()), 16) else old(iv)
    {
      var j := mctIndex;
      if j == 0 {
        if encrypt {
          CopyPrefix(pt, iv, 16);
          pt := Copy(pt, iv, 16);
        } else {
          CopyPrefix(ct, iv, 16);
          ct := Copy(ct, iv, 16);
        }
      } else {
        if encrypt {
          CopyPrefix(pt, ctext[j - 1], 16);
          pt := Copy(pt, ctext[j - 1], 16);
          iv := Copy(iv, ctext[j], 16);
        } else {
          CopyPrefix(ct, ptext[j - 1], 16);
          ct := Copy(ct, ptext[j - 1], 16);
          iv := Copy(iv, ptext[j], 16);
        }
      }
    }

    method IterateCfb8()
      requires Shapes() && mctIndex < INNER && mode == CFB8
      modifies `pt, `ct
      ensures Shapes() && Out() == old(Out())
      ensures View(mode, In()) == NextUnit(mode, iv[..16], History(), mctIndex)
    {
      hide ToBits;
      var j := mctIndex;
      if encrypt {
        if j < 16 {
          pt := Copy(pt, iv[j..], 16);
        } else {
          pt := Copy(pt, ctext[j - 16], 1);
        }
      } else {
        if j < 16 {
          ct := Copy(ct, iv[j..], 16);
        } else {
          ct := Copy(ct, ptext[j - 16], 1);
        }
      }
      if j < 16 {
        assert In()[..1] == [iv[j]] == iv[..16][j..j + 1];
      } else {
        assert In()[..1] == History()[j - 16][..1];
      }
    }

    method IterateCfb1(i: nat)
      requires Shapes() && mctIndex < INNER && i < OUTER && mode == CFB1
      modifies `pt, `ct, `ptext, `ctext
      ensures Shapes() && Out() == old(Out()) && History() == old(History())
      ensures View(mode, In()) == NextUnit(mode, miv[i], History(), mctIndex)
    {
      var j := mctIndex;
      if encrypt {
        if j < 128 {
          ptext := ptext[j + 1 := WithBit(ptext[j + 1], 0, BitAt(miv[i], j))];
          WithBitGet(old(ptext[j + 1]), 0, BitAt(miv[i], j), 0);
        } else {
          ptext := ptext[j + 1 := WithBit(ptext[j + 1], 0, BitAt(ctext[j - 128], 0))];
          WithBitGet(old(ptext[j + 1]), 0, BitAt(ctext[j - 128], 0), 0);
        }
        pt := pt[0 := ptext[j + 1][0]];
      } else {
        if j < 128 {
          ctext := ctext[j + 1 := WithBit(ctext[j + 1], 0, BitAt(miv[i], j))];
          WithBitGet(old(ctext[j + 1]), 0, BitAt(miv[i], j), 0);
        } else {
          ctext := ctext[j + 1 := WithBit(ctext[j + 1], 0, BitAt(ptext[j - 128], 0))];
          WithBitGet(old(ctext[j + 1]), 0, BitAt(ptext[j - 128], 0), 0);
        }
        ct := ct[0 := ctext[j + 1][0]];
      }
    }

    /** The first byte of each of the last `n` history rows, one after the other. */
    static method LastBytes(rows: seq<seq<bv8>>, buffer: seq<bv8>, n: nat) returns (b: seq<bv8>)
      requires Table(rows, TEXT_ROWS, TEXT_ROW) && n <= |buffer| && n <= INNER
      ensures |b| == |buffer| && b[n..] == buffer[n..]
      ensures forall k :: 0 <= k < n ==> b[k] == rows[INNER - n + k][0]
    {
      var j := 999;
      b := buffer;
      var n1, n2 := 0, n - 1;
      while n1 < n
        invariant 0 <= n1 <= n && n2 == n - 1 - n1 && |b| == |buffer| && b[n1..] == buffer[n1..]
        invariant forall k :: 0 <= k < n1 ==> b[k] == rows[INNER - n + k][0]
      {
        b := b[n1 := rows[j - n2][0]];
        n1, n2 := n1 + 1, n2 - 1;
      }
    }

    /** The first bit of each of the last `n` history rows, one after the other. */
    static method LastSingles(rows: seq<seq<bv8>>, buffer: seq<bv8>, n: nat) returns (b: seq<bv8>)
      requires Table(rows, TEXT_ROWS, TEXT_ROW) && n <= 8 * |buffer| && n <= INNER
      ensures |b| == |buffer|
      ensures forall k :: 0 <= k < n ==> BitAt(b, k) == BitAt(rows[INNER - n + k], 0)
    {
      hide BitAt, WithBit;
      var j := 999;
      b := buffer;
      var n1, n2 := 0, n - 1;
      while n1 < n
        invariant 0 <= n1 <= n && n2 == n - 1 - n1 && |b| == |buffer|
        invariant forall k :: 0 <= k < n1 ==> BitAt(b, k) == BitAt(rows[INNER - n + k], 0)
      {
        var c := b;
        var v := BitAt(rows[j - n2], 0);
        b := WithBit(c, n1, v);
        forall k | 0 <= k <= n1
          ensures BitAt(b, k) == BitAt(rows[INNER - n + k], 0)
        {
          WithBitGet(c, n1, v, k);
        }
        n1, n2 := n1 + 1, n2 - 1;
      }
    }

    /** The end of the last two blocks, as long as the key. */
    static method LastBlocks(rows: seq<seq<bv8>>, buffer: seq<bv8>, keyLen: nat) returns (b: seq<bv8>)
      requires Table(rows, TEXT_ROWS, TEXT_ROW) && |buffer| == MCT_CT_LEN
      requires keyLen == 128 || keyLen == 192 || keyLen == 256
      ensures |b| == MCT_CT_LEN
      ensures b[..keyLen / 8] == (rows[INNER - 2][..16] + rows[INNER - 1][..16])[32 - keyLen / 8..]
    {
      var j := 999;
      b := buffer;
      if keyLen == 128 {
        b := Copy(b, rows[j], 16);
      } else if keyLen == 192 {
        b := Copy(b, rows[j - 1][8..], 8);
        b := b[..8] + Copy(b[8..], rows[j], 16);
      } else {
        b := Copy(b, rows[j - 1], 16);
        b := b[..16] + Copy(b[16..], rows[j], 16);
      }
    }

    /** The history rows of a finished round, as the outputs `outs` of the cipher. */
    ghost predicate Recorded(outs: seq<seq<bv8>>, n: nat)
      reads `ptext, `ctext
    {
      Table(History(), TEXT_ROWS, TEXT_ROW) && RowsHold(mode, History(), outs, n)
    }

    /** The end of a round: gathers the bits for the next key, sets the next IV and, in the
     bit-wise modes, masks the next input. */
    method Close(i: nat, buffer: seq<bv8>, ghost outs: seq<seq<bv8>>) returns (ciphertext: seq<bv8>)
      requires Shapes() && i < OUTER && |buffer| == MCT_CT_LEN
      requires |outs| == INNER && Recorded(outs, INNER)
      requires View(mode, In()) == View(mode, outs[INNER - 1 - IvUnits(mode)])
      requires IvUnits(mode) == 1 ==> iv[..16] == outs[INNER - 1]
      modifies `ptext, `ctext, `pt, `ct, `iv, `miv
      ensures Shapes() && |ciphertext| == MCT_CT_LEN && Out() == old(Out())
      ensures View(mode, In()) == View(mode, outs[INNER - 1 - IvUnits(mode)])
      ensures Holds(mode, outs, ciphertext, keyLen / 8)
      ensures IvFrom(mode, outs, iv[..IvLen(mode)])
      ensures mode == CFB1 ==> miv[i + 1] == iv[..16]
    {
      hide View, IvFrom, Holds;
      if mode == CFB8 {
        ciphertext := CloseCfb8(buffer, outs);
      } else if mode == CFB1 {
        ciphertext := CloseCfb1(i, buffer, outs);
      } else {
        ciphertext := LastBlocks(History(), buffer, keyLen);
        assert History()[INNER - 2][..16] == outs[INNER - 2] && History()[INNER - 1][..16] == outs[INNER - 1];
        HoldsBlocks(mode, outs, ciphertext, keyLen / 8);
        IvFromLast(mode, outs, iv[..IvLen(mode)]);
      }
    }

    method CloseCfb8(buffer: seq<bv8>, ghost outs: seq<seq<bv8>>) returns (ciphertext: seq<bv8>)
      requires Shapes() && mode == CFB8 && |buffer| == MCT_CT_LEN
      requires |outs| == INNER && Recorded(outs, INNER)
      modifies `ptext, `ctext, `iv
      ensures Shapes() && |ciphertext| == MCT_CT_LEN
      ensures Holds(mode, outs, ciphertext, keyLen / 8) && IvFrom(mode, outs, iv[..16])
    {
      var j := 999;
      ciphertext := LastBytes(History(), buffer, keyLen / 8);
      iv := LastBytes(History(), iv, 16);
      HeadsRecorded(outs);
      HoldsBytes(outs, ciphertext, keyLen / 8);
      IvFromHeads(outs, iv[..16]);
      if encrypt {
        ptext := ptext[0 := ptext[0][0 := ctext[j - 16][0]]];
      } else {
        ctext := ctext[0 := ctext[0][0 := ptext[j - 16][0]]];
      }
    }

    lemma HeadsRecorded(outs: seq<seq<bv8>>)
      requires Shapes() && UnitLen(mode) == 1 && |outs| == INNER && Recorded(outs, INNER)
      ensures forall k :: 0 <= k < INNER ==> History()[k][0] == outs[k][0]
    {
      forall k | 0 <= k < INNER
        ensures History()[k][0] == outs[k][0]
      {
        assert History()[k][..1][0] == outs[k][0];
      }
    }

    method CloseCfb1(i: nat, buffer: seq<bv8>, ghost outs: seq<seq<bv8>>) returns (ciphertext: seq<bv8>)
      requires Shapes() && mode == CFB1 && |buffer| == MCT_CT_LEN && i < OUTER
      requires |outs| == INNER && Recorded(outs, INNER)
      modifies `ptext, `ctext, `pt, `ct, `iv, `miv
      ensures Shapes() && |ciphertext| == MCT_CT_LEN && Out() == old(Out())
      ensures View(mode, In()) == View(mode, outs[INNER - 1 - IvUnits(mode)])
      ensures Holds(mode, outs, ciphertext, keyLen / 8) && IvFrom(mode, outs, iv[..16])
      ensures miv[i + 1] == iv[..16]
    {
      hide BitAt, Holds, IvFrom;
      var j := 999;
      ciphertext := LastSingles(History(), buffer, keyLen);
      var row := LastSingles(History(), miv[i + 1], 128);
      miv := miv[i + 1 := row];
      FlagsRecorded(outs);
      HoldsSingles(outs, ciphertext, keyLen / 8);
      IvFromFlags(outs, row);
      var bit := History()[j - 128][0] & 0x80;
      TopBit(History()[j - 128], bit);
      if encrypt {
        ptext := ptext[0 := ptext[0][0 := bit]];
        pt := pt[0 := ptext[0][0]];
        OneByte(pt, bit);
      } else {
        ctext := ctext[0 := ctext[0][0 := bit]];
        ct := ct[0 := ctext[0][0]];
        OneByte(ct, bit);
      }
      CopyPrefix(iv, miv[i + 1], 16);
      iv := Copy(iv, miv[i + 1], 16);
      assert row[..16] == row;
    }

    lemma FlagsRecorded(outs: seq<seq<bv8>>)
      requires Shapes() && UnitLen(mode) == 1 && |outs| == INNER && Recorded(outs, INNER)
      ensures forall k :: 0 <= k < INNER ==> BitAt(History()[k], 0) == BitAt(outs[k], 0)
    {
      HeadsRecorded(outs);
    }

    /** The fields, after `j` steps of round `i`, agree with what has gone through the cipher. */
    ghost predicate Between(i: nat, j: nat)
      reads this
    {
      && Shapes() && Sized(crypto) && i < IV_ROWS && j <= INNER
      && Progress(crypto, mode, keyLen, first, run, i, j)
      && run.keys[i] == key[..keyLen / 8]
      && View(mode, In()) == Expected(mode, first, run.ivs[0], run.outs, |run.outs|)
      && Recorded(run.outs[i * INNER..], j)
      && IvHeld(i, j)
      && (j > 0 ==> mkey[0][..keyLen / 8] == run.keys[i]
                    && context == ChainAt(crypto, run.keys[i], run.ivs[i], run.ins[i * INNER..]))
    }

    /** Where the IV is: the modes with one unit of IV replace it by the last output. */
    ghost predicate IvHeld(i: nat, j: nat)
      reads this
      requires Shapes() && i < IV_ROWS && i < |run.ivs|
    {
      && (j == 0 ==> iv[..IvLen(mode)] == run.ivs[i])
      && (j == 0 || IvUnits(mode) != 1 ==> IvSource(i) == run.ivs[i])
      && (j > 1 && IvUnits(mode) == 1 ==> |run.outs| > 0 && iv[..16] == run.outs[|run.outs| - 1])
    }

    /** Half way through step `j`: the cipher has answered, nothing has been filed yet. */
    ghost predicate Answered(i: nat, j: nat)
      reads this
    {
      && Shapes() && Sized(crypto) && i < IV_ROWS && j < INNER && mctIndex == j
      && Progress(crypto, mode, keyLen, first, run, i, j + 1)
      && run.keys[i] == key[..keyLen / 8]
      && Out()[..UnitLen(mode)] == run.outs[|run.outs| - 1]
      && Recorded(run.outs[i * INNER..], j)
      && (j == 0 || IvUnits(mode) != 1 ==> IvSource(i) == run.ivs[i])
      && (j > 0 ==> mkey[0][..keyLen / 8] == run.keys[i])
      && context == ChainAt(crypto, run.keys[i], run.ivs[i], run.ins[i * INNER..])
    }

    /** Calls the cipher for step `j` of round `i`. */
    method Consult(i: nat, j: nat)
      requires i < OUTER && j < INNER && Between(i, j)
      modifies `mctIndex, `pt, `ct, `context, `run
      ensures Answered(i, j)
      ensures run.keys == old(run.keys) && run.ivs == old(run.ivs)
      ensures run.ins == old(run.ins) + [old(In())[..UnitLen(mode)]] && old(run.outs) <= run.outs
    {
      hide View, Expected, ChainAt, Progress, Units, IvLinked, RowsHold;
      ghost var t := run;
      ghost var base := i * INNER;
      ProgressParts(crypto, mode, keyLen, first, t, i, j);
      ghost var x := In()[..UnitLen(mode)];
      ViewPrefix(mode, In());
      mctIndex := j;
      NoChain(crypto, t.keys[i], t.ivs[i]);
      assert j == 0 ==> t.ins[base..] == [];
      Process();
      ghost var y := Out()[..UnitLen(mode)];
      StepProgress(crypto, mode, keyLen, first, t, i, j, x, y);
      run := t.(ins := t.ins + [x], outs := t.outs + [y]);
      ChainSnoc(crypto, t.keys[i], t.ivs[i], t.ins[base..], x);
      assert run.ins[base..] == t.ins[base..] + [x];
      assert run.outs[base..] == t.outs[base..] + [y];
      RowsLonger(mode, History(), t.outs[base..], y, j);
    }

    /** Where the IV is after step `j` has been filed. */
    lemma HeldMore(i: nat, j: nat)
      requires Shapes() && i < IV_ROWS && i < |run.ivs| && |run.outs| > 0
      requires IvUnits(mode) != 1 ==> IvSource(i) == run.ivs[i]
      requires IvUnits(mode) == 1 && j > 0 ==> iv[..16] == run.outs[|run.outs| - 1]
      ensures IvHeld(i, j + 1)
    {}

    /** Files the answer and prepares the next step. */
    method Advance(i: nat, j: nat)
      requires i < OUTER && Answered(i, j)
      modifies `ptext, `ctext, `mkey, `pt, `ct, `iv
      ensures Between(i, j + 1) && Out() == old(Out())
    {
      hide View, Expected, ChainAt, Progress, NextUnit, Units, IvLinked, RowsHold, Copy, IvHeld;
      ghost var source, rows, out := IvSource(i), History(), Out();
      ProgressParts(crypto, mode, keyLen, first, run, i, j + 1);
      ghost var outs := run.outs[i * INNER..];
      CopyPrefix(iv, out, 16);
      Iterate(i);
      RowsMore(mode, rows, History(), outs, j);
      NextMatches(mode, first, run.ivs[0], run.outs, i * INNER, run.ivs[i], source, History());
      HeldMore(i, j);
    }

    /** One step of the inner loop. */
    method Inner(i: nat, j: nat)
      requires i < OUTER && j < INNER && Between(i, j)
      modifies `mctIndex, `ptext, `ctext, `mkey, `pt, `ct, `iv, `context, `run
      ensures Between(i, j + 1)
      ensures run.keys == old(run.keys) && run.ivs == old(run.ivs)
      ensures run.ins == old(run.ins) + [old(In())[..UnitLen(mode)]] && old(run.outs) <= run.outs
      ensures |run.outs| == |run.ins| && Out()[..UnitLen(mode)] == run.outs[|run.outs| - 1]
    {
      hide View, Expected, ChainAt, Progress, Units, IvLinked, Recorded, IvHeld;
      Consult(i, j);
      ProgressParts(crypto, mode, keyLen, first, run, i, j + 1);
      Advance(i, j);
    }

    /** The inner loop of round `i`. */
    method InnerLoop(i: nat)
      requires i < OUTER && Between(i, 0)
      modifies `mctIndex, `ptext, `ctext, `mkey, `pt, `ct, `iv, `context, `run
      ensures Between(i, INNER)
      ensures run.keys == old(run.keys) && run.ivs == old(run.ivs)
      ensures |run.outs| == |run.ins| == (i + 1) * INNER
      ensures old(run.ins) + [old(In())[..UnitLen(mode)]] <= run.ins && old(run.outs) <= run.outs
      ensures Out()[..UnitLen(mode)] == run.outs[|run.outs| - 1]
    {
      hide View, Expected, ChainAt, Progress, Units, IvLinked, Recorded, IvHeld;
      ProgressParts(crypto, mode, keyLen, first, run, i, 0);
      var j := 0;
      while j < INNER
        invariant j <= INNER && Between(i, j)
        invariant run.keys == old(run.keys) && run.ivs == old(run.ivs)
        invariant |run.outs| == |run.ins| == i * INNER + j && old(run.outs) <= run.outs
        invariant j == 0 ==> In() == old(In()) && run.ins == old(run.ins)
        invariant j > 0 ==> old(run.ins) + [old(In())[..UnitLen(mode)]] <= run.ins
        invariant j > 0 ==> Out()[..UnitLen(mode)] == run.outs[|run.outs| - 1]
      {
        Inner(i, j);
        j := j + 1;
      }
    }

    /** This round's key xor the gathered bits, byte by byte. */
    method MixKey(ciphertext: seq<bv8>)
      requires Shapes() && |ciphertext| == MCT_CT_LEN
      modifies `key
      ensures Shapes()
      ensures forall n :: 0 <= n < keyLen / 8 ==> key[n] == mkey[0][n] ^ ciphertext[n]
    {
      var n := 0;
      while n < keyLen / 8
        invariant n <= keyLen / 8 && |key| == KEY_MAX
        invariant forall k :: 0 <= k < n ==> key[k] == mkey[0][k] ^ ciphertext[k]
      {
        key := key[n := mkey[0][n] ^ ciphertext[n]];
        n := n + 1;
      }
    }

    /** The report of round `i` as the run tells it. */
    ghost function Reported(t: Trace, i: nat): Report
      requires t.Covers(i)
    {
      Report(t.keys[i], t.ivs[i], t.ins[i * INNER], t.outs[(i + 1) * INNER - 1])
    }

    /** Closes round `i` after its last step and sets up the next one. */
    method Finish(i: nat, buffer: seq<bv8>) returns (ciphertext: seq<bv8>)
      requires i < OUTER && Between(i, INNER) && |buffer| == MCT_CT_LEN
      modifies `ptext, `ctext, `pt, `ct, `iv, `run, `miv, `key
      ensures |ciphertext| == MCT_CT_LEN && Between(i + 1, 0)
      ensures run.ins == old(run.ins) && run.outs == old(run.outs)
      ensures old(run.keys) <= run.keys && old(run.ivs) <= run.ivs
    {
      hide View, Expected, ChainAt, Progress, Units, IvLinked, NextKey, Holds, IvFrom;
      ghost var t := run;
      ghost var base := i * INNER;
      ProgressParts(crypto, mode, keyLen, first, t, i, INNER);
      NextExpected(mode, first, t.ivs[0], t.outs, base, t.ivs[i]);
      assert t.outs[|t.outs| - 1 - IvUnits(mode)] == t.outs[base..][INNER - 1 - IvUnits(mode)];
      ciphertext := Close(i, buffer, t.outs[base..]);
      MixKey(ciphertext);
      KeyMade(mode, keyLen, Current(t, i), ciphertext, key[..keyLen / 8]);
      RoundProgress(crypto, mode, keyLen, first, t, i, key[..keyLen / 8], iv[..IvLen(mode)]);
      run := t.(keys := t.keys + [key[..keyLen / 8]], ivs := t.ivs + [iv[..IvLen(mode)]]);
      UnitsTail(mode, run.outs, (i + 1) * INNER);
    }

    /** One round: report, run the inner loop, close, and derive the next key. */
    method Round(i: nat, buffer: seq<bv8>) returns (ciphertext: seq<bv8>)
      requires i < OUTER && Between(i, 0) && |buffer| == MCT_CT_LEN
      modifies `mctIndex, `ptext, `ctext, `mkey, `pt, `ct, `iv, `context, `run, `miv, `key, `results
      ensures |ciphertext| == MCT_CT_LEN && Between(i + 1, 0)
      ensures run.Covers(i) && results == old(results) + [Reported(run, i)]
      ensures old(run.keys) <= run.keys && old(run.ivs) <= run.ivs
      ensures old(run.ins) <= run.ins && old(run.outs) <= run.outs
    {
      hide View, Expected, ChainAt, Progress, Units, IvLinked, Recorded;
      ProgressParts(crypto, mode, keyLen, first, run, i, 0);
      var report := Report(key[..keyLen / 8], iv[..IvLen(mode)], In()[..UnitLen(mode)], []);
      ghost var t := run;
      InnerLoop(i);
      assert run.ins[i * INNER] == (t.ins + [report.text])[i * INNER] == report.text;
      report := report.(answer := Out()[..UnitLen(mode)]);
      ciphertext := Finish(i, buffer);
      ProgressParts(crypto, mode, keyLen, first, run, i + 1, 0);
      assert run.keys[i] == report.key && run.ivs[i] == report.iv;
      assert run.outs[(i + 1) * INNER - 1] == report.answer;
      assert report == Reported(run, i);
      results := results + [report];
    }

    /** Files the initial IV. */
    method Start()
      requires Shapes() && Sized(crypto)
      modifies `miv, `run, `first
      ensures Between(0, 0) && first == old(View(mode, In()))
      ensures run == Trace([key[..keyLen / 8]], [iv[..IvLen(mode)]], [], [])
    {
      hide View, ChainAt, Progress, IvLinked;
      CopyPrefix(miv[0], iv, IvLen(mode));
      miv := miv[0 := Copy(miv[0], iv, IvLen(mode))];
      assert mode == CFB1 ==> miv[0] == miv[0][..16];
      first := View(mode, In());
      run := Trace([key[..keyLen / 8]], [iv[..IvLen(mode)]], [], []);
      StartProgress(crypto, mode, keyLen, first, key[..keyLen / 8], iv[..IvLen(mode)]);
      ProgressParts(crypto, mode, keyLen, first, run, 0, 0);
    }

    /** The whole test. */
    method Run()
      requires Shapes() && Sized(crypto) && results == []
      modifies this
      ensures Shapes() && MonteCarlo(crypto, mode, keyLen, old(View(mode, In())), OUTER, run)
      ensures run.keys[0] == old(key[..keyLen / 8]) && run.ivs[0] == old(iv[..IvLen(mode)])
      ensures run.keys[OUTER] == key[..keyLen / 8]
      ensures |results| == 100 && |run.keys| == |run.ivs| == 101 && |run.ins| == |run.outs| == 100000
      ensures forall i :: 0 <= i < 100 ==>
        results[i] == Report(run.keys[i], run.ivs[i], run.ins[1000 * i], run.outs[1000 * i + 999])
    {
      hide View, Expected, ChainAt, Progress, Units, IvLinked, MonteCarlo, Recorded, IvHeld;
      Start();
      var ciphertext := seq(MCT_CT_LEN, _ => 0);
      var i := 0;
      while i < OUTER
        invariant i <= OUTER && |ciphertext| == MCT_CT_LEN && Between(i, 0)
        invariant first == old(View(mode, In()))
        invariant |run.keys| == |run.ivs| == i + 1 && |run.ins| == |run.outs| == i * INNER
        invariant run.keys[0] == old(key[..keyLen / 8]) && run.ivs[0] == old(iv[..IvLen(mode)])
        invariant |results| == i && forall k :: 0 <= k < i ==> run.Covers(k) && results[k] == Reported(run, k)
      {
        ciphertext := Round(i, ciphertext);
        i := i + 1;
        ProgressParts(crypto, mode, keyLen, first, run, i, 0);
      }
      EndProgress(crypto, mode, keyLen, first, run, OUTER);
      assert forall k :: 0 <= k < 100 ==> run.Covers(k) && results[k] == Reported(run, k);
    }
  }
}
