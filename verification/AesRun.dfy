/**
 How a run of the AES Monte Carlo test grows, step by step and round by round, without the buffers.
 */
module AesRun {
  import opened Bits
  import opened AesLaw

  /** The unit that `IvUnits` steps ago stood where this step's output stands now. */
  ghost function NextUnit(mode: Mode, iv: seq<bv8>, rows: seq<seq<bv8>>, j: nat): seq<bool>
    requires |iv| == IvLen(mode) && j < |rows|
    requires forall k :: 0 <= k < |rows| ==> |rows[k]| >= 16
  {
    if j < IvUnits(mode) then IvUnit(mode, iv, j) else View(mode, rows[j - IvUnits(mode)])
  }

  lemma NextBlock(mode: Mode, x: seq<bv8>, iv: seq<bv8>, rows: seq<seq<bv8>>, j: nat)
    requires mode == CBC || mode == OFB || mode == CFB128
    requires |iv| == 16 && j < |rows| && |x| >= 16
    requires forall k :: 0 <= k < |rows| ==> |rows[k]| >= 16
    requires x[..16] == if j == 0 then iv else rows[j - 1][..16]
    ensures View(mode, x) == NextUnit(mode, iv, rows, j)
  {
    hide ToBits, BitAt;
    assert View(mode, x) == ToBits(x[..16]);
    if j == 0 {
      assert NextUnit(mode, iv, rows, j) == ToBits(iv);
    } else {
      assert NextUnit(mode, iv, rows, j) == View(mode, rows[j - 1]);
      assert |rows[j - 1]| >= 16;
    }
  }

  // ----- how a run grows

  /** The IV of a round is what the delay line holds when the round starts. */
  ghost predicate IvLinked(mode: Mode, first: seq<bool>, iv0: seq<bv8>, outs: seq<seq<bv8>>, iv: seq<bv8>) {
    && |iv0| == |iv| == IvLen(mode) && Units(mode, outs)
    && forall k: nat :: k < IvUnits(mode) ==>
         IvUnit(mode, iv, k) == Expected(mode, first, iv0, outs, |outs| + 1 + k)
  }

  /** The IV left for the next round is the end of the outputs. */
  ghost predicate IvFrom(mode: Mode, outs: seq<seq<bv8>>, iv: seq<bv8>) {
    && |iv| == IvLen(mode) && Units(mode, outs) && IvUnits(mode) <= |outs|
    && forall k: nat :: k < IvUnits(mode) ==> IvUnit(mode, iv, k) == View(mode, outs[|outs| - IvUnits(mode) + k])
  }

  /** A run after `i` rounds and `j` steps of the next one. */
  ghost predicate Progress<S>(c: Crypto<S>, mode: Mode, keyLen: nat, first: seq<bool>, t: Trace, i: nat, j: nat) {
    && |t.keys| == |t.ivs| == i + 1 && |t.ins| == |t.outs| == i * INNER + j
    && DelayLine(mode, first, t.ivs[0], t.ins, t.outs)
    && 8 * |t.keys[i]| == keyLen
    && IvLinked(mode, first, t.ivs[0], t.outs[..i * INNER], t.ivs[i])
    && Answers(c, Current(t, i))
    && forall r: nat :: r < i ==> RoundLaws(c, mode, keyLen, t, r)
  }

  /** The round under way. */
  ghost function Current(t: Trace, i: nat): Round
    requires |t.keys| == |t.ivs| == i + 1 && i * INNER <= |t.ins| == |t.outs|
  {
    Round(t.keys[i], t.ivs[i], t.ins[i * INNER..], t.outs[i * INNER..])
  }

  lemma ExpectedGrows(mode: Mode, first: seq<bool>, iv0: seq<bv8>, outs: seq<seq<bv8>>, y: seq<bv8>, t: nat)
    requires |iv0| == IvLen(mode) && Units(mode, outs) && |y| == UnitLen(mode) && t < |outs| + Delay(mode)
    ensures Units(mode, outs + [y])
    ensures Expected(mode, first, iv0, outs + [y], t) == Expected(mode, first, iv0, outs, t)
  {
    hide View, IvUnit;
  }

  lemma LineGrows(mode: Mode, first: seq<bool>, iv0: seq<bv8>, ins: seq<seq<bv8>>, outs: seq<seq<bv8>>,
          x: seq<bv8>, y: seq<bv8>)
    requires DelayLine(mode, first, iv0, ins, outs) && |x| == |y| == UnitLen(mode)
    requires View(mode, x) == Expected(mode, first, iv0, outs, |outs|)
    ensures DelayLine(mode, first, iv0, ins + [x], outs + [y])
  {
    hide View, Expected;
    forall t: nat | t < |ins| + 1
      ensures Units(mode, outs + [y]) && View(mode, (ins + [x])[t]) == Expected(mode, first, iv0, outs + [y], t)
    {
      ExpectedGrows(mode, first, iv0, outs, y, t);
    }
  }

  lemma AnswersGrow<S>(c: Crypto<S>, r: Round, x: seq<bv8>, y: seq<bv8>)
    requires Answers(c, r) && y == c.step(ChainAt(c, r.key, r.iv, r.ins), x).1
    ensures Answers(c, r.(ins := r.ins + [x], outs := r.outs + [y]))
  {
    hide ChainAt;
    var r' := r.(ins := r.ins + [x], outs := r.outs + [y]);
    forall j | 0 <= j < |r'.ins|
      ensures r'.outs[j] == c.step(ChainAt(c, r'.key, r'.iv, r'.ins[..j]), r'.ins[j]).1
    {
      if j < |r.ins| {
        assert r'.ins[..j] == r.ins[..j];
      } else {
        assert r'.ins[..j] == r.ins;
      }
    }
  }

  lemma LawsKept<S>(c: Crypto<S>, mode: Mode, keyLen: nat, t: Trace, u: Trace, r: nat)
    requires t.Covers(r) && r + 1 < |t.keys| && RoundLaws(c, mode, keyLen, t, r)
    requires t.keys <= u.keys && t.ivs <= u.ivs && t.ins <= u.ins && t.outs <= u.outs
    requires |u.keys| == |u.ivs| && |u.ins| == |u.outs|
    ensures u.Covers(r) && r + 1 < |u.keys| && RoundLaws(c, mode, keyLen, u, r)
  {
    hide Answers, NextKey, NextIv;
    assert u.ins[r * INNER..(r + 1) * INNER] == t.ins[r * INNER..(r + 1) * INNER];
    assert u.outs[r * INNER..(r + 1) * INNER] == t.outs[r * INNER..(r + 1) * INNER];
    assert u.keys[r + 1] == t.keys[r + 1] && u.ivs[r + 1] == t.ivs[r + 1];
  }

  /** What stands next in the delay line, seen from inside a round. */
  lemma NextExpected(mode: Mode, first: seq<bool>, iv0: seq<bv8>, outs: seq<seq<bv8>>, base: nat, iv: seq<bv8>)
    requires base < |outs| && Units(mode, outs)
    requires IvLinked(mode, first, iv0, outs[..base], iv)
    ensures var j := |outs| - 1 - base;
      Expected(mode, first, iv0, outs, |outs|)
      == if j < IvUnits(mode) then IvUnit(mode, iv, j) else View(mode, outs[|outs| - 1 - IvUnits(mode)])
  {
    hide View, IvUnit;
    var j := |outs| - 1 - base;
    if j < IvUnits(mode) {
      assert |outs[..base]| == base;
      assert IvUnit(mode, iv, j) == Expected(mode, first, iv0, outs[..base], base + 1 + j);
    }
  }

  lemma StepProgress<S>(c: Crypto<S>, mode: Mode, keyLen: nat, first: seq<bool>, t: Trace, i: nat, j: nat,
          x: seq<bv8>, y: seq<bv8>)
    requires Progress(c, mode, keyLen, first, t, i, j) && |x| == |y| == UnitLen(mode)
    requires View(mode, x) == Expected(mode, first, t.ivs[0], t.outs, i * INNER + j)
    requires y == c.step(ChainAt(c, t.keys[i], t.ivs[i], t.ins[i * INNER..]), x).1
    ensures Progress(c, mode, keyLen, first, t.(ins := t.ins + [x], outs := t.outs + [y]), i, j + 1)
  {
    hide View, Expected, ChainAt, Answers, DelayLine, IvLinked, RoundLaws;
    var u := t.(ins := t.ins + [x], outs := t.outs + [y]);
    LineParts(mode, first, t.ivs[0], t.ins, t.outs);
    LineGrows(mode, first, t.ivs[0], t.ins, t.outs, x, y);
    AnswersGrow(c, Current(t, i), x, y);
    assert u.ins[i * INNER..] == t.ins[i * INNER..] + [x];
    assert u.outs[i * INNER..] == t.outs[i * INNER..] + [y];
    assert u.outs[..i * INNER] == t.outs[..i * INNER];
    forall r: nat | r < i
      ensures RoundLaws(c, mode, keyLen, u, r)
    {
      LawsKept(c, mode, keyLen, t, u, r);
    }
  }

  lemma LineParts(mode: Mode, first: seq<bool>, iv0: seq<bv8>, ins: seq<seq<bv8>>, outs: seq<seq<bv8>>)
    requires DelayLine(mode, first, iv0, ins, outs)
    ensures |iv0| == IvLen(mode) && |ins| == |outs| && Units(mode, ins) && Units(mode, outs)
  {}

  // ----- from one round to the next

  lemma IvFromLinks(mode: Mode, first: seq<bool>, iv0: seq<bv8>, outs: seq<seq<bv8>>, iv: seq<bv8>)
    requires |iv0| == IvLen(mode) && IvFrom(mode, outs, iv)
    ensures IvLinked(mode, first, iv0, outs, iv)
  {
    hide View, IvUnit;
  }

  /** The IV taken from the last outputs is the last 128 bits of the output stream. */
  lemma IvFromBits(mode: Mode, r: Round, iv: seq<bv8>)
    requires IvFrom(mode, r.outs, iv) && |r.iv| == IvLen(mode) && |r.outs| >= 128
    ensures NextIv(mode, r, iv)
  {
    hide *;
    IvFromParts(mode, r.outs, iv);
    match mode
    case ECB => NextIvMade(mode, r, iv);
    case CBC => IvFromBlock(mode, r.outs, iv); NextIvMade(mode, r, iv);
    case OFB => IvFromBlock(mode, r.outs, iv); NextIvMade(mode, r, iv);
    case CFB128 => IvFromBlock(mode, r.outs, iv); NextIvMade(mode, r, iv);
    case CFB8 => IvFromBytes(r.outs, iv); NextIvMade(mode, r, iv);
    case CFB1 => IvFromSingles(r.outs, iv); NextIvMade(mode, r, iv);
  }

  lemma IvFromParts(mode: Mode, outs: seq<seq<bv8>>, iv: seq<bv8>)
    requires IvFrom(mode, outs, iv)
    ensures |iv| == IvLen(mode) && Units(mode, outs)
  {}

  lemma NextIvMade(mode: Mode, r: Round, iv: seq<bv8>)
    requires |r.iv| == |iv| == IvLen(mode) && Units(mode, r.outs)
    requires mode != ECB ==> 128 <= |Stream(mode, r.outs)| && ToBits(iv) == LastBits(Stream(mode, r.outs), 128)
    ensures NextIv(mode, r, iv)
  {}

  lemma IvFromBlock(mode: Mode, outs: seq<seq<bv8>>, iv: seq<bv8>)
    requires IvFrom(mode, outs, iv) && |outs| >= 2 && (mode == CBC || mode == OFB || mode == CFB128)
    ensures Units(mode, outs) && 128 <= |Stream(mode, outs)| && ToBits(iv) == LastBits(Stream(mode, outs), 128)
  {
    hide Stream, ToBits, LastBits;
    var a, b := outs[|outs| - 2], outs[|outs| - 1];
    assert |a| == 16 && |b| == 16;
    assert IvUnit(mode, iv, 0) == View(mode, b) && b[..16] == b;
    BlockEnd(mode, outs, a, b, 16);
    assert (a + b)[16..] == b;
  }

  lemma IvFromBytes(outs: seq<seq<bv8>>, iv: seq<bv8>)
    requires IvFrom(CFB8, outs, iv)
    ensures Units(CFB8, outs) && 128 <= |Stream(CFB8, outs)| && ToBits(iv) == LastBits(Stream(CFB8, outs), 128)
  {
    hide Stream, ToBits, LastBits;
    var last := outs[|outs| - 16..];
    forall k: nat | k < 16
      ensures iv[k] == Heads(last)[k]
    {
      assert IvUnit(CFB8, iv, k) == View(CFB8, last[k]);
      ToBitsInjective(iv[k..k + 1], last[k][..1]);
      assert iv[k..k + 1][0] == last[k][..1][0];
    }
    assert iv == Heads(last);
    BytesEnd(outs, 16);
    StreamSize(CFB8, outs);
  }

  lemma StreamSize(mode: Mode, outs: seq<seq<bv8>>)
    requires Units(mode, outs)
    ensures mode == CFB1 ==> |Stream(mode, outs)| == |outs|
    ensures mode == CFB8 ==> |Stream(mode, outs)| == 8 * |outs|
    ensures mode != CFB1 && mode != CFB8 ==> |Stream(mode, outs)| == 128 * |outs|
  {}

  lemma IvFromSingles(outs: seq<seq<bv8>>, iv: seq<bv8>)
    requires IvFrom(CFB1, outs, iv)
    ensures Units(CFB1, outs) && 128 <= |Stream(CFB1, outs)| && ToBits(iv) == LastBits(Stream(CFB1, outs), 128)
  {
    hide Stream, BitAt, LastBits;
    StreamSize(CFB1, outs);
    BitsEnd(outs, 128);
    forall k: nat | k < 128
      ensures ToBits(iv)[k] == LastBits(Stream(CFB1, outs), 128)[k]
    {
      assert IvUnit(CFB1, iv, k) == View(CFB1, outs[|outs| - 128 + k]);
      assert [BitAt(iv, k)][0] == [BitAt(outs[|outs| - 128 + k], 0)][0];
    }
  }

  lemma RoundProgress<S>(c: Crypto<S>, mode: Mode, keyLen: nat, first: seq<bool>, t: Trace, i: nat,
          key: seq<bv8>, iv: seq<bv8>)
    requires Progress(c, mode, keyLen, first, t, i, INNER)
    requires NextKey(mode, keyLen, Current(t, i), key) && IvFrom(mode, t.outs[i * INNER..], iv)
    ensures Progress(c, mode, keyLen, first, t.(keys := t.keys + [key], ivs := t.ivs + [iv]), i + 1, 0)
  {
    hide View, Expected, ChainAt, Answers, DelayLine, IvLinked, RoundLaws, NextKey, NextIv, IvFrom;
    var u := t.(keys := t.keys + [key], ivs := t.ivs + [iv]);
    LineParts(mode, first, t.ivs[0], t.ins, t.outs);
    CurrentLaws(c, mode, keyLen, first, t, i, key, iv);
    forall r: nat | r < i
      ensures RoundLaws(c, mode, keyLen, u, r)
    {
      LawsKept(c, mode, keyLen, t, u, r);
    }
    IvFromAll(mode, t.outs, i * INNER, iv);
    IvFromLinks(mode, first, t.ivs[0], t.outs, iv);
    assert u.outs[..(i + 1) * INNER] == t.outs;
    NoAnswers(c, Current(u, i + 1));
    NextKeyLen(mode, keyLen, Current(t, i), key);
  }

  lemma CurrentLaws<S>(c: Crypto<S>, mode: Mode, keyLen: nat, first: seq<bool>, t: Trace, i: nat,
          key: seq<bv8>, iv: seq<bv8>)
    requires Progress(c, mode, keyLen, first, t, i, INNER)
    requires NextKey(mode, keyLen, Current(t, i), key) && IvFrom(mode, t.outs[i * INNER..], iv)
    ensures RoundLaws(c, mode, keyLen, t.(keys := t.keys + [key], ivs := t.ivs + [iv]), i)
  {
    hide View, Expected, ChainAt, Answers, DelayLine, NextKey, NextIv, IvFrom;
    var u := t.(keys := t.keys + [key], ivs := t.ivs + [iv]);
    assert t.ins[i * INNER..(i + 1) * INNER] == t.ins[i * INNER..];
    assert t.outs[i * INNER..(i + 1) * INNER] == t.outs[i * INNER..];
    assert u.RoundAt(i) == Current(t, i);
    IvFromBits(mode, Current(t, i), iv);
  }

  lemma IvFromAll(mode: Mode, outs: seq<seq<bv8>>, base: nat, iv: seq<bv8>)
    requires base <= |outs| && Units(mode, outs) && IvFrom(mode, outs[base..], iv)
    ensures IvFrom(mode, outs, iv)
  {
    hide View, IvUnit;
    forall k: nat | k < IvUnits(mode)
      ensures IvUnit(mode, iv, k) == View(mode, outs[|outs| - IvUnits(mode) + k])
    {
      assert outs[base..][|outs[base..]| - IvUnits(mode) + k] == outs[|outs| - IvUnits(mode) + k];
    }
  }

  lemma NoAnswers<S>(c: Crypto<S>, r: Round)
    requires r.ins == r.outs == []
    ensures Answers(c, r)
  {}

  lemma NextKeyLen(mode: Mode, keyLen: nat, r: Round, key: seq<bv8>)
    requires NextKey(mode, keyLen, r, key)
    ensures 8 * |key| == keyLen
  {}

  /** A run starts with its own IV in the delay line. */
  lemma StartProgress<S>(c: Crypto<S>, mode: Mode, keyLen: nat, first: seq<bool>, key: seq<bv8>, iv: seq<bv8>)
    requires 8 * |key| == keyLen && |iv| == IvLen(mode)
    ensures Progress(c, mode, keyLen, first, Trace([key], [iv], [], []), 0, 0)
  {
    hide View;
  }

  lemma EndProgress<S>(c: Crypto<S>, mode: Mode, keyLen: nat, first: seq<bool>, t: Trace, rounds: nat)
    requires Progress(c, mode, keyLen, first, t, rounds, 0)
    ensures MonteCarlo(c, mode, keyLen, first, rounds, t)
  {
    hide RoundLaws, DelayLine;
  }

  // ----- the bits that go into the next key

  /** The buffer `text` starts with the last `8 * n` bits of the output stream. */
  ghost predicate Holds(mode: Mode, outs: seq<seq<bv8>>, text: seq<bv8>, n: nat) {
    && n <= |text| && Units(mode, outs) && 8 * n <= |Stream(mode, outs)|
    && ToBits(text[..n]) == LastBits(Stream(mode, outs), 8 * n)
  }

  lemma HoldsBytes(outs: seq<seq<bv8>>, text: seq<bv8>, n: nat)
    requires Units(CFB8, outs) && n <= |outs| && n <= |text|
    requires forall k :: 0 <= k < n ==> text[k] == outs[|outs| - n + k][0]
    ensures Holds(CFB8, outs, text, n)
  {
    hide Stream, ToBits, LastBits;
    assert text[..n] == Heads(outs[|outs| - n..]);
    BytesEnd(outs, n);
    StreamSize(CFB8, outs);
  }

  lemma HoldsSingles(outs: seq<seq<bv8>>, text: seq<bv8>, n: nat)
    requires Units(CFB1, outs) && 8 * n <= |outs| && n <= |text|
    requires forall k :: 0 <= k < 8 * n ==> BitAt(text, k) == BitAt(outs[|outs| - 8 * n + k], 0)
    ensures Holds(CFB1, outs, text, n)
  {
    hide Stream, LastBits;
    BitsEnd(outs, 8 * n);
    StreamSize(CFB1, outs);
    forall k: nat | k < 8 * n
      ensures ToBits(text[..n])[k] == LastBits(Stream(CFB1, outs), 8 * n)[k]
    {
      assert BitAt(text[..n], k) == BitAt(text, k);
    }
  }

  lemma HoldsBlocks(mode: Mode, outs: seq<seq<bv8>>, text: seq<bv8>, n: nat)
    requires UnitLen(mode) == 16 && Units(mode, outs) && |outs| >= 2 && n <= 32 && n <= |text|
    requires text[..n] == (outs[|outs| - 2] + outs[|outs| - 1])[|outs[|outs| - 2] + outs[|outs| - 1]| - n..]
    ensures Holds(mode, outs, text, n)
  {
    hide Stream, ToBits, LastBits, View;
    BlockEnd(mode, outs, outs[|outs| - 2], outs[|outs| - 1], n);
  }

  lemma KeyMade(mode: Mode, keyLen: nat, r: Round, text: seq<bv8>, key: seq<bv8>)
    requires 8 * |r.key| == 8 * |key| == keyLen && Holds(mode, r.outs, text, |key|)
    requires forall n :: 0 <= n < |key| ==> key[n] == r.key[n] ^ text[n]
    ensures NextKey(mode, keyLen, r, key)
  {
    hide Stream, ToBits, LastBits, XorBits;
    assert key == XorBytes(r.key, text[..|key|]);
    ToBitsXor(r.key, text[..|key|]);
  }

  // ----- the IV a round leaves behind

  lemma IvFromLast(mode: Mode, outs: seq<seq<bv8>>, iv: seq<bv8>)
    requires Units(mode, outs) && outs != [] && mode != CFB8 && mode != CFB1 && |iv| == IvLen(mode)
    requires mode != ECB ==> iv == outs[|outs| - 1]
    ensures IvFrom(mode, outs, iv)
  {
    hide ToBits;
    assert mode != ECB ==> iv[..16] == iv;
  }

  lemma IvFromHeads(outs: seq<seq<bv8>>, iv: seq<bv8>)
    requires Units(CFB8, outs) && |outs| >= 16 && |iv| == 16
    requires forall k :: 0 <= k < 16 ==> iv[k] == outs[|outs| - 16 + k][0]
    ensures IvFrom(CFB8, outs, iv)
  {
    hide IvUnit, View;
    forall k: nat | k < 16
      ensures IvUnit(CFB8, iv, k) == View(CFB8, outs[|outs| - 16 + k])
    {
      OneHead(iv, k, outs[|outs| - 16 + k]);
    }
  }

  lemma OneHead(iv: seq<bv8>, k: nat, x: seq<bv8>)
    requires |iv| == 16 && k < 16 && |x| == 1 && iv[k] == x[0]
    ensures IvUnit(CFB8, iv, k) == View(CFB8, x)
  {
    hide ToBits;
    assert iv[k..k + 1] == x[..1];
  }

  lemma IvFromFlags(outs: seq<seq<bv8>>, iv: seq<bv8>)
    requires Units(CFB1, outs) && |outs| >= 128 && |iv| == 16
    requires forall k :: 0 <= k < 128 ==> BitAt(iv, k) == BitAt(outs[|outs| - 128 + k], 0)
    ensures IvFrom(CFB1, outs, iv)
  {
    hide BitAt;
  }

  lemma TopBit(s: seq<bv8>, bit: bv8)
    requires |s| > 0 && bit == s[0] & 0x80
    ensures BitAt([bit], 0) == BitAt(s, 0)
  {}

  lemma OneByte(s: seq<bv8>, b: bv8)
    requires |s| > 0 && s[0] == b
    ensures BitAt(s, 0) == BitAt([b], 0)
  {}

  // ----- one step of the machine

  lemma ProgressParts<S>(c: Crypto<S>, mode: Mode, keyLen: nat, first: seq<bool>, t: Trace, i: nat, j: nat)
    requires Progress(c, mode, keyLen, first, t, i, j)
    ensures |t.keys| == |t.ivs| == i + 1 && |t.ins| == |t.outs| == i * INNER + j
    ensures Units(mode, t.ins) && Units(mode, t.outs) && |t.ivs[0]| == |t.ivs[i]| == IvLen(mode)
    ensures 8 * |t.keys[i]| == keyLen && IvLinked(mode, first, t.ivs[0], t.outs[..i * INNER], t.ivs[i])
  {
    hide RoundLaws, Answers, View;
  }

  lemma NoChain<S>(c: Crypto<S>, key: seq<bv8>, iv: seq<bv8>)
    ensures ChainAt(c, key, iv, []) == c.init(key, iv)
  {}

  lemma ChainSnoc<S>(c: Crypto<S>, key: seq<bv8>, iv: seq<bv8>, xs: seq<seq<bv8>>, x: seq<bv8>)
    ensures ChainAt(c, key, iv, xs + [x]) == c.step(ChainAt(c, key, iv, xs), x).0
  {
    assert (xs + [x])[..|xs + [x]| - 1] == xs;
  }

  lemma ViewPrefix(mode: Mode, x: seq<bv8>)
    requires |x| >= UnitLen(mode)
    ensures View(mode, x[..UnitLen(mode)]) == View(mode, x)
  {
    assert x[..UnitLen(mode)][..UnitLen(mode)] == x[..UnitLen(mode)];
  }

  /** The unit the driver prepares is the one the delay line asks for. */
  lemma NextMatches(mode: Mode, first: seq<bool>, iv0: seq<bv8>, outs: seq<seq<bv8>>, base: nat, iv: seq<bv8>,
          source: seq<bv8>, rows: seq<seq<bv8>>)
    requires base < |outs| && Units(mode, outs) && |iv0| == |source| == IvLen(mode)
    requires IvLinked(mode, first, iv0, outs[..base], iv)
    requires |outs| - 1 - base < |rows| && forall k :: 0 <= k < |rows| ==> |rows[k]| >= 16
    requires |outs| - 1 - base < IvUnits(mode) ==> source == iv
    requires RowsHold(mode, rows, outs[base..], |outs| - base)
    ensures NextUnit(mode, source, rows, |outs| - 1 - base) == Expected(mode, first, iv0, outs, |outs|)
  {
    hide View, IvUnit, Expected, IvLinked;
    var j := |outs| - 1 - base;
    NextExpected(mode, first, iv0, outs, base, iv);
    if j >= IvUnits(mode) {
      var k := j - IvUnits(mode);
      ViewPrefix(mode, rows[k]);
      assert rows[k][..UnitLen(mode)] == outs[base + k];
    }
  }

  lemma UnitsTail(mode: Mode, outs: seq<seq<bv8>>, base: nat)
    requires Units(mode, outs) && base <= |outs|
    ensures Units(mode, outs[base..])
  {}

  // ----- the history rows

  /** The first `n` rows begin with the first `n` outputs. */
  ghost predicate RowsHold(mode: Mode, rows: seq<seq<bv8>>, outs: seq<seq<bv8>>, n: nat) {
    && n <= |outs| && n <= |rows| && Units(mode, outs)
    && forall k :: 0 <= k < n ==> |rows[k]| >= UnitLen(mode) && rows[k][..UnitLen(mode)] == outs[k]
  }

  lemma RowsLonger(mode: Mode, rows: seq<seq<bv8>>, outs: seq<seq<bv8>>, y: seq<bv8>, n: nat)
    requires RowsHold(mode, rows, outs, n) && |y| == UnitLen(mode)
    ensures RowsHold(mode, rows, outs + [y], n)
  {}

  /** One more row is filed. */
  lemma RowsMore(mode: Mode, was: seq<seq<bv8>>, rows: seq<seq<bv8>>, outs: seq<seq<bv8>>, n: nat)
    requires RowsHold(mode, was, outs, n) && |rows| == |was| && n < |outs| && n < |rows|
    requires forall k :: 0 <= k < n ==> rows[k] == was[k]
    requires |rows[n]| >= UnitLen(mode) && rows[n][..UnitLen(mode)] == outs[n]
    ensures RowsHold(mode, rows, outs, n + 1)
  {}
}
