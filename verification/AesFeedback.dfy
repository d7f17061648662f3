/**
 The laws of the AES Monte Carlo test, read on the bytes of inputs, outputs, keys and IVs alone: which
 earlier output every input repeats, and which outputs make the next key and IV.
 */
module AesFeedback {
  import opened Bits
  import opened AesLaw

  // ----- texts

  lemma LineAt(mode: Mode, first: seq<bool>, iv0: seq<bv8>, ins: seq<seq<bv8>>, outs: seq<seq<bv8>>, t: nat)
    requires DelayLine(mode, first, iv0, ins, outs) && t < |ins|
    ensures |iv0| == IvLen(mode) && |ins| == |outs| && Units(mode, ins) && Units(mode, outs)
    ensures View(mode, ins[t]) == Expected(mode, first, iv0, outs, t)
  {}

  /** A whole unit is what it shows. */
  lemma WholeUnit(mode: Mode, a: seq<bv8>, b: seq<bv8>)
    requires mode != CFB1 && |a| == |b| == UnitLen(mode) && View(mode, a) == View(mode, b)
    ensures a == b
  {
    hide ToBits;
    assert a[..UnitLen(mode)] == a && b[..UnitLen(mode)] == b;
    ToBitsInjective(a, b);
  }

  lemma FirstBit(a: seq<bv8>)
    requires |a| == 1
    ensures View(CFB1, a) == [a[0] & 0x80 != 0]
  {}

  /** In ECB every output is the next input. */
  lemma OutputFeeds(first: seq<bool>, iv0: seq<bv8>, ins: seq<seq<bv8>>, outs: seq<seq<bv8>>, t: nat)
    requires DelayLine(ECB, first, iv0, ins, outs) && t + 1 < |ins|
    ensures t < |outs| && ins[t + 1] == outs[t]
  {
    LineAt(ECB, first, iv0, ins, outs, t + 1);
    hide View;
    WholeUnit(ECB, ins[t + 1], outs[t]);
  }

  /** In CBC, OFB and CFB128 it is the input after the next, behind the IV. */
  lemma OlderOutputFeeds(mode: Mode, first: seq<bool>, iv0: seq<bv8>, ins: seq<seq<bv8>>, outs: seq<seq<bv8>>, t: nat)
    requires (mode == CBC || mode == OFB || mode == CFB128) && DelayLine(mode, first, iv0, ins, outs) && t + 1 < |ins|
    ensures |ins| == |outs| && ins[t + 1] == if t == 0 then iv0 else outs[t - 1]
  {
    LineAt(mode, first, iv0, ins, outs, t + 1);
    hide View;
    if t == 0 {
      IvView(mode, iv0);
      WholeUnit(mode, ins[1], iv0);
    } else {
      WholeUnit(mode, ins[t + 1], outs[t - 1]);
    }
  }

  lemma IvView(mode: Mode, iv: seq<bv8>)
    requires (mode == CBC || mode == OFB || mode == CFB128) && |iv| == 16
    ensures IvUnit(mode, iv, 0) == View(mode, iv)
  {
    assert iv[..16] == iv;
  }

  /** In CFB8 it is the seventeenth input from there, behind the bytes of the IV. */
  lemma ByteFeeds(first: seq<bool>, iv0: seq<bv8>, ins: seq<seq<bv8>>, outs: seq<seq<bv8>>, t: nat)
    requires DelayLine(CFB8, first, iv0, ins, outs) && t + 1 < |ins|
    ensures |ins| == |outs| && |iv0| == 16 && ins[t + 1] == if t < 16 then [iv0[t]] else outs[t - 16]
  {
    LineAt(CFB8, first, iv0, ins, outs, t + 1);
    hide ToBits;
    if t < 16 {
      assert [iv0[t]] == iv0[t..t + 1] && [iv0[t]][..1] == [iv0[t]];
      WholeUnit(CFB8, ins[t + 1], [iv0[t]]);
    } else {
      WholeUnit(CFB8, ins[t + 1], outs[t - 16]);
    }
  }

  /** In CFB1 it is the 129th input from there, behind the bits of the IV; only the first bit counts. */
  lemma BitFeeds(first: seq<bool>, iv0: seq<bv8>, ins: seq<seq<bv8>>, outs: seq<seq<bv8>>, t: nat)
    requires DelayLine(CFB1, first, iv0, ins, outs) && t + 1 < |ins|
    ensures |ins| == |outs| && |iv0| == 16 && |ins[t + 1]| == 1 && (t >= 128 ==> |outs[t - 128]| == 1)
    ensures ins[t + 1][0] & 0x80 != 0 <==>
      if t < 128 then GetBit(iv0[t / 8], t % 8) else outs[t - 128][0] & 0x80 != 0
  {
    LineAt(CFB1, first, iv0, ins, outs, t + 1);
    FirstBit(ins[t + 1]);
    if t >= 128 {
      FirstBit(outs[t - 128]);
    }
    hide View, GetBit;
    assert t < 128 ==> IvUnit(CFB1, iv0, t)[0] == GetBit(iv0[t / 8], t % 8);
  }

  // ----- keys and IVs

  lemma RoundOf<S>(c: Crypto<S>, mode: Mode, keyLen: nat, first: seq<bool>, rounds: nat, t: Trace, i: nat)
    requires MonteCarlo(c, mode, keyLen, first, rounds, t) && i < rounds
    ensures |t.keys| == |t.ivs| == rounds + 1 && |t.ins| == |t.outs| == 1000 * rounds && 1000 * i + 1000 <= |t.outs|
    ensures var r := Round(t.keys[i], t.ivs[i], t.ins[1000 * i..1000 * i + 1000], t.outs[1000 * i..1000 * i + 1000]);
      && NextKey(mode, keyLen, r, t.keys[i + 1]) && NextIv(mode, r, t.ivs[i + 1])
      && Units(mode, r.outs) && |r.outs| == 1000
      && DelayLine(mode, first, t.ivs[0], t.ins, t.outs) && Units(mode, t.outs)
  {
    hide Answers, NextKey, NextIv, View, Expected;
    assert RoundLaws(c, mode, keyLen, t, i);
    assert i * 1000 + 1000 <= rounds * 1000;
    assert t.RoundAt(i) == Round(t.keys[i], t.ivs[i], t.ins[i * INNER..(i + 1) * INNER],
                                 t.outs[i * INNER..(i + 1) * INNER]);
  }

  lemma XorKey(key: seq<bv8>, tail: seq<bv8>, next: seq<bv8>)
    requires |key| == |tail| == |next| && ToBits(next) == XorBits(ToBits(key), ToBits(tail))
    ensures next == XorBytes(key, tail)
  {
    hide ToBits;
    ToBitsXor(key, tail);
    ToBitsInjective(next, XorBytes(key, tail));
  }

  lemma KeyFromBlocks(mode: Mode, keyLen: nat, r: Round, next: seq<bv8>, a: seq<bv8>, b: seq<bv8>)
    requires NextKey(mode, keyLen, r, next) && keyLen <= 256 && UnitLen(mode) == 16 == |a| == |b|
    requires |r.outs| >= 2 && a == r.outs[|r.outs| - 2] && b == r.outs[|r.outs| - 1]
    ensures 8 * |r.key| == 8 * |next| == keyLen && next == XorBytes(r.key, (a + b)[32 - keyLen / 8..])
  {
    hide Stream, ToBits, View, LastBits, XorBits, XorBytes;
    BlockEnd(mode, r.outs, a, b, keyLen / 8);
    XorKey(r.key, (a + b)[32 - keyLen / 8..], next);
  }

  lemma IvFromBlock(mode: Mode, r: Round, iv: seq<bv8>, a: seq<bv8>, b: seq<bv8>)
    requires NextIv(mode, r, iv) && mode != ECB && UnitLen(mode) == 16 == |a| == |b|
    requires |r.outs| >= 2 && a == r.outs[|r.outs| - 2] && b == r.outs[|r.outs| - 1]
    ensures iv == b
  {
    hide Stream, ToBits, View, LastBits;
    BlockEnd(mode, r.outs, a, b, 16);
    assert (a + b)[16..] == b;
    ToBitsInjective(iv, b);
  }

  lemma UnitSize(mode: Mode, xs: seq<seq<bv8>>, k: nat)
    requires Units(mode, xs) && k < |xs|
    ensures |xs[k]| == UnitLen(mode)
  {}

  /** In the block modes the key takes in the end of the last two outputs, and the IV is the last one. */
  lemma BlockKey<S>(c: Crypto<S>, mode: Mode, keyLen: nat, first: seq<bool>, rounds: nat, t: Trace, i: nat)
    requires MonteCarlo(c, mode, keyLen, first, rounds, t) && i < rounds && UnitLen(mode) == 16 && keyLen <= 256
    ensures |t.keys| == |t.ivs| == rounds + 1 && |t.outs| == 1000 * rounds && 8 * |t.keys[i]| == keyLen
    ensures |t.outs[1000 * i + 998]| == |t.outs[1000 * i + 999]| == 16
    ensures t.keys[i + 1]
      == XorBytes(t.keys[i], (t.outs[1000 * i + 998] + t.outs[1000 * i + 999])[32 - |t.keys[i]|..])
    ensures mode != ECB ==> t.ivs[i + 1] == t.outs[1000 * i + 999]
  {
    hide *;
    RoundOf(c, mode, keyLen, first, rounds, t, i);
    var r := Round(t.keys[i], t.ivs[i], t.ins[1000 * i..1000 * i + 1000], t.outs[1000 * i..1000 * i + 1000]);
    var a, b := r.outs[998], r.outs[999];
    assert a == t.outs[1000 * i + 998] && b == t.outs[1000 * i + 999];
    UnitSize(mode, r.outs, 998);
    UnitSize(mode, r.outs, 999);
    KeyFromBlocks(mode, keyLen, r, t.keys[i + 1], a, b);
    if mode != ECB {
      IvFromBlock(mode, r, t.ivs[i + 1], a, b);
    }
  }

  lemma KeyFromBytes(keyLen: nat, r: Round, next: seq<bv8>)
    requires NextKey(CFB8, keyLen, r, next) && keyLen / 8 <= |r.outs|
    ensures 8 * |r.key| == 8 * |next| == keyLen && Units(CFB8, r.outs)
    ensures next == XorBytes(r.key, Heads(r.outs[|r.outs| - keyLen / 8..]))
  {
    hide Stream, ToBits, View, LastBits, XorBits, XorBytes;
    BytesEnd(r.outs, keyLen / 8);
    XorKey(r.key, Heads(r.outs[|r.outs| - keyLen / 8..]), next);
  }

  lemma IvFromBytes(r: Round, iv: seq<bv8>)
    requires NextIv(CFB8, r, iv) && 16 <= |r.outs|
    ensures Units(CFB8, r.outs) && iv == Heads(r.outs[|r.outs| - 16..])
  {
    hide Stream, ToBits, View, LastBits;
    BytesEnd(r.outs, 16);
    ToBitsInjective(iv, Heads(r.outs[|r.outs| - 16..]));
  }

  /** In CFB8 the last outputs go into the key, one for each byte, and the last sixteen are the IV. */
  lemma ByteKey<S>(c: Crypto<S>, keyLen: nat, first: seq<bool>, rounds: nat, t: Trace, i: nat)
    requires MonteCarlo(c, CFB8, keyLen, first, rounds, t) && i < rounds && keyLen <= 256
    ensures |t.keys| == |t.ivs| == rounds + 1 && |t.outs| == 1000 * rounds && 8 * |t.keys[i]| == keyLen
    ensures Units(CFB8, t.outs)
    ensures t.keys[i + 1] == XorBytes(t.keys[i], Heads(t.outs[1000 * (i + 1) - |t.keys[i]|..1000 * (i + 1)]))
    ensures t.ivs[i + 1] == Heads(t.outs[1000 * (i + 1) - 16..1000 * (i + 1)])
  {
    hide *;
    RoundOf(c, CFB8, keyLen, first, rounds, t, i);
    var outs := t.outs[1000 * i..1000 * i + 1000];
    var r := Round(t.keys[i], t.ivs[i], t.ins[1000 * i..1000 * i + 1000], outs);
    KeyFromBytes(keyLen, r, t.keys[i + 1]);
    IvFromBytes(r, t.ivs[i + 1]);
    assert outs[1000 - keyLen / 8..] == t.outs[1000 * (i + 1) - keyLen / 8..1000 * (i + 1)];
    assert outs[984..] == t.outs[1000 * (i + 1) - 16..1000 * (i + 1)];
  }

  lemma KeyFromBits(keyLen: nat, r: Round, next: seq<bv8>, n: nat, k: nat)
    requires NextKey(CFB1, keyLen, r, next) && keyLen <= |r.outs| && 8 * n + k < keyLen && k < 8
    ensures 8 * |r.key| == 8 * |next| == keyLen && |r.outs[|r.outs| - keyLen + 8 * n + k]| == 1
    ensures GetBit(next[n], k) == (GetBit(r.key[n], k) != (r.outs[|r.outs| - keyLen + 8 * n + k][0] & 0x80 != 0))
  {
    hide Stream, View, LastBits, GetBit;
    var q := 8 * n + k;
    assert q / 8 == n && q % 8 == k;
    BitsEnd(r.outs, keyLen);
    assert ToBits(next)[q] == (ToBits(r.key)[q] != LastBits(Stream(CFB1, r.outs), keyLen)[q]);
    TopBit(r.outs[|r.outs| - keyLen + q]);
  }

  lemma IvFromBits(r: Round, iv: seq<bv8>, n: nat, k: nat)
    requires NextIv(CFB1, r, iv) && 128 <= |r.outs| && n < 16 && k < 8
    ensures |iv| == 16 && |r.outs[|r.outs| - 128 + 8 * n + k]| == 1
    ensures GetBit(iv[n], k) == (r.outs[|r.outs| - 128 + 8 * n + k][0] & 0x80 != 0)
  {
    hide Stream, View, LastBits, GetBit;
    var q := 8 * n + k;
    assert q / 8 == n && q % 8 == k;
    BitsEnd(r.outs, 128);
    assert ToBits(iv)[q] == LastBits(Stream(CFB1, r.outs), 128)[q];
    TopBit(r.outs[|r.outs| - 128 + q]);
  }

  /** In CFB1 it is one output for each bit. */
  lemma BitKey<S>(c: Crypto<S>, keyLen: nat, first: seq<bool>, rounds: nat, t: Trace, i: nat, n: nat, k: nat)
    requires MonteCarlo(c, CFB1, keyLen, first, rounds, t) && i < rounds && keyLen <= 256 && 8 * n + k < keyLen && k < 8
    ensures |t.keys| == |t.ivs| == rounds + 1 && |t.outs| == 1000 * rounds
    ensures |t.outs[1000 * (i + 1) - keyLen + 8 * n + k]| == 1
    ensures 8 * |t.keys[i]| == 8 * |t.keys[i + 1]| == keyLen
    ensures GetBit(t.keys[i + 1][n], k)
      == (GetBit(t.keys[i][n], k) != (t.outs[1000 * (i + 1) - keyLen + 8 * n + k][0] & 0x80 != 0))
  {
    hide *;
    RoundOf(c, CFB1, keyLen, first, rounds, t, i);
    var outs := t.outs[1000 * i..1000 * i + 1000];
    var r := Round(t.keys[i], t.ivs[i], t.ins[1000 * i..1000 * i + 1000], outs);
    KeyFromBits(keyLen, r, t.keys[i + 1], n, k);
    assert outs[1000 - keyLen + 8 * n + k] == t.outs[1000 * (i + 1) - keyLen + 8 * n + k];
  }

  lemma BitIv<S>(c: Crypto<S>, keyLen: nat, first: seq<bool>, rounds: nat, t: Trace, i: nat, n: nat, k: nat)
    requires MonteCarlo(c, CFB1, keyLen, first, rounds, t) && i < rounds && n < 16 && k < 8
    ensures |t.ivs| == rounds + 1 && |t.outs| == 1000 * rounds && |t.ivs[i + 1]| == 16
    ensures |t.outs[1000 * i + 872 + 8 * n + k]| == 1
    ensures GetBit(t.ivs[i + 1][n], k) == (t.outs[1000 * i + 872 + 8 * n + k][0] & 0x80 != 0)
  {
    hide *;
    RoundOf(c, CFB1, keyLen, first, rounds, t, i);
    var outs := t.outs[1000 * i..1000 * i + 1000];
    var r := Round(t.keys[i], t.ivs[i], t.ins[1000 * i..1000 * i + 1000], outs);
    IvFromBits(r, t.ivs[i + 1], n, k);
    assert outs[872 + 8 * n + k] == t.outs[1000 * i + 872 + 8 * n + k];
  }

  lemma TopBit(a: seq<bv8>)
    requires |a| == 1
    ensures BitAt(a, 0) == (a[0] & 0x80 != 0)
  {}
}
