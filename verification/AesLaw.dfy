/**
 The law of the AES Monte Carlo test (section 6.4 of the AESAVS), the same for every mode and
 direction: the stream of inputs is the stream of outputs behind a delay line that first holds
 the initial text and then the units of the initial IV; between rounds the key takes in the end
 of the output stream, and so does the IV.
 */
module AesLaw {
  import opened Bits

  datatype Mode = ECB | CBC | OFB | CFB128 | CFB8 | CFB1

  /** Bytes that one call of the cipher reads and writes. */
  function UnitLen(mode: Mode): nat { if mode == CFB8 || mode == CFB1 then 1 else 16 }

  /** Bits of such a unit that matter: in CFB1 only the first one. */
  function UnitBits(mode: Mode): nat { if mode == CFB1 then 1 else 8 * UnitLen(mode) }

  /** Units of the IV that precede the outputs in the delay line. */
  function IvUnits(mode: Mode): nat {
    match mode case ECB => 0 case CFB8 => 16 case CFB1 => 128 case _ => 1
  }

  /** Bytes of the IV: ECB has none. */
  function IvLen(mode: Mode): nat { if mode == ECB then 0 else 16 }

  function Delay(mode: Mode): nat { IvUnits(mode) + 1 }

  /** The bits of a unit. */
  function View(mode: Mode, x: seq<bv8>): (v: seq<bool>)
    requires |x| >= UnitLen(mode)
    ensures |v| == UnitBits(mode)
  {
    if mode == CFB1 then [BitAt(x, 0)] else ToBits(x[..UnitLen(mode)])
  }

  function IvUnit(mode: Mode, iv: seq<bv8>, k: nat): seq<bool>
    requires |iv| == IvLen(mode) && k < IvUnits(mode)
  {
    if mode == CFB1 then [BitAt(iv, k)]
    else if mode == CFB8 then ToBits(iv[k..k+1])
    else ToBits(iv)
  }

  ghost predicate Units(mode: Mode, xs: seq<seq<bv8>>) {
    forall k :: 0 <= k < |xs| ==> |xs[k]| == UnitLen(mode)
  }

  /** What stands at position `t` of the delay line. */
  ghost function Expected(mode: Mode, first: seq<bool>, iv0: seq<bv8>, outs: seq<seq<bv8>>, t: nat): seq<bool>
    requires |iv0| == IvLen(mode) && Units(mode, outs) && t < |outs| + Delay(mode)
  {
    if t == 0 then first
    else if t < Delay(mode) then IvUnit(mode, iv0, t - 1)
    else View(mode, outs[t - Delay(mode)])
  }

  ghost predicate DelayLine(mode: Mode, first: seq<bool>, iv0: seq<bv8>, ins: seq<seq<bv8>>, outs: seq<seq<bv8>>) {
    && |iv0| == IvLen(mode) && |ins| == |outs| && Units(mode, ins) && Units(mode, outs)
    && forall t: nat :: t < |ins| ==> View(mode, ins[t]) == Expected(mode, first, iv0, outs, t)
  }

  // ----- the output stream

  /** The bits of a list of units, one after the other. */
  ghost function Stream(mode: Mode, xs: seq<seq<bv8>>): (s: seq<bool>)
    requires Units(mode, xs)
    ensures mode == CFB1 ==> |s| == |xs|
    ensures mode == CFB8 ==> |s| == 8 * |xs|
    ensures mode != CFB1 && mode != CFB8 ==> |s| == 128 * |xs|
  {
    if xs == [] then [] else Stream(mode, xs[..|xs|-1]) + View(mode, xs[|xs|-1])
  }

  lemma StreamSnoc(mode: Mode, xs: seq<seq<bv8>>, x: seq<bv8>)
    requires Units(mode, xs + [x])
    ensures Units(mode, xs) && |x| == UnitLen(mode)
    ensures Stream(mode, xs + [x]) == Stream(mode, xs) + View(mode, x)
  {
    hide View;
    assert (xs + [x])[|xs|] == x;
    assert forall k :: 0 <= k < |xs| ==> (xs + [x])[k] == xs[k];
    assert (xs + [x])[..|xs + [x]| - 1] == xs;
  }

  lemma {:induction false} StreamConcat(mode: Mode, a: seq<seq<bv8>>, b: seq<seq<bv8>>)
    requires Units(mode, a) && Units(mode, b)
    ensures Units(mode, a + b) && Stream(mode, a + b) == Stream(mode, a) + Stream(mode, b)
    decreases |b|
  {
    hide Stream, View;
    if b == [] {
      assert a + b == a;
      StreamNone(mode);
    } else {
      var b1, x := b[..|b|-1], b[|b|-1];
      assert b == b1 + [x] && a + b == (a + b1) + [x];
      StreamConcat(mode, a, b1);
      StreamSnoc(mode, a + b1, x);
      StreamSnoc(mode, b1, x);
      Associative(Stream(mode, a), Stream(mode, b1), View(mode, x));
    }
  }

  lemma StreamNone(mode: Mode)
    ensures Stream(mode, []) == []
  {}

  lemma Associative(a: seq<bool>, b: seq<bool>, c: seq<bool>)
    ensures (a + b) + c == a + (b + c)
  {}

  /** The end of the stream is the stream of the last units. */
  lemma StreamEnd(mode: Mode, outs: seq<seq<bv8>>, n: nat)
    requires Units(mode, outs) && n <= |outs|
    ensures var last := outs[|outs| - n..];
      Units(mode, last) && |Stream(mode, last)| <= |Stream(mode, outs)|
      && LastBits(Stream(mode, outs), |Stream(mode, last)|) == Stream(mode, last)
  {
    var head, last := outs[..|outs| - n], outs[|outs| - n..];
    assert outs == head + last;
    StreamConcat(mode, head, last);
  }

  lemma StreamOne(mode: Mode, x: seq<bv8>)
    requires |x| == UnitLen(mode)
    ensures Units(mode, [x]) && Stream(mode, [x]) == View(mode, x)
  {
    assert [] + [x] == [x];
    StreamSnoc(mode, [], x);
  }

  lemma {:induction false} StreamOfBits(outs: seq<seq<bv8>>)
    requires Units(CFB1, outs)
    ensures forall k :: 0 <= k < |outs| ==> Stream(CFB1, outs)[k] == BitAt(outs[k], 0)
    decreases |outs|
  {
    if outs != [] {
      StreamOfBits(outs[..|outs|-1]);
    }
  }

  function Heads(outs: seq<seq<bv8>>): (h: seq<bv8>)
    requires forall k :: 0 <= k < |outs| ==> |outs[k]| > 0
    ensures |h| == |outs|
  {
    seq(|outs|, k requires 0 <= k < |outs| => outs[k][0])
  }

  lemma {:induction false} StreamOfBytes(outs: seq<seq<bv8>>)
    requires Units(CFB8, outs)
    ensures Stream(CFB8, outs) == ToBits(Heads(outs))
    decreases |outs|
  {
    hide ToBits, Stream;
    StreamNone(CFB8);
    if outs == [] {
      assert Heads(outs) == [] && ToBits([]) == [];
    } else {
      var init, x := outs[..|outs|-1], outs[|outs|-1];
      StreamOfBytes(init);
      assert outs == init + [x];
      StreamSnoc(CFB8, init, x);
      assert Heads(outs) == Heads(init) + [x[0]];
      ToBitsConcat(Heads(init), [x[0]]);
      assert x[..1] == [x[0]];
    }
  }

  lemma StreamTwo(mode: Mode, a: seq<bv8>, b: seq<bv8>)
    requires UnitLen(mode) == 16 == |a| == |b|
    ensures Units(mode, [a, b]) && Stream(mode, [a, b]) == ToBits(a + b)
  {
    hide Stream, ToBits;
    assert [a, b] == [a] + [b];
    StreamOne(mode, a);
    StreamOne(mode, b);
    StreamConcat(mode, [a], [b]);
    assert a[..16] == a && b[..16] == b;
    ToBitsConcat(a, b);
  }

  /** The last bits of a block-mode stream, for every whole number of bytes up to two blocks. */
  lemma BlockEnd(mode: Mode, outs: seq<seq<bv8>>, a: seq<bv8>, b: seq<bv8>, n: nat)
    requires Units(mode, outs) && UnitLen(mode) == 16 == |a| == |b| && n <= 32
    requires |outs| >= 2 && outs[|outs| - 2] == a && outs[|outs| - 1] == b
    ensures 8 * n <= |Stream(mode, outs)|
    ensures LastBits(Stream(mode, outs), 8 * n) == ToBits((a + b)[32 - n..])
  {
    hide *;
    assert outs[|outs| - 2..] == [a, b];
    StreamEnd(mode, outs, 2);
    StreamTwo(mode, a, b);
    assert |a + b| == 32;
    SuffixSlice(Stream(mode, outs), a + b, n);
  }

  /** A shorter end of a stream whose end is known as bytes. */
  lemma SuffixSlice(s: seq<bool>, bytes: seq<bv8>, n: nat)
    requires 8 * |bytes| <= |s| && LastBits(s, 8 * |bytes|) == ToBits(bytes) && n <= |bytes|
    ensures LastBits(s, 8 * n) == ToBits(bytes[|bytes| - n..])
  {
    hide ToBits;
    ToBitsSlice(bytes, |bytes| - n, |bytes|);
    assert bytes[|bytes| - n..|bytes|] == bytes[|bytes| - n..];
    assert LastBits(s, 8 * n) == LastBits(s, 8 * |bytes|)[8 * |bytes| - 8 * n..];
  }

  /** The last bits of a byte-wise stream. */
  lemma BytesEnd(outs: seq<seq<bv8>>, n: nat)
    requires Units(CFB8, outs) && n <= |outs|
    ensures LastBits(Stream(CFB8, outs), 8 * n) == ToBits(Heads(outs[|outs| - n..]))
  {
    StreamEnd(CFB8, outs, n);
    StreamOfBytes(outs[|outs| - n..]);
  }

  /** The last bits of a bit-wise stream. */
  lemma BitsEnd(outs: seq<seq<bv8>>, n: nat)
    requires Units(CFB1, outs) && n <= |outs|
    ensures forall k :: 0 <= k < n ==> LastBits(Stream(CFB1, outs), n)[k] == BitAt(outs[|outs| - n + k], 0)
  {
    hide Stream, BitAt;
    StreamOfBits(outs);
    forall k | 0 <= k < n
      ensures LastBits(Stream(CFB1, outs), n)[k] == BitAt(outs[|outs| - n + k], 0)
    {
      assert LastBits(Stream(CFB1, outs), n)[k] == Stream(CFB1, outs)[|outs| - n + k];
    }
  }

  // ----- rounds

  const INNER: nat := 1000
  const OUTER: nat := 100

  /** The AES implementation under test: a state set up from key and IV, then stepped. */
  datatype Crypto<!S> = Crypto(init: (seq<bv8>, seq<bv8>) -> S, step: (S, seq<bv8>) -> (S, seq<bv8>))

  /** Every output is as long as its input. */
  ghost predicate Sized<S(!new)>(c: Crypto<S>) {
    forall s: S, x: seq<bv8> :: |c.step(s, x).1| == |x|
  }

  /** The cipher state after the inputs `xs` of a round. */
  function ChainAt<S>(c: Crypto<S>, key: seq<bv8>, iv: seq<bv8>, xs: seq<seq<bv8>>): S {
    if xs == [] then c.init(key, iv) else c.step(ChainAt(c, key, iv, xs[..|xs|-1]), xs[|xs|-1]).0
  }

  datatype Round = Round(key: seq<bv8>, iv: seq<bv8>, ins: seq<seq<bv8>>, outs: seq<seq<bv8>>)

  /** Every output of the round is the cipher's answer to its input. */
  ghost predicate Answers<S>(c: Crypto<S>, r: Round) {
    && |r.ins| == |r.outs|
    && forall j :: 0 <= j < |r.ins| ==>
         r.outs[j] == c.step(ChainAt(c, r.key, r.iv, r.ins[..j]), r.ins[j]).1
  }

  /** The key of the next round: this round's key xor the last key-length bits of the output stream. */
  ghost predicate NextKey(mode: Mode, keyLen: nat, r: Round, next: seq<bv8>) {
    && 8 * |r.key| == 8 * |next| == keyLen
    && Units(mode, r.outs) && keyLen <= |Stream(mode, r.outs)|
    && ToBits(next) == XorBits(ToBits(r.key), LastBits(Stream(mode, r.outs), keyLen))
  }

  /** The IV of the next round: the last 128 bits of the output stream, where the mode has an IV. */
  ghost predicate NextIv(mode: Mode, r: Round, next: seq<bv8>) {
    && |r.iv| == |next| == IvLen(mode)
    && (mode != ECB ==>
          Units(mode, r.outs) && 128 <= |Stream(mode, r.outs)|
          && ToBits(next) == LastBits(Stream(mode, r.outs), 128))
  }

  /** A run: the inputs and outputs of all its rounds, and the key and IV each round starts with
   (the last ones are left for a round that is not run). */
  datatype Trace = Trace(keys: seq<seq<bv8>>, ivs: seq<seq<bv8>>, ins: seq<seq<bv8>>, outs: seq<seq<bv8>>) {
    ghost predicate Covers(i: nat) {
      i < |keys| == |ivs| && (i + 1) * INNER <= |ins| == |outs|
    }

    ghost function RoundAt(i: nat): Round
      requires Covers(i)
    {
      Round(keys[i], ivs[i], ins[i * INNER..(i + 1) * INNER], outs[i * INNER..(i + 1) * INNER])
    }
  }

  /** The laws of round `i`, which also say what the next round starts from. */
  ghost predicate RoundLaws<S>(c: Crypto<S>, mode: Mode, keyLen: nat, t: Trace, i: nat)
    requires t.Covers(i) && i + 1 < |t.keys|
  {
    Answers(c, t.RoundAt(i)) && NextKey(mode, keyLen, t.RoundAt(i), t.keys[i + 1])
    && NextIv(mode, t.RoundAt(i), t.ivs[i + 1])
  }

  /** The Monte Carlo test: one delay line over all rounds, and three laws for each round. */
  ghost predicate MonteCarlo<S>(c: Crypto<S>, mode: Mode, keyLen: nat, first: seq<bool>, rounds: nat, t: Trace) {
    && |t.keys| == |t.ivs| == rounds + 1 && |t.ins| == |t.outs| == rounds * INNER
    && DelayLine(mode, first, t.ivs[0], t.ins, t.outs)
    && forall i: nat :: i < rounds ==> RoundLaws(c, mode, keyLen, t, i)
  }
}
