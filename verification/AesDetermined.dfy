/**
 The laws of the Monte Carlo test leave nothing open: for a cipher that looks only at the bits that
 matter, they determine every output, key and IV of the run, and every input up to its unused bits.
 */
module AesDetermined {
  import opened Bits
  import opened AesLaw

  /** The cipher looks only at the bits of the unit. */
  ghost predicate Respects<S(!new)>(c: Crypto<S>, mode: Mode) {
    forall s: S, x: seq<bv8>, y: seq<bv8> ::
      |x| == |y| == UnitLen(mode) && View(mode, x) == View(mode, y) ==> c.step(s, x) == c.step(s, y)
  }

  ghost predicate SameViews(mode: Mode, xs: seq<seq<bv8>>, ys: seq<seq<bv8>>) {
    && |xs| == |ys| && Units(mode, xs) && Units(mode, ys)
    && forall k :: 0 <= k < |xs| ==> View(mode, xs[k]) == View(mode, ys[k])
  }

  /** Two runs that agree on the first `n` steps. */
  ghost predicate Agree(mode: Mode, a: Trace, b: Trace, n: nat) {
    && n <= |a.ins| == |a.outs| && n <= |b.ins| == |b.outs|
    && a.outs[..n] == b.outs[..n] && SameViews(mode, a.ins[..n], b.ins[..n])
  }

  lemma {:induction false} ChainAgrees<S(!new)>(c: Crypto<S>, mode: Mode, key: seq<bv8>, iv: seq<bv8>,
          xs: seq<seq<bv8>>, ys: seq<seq<bv8>>)
    requires Respects(c, mode) && SameViews(mode, xs, ys)
    ensures ChainAt(c, key, iv, xs) == ChainAt(c, key, iv, ys)
    decreases |xs|
  {
    hide View;
    if xs == [] {
      assert ys == [];
    } else {
      ChainAgrees(c, mode, key, iv, xs[..|xs|-1], ys[..|ys|-1]);
    }
  }

  lemma ExpectedAgrees(mode: Mode, first: seq<bool>, iv0: seq<bv8>, a: seq<seq<bv8>>, b: seq<seq<bv8>>, n: nat)
    requires |iv0| == IvLen(mode) && Units(mode, a) && Units(mode, b) && n <= |a| && n <= |b| && a[..n] == b[..n]
    ensures Expected(mode, first, iv0, a, n) == Expected(mode, first, iv0, b, n)
  {
    hide View, IvUnit;
    if n >= Delay(mode) {
      assert a[n - Delay(mode)] == a[..n][n - Delay(mode)] == b[..n][n - Delay(mode)] == b[n - Delay(mode)];
    }
  }

  /** Answers, at a step given by its place in the whole run. */
  lemma AnswerAt<S>(c: Crypto<S>, t: Trace, i: nat, n: nat)
    requires t.Covers(i) && Answers(c, t.RoundAt(i)) && i * INNER <= n < (i + 1) * INNER
    ensures t.outs[n] == c.step(ChainAt(c, t.keys[i], t.ivs[i], t.ins[i * INNER..n]), t.ins[n]).1
  {
    hide ChainAt;
    var r, j := t.RoundAt(i), n - i * INNER;
    assert r.ins[..j] == t.ins[i * INNER..n] && r.ins[j] == t.ins[n] && r.outs[j] == t.outs[n];
  }

  lemma AgreeMore(mode: Mode, a: Trace, b: Trace, n: nat)
    requires Agree(mode, a, b, n) && n < |a.ins| && n < |b.ins| && |a.ins[n]| == |b.ins[n]| == UnitLen(mode)
    requires a.outs[n] == b.outs[n] && View(mode, a.ins[n]) == View(mode, b.ins[n])
    ensures Agree(mode, a, b, n + 1)
  {
    hide View;
    assert a.outs[..n + 1] == a.outs[..n] + [a.outs[n]] && b.outs[..n + 1] == b.outs[..n] + [b.outs[n]];
    assert a.ins[..n + 1] == a.ins[..n] + [a.ins[n]] && b.ins[..n + 1] == b.ins[..n] + [b.ins[n]];
  }

  lemma SameStep<S(!new)>(c: Crypto<S>, mode: Mode, s: S, x: seq<bv8>, y: seq<bv8>)
    requires Respects(c, mode) && |x| == |y| == UnitLen(mode) && View(mode, x) == View(mode, y)
    ensures c.step(s, x) == c.step(s, y)
  {
    hide View;
  }

  lemma StepAgrees<S(!new)>(c: Crypto<S>, mode: Mode, first: seq<bool>, a: Trace, b: Trace, i: nat, n: nat)
    requires Respects(c, mode) && a.Covers(i) && b.Covers(i) && i * INNER <= n < (i + 1) * INNER
    requires Answers(c, a.RoundAt(i)) && Answers(c, b.RoundAt(i))
    requires DelayLine(mode, first, a.ivs[0], a.ins, a.outs) && DelayLine(mode, first, b.ivs[0], b.ins, b.outs)
    requires a.ivs[0] == b.ivs[0] && a.keys[i] == b.keys[i] && a.ivs[i] == b.ivs[i] && Agree(mode, a, b, n)
    ensures Agree(mode, a, b, n + 1)
  {
    hide View, Expected, ChainAt, Answers, Respects;
    ExpectedAgrees(mode, first, a.ivs[0], a.outs, b.outs, n);
    assert View(mode, a.ins[n]) == View(mode, b.ins[n]);
    AnswerAt(c, a, i, n);
    AnswerAt(c, b, i, n);
    assert a.ins[i * INNER..n] == a.ins[..n][i * INNER..] && b.ins[i * INNER..n] == b.ins[..n][i * INNER..];
    ChainAgrees(c, mode, a.keys[i], a.ivs[i], a.ins[i * INNER..n], b.ins[i * INNER..n]);
    SameStep(c, mode, ChainAt(c, a.keys[i], a.ivs[i], a.ins[i * INNER..n]), a.ins[n], b.ins[n]);
    AgreeMore(mode, a, b, n);
  }

  lemma {:induction false} RoundAgrees<S(!new)>(c: Crypto<S>, mode: Mode, first: seq<bool>, a: Trace, b: Trace,
          i: nat, n: nat)
    requires Respects(c, mode) && a.Covers(i) && b.Covers(i) && i * INNER <= n <= (i + 1) * INNER
    requires Answers(c, a.RoundAt(i)) && Answers(c, b.RoundAt(i))
    requires DelayLine(mode, first, a.ivs[0], a.ins, a.outs) && DelayLine(mode, first, b.ivs[0], b.ins, b.outs)
    requires a.ivs[0] == b.ivs[0] && a.keys[i] == b.keys[i] && a.ivs[i] == b.ivs[i] && Agree(mode, a, b, i * INNER)
    ensures Agree(mode, a, b, n)
    decreases n
  {
    hide Respects, Answers, DelayLine, Agree;
    if n > i * INNER {
      RoundAgrees(c, mode, first, a, b, i, n - 1);
      StepAgrees(c, mode, first, a, b, i, n - 1);
    }
  }

  lemma NextAgrees(mode: Mode, keyLen: nat, a: Round, b: Round, keyA: seq<bv8>, keyB: seq<bv8>, ivA: seq<bv8>,
          ivB: seq<bv8>)
    requires a.outs == b.outs && a.key == b.key && a.iv == b.iv
    requires NextKey(mode, keyLen, a, keyA) && NextKey(mode, keyLen, b, keyB)
    requires NextIv(mode, a, ivA) && NextIv(mode, b, ivB)
    ensures keyA == keyB && ivA == ivB
  {
    hide Stream, ToBits, XorBits, LastBits;
    ToBitsInjective(keyA, keyB);
    if mode != ECB {
      ToBitsInjective(ivA, ivB);
    }
  }

  lemma {:induction false} RoundsAgree<S(!new)>(c: Crypto<S>, mode: Mode, keyLen: nat, first: seq<bool>,
          rounds: nat, a: Trace, b: Trace, i: nat)
    requires Respects(c, mode) && i <= rounds
    requires MonteCarlo(c, mode, keyLen, first, rounds, a) && MonteCarlo(c, mode, keyLen, first, rounds, b)
    requires a.keys[0] == b.keys[0] && a.ivs[0] == b.ivs[0]
    ensures a.keys[..i + 1] == b.keys[..i + 1] && a.ivs[..i + 1] == b.ivs[..i + 1] && Agree(mode, a, b, i * INNER)
  {
    hide Respects, Answers, DelayLine, NextKey, NextIv, Expected, View;
    if i > 0 {
      RoundsAgree(c, mode, keyLen, first, rounds, a, b, i - 1);
      var r := i - 1;
      assert a.keys[..i][r] == b.keys[..i][r] && a.ivs[..i][r] == b.ivs[..i][r];
      assert RoundLaws(c, mode, keyLen, a, r) && RoundLaws(c, mode, keyLen, b, r);
      RoundAgrees(c, mode, first, a, b, r, i * INNER);
      assert a.outs[r * INNER..i * INNER] == a.outs[..i * INNER][r * INNER..];
      assert b.outs[r * INNER..i * INNER] == b.outs[..i * INNER][r * INNER..];
      NextAgrees(mode, keyLen, a.RoundAt(r), b.RoundAt(r), a.keys[i], b.keys[i], a.ivs[i], b.ivs[i]);
      assert a.keys[..i + 1] == a.keys[..i] + [a.keys[i]] && b.keys[..i + 1] == b.keys[..i] + [b.keys[i]];
      assert a.ivs[..i + 1] == a.ivs[..i] + [a.ivs[i]] && b.ivs[..i + 1] == b.ivs[..i] + [b.ivs[i]];
    } else {
      FirstAgree(mode, first, a, b);
      assert a.keys[..1] == [a.keys[0]] && b.keys[..1] == [b.keys[0]];
      assert a.ivs[..1] == [a.ivs[0]] && b.ivs[..1] == [b.ivs[0]];
    }
  }

  lemma FirstAgree(mode: Mode, first: seq<bool>, a: Trace, b: Trace)
    requires |a.ivs| > 0 && |b.ivs| > 0
    requires DelayLine(mode, first, a.ivs[0], a.ins, a.outs) && DelayLine(mode, first, b.ivs[0], b.ins, b.outs)
    ensures Agree(mode, a, b, 0)
  {}

  /** Two runs of the test from the same key, IV and text are the same run. */
  lemma Determined<S(!new)>(c: Crypto<S>, mode: Mode, keyLen: nat, first: seq<bool>, rounds: nat, a: Trace, b: Trace)
    requires Respects(c, mode)
    requires MonteCarlo(c, mode, keyLen, first, rounds, a) && MonteCarlo(c, mode, keyLen, first, rounds, b)
    requires a.keys[0] == b.keys[0] && a.ivs[0] == b.ivs[0]
    ensures a.outs == b.outs && a.keys == b.keys && a.ivs == b.ivs && SameViews(mode, a.ins, b.ins)
  {
    hide Respects, RoundLaws, DelayLine, SameViews;
    RoundsAgree(c, mode, keyLen, first, rounds, a, b, rounds);
    assert a.outs[..rounds * INNER] == a.outs && b.outs[..rounds * INNER] == b.outs;
    assert a.ins[..rounds * INNER] == a.ins && b.ins[..rounds * INNER] == b.ins;
    assert a.keys[..rounds + 1] == a.keys && b.keys[..rounds + 1] == b.keys;
    assert a.ivs[..rounds + 1] == a.ivs && b.ivs[..rounds + 1] == b.ivs;
  }
}
