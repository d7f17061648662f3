/**
 The laws of the TDES Monte Carlo test leave nothing open: for a cipher that looks only at the bits that
 matter, they determine every output, key and IV of the run, and every text up to its unused bits.
 */
module TdesDetermined {
  import opened Bits
  import opened ShiftRegister
  import opened TdesParity
  import opened TdesLaw

  /** The cipher looks only at the bits of the unit. */
  ghost predicate Respects<S(!new)>(c: Cipher<S>, mode: Mode) {
    forall s: S, x: seq<bv8>, y: seq<bv8> ::
      |x| == |y| == UnitLen(mode) && View(mode, x) == View(mode, y) ==> c.step(s, x) == c.step(s, y)
  }

  lemma SameStep<S(!new)>(c: Cipher<S>, mode: Mode, s: S, x: seq<bv8>, y: seq<bv8>)
    requires Respects(c, mode) && |x| == |y| == UnitLen(mode) && View(mode, x) == View(mode, y)
    ensures c.step(s, x) == c.step(s, y)
  {
    hide View;
  }

  ghost predicate SameViews(mode: Mode, xs: seq<seq<bv8>>, ys: seq<seq<bv8>>) {
    && |xs| == |ys| && Units(mode, xs) && Units(mode, ys)
    && forall k :: 0 <= k < |xs| ==> View(mode, xs[k]) == View(mode, ys[k])
  }

  ghost predicate SameStart(mode: Mode, a: Start, b: Start) {
    && a.key == b.key && a.iv == b.iv && |a.text| == |b.text| == UnitLen(mode)
    && View(mode, a.text) == View(mode, b.text)
  }

  lemma {:induction false} ChainAgrees<S(!new)>(c: Cipher<S>, mode: Mode, a: Start, b: Start,
          xs: seq<seq<bv8>>, ys: seq<seq<bv8>>)
    requires Respects(c, mode) && SameViews(mode, xs, ys) && SameStart(mode, a, b)
    ensures ChainAt(c, mode, a, xs) == ChainAt(c, mode, b, ys)
    decreases |xs|
  {
    hide View, Respects;
    if xs == [] {
      assert ys == [];
    } else {
      ChainAgrees(c, mode, a, b, xs[..|xs|-1], ys[..|ys|-1]);
      SameStep(c, mode, ChainAt(c, mode, a, xs[..|xs|-1]), xs[|xs|-1], ys[|ys|-1]);
    }
  }

  // ----- one round

  /** Two rounds that agree on the first `n` steps. */
  ghost predicate Agree(mode: Mode, a: Round, b: Round, n: nat) {
    && SameStart(mode, a.start, b.start)
    && n <= |a.ins| == |a.outs| && n <= |b.ins| == |b.outs|
    && a.outs[..n] == b.outs[..n] && SameViews(mode, a.ins[..n], b.ins[..n])
  }

  lemma BeforeAgrees<S(!new)>(c: Cipher<S>, mode: Mode, a: Round, b: Round, n: nat)
    requires Respects(c, mode) && Agree(mode, a, b, n)
    ensures Before(c, mode, a, n) == Before(c, mode, b, n)
    ensures ChainAt(c, mode, a.start, a.ins[..n]) == ChainAt(c, mode, b.start, b.ins[..n])
  {
    hide View, Respects, ChainAt;
    ChainAgrees(c, mode, a.start, b.start, a.ins[..n], b.ins[..n]);
  }

  lemma AgreeLess(mode: Mode, a: Round, b: Round, n: nat, k: nat)
    requires Agree(mode, a, b, n) && k <= n
    ensures Agree(mode, a, b, k)
    ensures k < n ==> a.outs[k] == b.outs[k] && View(mode, a.ins[k]) == View(mode, b.ins[k])
    ensures k < n ==> |a.ins[k]| == |b.ins[k]| == UnitLen(mode)
  {
    hide View;
    assert a.outs[..k] == a.outs[..n][..k] && b.outs[..k] == b.outs[..n][..k];
    assert a.ins[..k] == a.ins[..n][..k] && b.ins[..k] == b.ins[..n][..k];
    if k < n {
      assert a.outs[k] == a.outs[..n][k] && b.outs[k] == b.outs[..n][k];
      assert a.ins[k] == a.ins[..n][k] && b.ins[k] == b.ins[..n][k];
    }
  }

  lemma AgreeMore(mode: Mode, a: Round, b: Round, n: nat)
    requires Agree(mode, a, b, n) && n < |a.ins| && n < |b.ins| && |a.ins[n]| == |b.ins[n]| == UnitLen(mode)
    requires a.outs[n] == b.outs[n] && View(mode, a.ins[n]) == View(mode, b.ins[n])
    ensures Agree(mode, a, b, n + 1)
  {
    hide View;
    assert a.outs[..n + 1] == a.outs[..n] + [a.outs[n]] && b.outs[..n + 1] == b.outs[..n] + [b.outs[n]];
    assert a.ins[..n + 1] == a.ins[..n] + [a.ins[n]] && b.ins[..n + 1] == b.ins[..n] + [b.ins[n]];
  }

  /** The text after step n depends on what the rounds agree on. */
  lemma TextAgrees<S(!new)>(c: Cipher<S>, mode: Mode, encrypt: bool, a: Round, b: Round, n: nat)
    requires Respects(c, mode) && Texts(c, mode, encrypt, a) && Texts(c, mode, encrypt, b)
    requires Agree(mode, a, b, n + 1)
    ensures TextAfter(c, mode, encrypt, a, n) == TextAfter(c, mode, encrypt, b, n)
  {
    hide View, Respects, ChainAt, Agree, Before;
    AgreeLess(mode, a, b, n + 1, n);
    BeforeAgrees(c, mode, a, b, n);
    PreviousAgrees(mode, a, b, n);
    AgreeSizes(mode, a, b, n);
  }

  lemma PreviousAgrees(mode: Mode, a: Round, b: Round, n: nat)
    requires Agree(mode, a, b, n)
    ensures Previous(a, n) == Previous(b, n)
  {
    if n > 0 {
      AgreeLess(mode, a, b, n, n - 1);
    }
  }

  lemma AgreeSizes(mode: Mode, a: Round, b: Round, n: nat)
    requires Agree(mode, a, b, n)
    ensures n <= |a.ins| == |a.outs| && n <= |b.ins| == |b.outs| && SameStart(mode, a.start, b.start)
  {}

  lemma StepAgrees<S(!new)>(c: Cipher<S>, mode: Mode, encrypt: bool, a: Round, b: Round, n: nat)
    requires Respects(c, mode) && Answers(c, mode, a) && Answers(c, mode, b)
    requires Texts(c, mode, encrypt, a) && Texts(c, mode, encrypt, b)
    requires Agree(mode, a, b, n) && n < |a.ins| && n < |b.ins|
    ensures Agree(mode, a, b, n + 1)
  {
    hide View, Respects, ChainAt, TextAfter;
    if n > 0 {
      TextAgrees(c, mode, encrypt, a, b, n - 1);
    }
    BeforeAgrees(c, mode, a, b, n);
    assert View(mode, a.ins[n]) == View(mode, b.ins[n]);
    SameStep(c, mode, ChainAt(c, mode, a.start, a.ins[..n]), a.ins[n], b.ins[n]);
    AgreeMore(mode, a, b, n);
  }

  lemma {:induction false} RoundAgrees<S(!new)>(c: Cipher<S>, mode: Mode, encrypt: bool, a: Round, b: Round, n: nat)
    requires Respects(c, mode) && Answers(c, mode, a) && Answers(c, mode, b)
    requires Texts(c, mode, encrypt, a) && Texts(c, mode, encrypt, b)
    requires SameStart(mode, a.start, b.start) && n <= |a.ins| == |b.ins|
    ensures Agree(mode, a, b, n)
  {
    hide View, Respects, Answers, Texts;
    if n > 0 {
      RoundAgrees(c, mode, encrypt, a, b, n - 1);
      StepAgrees(c, mode, encrypt, a, b, n - 1);
    } else {
      TextsParts(c, mode, encrypt, a);
      TextsParts(c, mode, encrypt, b);
    }
  }

  // ----- from round to round

  /** A mixed key byte has no freedom: its upper bits are given and its lowest is the parity. */
  lemma MixedOnce(was: bv8, slice: seq<bool>, p: bv8, q: bv8)
    requires |slice| == 8 && MixedByte(was, slice, p) && MixedByte(was, slice, q)
    ensures p == q
  {
    hide Ones, GetBit, ParityTable;
    assert forall k: nat :: k < 7 ==> GetBit(p, k) == GetBit(q, k);
    ParityUnique(q, p);
    ParityUnique(q, q);
  }

  lemma KeyOnce(option: nat, key: seq<bv8>, window: seq<bool>, p: seq<bv8>, q: seq<bv8>)
    requires NextKey(option, key, window, p) && NextKey(option, key, window, q)
    ensures p == q
  {
    hide MixedByte;
    forall n: nat | n < 24
      ensures p[n] == q[n]
    {
      if n < 16 || option == 1 {
        MixedOnce(key[n], window[8 * Slot(n)..8 * Slot(n) + 8], p[n], q[n]);
      } else {
        MixedOnce(key[n - 16], window[8 * Slot(n - 16)..8 * Slot(n - 16) + 8], p[n - 16], q[n - 16]);
        assert p[n] == p[16..][n - 16] && q[n] == q[16..][n - 16];
      }
    }
  }

  /** Rounds with the same start have the same outputs and leave the same start. */
  lemma NextAgrees<S(!new)>(c: Cipher<S>, mode: Mode, encrypt: bool, option: nat,
                            a: Round, b: Round, p: Start, q: Start)
    requires Respects(c, mode) && SameStart(mode, a.start, b.start)
    requires RoundLaws(c, mode, encrypt, option, a, p) && RoundLaws(c, mode, encrypt, option, b, q)
    ensures a.outs == b.outs && SameViews(mode, a.ins, b.ins) && SameStart(mode, p, q)
  {
    hide View, Respects, Answers, ChainAt, NextKey, Stream, TextAfter, Before, XorBits;
    RoundAgrees(c, mode, encrypt, a, b, INNER);
    TextsParts(c, mode, encrypt, a);
    TextsParts(c, mode, encrypt, b);
    assert a.ins[..INNER] == a.ins && b.ins[..INNER] == b.ins && a.outs[..INNER] == a.outs && b.outs[..INNER] == b.outs;
    ChainAgrees(c, mode, a.start, b.start, a.ins, b.ins);
    NextStartKey(c, mode, encrypt, option, a, p);
    NextStartKey(c, mode, encrypt, option, b, q);
    KeyOnce(option, a.start.key, LastBits(Stream(mode, a.outs), WIDTH), p.key, q.key);
    TextAgrees(c, mode, encrypt, a, b, INNER - 1);
    AgreeLess(mode, a, b, INNER, INNER - 1);
    BeforeAgrees(c, mode, a, b, INNER - 1);
  }

  /** What two runs have in common after their first `n` rounds. */
  ghost predicate SameRounds(mode: Mode, a: seq<Round>, b: seq<Round>, n: nat) {
    && n <= |a| && n <= |b|
    && forall i :: 0 <= i < n ==>
         SameStart(mode, a[i].start, b[i].start) && a[i].outs == b[i].outs && SameViews(mode, a[i].ins, b[i].ins)
  }

  lemma {:induction false} RoundsAgree<S(!new)>(c: Cipher<S>, mode: Mode, encrypt: bool, option: nat,
          a: seq<Round>, b: seq<Round>, lastA: Start, lastB: Start, n: nat)
    requires Respects(c, mode) && 0 < n <= |a| == |b| && SameStart(mode, a[0].start, b[0].start)
    requires MonteCarlo(c, mode, encrypt, option, a, lastA) && MonteCarlo(c, mode, encrypt, option, b, lastB)
    ensures SameRounds(mode, a, b, n) && SameStart(mode, Follower(a, lastA, n - 1), Follower(b, lastB, n - 1))
  {
    hide View, Respects, RoundLaws, SameStart, SameViews;
    var i := n - 1;
    if i > 0 {
      RoundsAgree(c, mode, encrypt, option, a, b, lastA, lastB, i);
    }
    NextAgrees(c, mode, encrypt, option, a[i], b[i], Follower(a, lastA, i), Follower(b, lastB, i));
  }

  /** Two runs of the test from the same key, IV and text are the same run. */
  lemma Determined<S(!new)>(c: Cipher<S>, mode: Mode, encrypt: bool, option: nat,
          a: seq<Round>, b: seq<Round>, lastA: Start, lastB: Start)
    requires Respects(c, mode) && 0 < |a| == |b| && SameStart(mode, a[0].start, b[0].start)
    requires MonteCarlo(c, mode, encrypt, option, a, lastA) && MonteCarlo(c, mode, encrypt, option, b, lastB)
    ensures SameRounds(mode, a, b, |a|) && SameStart(mode, lastA, lastB)
  {
    hide SameStart, SameRounds, MonteCarlo, Respects;
    RoundsAgree(c, mode, encrypt, option, a, b, lastA, lastB, |a|);
  }
}
