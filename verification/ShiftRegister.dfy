/**
 The 192-bit register that gathers the last output bits of a TDES Monte Carlo round. It lives in the
 first 24 bytes of a larger buffer and is shifted in place, by whole bytes and then by single bits.
 */
module ShiftRegister {
  import opened Bits

  const WIDTH: nat := 192
  const BYTES: nat := 24

  /** The register after `lead` has been shifted in from the right. */
  function Shifted(bits: seq<bool>, lead: seq<bool>): (r: seq<bool>)
    requires |lead| <= |bits|
    ensures |r| == |bits|
  {
    (bits + lead)[|lead|..]
  }

  /** A byte shifted left by `s`, filled up from the top of the next one. */
  function Joined(a: bv8, b: bv8, s: nat): bv8
    requires 0 < s < 8
  {
    (a << s) | (b >> (8 - s))
  }

  /** Bit k of the shifted byte is bit k + s of the two bytes taken together. */
  lemma JoinedBit(a: bv8, b: bv8, s: nat, k: nat)
    requires 0 < s < 8 && k < 8
    ensures GetBit(Joined(a, b, s), k) == if k + s < 8 then GetBit(a, k + s) else GetBit(b, k + s - 8)
  {
    hide *;
    if s == 1 {
      JoinedBit1(a, b, k);
    } else if s == 2 {
      JoinedBit2(a, b, k);
    } else if s == 3 {
      JoinedBit3(a, b, k);
    } else if s == 4 {
      JoinedBit4(a, b, k);
    } else if s == 5 {
      JoinedBit5(a, b, k);
    } else if s == 6 {
      JoinedBit6(a, b, k);
    } else {
      JoinedBit7(a, b, k);
    }
  }

  lemma JoinedBit1(a: bv8, b: bv8, k: nat)
    requires k < 8
    ensures GetBit(Joined(a, b, 1), k) == if k + 1 < 8 then GetBit(a, k + 1) else GetBit(b, k + 1 - 8)
  {
    assert Joined(a, b, 1) == (a << 1) | (b >> 7);
  }

  lemma JoinedBit2(a: bv8, b: bv8, k: nat)
    requires k < 8
    ensures GetBit(Joined(a, b, 2), k) == if k + 2 < 8 then GetBit(a, k + 2) else GetBit(b, k + 2 - 8)
  {
    assert Joined(a, b, 2) == (a << 2) | (b >> 6);
  }

  lemma JoinedBit3(a: bv8, b: bv8, k: nat)
    requires k < 8
    ensures GetBit(Joined(a, b, 3), k) == if k + 3 < 8 then GetBit(a, k + 3) else GetBit(b, k + 3 - 8)
  {
    assert Joined(a, b, 3) == (a << 3) | (b >> 5);
  }

  lemma JoinedBit4(a: bv8, b: bv8, k: nat)
    requires k < 8
    ensures GetBit(Joined(a, b, 4), k) == if k + 4 < 8 then GetBit(a, k + 4) else GetBit(b, k + 4 - 8)
  {
    assert Joined(a, b, 4) == (a << 4) | (b >> 4);
  }

  lemma JoinedBit5(a: bv8, b: bv8, k: nat)
    requires k < 8
    ensures GetBit(Joined(a, b, 5), k) == if k + 5 < 8 then GetBit(a, k + 5) else GetBit(b, k + 5 - 8)
  {
    assert Joined(a, b, 5) == (a << 5) | (b >> 3);
  }

  lemma JoinedBit6(a: bv8, b: bv8, k: nat)
    requires k < 8
    ensures GetBit(Joined(a, b, 6), k) == if k + 6 < 8 then GetBit(a, k + 6) else GetBit(b, k + 6 - 8)
  {
    assert Joined(a, b, 6) == (a << 6) | (b >> 2);
  }

  lemma JoinedBit7(a: bv8, b: bv8, k: nat)
    requires k < 8
    ensures GetBit(Joined(a, b, 7), k) == if k + 7 < 8 then GetBit(a, k + 7) else GetBit(b, k + 7 - 8)
  {
    assert Joined(a, b, 7) == (a << 7) | (b >> 1);
    JoinedSeven(a, b, (a << 7) | (b >> 1), k);
  }

  lemma TopBit(a: bv8, b: bv8)
    ensures ((a << 7) | (b >> 1)) & 0x80 != 0 <==> a & 0x01 != 0
  {}

  lemma LowBit(a: bv8, b: bv8, m: bv8, n: bv8)
    requires n == m >> 1 && m & 0x01 == 0
    ensures ((a << 7) | (b >> 1)) & n != 0 <==> b & m != 0
  {}

  lemma JoinedSeven(a: bv8, b: bv8, c: bv8, k: nat)
    requires k < 8 && c == (a << 7) | (b >> 1)
    ensures GetBit(c, k) == if k == 0 then GetBit(a, 7) else GetBit(b, k - 1)
  {
    TopBit(a, b);
    if k > 0 {
      LowBit(a, b, Mask(k - 1), Mask(k));
    }
  }

  /** The buffer after the bytes have been moved and appended, before the bits are. */
  function Moved(was: seq<bv8>, src: seq<bv8>, nbits: nat): (r: seq<bv8>)
    requires nbits <= WIDTH && |was| >= BYTES + 1 && (nbits + 7) / 8 <= |src|
    ensures |r| == |was|
  {
    was[nbits / 8..BYTES] + src[..(nbits + 7) / 8] + was[BYTES - nbits / 8 + (nbits + 7) / 8..]
  }

  /** Shifts the first 25 bytes left by fewer than 8 bits; the last one only gives bits away. */
  method ShiftLeft(dst: array<bv8>, s: nat)
    requires 0 < s < 8 && dst.Length >= BYTES + 1
    modifies dst
    ensures ToBits(dst[..BYTES]) == old(ToBits(dst[..BYTES + 1]))[s..s + WIDTH]
    ensures forall n :: BYTES <= n < dst.Length ==> dst[n] == old(dst[n])
  {
    hide Joined, ToBits;
    ghost var mid := dst[..];
    var n := 0;
    while n < BYTES
      invariant n <= BYTES
      invariant forall k :: 0 <= k < n ==> dst[k] == Joined(mid[k], mid[k + 1], s)
      invariant forall k :: n <= k < dst.Length ==> dst[k] == mid[k]
    {
      dst[n] := Joined(dst[n], dst[n + 1], s);
      n := n + 1;
    }
    BitsMoved(mid[..BYTES + 1], dst[..BYTES], s);
    assert mid[..BYTES + 1] == old(dst[..BYTES + 1]);
  }

  /** Moves the register left by whole bytes and appends the new ones. */
  method MoveIn(dst: array<bv8>, src: seq<bv8>, nbits: nat)
    requires nbits <= WIDTH && dst.Length >= BYTES + 1 && (nbits + 7) / 8 <= |src|
    modifies dst
    ensures dst[..] == Moved(old(dst[..]), src, nbits)
  {
    var moveBytes := BYTES - nbits / 8;
    forall n | 0 <= n < moveBytes {
      dst[n] := dst[nbits / 8 + n];
    }
    var copyBytes := (nbits + 7) / 8;
    forall n | 0 <= n < copyBytes {
      dst[moveBytes + n] := src[n];
    }
  }

  /** Shifts the first `nbits` bits of `src` into the register, touching at most one byte past it. */
  method ShiftIn(dst: array<bv8>, src: seq<bv8>, nbits: nat)
    requires nbits <= WIDTH && dst.Length >= BYTES + 1 && (nbits + 7) / 8 <= |src|
    modifies dst
    ensures ToBits(dst[..BYTES]) == Shifted(old(ToBits(dst[..BYTES])), ToBits(src)[..nbits])
    ensures Value(ToBits(dst[..BYTES]))
      == (old(Value(ToBits(dst[..BYTES]))) * Pow2(nbits) + Value(ToBits(src)[..nbits])) % Pow2(WIDTH)
    ensures forall n :: BYTES < n < dst.Length || (n == BYTES && nbits % 8 == 0) ==> dst[n] == old(dst[n])
  {
    hide ToBits, Shifted, Value, Pow2;
    ghost var was := dst[..];
    ShiftedValue(ToBits(was[..BYTES]), ToBits(src)[..nbits]);
    MoveIn(dst, src, nbits);
    ghost var mid := dst[..];
    assert dst[..BYTES + 1] == mid[..BYTES + 1];
    if nbits % 8 != 0 {
      ShiftLeft(dst, nbits % 8);
    } else {
      ToBitsSlice(mid[..BYTES + 1], 0, BYTES);
      assert mid[..BYTES + 1][0..BYTES] == dst[..BYTES];
    }
    ShiftedBits(was, src, nbits, mid, dst[..BYTES]);
    assert was[..BYTES] == old(dst[..BYTES]);
  }

  lemma BitsMoved(mid: seq<bv8>, last: seq<bv8>, s: nat)
    requires 0 < s < 8 && |mid| == |last| + 1
    requires forall k :: 0 <= k < |last| ==> last[k] == Joined(mid[k], mid[k + 1], s)
    ensures ToBits(last) == ToBits(mid)[s..s + 8 * |last|]
  {
    hide Joined, GetBit;
    forall n | 0 <= n < 8 * |last|
      ensures ToBits(last)[n] == ToBits(mid)[s + n]
    {
      JoinedBit(mid[n / 8], mid[n / 8 + 1], s, n % 8);
      if n % 8 + s < 8 {
        assert (s + n) / 8 == n / 8 && (s + n) % 8 == n % 8 + s;
      } else {
        assert (s + n) / 8 == n / 8 + 1 && (s + n) % 8 == n % 8 + s - 8;
      }
    }
  }

  lemma MovedFront(was: seq<bv8>, src: seq<bv8>, nbits: nat)
    requires nbits <= WIDTH && |was| >= BYTES + 1 && (nbits + 7) / 8 <= |src|
    ensures var n := BYTES - nbits / 8 + (nbits + 7) / 8;
      n <= |was| && Moved(was, src, nbits)[..n] == was[nbits / 8..BYTES] + src[..(nbits + 7) / 8]
  {}

  lemma ShiftedBits(was: seq<bv8>, src: seq<bv8>, nbits: nat, mid: seq<bv8>, last: seq<bv8>)
    requires nbits <= WIDTH && |was| >= BYTES + 1 && (nbits + 7) / 8 <= |src| && |last| == BYTES
    requires mid == Moved(was, src, nbits)
    requires ToBits(last) == ToBits(mid[..BYTES + 1])[nbits % 8..nbits % 8 + WIDTH]
    ensures ToBits(last) == Shifted(ToBits(was[..BYTES]), ToBits(src)[..nbits])
  {
    hide ToBits, Moved, Shifted;
    var q, s, c := nbits / 8, nbits % 8, (nbits + 7) / 8;
    var kept, added := was[q..BYTES], src[..c];
    MovedFront(was, src, nbits);
    ToBitsConcat(kept, added);
    ToBitsSlice(was[..BYTES], q, BYTES);
    assert was[..BYTES][q..BYTES] == kept;
    ToBitsSlice(src, 0, c);
    assert src[0..c] == added;
    ToBitsSlice(mid[..BYTES + 1], 0, BYTES - q + c);
    assert mid[..BYTES + 1][0..BYTES - q + c] == kept + added;
    assert ToBits(was[..BYTES])[8 * q..8 * BYTES] == ToBits(was[..BYTES])[8 * q..];
    assert ToBits(src)[0..8 * c] == ToBits(src)[..8 * c];
    assert ToBits(mid[..BYTES + 1])[0..8 * (BYTES - q + c)] == ToBits(kept) + ToBits(added);
    Aligned(ToBits(was[..BYTES]), ToBits(src), 8 * q, s, 8 * c);
    FrontSlice(ToBits(mid[..BYTES + 1]), 8 * (BYTES - q + c), s, s + WIDTH);
  }

  lemma FrontSlice(x: seq<bool>, m: nat, i: nat, j: nat)
    requires i <= j <= m <= |x|
    ensures x[i..j] == x[0..m][i..j]
  {}

  /** Dropping whole bytes before the append and the odd bits after it is one shift. */
  lemma Aligned(bits: seq<bool>, src: seq<bool>, whole: nat, odd: nat, m: nat)
    requires whole + odd <= |bits| && whole + odd <= m <= |src|
    ensures (bits[whole..] + src[..m])[odd..odd + |bits|] == Shifted(bits, src[..whole + odd])
  {}

  // ----- the register as a number

  /** A string of bits as a number, the first bit being the greatest. */
  function Value(bits: seq<bool>): (v: nat) {
    if bits == [] then 0 else 2 * Value(bits[..|bits| - 1]) + (if bits[|bits| - 1] then 1 else 0)
  }

  function Pow2(n: nat): (p: nat)
    ensures p > 0
  {
    if n == 0 then 1 else 2 * Pow2(n - 1)
  }

  lemma {:induction false} ValueConcat(a: seq<bool>, b: seq<bool>)
    ensures Value(a + b) == Value(a) * Pow2(|b|) + Value(b)
    decreases |b|
  {
    if b == [] {
      assert a + b == a;
    } else {
      var b1 := b[..|b| - 1];
      assert (a + b)[..|a + b| - 1] == a + b1;
      ValueConcat(a, b1);
      Twice(Value(a), Pow2(|b1|));
    }
  }

  lemma {:induction false} ValueBound(bits: seq<bool>)
    ensures Value(bits) < Pow2(|bits|)
    decreases |bits|
  {
    if bits != [] {
      ValueBound(bits[..|bits| - 1]);
    }
  }

  lemma Twice(a: nat, p: nat)
    ensures a * (2 * p) == 2 * (a * p)
  {}

  lemma AtLeast(d: nat, m: nat)
    requires d >= 1
    ensures d * m >= m
  {}

  lemma Distribute(a: int, b: int, m: int)
    ensures (a - b) * m == a * m - b * m
  {}

  lemma Remainder(q: nat, m: nat, r: nat)
    requires r < m
    ensures (q * m + r) % m == r
  {
    var x := q * m + r;
    var d := x / m;
    assert x == d * m + x % m;
    Distribute(d, q, m);
    if d > q {
      AtLeast(d - q, m);
    } else if d < q {
      Distribute(q, d, m);
      AtLeast(q - d, m);
    }
  }

  /** Shifting is arithmetic: multiply by a power of two, add, and drop what overflows. */
  lemma ShiftedValue(bits: seq<bool>, lead: seq<bool>)
    requires |lead| <= |bits|
    ensures Value(Shifted(bits, lead)) == (Value(bits) * Pow2(|lead|) + Value(lead)) % Pow2(|bits|)
  {
    var all := bits + lead;
    var dropped, kept := all[..|lead|], all[|lead|..];
    assert all == dropped + kept;
    ValueConcat(bits, lead);
    ValueConcat(dropped, kept);
    ValueBound(kept);
    Remainder(Value(dropped), Pow2(|bits|), Value(kept));
  }

  // ----- many shifts

  /** The last `n` bits of a stream, in front of which the register held `bits`. */
  lemma ShiftedStream(bits: seq<bool>, stream: seq<bool>, lead: seq<bool>)
    requires |lead| <= |bits|
    ensures Shifted(LastBits(bits + stream, |bits|), lead) == LastBits(bits + (stream + lead), |bits|)
  {
    assert bits + (stream + lead) == (bits + stream) + lead;
  }

  /** The register after several shifts, the first one first. */
  function ShiftedAll(bits: seq<bool>, leads: seq<seq<bool>>): (r: seq<bool>)
    requires forall k :: 0 <= k < |leads| ==> |leads[k]| <= |bits|
    ensures |r| == |bits|
  {
    if leads == [] then bits else Shifted(ShiftedAll(bits, leads[..|leads|-1]), leads[|leads|-1])
  }

  /** All bits shifted in, one lead after the other. */
  function Flat(leads: seq<seq<bool>>): seq<bool> {
    if leads == [] then [] else Flat(leads[..|leads|-1]) + leads[|leads|-1]
  }

  /** After any number of shifts the register holds the end of what it held and was given. */
  lemma {:induction false} ShiftedAllEnds(bits: seq<bool>, leads: seq<seq<bool>>)
    requires forall k :: 0 <= k < |leads| ==> |leads[k]| <= |bits|
    ensures ShiftedAll(bits, leads) == LastBits(bits + Flat(leads), |bits|)
    decreases |leads|
  {
    hide Shifted;
    if leads == [] {
      assert bits + [] == bits;
    } else {
      ShiftedAllEnds(bits, leads[..|leads|-1]);
      ShiftedStream(bits, Flat(leads[..|leads|-1]), leads[|leads|-1]);
    }
  }

  /** Two registers that are given the same bits, at least as many as they hold, become equal. */
  lemma Forgets(a: seq<bool>, b: seq<bool>, leads: seq<seq<bool>>)
    requires |a| == |b| <= |Flat(leads)| && forall k :: 0 <= k < |leads| ==> |leads[k]| <= |a|
    ensures ShiftedAll(a, leads) == ShiftedAll(b, leads) == LastBits(Flat(leads), |a|)
  {
    hide ShiftedAll, Flat;
    ShiftedAllEnds(a, leads);
    ShiftedAllEnds(b, leads);
    Forgotten(a, Flat(leads));
    Forgotten(b, Flat(leads));
  }

  /** Once enough bits have gone in, what the register held before no longer matters. */
  lemma Forgotten(bits: seq<bool>, stream: seq<bool>)
    requires |bits| <= |stream|
    ensures LastBits(bits + stream, |bits|) == LastBits(stream, |bits|)
  {}
}
