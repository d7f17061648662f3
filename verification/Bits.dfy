/**
 Bytes as bits, most significant bit first: bit n of a buffer is bit 7 - n % 8 of byte n / 8.
 */
module Bits {

  function Mask(k: nat): bv8
    requires k < 8
  {
    if k == 0 then 0x80 else if k == 1 then 0x40 else if k == 2 then 0x20 else if k == 3 then 0x10
    else if k == 4 then 0x08 else if k == 5 then 0x04 else if k == 6 then 0x02 else 0x01
  }

  predicate GetBit(b: bv8, k: nat)
    requires k < 8
  {
    b & Mask(k) != 0
  }

  function SetBit(b: bv8, k: nat, v: bool): bv8
    requires k < 8
  {
    (b & !Mask(k)) | (if v then Mask(k) else 0)
  }

  lemma SetGet(b: bv8, k: nat, v: bool, n: nat)
    requires k < 8 && n < 8
    ensures GetBit(SetBit(b, k, v), n) == if n == k then v else GetBit(b, n)
  {}

  lemma BitsDetermine(a: bv8, b: bv8)
    requires forall k: nat | k < 8 :: GetBit(a, k) == GetBit(b, k)
    ensures a == b
  {
    assert GetBit(a, 0) == GetBit(b, 0) && GetBit(a, 1) == GetBit(b, 1);
    assert GetBit(a, 2) == GetBit(b, 2) && GetBit(a, 3) == GetBit(b, 3);
    assert GetBit(a, 4) == GetBit(b, 4) && GetBit(a, 5) == GetBit(b, 5);
    assert GetBit(a, 6) == GetBit(b, 6) && GetBit(a, 7) == GetBit(b, 7);
  }

  lemma XorGet(a: bv8, b: bv8, k: nat)
    requires k < 8
    ensures GetBit(a ^ b, k) == (GetBit(a, k) != GetBit(b, k))
  {
    OneBit(a, b, Mask(k));
  }

  lemma OneBit(a: bv8, b: bv8, m: bv8)
    requires m & (m - 1) == 0
    ensures ((a ^ b) & m != 0) == ((a & m != 0) != (b & m != 0))
  {}

  // ----- buffers

  /** Bit n of a buffer: the macro `gb`. */
  predicate BitAt(s: seq<bv8>, n: nat)
    requires n < 8 * |s|
  {
    GetBit(s[n / 8], n % 8)
  }

  /** A buffer with bit n set to v: the macro `sb`. */
  function WithBit(s: seq<bv8>, n: nat, v: bool): (r: seq<bv8>)
    requires n < 8 * |s|
    ensures |r| == |s|
  {
    s[n / 8 := SetBit(s[n / 8], n % 8, v)]
  }

  /** All bits of a buffer. */
  function ToBits(s: seq<bv8>): (r: seq<bool>)
    ensures |r| == 8 * |s|
    ensures forall n :: 0 <= n < 8 * |s| ==> r[n] == BitAt(s, n)
  {
    seq(8 * |s|, n requires 0 <= n < 8 * |s| => BitAt(s, n))
  }

  lemma WithBitGet(s: seq<bv8>, n: nat, v: bool, k: nat)
    requires n < 8 * |s| && k < 8 * |s|
    ensures BitAt(WithBit(s, n, v), k) == if k == n then v else BitAt(s, k)
  {
    SetGet(s[n / 8], n % 8, v, k % 8);
  }

  lemma ToBitsConcat(a: seq<bv8>, b: seq<bv8>)
    ensures ToBits(a + b) == ToBits(a) + ToBits(b)
  {
    hide BitAt;
    forall n | 0 <= n < 8 * |a + b|
      ensures ToBits(a + b)[n] == (ToBits(a) + ToBits(b))[n]
    {
      ConcatBitAt(a, b, n);
    }
  }

  lemma ConcatBitAt(a: seq<bv8>, b: seq<bv8>, n: nat)
    requires n < 8 * |a + b|
    ensures BitAt(a + b, n) == if n < 8 * |a| then BitAt(a, n) else BitAt(b, n - 8 * |a|)
  {
    if n >= 8 * |a| {
      assert (n - 8 * |a|) / 8 == n / 8 - |a| && (n - 8 * |a|) % 8 == n % 8;
    }
  }

  lemma ToBitsSlice(s: seq<bv8>, i: nat, j: nat)
    requires i <= j <= |s|
    ensures ToBits(s[i..j]) == ToBits(s)[8 * i..8 * j]
  {
    assert s == s[..i] + s[i..j] + s[j..];
    ToBitsConcat(s[..i] + s[i..j], s[j..]);
    ToBitsConcat(s[..i], s[i..j]);
  }

  lemma ToBitsInjective(a: seq<bv8>, b: seq<bv8>)
    requires ToBits(a) == ToBits(b)
    ensures a == b
  {
    assert 8 * |a| == |ToBits(a)| == |ToBits(b)| == 8 * |b|;
    forall i | 0 <= i < |a|
      ensures a[i] == b[i]
    {
      forall k: nat | k < 8
        ensures GetBit(a[i], k) == GetBit(b[i], k)
      {
        assert (8 * i + k) / 8 == i && (8 * i + k) % 8 == k;
        assert ToBits(a)[8 * i + k] == ToBits(b)[8 * i + k];
      }
      BitsDetermine(a[i], b[i]);
    }
  }

  function XorBits(a: seq<bool>, b: seq<bool>): (r: seq<bool>)
    requires |a| == |b|
    ensures |r| == |a|
  {
    seq(|a|, i requires 0 <= i < |a| => a[i] != b[i])
  }

  /** Bytewise exclusive or. */
  function XorBytes(a: seq<bv8>, b: seq<bv8>): (r: seq<bv8>)
    requires |a| == |b|
    ensures |r| == |a|
  {
    seq(|a|, i requires 0 <= i < |a| => a[i] ^ b[i])
  }

  lemma ToBitsXor(a: seq<bv8>, b: seq<bv8>)
    requires |a| == |b|
    ensures ToBits(XorBytes(a, b)) == XorBits(ToBits(a), ToBits(b))
  {
    hide BitAt, XorBytes;
    forall n | 0 <= n < 8 * |a|
      ensures ToBits(XorBytes(a, b))[n] == XorBits(ToBits(a), ToBits(b))[n]
    {
      XorBitAt(a, b, n);
    }
  }

  lemma XorBitAt(a: seq<bv8>, b: seq<bv8>, n: nat)
    requires |a| == |b| && n < 8 * |a|
    ensures BitAt(XorBytes(a, b), n) == (BitAt(a, n) != BitAt(b, n))
  {
    XorGet(a[n / 8], b[n / 8], n % 8);
  }

  /** The last `n` bits of a stream. */
  function LastBits(s: seq<bool>, n: nat): (r: seq<bool>)
    requires n <= |s|
    ensures |r| == n
  {
    s[|s| - n..]
  }

  // ----- copying

  /** memcpy_s with enough room: the first `n` bytes of `src` over those of `dst`. */
  function Copy(dst: seq<bv8>, src: seq<bv8>, n: nat): (r: seq<bv8>)
    requires n <= |dst| && n <= |src|
    ensures |r| == |dst|
  {
    src[..n] + dst[n..]
  }

  lemma CopyPrefix(dst: seq<bv8>, src: seq<bv8>, n: nat)
    requires n <= |dst| && n <= |src|
    ensures Copy(dst, src, n)[..n] == src[..n]
  {}
}
