/**
 * Fixed-width signed little-endian integers, as Python's
 * `int.to_bytes(length = size, byteorder = 'little', signed = True)` writes them
 * and `int.from_bytes(bytes, byteorder = 'little', signed = True)` reads them back.
 */
module LittleEndian {

  /** One byte of a file: a value in 0..255. */
  type byte = b: int | 0 <= b < 256

  /** 256^k, the number of distinct values k bytes can hold. */
  function Pow256(k: nat): (r: nat)
    ensures r >= 1
    ensures k > 0 ==> r >= 256
  {
    if k == 0 then 1 else 256 * Pow256(k - 1)
  }

  /**
   * n fits in k bytes of two's complement: -256^k/2 <= n < 256^k/2.
   * Written with 2 * n so that k = 0 admits exactly n = 0, as `to_bytes` does.
   */
  predicate InSignedRange(n: int, k: nat) {
    -(Pow256(k) as int) <= 2 * n < Pow256(k)
  }

  /** The unsigned value of bs read little-endian (bs[0] is the least significant byte). */
  function Unsigned(bs: seq<byte>): (r: nat)
    ensures r < Pow256(|bs|)
  {
    if bs == [] then 0 else bs[0] + 256 * Unsigned(bs[1..])
  }

  /** The k low-order bytes of u, least significant first. */
  function UnsignedBytes(u: nat, k: nat): (r: seq<byte>)
    ensures |r| == k
  {
    if k == 0 then [] else [u % 256] + UnsignedBytes(u / 256, k - 1)
  }

  /** `n.to_bytes(size, 'little', signed = True)`: k-byte two's complement, little-endian. */
  function EncodeLE(n: int, k: nat): (r: seq<byte>)
    requires InSignedRange(n, k)
    ensures |r| == k
    ensures Unsigned(r) == if n >= 0 then n else n + Pow256(k)
  {
    var u := if n >= 0 then n else n + Pow256(k);
    UnsignedBytesValue(u, k);
    UnsignedBytes(u, k)
  }

  /** `int.from_bytes(bs, 'little', signed = True)`; the empty sequence decodes to 0. */
  function DecodeLE(bs: seq<byte>): (r: int)
    ensures InSignedRange(r, |bs|)
    ensures r < 0 <==> |bs| > 0 && bs[|bs| - 1] >= 128
  {
    if |bs| == 0 then 0
    else
      TopByteSign(bs);
      if bs[|bs| - 1] >= 128 then Unsigned(bs) - Pow256(|bs|) else Unsigned(bs)
  }

  /** Writing u on k bytes and reading the bytes back unsigned gives u when it fits. */
  lemma {:induction false} UnsignedBytesValue(u: nat, k: nat)
    requires u < Pow256(k)
    ensures Unsigned(UnsignedBytes(u, k)) == u
  {
    if k > 0 {
      var rest := UnsignedBytes(u / 256, k - 1);
      assert UnsignedBytes(u, k) == [u % 256] + rest;
      assert (UnsignedBytes(u, k))[1..] == rest;
      assert u / 256 < Pow256(k - 1);
      UnsignedBytesValue(u / 256, k - 1);
    }
  }

  /** Reading bs unsigned and writing the value back on |bs| bytes gives bs. */
  lemma {:induction false} UnsignedBytesOfValue(bs: seq<byte>)
    ensures UnsignedBytes(Unsigned(bs), |bs|) == bs
  {
    if bs != [] {
      var u := Unsigned(bs);
      assert u % 256 == bs[0] && u / 256 == Unsigned(bs[1..]);
      UnsignedBytesOfValue(bs[1..]);
    }
  }

  /** The last byte is the most significant one: it weighs 256^(k-1). */
  lemma {:induction false} UnsignedLast(bs: seq<byte>)
    requires |bs| > 0
    ensures Unsigned(bs) == Unsigned(bs[..|bs| - 1]) + Pow256(|bs| - 1) * bs[|bs| - 1]
  {
    var k := |bs|;
    if k > 1 {
      var tail, init := bs[1..], bs[..k - 1];
      UnsignedLast(tail);
      assert tail[..|tail| - 1] == init[1..];
      var low, p, top := Unsigned(init[1..]), Pow256(k - 2), bs[k - 1];
      assert Unsigned(tail) == low + p * top;
      assert Unsigned(init) == bs[0] + 256 * low;
      assert Pow256(k - 1) == 256 * p;
      ScaleSum(low, p, top);
    } else {
      assert bs[..0] == [];
      assert bs[1..] == [];
    }
  }

  lemma ScaleSum(low: nat, p: nat, top: nat)
    ensures 256 * (low + p * top) == 256 * low + (256 * p) * top
  {
  }

  /** The most significant byte is 128 or more exactly when the unsigned value is in the upper half. */
  lemma TopByteSign(bs: seq<byte>)
    requires |bs| > 0
    ensures bs[|bs| - 1] >= 128 <==> 2 * Unsigned(bs) >= Pow256(|bs|)
  {
    var k := |bs|;
    var p := Pow256(k - 1);
    var low := Unsigned(bs[..k - 1]);
    var top := bs[k - 1];
    UnsignedLast(bs);
    assert Pow256(k) == 256 * p;
    assert low < p;
    var weight := p * top;
    assert Unsigned(bs) == low + weight;
    if top >= 128 {
      MulMonotone(p, 128, top);
      assert weight >= 128 * p;
    } else {
      MulMonotone(p, top, 127);
      assert weight <= 127 * p;
    }
  }

  lemma MulMonotone(p: nat, a: nat, b: nat)
    requires a <= b
    ensures p * a <= p * b
  {
  }

  /** Round trip: decoding the k-byte encoding of a representable n gives n back. */
  lemma RoundTrip(n: int, k: nat)
    requires InSignedRange(n, k)
    ensures DecodeLE(EncodeLE(n, k)) == n
  {
    var bs := EncodeLE(n, k);
    if k > 0 {
      TopByteSign(bs);
    }
  }

  /** The other direction: every byte sequence is the encoding of its decoded value. */
  lemma EncodeOfDecode(bs: seq<byte>)
    ensures EncodeLE(DecodeLE(bs), |bs|) == bs
  {
    UnsignedBytesOfValue(bs);
    var n := DecodeLE(bs);
    var u := if n >= 0 then n else n + Pow256(|bs|);
    assert u == Unsigned(bs);
  }

  /** Two's complement: the top bit of the last byte is the sign of n. */
  lemma SignInLastByte(n: int, k: nat)
    requires k > 0 && InSignedRange(n, k)
    ensures n < 0 <==> EncodeLE(n, k)[k - 1] >= 128
  {
    RoundTrip(n, k);
  }

  /** A value representable on k bytes is representable on any wider width. */
  lemma {:induction false} SignedRangeWidens(n: int, k: nat, m: nat)
    requires k <= m && InSignedRange(n, k)
    ensures InSignedRange(n, m)
  {
    if k < m {
      SignedRangeWidens(n, k, m - 1);
    }
  }
}
