/** Byte buffers as arrays of bits, and the library calls on them. */
module BitArrays {
  import opened Lanes

  /** The smallest multiple of 8 that is no smaller than k. */
  function ByteEnd(k: nat): (e: nat)
    ensures k <= e < k + 8 && e % 8 == 0
  {
    (k + 7) / 8 * 8
  }

  /** The input as the hash interfaces define it: of a last incomplete byte, the most significant bits. */
  function Input(data: Bits, n: nat): (m: Bits)
    requires n <= |data| && |data| % 8 == 0
    ensures |m| == n
  {
    var k := n % 8;
    assert k > 0 ==> n - k + 8 <= |data|;
    if k == 0 then data[..n] else data[..n - k] + data[n - k + 8 - k..n - k + 8]
  }

  /** `t` with the bits from `at` on replaced. */
  function Put(t: Bits, at: nat, b: Bits): (u: Bits)
    requires at + |b| <= |t|
    ensures |u| == |t|
  {
    t[..at] + b + t[at + |b|..]
  }

  lemma PutNone(t: Bits, at: nat, b: Bits)
    requires at <= |t| && b == []
    ensures Put(t, at, b) == t
  {
  }

  lemma PutMore(t: Bits, at: nat, b: Bits, x: bool)
    requires at + |b| < |t|
    ensures Put(t, at, b + [x]) == Put(t, at, b)[at + |b| := x]
  {
  }

  /** memcpy of n bits. */
  method CopyBits(dst: array<bool>, at: nat, src: Bits, from: nat, n: nat)
    requires at + n <= dst.Length && from + n <= |src|
    modifies dst
    ensures dst[..] == Put(old(dst[..]), at, src[from..from + n])
  {
    ghost var t := dst[..];
    hide Put;
    ghost var b := src[from..from + n];
    PutNone(t, at, b[..0]);
    for k := 0 to n
      invariant dst[..] == Put(t, at, b[..k])
    {
      dst[at + k] := src[from + k];
      PutMore(t, at, b[..k], b[k]);
      assert b[..k + 1] == b[..k] + [b[k]];
    }
    assert b[..n] == b;
  }

  /** memset to 0. */
  method ClearBits(dst: array<bool>, at: nat, n: nat)
    requires at + n <= dst.Length
    modifies dst
    ensures dst[..] == Put(old(dst[..]), at, Zeros(n))
  {
    ghost var t := dst[..];
    hide Put;
    PutNone(t, at, Zeros(0));
    for k := 0 to n
      invariant dst[..] == Put(t, at, Zeros(k))
    {
      dst[at + k] := false;
      PutMore(t, at, Zeros(k), false);
      assert Zeros(k + 1) == Zeros(k) + [false];
    }
  }

  /** The low k bits of a byte, the others 0: `byte & ((1 << k) - 1)`. */
  function Masked(b: Bits, k: nat): (m: Bits)
    requires k <= 8 && k <= |b|
    ensures |m| == 8
  {
    b[..k] + Zeros(8 - k)
  }
}
