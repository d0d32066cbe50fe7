/** Machine words as strings of bits, least significant first, and the C operators on them. */
module Lanes {
  import opened Arith

  type Bits = seq<bool>

  function Zeros(n: nat): (r: Bits)
    ensures |r| == n
  {
    seq(n, _ => false)
  }

  /** `a ^ b`; a shorter b is extended with zeros. */
  function Xor(a: Bits, b: Bits): (r: Bits)
    ensures |r| == |a|
  {
    seq(|a|, i requires 0 <= i < |a| => a[i] != (i < |b| && b[i]))
  }

  /** `~a & b` */
  function AndNot(a: Bits, b: Bits): (r: Bits)
    ensures |r| == |a|
  {
    seq(|a|, i requires 0 <= i < |a| => !a[i] && i < |b| && b[i])
  }

  /** `a << k` */
  function ShiftLeft(a: Bits, k: nat): (r: Bits)
    ensures |r| == |a|
  {
    seq(|a|, i requires 0 <= i < |a| => i >= k && a[i - k])
  }

  /** `a >> k` */
  function ShiftRight(a: Bits, k: nat): (r: Bits)
    ensures |r| == |a|
  {
    seq(|a|, i requires 0 <= i < |a| => i + k < |a| && a[i + k])
  }

  /** ROL(a, offset), as the macro computes it. */
  function RolMacro(a: Bits, offset: nat): (r: Bits)
    requires |a| > 0
    ensures |r| == |a|
  {
    Xor(ShiftLeft(a, offset % |a|), ShiftRight(a, |a| - offset % |a|))
  }

  /** Rotation: bit z of the result is bit z - offset of the word, modulo its length. */
  function Rol(a: Bits, offset: nat): (r: Bits)
    ensures |r| == |a|
  {
    seq(|a|, z requires 0 <= z < |a| => a[(z - offset) % |a|])
  }

  lemma RolIs(a: Bits, offset: nat)
    requires |a| > 0
    ensures RolMacro(a, offset) == Rol(a, offset)
  {
    var w, k := |a|, offset % |a|;
    forall z | 0 <= z < w ensures RolMacro(a, offset)[z] == Rol(a, offset)[z] {
      RolIndex(z, offset, w);
    }
  }

  lemma RolIndex(z: int, offset: nat, w: nat)
    requires 0 <= z < w
    ensures var k := offset % w; (z - offset) % w == if z >= k then z - k else z - k + w
  {
    var k, q := offset % w, offset / w;
    var r := if z >= k then z - k else z - k + w;
    var p := if z >= k then -q else -q - 1;
    assert z - offset == w * p + r;
    ModUnique(z - offset, w, p, r);
  }

  /** Rotations that differ by a multiple of the length of the word are the same. */
  lemma RolReduce(a: Bits, j: nat, k: nat)
    requires |a| > 0 && j % |a| == k % |a|
    ensures Rol(a, j) == Rol(a, k)
  {
    forall z | 0 <= z < |a| ensures Rol(a, j)[z] == Rol(a, k)[z] {
      RolIndex(z, j, |a|);
      RolIndex(z, k, |a|);
    }
  }
}
