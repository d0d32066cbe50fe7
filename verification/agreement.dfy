/** The three implementations of Keccak-f[1600] compute the same function. */
module Agreement {
  import opened Lanes
  import opened KeccakP
  import CompactRounds
  import Fips202
  import InPlace
  import Simples

  /** On every state of 25 lanes of 64 bits, and every input, all three leave the permutation of the standard. */
  method AllThree(a: array<Bits>, b: array<Bits>, c: array<Bits>, input: seq<Bits>, laneCount: nat)
    requires a.Length == 25 && b.Length == 25 && c.Length == 25 && a != b && a != c && b != c
    requires a[..] == b[..] == c[..] && Wide(a[..], 64) && laneCount <= 25 && laneCount <= |input|
    modifies a, b, c
    ensures a[..] == b[..] == c[..] == Permutation(Absorbed(old(a[..]), input[..laneCount]), 64)
    ensures Fips202.Permuted(old(a[..]), input[..laneCount], a[..], 64)
  {
    hide Permutation, Absorbed;
    ghost var s := a[..];
    assert b[..] == s && c[..] == s;
    Simples.KeccakF(a, input, laneCount, 64);
    CompactRounds.KeccakF(b, input, laneCount, 64);
    InPlace.KeccakF(c, input, laneCount);
  }
}
