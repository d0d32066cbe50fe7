/** The state as bytes and as lanes: what the casts between the two mean on a little-endian machine. */
module Casts {
  import opened KeccakP
  import opened Lanes
  import opened Sponge
  import CompactRounds
  import InPlace
  import Simples

  /** Lane i of a block. */
  function Word(b: Bits, w: nat, i: nat): (r: Bits)
    requires w * i + w <= |b|
    ensures |r| == w
  {
    b[w * i..w * i + w]
  }

  /** A buffer cast to lanes. */
  function Words(b: Bits, w: nat, n: nat): (r: seq<Bits>)
    requires w * n <= |b|
    ensures |r| == n
  {
    seq(n, i requires 0 <= i < n => WordBound(w, i, n); Word(b, w, i))
  }

  lemma WordBound(w: nat, i: nat, n: nat)
    requires i < n
    ensures 0 <= w * i && w * i + w <= w * n
  {
    var k := n - i - 1;
    assert w * n == w * i + w + w * k by { Distribute(w, i, k); }
  }

  lemma Distribute(w: nat, i: nat, k: nat)
    ensures w * (i + 1 + k) == w * i + w + w * k && 0 <= w * k && 0 <= w * i
  {
  }

  lemma BeyondWords(w: nat, i: nat, n: nat)
    requires n <= i
    ensures w * n <= w * i
  {
  }

  /** XORing lane by lane is XORing bit by bit. */
  lemma XorLanewise(s: Bits, b: Bits, w: nat, n: nat)
    requires |s| == 25 * w && n <= 25 && w * n <= |b|
    ensures Absorbed(Split(s, w), Words(b, w, n)) == Split(Xor(s, b[..w * n]), w)
  {
    var t, u := Absorbed(Split(s, w), Words(b, w, n)), Split(Xor(s, b[..w * n]), w);
    forall i: nat | i < 25 ensures t[i] == u[i] {
      XorLane(s, b, w, n, i);
    }
  }

  lemma XorLane(s: Bits, b: Bits, w: nat, n: nat, i: nat)
    requires |s| == 25 * w && n <= 25 && w * n <= |b| && i < 25
    ensures Absorbed(Split(s, w), Words(b, w, n))[i] == LaneOf(Xor(s, b[..w * n]), w, i)
  {
    LaneBound(w, i);
    if i < n {
      WordBound(w, i, n);
      XorSlice(s, b[..w * n], w * i, w * i + w);
      assert b[..w * n][w * i..w * i + w] == Word(b, w, i);
    } else {
      BeyondWords(w, i, n);
      XorBeyond(s, b[..w * n], w * i, w * i + w);
    }
  }

  lemma XorSlice(s: Bits, b: Bits, i: nat, j: nat)
    requires i <= j <= |s| && j <= |b|
    ensures Xor(s, b)[i..j] == Xor(s[i..j], b[i..j])
  {
  }

  lemma XorBeyond(s: Bits, b: Bits, i: nat, j: nat)
    requires |b| <= i <= j <= |s|
    ensures Xor(s, b)[i..j] == s[i..j]
  {
  }

  /** The three files that implement KeccakF. */
  datatype Variant = Compact | Simple | InPlaced

  /** KeccakF on the bytes of a state and of an input. */
  method KeccakF(v: Variant, s: Bits, b: Bits, laneCount: nat, w: nat) returns (t: Bits)
    requires LaneWidth(w) && |s| == 25 * w && laneCount <= 25 && w * laneCount <= |b| && (v.InPlaced? ==> w == 64)
    ensures t == F(Xor(s, b[..w * laneCount]), w)
  {
    hide Split, Words, Permutation, Absorbed, Xor, LaneWidth;
    var state := new Bits[25](i requires 0 <= i < 25 => LaneOf(s, w, i));
    assert state[..] == Split(s, w) by { Lanewise(state[..], s, w); }
    var words := Words(b, w, laneCount);
    assert words[..laneCount] == words;
    XorLanewise(s, b, w, laneCount);
    if v.Compact? {
      CompactRounds.KeccakF(state, words, laneCount, w);
    } else if v.Simple? {
      Simples.KeccakF(state, words, laneCount, w);
    } else {
      InPlace.KeccakF(state, words, laneCount);
    }
    t := JoinFirst(state[..], 25);
  }

  lemma Lanewise(t: seq<Bits>, s: Bits, w: nat)
    requires |s| == 25 * w && |t| == 25 && forall i: nat :: i < 25 ==> t[i] == LaneOf(s, w, i)
    ensures t == Split(s, w)
  {
  }
}
