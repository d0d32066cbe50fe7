/** The sponge construction with pad10*1, as FIPS 202 defines it in sections 4 and 5.1, over Keccak-f[25 w]. */
module Sponge {
  import Arith
  import opened Lanes
  import opened KeccakP

  // ------------------------------------------------------------------ bit strings and states, section 3.1

  lemma LaneBound(w: nat, i: nat)
    requires i < 25
    ensures 0 <= w * i && w * i + w <= 25 * w
  {
    assert w * (25 - i) >= w;
  }

  /** Lane i of a bit string. */
  function LaneOf(s: Bits, w: nat, i: nat): (r: Bits)
    requires |s| == 25 * w && i < 25
    ensures |r| == w
  {
    LaneBound(w, i);
    s[w * i..w * i + w]
  }

  function Split(s: Bits, w: nat): (r: State)
    requires |s| == 25 * w
    ensures |r| == 25 && Wide(r, w)
  {
    seq(25, i requires 0 <= i < 25 => LaneOf(s, w, i))
  }

  /** The bit string of the first n lanes. */
  function JoinFirst(t: seq<Bits>, n: nat): (r: Bits)
    requires n <= |t|
  {
    if n == 0 then [] else JoinFirst(t, n - 1) + t[n - 1]
  }

  lemma {:induction false} JoinLength(t: seq<Bits>, w: nat, n: nat)
    requires n <= |t| && forall i :: 0 <= i < |t| ==> |t[i]| == w
    ensures |JoinFirst(t, n)| == w * n
  {
    if n > 0 { JoinLength(t, w, n - 1); }
  }

  /** The permutation on bit strings. */
  function F(s: Bits, w: nat): (r: Bits)
    requires |s| == 25 * w
    ensures |r| == 25 * w
  {
    PermutedLength(s, w);
    JoinFirst(Permutation(Split(s, w), w), 25)
  }

  lemma PermutedLength(s: Bits, w: nat)
    requires |s| == 25 * w
    ensures |JoinFirst(Permutation(Split(s, w), w), 25)| == 25 * w
  {
    hide RoundsOf, Split, LaneOf;
    var t := Permutation(Split(s, w), w);
    WideRounds(Split(s, w), w, Rounds(w));
    JoinLength(t, w, 25);
  }

  // ------------------------------------------------------------------ absorbing and squeezing, section 4

  /** The state after the whole blocks of `p` are absorbed, one after the other. */
  function Absorb(s: Bits, p: Bits, r: nat, w: nat): (t: Bits)
    requires |s| == 25 * w && 0 < r
    ensures |t| == 25 * w
    decreases |p|
  {
    if |p| < r then s else Absorb(F(Xor(s, p[..r]), w), p[r..], r, w)
  }

  /** The first d bits of output. */
  function Squeeze(s: Bits, r: nat, w: nat, d: nat): (z: Bits)
    requires |s| == 25 * w && 0 < r <= 25 * w
    ensures |z| == d
    decreases d
  {
    if d <= r then s[..d] else s[..r] + Squeeze(F(s, w), r, w, d - r)
  }

  /** The number of zeros between the ones of the padding. */
  function PadZeros(r: nat, m: nat): (n: nat)
    requires 2 <= r
    ensures (m + 2 + n) % r == 0 && n < r
  {
    var k := (m + 2) % r;
    PadArith(r, m + 2);
    if k == 0 then 0 else r - k
  }

  lemma PadArith(r: nat, x: nat)
    requires 0 < r
    ensures x % r != 0 ==> (x + (r - x % r)) % r == 0
  {
    var q := x / r;
    if x % r != 0 {
      assert x + (r - x % r) == r * (q + 1) + 0;
      Arith.ModUnique(x + (r - x % r), r, q + 1, 0);
    }
  }

  /** pad10*1, section 5.1: the message of m bits becomes a whole number of blocks. */
  function Pad(r: nat, m: nat): (p: Bits)
    requires 2 <= r
    ensures (m + |p|) % r == 0
  {
    [true] + Zeros(PadZeros(r, m)) + [true]
  }

  /** SPONGE[f, pad10*1, r](message, d) */
  function SpongeOf(message: Bits, r: nat, w: nat, d: nat): (z: Bits)
    requires 2 <= r <= 25 * w
    ensures |z| == d
  {
    Squeeze(Absorb(Zeros(25 * w), message + Pad(r, |message|), r, w), r, w, d)
  }

  // ------------------------------------------------------------------ facts for the streaming forms

  /** Whole blocks first, the rest after. */
  lemma {:induction false} AbsorbAppend(s: Bits, p: Bits, q: Bits, r: nat, w: nat)
    requires |s| == 25 * w && 0 < r && |p| % r == 0
    ensures Absorb(s, p + q, r, w) == Absorb(Absorb(s, p, r, w), q, r, w)
    decreases |p|
  {
    hide F, Xor;
    if |p| < r {
      NoBlock(|p|, r);
      assert p + q == q;
    } else {
      LessBlock(|p|, r);
      assert (p + q)[..r] == p[..r] && (p + q)[r..] == p[r..] + q;
      AbsorbAppend(F(Xor(s, p[..r]), w), p[r..], q, r, w);
    }
  }

  lemma NoBlock(n: nat, r: nat)
    requires 0 < r && n < r && n % r == 0
    ensures n == 0
  {
    Arith.ModUnique(n, r, 0, n);
  }

  lemma LessBlock(n: nat, r: nat)
    requires 0 < r <= n
    ensures (n - r) % r == n % r
  {
    var q, t := n / r, n % r;
    assert n - r == r * (q - 1) + t;
    Arith.ModUnique(n - r, r, q - 1, t);
  }

  lemma MoreBlock(n: nat, r: nat)
    requires 0 < r
    ensures (n + r) % r == n % r
  {
    LessBlock(n + r, r);
  }

  /** One more block. */
  lemma AbsorbMore(s: Bits, p: Bits, block: Bits, r: nat, w: nat)
    requires |s| == 25 * w && 0 < r && |p| % r == 0 && |block| == r
    ensures Absorb(s, p + block, r, w) == F(Xor(Absorb(s, p, r, w), block), w)
  {
    hide F, Xor;
    AbsorbAppend(s, p, block, r, w);
    assert block[..r] == block;
    assert Absorb(F(Xor(Absorb(s, p, r, w), block), w), block[r..], r, w) == F(Xor(Absorb(s, p, r, w), block), w);
  }

  /** A message that ends one bit short of a block needs a block of padding more; any other needs none. */
  lemma PadLong(m: nat, q: nat, r: nat)
    requires 2 <= r && q <= m && (m - q) % r == 0 && q + 1 == r
    ensures PadZeros(r, m) == r - 1
  {
    var a := (m - q) / r;
    assert m + 2 == r * (a + 1) + 1;
    Arith.ModUnique(m + 2, r, a + 1, 1);
  }

  lemma PadShort(m: nat, q: nat, r: nat)
    requires 2 <= r && q <= m && (m - q) % r == 0 && q + 2 <= r
    ensures PadZeros(r, m) == r - q - 2
  {
    var a := (m - q) / r;
    if q + 2 == r {
      assert m + 2 == r * (a + 1) + 0;
      Arith.ModUnique(m + 2, r, a + 1, 0);
    } else {
      assert m + 2 == r * a + (q + 2);
      Arith.ModUnique(m + 2, r, a, q + 2);
    }
  }

  /** The blocks that end a message whose last q bits are not absorbed yet. */
  lemma TwoBlocks(m: Bits, q: nat, r: nat, w: nat, s: Bits)
    requires 2 <= r && q <= |m| && (|m| - q) % r == 0 && q + 1 == r
    requires s == Absorb(Zeros(25 * w), m[..|m| - q], r, w)
    ensures F(Xor(F(Xor(s, m[|m| - q..] + [true]), w), Zeros(r - 1) + [true]), w)
         == Absorb(Zeros(25 * w), m + Pad(r, |m|), r, w)
  {
    hide F, Xor, Absorb, PadZeros;
    var p, rest := m[..|m| - q], m[|m| - q..];
    AbsorbMore(Zeros(25 * w), p, rest + [true], r, w);
    PadLong(|m|, q, r);
    MoreBlock(|p|, r);
    AbsorbMore(Zeros(25 * w), p + (rest + [true]), Zeros(r - 1) + [true], r, w);
    assert p + rest == m;
    assert p + (rest + [true]) + (Zeros(r - 1) + [true]) == m + Pad(r, |m|);
  }

  lemma OneBlock(m: Bits, q: nat, r: nat, w: nat, s: Bits)
    requires 2 <= r && q <= |m| && (|m| - q) % r == 0 && q + 1 < r
    requires s == Absorb(Zeros(25 * w), m[..|m| - q], r, w)
    ensures var block := m[|m| - q..] + [true] + Zeros(r - q - 2) + [true];
      F(Xor(s, block), w) == Absorb(Zeros(25 * w), m + Pad(r, |m|), r, w)
  {
    hide F, Xor, Absorb, PadZeros;
    var p, rest := m[..|m| - q], m[|m| - q..];
    var block := rest + [true] + Zeros(r - q - 2) + [true];
    PadShort(|m|, q, r);
    AbsorbMore(Zeros(25 * w), p, block, r, w);
    assert p + rest == m;
    assert p + block == m + Pad(r, |m|);
  }

  /** The state after k permutations. */
  function Times(s: Bits, w: nat, k: nat): (t: Bits)
    requires |s| == 25 * w
    ensures |t| == 25 * w
  {
    if k == 0 then s else F(Times(s, w, k - 1), w)
  }

  lemma {:induction false} TimesFirst(s: Bits, w: nat, k: nat)
    requires |s| == 25 * w
    ensures Times(F(s, w), w, k) == Times(s, w, k + 1) && Times(s, w, 0) == s
  {
    hide F;
    if k > 0 { TimesFirst(s, w, k - 1); }
  }

  /** Bit r k + i of the output is bit i of the state after k permutations. */
  lemma {:induction false} SqueezeAt(s: Bits, r: nat, w: nat, d: nat, k: nat, i: nat)
    requires |s| == 25 * w && 0 < r <= 25 * w && i < r && r * k + i < d
    ensures Squeeze(s, r, w, d)[r * k + i] == Times(s, w, k)[i]
    decreases k
  {
    hide F, Times, Squeeze;
    BlockStart(r, k);
    if k > 0 {
      SqueezeNext(s, r, w, d, r * k + i);
      SqueezeAt(F(s, w), r, w, d - r, k - 1, i);
      TimesFirst(s, w, k - 1);
    } else {
      SqueezeFirst(s, r, w, d, i);
      TimesFirst(s, w, 0);
    }
  }

  lemma SqueezeNext(s: Bits, r: nat, w: nat, d: nat, j: nat)
    requires |s| == 25 * w && 0 < r <= 25 * w && r <= j < d
    ensures Squeeze(s, r, w, d)[j] == Squeeze(F(s, w), r, w, d - r)[j - r]
  {
    hide F;
  }

  lemma SqueezeFirst(s: Bits, r: nat, w: nat, d: nat, j: nat)
    requires |s| == 25 * w && 0 < r <= 25 * w && j < r && j < d
    ensures Squeeze(s, r, w, d)[j] == s[j]
  {
    hide F;
  }

  lemma BlockStart(r: nat, k: nat)
    ensures k == 0 ==> r * k == 0
    ensures k > 0 ==> r * k == r * (k - 1) + r && 0 <= r * (k - 1)
  {
  }

  /** A shorter output is the beginning of a longer one. */
  lemma {:induction false} SqueezePrefix(s: Bits, r: nat, w: nat, d: nat, e: nat)
    requires |s| == 25 * w && 0 < r <= 25 * w && d <= e
    ensures Squeeze(s, r, w, d) == Squeeze(s, r, w, e)[..d]
    decreases d
  {
    hide F;
    if d > r {
      SqueezePrefix(F(s, w), r, w, d - r, e - r);
    } else if e > r {
      assert Squeeze(s, r, w, e)[..d] == s[..r][..d];
    }
  }
}
