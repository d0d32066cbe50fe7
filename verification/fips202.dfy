/** FIPS 202 on single bits: the step mappings of sections 3.2.1 to 3.2.5 and the rounds of section 3.3, in nothing
  but Boolean operators and coordinates; the permutation on lanes computes them, bit by bit. */
module Fips202 {
  import Arith
  import Constants
  import opened KeccakP
  import opened Lanes
  import Sponge

  /** A state array: A[x][y][z], for x and y below 5 and z below the width of the lanes. */
  type Cube = seq<seq<seq<bool>>>

  ghost predicate Ok(a: Cube, w: nat) {
    && |a| == 5 && (forall x: nat :: x < 5 ==> |a[x]| == 5)
    && forall x: nat, y: nat {:trigger a[x][y]} :: x < 5 && y < 5 ==> |a[x][y]| == w
  }

  // ------------------------------------------------------------------ the step mappings, section 3.2

  /** C[x, z]: the parity of a column. */
  ghost function Column(a: Cube, w: nat, x: nat, z: nat): bool
    requires Ok(a, w) && x < 5 && z < w
  {
    a[x][0][z] != (a[x][1][z] != (a[x][2][z] != (a[x][3][z] != a[x][4][z])))
  }

  /** Section 3.2.1: every bit is combined with the parities of two columns. */
  ghost predicate ThetaBit(a: Cube, w: nat, x: nat, y: nat, z: nat)
    requires Ok(a, w) && x < 5 && y < 5 && z < w
  {
    a[x][y][z] != (Column(a, w, (x + 4) % 5, z) != Column(a, w, (x + 1) % 5, if z == 0 then w - 1 else z - 1))
  }

  ghost function Theta(a: Cube, w: nat): (b: Cube)
    requires Ok(a, w)
    ensures Ok(b, w)
  {
    seq(5, x requires 0 <= x < 5 => seq(5, y requires 0 <= y < 5 => seq(w, z requires 0 <= z < w =>
      ThetaBit(a, w, x, y, z))))
  }

  /** Section 3.2.2: the bits of a lane move up by its offset, modulo the width. */
  ghost predicate RhoBit(a: Cube, w: nat, x: nat, y: nat, z: nat)
    requires Ok(a, w) && x < 5 && y < 5 && z < w
  {
    a[x][y][(z - Offset(5 * y + x)) % w]
  }

  ghost function Rho(a: Cube, w: nat): (b: Cube)
    requires Ok(a, w)
    ensures Ok(b, w)
  {
    seq(5, x requires 0 <= x < 5 => seq(5, y requires 0 <= y < 5 => seq(w, z requires 0 <= z < w =>
      RhoBit(a, w, x, y, z))))
  }

  /** Section 3.2.3: the lanes change places. */
  ghost predicate PiBit(a: Cube, w: nat, x: nat, y: nat, z: nat)
    requires Ok(a, w) && x < 5 && y < 5 && z < w
  {
    a[(x + 3 * y) % 5][x][z]
  }

  ghost function Pi(a: Cube, w: nat): (b: Cube)
    requires Ok(a, w)
    ensures Ok(b, w)
  {
    seq(5, x requires 0 <= x < 5 => seq(5, y requires 0 <= y < 5 => seq(w, z requires 0 <= z < w =>
      PiBit(a, w, x, y, z))))
  }

  /** Section 3.2.4: a bit flips when the next one in its row is 0 and the one after that is 1. */
  ghost predicate ChiBit(a: Cube, w: nat, x: nat, y: nat, z: nat)
    requires Ok(a, w) && x < 5 && y < 5 && z < w
  {
    a[x][y][z] != (!a[(x + 1) % 5][y][z] && a[(x + 2) % 5][y][z])
  }

  ghost function Chi(a: Cube, w: nat): (b: Cube)
    requires Ok(a, w)
    ensures Ok(b, w)
  {
    seq(5, x requires 0 <= x < 5 => seq(5, y requires 0 <= y < 5 => seq(w, z requires 0 <= z < w =>
      ChiBit(a, w, x, y, z))))
  }

  /** 2^j */
  function Power(j: nat): (p: nat)
    ensures p > 0
  {
    if j == 0 then 1 else 2 * Power(j - 1)
  }

  /** RC[z], in lanes of 2^l bits: bit 2^j - 1 is rc(j + 7 ir), the others are 0. */
  ghost predicate RoundBit(ir: nat, l: nat, z: nat) {
    exists j: nat :: j <= l && z == Power(j) - 1 && Constants.RcBit(7 * ir + j) == 1
  }

  /** Section 3.2.5: the first lane is combined with the round constant. */
  ghost predicate IotaBit(a: Cube, l: nat, ir: nat, x: nat, y: nat, z: nat)
    requires Ok(a, Power(l)) && x < 5 && y < 5 && z < Power(l)
  {
    a[x][y][z] != (x == 0 && y == 0 && RoundBit(ir, l, z))
  }

  ghost function Iota(a: Cube, l: nat, ir: nat): (b: Cube)
    requires Ok(a, Power(l))
    ensures Ok(b, Power(l))
  {
    seq(5, x requires 0 <= x < 5 => seq(5, y requires 0 <= y < 5 => seq(Power(l), z requires 0 <= z < Power(l) =>
      IotaBit(a, l, ir, x, y, z))))
  }

  // ------------------------------------------------------------------ the rounds, section 3.3

  ghost function Rnd(a: Cube, l: nat, ir: nat): (b: Cube)
    requires Ok(a, Power(l))
    ensures Ok(b, Power(l))
  {
    var w := Power(l);
    Iota(Chi(Pi(Rho(Theta(a, w), w), w), w), l, ir)
  }

  ghost function FirstRounds(a: Cube, l: nat, n: nat): (b: Cube)
    requires Ok(a, Power(l))
    ensures Ok(b, Power(l))
  {
    if n == 0 then a else Rnd(FirstRounds(a, l, n - 1), l, n - 1)
  }

  /** Keccak-f on 25 lanes of 2^l bits: 12 + 2 l rounds. */
  ghost function KeccakF(a: Cube, l: nat): (b: Cube)
    requires Ok(a, Power(l))
    ensures Ok(b, Power(l))
  {
    FirstRounds(a, l, 12 + 2 * l)
  }

  // ------------------------------------------------------------------ lanes show a state array

  /** The number of the lane (x, y). */
  function Lane(x: nat, y: nat): (i: nat)
    requires x < 5 && y < 5
    ensures i < 25
  {
    5 * y + x
  }

  /** Bit z of lane 5 y + x is A[x, y, z]. */
  ghost predicate Shows(s: State, a: Cube, w: nat) {
    && Wide(s, w) && Ok(a, w)
    && forall x: nat, y: nat {:trigger a[x][y]} :: x < 5 && y < 5 ==> s[Lane(x, y)] == a[x][y]
  }

  lemma Shape(s: State, a: Cube, w: nat)
    requires Shows(s, a, w)
    ensures Wide(s, w) && Ok(a, w)
  {
  }

  lemma LaneIs(x: nat, y: nat)
    requires x < 5 && y < 5
    ensures Lane(x, y) % 5 == x && Lane(x, y) / 5 == y
  {
  }

  /** Lanes that agree with the array in every bit. */
  lemma ShowsBits(s: State, a: Cube, w: nat)
    requires Wide(s, w) && Ok(a, w)
    requires forall x: nat, y: nat, z: nat {:trigger a[x][y][z]} ::
               x < 5 && y < 5 && z < w ==> s[Lane(x, y)][z] == a[x][y][z]
    ensures Shows(s, a, w)
  {
    hide Lane;
    forall x: nat, y: nat | x < 5 && y < 5 ensures s[Lane(x, y)] == a[x][y] {
      forall z: nat | z < w ensures s[Lane(x, y)][z] == a[x][y][z] {
      }
    }
  }

  lemma ParityShows(s: State, a: Cube, w: nat, x: nat)
    requires Shows(s, a, w) && x < 5
    ensures |Parity(s, x)| == w && forall z: nat :: z < w ==> Parity(s, x)[z] == Column(a, w, x, z)
  {
    assert s[Lane(x, 0)] == a[x][0] && s[Lane(x, 1)] == a[x][1] && s[Lane(x, 2)] == a[x][2] && s[Lane(x, 3)] == a[x][3]
      && s[Lane(x, 4)] == a[x][4];
  }

  lemma OneDown(z: nat, w: nat)
    requires z < w
    ensures (z - 1) % w == if z == 0 then w - 1 else z - 1
  {
    Arith.ModUnique(z - 1, w, if z == 0 then -1 else 0, if z == 0 then w - 1 else z - 1);
  }

  lemma MaskShows(s: State, a: Cube, w: nat, x: nat, z: nat)
    requires Shows(s, a, w) && x < 5 && z < w
    ensures |Mask(s, x)| == w
    ensures var down := if z == 0 then w - 1 else z - 1;
      Mask(s, x)[z] == (Column(a, w, (x + 4) % 5, z) != Column(a, w, (x + 1) % 5, down))
  {
    hide Parity, Column, Shows;
    ParityShows(s, a, w, (x + 4) % 5);
    ParityShows(s, a, w, (x + 1) % 5);
    OneDown(z, w);
  }

  lemma ThetaShows(s: State, a: Cube, w: nat)
    requires Shows(s, a, w)
    ensures Shows(KeccakP.Theta(s), Theta(a, w), w)
  {
    hide Mask, Column, Lane;
    forall x: nat, y: nat, z: nat | x < 5 && y < 5 && z < w
      ensures KeccakP.Theta(s)[Lane(x, y)][z] == Theta(a, w)[x][y][z] {
      LaneIs(x, y);
      MaskShows(s, a, w, x, z);
      assert s[Lane(x, y)] == a[x][y];
    }
    ShowsBits(KeccakP.Theta(s), Theta(a, w), w);
  }

  lemma RhoShows(s: State, a: Cube, w: nat)
    requires Shows(s, a, w)
    ensures Shows(KeccakP.Rho(s), Rho(a, w), w)
  {
    hide Offset;
    forall x: nat, y: nat, z: nat | x < 5 && y < 5 && z < w
      ensures KeccakP.Rho(s)[Lane(x, y)][z] == Rho(a, w)[x][y][z] {
      assert s[Lane(x, y)] == a[x][y];
    }
    ShowsBits(KeccakP.Rho(s), Rho(a, w), w);
  }

  lemma SourceIs(x: nat, y: nat)
    requires x < 5 && y < 5
    ensures Source(Lane(x, y)) == Lane((x + 3 * y) % 5, x)
  {
    LaneIs(x, y);
  }

  lemma PiShows(s: State, a: Cube, w: nat)
    requires Shows(s, a, w)
    ensures Shows(KeccakP.Pi(s), Pi(a, w), w)
  {
    hide Source, Lane;
    forall x: nat, y: nat, z: nat | x < 5 && y < 5 && z < w
      ensures KeccakP.Pi(s)[Lane(x, y)][z] == Pi(a, w)[x][y][z] {
      SourceIs(x, y);
      assert s[Lane((x + 3 * y) % 5, x)] == a[(x + 3 * y) % 5][x];
    }
    ShowsBits(KeccakP.Pi(s), Pi(a, w), w);
  }

  lemma RightIs(x: nat, y: nat)
    requires x < 5 && y < 5
    ensures Right(Lane(x, y)) == Lane((x + 1) % 5, y) && Right(Lane((x + 1) % 5, y)) == Lane((x + 2) % 5, y)
  {
    assert x == 0 || x == 1 || x == 2 || x == 3 || x == 4;
    assert y == 0 || y == 1 || y == 2 || y == 3 || y == 4;
  }

  lemma ChiShows(s: State, a: Cube, w: nat)
    requires Shows(s, a, w)
    ensures Shows(KeccakP.Chi(s), Chi(a, w), w)
  {
    hide Right, Lane;
    forall x: nat, y: nat, z: nat | x < 5 && y < 5 && z < w
      ensures KeccakP.Chi(s)[Lane(x, y)][z] == Chi(a, w)[x][y][z] {
      RightIs(x, y);
      assert s[Lane(x, y)] == a[x][y] && s[Lane((x + 1) % 5, y)] == a[(x + 1) % 5][y]
        && s[Lane((x + 2) % 5, y)] == a[(x + 2) % 5][y];
    }
    ShowsBits(KeccakP.Chi(s), Chi(a, w), w);
  }

  lemma Powers()
    ensures Power(0) == 1 && Power(1) == 2 && Power(2) == 4 && Power(3) == 8
    ensures Power(4) == 16 && Power(5) == 32 && Power(6) == 64
  {
    assert Power(3) == 8;
  }

  /** The round constant has its bits where the standard says. */
  lemma ConstantShows(ir: nat, l: nat, z: nat)
    requires 3 <= l <= 6 && z < Power(l)
    ensures RC(ir, Power(l))[z] == RoundBit(ir, l, z)
  {
    hide Constants.RcBit, Power;
    Powers();
    if RoundBit(ir, l, z) {
      var j: nat :| j <= l && z == Power(j) - 1 && Constants.RcBit(7 * ir + j) == 1;
      assert j == 0 || j == 1 || j == 2 || j == 3 || j == 4 || j == 5 || j == 6;
    }
    ConstantBit(ir, l, z, 0);
    ConstantBit(ir, l, z, 1);
    ConstantBit(ir, l, z, 2);
    ConstantBit(ir, l, z, 3);
    ConstantBit(ir, l, z, 4);
    ConstantBit(ir, l, z, 5);
    ConstantBit(ir, l, z, 6);
  }

  lemma ConstantBit(ir: nat, l: nat, z: nat, j: nat)
    ensures j <= l && z == Power(j) - 1 && Constants.RcBit(7 * ir + j) == 1 ==> RoundBit(ir, l, z)
  {
  }

  lemma IotaShows(s: State, a: Cube, l: nat, ir: nat)
    requires 3 <= l <= 6 && Shows(s, a, Power(l))
    ensures Shows(KeccakP.Iota(s, RC(ir, Power(l))), Iota(a, l, ir), Power(l))
  {
    hide Power, RoundBit, RC;
    var w := Power(l);
    forall x: nat, y: nat, z: nat | x < 5 && y < 5 && z < w
      ensures KeccakP.Iota(s, RC(ir, w))[Lane(x, y)][z] == Iota(a, l, ir)[x][y][z] {
      ConstantShows(ir, l, z);
      assert s[Lane(x, y)] == a[x][y];
    }
    ShowsBits(KeccakP.Iota(s, RC(ir, w)), Iota(a, l, ir), w);
  }

  lemma RoundShows(s: State, a: Cube, l: nat, ir: nat)
    requires 3 <= l <= 6 && Shows(s, a, Power(l))
    ensures Shows(Round(s, RC(ir, Power(l))), Rnd(a, l, ir), Power(l))
  {
    hide Shows, Ok, KeccakP.Theta, KeccakP.Rho, KeccakP.Pi, KeccakP.Chi, KeccakP.Iota, Theta, Rho, Pi, Chi, Iota, RC;
    var w := Power(l);
    Shape(s, a, w);
    ThetaShows(s, a, w);
    RhoShows(KeccakP.Theta(s), Theta(a, w), w);
    PiShows(KeccakP.Rho(KeccakP.Theta(s)), Rho(Theta(a, w), w), w);
    ChiShows(KeccakP.Pi(KeccakP.Rho(KeccakP.Theta(s))), Pi(Rho(Theta(a, w), w), w), w);
    IotaShows(KeccakP.Chi(KeccakP.Pi(KeccakP.Rho(KeccakP.Theta(s)))), Chi(Pi(Rho(Theta(a, w), w), w), w), l, ir);
  }

  lemma {:induction false} RoundsShow(s: State, a: Cube, l: nat, n: nat)
    requires 3 <= l <= 6 && n <= 24 && Shows(s, a, Power(l))
    ensures Shows(RoundsOf(s, Power(l), n), FirstRounds(a, l, n), Power(l))
  {
    hide Shows, Ok, Round, RC, Rnd, Power;
    Shape(s, a, Power(l));
    if n > 0 {
      RoundsShow(s, a, l, n - 1);
      RoundShows(RoundsOf(s, Power(l), n - 1), FirstRounds(a, l, n - 1), l, n - 1);
    }
  }

  /** The permutation on lanes is that of the standard, bit by bit, for every lane width. */
  lemma PermutationShows(s: State, a: Cube, l: nat)
    requires 3 <= l <= 6 && Shows(s, a, Power(l))
    ensures Shows(Permutation(s, Power(l)), KeccakF(a, l), Power(l))
  {
    hide Shows, Ok, FirstRounds, RoundsOf, Power;
    Shape(s, a, Power(l));
    Powers();
    RoundsShow(s, a, l, 12 + 2 * l);
    assert l == 3 || l == 4 || l == 5 || l == 6;
  }

  // ------------------------------------------------------------------ what KeccakF has to compute

  /** Lanes of w bits have 2 to the Log(w) bits. */
  function Log(w: nat): (l: nat)
    requires LaneWidth(w)
    ensures 3 <= l <= 6 && Power(l) == w
  {
    Powers();
    if w == 8 then 3 else if w == 16 then 4 else if w == 32 then 5 else 6
  }

  /** The bits of a state with those of a block combined into its first lanes. */
  ghost predicate StartBit(s: State, block: seq<Bits>, w: nat, x: nat, y: nat, z: nat)
    requires Wide(s, w) && x < 5 && y < 5 && z < w
  {
    var i := Lane(x, y);
    s[i][z] != (i < |block| && z < |block[i]| && block[i][z])
  }

  ghost function Start(s: State, block: seq<Bits>, w: nat): (a: Cube)
    requires Wide(s, w)
    ensures Ok(a, w)
  {
    seq(5, x requires 0 <= x < 5 => seq(5, y requires 0 <= y < 5 => seq(w, z requires 0 <= z < w =>
      StartBit(s, block, w, x, y, z))))
  }

  /** `t` is what the standard makes of `s` once the block is combined with it. */
  ghost predicate Permuted(s: State, block: seq<Bits>, t: State, w: nat) {
    LaneWidth(w) && Wide(s, w) && Shows(t, KeccakF(Start(s, block, w), Log(w)), w)
  }

  lemma StartShows(s: State, block: seq<Bits>, w: nat)
    requires Wide(s, w)
    ensures Shows(Absorbed(s, block), Start(s, block, w), w)
  {
    hide Lane;
    ShowsBits(Absorbed(s, block), Start(s, block, w), w);
  }

  /** For every lane width, state and input. */
  lemma IsPermuted(s: State, block: seq<Bits>, w: nat)
    requires LaneWidth(w) && Wide(s, w)
    ensures Permuted(s, block, Permutation(Absorbed(s, block), w), w)
  {
    hide Permutation, Absorbed, Start, KeccakF, Power, Log, LaneWidth, Shows;
    StartShows(s, block, w);
    PermutationShows(Absorbed(s, block), Start(s, block, w), Log(w));
  }

  // ------------------------------------------------------------------ bit strings, sections 3.1.2 and 3.1.3

  lemma BitBound(w: nat, i: nat, z: nat)
    requires i < 25 && z < w
    ensures 0 <= w * i + z < 25 * w
  {
    Sponge.LaneBound(w, i);
  }

  /** A[x, y, z] = S[w(5y + x) + z] */
  ghost predicate StringBit(s: Bits, w: nat, x: nat, y: nat, z: nat)
    requires |s| == 25 * w && x < 5 && y < 5 && z < w
  {
    BitBound(w, Lane(x, y), z);
    s[w * Lane(x, y) + z]
  }

  ghost function OfString(s: Bits, w: nat): (a: Cube)
    requires |s| == 25 * w
    ensures Ok(a, w)
  {
    seq(5, x requires 0 <= x < 5 => seq(5, y requires 0 <= y < 5 => seq(w, z requires 0 <= z < w =>
      StringBit(s, w, x, y, z))))
  }

  lemma StringShows(s: Bits, w: nat)
    requires |s| == 25 * w
    ensures Shows(Sponge.Split(s, w), OfString(s, w), w)
  {
    hide Lane;
    forall x: nat, y: nat, z: nat | x < 5 && y < 5 && z < w
      ensures Sponge.Split(s, w)[Lane(x, y)][z] == OfString(s, w)[x][y][z] {
      Sponge.LaneBound(w, Lane(x, y));
      assert Sponge.LaneOf(s, w, Lane(x, y))[z] == s[w * Lane(x, y) + z];
    }
    ShowsBits(Sponge.Split(s, w), OfString(s, w), w);
  }

  lemma {:induction false} JoinAt(t: seq<Bits>, w: nat, n: nat, i: nat, z: nat)
    requires n <= |t| && i < n && z < w && forall k :: 0 <= k < |t| ==> |t[k]| == w
    ensures 0 <= w * i + z < |Sponge.JoinFirst(t, n)| && Sponge.JoinFirst(t, n)[w * i + z] == t[i][z]
  {
    Sponge.JoinLength(t, w, n - 1);
    if i < n - 1 { JoinAt(t, w, n - 1, i, z); }
  }

  lemma JoinShows(t: State, a: Cube, w: nat)
    requires Shows(t, a, w)
    ensures |Sponge.JoinFirst(t, 25)| == 25 * w && OfString(Sponge.JoinFirst(t, 25), w) == a
  {
    hide Lane, Sponge.JoinFirst;
    Sponge.JoinLength(t, w, 25);
    var b := OfString(Sponge.JoinFirst(t, 25), w);
    forall x: nat, y: nat, z: nat | x < 5 && y < 5 && z < w ensures b[x][y][z] == a[x][y][z] {
      JoinAt(t, w, 25, Lane(x, y), z);
      assert t[Lane(x, y)] == a[x][y];
    }
    SameCube(b, a, w);
  }

  /** The permutation that the sponge is built on is Keccak-f on strings, bit by bit. */
  lemma StringPermuted(s: Bits, w: nat)
    requires LaneWidth(w) && |s| == 25 * w
    ensures OfString(Sponge.F(s, w), w) == KeccakF(OfString(s, w), Log(w))
  {
    hide Permutation, Shows, KeccakF, OfString, Log, Power, Sponge.JoinFirst, Sponge.Split, Ok;
    StringShows(s, w);
    PermutationShows(Sponge.Split(s, w), OfString(s, w), Log(w));
    JoinShows(Permutation(Sponge.Split(s, w), w), KeccakF(OfString(s, w), Log(w)), w);
  }

  lemma SameCube(a: Cube, b: Cube, w: nat)
    requires Ok(a, w) && Ok(b, w)
    requires forall x: nat, y: nat, z: nat {:trigger a[x][y][z]} :: x < 5 && y < 5 && z < w ==> a[x][y][z] == b[x][y][z]
    ensures a == b
  {
    forall x: nat | x < 5 ensures a[x] == b[x] {
      forall y: nat | y < 5 ensures a[x][y] == b[x][y] {
        forall z: nat | z < w ensures a[x][y][z] == b[x][y][z] {
        }
      }
    }
  }
}
