/** The Keccak permutations as FIPS 202 defines them, sections 3.2 and 3.3, for every lane width. */
module KeccakP {
  import Constants
  import opened Lanes

  /** Lane (x, y) of a state is its lane number 5 * y + x; all lanes have the same width. */
  type State = seq<Bits>

  predicate Wide(s: State, w: nat) {
    |s| == 25 && forall i :: 0 <= i < 25 ==> |s[i]| == w
  }

  function At(s: State, x: nat, y: nat): Bits
    requires |s| == 25 && x < 5 && y < 5
  {
    s[5 * y + x]
  }

  // ------------------------------------------------------------------ theta, section 3.2.1

  /** C[x]: the parity of a column. */
  function Parity(s: State, x: nat): Bits
    requires |s| == 25 && x < 5
  {
    Xor(Xor(Xor(Xor(At(s, x, 0), At(s, x, 1)), At(s, x, 2)), At(s, x, 3)), At(s, x, 4))
  }

  /** D[x] */
  function Mask(s: State, x: nat): Bits
    requires |s| == 25 && x < 5
  {
    Xor(Parity(s, (x + 4) % 5), Rol(Parity(s, (x + 1) % 5), 1))
  }

  function Theta(s: State): (r: State)
    requires |s| == 25
    ensures |r| == 25
  {
    seq(25, i requires 0 <= i < 25 => Xor(s[i], Mask(s, i % 5)))
  }

  // ------------------------------------------------------------------ rho, section 3.2.2

  /** The offsets, table 2, lane by lane. */
  function Offset(i: nat): nat {
    match i
    case 0 => 0 case 1 => 1 case 2 => 190 case 3 => 28 case 4 => 91
    case 5 => 36 case 6 => 300 case 7 => 6 case 8 => 55 case 9 => 276
    case 10 => 3 case 11 => 10 case 12 => 171 case 13 => 153 case 14 => 231
    case 15 => 105 case 16 => 45 case 17 => 15 case 18 => 21 case 19 => 136
    case 20 => 210 case 21 => 66 case 22 => 253 case 23 => 120 case 24 => 78
    case _ => 0
  }

  function Rho(s: State): (r: State)
    requires |s| == 25
    ensures |r| == 25
  {
    seq(25, i requires 0 <= i < 25 => Rol(s[i], Offset(i)))
  }

  // ------------------------------------------------------------------ pi, chi, iota, sections 3.2.3 to 3.2.5

  /** The lane that pi moves to lane i: A'[x, y] = A[x + 3y, x]. */
  function Source(i: nat): (j: nat)
    requires i < 25
    ensures j < 25
  {
    var x, y := i % 5, i / 5;
    5 * x + (x + 3 * y) % 5
  }

  function Pi(s: State): (r: State)
    requires |s| == 25
    ensures |r| == 25
  {
    seq(25, i requires 0 <= i < 25 => s[Source(i)])
  }

  /** The lane of the next column in the row of lane i: (x + 1 mod 5, y). */
  function Right(i: nat): (j: nat)
    requires i < 25
    ensures j < 25
  {
    if i == 4 || i == 9 || i == 14 || i == 19 || i == 24 then i - 4 else i + 1
  }

  function Chi(s: State): (r: State)
    requires |s| == 25
    ensures |r| == 25
  {
    seq(25, i requires 0 <= i < 25 => Xor(s[i], AndNot(s[Right(i)], s[Right(Right(i))])))
  }

  function Iota(s: State, rc: Bits): (r: State)
    requires |s| == 25
    ensures |r| == 25
  {
    s[0 := Xor(s[0], rc)]
  }

  function Round(s: State, rc: Bits): (r: State)
    requires |s| == 25
    ensures |r| == 25
  {
    Iota(Chi(Pi(Rho(Theta(s)))), rc)
  }
  // ------------------------------------------------------------------ the permutation, section 3.3

  /** The constant of round ir, section 3.2.5. */
  function RC(ir: nat, w: nat): (r: Bits)
    ensures |r| == w
  {
    Constants.RC(ir, w)
  }

  predicate LaneWidth(w: nat) {
    w == 8 || w == 16 || w == 32 || w == 64
  }

  /** nr = 12 + 2 l, where w is 2 to the l. */
  function Rounds(w: nat): nat {
    if w == 8 then 18 else if w == 16 then 20 else if w == 32 then 22 else 24
  }

  /** The first n rounds. */
  function RoundsOf(s: State, w: nat, n: nat): (r: State)
    requires |s| == 25 && n <= 24
    ensures |r| == 25
  {
    if n == 0 then s else Round(RoundsOf(s, w, n - 1), RC(n - 1, w))
  }

  /** Keccak-f[25 w]. */
  function Permutation(s: State, w: nat): (r: State)
    requires |s| == 25
    ensures |r| == 25
  {
    RoundsOf(s, w, Rounds(w))
  }

  /** The first lanes of the state with the lanes of a block XORed in. */
  function Absorbed(s: State, block: seq<Bits>): (r: State)
    requires |s| == 25
    ensures |r| == 25
  {
    seq(25, i requires 0 <= i < 25 => if i < |block| then Xor(s[i], block[i]) else s[i])
  }

  // ------------------------------------------------------------------ one round, lane by lane

  /** Lane i as chi sees it: the lane pi brings there, after theta and rho. */
  function Moved(s: State, i: nat): Bits
    requires |s| == 25 && i < 25
  {
    var j := Source(i);
    Rol(Xor(s[j], Mask(s, j % 5)), Offset(j))
  }

  lemma MovedAt(s: State, i: nat)
    requires |s| == 25 && i < 25
    ensures Pi(Rho(Theta(s)))[i] == Moved(s, i)
  {
    var j := Source(i);
    assert Theta(s)[j] == Xor(s[j], Mask(s, j % 5));
    assert Rho(Theta(s))[j] == Rol(Theta(s)[j], Offset(j));
  }

  lemma RoundAt(s: State, rc: Bits, i: nat)
    requires |s| == 25 && i < 25
    ensures Round(s, rc)[i] == RowLane(s, i) || i == 0
    ensures i == 0 ==> Round(s, rc)[0] == Xor(RowLane(s, 0), rc)
  {
    var t := Pi(Rho(Theta(s)));
    assert Chi(t)[i] == Xor(t[i], AndNot(t[Right(i)], t[Right(Right(i))]));
    MovedAt(s, i);
    MovedAt(s, Right(i));
    MovedAt(s, Right(Right(i)));
  }

  /** Lane i after chi. */
  function RowLane(s: State, i: nat): Bits
    requires |s| == 25 && i < 25
  {
    Xor(Moved(s, i), AndNot(Moved(s, Right(i)), Moved(s, Right(Right(i)))))
  }

  lemma WideRound(s: State, rc: Bits, w: nat)
    requires Wide(s, w)
    ensures Wide(Round(s, rc), w)
  {
    var t := Round(s, rc);
    forall i: nat | i < 25 ensures |t[i]| == w {
      RoundAt(s, rc, i);
    }
  }

  lemma {:induction false} WideRounds(s: State, w: nat, n: nat)
    requires Wide(s, w) && n <= 24
    ensures Wide(RoundsOf(s, w, n), w)
  {
    hide Round, RC;
    if n > 0 {
      WideRounds(s, w, n - 1);
      WideRound(RoundsOf(s, w, n - 1), RC(n - 1, w), w);
    }
  }

  // ------------------------------------------------------------------ the walk of rho

  /** The lane visited at step t of the walk of algorithm 2, that begins at (1, 0). */
  function Walk(t: nat): (i: nat)
    ensures i < 25
  {
    if t == 0 then 1 else Step(Walk(t - 1))
  }

  /** (x, y) to (y, 2x + 3y) */
  function Step(i: nat): nat
    requires i < 25
  {
    5 * ((2 * (i % 5) + 3 * (i / 5)) % 5) + i / 5
  }

  /** The walk, spelled out: 24 different lanes, all but lane 0. */
  function WalkLane(i: nat): nat {
    match i
    case 0 => 1 case 1 => 10 case 2 => 7 case 3 => 11 case 4 => 17
    case 5 => 18 case 6 => 3 case 7 => 5 case 8 => 16 case 9 => 8
    case 10 => 21 case 11 => 24 case 12 => 4 case 13 => 15 case 14 => 23
    case 15 => 19 case 16 => 13 case 17 => 12 case 18 => 2 case 19 => 20
    case 20 => 14 case 21 => 22 case 22 => 9 case 23 => 6
    case _ => 0
  }

  lemma WalkStep(t: nat)
    requires 0 < t < 24
    ensures WalkLane(t - 1) < 25 && WalkLane(t) == Step(WalkLane(t - 1))
  {
    if t < 12 { WalkStepLow(t); } else { WalkStepHigh(t); }
  }

  lemma WalkStepLow(t: nat)
    requires 0 < t < 12
    ensures WalkLane(t - 1) < 25 && WalkLane(t) == Step(WalkLane(t - 1))
  {
  }

  lemma WalkStepHigh(t: nat)
    requires 12 <= t < 24
    ensures WalkLane(t - 1) < 25 && WalkLane(t) == Step(WalkLane(t - 1))
  {
  }

  lemma {:induction false} WalkTable(t: nat)
    requires t < 24
    ensures Walk(t) == WalkLane(t)
  {
    hide WalkLane, Step, Offset;
    OffsetBase();
    if t > 0 {
      WalkTable(t - 1);
      WalkStep(t);
    }
  }

  /** 1 + 2 + ... + n, that is n(n + 1)/2. */
  function Triangle(n: nat): (r: nat)
    ensures 2 * r == n * (n + 1)
  {
    if n == 0 then 0 else Triangle(n - 1) + n
  }

  /** Table 2 is what the walk says: step t rotates by (t + 1)(t + 2)/2, and lane 0 is not visited. */
  lemma {:induction false} OffsetsWalked(t: nat)
    requires t < 24
    ensures Walk(t) != 0 && Offset(Walk(t)) == Triangle(t + 1) && Offset(0) == 0
  {
    hide Offset, WalkLane, Triangle, Walk;
    WalkTable(t);
    OffsetBase();
    if t > 0 {
      OffsetsWalked(t - 1);
      WalkTable(t - 1);
      OffsetStep(t);
    }
  }

  lemma OffsetBase()
    ensures Offset(0) == 0 && WalkLane(0) == 1 && Offset(1) == Triangle(1)
  {
  }

  lemma OffsetStep(t: nat)
    requires 0 < t < 24
    ensures Offset(WalkLane(t)) == Offset(WalkLane(t - 1)) + t + 1 && WalkLane(t) != 0
    ensures Triangle(t + 1) == Triangle(t) + t + 1
  {
  }
}
