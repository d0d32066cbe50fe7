/** What the three implementations of the permutation have in common. */
module KeccakSteps {
  import opened Arith
  import Constants
  import opened Lanes
  import opened KeccakP

  /** Rotations by amounts that agree modulo 64 are the same for every lane width. */
  lemma RolSame(a: Bits, r: nat, k: nat)
    requires LaneWidth(|a|) && r % 64 == k % 64
    ensures RolMacro(a, r) == Rol(a, k)
  {
    RolIs(a, r);
    ModWidth(r, k, |a|);
    RolReduce(a, r, k);
  }

  lemma ModWidth(r: nat, k: nat, w: nat)
    requires LaneWidth(w) && r % 64 == k % 64
    ensures r % w == k % w
  {
    Mod64(r, w);
    Mod64(k, w);
  }

  lemma Mod64(r: nat, w: nat)
    requires LaneWidth(w)
    ensures r % w == r % 64 % w
  {
    var n := 64 / w;
    assert 64 == w * n;
    var q, t := r / 64, r % 64;
    assert r == w * (n * q + t / w) + t % w;
    ModUnique(r, w, n * q + t / w, t % w);
  }

  /** `while (--laneCount >= 0) state[laneCount] ^= in[laneCount];` */
  method XorLanes(state: array<Bits>, input: seq<Bits>, count: int)
    requires state.Length == 25 && 0 <= count <= 25 && count <= |input|
    modifies state
    ensures forall i :: 0 <= i < 25 ==> state[i] == if i < count then Xor(old(state[i]), input[i]) else old(state[i])
  {
    var laneCount := count - 1;
    while laneCount >= 0
      invariant -1 <= laneCount < count
      invariant forall i :: 0 <= i < 25 ==>
                  state[i] == if laneCount < i < count then Xor(old(state[i]), input[i]) else old(state[i])
    {
      state[laneCount] := Xor(state[laneCount], input[laneCount]);
      laneCount := laneCount - 1;
    }
  }

  /** The round constant, from the table. */
  method ConstantOf(round: nat, w: nat) returns (rc: Bits)
    requires round < 24 && LaneWidth(w)
    ensures rc == RC(round, w)
  {
    Constants.TableIsStandard(round, w);
    rc := Constants.Word(Constants.RoundConstant(round), w);
  }

  /** Da to Du, from the parities of the five columns. */
  method MasksFrom(ca: Bits, ce: Bits, ci: Bits, co: Bits, cu: Bits, ghost s: State, ghost w: nat)
      returns (d: seq<Bits>)
    requires Wide(s, w) && LaneWidth(w)
    requires ca == Parity(s, 0) && ce == Parity(s, 1) && ci == Parity(s, 2) && co == Parity(s, 3) && cu == Parity(s, 4)
    ensures |d| == 5 && forall x: nat :: x < 5 ==> d[x] == Mask(s, x)
  {
    RolIs(ca, 1);
    RolIs(ce, 1);
    RolIs(ci, 1);
    RolIs(co, 1);
    RolIs(cu, 1);
    var da := Xor(cu, RolMacro(ce, 1));
    var de := Xor(ca, RolMacro(ci, 1));
    var di := Xor(ce, RolMacro(co, 1));
    var do := Xor(ci, RolMacro(cu, 1));
    var du := Xor(co, RolMacro(ca, 1));
    assert da == Mask(s, 0) && de == Mask(s, 1) && di == Mask(s, 2) && do == Mask(s, 3) && du == Mask(s, 4);
    d := [da, de, di, do, du];
  }

  /** Lane c is the one that moves to lane i, rotated by r. */
  predicate Comes(i: nat, c: nat, r: nat) {
    i < 25 && c == Source(i) && r % 64 == Offset(c) % 64
  }

  /** What the source has for row y: the five lanes that make it up, and their rotations. */
  predicate Planned(y: nat, c0: nat, r0: nat, c1: nat, r1: nat, c2: nat, r2: nat, c3: nat, r3: nat, c4: nat, r4: nat) {
    && y < 5
    && Comes(5 * y, c0, r0) && Comes(5 * y + 1, c1, r1) && Comes(5 * y + 2, c2, r2) && Comes(5 * y + 3, c3, r3)
    && Comes(5 * y + 4, c4, r4)
  }

  /** The lane names and rotations of the unrolled round are those of rho and pi, row by row. */
  lemma PlanB()
    ensures Planned(0, 0, 0, 6, 44, 12, 43, 18, 21, 24, 14)
  {
  }

  lemma PlanG()
    ensures Planned(1, 3, 28, 9, 20, 10, 3, 16, 45, 22, 61)
  {
  }

  lemma PlanK()
    ensures Planned(2, 1, 1, 7, 6, 13, 25, 19, 8, 20, 18)
  {
  }

  lemma PlanM()
    ensures Planned(3, 4, 27, 5, 36, 11, 10, 17, 15, 23, 56)
  {
  }

  lemma PlanS()
    ensures Planned(4, 2, 62, 8, 55, 14, 39, 15, 41, 21, 2)
  {
  }

  lemma RowIndex(i: nat)
    requires i < 25
    ensures i == 0 || i == 1 || i == 2 || i == 3 || i == 4 || i == 5 || i == 6 || i == 7 || i == 8 || i == 9
      || i == 10 || i == 11 || i == 12 || i == 13 || i == 14 || i == 15 || i == 16 || i == 17 || i == 18 || i == 19
      || i == 20 || i == 21 || i == 22 || i == 23 || i == 24
  {
  }

  /** pi, lane by lane. */
  lemma Sources()
    ensures Source(0) == 0 && Source(1) == 6 && Source(2) == 12 && Source(3) == 18 && Source(4) == 24
    ensures Source(5) == 3 && Source(6) == 9 && Source(7) == 10 && Source(8) == 16 && Source(9) == 22
    ensures Source(10) == 1 && Source(11) == 7 && Source(12) == 13 && Source(13) == 19 && Source(14) == 20
    ensures Source(15) == 4 && Source(16) == 5 && Source(17) == 11 && Source(18) == 17 && Source(19) == 23
    ensures Source(20) == 2 && Source(21) == 8 && Source(22) == 14 && Source(23) == 15 && Source(24) == 21
  {
  }
}
