/** Keccak-compact.c: the permutation from tables and loops, in place. */
module CompactRounds {
  import Fips202
  import opened Lanes
  import opened KeccakP
  import opened KeccakSteps

  /** KeccakF_RotationConstants */
  function RotationConstant(i: nat): nat {
    match i
    case 0 => 1 case 1 => 3 case 2 => 6 case 3 => 10 case 4 => 15 case 5 => 21
    case 6 => 28 case 7 => 36 case 8 => 45 case 9 => 55 case 10 => 2 case 11 => 14
    case 12 => 27 case 13 => 41 case 14 => 56 case 15 => 8 case 16 => 25 case 17 => 43
    case 18 => 62 case 19 => 18 case 20 => 39 case 21 => 61 case 22 => 20 case 23 => 44
    case _ => 0
  }

  /** KeccakF_PiLane */
  function PiLane(i: nat): (j: nat)
    ensures j < 25
  {
    match i
    case 0 => 10 case 1 => 7 case 2 => 11 case 3 => 17 case 4 => 18 case 5 => 3
    case 6 => 5 case 7 => 16 case 8 => 8 case 9 => 21 case 10 => 24 case 11 => 4
    case 12 => 15 case 13 => 23 case 14 => 19 case 15 => 13 case 16 => 12 case 17 => 2
    case 18 => 20 case 19 => 14 case 20 => 22 case 21 => 9 case 22 => 6 case 23 => 1
    case _ => 0
  }

  /** When the walk of PiLane comes to lane i; it never comes to lane 0. */
  function Position(i: nat): nat {
    match i
    case 0 => 24 case 1 => 23 case 2 => 17 case 3 => 5 case 4 => 11 case 5 => 6
    case 6 => 22 case 7 => 1 case 8 => 8 case 9 => 21 case 10 => 0 case 11 => 2
    case 12 => 16 case 13 => 15 case 14 => 19 case 15 => 12 case 16 => 7 case 17 => 3
    case 18 => 4 case 19 => 14 case 20 => 18 case 21 => 9 case 22 => 20 case 23 => 13
    case 24 => 10
    case _ => 0
  }

  /** The lane whose old value is at hand at step x. */
  function Current(x: nat): (i: nat)
    ensures i < 25
  {
    if x == 0 then 1 else PiLane(x - 1)
  }

  /** PiLane is one cycle through the 24 lanes, along pi, and the rotations are those of rho. */
  lemma SingleCycle(x: nat)
    requires x < 24
    ensures 0 < PiLane(x) < 25 && Position(PiLane(x)) == x && Source(PiLane(x)) == Current(x)
    ensures RotationConstant(x) % 64 == Offset(Current(x)) % 64 && Current(x) == WalkLane(x)
  {
    CycleTables(x);
    CycleSource(x);
  }

  lemma CycleTables(x: nat)
    requires x < 24
    ensures 0 < PiLane(x) < 25 && Position(PiLane(x)) == x && Current(x) == WalkLane(x)
    ensures RotationConstant(x) % 64 == Offset(WalkLane(x)) % 64
  {
  }

  lemma CycleSource(x: nat)
    requires x < 24
    ensures 0 < PiLane(x) < 25 && Source(PiLane(x)) == Current(x)
  {
    hide Source;
    Sources();
  }

  lemma Reached(j: nat)
    requires 0 < j < 25
    ensures Position(j) < 24 && PiLane(Position(j)) == j
  {
  }

  // ------------------------------------------------------------------ the steps

  /** BC: the column parities. */
  method Parities(state: array<Bits>) returns (bc: seq<Bits>)
    requires state.Length == 25
    ensures |bc| == 5 && forall x: nat :: x < 5 ==> bc[x] == Parity(state[..], x)
  {
    bc := [];
    for x := 0 to 5
      invariant |bc| == x && forall k: nat :: k < x ==> bc[k] == Parity(state[..], k)
    {
      bc := bc + [Xor(Xor(Xor(Xor(state[x], state[5 + x]), state[10 + x]), state[15 + x]), state[20 + x])];
    }
  }

  /** `for ( y = 0; y < 25; y += 5 ) state[y + x] ^= temp;` */
  method XorColumn(state: array<Bits>, x: nat, temp: Bits)
    requires state.Length == 25 && x < 5
    modifies state
    ensures forall i :: 0 <= i < 25 ==> state[i] == if i % 5 == x then Xor(old(state[i]), temp) else old(state[i])
  {
    var y := 0;
    while y < 25
      invariant 0 <= y <= 25 && y % 5 == 0
      invariant forall i :: 0 <= i < 25 ==>
                  state[i] == if i % 5 == x && i < y then Xor(old(state[i]), temp) else old(state[i])
    {
      state[y + x] := Xor(state[y + x], temp);
      y := y + 5;
    }
  }

  method ThetaStep(state: array<Bits>, ghost w: nat)
    requires state.Length == 25 && LaneWidth(w) && Wide(state[..], w)
    modifies state
    ensures state[..] == Theta(old(state[..]))
  {
    hide Xor, Parity, Rol, RolMacro, Mask;
    ghost var s := state[..];
    var bc := Parities(state);
    for x := 0 to 5
      invariant forall i :: 0 <= i < 25 ==> state[i] == if i % 5 < x then Xor(s[i], Mask(s, i % 5)) else s[i]
    {
      var temp := Temp(bc, x, s, w);
      XorColumn(state, x, temp);
    }
  }

  method Temp(bc: seq<Bits>, x: nat, ghost s: State, ghost w: nat) returns (temp: Bits)
    requires x < 5 && Wide(s, w) && LaneWidth(w) && |bc| == 5 && forall x: nat :: x < 5 ==> bc[x] == Parity(s, x)
    ensures temp == Mask(s, x)
  {
    RolIs(bc[(x + 1) % 5], 1);
    temp := Xor(bc[(x + 4) % 5], RolMacro(bc[(x + 1) % 5], 1));
  }

  lemma RhoPiAt(s: State, j: nat)
    requires |s| == 25 && j < 25
    ensures Pi(Rho(s))[j] == Rol(s[Source(j)], Offset(Source(j)))
  {
  }

  /** The state after x steps of the walk. */
  ghost predicate Walked(t: seq<Bits>, s: State, x: nat)
    requires |t| == 25 && |s| == 25
  {
    forall j: nat {:trigger t[j]} :: j < 25 ==> t[j] == if Position(j) < x then Pi(Rho(s))[j] else s[j]
  }

  /** One step: the lane at hand goes to its place, and the lane found there is taken up. */
  lemma WalkedOn(t: seq<Bits>, s: State, x: nat, v: Bits)
    requires |t| == 25 && |s| == 25 && x < 24 && Walked(t, s, x) && PiLane(x) < 25
    requires v == Rol(s[Current(x)], Offset(Current(x)))
    ensures t[PiLane(x)] == s[PiLane(x)] && Walked(t[PiLane(x) := v], s, x + 1)
  {
    hide PiLane, Position, Current, Offset, Source, Rol;
    SingleCycle(x);
    var m := t[PiLane(x) := v];
    forall j: nat | j < 25 ensures m[j] == if Position(j) < x + 1 then Pi(Rho(s))[j] else s[j] {
      if j == PiLane(x) {
        RhoPiAt(s, j);
      } else if j == 0 {
        NeverZero();
      } else {
        Reached(j);
      }
    }
  }

  lemma NeverZero()
    ensures Position(0) == 24 && Current(0) == 1
  {
  }

  lemma WalkedAll(t: seq<Bits>, s: State)
    requires |t| == 25 && |s| == 25 && Walked(t, s, 24)
    ensures t == Pi(Rho(s))
  {
    hide PiLane, Position, Offset, Rol;
    forall j: nat | j < 25 ensures t[j] == Pi(Rho(s))[j] {
      if j == 0 {
        NeverZero();
        Sources();
        RhoPiAt(s, 0);
        RolNone(s[0]);
      } else {
        Reached(j);
      }
    }
  }

  lemma RolNone(a: Bits)
    ensures Rol(a, Offset(0)) == a
  {
  }

  /** The walk that moves and rotates every lane in one go. */
  method RhoPiStep(state: array<Bits>, ghost w: nat)
    requires state.Length == 25 && LaneWidth(w) && Wide(state[..], w)
    modifies state
    ensures state[..] == Pi(Rho(old(state[..])))
  {
    hide PiLane, Position, Offset, Rol, RolMacro, Walked;
    ghost var s := state[..];
    StartWalk(s);
    var temp := state[1];
    for x := 0 to 24
      invariant temp == s[Current(x)] && Walked(state[..], s, x)
    {
      SingleCycle(x);
      RolSame(temp, RotationConstant(x), Offset(Current(x)));
      WalkedOn(state[..], s, x, RolMacro(temp, RotationConstant(x)));
      var bc0 := state[PiLane(x)];
      state[PiLane(x)] := RolMacro(temp, RotationConstant(x));
      temp := bc0;
    }
    WalkedAll(state[..], s);
  }

  lemma StartWalk(s: State)
    requires |s| == 25
    ensures Walked(s, s, 0)
  {
  }

  lemma RightIs(y: nat, x: nat)
    requires (y == 0 || y == 5 || y == 10 || y == 15 || y == 20) && x < 5
    ensures Right(y + x) == y + (x + 1) % 5 && Right(Right(y + x)) == y + (x + 2) % 5
  {
    assert x == 0 || x == 1 || x == 2 || x == 3 || x == 4;
  }

  lemma ChiCell(s: State, bc: seq<Bits>, y: nat, x: nat)
    requires |s| == 25 && (y == 0 || y == 5 || y == 10 || y == 15 || y == 20) && x < 5 && bc == s[y..y + 5]
    ensures Xor(bc[x], AndNot(bc[(x + 1) % 5], bc[(x + 2) % 5])) == Chi(s)[y + x]
  {
    hide Xor, AndNot, Right;
    RightIs(y, x);
  }

  lemma Five(s: State, y: nat)
    requires y + 5 <= |s|
    ensures s[y..y + 5] == [s[y], s[y + 1], s[y + 2], s[y + 3], s[y + 4]]
  {
  }

  /** One row: BC keeps the old lanes. */
  method ChiRow(state: array<Bits>, y: nat)
    requires state.Length == 25 && (y == 0 || y == 5 || y == 10 || y == 15 || y == 20)
    modifies state
    ensures forall i: nat {:trigger state[i]} :: y <= i < y + 5 ==> state[i] == Chi(old(state[..]))[i]
    ensures forall i: nat {:trigger state[i]} :: i < y || y + 5 <= i < 25 ==> state[i] == old(state[i])
  {
    hide Chi;
    ghost var s := state[..];
    var bc := [state[y], state[y + 1], state[y + 2], state[y + 3], state[y + 4]];
    Five(s, y);
    for x := 0 to 5
      invariant forall i: nat {:trigger state[i]} :: y <= i < y + x ==> state[i] == Chi(s)[i]
      invariant forall i: nat {:trigger state[i]} :: i < y || y + 5 <= i < 25 ==> state[i] == s[i]
    {
      ChiCell(s, bc, y, x);
      state[y + x] := Xor(bc[x], AndNot(bc[(x + 1) % 5], bc[(x + 2) % 5]));
    }
  }

  /** Chi looks at one row only. */
  lemma ChiLocal(s: State, t: State, i: nat)
    requires |s| == 25 && |t| == 25 && i < 25 && t[i] == s[i] && t[Right(i)] == s[Right(i)]
    requires t[Right(Right(i))] == s[Right(Right(i))]
    ensures Chi(t)[i] == Chi(s)[i]
  {
  }

  method ChiStep(state: array<Bits>)
    requires state.Length == 25
    modifies state
    ensures state[..] == Chi(old(state[..]))
  {
    hide Chi;
    ghost var s := state[..];
    var y := 0;
    while y < 25
      invariant y == 0 || y == 5 || y == 10 || y == 15 || y == 20 || y == 25
      invariant forall i: nat {:trigger state[i]} :: i < 25 ==> state[i] == if i < y then Chi(s)[i] else s[i]
    {
      ghost var t := state[..];
      ChiRow(state, y);
      forall i: nat | y <= i < y + 5 ensures Chi(t)[i] == Chi(s)[i] {
        ChiLocal(s, t, i);
      }
      y := y + 5;
    }
  }

  // ------------------------------------------------------------------ the permutation

  method OneRound(state: array<Bits>, round: nat, w: nat)
    requires state.Length == 25 && LaneWidth(w) && Wide(state[..], w) && round < 24
    modifies state
    ensures state[..] == Round(old(state[..]), RC(round, w))
  {
    hide Theta, Rho, Pi, Chi, RC;
    ghost var s := state[..];
    ThetaStep(state, w);
    WideTheta(s, w);
    RhoPiStep(state, w);
    ChiStep(state);
    var rc := ConstantOf(round, w);
    state[0] := Xor(state[0], rc);
  }

  lemma WideTheta(s: State, w: nat)
    requires Wide(s, w)
    ensures |Theta(s)| == 25 && Wide(Theta(s), w)
  {
  }

  /** KeccakF of Keccak-compact.c. */
  method KeccakF(state: array<Bits>, input: seq<Bits>, laneCount: nat, w: nat)
    requires state.Length == 25 && LaneWidth(w) && Wide(state[..], w) && laneCount <= 25 && laneCount <= |input|
    modifies state
    ensures state[..] == Permutation(Absorbed(old(state[..]), input[..laneCount]), w) && Wide(state[..], w)
    ensures Fips202.Permuted(old(state[..]), input[..laneCount], state[..], w)
  {
    hide Round, RC, Xor;
    ghost var s0 := state[..];
    XorLanes(state, input, laneCount);
    ghost var a := state[..];
    assert a == Absorbed(s0, input[..laneCount]);
    WideRounds(a, w, 0);
    for round := 0 to Rounds(w)
      invariant state[..] == RoundsOf(a, w, round) && Wide(state[..], w)
    {
      OneRound(state, round, w);
      WideRounds(a, w, round + 1);
    }
    Fips202.IsPermuted(s0, input[..laneCount], w);
  }
}
