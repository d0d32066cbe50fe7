/** Keccak-simple.c: the permutation, two rounds unrolled, with the lanes in local variables. */
module Simples {
  import Fips202
  import opened Lanes
  import opened KeccakP
  import opened KeccakSteps

  /** prepareTheta, and the masks Da to Du. */
  method Masks(a: seq<Bits>, ghost w: nat) returns (d: seq<Bits>)
    requires Wide(a, w) && LaneWidth(w)
    ensures |d| == 5 && forall x: nat :: x < 5 ==> d[x] == Mask(a, x)
  {
    var bca := Xor(Xor(Xor(Xor(a[0], a[5]), a[10]), a[15]), a[20]);
    var bce := Xor(Xor(Xor(Xor(a[1], a[6]), a[11]), a[16]), a[21]);
    var bci := Xor(Xor(Xor(Xor(a[2], a[7]), a[12]), a[17]), a[22]);
    var bco := Xor(Xor(Xor(Xor(a[3], a[8]), a[13]), a[18]), a[23]);
    var bcu := Xor(Xor(Xor(Xor(a[4], a[9]), a[14]), a[19]), a[24]);
    d := MasksFrom(bca, bce, bci, bco, bcu, a, w);
  }

  /** One lane takes its mask and its rotation. */
  method Cell(a: seq<Bits>, d: seq<Bits>, c: nat, r: nat, ghost w: nat, ghost i: nat) returns (b: Bits)
    requires Wide(a, w) && LaneWidth(w) && |d| == 5 && forall x: nat :: x < 5 ==> d[x] == Mask(a, x)
    requires Comes(i, c, r)
    ensures b == Moved(a, i)
  {
    RolSame(Xor(a[c], d[c % 5]), r, Offset(c));
    b := RolMacro(Xor(a[c], d[c % 5]), r);
  }

  ghost predicate IsRow(a: seq<Bits>, row: seq<Bits>, y: nat)
    requires |a| == 25 && y < 5
  {
    && |row| == 5 && row[0] == RowLane(a, 5 * y) && row[1] == RowLane(a, 5 * y + 1) && row[2] == RowLane(a, 5 * y + 2)
    && row[3] == RowLane(a, 5 * y + 3) && row[4] == RowLane(a, 5 * y + 4)
  }

  /** One block of the round: chi mixes five such lanes into a row. */
  method Row(a: seq<Bits>, d: seq<Bits>, c0: nat, r0: nat, c1: nat, r1: nat, c2: nat, r2: nat, c3: nat, r3: nat,
             c4: nat, r4: nat,
             ghost w: nat, ghost y: nat) returns (row: seq<Bits>)
    requires Wide(a, w) && LaneWidth(w) && Planned(y, c0, r0, c1, r1, c2, r2, c3, r3, c4, r4)
    requires |d| == 5 && forall x: nat :: x < 5 ==> d[x] == Mask(a, x)
    ensures |row| == 5 && IsRow(a, row, y)
  {
    hide Moved, Comes, Xor, AndNot, Mask;
    var bca := Cell(a, d, c0, r0, w, 5 * y);
    var bce := Cell(a, d, c1, r1, w, 5 * y + 1);
    var bci := Cell(a, d, c2, r2, w, 5 * y + 2);
    var bco := Cell(a, d, c3, r3, w, 5 * y + 3);
    var bcu := Cell(a, d, c4, r4, w, 5 * y + 4);
    row := [Xor(bca, AndNot(bce, bci)), Xor(bce, AndNot(bci, bco)), Xor(bci, AndNot(bco, bcu)),
            Xor(bco, AndNot(bcu, bca)), Xor(bcu, AndNot(bca, bce))];
  }

  /** thetaRhoPiChiIotaPrepareTheta: from the lanes A to the lanes E. */
  method HalfRound(a: seq<Bits>, round: nat, w: nat) returns (e: seq<Bits>)
    requires Wide(a, w) && LaneWidth(w) && round < 24
    ensures e == Round(a, RC(round, w))
  {
    hide IsRow, Round, RC, Mask, Xor, Planned;
    PlanB();
    PlanG();
    PlanK();
    PlanM();
    PlanS();
    var d := Masks(a, w);
    var eb := Row(a, d, 0, 0, 6, 44, 12, 43, 18, 21, 24, 14, w, 0);
    var eg := Row(a, d, 3, 28, 9, 20, 10, 3, 16, 45, 22, 61, w, 1);
    var ek := Row(a, d, 1, 1, 7, 6, 13, 25, 19, 8, 20, 18, w, 2);
    var em := Row(a, d, 4, 27, 5, 36, 11, 10, 17, 15, 23, 56, w, 3);
    var es := Row(a, d, 2, 62, 8, 55, 14, 39, 15, 41, 21, 2, w, 4);
    var rc := ConstantOf(round, w);
    RowsMakeRound(a, rc, eb, eg, ek, em, es);
    e := [Xor(eb[0], rc)] + eb[1..] + eg + ek + em + es;
  }

  /** Row y of a state. */
  ghost predicate RowIn(s: seq<Bits>, row: seq<Bits>, y: nat)
    requires |s| == 25 && y < 5
  {
    && |row| == 5 && row[0] == s[5 * y] && row[1] == s[5 * y + 1] && row[2] == s[5 * y + 2] && row[3] == s[5 * y + 3]
    && row[4] == s[5 * y + 4]
  }

  lemma RowThere(a: seq<Bits>, rc: Bits, row: seq<Bits>, y: nat)
    requires |a| == 25 && 0 < y < 5 && IsRow(a, row, y)
    ensures RowIn(Round(a, rc), row, y)
  {
    hide Round, RowLane;
    RoundAt(a, rc, 5 * y);
    RoundAt(a, rc, 5 * y + 1);
    RoundAt(a, rc, 5 * y + 2);
    RoundAt(a, rc, 5 * y + 3);
    RoundAt(a, rc, 5 * y + 4);
  }

  lemma FirstRowThere(a: seq<Bits>, rc: Bits, row: seq<Bits>)
    requires |a| == 25 && IsRow(a, row, 0)
    ensures RowIn(Round(a, rc), [Xor(row[0], rc)] + row[1..], 0)
  {
    hide Round, RowLane, Xor;
    RoundAt(a, rc, 0);
    RoundAt(a, rc, 1);
    RoundAt(a, rc, 2);
    RoundAt(a, rc, 3);
    RoundAt(a, rc, 4);
  }

  lemma RowsMake(s: seq<Bits>, b: seq<Bits>, g: seq<Bits>, k: seq<Bits>, m: seq<Bits>, t: seq<Bits>)
    requires |s| == 25 && RowIn(s, b, 0) && RowIn(s, g, 1) && RowIn(s, k, 2) && RowIn(s, m, 3) && RowIn(s, t, 4)
    ensures b + g + k + m + t == s
  {
    assert b == s[..5] && g == s[5..10] && k == s[10..15] && m == s[15..20] && t == s[20..];
  }

  /** Five rows, the first lane with its constant, are the state after the round. */
  lemma RowsMakeRound(a: seq<Bits>, rc: Bits, eb: seq<Bits>, eg: seq<Bits>, ek: seq<Bits>, em: seq<Bits>, es: seq<Bits>)
    requires |a| == 25 && IsRow(a, eb, 0) && IsRow(a, eg, 1) && IsRow(a, ek, 2) && IsRow(a, em, 3) && IsRow(a, es, 4)
    ensures [Xor(eb[0], rc)] + eb[1..] + eg + ek + em + es == Round(a, rc)
  {
    hide Round, RowLane, Xor, RowIn;
    FirstRowThere(a, rc, eb);
    RowThere(a, rc, eg, 1);
    RowThere(a, rc, ek, 2);
    RowThere(a, rc, em, 3);
    RowThere(a, rc, es, 4);
    RowsMake(Round(a, rc), [Xor(eb[0], rc)] + eb[1..], eg, ek, em, es);
  }

  /** The loop over the rounds, two at a time. */
  method TwoByTwo(a0: seq<Bits>, w: nat) returns (a: seq<Bits>)
    requires Wide(a0, w) && LaneWidth(w)
    ensures a == Permutation(a0, w) && Wide(a, w)
  {
    hide Round, RC, Wide;
    a := a0;
    WideRounds(a0, w, 0);
    var round := 0;
    while round < Rounds(w)
      invariant 0 <= round <= Rounds(w) <= 24 && round % 2 == 0 && Rounds(w) % 2 == 0 && a == RoundsOf(a0, w, round)
    {
      WideRounds(a0, w, round);
      var e := HalfRound(a, round, w);
      WideRounds(a0, w, round + 1);
      a := HalfRound(e, round + 1, w);
      round := round + 2;
    }
    WideRounds(a0, w, round);
  }

  /** KeccakF of Keccak-simple.c: the lanes of the input are XORed in, and the permutation is applied. */
  method KeccakF(state: array<Bits>, input: seq<Bits>, laneCount: nat, w: nat)
    requires state.Length == 25 && LaneWidth(w) && Wide(state[..], w) && laneCount <= 25 && laneCount <= |input|
    modifies state
    ensures state[..] == Permutation(Absorbed(old(state[..]), input[..laneCount]), w)
    ensures Fips202.Permuted(old(state[..]), input[..laneCount], state[..], w)
  {
    hide Permutation, RoundsOf, Xor, Rounds;
    ghost var s0 := state[..];
    XorLanes(state, input, laneCount);
    var a := state[..];
    assert a == Absorbed(s0, input[..laneCount]);
    a := TwoByTwo(a, w);
    for i := 0 to 25
      invariant state[..i] == a[..i]
    {
      state[i] := a[i];
    }
    Fips202.IsPermuted(s0, input[..laneCount], w);
  }
}
