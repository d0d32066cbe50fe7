/** Keccak-inplace.c: four rounds unrolled, every lane written over a lane of the row it comes from. */
module InPlace {
  import Fips202
  import opened Lanes
  import opened KeccakP
  import opened KeccakSteps

  // ------------------------------------------------------------------ where the lanes are

  /** Where each lane is after the first of the four rounds, */
  function Loc1(i: nat): (j: nat)
    ensures j < 25
  {
    match i
    case 0 => 0 case 1 => 6 case 2 => 12 case 3 => 18 case 4 => 24
    case 5 => 10 case 6 => 16 case 7 => 22 case 8 => 3 case 9 => 9
    case 10 => 20 case 11 => 1 case 12 => 7 case 13 => 13 case 14 => 19
    case 15 => 5 case 16 => 11 case 17 => 17 case 18 => 23 case 19 => 4
    case 20 => 15 case 21 => 21 case 22 => 2 case 23 => 8 case 24 => 14
    case _ => 0
  }

  /** after the second, */
  function Loc2(i: nat): (j: nat)
    ensures j < 25
  {
    match i
    case 0 => 0 case 1 => 16 case 2 => 7 case 3 => 23 case 4 => 14
    case 5 => 20 case 6 => 11 case 7 => 2 case 8 => 18 case 9 => 9
    case 10 => 15 case 11 => 6 case 12 => 22 case 13 => 13 case 14 => 4
    case 15 => 10 case 16 => 1 case 17 => 17 case 18 => 8 case 19 => 24
    case 20 => 5 case 21 => 21 case 22 => 12 case 23 => 3 case 24 => 19
    case _ => 0
  }

  /** and after the third. */
  function Loc3(i: nat): (j: nat)
    ensures j < 25
  {
    match i
    case 0 => 0 case 1 => 11 case 2 => 22 case 3 => 8 case 4 => 19
    case 5 => 15 case 6 => 1 case 7 => 12 case 8 => 23 case 9 => 9
    case 10 => 5 case 11 => 16 case 12 => 2 case 13 => 13 case 14 => 24
    case 15 => 20 case 16 => 6 case 17 => 17 case 18 => 3 case 19 => 14
    case 20 => 10 case 21 => 21 case 22 => 7 case 23 => 18 case 24 => 4
    case _ => 0
  }

  function Loc(k: nat, i: nat): (j: nat)
    requires i < 25
    ensures j < 25
  {
    if k == 1 then Loc1(i) else if k == 2 then Loc2(i) else if k == 3 then Loc3(i) else i
  }

  /** Lane (x, y) goes where lane (x, 2y + x) was. */
  function Turned(i: nat): (j: nat)
    requires i < 25
    ensures j < 25
  {
    i % 5 + 5 * ((2 * (i / 5) + i % 5) % 5)
  }

  /** Every round permutes the storage by the same map, */
  lemma SameTurn(k: nat, i: nat)
    requires k < 4 && i < 25
    ensures Loc(k + 1, i) == Loc(k, Turned(i))
  {
    RowIndex(i);
  }

  /** and four times that map is the identity. */
  lemma FourAround(i: nat)
    requires i < 25
    ensures Turned(Turned(Turned(Turned(i)))) == i && Loc(4, i) == i
  {
    SameTurn(3, i);
    SameTurn(2, Turned(i));
    SameTurn(1, Turned(Turned(i)));
    SameTurn(0, Turned(Turned(Turned(i))));
  }

  /** The row that round 1 of the four writes to a cell. */
  function Row0(i: nat): (y: nat)
    ensures y < 5
  {
    match i
    case 0 => 0 case 1 => 2 case 2 => 4 case 3 => 1 case 4 => 3
    case 5 => 3 case 6 => 0 case 7 => 2 case 8 => 4 case 9 => 1
    case 10 => 1 case 11 => 3 case 12 => 0 case 13 => 2 case 14 => 4
    case 15 => 4 case 16 => 1 case 17 => 3 case 18 => 0 case 19 => 2
    case 20 => 2 case 21 => 4 case 22 => 1 case 23 => 3 case 24 => 0
    case _ => 0
  }

  /** The row that round 2 of the four writes to a cell. */
  function Row1(i: nat): (y: nat)
    ensures y < 5
  {
    match i
    case 0 => 0 case 1 => 3 case 2 => 1 case 3 => 4 case 4 => 2
    case 5 => 4 case 6 => 2 case 7 => 0 case 8 => 3 case 9 => 1
    case 10 => 3 case 11 => 1 case 12 => 4 case 13 => 2 case 14 => 0
    case 15 => 2 case 16 => 0 case 17 => 3 case 18 => 1 case 19 => 4
    case 20 => 1 case 21 => 4 case 22 => 2 case 23 => 0 case 24 => 3
    case _ => 0
  }

  /** The row that round 3 of the four writes to a cell. */
  function Row2(i: nat): (y: nat)
    ensures y < 5
  {
    match i
    case 0 => 0 case 1 => 1 case 2 => 2 case 3 => 3 case 4 => 4
    case 5 => 2 case 6 => 3 case 7 => 4 case 8 => 0 case 9 => 1
    case 10 => 4 case 11 => 0 case 12 => 1 case 13 => 2 case 14 => 3
    case 15 => 1 case 16 => 2 case 17 => 3 case 18 => 4 case 19 => 0
    case 20 => 3 case 21 => 4 case 22 => 0 case 23 => 1 case 24 => 2
    case _ => 0
  }

  /** The row that round 4 of the four writes to a cell. */
  function Row3(i: nat): (y: nat)
    ensures y < 5
  {
    match i
    case 0 => 0 case 1 => 0 case 2 => 0 case 3 => 0 case 4 => 0
    case 5 => 1 case 6 => 1 case 7 => 1 case 8 => 1 case 9 => 1
    case 10 => 2 case 11 => 2 case 12 => 2 case 13 => 2 case 14 => 2
    case 15 => 3 case 16 => 3 case 17 => 3 case 18 => 3 case 19 => 3
    case 20 => 4 case 21 => 4 case 22 => 4 case 23 => 4 case 24 => 4
    case _ => 0
  }

  function RowAt(k: nat, j: nat): (y: nat)
    ensures y < 5
  {
    if k == 0 then Row0(j) else if k == 1 then Row1(j) else if k == 2 then Row2(j) else Row3(j)
  }

  /** The cells a block reads are the cells it writes, and no other block touches them. */
  lemma RowCells(k: nat, i: nat)
    requires k < 4 && i < 25
    ensures RowAt(k, Loc(k + 1, i)) == i / 5 && RowAt(k, Loc(k, Source(i))) == i / 5
    ensures Loc(k, Source(i)) % 5 == Source(i) % 5
  {
    hide Source;
    if k == 0 {
      RowCells0(i);
    } else if k == 1 {
      RowCells1(i);
    } else if k == 2 {
      RowCells2(i);
    } else {
      RowCells3(i);
    }
  }

  lemma RowCells0(i: nat)
    requires i < 25
    ensures Row0(Loc1(i)) == i / 5 && Row0(Source(i)) == i / 5
  {
    hide Source;
    Sources();
    RowIndex(i);
  }

  lemma RowCells1(i: nat)
    requires i < 25
    ensures Row1(Loc2(i)) == i / 5 && Row1(Loc1(Source(i))) == i / 5 && Loc1(Source(i)) % 5 == Source(i) % 5
  {
    hide Source;
    Sources();
    RowIndex(i);
  }

  lemma RowCells2(i: nat)
    requires i < 25
    ensures Row2(Loc3(i)) == i / 5 && Row2(Loc2(Source(i))) == i / 5 && Loc2(Source(i)) % 5 == Source(i) % 5
  {
    hide Source;
    Sources();
    RowIndex(i);
  }

  lemma RowCells3(i: nat)
    requires i < 25
    ensures Row3(i) == i / 5 && Row3(Loc3(Source(i))) == i / 5 && Loc3(Source(i)) % 5 == Source(i) % 5
  {
    hide Source;
    Sources();
    RowIndex(i);
  }

  /** The state `s`, stored as it is after k rounds. */
  ghost predicate Placed(t: seq<Bits>, s: State, k: nat)
    requires |t| == 25 && |s| == 25
  {
    forall i: nat {:trigger s[i]} {:trigger Loc(k, i)} :: i < 25 ==> t[Loc(k, i)] == s[i]
  }

  /** After four rounds the storage is in order again. */
  lemma InOrder(t: seq<Bits>, s: State, k: nat)
    requires |t| == 25 && |s| == 25 && (k == 0 || k == 4)
    ensures Placed(t, s, k) <==> t == s
  {
    hide Loc, Turned;
    forall i: nat | i < 25 ensures Loc(k, i) == i {
      if k == 4 { FourAround(i); } else { LocStart(i); }
    }
    if Placed(t, s, k) {
      forall i: nat | i < 25 ensures t[i] == s[i] {
        assert t[Loc(k, i)] == s[i];
      }
    }
  }

  lemma LocStart(i: nat)
    requires i < 25
    ensures Loc(0, i) == i
  {
  }

  // ------------------------------------------------------------------ one block

  /** `ROL64((A ^ D), r)`, for a cell that holds lane j, on its way to lane i. */
  method Turn(t: seq<Bits>, d: seq<Bits>, c: nat, r: nat, ghost s: State, ghost j: nat, ghost i: nat, ghost w: nat)
      returns (b: Bits)
    requires Wide(s, w) && LaneWidth(w) && |d| == 5 && forall x: nat :: x < 5 ==> d[x] == Mask(s, x)
    requires Comes(i, j, r) && j < 25 && c < |t| && t[c] == s[j] && c % 5 == j % 5
    ensures b == Moved(s, i)
  {
    RolSame(Xor(t[c], d[c % 5]), r, Offset(j));
    b := RolMacro(Xor(t[c], d[c % 5]), r);
  }

  /** Lane i of the state after the round. */
  ghost function NewLane(s: State, rc: Bits, i: nat): Bits
    requires |s| == 25 && i < 25
  {
    if i == 0 then Xor(RowLane(s, 0), rc) else RowLane(s, i)
  }

  /** The rows before y are replaced, the others are still as they were. */
  ghost predicate Half(t: seq<Bits>, s: State, rc: Bits, k: nat, y: nat)
    requires |t| == 25 && |s| == 25
  {
    forall i: nat {:trigger Loc(k + 1, i)} {:trigger Source(i)} :: i < 25 ==>
      if i / 5 < y then t[Loc(k + 1, i)] == NewLane(s, rc, i) else t[Loc(k, Source(i))] == s[Source(i)]
  }

  /** Memory with a row replaced. */
  ghost function WithRow(t: seq<Bits>, s: State, rc: Bits, k: nat, y: nat): (u: seq<Bits>)
    requires |t| == 25 && |s| == 25 && k < 4 && y < 5
    ensures |u| == 25
  {
    t[Loc(k + 1, 5 * y) := NewLane(s, rc, 5 * y)][Loc(k + 1, 5 * y + 1) := NewLane(s, rc, 5 * y + 1)]
     [Loc(k + 1, 5 * y + 2) := NewLane(s, rc, 5 * y + 2)][Loc(k + 1, 5 * y + 3) := NewLane(s, rc, 5 * y + 3)]
     [Loc(k + 1, 5 * y + 4) := NewLane(s, rc, 5 * y + 4)]
  }

  /** The lane stored in a cell after round k + 1. */
  function Back(k: nat, j: nat): nat {
    if k == 0 then Back1(j) else if k == 1 then Back2(j) else if k == 2 then Back3(j) else j
  }

  /** Loc1, backwards. */
  function Back1(i: nat): nat
  {
    match i
    case 0 => 0 case 1 => 11 case 2 => 22 case 3 => 8 case 4 => 19
    case 5 => 15 case 6 => 1 case 7 => 12 case 8 => 23 case 9 => 9
    case 10 => 5 case 11 => 16 case 12 => 2 case 13 => 13 case 14 => 24
    case 15 => 20 case 16 => 6 case 17 => 17 case 18 => 3 case 19 => 14
    case 20 => 10 case 21 => 21 case 22 => 7 case 23 => 18 case 24 => 4
    case _ => 0
  }

  /** Loc2, backwards. */
  function Back2(i: nat): nat
  {
    match i
    case 0 => 0 case 1 => 16 case 2 => 7 case 3 => 23 case 4 => 14
    case 5 => 20 case 6 => 11 case 7 => 2 case 8 => 18 case 9 => 9
    case 10 => 15 case 11 => 6 case 12 => 22 case 13 => 13 case 14 => 4
    case 15 => 10 case 16 => 1 case 17 => 17 case 18 => 8 case 19 => 24
    case 20 => 5 case 21 => 21 case 22 => 12 case 23 => 3 case 24 => 19
    case _ => 0
  }

  /** Loc3, backwards. */
  function Back3(i: nat): nat
  {
    match i
    case 0 => 0 case 1 => 6 case 2 => 12 case 3 => 18 case 4 => 24
    case 5 => 10 case 6 => 16 case 7 => 22 case 8 => 3 case 9 => 9
    case 10 => 20 case 11 => 1 case 12 => 7 case 13 => 13 case 14 => 19
    case 15 => 5 case 16 => 11 case 17 => 17 case 18 => 23 case 19 => 4
    case 20 => 15 case 21 => 21 case 22 => 2 case 23 => 8 case 24 => 14
    case _ => 0
  }

  lemma LocBack(k: nat, i: nat)
    requires k < 4 && i < 25
    ensures Back(k, Loc(k + 1, i)) == i
  {
    RowIndex(i);
  }

  lemma RowDone(t: seq<Bits>, s: State, rc: Bits, k: nat, y: nat)
    requires |t| == 25 && |s| == 25 && k < 4 && y < 5 && Half(t, s, rc, k, y)
    ensures Half(WithRow(t, s, rc, k, y), s, rc, k, y + 1)
  {
    hide Loc, RowAt, Source, NewLane, Xor;
    var u := WithRow(t, s, rc, k, y);
    RowWritten(t, s, rc, k, y);
    forall i: nat | i < 25
      ensures if i / 5 < y + 1 then u[Loc(k + 1, i)] == NewLane(s, rc, i) else u[Loc(k, Source(i))] == s[Source(i)]
    {
      RowCells(k, i);
      if i / 5 == y {
        assert i == 5 * y || i == 5 * y + 1 || i == 5 * y + 2 || i == 5 * y + 3 || i == 5 * y + 4;
      }
    }
  }

  /** The five cells of a row hold its lanes, and the cells of the other rows are untouched. */
  lemma RowWritten(t: seq<Bits>, s: State, rc: Bits, k: nat, y: nat)
    requires |t| == 25 && |s| == 25 && k < 4 && y < 5
    ensures var u := WithRow(t, s, rc, k, y);
      && u[Loc(k + 1, 5 * y)] == NewLane(s, rc, 5 * y) && u[Loc(k + 1, 5 * y + 1)] == NewLane(s, rc, 5 * y + 1)
      && u[Loc(k + 1, 5 * y + 2)] == NewLane(s, rc, 5 * y + 2) && u[Loc(k + 1, 5 * y + 3)] == NewLane(s, rc, 5 * y + 3)
      && u[Loc(k + 1, 5 * y + 4)] == NewLane(s, rc, 5 * y + 4)
      && forall j: nat {:trigger RowAt(k, j)} :: j < 25 && RowAt(k, j) != y ==> u[j] == t[j]
  {
    hide Loc, RowAt, NewLane;
    RowCells(k, 5 * y);
    RowCells(k, 5 * y + 1);
    RowCells(k, 5 * y + 2);
    RowCells(k, 5 * y + 3);
    RowCells(k, 5 * y + 4);
    RowApart(k, y);
  }

  lemma RowApart(k: nat, y: nat)
    requires k < 4 && y < 5
    ensures AllDifferent(Loc(k + 1, 5 * y), Loc(k + 1, 5 * y + 1), Loc(k + 1, 5 * y + 2), Loc(k + 1, 5 * y + 3),
                         Loc(k + 1, 5 * y + 4))
  {
    hide Loc, Back;
    LocBack(k, 5 * y);
    LocBack(k, 5 * y + 1);
    LocBack(k, 5 * y + 2);
    LocBack(k, 5 * y + 3);
    LocBack(k, 5 * y + 4);
  }

  predicate AllDifferent(a: nat, b: nat, c: nat, d: nat, e: nat) {
    a != b && a != c && a != d && a != e && b != c && b != d && b != e && c != d && c != e && d != e
  }

  /** Ba to Bu */
  method TurnFive(t: seq<Bits>, d: seq<Bits>, c0: nat, r0: nat, c1: nat, r1: nat, c2: nat, r2: nat, c3: nat, r3: nat,
                  c4: nat, r4: nat, ghost s: State, ghost y: nat, ghost w: nat,
                  ghost j0: nat, ghost j1: nat, ghost j2: nat, ghost j3: nat, ghost j4: nat)
      returns (ba: Bits, be: Bits, bi: Bits, bo: Bits, bu: Bits)
    requires |t| == 25 && Wide(s, w) && LaneWidth(w) && |d| == 5 && forall x: nat :: x < 5 ==> d[x] == Mask(s, x)
    requires Planned(y, j0, r0, j1, r1, j2, r2, j3, r3, j4, r4) && j0 < 25 && j1 < 25 && j2 < 25 && j3 < 25 && j4 < 25
    requires c0 < 25 && c1 < 25 && c2 < 25 && c3 < 25 && c4 < 25
    requires t[c0] == s[j0] && t[c1] == s[j1] && t[c2] == s[j2] && t[c3] == s[j3] && t[c4] == s[j4]
    requires c0 % 5 == j0 % 5 && c1 % 5 == j1 % 5 && c2 % 5 == j2 % 5 && c3 % 5 == j3 % 5 && c4 % 5 == j4 % 5
    ensures ba == Moved(s, 5 * y) && be == Moved(s, 5 * y + 1) && bi == Moved(s, 5 * y + 2)
    ensures bo == Moved(s, 5 * y + 3) && bu == Moved(s, 5 * y + 4)
  {
    hide Comes, Moved, Mask, Wide;
    ba := Turn(t, d, c0, r0, s, j0, 5 * y, w);
    be := Turn(t, d, c1, r1, s, j1, 5 * y + 1, w);
    bi := Turn(t, d, c2, r2, s, j2, 5 * y + 2, w);
    bo := Turn(t, d, c3, r3, s, j3, 5 * y + 3, w);
    bu := Turn(t, d, c4, r4, s, j4, 5 * y + 4, w);
  }

  /** The ten lines that replace five lanes: chi mixes the turned lanes into row y; iota follows in row 0. */
  method Block(state: array<Bits>, d: seq<Bits>, rc: Bits, c0: nat, r0: nat, c1: nat, r1: nat, c2: nat, r2: nat,
               c3: nat, r3: nat, c4: nat, r4: nat, o0: nat, o1: nat, o2: nat, o3: nat, o4: nat, y: nat,
               ghost s: State, ghost k: nat, ghost w: nat,
               ghost j0: nat, ghost j1: nat, ghost j2: nat, ghost j3: nat, ghost j4: nat)
    requires state.Length == 25 && Wide(s, w) && LaneWidth(w) && |d| == 5
    requires forall x: nat :: x < 5 ==> d[x] == Mask(s, x)
    requires Planned(y, j0, r0, j1, r1, j2, r2, j3, r3, j4, r4) && k < 4 && Half(state[..], s, rc, k, y)
    requires j0 < 25 && j1 < 25 && j2 < 25 && j3 < 25 && j4 < 25
    requires Loc(k, j0) == c0 && Loc(k, j1) == c1 && Loc(k, j2) == c2 && Loc(k, j3) == c3 && Loc(k, j4) == c4
    requires Loc(k + 1, 5 * y) == o0 && Loc(k + 1, 5 * y + 1) == o1 && Loc(k + 1, 5 * y + 2) == o2
    requires Loc(k + 1, 5 * y + 3) == o3 && Loc(k + 1, 5 * y + 4) == o4
    modifies state
    ensures Half(state[..], s, rc, k, y + 1)
  {
    hide Comes, Moved, Xor, AndNot, Mask, Loc, Half, RowAt, Source;
    Reads(state[..], s, rc, k, y);
    PlannedSources(y, j0, r0, j1, r1, j2, r2, j3, r3, j4, r4);
    var ba, be, bi, bo, bu :=
      TurnFive(state[..], d, c0, r0, c1, r1, c2, r2, c3, r3, c4, r4, s, y, w, j0, j1, j2, j3, j4);
    RowApart(k, y);
    ghost var t := state[..];
    state[o0] := Xor(ba, AndNot(be, bi));
    if y == 0 {
      state[o0] := Xor(state[o0], rc);
    }
    state[o1] := Xor(be, AndNot(bi, bo));
    state[o2] := Xor(bi, AndNot(bo, bu));
    state[o3] := Xor(bo, AndNot(bu, ba));
    state[o4] := Xor(bu, AndNot(ba, be));
    assert state[..] == WithRow(t, s, rc, k, y);
    RowDone(t, s, rc, k, y);
  }

  lemma PlannedSources(y: nat, j0: nat, r0: nat, j1: nat, r1: nat, j2: nat, r2: nat, j3: nat, r3: nat, j4: nat, r4: nat)
    requires Planned(y, j0, r0, j1, r1, j2, r2, j3, r3, j4, r4)
    ensures y < 5 && j0 == Source(5 * y) && j1 == Source(5 * y + 1) && j2 == Source(5 * y + 2)
    ensures j3 == Source(5 * y + 3)
    ensures j4 == Source(5 * y + 4)
  {
    hide Source;
  }

  /** The cells of row y still hold what they held before the round. */
  lemma Reads(t: seq<Bits>, s: State, rc: Bits, k: nat, y: nat)
    requires |t| == 25 && |s| == 25 && k < 4 && y < 5 && Half(t, s, rc, k, y)
    ensures t[Loc(k, Source(5 * y))] == s[Source(5 * y)] && Loc(k, Source(5 * y)) % 5 == Source(5 * y) % 5
    ensures t[Loc(k, Source(5 * y + 1))] == s[Source(5 * y + 1)]
    ensures Loc(k, Source(5 * y + 1)) % 5 == Source(5 * y + 1) % 5
    ensures t[Loc(k, Source(5 * y + 2))] == s[Source(5 * y + 2)]
    ensures Loc(k, Source(5 * y + 2)) % 5 == Source(5 * y + 2) % 5
    ensures t[Loc(k, Source(5 * y + 3))] == s[Source(5 * y + 3)]
    ensures Loc(k, Source(5 * y + 3)) % 5 == Source(5 * y + 3) % 5
    ensures t[Loc(k, Source(5 * y + 4))] == s[Source(5 * y + 4)]
    ensures Loc(k, Source(5 * y + 4)) % 5 == Source(5 * y + 4) % 5
  {
    hide Loc, RowAt, Source, NewLane;
    RowCells(k, 5 * y);
    RowCells(k, 5 * y + 1);
    RowCells(k, 5 * y + 2);
    RowCells(k, 5 * y + 3);
    RowCells(k, 5 * y + 4);
  }

  // ------------------------------------------------------------------ one round

  /** The parity of one column, its cells in the order of the rows. */
  method Column(state: array<Bits>, c0: nat, c1: nat, c2: nat, c3: nat, c4: nat, ghost s: State, ghost k: nat,
                ghost x: nat) returns (c: Bits)
    requires state.Length == 25 && |s| == 25 && x < 5 && Placed(state[..], s, k)
    requires c0 == Loc(k, x) && c1 == Loc(k, 5 + x) && c2 == Loc(k, 10 + x) && c3 == Loc(k, 15 + x)
    requires c4 == Loc(k, 20 + x)
    ensures c == Parity(s, x)
  {
    hide Loc, Xor;
    c := Xor(Xor(Xor(Xor(state[c0], state[c1]), state[c2]), state[c3]), state[c4]);
  }

  lemma Begun(t: seq<Bits>, s: State, rc: Bits, k: nat)
    requires |t| == 25 && |s| == 25 && Placed(t, s, k)
    ensures Half(t, s, rc, k, 0)
  {
    hide Loc, Source, NewLane;
  }

  lemma Ended(t: seq<Bits>, s: State, rc: Bits, k: nat)
    requires |t| == 25 && |s| == 25 && Half(t, s, rc, k, 5)
    ensures Placed(t, Round(s, rc), k + 1)
  {
    hide Loc, Source, RowLane, Round, Xor;
    var r := Round(s, rc);
    forall i: nat | i < 25 ensures t[Loc(k + 1, i)] == r[i] {
      RoundAt(s, rc, i);
    }
  }

  // the tables once more, cell by cell

  lemma Places0()
    ensures Loc(0, 0) == 0 && Loc(0, 1) == 1 && Loc(0, 2) == 2 && Loc(0, 3) == 3 && Loc(0, 4) == 4
    ensures Loc(0, 5) == 5 && Loc(0, 6) == 6 && Loc(0, 7) == 7 && Loc(0, 8) == 8 && Loc(0, 9) == 9
    ensures Loc(0, 10) == 10 && Loc(0, 11) == 11 && Loc(0, 12) == 12 && Loc(0, 13) == 13 && Loc(0, 14) == 14
    ensures Loc(0, 15) == 15 && Loc(0, 16) == 16 && Loc(0, 17) == 17 && Loc(0, 18) == 18 && Loc(0, 19) == 19
    ensures Loc(0, 20) == 20 && Loc(0, 21) == 21 && Loc(0, 22) == 22 && Loc(0, 23) == 23 && Loc(0, 24) == 24
  {
  }

  lemma Places1()
    ensures Loc(1, 0) == 0 && Loc(1, 1) == 6 && Loc(1, 2) == 12 && Loc(1, 3) == 18 && Loc(1, 4) == 24
    ensures Loc(1, 5) == 10 && Loc(1, 6) == 16 && Loc(1, 7) == 22 && Loc(1, 8) == 3 && Loc(1, 9) == 9
    ensures Loc(1, 10) == 20 && Loc(1, 11) == 1 && Loc(1, 12) == 7 && Loc(1, 13) == 13 && Loc(1, 14) == 19
    ensures Loc(1, 15) == 5 && Loc(1, 16) == 11 && Loc(1, 17) == 17 && Loc(1, 18) == 23 && Loc(1, 19) == 4
    ensures Loc(1, 20) == 15 && Loc(1, 21) == 21 && Loc(1, 22) == 2 && Loc(1, 23) == 8 && Loc(1, 24) == 14
  {
    hide Loc1;
    Upper1();
    Lower1();
  }

  lemma Upper1()
    ensures Loc1(0) == 0 && Loc1(1) == 6 && Loc1(2) == 12 && Loc1(3) == 18 && Loc1(4) == 24
    ensures Loc1(5) == 10 && Loc1(6) == 16 && Loc1(7) == 22 && Loc1(8) == 3 && Loc1(9) == 9
  {
  }

  lemma Lower1()
    ensures Loc1(10) == 20 && Loc1(11) == 1 && Loc1(12) == 7 && Loc1(13) == 13 && Loc1(14) == 19
    ensures Loc1(15) == 5 && Loc1(16) == 11 && Loc1(17) == 17 && Loc1(18) == 23 && Loc1(19) == 4
    ensures Loc1(20) == 15 && Loc1(21) == 21 && Loc1(22) == 2 && Loc1(23) == 8 && Loc1(24) == 14
  {
  }

  lemma Places2()
    ensures Loc(2, 0) == 0 && Loc(2, 1) == 16 && Loc(2, 2) == 7 && Loc(2, 3) == 23 && Loc(2, 4) == 14
    ensures Loc(2, 5) == 20 && Loc(2, 6) == 11 && Loc(2, 7) == 2 && Loc(2, 8) == 18 && Loc(2, 9) == 9
    ensures Loc(2, 10) == 15 && Loc(2, 11) == 6 && Loc(2, 12) == 22 && Loc(2, 13) == 13 && Loc(2, 14) == 4
    ensures Loc(2, 15) == 10 && Loc(2, 16) == 1 && Loc(2, 17) == 17 && Loc(2, 18) == 8 && Loc(2, 19) == 24
    ensures Loc(2, 20) == 5 && Loc(2, 21) == 21 && Loc(2, 22) == 12 && Loc(2, 23) == 3 && Loc(2, 24) == 19
  {
    hide Loc2;
    Upper2();
    Lower2();
  }

  lemma Upper2()
    ensures Loc2(0) == 0 && Loc2(1) == 16 && Loc2(2) == 7 && Loc2(3) == 23 && Loc2(4) == 14
    ensures Loc2(5) == 20 && Loc2(6) == 11 && Loc2(7) == 2 && Loc2(8) == 18 && Loc2(9) == 9
  {
  }

  lemma Lower2()
    ensures Loc2(10) == 15 && Loc2(11) == 6 && Loc2(12) == 22 && Loc2(13) == 13 && Loc2(14) == 4
    ensures Loc2(15) == 10 && Loc2(16) == 1 && Loc2(17) == 17 && Loc2(18) == 8 && Loc2(19) == 24
    ensures Loc2(20) == 5 && Loc2(21) == 21 && Loc2(22) == 12 && Loc2(23) == 3 && Loc2(24) == 19
  {
  }

  lemma Places3()
    ensures Loc(3, 0) == 0 && Loc(3, 1) == 11 && Loc(3, 2) == 22 && Loc(3, 3) == 8 && Loc(3, 4) == 19
    ensures Loc(3, 5) == 15 && Loc(3, 6) == 1 && Loc(3, 7) == 12 && Loc(3, 8) == 23 && Loc(3, 9) == 9
    ensures Loc(3, 10) == 5 && Loc(3, 11) == 16 && Loc(3, 12) == 2 && Loc(3, 13) == 13 && Loc(3, 14) == 24
    ensures Loc(3, 15) == 20 && Loc(3, 16) == 6 && Loc(3, 17) == 17 && Loc(3, 18) == 3 && Loc(3, 19) == 14
    ensures Loc(3, 20) == 10 && Loc(3, 21) == 21 && Loc(3, 22) == 7 && Loc(3, 23) == 18 && Loc(3, 24) == 4
  {
    hide Loc3;
    Upper3();
    Lower3();
  }

  lemma Upper3()
    ensures Loc3(0) == 0 && Loc3(1) == 11 && Loc3(2) == 22 && Loc3(3) == 8 && Loc3(4) == 19
    ensures Loc3(5) == 15 && Loc3(6) == 1 && Loc3(7) == 12 && Loc3(8) == 23 && Loc3(9) == 9
  {
  }

  lemma Lower3()
    ensures Loc3(10) == 5 && Loc3(11) == 16 && Loc3(12) == 2 && Loc3(13) == 13 && Loc3(14) == 24
    ensures Loc3(15) == 20 && Loc3(16) == 6 && Loc3(17) == 17 && Loc3(18) == 3 && Loc3(19) == 14
    ensures Loc3(20) == 10 && Loc3(21) == 21 && Loc3(22) == 7 && Loc3(23) == 18 && Loc3(24) == 4
  {
  }

  lemma Places4()
    ensures Loc(4, 0) == 0 && Loc(4, 1) == 1 && Loc(4, 2) == 2 && Loc(4, 3) == 3 && Loc(4, 4) == 4
    ensures Loc(4, 5) == 5 && Loc(4, 6) == 6 && Loc(4, 7) == 7 && Loc(4, 8) == 8 && Loc(4, 9) == 9
    ensures Loc(4, 10) == 10 && Loc(4, 11) == 11 && Loc(4, 12) == 12 && Loc(4, 13) == 13 && Loc(4, 14) == 14
    ensures Loc(4, 15) == 15 && Loc(4, 16) == 16 && Loc(4, 17) == 17 && Loc(4, 18) == 18 && Loc(4, 19) == 19
    ensures Loc(4, 20) == 20 && Loc(4, 21) == 21 && Loc(4, 22) == 22 && Loc(4, 23) == 23 && Loc(4, 24) == 24
  {
  }

  method FirstRound(state: array<Bits>, rc: Bits, ghost s: State, ghost w: nat)
    requires state.Length == 25 && LaneWidth(w) && Wide(s, w) && Placed(state[..], s, 0)
    modifies state
    ensures Placed(state[..], Round(s, rc), 1)
  {
    hide Placed, Half, Parity, Mask, Planned, Source, Round, Loc;
    Places0();
    Places1();
    var ca := Column(state, 0, 5, 10, 15, 20, s, 0, 0);
    var ce := Column(state, 1, 6, 11, 16, 21, s, 0, 1);
    var ci := Column(state, 2, 7, 12, 17, 22, s, 0, 2);
    var co := Column(state, 3, 8, 13, 18, 23, s, 0, 3);
    var cu := Column(state, 4, 9, 14, 19, 24, s, 0, 4);
    var d := MasksFrom(ca, ce, ci, co, cu, s, w);
    Begun(state[..], s, rc, 0);
    PlanB();
    Block(state, d, rc, 0, 0, 6, 44, 12, 43, 18, 21, 24, 14, 0, 6, 12, 18, 24, 0, s, 0, w, 0, 6, 12, 18, 24);
    PlanG();
    Block(state, d, rc, 3, 28, 9, 20, 10, 3, 16, 45, 22, 61, 10, 16, 22, 3, 9, 1, s, 0, w, 3, 9, 10, 16, 22);
    PlanK();
    Block(state, d, rc, 1, 1, 7, 6, 13, 25, 19, 8, 20, 18, 20, 1, 7, 13, 19, 2, s, 0, w, 1, 7, 13, 19, 20);
    PlanM();
    Block(state, d, rc, 4, 27, 5, 36, 11, 10, 17, 15, 23, 56, 5, 11, 17, 23, 4, 3, s, 0, w, 4, 5, 11, 17, 23);
    PlanS();
    Block(state, d, rc, 2, 62, 8, 55, 14, 39, 15, 41, 21, 2, 15, 21, 2, 8, 14, 4, s, 0, w, 2, 8, 14, 15, 21);
    Ended(state[..], s, rc, 0);
  }

  method SecondRound(state: array<Bits>, rc: Bits, ghost s: State, ghost w: nat)
    requires state.Length == 25 && LaneWidth(w) && Wide(s, w) && Placed(state[..], s, 1)
    modifies state
    ensures Placed(state[..], Round(s, rc), 2)
  {
    hide Placed, Half, Parity, Mask, Planned, Source, Round, Loc;
    Places1();
    Places2();
    var ca := Column(state, 0, 10, 20, 5, 15, s, 1, 0);
    var ce := Column(state, 6, 16, 1, 11, 21, s, 1, 1);
    var ci := Column(state, 12, 22, 7, 17, 2, s, 1, 2);
    var co := Column(state, 18, 3, 13, 23, 8, s, 1, 3);
    var cu := Column(state, 24, 9, 19, 4, 14, s, 1, 4);
    var d := MasksFrom(ca, ce, ci, co, cu, s, w);
    Begun(state[..], s, rc, 1);
    PlanB();
    Block(state, d, rc, 0, 0, 16, 44, 7, 43, 23, 21, 14, 14, 0, 16, 7, 23, 14, 0, s, 1, w, 0, 6, 12, 18, 24);
    PlanG();
    Block(state, d, rc, 18, 28, 9, 20, 20, 3, 11, 45, 2, 61, 20, 11, 2, 18, 9, 1, s, 1, w, 3, 9, 10, 16, 22);
    PlanK();
    Block(state, d, rc, 6, 1, 22, 6, 13, 25, 4, 8, 15, 18, 15, 6, 22, 13, 4, 2, s, 1, w, 1, 7, 13, 19, 20);
    PlanM();
    Block(state, d, rc, 24, 27, 10, 36, 1, 10, 17, 15, 8, 56, 10, 1, 17, 8, 24, 3, s, 1, w, 4, 5, 11, 17, 23);
    PlanS();
    Block(state, d, rc, 12, 62, 3, 55, 19, 39, 5, 41, 21, 2, 5, 21, 12, 3, 19, 4, s, 1, w, 2, 8, 14, 15, 21);
    Ended(state[..], s, rc, 1);
  }

  method ThirdRound(state: array<Bits>, rc: Bits, ghost s: State, ghost w: nat)
    requires state.Length == 25 && LaneWidth(w) && Wide(s, w) && Placed(state[..], s, 2)
    modifies state
    ensures Placed(state[..], Round(s, rc), 3)
  {
    hide Placed, Half, Parity, Mask, Planned, Source, Round, Loc;
    Places2();
    Places3();
    var ca := Column(state, 0, 20, 15, 10, 5, s, 2, 0);
    var ce := Column(state, 16, 11, 6, 1, 21, s, 2, 1);
    var ci := Column(state, 7, 2, 22, 17, 12, s, 2, 2);
    var co := Column(state, 23, 18, 13, 8, 3, s, 2, 3);
    var cu := Column(state, 14, 9, 4, 24, 19, s, 2, 4);
    var d := MasksFrom(ca, ce, ci, co, cu, s, w);
    Begun(state[..], s, rc, 2);
    PlanB();
    Block(state, d, rc, 0, 0, 11, 44, 22, 43, 8, 21, 19, 14, 0, 11, 22, 8, 19, 0, s, 2, w, 0, 6, 12, 18, 24);
    PlanG();
    Block(state, d, rc, 23, 28, 9, 20, 15, 3, 1, 45, 12, 61, 15, 1, 12, 23, 9, 1, s, 2, w, 3, 9, 10, 16, 22);
    PlanK();
    Block(state, d, rc, 16, 1, 2, 6, 13, 25, 24, 8, 5, 18, 5, 16, 2, 13, 24, 2, s, 2, w, 1, 7, 13, 19, 20);
    PlanM();
    Block(state, d, rc, 14, 27, 20, 36, 6, 10, 17, 15, 3, 56, 20, 6, 17, 3, 14, 3, s, 2, w, 4, 5, 11, 17, 23);
    PlanS();
    Block(state, d, rc, 7, 62, 18, 55, 4, 39, 10, 41, 21, 2, 10, 21, 7, 18, 4, 4, s, 2, w, 2, 8, 14, 15, 21);
    Ended(state[..], s, rc, 2);
  }

  method FourthRound(state: array<Bits>, rc: Bits, ghost s: State, ghost w: nat)
    requires state.Length == 25 && LaneWidth(w) && Wide(s, w) && Placed(state[..], s, 3)
    modifies state
    ensures Placed(state[..], Round(s, rc), 4)
  {
    hide Placed, Half, Parity, Mask, Planned, Source, Round, Loc;
    Places3();
    Places4();
    var ca := Column(state, 0, 15, 5, 20, 10, s, 3, 0);
    var ce := Column(state, 11, 1, 16, 6, 21, s, 3, 1);
    var ci := Column(state, 22, 12, 2, 17, 7, s, 3, 2);
    var co := Column(state, 8, 23, 13, 3, 18, s, 3, 3);
    var cu := Column(state, 19, 9, 24, 14, 4, s, 3, 4);
    var d := MasksFrom(ca, ce, ci, co, cu, s, w);
    Begun(state[..], s, rc, 3);
    PlanB();
    Block(state, d, rc, 0, 0, 1, 44, 2, 43, 3, 21, 4, 14, 0, 1, 2, 3, 4, 0, s, 3, w, 0, 6, 12, 18, 24);
    PlanG();
    Block(state, d, rc, 8, 28, 9, 20, 5, 3, 6, 45, 7, 61, 5, 6, 7, 8, 9, 1, s, 3, w, 3, 9, 10, 16, 22);
    PlanK();
    Block(state, d, rc, 11, 1, 12, 6, 13, 25, 14, 8, 10, 18, 10, 11, 12, 13, 14, 2, s, 3, w, 1, 7, 13, 19, 20);
    PlanM();
    Block(state, d, rc, 19, 27, 15, 36, 16, 10, 17, 15, 18, 56, 15, 16, 17, 18, 19, 3, s, 3, w, 4, 5, 11, 17, 23);
    PlanS();
    Block(state, d, rc, 22, 62, 23, 55, 24, 39, 20, 41, 21, 2, 20, 21, 22, 23, 24, 4, s, 3, w, 2, 8, 14, 15, 21);
    Ended(state[..], s, rc, 3);
  }

  // ------------------------------------------------------------------ the permutation

  /** Four rounds: the lanes wander through the storage and come back. */
  method FourRounds(state: array<Bits>, round: nat)
    requires state.Length == 25 && Wide(state[..], 64) && round + 4 <= 24
    modifies state
    ensures var two := Round(Round(old(state[..]), RC(round, 64)), RC(round + 1, 64));
      state[..] == Round(Round(two, RC(round + 2, 64)), RC(round + 3, 64))
  {
    hide Round, RC, Wide, Placed;
    ghost var s0 := state[..];
    InOrder(s0, s0, 0);
    var rc0 := ConstantOf(round, 64);
    FirstRound(state, rc0, s0, 64);
    ghost var s1 := Round(s0, RC(round, 64));
    WideRound(s0, RC(round, 64), 64);
    var rc1 := ConstantOf(round + 1, 64);
    SecondRound(state, rc1, s1, 64);
    ghost var s2 := Round(s1, RC(round + 1, 64));
    WideRound(s1, RC(round + 1, 64), 64);
    var rc2 := ConstantOf(round + 2, 64);
    ThirdRound(state, rc2, s2, 64);
    ghost var s3 := Round(s2, RC(round + 2, 64));
    WideRound(s2, RC(round + 2, 64), 64);
    var rc3 := ConstantOf(round + 3, 64);
    FourthRound(state, rc3, s3, 64);
    InOrder(state[..], Round(s3, RC(round + 3, 64)), 4);
  }

  /** KeccakF of Keccak-inplace.c, for lanes of 64 bits. */
  method KeccakF(state: array<Bits>, input: seq<Bits>, laneCount: nat)
    requires state.Length == 25 && Wide(state[..], 64) && laneCount <= 25 && laneCount <= |input|
    modifies state
    ensures state[..] == Permutation(Absorbed(old(state[..]), input[..laneCount]), 64) && Wide(state[..], 64)
    ensures Fips202.Permuted(old(state[..]), input[..laneCount], state[..], 64)
  {
    hide Round, RC, Xor;
    ghost var s0 := state[..];
    XorLanes(state, input, laneCount);
    ghost var a := state[..];
    assert a == Absorbed(s0, input[..laneCount]);
    WideRounds(a, 64, 0);
    var i := 0;
    while i < 24
      invariant 0 <= i <= 24 && i % 4 == 0 && state[..] == RoundsOf(a, 64, i) && Wide(state[..], 64)
    {
      FourRounds(state, i);
      FourMore(a, i);
      WideRounds(a, 64, i + 4);
      i := i + 4;
    }
    Fips202.IsPermuted(s0, input[..laneCount], 64);
  }

  lemma FourMore(a: State, i: nat)
    requires |a| == 25 && i + 4 <= 24
    ensures RoundsOf(a, 64, i + 4) ==
      Round(Round(Round(Round(RoundsOf(a, 64, i), RC(i, 64)), RC(i + 1, 64)), RC(i + 2, 64)), RC(i + 3, 64))
  {
    hide Round, RC;
    assert RoundsOf(a, 64, i + 1) == Round(RoundsOf(a, 64, i), RC(i, 64));
    assert RoundsOf(a, 64, i + 2) == Round(RoundsOf(a, 64, i + 1), RC(i + 1, 64));
    assert RoundsOf(a, 64, i + 3) == Round(RoundsOf(a, 64, i + 2), RC(i + 2, 64));
  }
}
