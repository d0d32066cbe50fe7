/** KeccakF-1600-opt32.c: lanes kept as two words, the even bits in the one and the odd bits in the other. */
module Interleaving {
  // ------------------------------------------------------------------ the swaps

  function Swap1(x: bv64): bv64 {
    var t := (x ^ (x >> 1)) & 0x2222222222222222;
    x ^ t ^ (t << 1)
  }

  function Swap2(x: bv64): bv64 {
    var t := (x ^ (x >> 2)) & 0x0C0C0C0C0C0C0C0C;
    x ^ t ^ (t << 2)
  }

  function Swap4(x: bv64): bv64 {
    var t := (x ^ (x >> 4)) & 0x00F000F000F000F0;
    x ^ t ^ (t << 4)
  }

  function Swap8(x: bv64): bv64 {
    var t := (x ^ (x >> 8)) & 0x0000FF000000FF00;
    x ^ t ^ (t << 8)
  }

  function Swap16(x: bv64): bv64 {
    var t := (x ^ (x >> 16)) & 0x00000000FFFF0000;
    x ^ t ^ (t << 16)
  }

  function ToInterleaving(x: bv64): bv64 {
    Swap16(Swap8(Swap4(Swap2(Swap1(x)))))
  }

  function FromInterleaving(x: bv64): bv64 {
    Swap1(Swap2(Swap4(Swap8(Swap16(x)))))
  }

  lemma SwapTwice(x: bv64)
    ensures Swap1(Swap1(x)) == x && Swap2(Swap2(x)) == x && Swap4(Swap4(x)) == x
    ensures Swap8(Swap8(x)) == x && Swap16(Swap16(x)) == x
  {
  }

  /** The two are inverse to each other, on every word. */
  lemma Inverse(x: bv64)
    ensures FromInterleaving(ToInterleaving(x)) == x && ToInterleaving(FromInterleaving(x)) == x
  {
    hide Swap1, Swap2, Swap4, Swap8, Swap16;
    SwapTwice(x);
    SwapTwice(Swap1(x));
    SwapTwice(Swap2(Swap1(x)));
    SwapTwice(Swap4(Swap2(Swap1(x))));
    SwapTwice(Swap8(Swap4(Swap2(Swap1(x)))));
    SwapTwice(Swap16(x));
    SwapTwice(Swap8(Swap16(x)));
    SwapTwice(Swap4(Swap8(Swap16(x))));
    SwapTwice(Swap2(Swap4(Swap8(Swap16(x)))));
  }

  function Xor(x: bv64, y: bv64): bv64 {
    x ^ y
  }

  lemma Swap1Linear(x: bv64, y: bv64)
    ensures Swap1(x ^ y) == Swap1(x) ^ Swap1(y)
  {
  }

  lemma Swap1Xor(x: bv64, y: bv64)
    ensures Swap1(Xor(x, y)) == Xor(Swap1(x), Swap1(y))
  {
    hide Swap1;
    Swap1Linear(x, y);
  }

  lemma Swap2Linear(x: bv64, y: bv64)
    ensures Swap2(x ^ y) == Swap2(x) ^ Swap2(y)
  {
  }

  lemma Swap2Xor(x: bv64, y: bv64)
    ensures Swap2(Xor(x, y)) == Xor(Swap2(x), Swap2(y))
  {
    hide Swap2;
    Swap2Linear(x, y);
  }

  lemma Swap4Linear(x: bv64, y: bv64)
    ensures Swap4(x ^ y) == Swap4(x) ^ Swap4(y)
  {
  }

  lemma Swap4Xor(x: bv64, y: bv64)
    ensures Swap4(Xor(x, y)) == Xor(Swap4(x), Swap4(y))
  {
    hide Swap4;
    Swap4Linear(x, y);
  }

  lemma Swap8Linear(x: bv64, y: bv64)
    ensures Swap8(x ^ y) == Swap8(x) ^ Swap8(y)
  {
  }

  lemma Swap8Xor(x: bv64, y: bv64)
    ensures Swap8(Xor(x, y)) == Xor(Swap8(x), Swap8(y))
  {
    hide Swap8;
    Swap8Linear(x, y);
  }

  lemma Swap16Linear(x: bv64, y: bv64)
    ensures Swap16(x ^ y) == Swap16(x) ^ Swap16(y)
  {
  }

  lemma Swap16Xor(x: bv64, y: bv64)
    ensures Swap16(Xor(x, y)) == Xor(Swap16(x), Swap16(y))
  {
    hide Swap16;
    Swap16Linear(x, y);
  }

  /** Both commute with XOR. */
  lemma Linear(x: bv64, y: bv64)
    ensures ToInterleaving(Xor(x, y)) == Xor(ToInterleaving(x), ToInterleaving(y))
    ensures FromInterleaving(Xor(x, y)) == Xor(FromInterleaving(x), FromInterleaving(y))
  {
    hide Xor, Swap1, Swap2, Swap4, Swap8, Swap16;
    Swap1Xor(x, y);
    Swap2Xor(Swap1(x), Swap1(y));
    Swap4Xor(Swap2(Swap1(x)), Swap2(Swap1(y)));
    Swap8Xor(Swap4(Swap2(Swap1(x))), Swap4(Swap2(Swap1(y))));
    Swap16Xor(Swap8(Swap4(Swap2(Swap1(x)))), Swap8(Swap4(Swap2(Swap1(y)))));
    Swap16Xor(x, y);
    Swap8Xor(Swap16(x), Swap16(y));
    Swap4Xor(Swap8(Swap16(x)), Swap8(Swap16(y)));
    Swap2Xor(Swap4(Swap8(Swap16(x))), Swap4(Swap8(Swap16(y))));
    Swap1Xor(Swap2(Swap4(Swap8(Swap16(x)))), Swap2(Swap4(Swap8(Swap16(y)))));
  }

  /** Bit i of a word. */
  function Bit(x: bv64, i: bv64): bv64
    requires i < 64
  {
    (x >> i) & 1
  }

  /** Even bits go to the low word and odd bits to the high word, in order. */
  lemma Placed(x: bv64, i: bv64)
    requires i < 32
    ensures Bit(ToInterleaving(x), i) == Bit(x, 2 * i)
    ensures Bit(ToInterleaving(x), i + 32) == Bit(x, 2 * i + 1)
  {
  }

  // ------------------------------------------------------------------ two words

  function Low(x: bv64): bv32 {
    (x & 0xFFFF_FFFF) as bv32
  }

  function High(x: bv64): bv32 {
    (x >> 32) as bv32
  }

  function Both(low: bv32, high: bv32): bv64 {
    low as bv64 | ((high as bv64) << 32)
  }

  // The steps of the two-word macro, on one word.

  function Step1(x: bv32): bv32 {
    var t := (x ^ (x >> 1)) & 0x22222222;
    x ^ t ^ (t << 1)
  }

  lemma Step1Halves(x: bv64)
    ensures Low(Swap1(x)) == Step1(Low(x)) && High(Swap1(x)) == Step1(High(x))
  {
  }

  function Step2(x: bv32): bv32 {
    var t := (x ^ (x >> 2)) & 0x0C0C0C0C;
    x ^ t ^ (t << 2)
  }

  lemma Step2Halves(x: bv64)
    ensures Low(Swap2(x)) == Step2(Low(x)) && High(Swap2(x)) == Step2(High(x))
  {
  }

  function Step4(x: bv32): bv32 {
    var t := (x ^ (x >> 4)) & 0x00F000F0;
    x ^ t ^ (t << 4)
  }

  lemma Step4Halves(x: bv64)
    ensures Low(Swap4(x)) == Step4(Low(x)) && High(Swap4(x)) == Step4(High(x))
  {
  }

  function Step8(x: bv32): bv32 {
    var t := (x ^ (x >> 8)) & 0x0000FF00;
    x ^ t ^ (t << 8)
  }

  lemma Step8Halves(x: bv64)
    ensures Low(Swap8(x)) == Step8(Low(x)) && High(Swap8(x)) == Step8(High(x))
  {
  }

  function Gather(x: bv32): bv32 {
    Step8(Step4(Step2(Step1(x))))
  }

  /** The even bits of two gathered words. */
  function Evens(g0: bv32, g1: bv32): bv32 {
    (g0 & 0xFFFF) | (g1 << 16)
  }

  function Odds(g0: bv32, g1: bv32): bv32 {
    (g0 >> 16) | (g1 & 0xFFFF0000)
  }

  lemma LastSwap(x: bv64)
    ensures Evens(Low(x), High(x)) == Low(Swap16(x)) && Odds(Low(x), High(x)) == High(Swap16(x))
  {
  }

  /** What xorInterleavedLE XORs into the even and the odd word is what toInterleaving gives. */
  lemma TwoWords(x: bv64)
    ensures Evens(Gather(Low(x)), Gather(High(x))) == Low(ToInterleaving(x))
    ensures Odds(Gather(Low(x)), Gather(High(x))) == High(ToInterleaving(x))
  {
    hide Swap1, Swap2, Swap4, Swap8, Swap16, Step1, Step2, Step4, Step8, Low, High, Evens, Odds;
    Step1Halves(x);
    Step2Halves(Swap1(x));
    Step4Halves(Swap2(Swap1(x)));
    Step8Halves(Swap4(Swap2(Swap1(x))));
    LastSwap(Swap8(Swap4(Swap2(Swap1(x)))));
  }

  lemma BothHalves(low: bv32, high: bv32)
    ensures Low(Both(low, high)) == low && High(Both(low, high)) == high
  {
  }

  // ------------------------------------------------------------------ states of words

  /** Lane k of a state of interleaved words. */
  function Lane(s: seq<bv32>, k: nat): bv64
    requires 2 * k + 1 < |s|
  {
    FromInterleaving(Both(s[2 * k], s[2 * k + 1]))
  }

  function Xor32(x: bv32, y: bv32): bv32 {
    x ^ y
  }

  lemma XorBoth(even: bv32, odd: bv32, t: bv64)
    ensures Both(Xor32(even, Low(t)), Xor32(odd, High(t))) == Xor(Both(even, odd), t)
  {
  }

  /** A lane with another XORed into its two words. */
  lemma XoredLane(even: bv32, odd: bv32, x: bv64)
    ensures var t := ToInterleaving(x);
      FromInterleaving(Both(Xor32(even, Low(t)), Xor32(odd, High(t)))) == Xor(FromInterleaving(Both(even, odd)), x)
  {
    hide ToInterleaving, FromInterleaving, Low, High, Both, Xor, Xor32;
    var t := ToInterleaving(x);
    XorBoth(even, odd, t);
    Linear(Both(even, odd), t);
    Inverse(x);
  }

  /** One lane of input XORed into its two words. */
  method XorLane(state: array<bv32>, k: nat, x: bv64)
    requires 2 * k + 1 < state.Length
    modifies state
    ensures Lane(state[..], k) == Xor(Lane(old(state[..]), k), x)
    ensures forall j :: 0 <= j < state.Length && j != 2 * k && j != 2 * k + 1 ==> state[j] == old(state[j])
  {
    hide Low, High, Both, ToInterleaving, FromInterleaving, Xor, Xor32;
    var evenAndOddWord := ToInterleaving(x);
    XoredLane(state[2 * k], state[2 * k + 1], x);
    state[2 * k] := Xor32(state[2 * k], Low(evenAndOddWord));
    state[2 * k + 1] := Xor32(state[2 * k + 1], High(evenAndOddWord));
  }

  /** The same by the two-word macro. */
  method XorLaneLE(state: array<bv32>, k: nat, i0: bv32, i1: bv32)
    requires 2 * k + 1 < state.Length
    modifies state
    ensures Lane(state[..], k) == Xor(Lane(old(state[..]), k), Both(i0, i1))
    ensures forall j :: 0 <= j < state.Length && j != 2 * k && j != 2 * k + 1 ==> state[j] == old(state[j])
  {
    hide Low, High, Both, ToInterleaving, FromInterleaving, Gather, Evens, Odds, Xor, Xor32;
    var x0, x1 := Gather(i0), Gather(i1);
    BothHalves(i0, i1);
    TwoWords(Both(i0, i1));
    XoredLane(state[2 * k], state[2 * k + 1], Both(i0, i1));
    state[2 * k] := Xor32(state[2 * k], Evens(x0, x1));
    state[2 * k + 1] := Xor32(state[2 * k + 1], Odds(x0, x1));
  }

  /** xorLanesIntoState: every lane of the input is XORed into its lane of the state. */
  method XorLanesIntoState(laneCount: nat, state: array<bv32>, input: seq<bv64>)
    requires laneCount <= |input| && 2 * laneCount <= state.Length
    modifies state
    ensures forall k: nat :: k < laneCount ==> Lane(state[..], k) == Xor(Lane(old(state[..]), k), input[k])
    ensures state[2 * laneCount..] == old(state[2 * laneCount..])
  {
    hide Lane, Xor;
    ghost var s0 := state[..];
    for i := 0 to laneCount
      invariant forall k: nat :: k < i ==> Lane(state[..], k) == Xor(Lane(s0, k), input[k])
      invariant state[2 * i..] == s0[2 * i..]
    {
      ghost var s := state[..];
      assert s[2 * i] == s0[2 * i..][0] && s[2 * i + 1] == s0[2 * i..][1];
      SameLane(s, s0, i);
      XorLane(state, i, input[i]);
      forall k: nat | k < i ensures Lane(state[..], k) == Lane(s, k) {
        SameLane(state[..], s, k);
      }
      assert s[2 * i..][2..] == s0[2 * i..][2..];
      assert state[2 * (i + 1)..] == s[2 * (i + 1)..];
    }
  }

  /** xorInterleavedLE: the same, two words of input at a time. */
  method XorInterleavedLE(rateInLanes: nat, state: array<bv32>, input: seq<bv32>)
    requires 2 * rateInLanes <= |input| && 2 * rateInLanes <= state.Length
    modifies state
    ensures forall k: nat :: k < rateInLanes ==>
      Lane(state[..], k) == Xor(Lane(old(state[..]), k), Both(input[2 * k], input[2 * k + 1]))
    ensures state[2 * rateInLanes..] == old(state[2 * rateInLanes..])
  {
    hide Lane, Xor, Both;
    ghost var s0 := state[..];
    var i := rateInLanes - 1;
    var at := 0;
    while i >= 0
      invariant -1 <= i < rateInLanes && at == rateInLanes - 1 - i
      invariant forall k: nat :: k < at ==> Lane(state[..], k) == Xor(Lane(s0, k), Both(input[2 * k], input[2 * k + 1]))
      invariant state[2 * at..] == s0[2 * at..]
    {
      ghost var s := state[..];
      assert s[2 * at] == s0[2 * at..][0] && s[2 * at + 1] == s0[2 * at..][1];
      SameLane(s, s0, at);
      XorLaneLE(state, at, input[2 * at], input[2 * at + 1]);
      forall k: nat | k < at ensures Lane(state[..], k) == Lane(s, k) {
        SameLane(state[..], s, k);
      }
      assert s[2 * at..][2..] == s0[2 * at..][2..];
      assert state[2 * (at + 1)..] == s[2 * (at + 1)..];
      i, at := i - 1, at + 1;
    }
  }

  lemma SameLane(s: seq<bv32>, t: seq<bv32>, k: nat)
    requires 2 * k + 1 < |s| && 2 * k + 1 < |t| && s[2 * k] == t[2 * k] && s[2 * k + 1] == t[2 * k + 1]
    ensures Lane(s, k) == Lane(t, k)
  {
  }

  /** extractLanes: the lanes of the state, in place of the first of the data. */
  method ExtractLanes(laneCount: nat, state: array<bv32>, data: array<bv64>)
    requires 2 * laneCount <= state.Length && laneCount <= data.Length
    modifies data
    ensures forall k: nat :: k < laneCount ==> data[k] == Lane(state[..], k)
    ensures data[laneCount..] == old(data[laneCount..])
  {
    hide FromInterleaving, Both;
    for i := 0 to laneCount
      invariant forall k: nat :: k < i ==> data[k] == Lane(state[..], k)
      invariant data[laneCount..] == old(data[laneCount..])
    {
      data[i] := FromInterleaving(Both(state[2 * i], state[2 * i + 1]));
    }
  }
}
