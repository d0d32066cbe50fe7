/** The round constants: the table of the sources, and the shift register of FIPS 202, algorithm 5. */
module Constants {
  import opened Lanes

  // ------------------------------------------------------------------ the register, section 3.2.5

  /** One step of the register: R[i] is bit i; what leaves at the top is fed back to bits 0, 4, 5 and 6. */
  function Step(r: bv8): bv8 {
    if r & 0x80 != 0 then (r << 1) ^ 0x71 else r << 1
  }

  function Register(t: nat): bv8 {
    if t == 0 then 1 else Step(Register(t - 1))
  }

  function LowBit(r: bv8): (b: nat)
    ensures b == 0 || b == 1
  {
    if r & 1 == 1 then 1 else 0
  }

  /** rc(t), for t below the period 255 of the register. */
  function RcBit(t: nat): (b: nat)
    ensures b == 0 || b == 1
  {
    LowBit(Register(t))
  }

  /** RC[ir] of a lane of w bits: bit 2^j - 1 is rc(j + 7 ir), for all j with 2^j <= w; all other bits are 0. */
  function RC(ir: nat, w: nat): (r: Bits)
    ensures |r| == w
  {
    seq(w, z =>
      if z == 0 then RcBit(7 * ir) == 1
      else if z == 1 then RcBit(7 * ir + 1) == 1
      else if z == 3 then RcBit(7 * ir + 2) == 1
      else if z == 7 then RcBit(7 * ir + 3) == 1
      else if z == 15 then RcBit(7 * ir + 4) == 1
      else if z == 31 then RcBit(7 * ir + 5) == 1
      else if z == 63 then RcBit(7 * ir + 6) == 1
      else false)
  }

  // ------------------------------------------------------------------ the table

  /** KeccakF_RoundConstants and KeccakF1600RoundConstants. */
  function RoundConstant(i: nat): nat {
    match i
    case 0 => 0x0000000000000001 case 1 => 0x0000000000008082 case 2 => 0x800000000000808A
    case 3 => 0x8000000080008000 case 4 => 0x000000000000808B case 5 => 0x0000000080000001
    case 6 => 0x8000000080008081 case 7 => 0x8000000000008009 case 8 => 0x000000000000008A
    case 9 => 0x0000000000000088 case 10 => 0x0000000080008009 case 11 => 0x000000008000000A
    case 12 => 0x000000008000808B case 13 => 0x800000000000008B case 14 => 0x8000000000008089
    case 15 => 0x8000000000008003 case 16 => 0x8000000000008002 case 17 => 0x8000000000000080
    case 18 => 0x000000000000800A case 19 => 0x800000008000000A case 20 => 0x8000000080008081
    case 21 => 0x8000000000008080 case 22 => 0x0000000080000001 case 23 => 0x8000000080008008
    case _ => 0
  }

  /** `(tKeccakLane) c`: the low w bits of a number. */
  function Word(c: nat, w: nat): (r: Bits)
    ensures |r| == w
  {
    if w == 0 then [] else [c % 2 == 1] + Word(c / 2, w - 1)
  }

  /** The number with bits 0, 1, 3, 7, 15, 31 and 63 given. */
  function RcNumber(b0: nat, b1: nat, b2: nat, b3: nat, b4: nat, b5: nat, b6: nat): nat {
    b0 + 2 * (b1 + 4 * (b2 + 16 * (b3 + 0x100 * (b4 + 0x1_0000 * (b5 + 0x1_0000_0000 * b6)))))
  }

  /** The number whose bits the register gives from time t on. */
  function NumberAt(t: nat): nat {
    RcNumber(RcBit(t), RcBit(t + 1), RcBit(t + 2), RcBit(t + 3), RcBit(t + 4), RcBit(t + 5), RcBit(t + 6))
  }

  lemma RegisterNext(t: nat, r: bv8)
    requires Register(t) == r
    ensures Register(t + 1) == Step(r)
  {
  }

  /** Seven steps of the register, and the number whose bits they give. */
  lemma Seven(t: nat, r0: bv8, r1: bv8, r2: bv8, r3: bv8, r4: bv8, r5: bv8, r6: bv8, r7: bv8, c: nat)
    requires Register(t) == r0 && r1 == Step(r0) && r2 == Step(r1) && r3 == Step(r2) && r4 == Step(r3)
    requires r5 == Step(r4) && r6 == Step(r5) && r7 == Step(r6)
    requires c == RcNumber(LowBit(r0), LowBit(r1), LowBit(r2), LowBit(r3), LowBit(r4), LowBit(r5), LowBit(r6))
    ensures Register(t + 7) == r7 && NumberAt(t) == c
  {
    hide Step, Register, LowBit, RcNumber;
    RegisterNext(t, r0);
    RegisterNext(t + 1, r1);
    RegisterNext(t + 2, r2);
    RegisterNext(t + 3, r3);
    RegisterNext(t + 4, r4);
    RegisterNext(t + 5, r5);
    RegisterNext(t + 6, r6);
  }

  /** The register at the start of every round. */
  function Start(i: nat): bv8 {
    match i
    case 0 => 1 case 1 => 128 case 2 => 216 case 3 => 26 case 4 => 223 case 5 => 9 case 6 => 53 case 7 => 79
    case 8 => 202 case 9 => 112 case 10 => 65 case 11 => 236 case 12 => 213 case 13 => 205 case 14 => 99 case 15 => 171
    case 16 => 170 case 17 => 42 case 18 => 242 case 19 => 232 case 20 => 55 case 21 => 62 case 22 => 11 case 23 => 68
    case 24 => 142
    case _ => 0
  }

  lemma Round0(t: nat, ir: nat)
    requires 0 <= ir < 2 && Register(t) == Start(ir)
    ensures Register(t + 7) == Start(ir + 1) && NumberAt(t) == RoundConstant(ir)
  {
    hide Register, NumberAt;
    if ir == 0 {
      Seven(t, 1, 2, 4, 8, 16, 32, 64, 128, 0x0000000000000001);
    } else {
      Seven(t, 128, 113, 226, 181, 27, 54, 108, 216, 0x0000000000008082);
    }
  }

  lemma Round2(t: nat, ir: nat)
    requires 2 <= ir < 4 && Register(t) == Start(ir)
    ensures Register(t + 7) == Start(ir + 1) && NumberAt(t) == RoundConstant(ir)
  {
    hide Register, NumberAt;
    if ir == 2 {
      Seven(t, 216, 193, 243, 151, 95, 190, 13, 26, 0x800000000000808A);
    } else {
      Seven(t, 26, 52, 104, 208, 209, 211, 215, 223, 0x8000000080008000);
    }
  }

  lemma Round4(t: nat, ir: nat)
    requires 4 <= ir < 6 && Register(t) == Start(ir)
    ensures Register(t + 7) == Start(ir + 1) && NumberAt(t) == RoundConstant(ir)
  {
    hide Register, NumberAt;
    if ir == 4 {
      Seven(t, 223, 207, 239, 175, 47, 94, 188, 9, 0x000000000000808B);
    } else {
      Seven(t, 9, 18, 36, 72, 144, 81, 162, 53, 0x0000000080000001);
    }
  }

  lemma Round6(t: nat, ir: nat)
    requires 6 <= ir < 12 && Register(t) == Start(ir)
    ensures Register(t + 7) == Start(ir + 1) && NumberAt(t) == RoundConstant(ir)
  {
    hide Register, NumberAt;
    if ir == 6 {
      Seven(t, 53, 106, 212, 217, 195, 247, 159, 79, 0x8000000080008081);
    } else if ir == 7 {
      Seven(t, 79, 158, 77, 154, 69, 138, 101, 202, 0x8000000000008009);
    } else if ir == 8 {
      Seven(t, 202, 229, 187, 7, 14, 28, 56, 112, 0x000000000000008A);
    } else if ir == 9 {
      Seven(t, 112, 224, 177, 19, 38, 76, 152, 65, 0x0000000000000088);
    } else if ir == 10 {
      Seven(t, 65, 130, 117, 234, 165, 59, 118, 236, 0x0000000080008009);
    } else {
      Seven(t, 236, 169, 35, 70, 140, 105, 210, 213, 0x000000008000000A);
    }
  }

  lemma Round12(t: nat, ir: nat)
    requires 12 <= ir < 18 && Register(t) == Start(ir)
    ensures Register(t + 7) == Start(ir + 1) && NumberAt(t) == RoundConstant(ir)
  {
    hide Register, NumberAt;
    if ir == 12 {
      Seven(t, 213, 219, 199, 255, 143, 111, 222, 205, 0x000000008000808B);
    } else if ir == 13 {
      Seven(t, 205, 235, 167, 63, 126, 252, 137, 99, 0x800000000000008B);
    } else if ir == 14 {
      Seven(t, 99, 198, 253, 139, 103, 206, 237, 171, 0x8000000000008089);
    } else if ir == 15 {
      Seven(t, 171, 39, 78, 156, 73, 146, 85, 170, 0x8000000000008003);
    } else if ir == 16 {
      Seven(t, 170, 37, 74, 148, 89, 178, 21, 42, 0x8000000000008002);
    } else {
      Seven(t, 42, 84, 168, 33, 66, 132, 121, 242, 0x8000000000000080);
    }
  }

  lemma Round18(t: nat, ir: nat)
    requires 18 <= ir < 24 && Register(t) == Start(ir)
    ensures Register(t + 7) == Start(ir + 1) && NumberAt(t) == RoundConstant(ir)
  {
    hide Register, NumberAt;
    if ir == 18 {
      Seven(t, 242, 149, 91, 182, 29, 58, 116, 232, 0x000000000000800A);
    } else if ir == 19 {
      Seven(t, 232, 161, 51, 102, 204, 233, 163, 55, 0x800000008000000A);
    } else if ir == 20 {
      Seven(t, 55, 110, 220, 201, 227, 183, 31, 62, 0x8000000080008081);
    } else if ir == 21 {
      Seven(t, 62, 124, 248, 129, 115, 230, 189, 11, 0x8000000000008080);
    } else if ir == 22 {
      Seven(t, 11, 22, 44, 88, 176, 17, 34, 68, 0x0000000080000001);
    } else {
      Seven(t, 68, 136, 97, 194, 245, 155, 71, 142, 0x8000000080008008);
    }
  }

  lemma {:induction false} Starts(ir: nat)
    requires ir < 24
    ensures Register(7 * ir) == Start(ir)
  {
    if ir > 0 {
      Starts(ir - 1);
      RoundNumber(7 * (ir - 1), ir - 1);
    }
  }

  lemma RoundNumber(t: nat, ir: nat)
    requires ir < 24 && Register(t) == Start(ir)
    ensures Register(t + 7) == Start(ir + 1) && NumberAt(t) == RoundConstant(ir)
  {
    hide Register, NumberAt, Start, RoundConstant;
    if ir < 2 {
      Round0(t, ir);
    } else if ir < 4 {
      Round2(t, ir);
    } else if ir < 6 {
      Round4(t, ir);
    } else if ir < 12 {
      Round6(t, ir);
    } else if ir < 18 {
      Round12(t, ir);
    } else {
      Round18(t, ir);
    }
  }

  // ------------------------------------------------------------------ numbers and words

  function Power(k: nat): nat {
    if k == 0 then 1 else 2 * Power(k - 1)
  }

  lemma HalfPower(b: nat, p: nat, c: nat)
    requires b < 2
    ensures (b + 2 * p * c) % 2 == b && (b + 2 * p * c) / 2 == p * c
  {
    var x := p * c;
    assert 2 * p * c == 2 * x;
  }

  /** A bit, a gap of zeros, and the rest. */
  lemma {:induction false} WordGap(b: nat, k: nat, power: nat, c: nat, w: nat, z: nat)
    requires b < 2 && k >= 1 && power == Power(k) && z < w
    ensures Word(b + power * c, w)[z] == if z == 0 then b == 1 else if z < k then false else Word(c, w - k)[z - k]
  {
    assert power == 2 * Power(k - 1);
    HalfPower(b, Power(k - 1), c);
    if z > 0 {
      assert Word(b + power * c, w)[z] == Word(Power(k - 1) * c, w - 1)[z - 1];
      if k > 1 {
        WordGap(0, k - 1, Power(k - 1), c, w - 1, z - 1);
      }
    }
  }

  /** Two bits with their gaps, and the rest. */
  lemma TwoGaps(b: nat, k: nat, p: nat, c: nat, b': nat, k': nat, p': nat, n: nat, w: nat, z: nat)
    requires b < 2 && b' < 2 && k >= 1 && k' >= 1 && p == Power(k) && p' == Power(k') && c == b' + p' * n && z < w
    ensures Word(b + p * c, w)[z] ==
            if z == 0 then b == 1 else if z < k then false else if z == k then b' == 1 else if z < k + k' then false
            else Word(n, w - k - k')[z - k - k']
  {
    hide Word, Power;
    WordGap(b, k, p, c, w, z);
    if z >= k { WordGap(b', k', p', n, w - k, z - k); }
  }

  lemma NumberBits(b0: nat, b1: nat, b2: nat, b3: nat, b4: nat, b5: nat, b6: nat, w: nat, z: nat)
    requires z < w <= 64 && b0 < 2 && b1 < 2 && b2 < 2 && b3 < 2 && b4 < 2 && b5 < 2 && b6 < 2
    ensures Word(RcNumber(b0, b1, b2, b3, b4, b5, b6), w)[z] ==
            if z == 0 then b0 == 1 else if z == 1 then b1 == 1 else if z == 3 then b2 == 1 else if z == 7 then b3 == 1
            else if z == 15 then b4 == 1 else if z == 31 then b5 == 1 else if z == 63 then b6 == 1 else false
  {
    Powers();
    NumberGaps(b0, b1, b2, b3, b4, b5, b6, w, z);
    if z == 63 { LastBit(b6, w - 63); }
  }

  lemma LastBit(b: nat, w: nat)
    requires b < 2 && w >= 1
    ensures Word(b, w)[0] == (b == 1)
  {
  }

  lemma NumberGaps(b0: nat, b1: nat, b2: nat, b3: nat, b4: nat, b5: nat, b6: nat, w: nat, z: nat)
    requires z < w && b0 < 2 && b1 < 2 && b2 < 2 && b3 < 2 && b4 < 2 && b5 < 2
    requires Power(1) == 2 && Power(2) == 4 && Power(4) == 16 && Power(8) == 0x100 && Power(16) == 0x1_0000
    requires Power(32) == 0x1_0000_0000
    ensures Word(RcNumber(b0, b1, b2, b3, b4, b5, b6), w)[z] ==
            if z == 0 then b0 == 1 else if z == 1 then b1 == 1 else if z == 3 then b2 == 1 else if z == 7 then b3 == 1
            else if z == 15 then b4 == 1 else if z == 31 then b5 == 1 else if z < 63 then false
            else Word(b6, w - 63)[z - 63]
  {
    hide Word, Power;
    var n6 := b5 + 0x1_0000_0000 * b6;
    var n4 := b4 + 0x1_0000 * n6;
    var n3 := b3 + 0x100 * n4;
    var n2 := b2 + 16 * n3;
    var n1 := b1 + 4 * n2;
    TwoGaps(b0, 1, 2, n1, b1, 2, 4, n2, w, z);
    if z >= 3 { TwoGaps(b2, 4, 16, n3, b3, 8, 0x100, n4, w - 3, z - 3); }
    if z >= 15 { TwoGaps(b4, 16, 0x1_0000, n6, b5, 32, 0x1_0000_0000, b6, w - 15, z - 15); }
  }

  lemma Powers()
    ensures Power(1) == 2 && Power(2) == 4 && Power(4) == 16 && Power(8) == 0x100 && Power(16) == 0x1_0000
    ensures Power(32) == 0x1_0000_0000
  {
    assert Power(16) == 0x1_0000;
    assert Power(24) == 0x100_0000;
  }

  /** The table holds the round constants of the standard, truncated to the lane. */
  lemma TableIsStandard(ir: nat, w: nat)
    requires ir < 24 && w <= 64
    ensures Word(RoundConstant(ir), w) == RC(ir, w)
  {
    hide Register, RoundConstant, Start, Word, RcNumber, RcBit;
    Starts(ir);
    RoundNumber(7 * ir, ir);
    var t := 7 * ir;
    forall z | 0 <= z < w ensures Word(RoundConstant(ir), w)[z] == RC(ir, w)[z] {
      NumberBits(RcBit(t), RcBit(t + 1), RcBit(t + 2), RcBit(t + 3), RcBit(t + 4), RcBit(t + 5), RcBit(t + 6), w, z);
    }
  }
}
