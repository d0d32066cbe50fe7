/** KeccakDuplex.c: the duplex object. */
module Duplex {
  import opened BitArrays
  import opened Lanes
  import Sponge

  const WIDTH := 1600
  const LANE := 64
  const TWO32 := 0x1_0000_0000

  /** The longest input of a call, in unsigned 32-bit arithmetic. */
  function RhoMax(rate: nat): int {
    (rate - 2) % TWO32
  }

  /** Each input padded to a block of its own. */
  function Blocks(inputs: seq<Bits>, r: nat): (p: Bits)
    requires 2 <= r
  {
    if inputs == [] then []
    else
      var last := inputs[|inputs| - 1];
      Blocks(inputs[..|inputs| - 1], r) + last + Sponge.Pad(r, |last|)
  }

  /** The bound is the one the documentation gives, two bits less than a block, exactly when the rate is not 1. */
  lemma RhoMaxRight(rate: nat)
    requires 0 < rate <= WIDTH
    ensures RhoMax(rate) == rate - 2 <==> rate != 1
  {
    if rate == 1 { RateOne(); }
  }

  /** For the rate 1 that InitDuplex accepts, the bound wraps to more than the block has room for. */
  lemma RateOne()
    ensures RhoMax(1) == TWO32 - 1 > WIDTH
  {
    assert (1 - 2) % TWO32 == TWO32 - 1;
  }

  /** The bits of the last byte past the end of the input are zero. */
  predicate Aligned(data: Bits, n: nat)
    requires ByteEnd(n) <= |data|
  {
    forall k :: n <= k < ByteEnd(n) ==> !data[k]
  }

  lemma WholeAligned(data: Bits, n: nat)
    requires ByteEnd(n) <= |data| && n % 8 == 0
    ensures Aligned(data, n)
  {
  }

  lemma PadFits(n: nat, r: nat)
    requires n + 2 <= r
    ensures Sponge.Pad(r, n) == [true] + Zeros(r - n - 2) + [true]
  {
    Sponge.PadShort(n, n, r);
  }

  /** duplexState */
  class DuplexState {
    var state: Bits
    var rate: nat
    var capacity: nat
    var rho_max: int

    /** The inputs of the calls so far. */
    ghost var inputs: seq<Bits>

    constructor ()
    {
      state, rate, capacity, rho_max, inputs := [], 0, 0, 0, [];
    }

    ghost predicate Valid()
      reads this
    {
      && 2 <= rate <= WIDTH && rho_max == rate - 2
      && |Blocks(inputs, rate)| % rate == 0 && state == Sponge.Absorb(Zeros(WIDTH), Blocks(inputs, rate), rate, LANE)
    }

    /** InitDuplex: 1 for parameters it refuses. */
    method InitDuplex(r: nat, c: nat) returns (result: int)
      requires r < TWO32 && c < TWO32
      modifies this
      ensures result == if r + c == WIDTH && r > 0 then 0 else 1
      ensures result == 0 ==> rate == r && rho_max == RhoMax(r) && inputs == [] && (Valid() <==> r != 1)
    {
      SumWraps(r, c);
      if (r + c) % TWO32 != WIDTH {
        return 1;
      }
      if r <= 0 || r > WIDTH {
        return 1;
      }
      rate, capacity, rho_max := r, c, RhoMax(r);
      state, inputs := Zeros(WIDTH), [];
      return 0;
    }

    lemma SumWraps(r: nat, c: nat)
      requires r < TWO32 && c < TWO32
      ensures (r + c) % TWO32 == WIDTH && r <= WIDTH <==> r + c == WIDTH
    {
    }

    /** The bytes of the input, zeros up to a whole lane, and the two bits of the padding. */
    method PadBlock(block: array<bool>, data: Bits, inBitLen: nat)
      requires Valid() && block.Length == WIDTH && inBitLen <= rho_max && ByteEnd(inBitLen) <= |data|
      requires Aligned(data, inBitLen)
      modifies block
      ensures LanesEnd(rate) <= WIDTH
      ensures block[..LanesEnd(rate)]
           == data[..inBitLen] + Sponge.Pad(rate, inBitLen) + Zeros(LanesEnd(rate) - rate)
    {
      hide Sponge.Absorb, Sponge.F, Blocks, Sponge.Pad, ByteEnd, LanesEnd, Put;
      var n := ByteEnd(inBitLen);
      Ends(inBitLen, rate);
      ghost var t := block[..];
      CopyBits(block, 0, data, 0, n);
      ClearBits(block, n, LanesEnd(rate) - n);
      PutTwo(t, data[0..n], Zeros(LanesEnd(rate) - n));
      assert block[..LanesEnd(rate)] == data[..inBitLen] + Zeros(LanesEnd(rate) - inBitLen);
      block[inBitLen] := true;
      block[rate - 1] := true;
      PadFits(inBitLen, rate);
    }

    lemma PutTwo(t: Bits, a: Bits, b: Bits)
      requires |a| + |b| <= |t|
      ensures Put(Put(t, 0, a), |a|, b)[..|a| + |b|] == a + b
    {
    }

    lemma BytesInLanes(n: nat, r: nat)
      requires n <= r <= WIDTH
      ensures ByteEnd(n) <= LanesEnd(r) <= WIDTH && r <= LanesEnd(r)
    {
      var c := (r + 63) / 64;
      assert n <= 8 * (8 * c);
      assert (n + 7) / 8 <= 8 * c;
    }

    lemma Ends(n: nat, r: nat)
      requires n + 2 <= r <= WIDTH
      ensures ByteEnd(n) <= LanesEnd(r) <= WIDTH && r <= LanesEnd(r)
    {
      BytesInLanes(n, r);
    }

    /** KeccakAbsorb of the lanes that hold the block. */
    method AbsorbLanes(block: array<bool>, ghost data: Bits)
      requires Valid() && block.Length == WIDTH && |data| <= rho_max && rate <= LanesEnd(rate) <= WIDTH
      requires block[..LanesEnd(rate)] == data + Sponge.Pad(rate, |data|) + Zeros(LanesEnd(rate) - rate)
      modifies this`state, this`inputs
      ensures Valid() && inputs == old(inputs) + [data]
    {
      hide Sponge.Absorb, Sponge.F, Sponge.Pad;
      ghost var b, p := Blocks(inputs, rate), data + Sponge.Pad(rate, |data|);
      PadFits(|data|, rate);
      Sponge.AbsorbMore(Zeros(WIDTH), b, p, rate, LANE);
      Sponge.MoreBlock(|b|, rate);
      assert Xor(state, block[..LanesEnd(rate)]) == Xor(state, p);
      state := Sponge.F(Xor(state, block[..LanesEnd(rate)]), LANE);
      inputs := inputs + [data];
      assert inputs[..|inputs| - 1] == old(inputs);
      assert Blocks(inputs, rate) == b + p;
    }

    /** Duplexing: the output of the call is the sponge of all earlier inputs, each padded to a block, and this
      one; 1, and nothing done, for an input longer than the bound or not aligned, or too long an output. */
    method Duplexing(data: Bits, inBitLen: nat, out: array<bool>, outBitLen: nat) returns (result: int)
      requires Valid() && ByteEnd(inBitLen) <= |data| && ByteEnd(outBitLen) <= out.Length
      modifies this`state, this`inputs, out
      ensures Valid() && (result == 0 || result == 1)
      ensures result == 0 <==> inBitLen + 2 <= rate && outBitLen <= rate && Aligned(data, inBitLen)
      ensures result == 1 ==> state == old(state) && inputs == old(inputs) && out[..] == old(out[..])
      ensures result == 0 ==> inputs == old(inputs) + [data[..inBitLen]]
      ensures result == 0 ==>
                var z := Sponge.SpongeOf(Blocks(old(inputs), rate) + data[..inBitLen], rate, LANE, outBitLen);
                out[..ByteEnd(outBitLen)] == z + Zeros(ByteEnd(outBitLen) - outBitLen)
      ensures out[ByteEnd(outBitLen)..] == old(out[ByteEnd(outBitLen)..])
    {
      hide Sponge.Absorb, Sponge.F, Sponge.Pad, Sponge.SpongeOf, Blocks, Aligned;
      if inBitLen > rho_max {
        return 1;
      }
      if inBitLen % 8 != 0 {
        var clear := LastByteClear(data, inBitLen);
        if !clear {
          return 1;
        }
      } else {
        WholeAligned(data, inBitLen);
      }
      if outBitLen > rate {
        return 1;
      }
      Process(data, inBitLen, out, outBitLen);
      return 0;
    }

    /** The padded input absorbed, and the output written. */
    method Process(data: Bits, inBitLen: nat, out: array<bool>, outBitLen: nat)
      requires Valid() && ByteEnd(inBitLen) <= |data| && ByteEnd(outBitLen) <= out.Length
      requires inBitLen + 2 <= rate && outBitLen <= rate && Aligned(data, inBitLen)
      modifies this`state, this`inputs, out
      ensures Valid() && inputs == old(inputs) + [data[..inBitLen]]
      ensures var z := Sponge.SpongeOf(Blocks(old(inputs), rate) + data[..inBitLen], rate, LANE, outBitLen);
        out[..] == Put(old(out[..]), 0, z + Zeros(ByteEnd(outBitLen) - outBitLen))
    {
      hide Sponge.Absorb, Sponge.F, Sponge.Pad, Sponge.SpongeOf, Blocks, Put, Aligned;
      var block := new bool[WIDTH];
      PadBlock(block, data, inBitLen);
      AbsorbLanes(block, data[..inBitLen]);
      Emitted(old(inputs), data[..inBitLen], outBitLen);
      Extract(block, out, outBitLen);
    }

    /** in[inBitLen/8] & mask == 0 */
    method LastByteClear(data: Bits, inBitLen: nat) returns (clear: bool)
      requires inBitLen % 8 != 0 && ByteEnd(inBitLen) <= |data|
      ensures clear <==> Aligned(data, inBitLen)
    {
      clear := true;
      for k := inBitLen to ByteEnd(inBitLen)
        invariant clear <==> forall j :: inBitLen <= j < k ==> !data[j]
      {
        if data[k] { clear := false; }
      }
    }

    /** The state begins with the output. */
    lemma Emitted(earlier: seq<Bits>, data: Bits, d: nat)
      requires Valid() && inputs == earlier + [data] && |data| + 2 <= rate && d <= rate
      requires |Blocks(earlier, rate)| % rate == 0
      ensures Sponge.SpongeOf(Blocks(earlier, rate) + data, rate, LANE, d) == state[..d]
    {
      hide Sponge.Absorb, Sponge.F, Sponge.Pad;
      var b := Blocks(earlier, rate);
      assert inputs[..|inputs| - 1] == earlier;
      Sponge.PadShort(|b| + |data|, |data|, rate);
      PadFits(|data|, rate);
      assert Sponge.Pad(rate, |b + data|) == Sponge.Pad(rate, |data|) by {
        PadAt(|b + data|, |data|, rate);
      }
      assert b + data + Sponge.Pad(rate, |data|) == Blocks(inputs, rate);
    }

    lemma PadAt(m: nat, q: nat, r: nat)
      requires q <= m && q + 2 <= r && (m - q) % r == 0
      ensures Sponge.Pad(r, m) == Sponge.Pad(r, q)
    {
      Sponge.PadShort(m, q, r);
      Sponge.PadShort(q, q, r);
    }

    /** KeccakExtract, and the bytes of the output with the bits past its end masked out. */
    method Extract(block: array<bool>, out: array<bool>, outBitLen: nat)
      requires |state| == WIDTH == block.Length && 2 <= rate <= WIDTH && outBitLen <= rate
      requires ByteEnd(outBitLen) <= out.Length && block != out
      modifies block, out
      ensures out[..] == Put(old(out[..]), 0, state[..outBitLen] + Zeros(ByteEnd(outBitLen) - outBitLen))
    {
      hide ByteEnd, LanesEnd, Put;
      BytesInLanes(outBitLen, rate);
      ghost var t, o, e := block[..], out[..], ByteEnd(outBitLen);
      CopyBits(block, 0, state, 0, LanesEnd(rate));
      CopyBits(out, 0, block[..], 0, ByteEnd(outBitLen));
      PutSlice(t, state, LanesEnd(rate), e);
      PutMasked(o, state, outBitLen, e);
      if outBitLen % 8 != 0 {
        ClearBits(out, outBitLen, ByteEnd(outBitLen) - outBitLen);
      } else {
        WholeEnd(outBitLen);
      }
    }

    lemma WholeEnd(n: nat)
      requires n % 8 == 0
      ensures ByteEnd(n) == n
    {
    }

    lemma PutSlice(t: Bits, s: Bits, n: nat, e: nat)
      requires e <= n <= |s| && n <= |t|
      ensures Put(t, 0, s[0..n])[0..e] == s[0..e]
    {
    }

    lemma PutMasked(o: Bits, s: Bits, n: nat, e: nat)
      requires n <= e <= |s| && e <= |o|
      ensures Put(Put(o, 0, s[0..e]), n, Zeros(e - n)) == Put(o, 0, s[..n] + Zeros(e - n))
      ensures n == e ==> Put(o, 0, s[0..e]) == Put(o, 0, s[..n] + Zeros(e - n))
    {
      assert n == e ==> s[0..e] == s[..n] + Zeros(e - n);
    }
  }

  /** The bits of the lanes that k bits begin. */
  function LanesEnd(k: nat): (e: nat)
    ensures k <= e < k + 64
  {
    (k + 63) / 64 * 64
  }
}
