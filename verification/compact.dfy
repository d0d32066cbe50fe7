/** Keccak-compact.c: the hash object that XORs its input straight into the state, and crypto_hash.

  The rate is a whole number of lanes, as the lane counts of the source take for granted. */
module CompactHash {
  import opened BitArrays
  import opened Casts
  import opened KeccakP
  import opened Lanes
  import Sponge

  const SUCCESS := 0
  const FAIL := 1

  /** cKeccakB = 25 w and cKeccakR = r */
  predicate Settings(w: nat, r: nat) {
    LaneWidth(w) && 0 < r <= 25 * w && r % w == 0
  }

  lemma RateRange(w: nat, r: nat)
    requires Settings(w, r)
    ensures LaneWidth(w) && 8 <= r <= 25 * w
  {
    Rates(w, r);
  }

  lemma Rates(w: nat, r: nat)
    requires Settings(w, r)
    ensures r % 8 == 0 && 8 <= r && r / 8 * 8 == r && r == w * (r / w) && r / w <= 25
  {
    var k := r / w;
    assert r == w * k;
    if w == 8 { assert r == 8 * k; }
    else if w == 16 { assert r == 8 * (2 * k); }
    else if w == 32 { assert r == 8 * (4 * k); }
    else { assert r == 8 * (8 * k); }
  }

  /** `state[at/8] ^= b << at % 8`: the bits from `at` on are changed. */
  function XorAt(s: Bits, at: nat, b: Bits): (t: Bits)
    ensures |t| == |s|
  {
    Xor(s, Zeros(at) + b)
  }

  lemma XorExtend(a: Bits, rest: Bits, b: Bits, k: nat)
    requires k <= |b| && forall j :: k <= j < |b| ==> !b[j]
    ensures XorAt(Xor(a, rest), |rest|, b) == Xor(a, rest + b[..k])
  {
  }

  lemma XorAway(a: Bits)
    ensures Xor(a, []) == a
  {
  }

  /** hashState */
  class HashState {
    const w: nat
    const r: nat
    var state: Bits
    var bitsInQueue: int

    /** All bits of the message so far. */
    ghost var message: Bits

    constructor (laneWidth: nat, rate: nat)
      ensures w == laneWidth && r == rate
    {
      w, r, state, bitsInQueue, message := laneWidth, rate, [], 0, [];
    }

    /** The state after the whole blocks, with the bits of the rest of the message XORed in. */
    ghost predicate Valid()
      reads this
    {
      && Settings(w, r) && |state| == 25 * w && bitsInQueue < r
      && (bitsInQueue >= 0 ==> Open())
    }

    ghost predicate Open()
      requires Settings(w, r) && |state| == 25 * w && 0 <= bitsInQueue
      reads this
    {
      && bitsInQueue <= |message| && (|message| - bitsInQueue) % r == 0
      && state == Xor(Sponge.Absorb(Zeros(25 * w), message[..|message| - bitsInQueue], r, w),
                      message[|message| - bitsInQueue..])
    }

    method Init() returns (result: int)
      requires Settings(w, r)
      modifies this
      ensures Valid() && result == SUCCESS && bitsInQueue == 0 && message == []
    {
      bitsInQueue, message := 0, [];
      state := Zeros(25 * w);
      XorAway(state);
      return SUCCESS;
    }

    // ---------------------------------------------------------------- Update

    /** A byte XORed in behind the bits in the queue; only its first k bits are set. */
    method XorIn(b: Bits, k: nat)
      requires Valid() && 0 <= bitsInQueue && bitsInQueue + k <= r && k <= |b| && forall j :: k <= j < |b| ==> !b[j]
      modifies this`state, this`bitsInQueue, this`message
      ensures Settings(w, r) && |state| == 25 * w && bitsInQueue == old(bitsInQueue) + k && Open()
      ensures message == old(message) + b[..k]
    {
      hide Sponge.Absorb, Xor, LaneWidth, XorAt;
      ghost var rest := message[|message| - bitsInQueue..];
      ghost var whole := message[..|message| - bitsInQueue];
      XorExtend(Sponge.Absorb(Zeros(25 * w), whole, r, w), rest, b, k);
      state := XorAt(state, bitsInQueue, b);
      bitsInQueue, message := bitsInQueue + k, message + b[..k];
      assert message[..|message| - bitsInQueue] == whole && message[|message| - bitsInQueue..] == rest + b[..k];
    }

    /** KeccakF on a state a whole block has been XORed into. */
    method Flush()
      requires Settings(w, r) && |state| == 25 * w && bitsInQueue == r && Open()
      modifies this`state, this`bitsInQueue
      ensures Valid() && bitsInQueue == 0
    {
      hide Sponge.Absorb, Xor, LaneWidth, Sponge.F;
      ghost var whole, block := message[..|message| - r], message[|message| - r..];
      assert whole + block == message;
      Sponge.AbsorbMore(Zeros(25 * w), whole, block, r, w);
      Sponge.MoreBlock(|whole|, r);
      KeccakNone();
      bitsInQueue := 0;
      assert message[..|message|] == message && message[|message|..] == [];
      XorAway(state);
    }

    /** KeccakF(state, 0, 0) */
    method KeccakNone()
      requires Settings(w, r) && |state| == 25 * w
      modifies this`state
      ensures state == Sponge.F(old(state), w)
    {
      hide Xor, Sponge.F;
      assert state[..w * 0] == [];
      XorAway(state);
      state := KeccakF(Compact, state, state, 0, w);
    }

    /** One byte; a full block is permuted. */
    method XorByte(b: Bits)
      requires Valid() && 0 <= bitsInQueue && bitsInQueue % 8 == 0 && |b| == 8
      modifies this`state, this`bitsInQueue, this`message
      ensures Valid() && message == old(message) + b
      ensures bitsInQueue == (if old(bitsInQueue) + 8 == r then 0 else old(bitsInQueue) + 8)
    {
      hide Open, LaneWidth;
      Rates(w, r);
      ByteFits(bitsInQueue, r);
      XorIn(b, 8);
      if bitsInQueue == r {
        Flush();
      }
    }

    lemma ByteFits(q: int, n: nat)
      requires 0 <= q < n && q % 8 == 0 && n % 8 == 0
      ensures q + 8 <= n
    {
    }

    /** Bytes as long as the queue is not empty. */
    method Fill(data: Bits, databitlen: nat) returns (done: nat)
      requires Valid() && 0 <= bitsInQueue && bitsInQueue % 8 == 0 && databitlen <= |data|
      modifies this`state, this`bitsInQueue, this`message
      ensures Valid() && 0 <= bitsInQueue && bitsInQueue % 8 == 0 && done <= databitlen && done % 8 == 0
      ensures message == old(message) + data[..done] && (databitlen - done < 8 || bitsInQueue == 0)
    {
      hide Valid, Open;
      ghost var m0 := message;
      done := 0;
      assert data[..0] == [];
      while databitlen - done >= 8 && bitsInQueue != 0
        invariant Valid() && 0 <= bitsInQueue && bitsInQueue % 8 == 0 && done <= databitlen && done % 8 == 0
        invariant message == m0 + data[..done]
        decreases databitlen - done
      {
        XorByte(data[done..done + 8]);
        assert data[..done] + data[done..done + 8] == data[..done + 8];
        done := done + 8;
      }
    }

    /** A whole block, with the queue empty. */
    method XorBlock(data: Bits, at: nat)
      requires Valid() && bitsInQueue == 0 && at + r <= |data|
      modifies this`state, this`message
      ensures Valid() && message == old(message) + data[at..at + r]
    {
      hide Sponge.Absorb, Xor, LaneWidth, Sponge.F;
      ghost var block := data[at..at + r];
      Rates(w, r);
      assert message[..|message|] == message && message[|message|..] == [];
      XorAway(Sponge.Absorb(Zeros(25 * w), message, r, w));
      Sponge.AbsorbMore(Zeros(25 * w), message, block, r, w);
      Sponge.MoreBlock(|message|, r);
      assert data[at..][..w * (r / w)] == block;
      state := KeccakF(Compact, state, data[at..], r / w, w);
      message := message + block;
      assert message[..|message|] == message && message[|message|..] == [];
      XorAway(state);
    }

    lemma Ready()
      requires Valid()
      ensures r % 8 == 0 && 8 <= r
    {
      Rates(w, r);
    }

    method Blocks(data: Bits, from: nat, databitlen: nat) returns (done: nat)
      requires Valid() && 0 <= bitsInQueue && from <= databitlen <= |data|
      requires databitlen - from < 8 || bitsInQueue == 0
      requires from % 8 == 0
      modifies this`state, this`message
      ensures Valid() && from <= done <= databitlen && databitlen - done < r && done % 8 == 0
      ensures message == old(message) + data[from..done] && (databitlen - done < 8 || bitsInQueue == 0)
    {
      hide Valid, Open, LaneWidth, Settings;
      Ready();
      ghost var m0 := message;
      done := from;
      while databitlen - done >= r
        invariant Valid() && from <= done <= databitlen && done % 8 == 0 && (databitlen - done < 8 || bitsInQueue == 0)
        invariant message == m0 + data[from..done]
        decreases databitlen - done
      {
        XorBlock(data, done);
        assert data[from..done] + data[done..done + r] == data[from..done + r];
        done := done + r;
      }
    }

    method Rest(data: Bits, from: nat, databitlen: nat) returns (done: nat)
      requires Valid() && 0 <= bitsInQueue && bitsInQueue % 8 == 0 && from <= databitlen <= |data| && from % 8 == 0
      requires databitlen - from < 8 || bitsInQueue + (databitlen - from) < r
      modifies this`state, this`bitsInQueue, this`message
      ensures Valid() && 0 <= bitsInQueue && bitsInQueue % 8 == 0 && from <= done <= databitlen && databitlen - done < 8
      ensures done % 8 == 0
      ensures message == old(message) + data[from..done]
    {
      hide Open, Settings;
      ghost var m0 := message;
      done := from;
      while databitlen - done >= 8
        invariant Valid() && 0 <= bitsInQueue && bitsInQueue % 8 == 0 && from <= done <= databitlen && done % 8 == 0
        invariant databitlen - done < 8 || bitsInQueue + (databitlen - done) < r
        invariant message == m0 + data[from..done]
        decreases databitlen - done
      {
        XorIn(data[done..done + 8], 8);
        assert data[from..done] + data[done..done + 8] == data[from..done + 8];
        done := done + 8;
      }
    }

    /** Update: FAIL after Final or an incomplete byte, else the input is added to the message. */
    method Update(data: Bits, databitlen: nat) returns (result: int)
      requires Valid() && databitlen <= |data| && |data| % 8 == 0
      modifies this`state, this`bitsInQueue, this`message
      ensures Valid() && result == if old(bitsInQueue) >= 0 && old(bitsInQueue) % 8 == 0 then SUCCESS else FAIL
      ensures result == SUCCESS ==> message == old(message) + Input(data, databitlen) && bitsInQueue >= 0
      ensures result == SUCCESS && databitlen % 8 == 0 ==> bitsInQueue % 8 == 0
      ensures result == FAIL ==> message == old(message) && bitsInQueue == old(bitsInQueue)
    {
      if bitsInQueue < 0 || bitsInQueue % 8 != 0 {
        return FAIL;
      }
      hide Open, LaneWidth, Input, Settings, Valid;
      ghost var m0 := message;
      var c := WholeBytes(data, databitlen);
      UpdateEnd(data, databitlen, c, m0);
      return SUCCESS;
    }

    /** The bits after the whole bytes, if any. */
    method UpdateEnd(data: Bits, databitlen: nat, c: nat, ghost m0: Bits)
      requires Valid() && 0 <= bitsInQueue && bitsInQueue % 8 == 0 && |data| % 8 == 0
      requires c <= databitlen <= |data| && databitlen < c + 8 && c % 8 == 0 && message == m0 + data[..c]
      modifies this`state, this`bitsInQueue, this`message
      ensures Valid() && 0 <= bitsInQueue && message == m0 + Input(data, databitlen)
      ensures databitlen == c ==> bitsInQueue % 8 == 0
    {
      hide Open, LaneWidth, Input, Settings, Valid;
      InputEnds(data, databitlen, c);
      if databitlen - c != 0 {
        ghost var last := data[c..c + 8][8 - (databitlen - c)..];
        LastBits(data[c..c + 8], databitlen - c);
        assert m0 + data[..c] + last == m0 + (data[..c] + last);
      }
    }

    /** All whole bytes of the input. */
    method WholeBytes(data: Bits, databitlen: nat) returns (done: nat)
      requires Valid() && 0 <= bitsInQueue && bitsInQueue % 8 == 0 && databitlen <= |data|
      modifies this`state, this`bitsInQueue, this`message
      ensures Valid() && 0 <= bitsInQueue && bitsInQueue % 8 == 0 && done <= databitlen < done + 8 && done % 8 == 0
      ensures message == old(message) + data[..done]
    {
      hide Open, LaneWidth, Settings, Valid;
      ghost var m0 := message;
      var a := Fill(data, databitlen);
      var b := Blocks(data, a, databitlen);
      done := Rest(data, b, databitlen);
      Parts(m0, data, a, b, done);
    }

    lemma Parts(m: Bits, data: Bits, a: nat, b: nat, c: nat)
      requires a <= b <= c <= |data|
      ensures m + data[..a] + data[a..b] + data[b..c] == m + data[..c]
    {
    }

    lemma InputEnds(data: Bits, n: nat, c: nat)
      requires n <= |data| && |data| % 8 == 0 && c <= n < c + 8 && c % 8 == 0
      ensures n == c ==> Input(data, n) == data[..c]
      ensures n > c ==> c + 8 <= |data| && Input(data, n) == data[..c] + data[c..c + 8][8 - (n - c)..]
    {
      assert n % 8 == n - c;
    }

    /** The bits of an incomplete byte, moved down. */
    method LastBits(byte: Bits, k: nat)
      requires Valid() && 0 <= bitsInQueue && bitsInQueue % 8 == 0 && |byte| == 8 && 0 < k < 8
      modifies this`state, this`bitsInQueue, this`message
      ensures Valid() && 0 <= bitsInQueue && message == old(message) + byte[8 - k..]
    {
      hide Open, LaneWidth, XorAt;
      Rates(w, r);
      ByteFits(bitsInQueue, r);
      var lastByte := ShiftRight(byte, 8 - k);
      XorIn(lastByte, k);
      assert lastByte[..k] == byte[8 - k..];
    }

    // ---------------------------------------------------------------- Final

    /** The state after the padded message. */
    ghost function Root(): (s: Bits)
      requires Settings(w, r)
      reads `message
      ensures |s| == 25 * w
    {
      Rates(w, r);
      Sponge.Absorb(Zeros(25 * w), message + Sponge.Pad(r, |message|), r, w)
    }

    /** Exactly one free bit: the padding goes on for a block. */
    method PadTwoBlocks()
      requires Valid() && 0 <= bitsInQueue && bitsInQueue + 1 == r
      modifies this`state
      ensures |state| == 25 * w && Settings(w, r) && state == Root()
    {
      hide Sponge.Absorb, Xor, LaneWidth, Sponge.F, Sponge.Pad, XorAt;
      Rates(w, r);
      ghost var whole, rest := message[..|message| - bitsInQueue], message[|message| - bitsInQueue..];
      ghost var a := Sponge.Absorb(Zeros(25 * w), whole, r, w);
      XorExtend(a, rest, [true], 1);
      assert [true][..1] == [true] && |rest| == r - 1;
      state := XorAt(state, r - 1, [true]);
      KeccakNone();
      XorLast(state, r);
      state := XorAt(state, r - 1, [true]);
      KeccakNone();
      Sponge.TwoBlocks(message, bitsInQueue, r, w, a);
    }

    /** Else it ends the block. */
    method PadOneBlock()
      requires Valid() && 0 <= bitsInQueue && bitsInQueue + 1 < r
      modifies this`state
      ensures |state| == 25 * w && Settings(w, r) && state == Root()
    {
      hide Sponge.Absorb, Xor, LaneWidth, Sponge.F, Sponge.Pad, XorAt;
      Rates(w, r);
      ghost var whole, rest := message[..|message| - bitsInQueue], message[|message| - bitsInQueue..];
      ghost var a := Sponge.Absorb(Zeros(25 * w), whole, r, w);
      XorExtend(a, rest, [true], 1);
      assert [true][..1] == [true];
      state := XorAt(state, bitsInQueue, [true]);
      PadBits(a, rest, r);
      state := XorAt(state, r - 1, [true]);
      KeccakNone();
      Sponge.OneBlock(message, bitsInQueue, r, w, a);
    }

    lemma PadBits(a: Bits, rest: Bits, n: nat)
      requires |rest| + 1 < n
      ensures XorAt(Xor(a, rest + [true]), n - 1, [true]) == Xor(a, rest + [true] + Zeros(n - |rest| - 2) + [true])
    {
    }

    /** XORing the last bit of a block is XORing the block of zeros that ends with it. */
    lemma XorLast(s: Bits, n: nat)
      requires 0 < n
      ensures XorAt(s, n - 1, [true]) == Xor(s, Zeros(n - 1) + [true])
    {
    }

    /** Final: FAIL when it was called before, else the digest: the sponge of the message. */
    method Final(hashval: array<bool>, hashbytelen: nat) returns (result: int)
      requires Valid() && 8 * hashbytelen <= hashval.Length
      modifies this`state, this`bitsInQueue, hashval
      ensures Valid() && bitsInQueue < 0 && result == if old(bitsInQueue) >= 0 then SUCCESS else FAIL
      ensures result == SUCCESS ==>
                2 <= r <= 25 * w
                && hashval[..8 * hashbytelen] == Sponge.SpongeOf(message, r, w, 8 * hashbytelen)
      ensures hashval[8 * hashbytelen..] == old(hashval[8 * hashbytelen..])
      ensures result == FAIL ==> hashval[..] == old(hashval[..])
    {
      if bitsInQueue < 0 {
        return FAIL;
      }
      hide LaneWidth, Root, Open, Sponge.Squeeze, Put;
      Rates(w, r);
      if bitsInQueue + 1 == r {
        PadTwoBlocks();
      } else {
        PadOneBlock();
      }
      RootIs();
      ghost var h0 := hashval[..];
      ghost var z := Sponge.Squeeze(state, r, w, 8 * hashbytelen);
      Output(hashval, hashbytelen);
      PutEnds(h0, z);
      bitsInQueue := -1;
      return SUCCESS;
    }

    lemma PutEnds(h: Bits, z: Bits)
      requires |z| <= |h|
      ensures Put(h, 0, z)[..|z|] == z && Put(h, 0, z)[|z|..] == h[|z|..]
    {
    }

    lemma RootIs()
      requires Settings(w, r)
      ensures 2 <= r <= 25 * w && forall d: nat :: Sponge.SpongeOf(message, r, w, d) == Sponge.Squeeze(Root(), r, w, d)
    {
      hide Sponge.Absorb, Sponge.Pad, Sponge.Squeeze;
      Rates(w, r);
    }

    /** The loop of Final: blocks of output. */
    method Output(hashval: array<bool>, hashbytelen: nat)
      requires Settings(w, r) && |state| == 25 * w && 8 * hashbytelen <= hashval.Length
      modifies this`state, hashval
      ensures |state| == 25 * w
      ensures hashval[..] == Put(old(hashval[..]), 0, Sponge.Squeeze(old(state), r, w, 8 * hashbytelen))
    {
      hide Sponge.Squeeze, LaneWidth, Put;
      ghost var h0, z := hashval[..], Sponge.Squeeze(state, r, w, 8 * hashbytelen);
      var at, left := 0, hashbytelen;
      PutStart(h0, z);
      while left != 0
        invariant at + 8 * left == 8 * hashbytelen && |state| == 25 * w && hashval[..] == Put(h0, 0, z[0..at])
        invariant left != 0 ==> z[at..] == Sponge.Squeeze(state, r, w, 8 * left)
      {
        var i := OutputBlock(hashval, at, left, h0, z);
        at, left := at + 8 * i, left - i;
      }
      assert z[0..at] == z;
    }

    /** One round of it. */
    method OutputBlock(hashval: array<bool>, at: nat, left: nat, ghost h0: Bits, ghost z: Bits) returns (i: nat)
      requires Settings(w, r) && |state| == 25 * w && 0 < left && at + 8 * left == |z| <= |h0| == hashval.Length
      requires hashval[..] == Put(h0, 0, z[0..at]) && z[at..] == Sponge.Squeeze(state, r, w, 8 * left)
      modifies this`state, hashval
      ensures 0 < i <= left && |state| == 25 * w && hashval[..] == Put(h0, 0, z[0..at + 8 * i])
      ensures i < left ==> z[at + 8 * i..] == Sponge.Squeeze(state, r, w, 8 * (left - i))
    {
      hide Sponge.Squeeze, LaneWidth, Put, Sponge.F;
      Rates(w, r);
      i := if left < r / 8 then left else r / 8;
      var n := 8 * i;
      NextBlock(state, 8 * left, n);
      assert z[at..][..n] == z[at..at + n];
      CopyBits(hashval, at, state, 0, n);
      PutMore(h0, z, at, n);
      if i != left {
        KeccakNone();
        assert z[at..][n..] == z[at + n..];
      }
    }

    lemma PutStart(h: Bits, z: Bits)
      ensures Put(h, 0, z[0..0]) == h
    {
    }

    lemma PutMore(h: Bits, z: Bits, at: nat, n: nat)
      requires at + n <= |z| <= |h|
      ensures Put(Put(h, 0, z[0..at]), at, z[at..at + n]) == Put(h, 0, z[0..at + n])
    {
    }

    /** The state begins with the next block of output; what follows comes from the state permuted. */
    lemma NextBlock(s: Bits, d: nat, n: nat)
      requires Settings(w, r) && |s| == 25 * w && 0 < n <= d && n == (if d < r then d else r)
      ensures n <= 25 * w && Sponge.Squeeze(s, r, w, d)[..n] == s[0..n]
      ensures n < d ==> Sponge.Squeeze(s, r, w, d)[n..] == Sponge.Squeeze(Sponge.F(s, w), r, w, d - n)
    {
      hide Sponge.F;
    }
  }
}
