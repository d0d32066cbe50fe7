/** crypto_hash, as the three Keccak files share it, and whole runs of the hash object of Keccak-compact.c. */
module Digests {
  import opened BitArrays
  import opened Casts
  import opened CompactHash
  import opened Lanes
  import Sponge
  import opened StreamRuns

  // ------------------------------------------------------------------ crypto_hash

  /** The last bytes of the input and the padding. */
  method LastBlock(temp: array<bool>, input: Bits, at: nat, inlen: nat, ghost w: nat)
    requires Settings(w, temp.Length) && 8 * inlen < temp.Length && at + 8 * inlen <= |input|
    modifies temp
    ensures 8 * inlen + 2 <= temp.Length
    ensures temp[..] == input[at..at + 8 * inlen] + [true] + Zeros(temp.Length - 8 * inlen - 2) + [true]
  {
    hide Settings, Put;
    var r, q := temp.Length, 8 * inlen;
    Rates(w, r);
    ghost var t := temp[..];
    CopyBits(temp, 0, input, at, q);
    CopyBits(temp, q, [true] + Zeros(7), 0, 8);
    ClearBits(temp, q + 8, r - (q + 8));
    PutThree(t, input[at..at + q], r);
    temp[r - 1] := true;
  }

  lemma PutThree(t: Bits, rest: Bits, r: nat)
    requires |t| == r && |rest| + 8 <= r
    ensures ([true] + Zeros(7))[0..8] == [true] + Zeros(7)
    ensures var q := |rest|; var last := [true] + Zeros(7);
      Put(Put(Put(t, 0, rest), q, last), q + 8, Zeros(r - (q + 8))) == rest + [true] + Zeros(r - q - 1)
  {
  }

  /** crypto_hash: the sponge of the whole bytes of the input. */
  method CryptoHash(v: Variant, w: nat, r: nat, hashBytes: nat, out: array<bool>, input: Bits, inlen: nat)
      returns (result: int)
    requires Settings(w, r) && (v.InPlaced? ==> w == 64) && 8 * hashBytes <= r && 8 * hashBytes <= out.Length
    requires 8 * inlen <= |input|
    modifies out
    ensures result == 0 && 2 <= r <= 25 * w
    ensures out[..] == Put(old(out[..]), 0, Sponge.SpongeOf(input[..8 * inlen], r, w, 8 * hashBytes))
  {
    hide Settings, Sponge.Absorb, Sponge.Pad, Sponge.F, Xor, Put, Sponge.SpongeOf;
    RateRange(w, r);
    var state := Absorbed(v, w, r, input, inlen);
    DigestIs(input[..8 * inlen], r, w, 8 * hashBytes, state);
    CopyBits(out, 0, state, 0, 8 * hashBytes);
    return 0;
  }

  /** The state after the whole blocks of the input and the last one. */
  method Absorbed(v: Variant, w: nat, r: nat, input: Bits, inlen: nat) returns (state: Bits)
    requires Settings(w, r) && 2 <= r && (v.InPlaced? ==> w == 64) && 8 * inlen <= |input|
    ensures |state| == 25 * w
    ensures state == Sponge.Absorb(Zeros(25 * w), input[..8 * inlen] + Sponge.Pad(r, 8 * inlen), r, w)
  {
    hide Settings, Sponge.Absorb, Sponge.Pad, Sponge.F, Xor, Put;
    var at, left;
    state, at, left := WholeBlocks(v, w, r, input, inlen);
    var temp := new bool[r];
    LastBlock(temp, input, at, left, w);
    state := Block(v, w, r, state, temp[..]);
    LastIs(input, at, left, r, w, temp[..], state);
  }

  /** KeccakF with a block of r / w lanes. */
  method Block(v: Variant, w: nat, r: nat, s: Bits, block: Bits) returns (t: Bits)
    requires Settings(w, r) && (v.InPlaced? ==> w == 64) && |s| == 25 * w && r <= |block|
    ensures t == Sponge.F(Xor(s, block[..r]), w)
  {
    hide Sponge.F, Xor;
    Rates(w, r);
    t := KeccakF(v, s, block, r / w, w);
  }

  /** The loop of crypto_hash. */
  method WholeBlocks(v: Variant, w: nat, r: nat, input: Bits, inlen: nat) returns (state: Bits, at: nat, left: nat)
    requires Settings(w, r) && (v.InPlaced? ==> w == 64) && 8 * inlen <= |input|
    ensures at + 8 * left == 8 * inlen && at % r == 0 && 8 * left < r
    ensures state == Sponge.Absorb(Zeros(25 * w), input[..at], r, w)
  {
    hide Settings, Sponge.Absorb, Sponge.F, Xor;
    Rates(w, r);
    state, at, left := Zeros(25 * w), 0, inlen;
    NoBlocks(input, r, w);
    while left >= r / 8
      invariant at + 8 * left == 8 * inlen && at % r == 0
      invariant state == Sponge.Absorb(Zeros(25 * w), input[..at], r, w)
    {
      NextBlock(input, at, r, w);
      state := Block(v, w, r, state, input[at..]);
      at, left := at + r, left - r / 8;
    }
  }

  lemma NoBlocks(input: Bits, r: nat, w: nat)
    requires Settings(w, r)
    ensures 0 % r == 0 && Sponge.Absorb(Zeros(25 * w), input[..0], r, w) == Zeros(25 * w)
  {
  }

  lemma NextBlock(input: Bits, at: nat, r: nat, w: nat)
    requires Settings(w, r) && at + r <= |input| && at % r == 0
    ensures (at + r) % r == 0
    ensures Sponge.Absorb(Zeros(25 * w), input[..at + r], r, w)
         == Sponge.F(Xor(Sponge.Absorb(Zeros(25 * w), input[..at], r, w), input[at..][..r]), w)
  {
    hide Sponge.Absorb, Sponge.F, Xor;
    Rates(w, r);
    Sponge.MoreBlock(at, r);
    assert input[..at] + input[at..at + r] == input[..at + r] && input[at..][..r] == input[at..at + r];
    Sponge.AbsorbMore(Zeros(25 * w), input[..at], input[at..at + r], r, w);
  }

  lemma LastIs(input: Bits, at: nat, left: nat, r: nat, w: nat, temp: Bits, state: Bits)
    requires Settings(w, r) && at % r == 0 && at + 8 * left <= |input| && 8 * left + 2 <= r && |temp| == r
    requires temp == input[at..at + 8 * left] + [true] + Zeros(r - 8 * left - 2) + [true]
    requires state == Sponge.F(Xor(Sponge.Absorb(Zeros(25 * w), input[..at], r, w), temp[..r]), w)
    ensures var m := input[..at + 8 * left];
      state == Sponge.Absorb(Zeros(25 * w), m + Sponge.Pad(r, |m|), r, w)
  {
    hide Sponge.Absorb, Sponge.F, Xor, Sponge.Pad, Settings;
    var m, q := input[..at + 8 * left], 8 * left;
    assert m[..|m| - q] == input[..at] && m[|m| - q..] == input[at..at + q] && temp[..r] == temp;
    Sponge.OneBlock(m, q, r, w, Sponge.Absorb(Zeros(25 * w), input[..at], r, w));
  }

  lemma DigestIs(m: Bits, r: nat, w: nat, d: nat, state: Bits)
    requires 2 <= r <= 25 * w && d <= r && state == Sponge.Absorb(Zeros(25 * w), m + Sponge.Pad(r, |m|), r, w)
    ensures Sponge.SpongeOf(m, r, w, d) == state[0..d]
  {
    hide Sponge.Absorb, Sponge.Pad;
  }

  // ------------------------------------------------------------------ runs of Update

  /** The message that calls of Update give, all but the last of whole bytes. */
  function Message(pieces: seq<Piece>): (m: Bits)
  {
    if pieces == [] then []
    else
      var last := pieces[|pieces| - 1];
      Message(pieces[..|pieces| - 1]) + Input(last.data, last.length)
  }

  lemma {:induction false} WholeMessage(pieces: seq<Piece>)
    requires forall p: Piece :: p in pieces ==> p.length % 8 == 0
    ensures Message(pieces) == Joined(pieces)
  {
    if pieces != [] { WholeMessage(pieces[..|pieces| - 1]); }
  }

  /** Between whole-byte updates the queue ends with a byte. */
  predicate AllButLast(pieces: seq<Piece>) {
    forall k :: 0 <= k < |pieces| - 1 ==> pieces[k].length % 8 == 0
  }

  /** However the message is cut into pieces, Init, Update and Final give its digest. */
  method Digest(s: HashState, pieces: seq<Piece>, hashval: array<bool>, hashbytelen: nat)
    requires Settings(s.w, s.r) && AllButLast(pieces) && 8 * hashbytelen <= hashval.Length
    modifies s, hashval
    ensures 2 <= s.r <= 25 * s.w
    ensures hashval[..8 * hashbytelen] == Sponge.SpongeOf(Message(pieces), s.r, s.w, 8 * hashbytelen)
  {
    hide Settings, HashState.Valid, Sponge.SpongeOf, Input;
    RateRange(s.w, s.r);
    var result := s.Init();
    assert pieces[..0] == [];
    for k := 0 to |pieces|
      invariant s.Valid() && 0 <= s.bitsInQueue && s.message == Message(pieces[..k])
      invariant k < |pieces| ==> s.bitsInQueue % 8 == 0
    {
      result := s.Update(pieces[k].data, pieces[k].length);
      assert pieces[..k + 1][..k] == pieces[..k];
    }
    assert pieces[..|pieces|] == pieces;
    result := s.Final(hashval, hashbytelen);
  }

  /** On whole bytes the hash object agrees with crypto_hash, in each of its three files. */
  method SameDigest(v: Variant, s: HashState, pieces: seq<Piece>, input: Bits, inlen: nat, hashBytes: nat)
      returns (a: array<bool>, b: array<bool>)
    requires Settings(s.w, s.r) && (v.InPlaced? ==> s.w == 64) && 8 * hashBytes <= s.r && 8 * inlen <= |input|
    requires forall p: Piece :: p in pieces ==> p.length % 8 == 0
    requires Joined(pieces) == input[..8 * inlen]
    modifies s
    ensures a[..] == b[..] && |a[..]| == 8 * hashBytes
  {
    hide Settings, Sponge.SpongeOf;
    a, b := new bool[8 * hashBytes], new bool[8 * hashBytes];
    WholeMessage(pieces);
    Digest(s, pieces, a, hashBytes);
    assert a[..] == a[..8 * hashBytes];
    var result := CryptoHash(v, s.w, s.r, hashBytes, b, input, inlen);
  }
}
