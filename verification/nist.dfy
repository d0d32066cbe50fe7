/** KeccakNISTInterface.c: the hash functions over the streaming sponge. */
module NistInterface {
  import opened BitArrays
  import opened Lanes
  import opened Streams
  import Sponge
  import StreamRuns

  const SUCCESS := 0
  const FAIL := 1
  const BAD_HASHLEN := 2

  /** The bits of the whole bytes. */
  function Whole(n: nat): (b: nat)
    ensures b <= n < b + 8 && b % 8 == 0
  {
    n - n % 8
  }

  predicate HashLength(hashbitlen: int) {
    hashbitlen == 224 || hashbitlen == 256 || hashbitlen == 384 || hashbitlen == 512
  }

  /** The capacity is twice the output length; arbitrary lengths get the one of 288. */
  function Rate(hashbitlen: int): nat {
    if HashLength(hashbitlen) then 1600 - 2 * hashbitlen else 1024
  }

  method Init(state: SpongeState, hashbitlen: int) returns (result: int)
    requires state.dataQueue.Length == MAXIMUM_RATE
    modifies state, state.dataQueue
    ensures result == if hashbitlen == 0 || HashLength(hashbitlen) then SUCCESS else BAD_HASHLEN
    ensures result == SUCCESS ==> state.Valid() && !state.squeezing && state.message == []
    ensures result == SUCCESS ==> state.rate == Rate(hashbitlen) && state.fixedOutputLength == hashbitlen
  {
    hide SpongeState.Valid;
    var ignored;
    if hashbitlen == 0 {
      ignored := state.InitSponge(1024, 576);
    } else if hashbitlen == 224 {
      ignored := state.InitSponge(1152, 448);
    } else if hashbitlen == 256 {
      ignored := state.InitSponge(1088, 512);
    } else if hashbitlen == 384 {
      ignored := state.InitSponge(832, 768);
    } else if hashbitlen == 512 {
      ignored := state.InitSponge(576, 1024);
    } else {
      return BAD_HASHLEN;
    }
    SetLength(state, hashbitlen);
    return SUCCESS;
  }

  method SetLength(state: SpongeState, hashbitlen: nat)
    requires state.Valid() && !state.squeezing
    modifies state`fixedOutputLength
    ensures state.Valid() && !state.squeezing && state.fixedOutputLength == hashbitlen
  {
    hide Sponge.Absorb, Held, Sponge.Pad, Sponge.Times;
    state.fixedOutputLength := hashbitlen;
  }

  /** The input is added to the message, with the bits of an incomplete byte moved down. */
  method Update(state: SpongeState, data: Bits, databitlen: nat) returns (result: int)
    requires state.Valid() && databitlen < TWO64 && databitlen <= |data| && |data| % 8 == 0
    requires Fits(Whole(databitlen), state.bitsInQueue, state.rate)
    modifies state`state, state`bitsInQueue, state`message, state.dataQueue
    ensures state.Valid() && result == if old(state.bitsInQueue) % 8 == 0 && !state.squeezing then SUCCESS else FAIL
    ensures state.message == old(state.message) + if result == SUCCESS then Input(data, databitlen) else []
  {
    hide SpongeState.Valid, Fits, Input, Whole;
    var k := databitlen % 8;
    InputParts(data, databitlen);
    if k == 0 {
      result := state.Absorb(data, databitlen);
    } else {
      var n := databitlen - k;
      if state.bitsInQueue % 8 == 0 && !state.squeezing { WholeMessage(state, n); }
      result := state.Absorb(data, n);
      if result == SUCCESS {
        RoomFor(state, k);
        UpdateLast(state, data[n..n + 8], k);
      }
    }
  }

  lemma InputParts(data: Bits, n: nat)
    requires n <= |data| && |data| % 8 == 0
    ensures Whole(n) == n - n % 8 && Whole(n) % 8 == 0 && (n % 8 == 0 ==> Input(data, n) == data[..n])
    ensures n % 8 > 0 ==> Whole(n) + 8 <= |data|
    ensures n % 8 > 0 ==> Input(data, n) == data[..Whole(n)] + data[Whole(n)..Whole(n) + 8][8 - n % 8..]
  {
  }

  /** The last partial byte, moved to the least significant bits. */
  method UpdateLast(state: SpongeState, byte: Bits, k: nat)
    requires state.Valid() && !state.squeezing && |byte| == 8 && 0 < k < 8
    requires state.bitsInQueue % 8 == 0 && Fits(k, state.bitsInQueue, state.rate)
    modifies state`state, state`bitsInQueue, state`message, state.dataQueue
    ensures state.Valid() && state.message == old(state.message) + byte[8 - k..]
  {
    hide SpongeState.Valid, Fits;
    var lastByte := ShiftRight(byte, 8 - k);
    var result := state.Absorb(lastByte, k);
    assert lastByte[..k] == byte[8 - k..];
  }

  lemma WholeMessage(state: SpongeState, n: nat)
    requires state.Valid() && !state.squeezing && state.bitsInQueue % 8 == 0 && n % 8 == 0
    ensures (|state.message| + n) % 8 == 0
  {
    hide SpongeState.Valid;
    StreamRuns.QueueIs(state);
    StreamRuns.Multiples(state);
    WholeSum(|state.message|, state.rate, n);
  }

  lemma WholeSum(m: nat, r: nat, n: nat)
    requires r > 0 && r % 8 == 0 && m % r % 8 == 0 && n % 8 == 0
    ensures (m + n) % 8 == 0
  {
    var q, b, c, d := m / r, r / 8, m % r / 8, n / 8;
    assert m == r * q + m % r;
    assert r * q == 8 * (b * q);
    assert m + n == 8 * (b * q + c + d);
  }

  /** After whole bytes there is room for a few bits. */
  lemma RoomFor(state: SpongeState, k: nat)
    requires state.Valid() && !state.squeezing && k < 8
    requires |state.message| % 8 == 0
    ensures state.bitsInQueue % 8 == 0 && Fits(k, state.bitsInQueue, state.rate)
  {
    hide SpongeState.Valid, Fits;
    StreamRuns.QueueIs(state);
    StreamRuns.Multiples(state);
    StreamRuns.ModEight(|state.message|, state.rate);
    FitsSmall(k, state.bitsInQueue, state.rate);
  }

  lemma FitsSmall(k: nat, q: nat, r: nat)
    requires q < r && q % 8 == 0 && r % 8 == 0 && k < 8
    ensures Fits(k, q, r)
  {
    var a, b := q / 8, r / 8;
    assert q == 8 * a && r == 8 * b;
    assert k <= r - q;
  }

  /** The digest; FAIL when its length is not a whole number of bytes. */
  method Final(state: SpongeState, hashval: array<bool>) returns (result: int)
    requires state.Valid() && state.fixedOutputLength < TWO64 && state.fixedOutputLength <= hashval.Length
    requires hashval != state.dataQueue
    modifies state, state.dataQueue, hashval
    ensures result == if old(state.fixedOutputLength) % 8 == 0 then SUCCESS else FAIL
    ensures result == SUCCESS && !old(state.squeezing) ==>
              hashval[..old(state.fixedOutputLength)]
              == Sponge.SpongeOf(old(state.message), old(state.rate), LANE, old(state.fixedOutputLength))
  {
    result := state.Squeeze(hashval, state.fixedOutputLength);
  }

  lemma EmptyQueue(state: SpongeState, n: nat)
    requires state.Valid() && !state.squeezing && state.message == []
    ensures state.bitsInQueue == 0 && Fits(n, state.bitsInQueue, state.rate)
  {
    hide Sponge.Absorb, Held, Sponge.Pad;
  }

  /** Hash: the sponge of the input with capacity twice the output length. */
  method Hash(hashbitlen: int, data: Bits, databitlen: nat, hashval: array<bool>) returns (result: int)
    requires databitlen < TWO64 && databitlen <= |data| && |data| % 8 == 0
    requires hashbitlen <= hashval.Length
    modifies hashval
    ensures result == if HashLength(hashbitlen) then SUCCESS else BAD_HASHLEN
    ensures result == SUCCESS ==>
              hashval[..hashbitlen] == Sponge.SpongeOf(Input(data, databitlen), 1600 - 2 * hashbitlen, LANE, hashbitlen)
    ensures result == BAD_HASHLEN ==> hashval[..] == old(hashval[..])
  {
    hide SpongeState.Valid, Input, Sponge.SpongeOf, Fits;
    if hashbitlen != 224 && hashbitlen != 256 && hashbitlen != 384 && hashbitlen != 512 {
      return BAD_HASHLEN;
    }
    var state := new SpongeState();
    result := Init(state, hashbitlen);
    if result != SUCCESS {
      return;
    }
    EmptyQueue(state, Whole(databitlen));
    result := Update(state, data, databitlen);
    if result != SUCCESS {
      return;
    }
    assert [] + Input(data, databitlen) == Input(data, databitlen);
    result := Final(state, hashval);
  }
}
