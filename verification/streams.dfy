/** KeccakSponge.c: the sponge fed and emptied piece by piece through a queue of one block.

  A buffer of bytes is an array of bits: bit j of byte i is bit 8 * i + j. */
module Streams {
  import Arith
  import opened BitArrays
  import opened Lanes
  import Sponge

  const WIDTH := 1600
  const LANE := 64
  const MAXIMUM_RATE := 1536
  const TWO32 := 0x1_0000_0000
  const TWO64 := 0x1_0000_0000_0000_0000

  function Min(x: int, y: int): int {
    if x <= y then x else y
  }

  // ------------------------------------------------------------------ the 32-bit arithmetic of Absorb

  /** What Absorb computes for the bits that go to the queue next: unsigned 32-bit arithmetic on the 64-bit
    remaining length. */
  function PartialBlock(remaining: nat, inQueue: nat, rate: nat): int {
    var partialBlock := remaining % TWO32;
    if (partialBlock + inQueue) % TWO32 > rate then rate - inQueue else partialBlock
  }

  /** The lengths for which that is right: any length on an empty queue, one that fits the queue, and one whose
    low 32 bits overfill it without wrapping. */
  predicate Fits(length: nat, inQueue: nat, rate: nat) {
    inQueue == 0 || length <= rate - inQueue || (length % TWO32 + inQueue) % TWO32 >= rate
  }

  /** Exactly then the queue gets what there is room for. */
  lemma FitsExactly(length: nat, inQueue: nat, rate: nat)
    requires 0 < inQueue < rate <= MAXIMUM_RATE
    ensures PartialBlock(length, inQueue, rate) == Min(length, rate - inQueue) <==> Fits(length, inQueue, rate)
  {
    var low := length % TWO32;
    assert length < TWO32 ==> low == length;
    if low + inQueue < TWO32 {
      assert (low + inQueue) % TWO32 == low + inQueue;
    } else {
      assert (low + inQueue) % TWO32 == low + inQueue - TWO32;
    }
  }

  /** Otherwise Absorb goes wrong: it overruns the queue at once, or it comes to a round that moves nothing and
    never ends. */
  lemma FitsOrFails(length: nat, inQueue: nat, rate: nat)
    requires 0 < inQueue < rate <= MAXIMUM_RATE && !Fits(length, inQueue, rate)
    ensures var p := PartialBlock(length, inQueue, rate);
      p > rate - inQueue || (p < length && p + inQueue < rate && (length - p) % TWO32 == 0)
  {
    var low := length % TWO32;
    assert length == TWO32 * (length / TWO32) + low;
    if low + inQueue < TWO32 {
      assert (low + inQueue) % TWO32 == low + inQueue;
    } else {
      assert (low + inQueue) % TWO32 == low + inQueue - TWO32;
    }
  }

  /** A remaining length that is a multiple of 2 to the 32nd moves no bit into a queue that is not empty. */
  lemma Stuck(remaining: nat, inQueue: nat, rate: nat)
    requires inQueue <= rate <= MAXIMUM_RATE && remaining % TWO32 == 0
    ensures PartialBlock(remaining, inQueue, rate) == 0
  {
  }

  /** One such length, with one byte in the queue. */
  lemma StuckAtOnce()
    ensures !Fits(TWO32, 8, 1088) && PartialBlock(TWO32, 8, 1088) == 0
  {
    assert (TWO32 % TWO32 + 8) % TWO32 == 8;
  }

  lemma FitsEmpty(remaining: nat, rate: nat)
    requires remaining < rate <= MAXIMUM_RATE
    ensures PartialBlock(remaining, 0, rate) == remaining
  {
    assert remaining % TWO32 == remaining;
  }

  // ------------------------------------------------------------------ the sponge object

  /** The queue ends with the last q bits of the message, and zeros up to the end of their last byte. */
  ghost predicate Held(queue: Bits, q: nat, message: Bits) {
    && q <= |message| && q <= |queue| && queue[..q] == message[|message| - q..]
    && forall k :: q <= k < ByteEnd(q) && k < |queue| ==> !queue[k]
  }

  /** A queue with more bits at its end. */
  lemma HeldMore(queue: Bits, q: nat, message: Bits, more: Bits, tail: Bits)
    requires Held(queue, q, message) && q + |more + tail| <= |queue| && q + |more + tail| == ByteEnd(q + |more|)
    requires forall k :: 0 <= k < |tail| ==> !tail[k]
    ensures Held(Put(queue, q, more + tail), q + |more|, message + more)
  {
    var full := Put(queue, q, more + tail);
    var rest := message[|message| - q..];
    assert (message + more)[|message + more| - (q + |more|)..] == rest + more;
    assert full[..q + |more|] == rest + more;
    forall k | q + |more| <= k < ByteEnd(q + |more|) ensures !full[k] {
      assert full[k] == (more + tail)[k - q];
    }
  }

  /** spongeState */
  class SpongeState {
    var state: Bits
    const dataQueue: array<bool>
    var rate: nat
    var capacity: nat
    var bitsInQueue: nat
    var fixedOutputLength: nat
    var squeezing: bool
    var bitsAvailableForSqueezing: nat

    /** All bits absorbed so far; the number of blocks squeezed before the one in the queue, and of their bits. */
    ghost var message: Bits
    ghost var blocks: nat
    ghost var before: nat

    constructor ()
      ensures dataQueue.Length == MAXIMUM_RATE && fresh(dataQueue)
    {
      dataQueue := new bool[MAXIMUM_RATE];
      state, rate, capacity, bitsInQueue, fixedOutputLength, squeezing := [], 0, 0, 0, 0, false;
      bitsAvailableForSqueezing, message, blocks, before := 0, [], 0, 0;
    }

    ghost predicate Shape()
      reads this
    {
      && 64 <= rate < WIDTH && rate % 64 == 0 && rate + capacity == WIDTH && rate <= MAXIMUM_RATE
      && |state| == WIDTH && dataQueue.Length == MAXIMUM_RATE
    }

    /** The state has absorbed the whole blocks of the message, and the queue holds the rest of it; the last
      byte begun is zero behind the message. */
    ghost predicate Queued()
      reads this, dataQueue
    {
      && Shape() && bitsInQueue <= rate && bitsInQueue <= |message| && (|message| - bitsInQueue) % rate == 0
      && state == Sponge.Absorb(Zeros(WIDTH), message[..|message| - bitsInQueue], rate, LANE)
      && Held(dataQueue[..], bitsInQueue, message)
    }

    /** The state after the padded message. */
    ghost function Root(): (s: Bits)
      requires 2 <= rate <= WIDTH
      reads `message, `rate
      ensures |s| == WIDTH
    {
      Sponge.Absorb(Zeros(WIDTH), message + Sponge.Pad(rate, |message|), rate, LANE)
    }

    /** The queue holds the block of output that is being handed out. */
    ghost predicate Drawn()
      reads this, dataQueue
    {
      && Shape() && bitsAvailableForSqueezing <= rate && bitsAvailableForSqueezing % 8 == 0
      && state == Sponge.Times(Root(), LANE, blocks) && dataQueue[..rate] == state[..rate] && before == rate * blocks
    }

    ghost predicate Valid()
      reads this, dataQueue
    {
      if squeezing then Drawn() else Queued() && bitsInQueue < rate
    }

    /** How many bits have been handed out. */
    ghost function Squeezed(): int
      reads this
    {
      if squeezing then before + rate - bitsAvailableForSqueezing else 0
    }

    /** The first d bits the sponge of the message gives. */
    ghost function Output(d: nat): (z: Bits)
      requires 2 <= rate <= WIDTH
      reads `message, `rate
      ensures |z| == d
    {
      Sponge.SpongeOf(message, rate, LANE, d)
    }

    // ---------------------------------------------------------------- InitSponge

    /** InitSponge: 1 for parameters it refuses, else 0 and an empty sponge. */
    method InitSponge(r: nat, c: nat) returns (result: int)
      requires r < TWO32 && c < TWO32 && dataQueue.Length == MAXIMUM_RATE
      modifies this, dataQueue
      ensures result == 0 <==> r + c == WIDTH && 0 < r < WIDTH && r % 64 == 0
      ensures result == 0 ==> Valid() && !squeezing && rate == r && message == [] && fixedOutputLength == 0
    {
      hide Sponge.F, Sponge.Pad, Sponge.Times;
      SumWraps(r, c);
      if (r + c) % TWO32 != WIDTH {
        return 1;
      }
      if r <= 0 || r >= WIDTH || r % 64 != 0 {
        return 1;
      }
      Reset(r, c);
      return 0;
    }

    lemma SumWraps(r: nat, c: nat)
      requires r < TWO32 && c < TWO32
      ensures (r + c) % TWO32 == WIDTH && r < WIDTH <==> r + c == WIDTH && r < WIDTH
      ensures r < WIDTH && r % 64 == 0 ==> r <= MAXIMUM_RATE
      ensures 0 < r && r % 64 == 0 ==> 64 <= r
    {
    }

    method Reset(r: nat, c: nat)
      requires 64 <= r <= MAXIMUM_RATE && r % 64 == 0 && r + c == WIDTH && dataQueue.Length == MAXIMUM_RATE
      modifies this, dataQueue
      ensures Valid() && !squeezing && rate == r && message == [] && fixedOutputLength == 0
    {
      hide Sponge.F, Sponge.Pad, Sponge.Times;
      rate, capacity, fixedOutputLength := r, c, 0;
      state := Zeros(WIDTH);
      ClearBits(dataQueue, 0, MAXIMUM_RATE);
      bitsInQueue, squeezing, bitsAvailableForSqueezing := 0, false, 0;
      message, blocks, before := [], 0, 0;
    }

    // ---------------------------------------------------------------- AbsorbQueue

    /** KeccakAbsorb of the queue, which is full. */
    method AbsorbQueue()
      requires Shape()
      modifies this`state, this`bitsInQueue
      ensures state == Sponge.F(Xor(old(state), dataQueue[..rate]), LANE) && bitsInQueue == 0
    {
      state := Sponge.F(Xor(state, dataQueue[..rate]), LANE);
      bitsInQueue := 0;
    }

    /** A queue full of message is a block of it. */
    method AbsorbFull()
      requires Queued() && bitsInQueue == rate
      modifies this`state, this`bitsInQueue
      ensures Queued() && bitsInQueue == 0
    {
      hide Sponge.F, Xor, Sponge.Absorb;
      ghost var p, block := message[..|message| - rate], message[|message| - rate..];
      assert p + block == message;
      Sponge.AbsorbMore(Zeros(WIDTH), p, block, rate, LANE);
      Sponge.MoreBlock(|p|, rate);
      assert dataQueue[..rate] == block;
      AbsorbQueue();
      assert message[..|message|] == message;
    }

    // ---------------------------------------------------------------- Absorb

    /** One whole block straight from the input. */
    method AbsorbBlock(data: Bits, i: nat)
      requires Queued() && bitsInQueue == 0 && i + rate <= |data|
      modifies this`state, this`message
      ensures Queued() && message == old(message) + data[i..i + rate]
    {
      hide Sponge.F, Xor, Sponge.Absorb;
      ghost var block := data[i..i + rate];
      assert message[..|message|] == message;
      Sponge.AbsorbMore(Zeros(WIDTH), message, block, rate, LANE);
      Sponge.MoreBlock(|message|, rate);
      state := Sponge.F(Xor(state, data[i..i + rate]), LANE);
      message := message + block;
      assert message[..|message|] == message;
    }

    /** As many as there are. */
    method AbsorbBlocks(data: Bits, i: nat, wholeBlocks: nat)
      requires Queued() && bitsInQueue == 0 && i + wholeBlocks * rate <= |data|
      modifies this`state, this`message
      ensures Queued() && message == old(message) + data[i..i + wholeBlocks * rate]
    {
      hide Sponge.Absorb;
      ghost var m0, end := message, i + wholeBlocks * rate;
      var curData, j := i, 0;
      while j < wholeBlocks
        invariant Queued() && bitsInQueue == 0 && 0 <= j <= wholeBlocks && 64 <= rate
        invariant curData + (wholeBlocks - j) * rate == end
        invariant i <= curData <= end && message == m0 + data[i..curData]
      {
        LastBlocks(wholeBlocks - j, rate);
        AbsorbBlock(data, curData);
        assert data[i..curData] + data[curData..curData + rate] == data[i..curData + rate];
        curData, j := curData + rate, j + 1;
      }
    }

    lemma LastBlocks(n: nat, r: nat)
      requires n > 0
      ensures n * r == r + (n - 1) * r && (n - 1) * r >= 0
    {
    }

    /** Whole bytes go to the queue: memcpy, n a multiple of 8. */
    method Enqueue(data: Bits, i: nat, n: nat)
      requires Queued() && bitsInQueue % 8 == 0 && n % 8 == 0 && bitsInQueue + n <= rate && i + n <= |data|
      modifies this`bitsInQueue, this`message, dataQueue
      ensures Queued() && message == old(message) + data[i..i + n] && bitsInQueue == old(bitsInQueue) + n
    {
      hide Sponge.Absorb, Sponge.F, Sponge.Pad, Held, Put, ByteEnd;
      WholeByteEnd(bitsInQueue, n);
      HeldMore(dataQueue[..], bitsInQueue, message, data[i..i + n], []);
      assert data[i..i + n] + [] == data[i..i + n];
      CopyBits(dataQueue, bitsInQueue, data, i, n);
      Noted(data[i..i + n]);
    }

    lemma WholeByteEnd(q: nat, n: nat)
      requires q % 8 == 0 && n % 8 == 0
      ensures ByteEnd(q + n) == q + n
    {
      var k := q / 8 + n / 8;
      assert q + n + 7 == 8 * k + 7;
      Arith.DivUnique(q + n + 7, 8, k, 7);
    }

    /** The bits are part of the message once the queue holds them. */
    method Noted(more: Bits)
      requires Shape() && bitsInQueue <= |message| && bitsInQueue + |more| <= rate
      requires (|message| - bitsInQueue) % rate == 0
      requires state == Sponge.Absorb(Zeros(WIDTH), message[..|message| - bitsInQueue], rate, LANE)
      requires Held(dataQueue[..], bitsInQueue + |more|, message + more)
      modifies this`bitsInQueue, this`message
      ensures Queued() && message == old(message) + more && bitsInQueue == old(bitsInQueue) + |more|
    {
      hide Sponge.Absorb, Sponge.F, Sponge.Pad, Held;
      ghost var whole := message[..|message| - bitsInQueue];
      message := message + more;
      bitsInQueue := bitsInQueue + |more|;
      assert |message| - bitsInQueue == |whole| && message[..|whole|] == whole;
    }

    /** The bits of a last incomplete byte, the others masked out. */
    method EnqueueByte(data: Bits, i: nat, partialByte: nat)
      requires Queued() && bitsInQueue % 8 == 0 && 0 < partialByte < 8 && bitsInQueue + partialByte <= rate
      requires i + 8 <= |data|
      modifies this`bitsInQueue, this`message, dataQueue
      ensures Queued() && message == old(message) + data[i..i + partialByte]
      ensures bitsInQueue == old(bitsInQueue) + partialByte
    {
      hide Sponge.Absorb, Sponge.F, Sponge.Pad, Held, Put;
      RoomForByte(bitsInQueue, partialByte, rate);
      ghost var more, tail := data[i..i + partialByte], Zeros(8 - partialByte);
      HeldMore(dataQueue[..], bitsInQueue, message, more, tail);
      var last := Masked(data[i..i + 8], partialByte);
      assert data[i..i + 8][..partialByte] == more;
      assert last[0..8] == last == more + tail;
      CopyBits(dataQueue, bitsInQueue, last, 0, 8);
      Noted(data[i..i + partialByte]);
    }

    lemma RoomForByte(q: nat, partialByte: nat, r: nat)
      requires q % 8 == 0 && r % 64 == 0 && 0 < partialByte < 8 && q + partialByte <= r
      ensures q + 8 <= r && ByteEnd(q + partialByte) == q + 8
    {
      var a, c := q / 8, 8 * (r / 64);
      assert q == 8 * a && r == 8 * c;
      assert a < c;
      assert (8 * a + (partialByte + 7)) / 8 == a + 1;
    }

    /** The whole bytes of a part; a queue they fill is absorbed. */
    method FillQueue(data: Bits, i: nat, n: nat)
      requires Queued() && bitsInQueue % 8 == 0 && n % 8 == 0 && bitsInQueue + n <= rate && i + n <= |data|
      modifies this`state, this`bitsInQueue, this`message, dataQueue
      ensures Queued() && message == old(message) + data[i..i + n]
      ensures bitsInQueue == if old(bitsInQueue) + n == rate then 0 else old(bitsInQueue) + n
    {
      hide Sponge.Absorb, Held;
      Enqueue(data, i, n);
      if bitsInQueue == rate {
        AbsorbFull();
      }
    }

    /** The sizes of the next part: whole bytes, and bits of a last byte. */
    method PartSizes(left: nat) returns (whole: nat, partialByte: nat)
      requires Shape() && 0 < left && bitsInQueue < rate && bitsInQueue % 8 == 0
      requires PartialBlock(left, bitsInQueue, rate) == Min(left, rate - bitsInQueue)
      ensures whole % 8 == 0 && bitsInQueue + whole <= rate && whole + partialByte == Min(left, rate - bitsInQueue)
      ensures partialByte < 8
      ensures partialByte > 0 ==> whole + partialByte == left && bitsInQueue + whole + partialByte < rate
      ensures partialByte == 0 && whole < left ==> bitsInQueue + whole == rate
    {
      hide PartialBlock;
      var partialBlock := PartialBlock(left, bitsInQueue, rate);
      partialByte := partialBlock % 8;
      PartBytes(left, bitsInQueue, rate);
      whole := partialBlock - partialByte;
    }

    /** One round of the loop of Absorb on a queue that has room: at most what is left of the block. */
    method AbsorbPart(data: Bits, i: nat, length: nat) returns (i': nat)
      requires Queued() && bitsInQueue < rate && bitsInQueue % 8 == 0 && i % 8 == 0 && i < length <= |data|
      requires |data| % 8 == 0
      requires PartialBlock(length - i, bitsInQueue, rate) == Min(length - i, rate - bitsInQueue)
      modifies this`state, this`bitsInQueue, this`message, dataQueue
      ensures Queued() && bitsInQueue < rate && i < i' <= length && message == old(message) + data[i..i']
      ensures i' == length || (bitsInQueue == 0 && i' % 8 == 0)
    {
      hide Sponge.Absorb, Held, PartialBlock;
      var partialBlock, partialByte := PartSizes(length - i);
      Sums8(i, partialBlock);
      Sums8(bitsInQueue, partialBlock);
      FillQueue(data, i, partialBlock);
      i' := i + partialBlock;
      if partialByte > 0 {
        LastByte(i', partialByte, |data|);
        EnqueueByte(data, i', partialByte);
        assert data[i..i'] + data[i'..i' + partialByte] == data[i..i' + partialByte];
        i' := i' + partialByte;
      }
    }

    lemma PartBytes(left: nat, q: nat, r: nat)
      requires 0 < left && q < r && q % 8 == 0 && r % 64 == 0
      ensures var p := Min(left, r - q); var b := p % 8; (p - b) % 8 == 0 && (q + (p - b)) % 8 == 0 && q + (p - b) <= r
      ensures var p := Min(left, r - q); p % 8 > 0 ==> p == left && q + p < r
      ensures var p := Min(left, r - q); p % 8 == 0 && p < left ==> q + p == r
    {
      var p := Min(left, r - q);
      Eights(p, q, r);
    }

    lemma Eights(p: nat, q: nat, r: nat)
      requires q <= r && q % 8 == 0 && r % 64 == 0
      ensures (p - p % 8) % 8 == 0 && (q + (p - p % 8)) % 8 == 0 && (r - q) % 8 == 0
    {
      var a, b, c := p / 8, q / 8, r / 64;
      assert p - p % 8 == 8 * a && q == 8 * b && r == 8 * (8 * c);
      assert q + (p - p % 8) == 8 * (a + b) && r - q == 8 * (8 * c - b);
    }

    lemma LastByte(i: nat, k: nat, n: nat)
      requires i % 8 == 0 && n % 8 == 0 && 0 < k < 8 && i + k <= n
      ensures i + 8 <= n
    {
    }

    /** Whole blocks straight from the input, as many as are left. */
    method AbsorbWhole(data: Bits, i: nat, length: nat) returns (i': nat)
      requires Queued() && bitsInQueue == 0 && i % 8 == 0 && i + rate <= length <= |data|
      modifies this`state, this`message
      ensures Queued() && i < i' <= length && length - i' < rate && i' % 8 == 0 && message == old(message) + data[i..i']
    {
      hide Sponge.Absorb, Held, Sponge.Pad, Sponge.F;
      var wholeBlocks := (length - i) / rate;
      WholeBlocks(length - i, rate);
      AbsorbBlocks(data, i, wholeBlocks);
      Sums8(i, wholeBlocks * rate);
      i' := i + wholeBlocks * rate;
    }

    /** One round of the loop of Absorb. */
    method AbsorbStep(data: Bits, i: nat, length: nat) returns (i': nat)
      requires Queued() && bitsInQueue < rate && bitsInQueue % 8 == 0 && i % 8 == 0 && i < length <= |data|
      requires |data| % 8 == 0
      requires 0 < bitsInQueue ==> PartialBlock(length - i, bitsInQueue, rate) == Min(length - i, rate - bitsInQueue)
      modifies this`state, this`bitsInQueue, this`message, dataQueue
      ensures Queued() && bitsInQueue < rate && i < i' <= length && message == old(message) + data[i..i']
      ensures i' == length || (bitsInQueue == 0 && i' % 8 == 0)
    {
      hide Sponge.Absorb, Held, PartialBlock;
      if bitsInQueue == 0 && length >= rate && i <= length - rate {
        i' := AbsorbWhole(data, i, length);
      } else {
        if bitsInQueue == 0 { FitsEmpty(length - i, rate); }
        i' := AbsorbPart(data, i, length);
      }
    }

    lemma Ranges()
      requires Valid()
      ensures 64 <= rate <= MAXIMUM_RATE && rate % 8 == 0
    {
      hide Sponge.Absorb, Sponge.F, Sponge.Pad, Sponge.Times, Held;
      Eights(0, 0, rate);
    }

    /** Absorb: 1 when the queue ends inside a byte or squeezing has begun, else 0 and the bits are absorbed. */
    method Absorb(data: Bits, databitlen: nat) returns (result: int)
      requires Valid() && databitlen < TWO64 && databitlen <= |data| && |data| % 8 == 0
      requires Fits(databitlen, bitsInQueue, rate)
      modifies this`state, this`bitsInQueue, this`message, dataQueue
      ensures Valid() && (result == 0 <==> old(bitsInQueue) % 8 == 0 && !squeezing) && (result == 0 || result == 1)
      ensures result == 0 ==> message == old(message) + data[..databitlen]
      ensures result == 1 ==> message == old(message) && bitsInQueue == old(bitsInQueue) && state == old(state)
    {
      if bitsInQueue % 8 != 0 {
        return 1;
      }
      if squeezing {
        return 1;
      }
      hide Queued, Drawn, PartialBlock, Fits, Min;
      Ranges();
      if 0 < bitsInQueue { FitsExactly(databitlen, bitsInQueue, rate); }
      AbsorbLoop(data, databitlen);
      return 0;
    }

    /** The loop of Absorb. */
    method AbsorbLoop(data: Bits, databitlen: nat)
      requires Queued() && bitsInQueue < rate && bitsInQueue % 8 == 0 && databitlen <= |data| && |data| % 8 == 0
      requires 0 < bitsInQueue ==> PartialBlock(databitlen, bitsInQueue, rate) == Min(databitlen, rate - bitsInQueue)
      modifies this`state, this`bitsInQueue, this`message, dataQueue
      ensures Queued() && bitsInQueue < rate && message == old(message) + data[..databitlen]
    {
      hide Queued, PartialBlock, Min;
      ghost var m0 := message;
      assert data[..0] == [];
      var i := 0;
      while i < databitlen
        invariant Queued() && bitsInQueue < rate && 0 <= i <= databitlen && message == m0 + data[..i]
        invariant i < databitlen ==> i % 8 == 0 && bitsInQueue % 8 == 0 && (0 < bitsInQueue ==> i == 0)
        invariant i == 0 ==> bitsInQueue == old(bitsInQueue)
      {
        var i' := AbsorbStep(data, i, databitlen);
        assert data[..i] + data[i..i'] == data[..i'];
        i := i';
      }
    }

    lemma WholeBlocks(left: nat, r: nat)
      requires 0 < r <= left && r % 64 == 0
      ensures var n := left / r; 0 < n * r <= left && left - n * r < r && n * r % 8 == 0
    {
      var n := left / r;
      assert left == r * n + left % r;
      assert n * r == r * n && n >= 1;
      assert n * r == 8 * (n * (r / 8));
    }

    // ---------------------------------------------------------------- PadAndSwitchToSqueezingPhase

    /** One bit short of a block: the first bit of the padding fills it, and the last ends a block of zeros. */
    method PadTwoBlocks()
      requires Queued() && bitsInQueue + 1 == rate
      modifies this`state, this`bitsInQueue, dataQueue
      ensures state == Root()
    {
      hide Sponge.F, Xor, Sponge.Absorb, Sponge.Pad;
      ghost var q, s0 := bitsInQueue, state;
      ghost var rest := message[|message| - q..];
      dataQueue[bitsInQueue] := true;
      assert dataQueue[..rate] == rest + [true];
      AbsorbQueue();
      ClearBits(dataQueue, 0, rate);
      dataQueue[rate - 1] := true;
      assert dataQueue[..rate] == Zeros(rate - 1) + [true];
      AbsorbQueue();
      Sponge.TwoBlocks(message, q, rate, LANE, s0);
    }

    /** Else the padding ends the block in the queue. */
    method PadOneBlock()
      requires Queued() && bitsInQueue + 1 < rate
      modifies this`state, this`bitsInQueue, dataQueue
      ensures state == Root()
    {
      hide Sponge.F, Xor, Sponge.Absorb, Sponge.Pad;
      ghost var q, s0 := bitsInQueue, state;
      ghost var rest := message[|message| - q..];
      ByteEndInside(bitsInQueue, rate);
      ClearBits(dataQueue, ByteEnd(bitsInQueue), rate - ByteEnd(bitsInQueue));
      assert dataQueue[..q] == rest;
      assert forall k :: q <= k < rate ==> !dataQueue[k];
      dataQueue[bitsInQueue] := true;
      dataQueue[rate - 1] := true;
      assert dataQueue[..rate] == rest + [true] + Zeros(rate - q - 2) + [true];
      AbsorbQueue();
      Sponge.OneBlock(message, q, rate, LANE, s0);
    }

    lemma ByteEndInside(q: nat, r: nat)
      requires q < r && r % 64 == 0
      ensures ByteEnd(q) <= r
    {
      assert r % 8 == 0;
    }

    /** KeccakExtract of a block. */
    method Extract()
      requires Shape()
      modifies this`bitsAvailableForSqueezing, dataQueue
      ensures dataQueue[..rate] == state[..rate] && bitsAvailableForSqueezing == rate
    {
      CopyBits(dataQueue, 0, state, 0, rate);
      bitsAvailableForSqueezing := rate;
    }

    method PadAndSwitchToSqueezingPhase()
      requires Valid() && !squeezing
      modifies this`state, this`bitsInQueue, this`squeezing, this`bitsAvailableForSqueezing, this`blocks, this`before
      modifies dataQueue
      ensures Valid() && squeezing && blocks == 0 && bitsAvailableForSqueezing == rate
    {
      hide Sponge.F, Xor, Sponge.Absorb, Sponge.Pad, Held;
      assert rate % 8 == 0 by { Eights(0, 0, rate); }
      if bitsInQueue + 1 == rate {
        PadTwoBlocks();
      } else {
        PadOneBlock();
      }
      Extract();
      squeezing := true;
      blocks, before := 0, 0;
    }

    // ---------------------------------------------------------------- Squeeze

    /** A block of output is there in the output. */
    lemma BlockIsOutput(root: Bits, r: nat, k: nat, base: nat, d: nat, at: nat, n: nat)
      requires |root| == WIDTH && 0 < r <= WIDTH && base == r * k && at + n <= r && base + at + n <= d
      ensures Sponge.Times(root, LANE, k)[at..at + n] == Sponge.Squeeze(root, r, LANE, d)[base + at..base + at + n]
    {
      hide Sponge.F, Sponge.Squeeze, Sponge.Times;
      var t, z := Sponge.Times(root, LANE, k)[at..at + n], Sponge.Squeeze(root, r, LANE, d)[base + at..base + at + n];
      forall i | 0 <= i < n ensures t[i] == z[i] {
        Sponge.SqueezeAt(root, r, LANE, d, k, at + i);
      }
    }

    /** A new block of output, when the last one is used up. */
    method Refill()
      requires Drawn() && squeezing && bitsAvailableForSqueezing == 0
      modifies this`state, this`bitsAvailableForSqueezing, this`blocks, this`before, dataQueue
      ensures Drawn() && bitsAvailableForSqueezing == rate && Squeezed() == old(Squeezed())
    {
      hide Sponge.F, Sponge.Absorb, Sponge.Pad;
      assert rate % 8 == 0 by { Eights(0, 0, rate); }
      assert rate * (blocks + 1) == rate * blocks + rate;
      state := Sponge.F(state, LANE);
      Extract();
      blocks, before := blocks + 1, before + rate;
    }

    lemma SameSlice(a: Bits, b: Bits, r: nat, at: nat, n: nat)
      requires at + n <= r <= |a| && r <= |b| && a[..r] == b[..r]
      ensures a[at..at + n] == b[at..at + n]
    {
      forall k | at <= k < at + n ensures a[k] == b[k] {
        assert a[..r][k] == b[..r][k];
      }
    }

    /** As much output as the queue has, at most n bits. */
    method Hand(output: array<bool>, i: nat, n: nat, ghost d: nat) returns (partialBlock: nat)
      requires Drawn() && squeezing && 0 < bitsAvailableForSqueezing && 0 < n && n % 8 == 0 && i + n <= output.Length
      requires output != dataQueue
      requires Squeezed() + n <= d
      modifies this`bitsAvailableForSqueezing, output
      ensures Drawn() && 0 < partialBlock <= n && partialBlock % 8 == 0 && Squeezed() == old(Squeezed()) + partialBlock
      ensures output[..] == Put(old(output[..]), i, Output(d)[old(Squeezed())..old(Squeezed()) + partialBlock])
    {
      hide Sponge.F, Sponge.Absorb, Sponge.Pad, Sponge.Squeeze, Sponge.Times;
      partialBlock := bitsAvailableForSqueezing;
      if partialBlock > n {
        partialBlock := n;
      }
      var at := rate - bitsAvailableForSqueezing;
      BlockIsOutput(Root(), rate, blocks, before, d, at, partialBlock);
      SameSlice(dataQueue[..], state, rate, at, partialBlock);
      CopyBits(output, i, dataQueue[..], at, partialBlock);
      Sums8(bitsAvailableForSqueezing, partialBlock);
      bitsAvailableForSqueezing := bitsAvailableForSqueezing - partialBlock;
    }

    lemma Sums8(a: nat, b: nat)
      requires a % 8 == 0 && b % 8 == 0
      ensures (a - b) % 8 == 0 && (a + b) % 8 == 0
    {
      var x, y := a / 8, b / 8;
      assert a - b == 8 * (x - y) && a + b == 8 * (x + y);
    }

    /** Squeeze: the next bits of the sponge of the message; 1 when their number is not a multiple of 8. */
    method Squeeze(output: array<bool>, outputLength: nat) returns (result: int)
      requires Valid() && outputLength < TWO64 && outputLength <= output.Length && output != dataQueue
      modifies this`state, this`bitsInQueue, this`squeezing, this`bitsAvailableForSqueezing, this`blocks, this`before
      modifies dataQueue, output
      ensures Valid() && squeezing && (result == 0 <==> outputLength % 8 == 0) && (result == 0 || result == 1)
      ensures Squeezed() == old(Squeezed()) + if result == 0 then outputLength else 0
      ensures Squeezed() >= outputLength || result == 1
      ensures result == 0 ==> output[..outputLength] == Output(Squeezed())[Squeezed() - outputLength..]
      ensures output[outputLength..] == old(output[outputLength..])
      ensures result == 1 ==> output[..] == old(output[..])
    {
      hide Sponge.F, Sponge.Absorb, Sponge.Pad, Sponge.SpongeOf, Sponge.Times, Held;
      if !squeezing {
        PadAndSwitchToSqueezingPhase();
      }
      if outputLength % 8 != 0 {
        return 1;
      }
      HandAll(output, outputLength);
      return 0;
    }

    /** The loop of Squeeze. */
    method HandAll(output: array<bool>, outputLength: nat)
      requires Drawn() && squeezing && outputLength % 8 == 0 && outputLength <= output.Length && output != dataQueue
      modifies this`state, this`bitsAvailableForSqueezing, this`blocks, this`before, dataQueue, output
      ensures Drawn() && Squeezed() == old(Squeezed()) + outputLength && old(Squeezed()) >= 0
      ensures output[..] == Put(old(output[..]), 0, Output(Squeezed())[old(Squeezed())..])
    {
      hide Sponge.F, Sponge.Absorb, Sponge.Pad, Sponge.SpongeOf, Sponge.Times, Put;
      ghost var from, out := Squeezed(), output[..];
      ghost var d := from + outputLength;
      ghost var z := Output(d);
      PutNone(out, z, from);
      var i := 0;
      while i < outputLength
        invariant Drawn() && squeezing && 0 <= i <= outputLength && i % 8 == 0 && Squeezed() == from + i
        invariant Output(d) == z && output[..] == Put(out, 0, z[from..from + i])
      {
        Sums8(outputLength, i);
        var partialBlock := HandSome(output, i, outputLength - i, d);
        Sums8(i, partialBlock);
        PutTwice(out, z, from, i, partialBlock);
        i := i + partialBlock;
      }
      assert z[from..from + i] == z[from..];
    }

    lemma PutNone(t: Bits, z: Bits, from: nat)
      requires from <= |z|
      ensures Put(t, 0, z[from..from + 0]) == t
    {
    }

    lemma PutTwice(t: Bits, z: Bits, from: nat, i: nat, n: nat)
      requires from + i + n <= |z| && i + n <= |t|
      ensures Put(Put(t, 0, z[from..from + i]), i, z[from + i..from + i + n]) == Put(t, 0, z[from..from + (i + n)])
    {
    }

    method HandSome(output: array<bool>, i: nat, n: nat, ghost d: nat) returns (partialBlock: nat)
      requires Drawn() && squeezing && 0 < n && n % 8 == 0 && i + n <= output.Length && output != dataQueue
      requires Squeezed() + n <= d
      modifies this`state, this`bitsAvailableForSqueezing, this`blocks, this`before, dataQueue, output
      ensures Drawn() && 0 < partialBlock <= n && partialBlock % 8 == 0 && Squeezed() == old(Squeezed()) + partialBlock
      ensures output[..] == Put(old(output[..]), i, Output(d)[old(Squeezed())..old(Squeezed()) + partialBlock])
    {
      hide Sponge.F, Sponge.Absorb, Sponge.Pad, Sponge.SpongeOf, Sponge.Times;
      if bitsAvailableForSqueezing == 0 {
        Refill();
      }
      partialBlock := Hand(output, i, n, d);
    }
  }
}
