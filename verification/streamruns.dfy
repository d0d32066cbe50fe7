/** Whole runs of the streaming sponge: any pieces absorbed, then any lengths squeezed. */
module StreamRuns {
  import Arith
  import opened Lanes
  import opened Streams
  import Sponge

  /** The arguments of one call of Absorb: a buffer of whole bytes, and how many of its bits are input. */
  datatype Call = Call(data: Bits, length: nat)

  type Piece = p: Call | p.length <= |p.data| && |p.data| % 8 == 0 && p.length < TWO64 witness Call([], 0)

  /** The message the calls have given. */
  function Joined(pieces: seq<Piece>): (message: Bits)
  {
    if pieces == [] then []
    else
      var last := pieces[|pieces| - 1];
      Joined(pieces[..|pieces| - 1]) + last.data[..last.length]
  }

  /** What Absorb asks of its callers: whole bytes in all calls but the last, and lengths its 32-bit arithmetic
    can handle on what is then in the queue. */
  predicate Legal(pieces: seq<Piece>, rate: nat)
    requires rate > 0
  {
    && (forall k :: 0 <= k < |pieces| - 1 ==> pieces[k].length % 8 == 0)
    && forall k :: 0 <= k < |pieces| ==> Fits(pieces[k].length, |Joined(pieces[..k])| % rate, rate)
  }

  function Total(lengths: seq<nat>): nat {
    if lengths == [] then 0 else Total(lengths[..|lengths| - 1]) + lengths[|lengths| - 1]
  }

  /** The queue holds the bits of the message beyond its whole blocks. */
  lemma QueueIs(s: SpongeState)
    requires s.Valid() && !s.squeezing
    ensures s.rate > 0 && s.bitsInQueue == |s.message| % s.rate
  {
    hide Sponge.Absorb, Held, Sponge.Pad;
    var m, q, r := |s.message|, s.bitsInQueue, s.rate;
    var a := (m - q) / r;
    assert m == r * a + q;
    Arith.ModUnique(m, r, a, q);
  }

  lemma {:induction false} WholeBytes(pieces: seq<Piece>)
    requires forall p :: p in pieces ==> p.length % 8 == 0
    ensures |Joined(pieces)| % 8 == 0
  {
    if pieces != [] {
      WholeBytes(pieces[..|pieces| - 1]);
      SpongeStateSums(|Joined(pieces[..|pieces| - 1])|, pieces[|pieces| - 1].length);
    }
  }

  lemma SpongeStateSums(a: nat, b: nat)
    requires a % 8 == 0 && b % 8 == 0
    ensures (a + b) % 8 == 0
  {
  }

  lemma ModEight(m: nat, r: nat)
    requires m % 8 == 0 && r > 0 && r % 8 == 0
    ensures m % r % 8 == 0
  {
    var a, b, q := m / 8, r / 8, m / r;
    assert m % r == 8 * (a - b * q) by {
      assert m == r * q + m % r && r * q == 8 * (b * q);
    }
  }

  /** All the pieces absorbed, one call each; no call fails. */
  method AbsorbAll(s: SpongeState, pieces: seq<Piece>)
    requires s.Valid() && !s.squeezing && s.message == [] && Legal(pieces, s.rate)
    modifies s, s.dataQueue
    ensures s.Valid() && !s.squeezing && s.rate == old(s.rate) && s.message == Joined(pieces)
  {
    hide SpongeState.Valid, Fits;
    assert pieces[..0] == [];
    ghost var rate := s.rate;
    for k := 0 to |pieces|
      invariant s.Valid() && !s.squeezing && s.rate == rate && s.message == Joined(pieces[..k])
    {
      QueueIs(s);
      Multiples(s);
      assert forall p :: p in pieces[..k] ==> p in pieces;
      WholeBytes(pieces[..k]);
      ModEight(|s.message|, rate);
      var result := s.Absorb(pieces[k].data, pieces[k].length);
      assert pieces[..k + 1][..k] == pieces[..k];
    }
    assert pieces[..|pieces|] == pieces;
  }

  lemma Multiples(s: SpongeState)
    requires s.Valid()
    ensures s.rate % 8 == 0 && 64 <= s.rate <= WIDTH
  {
    s.Eights(0, 0, s.rate);
  }

  /** All the lengths squeezed, one call each, and the outputs put together. */
  method SqueezeAll(s: SpongeState, lengths: seq<nat>) returns (output: Bits)
    requires s.Valid() && !s.squeezing && forall n :: n in lengths ==> n % 8 == 0 && n < TWO64
    modifies s, s.dataQueue
    ensures output == Sponge.SpongeOf(old(s.message), old(s.rate), LANE, Total(lengths))
  {
    hide SpongeState.Queued, SpongeState.Drawn, Sponge.SpongeOf;
    output := [];
    ghost var m, rate := s.message, s.rate;
    Multiples(s);
    assert lengths[..0] == [] && Sponge.SpongeOf(m, rate, LANE, 0) == [];
    for k := 0 to |lengths|
      invariant s.Valid() && s.message == m && s.rate == rate && s.Squeezed() == Total(lengths[..k])
      invariant output == Sponge.SpongeOf(m, rate, LANE, Total(lengths[..k]))
    {
      var n := lengths[k];
      assert n in lengths;
      var buffer := new bool[n];
      var result := s.Squeeze(buffer, n);
      assert lengths[..k + 1][..k] == lengths[..k];
      OutputGrows(m, rate, Total(lengths[..k]), Total(lengths[..k + 1]));
      assert s.Output(s.Squeezed()) == Sponge.SpongeOf(m, rate, LANE, Total(lengths[..k + 1]));
      output := output + buffer[..n];
    }
    assert lengths[..|lengths|] == lengths;
  }

  lemma OutputGrows(m: Bits, r: nat, d: nat, e: nat)
    requires 2 <= r <= WIDTH && d <= e
    ensures var z := Sponge.SpongeOf(m, r, LANE, e); Sponge.SpongeOf(m, r, LANE, d) + z[d..] == z
  {
    Sponge.SqueezePrefix(Sponge.Absorb(Zeros(WIDTH), m + Sponge.Pad(r, |m|), r, LANE), r, LANE, d, e);
  }

  /** Streaming refinement: however the message is cut into pieces and the output into lengths, the outputs make
    up what the sponge of the whole message gives. */
  method Stream(s: SpongeState, r: nat, c: nat, pieces: seq<Piece>, lengths: seq<nat>) returns (output: Bits)
    requires s.dataQueue.Length == MAXIMUM_RATE && r + c == WIDTH && 0 < r < WIDTH && r % 64 == 0
    requires Legal(pieces, r) && forall n :: n in lengths ==> n % 8 == 0 && n < TWO64
    modifies s, s.dataQueue
    ensures output == Sponge.SpongeOf(Joined(pieces), r, LANE, Total(lengths))
  {
    hide SpongeState.Valid, Sponge.SpongeOf;
    var result := s.InitSponge(r, c);
    AbsorbAll(s, pieces);
    output := SqueezeAll(s, lengths);
  }
}
