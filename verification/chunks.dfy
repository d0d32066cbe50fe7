/** The arena as a tiling of chunks, and the boundary tags that describe it.

  Memory is a sequence of 8-byte words: a word address is a byte address divided by 8, and the
  program break is the length of the sequence. Words 4 to 257 hold the list heads of the 127
  bins, so that the head of bin b can be addressed as a chunk at word 2*b; the heap itself
  starts at `base`. Sizes are in bytes inside the size words, and in words in the ghost view. */
module Chunks {
  // The fields of a chunk, as word offsets from its start.
  const SIZE := 1
  const FD := 2
  const BK := 3
  const FD_NEXTSIZE := 4
  const BK_NEXTSIZE := 5

  /** The first word after the bin heads. */
  const FIRST := 258

  /** Who owns a chunk. `Limbo` is a chunk an operation has taken off its list and is still
    rebuilding: no list holds it and no word of it means anything yet. */
  datatype Kind = Live | Fast | Free(bin: int) | Limbo | Top

  /** `n` is the size in words; `pin` is what the PREV_INUSE bit of the chunk says. */
  datatype Chunk = Chunk(n: int, kind: Kind, pin: bool)

  type Chunks = map<int, Chunk>

  function PinBit(b: bool): int {
    if b then 1 else 0
  }

  /** Everything the source promises of one chunk: its place, its neighbour, its tags. */
  ghost predicate ChunkOk(mem: seq<int>, c: Chunks, base: int, p: int)
    requires p in c
  {
    var k := c[p];
    var q := p + k.n;
    && FIRST <= base <= p && p % 2 == 0
    && 4 <= k.n && k.n % 2 == 0 && q <= |mem|
    && (q < |mem| ==> q in c)
    && (q == |mem| ==> k.kind.Top? || k.kind.Limbo?)
    && (k.kind.Limbo? || mem[p + SIZE] == 8 * k.n + PinBit(k.pin))
    && (p == base ==> k.pin)
    && match k.kind
       case Live => q < |mem| && c[q].pin
       case Fast => q < |mem| && c[q].pin
       case Free(_) => k.pin && q < |mem| && mem[q] == 8 * k.n && !c[q].pin && !c[q].kind.Free? && !c[q].kind.Top?
       case Limbo => true
       case Top => k.pin && q == |mem|
  }

  ghost predicate Apart(c: Chunks, p: int, q: int)
    requires p in c && q in c
  {
    p < q ==> p + c[p].n <= q
  }

  /** The heap from `base` to the break is tiled by correctly tagged chunks. */
  ghost predicate Tiled(mem: seq<int>, c: Chunks, base: int) {
    && base in c
    && (forall p {:trigger ChunkOk(mem, c, base, p)} :: p in c ==> ChunkOk(mem, c, base, p))
    && (forall p, q {:trigger Apart(c, p, q)} :: p in c && q in c ==> Apart(c, p, q))
  }

  predicate IsTop(c: Chunks, p: int) {
    p in c && c[p].kind.Top?
  }

  /** No operation is under way. */
  ghost predicate NoLimbo(c: Chunks) {
    forall p :: p in c ==> !c[p].kind.Limbo?
  }

  /** An operation is under way on `p` alone. */
  ghost predicate OnlyLimbo(c: Chunks, p: int) {
    p in c && c[p].kind.Limbo? && forall q :: q in c && q != p ==> !c[q].kind.Limbo?
  }

  // ------------------------------------------------------------------ what a tiling gives

  /** No gap: every word of the heap lies in a chunk. */
  lemma {:induction false} Covered(mem: seq<int>, c: Chunks, base: int, a: int, from: int) returns (p: int)
    requires Tiled(mem, c, base) && from in c && from <= a < |mem|
    ensures p in c && p <= a < p + c[p].n
    decreases |mem| - from
  {
    assert ChunkOk(mem, c, base, from);
    if a < from + c[from].n {
      p := from;
    } else {
      p := Covered(mem, c, base, a, from + c[from].n);
    }
  }

  /** Every chunk but the first has a chunk that ends where it starts. */
  lemma {:induction false} Predecessor(mem: seq<int>, c: Chunks, base: int, p: int) returns (q: int)
    requires Tiled(mem, c, base) && p in c && p != base
    ensures q in c && q + c[q].n == p
  {
    assert ChunkOk(mem, c, base, p) && ChunkOk(mem, c, base, base);
    q := Covered(mem, c, base, p - 1, base);
    assert ChunkOk(mem, c, base, q);
    assert Apart(c, q, p) && Apart(c, p, q);
  }

  /** chunksize */
  function SizeAt(mem: seq<int>, p: int): int
    requires 0 <= p && p + SIZE < |mem|
  {
    mem[p + SIZE] - mem[p + SIZE] % 8
  }

  /** prev_inuse */
  predicate PrevInuse(mem: seq<int>, p: int)
    requires 0 <= p && p + SIZE < |mem|
  {
    mem[p + SIZE] % 2 == 1
  }

  /** The header of a chunk says what the view remembers. */
  ghost predicate HeadKept(mem: seq<int>, c: Chunks, p: int) {
    p in c && 0 <= p && p + SIZE < |mem| && mem[p + SIZE] == 8 * c[p].n + PinBit(c[p].pin)
  }

  lemma HeadReads(mem: seq<int>, c: Chunks, p: int)
    requires HeadKept(mem, c, p)
    ensures SizeAt(mem, p) == 8 * c[p].n && (PrevInuse(mem, p) <==> c[p].pin)
  {
  }

  lemma HeadOf(mem: seq<int>, c: Chunks, base: int, p: int)
    requires Tiled(mem, c, base) && p in c && !c[p].kind.Limbo?
    ensures HeadKept(mem, c, p) && SizeAt(mem, p) == 8 * c[p].n && (PrevInuse(mem, p) <==> c[p].pin)
    ensures FIRST <= p && p % 2 == 0 && 4 <= c[p].n && c[p].n % 2 == 0 && p + c[p].n <= |mem|
    ensures p + c[p].n < |mem| ==> p + c[p].n in c
  {
    assert ChunkOk(mem, c, base, p);
  }

  /** A clear PREV_INUSE bit finds a free chunk in front of the chunk, of the size recorded there. */
  lemma {:induction false} FreeBefore(mem: seq<int>, c: Chunks, base: int, p: int)
    requires Tiled(mem, c, base) && p in c && !c[p].pin
    requires forall q :: q in c && q != p ==> !c[q].kind.Limbo?
    ensures 0 <= p < |mem| && 0 < mem[p] && mem[p] % 8 == 0 && p - mem[p] / 8 in c && c[p - mem[p] / 8].kind.Free?
    ensures mem[p] == 8 * c[p - mem[p] / 8].n
  {
    assert ChunkOk(mem, c, base, p);
    var q := Predecessor(mem, c, base, p);
    assert ChunkOk(mem, c, base, q);
  }

  // ------------------------------------------------------------------ writes that keep the tags

  /** A word strictly inside a chunk carries no tag. */
  lemma InteriorWrite(mem: seq<int>, c: Chunks, base: int, q: int, a: int, v: int)
    requires Tiled(mem, c, base) && q in c && q + FD <= a < q + c[q].n
    ensures 0 <= a < |mem| && Tiled(mem[a := v], c, base)
  {
    assert ChunkOk(mem, c, base, q);
    forall p | p in c ensures ChunkOk(mem[a := v], c, base, p) {
      assert ChunkOk(mem, c, base, p);
      assert Apart(c, p, q) && Apart(c, q, p);
    }
  }

  /** Neither does a word of the bin heads. */
  lemma HeaderWrite(mem: seq<int>, c: Chunks, base: int, a: int, v: int)
    requires Tiled(mem, c, base) && 0 <= a < FIRST
    ensures 0 <= a < |mem| && Tiled(mem[a := v], c, base)
  {
    assert ChunkOk(mem, c, base, base);
    forall p | p in c ensures ChunkOk(mem[a := v], c, base, p) {
      assert ChunkOk(mem, c, base, p);
    }
  }

  /** The size word and the foot of a chunk in limbo are free to be written. */
  lemma LimboWrite(mem: seq<int>, c: Chunks, base: int, q: int, a: int, v: int)
    requires Tiled(mem, c, base) && q in c && c[q].kind.Limbo?
    requires a == q + SIZE || (a == q + c[q].n && a < |mem|)
    ensures 0 <= a < |mem| && Tiled(mem[a := v], c, base)
  {
    assert ChunkOk(mem, c, base, q);
    forall p | p in c ensures ChunkOk(mem[a := v], c, base, p) {
      assert ChunkOk(mem, c, base, p);
      assert Apart(c, p, q) && Apart(c, q, p);
    }
  }

  /** Behind a chunk in limbo the PREV_INUSE bit can be set and cleared. */
  lemma PinWrite(mem: seq<int>, c: Chunks, base: int, p: int, b: bool)
    requires Tiled(mem, c, base) && p in c && c[p].kind.Limbo? && p + c[p].n < |mem|
    ensures var q := p + c[p].n; 0 <= q && q in c && q + 1 < |mem|
    ensures var q := p + c[p].n;
      (!c[q].kind.Free? && !c[q].kind.Top?) || b ==>
      Tiled(mem[q + SIZE := 8 * c[q].n + PinBit(b)], c[q := c[q].(pin := b)], base)
  {
    assert ChunkOk(mem, c, base, p);
    var q := p + c[p].n;
    assert ChunkOk(mem, c, base, q);
    if (!c[q].kind.Free? && !c[q].kind.Top?) || b {
      var m, d := mem[q + SIZE := 8 * c[q].n + PinBit(b)], c[q := c[q].(pin := b)];
      forall x | x in d ensures ChunkOk(m, d, base, x) {
        assert ChunkOk(mem, c, base, x);
        assert Apart(c, x, q) && Apart(c, q, x) && Apart(c, x, p) && Apart(c, p, x);
      }
      forall x, y | x in d && y in d ensures Apart(d, x, y) {
        assert Apart(c, x, y);
      }
    }
  }

  // ------------------------------------------------------------------ changes of ownership

  function SetKind(c: Chunks, p: int, kind: Kind): Chunks
    requires p in c
  {
    c[p := c[p].(kind := kind)]
  }

  lemma ToLimbo(mem: seq<int>, c: Chunks, base: int, p: int)
    requires Tiled(mem, c, base) && p in c
    ensures Tiled(mem, SetKind(c, p, Limbo), base)
  {
    var d := SetKind(c, p, Limbo);
    forall x | x in d ensures ChunkOk(mem, d, base, x) {
      assert ChunkOk(mem, c, base, x);
    }
    forall x, y | x in d && y in d ensures Apart(d, x, y) {
      assert Apart(c, x, y);
    }
  }

  /** A chunk leaves limbo once its own tags and its neighbours' say what it has become. */
  ghost predicate Ready(mem: seq<int>, c: Chunks, p: int, kind: Kind)
    requires p in c
  {
    var q := p + c[p].n;
    && 0 <= p && 4 <= c[p].n && q <= |mem|
    && mem[p + SIZE] == 8 * c[p].n + PinBit(c[p].pin)
    && match kind
       case Live => q in c && q < |mem| && c[q].pin
       case Fast => q in c && q < |mem| && c[q].pin
       case Free(_) =>
        c[p].pin && q in c && q < |mem| && mem[q] == 8 * c[p].n && !c[q].pin && !c[q].kind.Free? && !c[q].kind.Top?
       case Limbo => true
       case Top => c[p].pin && q == |mem|
  }

  lemma FromLimbo(mem: seq<int>, c: Chunks, base: int, p: int, kind: Kind)
    requires Tiled(mem, c, base) && p in c && c[p].kind.Limbo?
    requires Ready(mem, c, p, kind)
    ensures Tiled(mem, SetKind(c, p, kind), base)
  {
    assert ChunkOk(mem, c, base, p);
    var d := SetKind(c, p, kind);
    forall x | x in d ensures ChunkOk(mem, d, base, x) {
      assert ChunkOk(mem, c, base, x);
    }
    forall x, y | x in d && y in d ensures Apart(d, x, y) {
      assert Apart(c, x, y);
    }
  }

  function Merge(c: Chunks, p: int): Chunks
    requires p in c && p + c[p].n in c
  {
    (c - {p + c[p].n})[p := c[p].(n := c[p].n + c[p + c[p].n].n)]
  }

  /** Two neighbours in limbo become one. */
  lemma MergeLimbo(mem: seq<int>, c: Chunks, base: int, p: int)
    requires Tiled(mem, c, base) && p in c && c[p].kind.Limbo?
    requires p + c[p].n in c && c[p + c[p].n].kind.Limbo?
    ensures Tiled(mem, Merge(c, p), base)
  {
    var d := Merge(c, p);
    forall x | x in d ensures ChunkOk(mem, d, base, x) {
      MergeChunk(mem, c, base, p, x);
    }
    MergeApart(mem, c, base, p);
    assert base in d by { MergeBase(mem, c, base, p); }
  }

  lemma MergeBase(mem: seq<int>, c: Chunks, base: int, p: int)
    requires Tiled(mem, c, base) && p in c && p + c[p].n in c
    ensures base in Merge(c, p)
  {
    assert ChunkOk(mem, c, base, p);
  }

  lemma MergeApart(mem: seq<int>, c: Chunks, base: int, p: int)
    requires Tiled(mem, c, base) && p in c && p + c[p].n in c
    ensures forall x, y {:trigger Apart(Merge(c, p), x, y)} ::
      x in Merge(c, p) && y in Merge(c, p) ==> Apart(Merge(c, p), x, y)
  {
    hide ChunkOk;
    var q, d := p + c[p].n, Merge(c, p);
    forall x, y | x in d && y in d ensures Apart(d, x, y) {
      assert Apart(c, x, y);
      assert Apart(c, x, q) && Apart(c, q, y);
    }
  }

  lemma MergeChunk(mem: seq<int>, c: Chunks, base: int, p: int, x: int)
    requires Tiled(mem, c, base) && p in c && c[p].kind.Limbo?
    requires p + c[p].n in c && c[p + c[p].n].kind.Limbo? && x in Merge(c, p)
    ensures ChunkOk(mem, Merge(c, p), base, x)
  {
    var q := p + c[p].n;
    assert ChunkOk(mem, c, base, p) && ChunkOk(mem, c, base, q) && ChunkOk(mem, c, base, x);
    assert Apart(c, x, q) && Apart(c, q, x) && Apart(c, x, p) && Apart(c, p, x);
  }

  /** The first `m` words of a chunk become a chunk of their own; `pin` goes to the rest. */
  function Split(c: Chunks, p: int, m: int, pin: bool): Chunks
    requires p in c
  {
    c[p := c[p].(n := m)][p + m := Chunk(c[p].n - m, Limbo, pin)]
  }

  lemma SplitLimbo(mem: seq<int>, c: Chunks, base: int, p: int, m: int, pin: bool)
    requires Tiled(mem, c, base) && p in c && c[p].kind.Limbo?
    requires 4 <= m <= c[p].n - 4 && m % 2 == 0
    ensures Tiled(mem, Split(c, p, m, pin), base)
    ensures p + m !in c
  {
    var d := Split(c, p, m, pin);
    forall x | x in d ensures ChunkOk(mem, d, base, x) {
      SplitChunk(mem, c, base, p, m, pin, x);
    }
    SplitApart(mem, c, base, p, m, pin);
    assert p + m in c ==> Apart(c, p, p + m);
  }

  lemma SplitChunk(mem: seq<int>, c: Chunks, base: int, p: int, m: int, pin: bool, x: int)
    requires Tiled(mem, c, base) && p in c && c[p].kind.Limbo?
    requires 4 <= m <= c[p].n - 4 && m % 2 == 0 && x in Split(c, p, m, pin)
    ensures ChunkOk(mem, Split(c, p, m, pin), base, x)
  {
    assert ChunkOk(mem, c, base, p);
    assert p + m in c ==> Apart(c, p, p + m);
    if x != p + m {
      assert ChunkOk(mem, c, base, x);
      assert Apart(c, x, p) && Apart(c, p, x);
    }
  }

  lemma SplitApart(mem: seq<int>, c: Chunks, base: int, p: int, m: int, pin: bool)
    requires Tiled(mem, c, base) && p in c && 4 <= m <= c[p].n - 4
    ensures forall x, y {:trigger Apart(Split(c, p, m, pin), x, y)} ::
      x in Split(c, p, m, pin) && y in Split(c, p, m, pin) ==> Apart(Split(c, p, m, pin), x, y)
  {
    hide ChunkOk;
    var d, r := Split(c, p, m, pin), p + m;
    forall x, y | x in d && y in d ensures Apart(d, x, y) {
      if x == r {
        if y != r { assert Apart(c, p, y); }
      } else if y == r {
        assert Apart(c, x, p) && Apart(c, p, x);
      } else {
        assert Apart(c, x, y);
      }
    }
  }
}
