/** The free lists: 127 doubly linked bins and the fastbins, threaded through free chunks. */
module Bins {
  import opened Chunks
  import opened Rings
  import opened Ladders
  import opened Sizes

  const NBINS := 128
  const NSMALLBINS := 64
  const UNSORTED := 1
  const NFASTBINS := 10

  /** bin_at: the list head of bin b, addressed as a chunk. */
  function Head(b: int): int {
    2 * b
  }

  /** What the model remembers beside memory: the chunks, and the contents of every list. */
  datatype View = View(c: Chunks, lists: seq<seq<int>>, skips: seq<seq<int>>, fasts: seq<seq<int>>)

  // ------------------------------------------------------------------ one bin

  ghost predicate Member(c: Chunks, b: int, x: int) {
    && x in c && c[x].kind == Free(b)
    && (b != UNSORTED ==> BinIndex(8 * c[x].n) == b)
  }

  /** A chunk of large size is taken to the unsorted list without nextsize pointers. */
  ghost predicate Unskipped(mem: seq<int>, c: Chunks, x: int) {
    8 * Size(c, x) >= MIN_LARGE_SIZE ==> NoSkip(mem, x)
  }

  ghost predicate BinOk(mem: seq<int>, c: Chunks, b: int, l: seq<int>, s: seq<int>) {
    && Ring(mem, Head(b), l)
    && (forall x {:trigger Member(c, b, x)} :: x in l ==> Member(c, b, x))
    && (if b >= NSMALLBINS then Ladder(mem, c, l, s) else s == [])
    && (b == UNSORTED ==> forall x {:trigger Unskipped(mem, c, x)} :: x in l ==> Unskipped(mem, c, x))
  }

  ghost predicate BinAt(mem: seq<int>, g: View, b: int)
    requires 0 <= b < |g.lists| && 0 <= b < |g.skips|
  {
    BinOk(mem, g.c, b, g.lists[b], g.skips[b])
  }

  // ------------------------------------------------------------------ one fastbin

  ghost predicate FastMember(c: Chunks, i: int, x: int) {
    x in c && c[x].kind == Fast && FastIndex(8 * c[x].n) == i
  }

  ghost predicate FastLinked(mem: seq<int>, l: seq<int>, k: int)
    requires 0 <= k < |l|
  {
    && 0 < l[k] && l[k] + FD < |mem|
    && mem[l[k] + FD] == if k + 1 < |l| then l[k + 1] else 0
  }

  ghost predicate FastOk(mem: seq<int>, c: Chunks, i: int, head: int, l: seq<int>) {
    && head == (if l == [] then 0 else l[0])
    && Distinct(l)
    && (forall k {:trigger FastLinked(mem, l, k)} :: 0 <= k < |l| ==> FastLinked(mem, l, k))
    && (forall x {:trigger FastMember(c, i, x)} :: x in l ==> FastMember(c, i, x))
  }

  ghost predicate FastAt(mem: seq<int>, g: View, fb: seq<int>, i: int)
    requires 0 <= i < |fb| && 0 <= i < |g.fasts|
  {
    FastOk(mem, g.c, i, fb[i], g.fasts[i])
  }

  // ------------------------------------------------------------------ all lists

  /** Every list but bin `but` is in order; `but` is 0 when none is excepted. */
  ghost predicate Sound(mem: seq<int>, base: int, g: View, fb: seq<int>, but: int) {
    && Tiled(mem, g.c, base)
    && |g.lists| == NBINS && |g.skips| == NBINS && |g.fasts| == NFASTBINS && |fb| == NFASTBINS
    && (forall b {:trigger BinAt(mem, g, b)} :: 1 <= b < NBINS && b != but ==> BinAt(mem, g, b))
    && (forall i {:trigger FastAt(mem, g, fb, i)} :: 0 <= i < NFASTBINS ==> FastAt(mem, g, fb, i))
  }

  /** A free chunk is on the list its kind names, a fast one on the fastbin of its size. */
  ghost predicate Listed(g: View, x: int)
    requires x in g.c && |g.lists| == NBINS && |g.fasts| == NFASTBINS
  {
    match g.c[x].kind
    case Free(b) => 1 <= b < NBINS && x in g.lists[b]
    case Fast => var i := FastIndex(8 * g.c[x].n); 0 <= i < NFASTBINS && x in g.fasts[i]
    case _ => true
  }

  ghost predicate AllListed(g: View) {
    && |g.lists| == NBINS && |g.fasts| == NFASTBINS
    && forall x {:trigger Listed(g, x)} :: x in g.c ==> Listed(g, x)
  }

  // ------------------------------------------------------------------ stores and the lists they miss

  /** Word `a` is a link of neither bin `b` nor any fast chunk. */
  ghost predicate Misses(c: Chunks, b: int, a: int) {
    && a != Head(b) + FD && a != Head(b) + BK
    && forall y :: y in c && (c[y].kind == Free(b) || c[y].kind.Fast?) ==>
         !(y + FD <= a < y + c[y].n && a <= y + BK_NEXTSIZE)
  }

  lemma BinKept(mem: seq<int>, base: int, g: View, b: int, a: int, v: int)
    requires Tiled(mem, g.c, base) && 0 <= a < |mem| && Misses(g.c, b, a)
    requires |g.lists| == NBINS && |g.skips| == NBINS && 1 <= b < NBINS && BinAt(mem, g, b)
    ensures BinAt(mem[a := v], g, b)
  {
    var l, s, m := g.lists[b], g.skips[b], mem[a := v];
    forall y | y in l
      ensures y in g.c && y != a - FD && y != a - BK
      ensures b >= NSMALLBINS ==> y != a - FD_NEXTSIZE && y != a - BK_NEXTSIZE
      ensures 8 * g.c[y].n >= MIN_LARGE_SIZE ==> y != a - FD_NEXTSIZE && y != a - BK_NEXTSIZE
    {
      assert Member(g.c, b, y) && ChunkOk(mem, g.c, base, y);
      BinIndexRange(8 * g.c[y].n);
    }
    RingFrame(mem, Head(b), l, a, v);
    if b >= NSMALLBINS {
      LadderFrame(mem, g.c, l, s, a, v);
    }
    if b == UNSORTED {
      forall y | y in l ensures Unskipped(m, g.c, y) {
        assert Unskipped(mem, g.c, y);
      }
    }
  }

  lemma FastKept(mem: seq<int>, base: int, g: View, fb: seq<int>, b: int, i: int, a: int, v: int)
    requires Tiled(mem, g.c, base) && 0 <= a < |mem| && Misses(g.c, b, a) && 0 <= i < NFASTBINS
    requires |g.fasts| == NFASTBINS && |fb| == NFASTBINS && FastAt(mem, g, fb, i)
    ensures FastAt(mem[a := v], g, fb, i)
  {
    var l, m := g.fasts[i], mem[a := v];
    forall k | 0 <= k < |l| ensures FastLinked(m, l, k) {
      assert FastLinked(mem, l, k) && FastMember(g.c, i, l[k]) && ChunkOk(mem, g.c, base, l[k]);
    }
  }

  /** Word `a` belongs to the head of bin `b` or lies inside chunk `x`, which is on bin `b` or in limbo. */
  ghost predicate LinkWord(c: Chunks, b: int, x: int, a: int) {
    || (x == Head(b) && 1 <= b < NBINS && (a == x + FD || a == x + BK))
    || (x in c && (c[x].kind == Free(b) || c[x].kind.Limbo?) && x + FD <= a < x + c[x].n)
  }

  lemma LinkMisses(mem: seq<int>, base: int, c: Chunks, b: int, x: int, a: int)
    requires Tiled(mem, c, base) && LinkWord(c, b, x, a)
    ensures 0 <= a < |mem|
    ensures forall b' {:trigger Misses(c, b', a)} :: 1 <= b' < NBINS && b' != b ==> Misses(c, b', a)
    ensures a >= FIRST ==> x in c && x >= FIRST
  {
    assert ChunkOk(mem, c, base, base);
    if x in c { assert ChunkOk(mem, c, base, x); }
    forall b' | 1 <= b' < NBINS && b' != b ensures Misses(c, b', a) {
      forall y | y in c && (c[y].kind == Free(b') || c[y].kind.Fast?) ensures !(y + FD <= a < y + c[y].n) {
        assert ChunkOk(mem, c, base, y);
        if x in c { assert Apart(c, x, y) && Apart(c, y, x); }
      }
    }
  }

  /** A store to a link word of bin `b`, or inside a chunk in limbo, leaves everything else in order. */
  lemma LinkWrite(mem: seq<int>, base: int, g: View, fb: seq<int>, b: int, x: int, a: int, v: int)
    requires Sound(mem, base, g, fb, b) && LinkWord(g.c, b, x, a)
    ensures 0 <= a < |mem| && Sound(mem[a := v], base, g, fb, b)
  {
    LinkMisses(mem, base, g.c, b, x, a);
    var m := mem[a := v];
    if a < FIRST { HeaderWrite(mem, g.c, base, a, v); } else { InteriorWrite(mem, g.c, base, x, a, v); }
    forall b' | 1 <= b' < NBINS && b' != b ensures BinAt(m, g, b') {
      assert BinAt(mem, g, b') && Misses(g.c, b', a);
      BinKept(mem, base, g, b', a, v);
    }
    var other := if b == 1 then 2 else 1;
    assert Misses(g.c, other, a);
    forall i | 0 <= i < NFASTBINS ensures FastAt(m, g, fb, i) {
      assert FastAt(mem, g, fb, i);
      FastKept(mem, base, g, fb, other, i, a, v);
    }
  }

  lemma TagMisses(mem: seq<int>, base: int, c: Chunks, q: int, b: int)
    requires Tiled(mem, c, base) && q in c && 1 <= b < NBINS
    ensures 0 <= q && q + SIZE < |mem| && Misses(c, b, q) && Misses(c, b, q + SIZE)
  {
    assert ChunkOk(mem, c, base, q);
    forall y | y in c ensures !(y + FD <= q < y + c[y].n) && !(y + FD <= q + SIZE < y + c[y].n) {
      assert Apart(c, q, y) && Apart(c, y, q);
    }
  }

  /** The lists outlive a store to either tag word of a chunk. */
  lemma TagStore(mem: seq<int>, base: int, g: View, fb: seq<int>, q: int, a: int, v: int)
    requires Sound(mem, base, g, fb, 0) && q in g.c && (a == q || a == q + SIZE)
    ensures 0 <= a < |mem|
    ensures Tiled(mem[a := v], g.c, base) ==> Sound(mem[a := v], base, g, fb, 0)
  {
    TagMisses(mem, base, g.c, q, 1);
    var m := mem[a := v];
    forall b | 1 <= b < NBINS ensures BinAt(m, g, b) {
      assert BinAt(mem, g, b);
      TagMisses(mem, base, g.c, q, b);
      BinKept(mem, base, g, b, a, v);
    }
    forall i | 0 <= i < NFASTBINS ensures FastAt(m, g, fb, i) {
      assert FastAt(mem, g, fb, i);
      FastKept(mem, base, g, fb, 1, i, a, v);
    }
  }

  // ------------------------------------------------------------------ ownership and the lists

  /** The listed chunks of `c`, other than `x`, are the same in `d`. */
  ghost predicate SameListed(c: Chunks, d: Chunks, x: int) {
    forall y :: y in c && y != x && (c[y].kind.Free? || c[y].kind.Fast?) ==>
      y in d && d[y].kind == c[y].kind && d[y].n == c[y].n
  }

  ghost predicate OffLists(g: View, but: int, x: int) {
    && (forall b :: 1 <= b < |g.lists| && b != but ==> x !in g.lists[b])
    && (forall i :: 0 <= i < |g.fasts| ==> x !in g.fasts[i])
  }

  /** Chunks that are on no list may change hands. */
  lemma Regard(mem: seq<int>, base: int, g: View, fb: seq<int>, but: int, x: int, d: Chunks)
    requires Sound(mem, base, g, fb, but) && OffLists(g, but, x)
    requires SameListed(g.c, d, x) && Tiled(mem, d, base)
    ensures Sound(mem, base, g.(c := d), fb, but)
  {
    var h := g.(c := d);
    forall b | 1 <= b < NBINS && b != but ensures BinAt(mem, h, b) {
      assert BinAt(mem, g, b);
      RegardBin(mem, g.c, d, b, g.lists[b], g.skips[b], x);
    }
    forall i | 0 <= i < NFASTBINS ensures FastAt(mem, h, fb, i) {
      assert FastAt(mem, g, fb, i);
      forall y | y in g.fasts[i] ensures FastMember(d, i, y) {
        assert FastMember(g.c, i, y);
      }
    }
  }

  lemma RegardBin(mem: seq<int>, c: Chunks, d: Chunks, b: int, l: seq<int>, s: seq<int>, x: int)
    requires BinOk(mem, c, b, l, s) && x !in l && SameListed(c, d, x)
    ensures BinOk(mem, d, b, l, s)
  {
    forall y | y in l ensures Member(d, b, y) && Size(c, y) == Size(d, y) {
      assert Member(c, b, y);
    }
    if b >= NSMALLBINS {
      LadderSizes(mem, c, d, l, s);
    }
    if b == UNSORTED {
      forall y | y in l ensures Unskipped(mem, d, y) {
        assert Unskipped(mem, c, y);
      }
    }
  }

  /** Live chunks, chunks in limbo and top are on no list. */
  lemma Unlisted(mem: seq<int>, base: int, g: View, fb: seq<int>, but: int, x: int)
    requires Sound(mem, base, g, fb, but) && (x in g.c ==> !g.c[x].kind.Free? && !g.c[x].kind.Fast?)
    ensures OffLists(g, but, x)
  {
    forall b | 1 <= b < NBINS && b != but ensures x !in g.lists[b] {
      assert BinAt(mem, g, b);
      assert x in g.lists[b] ==> Member(g.c, b, x);
    }
    forall i | 0 <= i < NFASTBINS ensures x !in g.fasts[i] {
      assert FastAt(mem, g, fb, i);
      assert x in g.fasts[i] ==> FastMember(g.c, i, x);
    }
  }

  // ------------------------------------------------------------------ live chunks and their words

  /** `live` maps each chunk in the caller's hands to its size in words. */
  ghost predicate AllLive(live: map<int, int>, c: Chunks) {
    && (forall p :: p in live ==> p in c && c[p].kind.Live? && c[p].n == live[p])
    && (forall p :: p in c && c[p].kind.Live? ==> p in live)
  }

  /** Word `a` is the caller's: the usable area of a chunk reaches into the next chunk's first word. */
  ghost predicate UserWord(live: map<int, int>, p: int, a: int) {
    p in live && p + FD <= a <= p + live[p]
  }

  /** No word in the caller's hands has changed. */
  ghost predicate UserSame(live: map<int, int>, m0: seq<int>, m1: seq<int>) {
    forall p, a {:trigger UserWord(live, p, a)} :: UserWord(live, p, a) ==> 0 <= a < |m0| && a < |m1| && m0[a] == m1[a]
  }

  lemma UserChain(l0: map<int, int>, l1: map<int, int>, m0: seq<int>, m1: seq<int>, m2: seq<int>)
    requires UserSame(l0, m0, m1) && UserSame(l1, m1, m2)
    requires forall p :: p in l0 ==> p in l1 && l1[p] == l0[p]
    ensures UserSame(l0, m0, m2)
  {
    forall p, a | UserWord(l0, p, a) ensures 0 <= a < |m0| && a < |m2| && m0[a] == m2[a] {
      assert UserWord(l1, p, a);
    }
  }

  lemma UserInside(mem: seq<int>, base: int, c: Chunks, live: map<int, int>)
    requires Tiled(mem, c, base) && AllLive(live, c)
    ensures UserSame(live, mem, mem)
  {
    forall p, a | UserWord(live, p, a) ensures 0 <= a < |mem| {
      assert ChunkOk(mem, c, base, p);
    }
  }

  lemma LinkNotUser(mem: seq<int>, base: int, c: Chunks, live: map<int, int>, b: int, x: int, a: int, v: int)
    requires Tiled(mem, c, base) && AllLive(live, c) && LinkWord(c, b, x, a)
    ensures 0 <= a < |mem| && UserSame(live, mem, mem[a := v])
  {
    LinkMisses(mem, base, c, b, x, a);
    forall p, w | UserWord(live, p, w) ensures 0 <= w < |mem| && w != a {
      assert ChunkOk(mem, c, base, p);
      if x in c {
        assert Apart(c, x, p) && Apart(c, p, x);
      }
    }
  }

  /** A size word is never the caller's; a foot only if the chunk in front of it is. */
  lemma TagNotUser(mem: seq<int>, base: int, c: Chunks, live: map<int, int>, q: int, a: int, v: int)
    requires Tiled(mem, c, base) && AllLive(live, c) && q in c
    requires a == q + SIZE || (a == q + c[q].n && a < |mem| && !c[q].kind.Live?)
    ensures 0 <= a < |mem| && UserSame(live, mem, mem[a := v])
  {
    assert ChunkOk(mem, c, base, q);
    forall p, w | UserWord(live, p, w) ensures 0 <= w < |mem| && w != a {
      assert ChunkOk(mem, c, base, p);
      assert Apart(c, q, p) && Apart(c, p, q);
    }
  }

  /** The tag words of every chunk of `c` are the same in both memories. */
  ghost predicate TagsSame(c: Chunks, m0: seq<int>, m1: seq<int>) {
    && |m0| == |m1|
    && forall x :: x in c ==> 0 <= x && x + SIZE < |m0| && m0[x] == m1[x] && m0[x + SIZE] == m1[x + SIZE]
  }

  lemma LinkNotTag(mem: seq<int>, base: int, c: Chunks, b: int, x: int, a: int, v: int)
    requires Tiled(mem, c, base) && LinkWord(c, b, x, a)
    ensures 0 <= a < |mem| && TagsSame(c, mem, mem[a := v])
  {
    LinkMisses(mem, base, c, b, x, a);
    forall q | q in c ensures 0 <= q && q + SIZE < |mem| && a != q && a != q + SIZE {
      assert ChunkOk(mem, c, base, q);
      if x in c {
        assert Apart(c, x, q) && Apart(c, q, x);
      }
    }
  }

  /** The caller may write any word of its own: the inside of the chunk and the word behind it. */
  lemma UserWrite(mem: seq<int>, base: int, g: View, fb: seq<int>, p: int, a: int, v: int)
    requires Sound(mem, base, g, fb, 0) && p in g.c && g.c[p].kind.Live? && p + FD <= a <= p + g.c[p].n
    ensures 0 <= a < |mem| && Sound(mem[a := v], base, g, fb, 0)
  {
    assert ChunkOk(mem, g.c, base, p);
    var m := mem[a := v];
    forall x | x in g.c
      ensures ChunkOk(m, g.c, base, x)
      ensures !g.c[x].kind.Live? ==> !(x + FD <= a < x + g.c[x].n)
    {
      assert ChunkOk(mem, g.c, base, x);
      assert Apart(g.c, x, p) && Apart(g.c, p, x);
    }
    forall b | 1 <= b < NBINS ensures BinAt(m, g, b) {
      assert BinAt(mem, g, b);
      BinKept(mem, base, g, b, a, v);
    }
    forall i | 0 <= i < NFASTBINS ensures FastAt(m, g, fb, i) {
      assert FastAt(mem, g, fb, i);
      FastKept(mem, base, g, fb, 1, i, a, v);
    }
  }
}
