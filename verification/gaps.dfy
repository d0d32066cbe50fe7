/** Free space is as coalesced as it can be. */
module Gaps {
  import opened Chunks
  import opened Rings
  import opened Bins
  import opened Arenas
  import opened Frees

  /** No two binned chunks touch, and none borders top: deferred fast chunks are all that keeps space apart. */
  lemma NoneAdjacent(a: Arena, p: int)
    requires a.Valid() && p in a.g.c && a.g.c[p].kind.Free?
    ensures var q := p + a.g.c[p].n; q in a.g.c && q != a.top && (a.g.c[q].kind.Live? || a.g.c[q].kind.Fast?)
    ensures p != a.base ==>
              exists r :: r in a.g.c && r + a.g.c[r].n == p && (a.g.c[r].kind.Live? || a.g.c[r].kind.Fast?)
  {
    assert ChunkOk(a.mem, a.g.c, a.base, p);
    if p != a.base {
      var r := Predecessor(a.mem, a.g.c, a.base, p);
      assert ChunkOk(a.mem, a.g.c, a.base, r);
    }
  }

  ghost predicate Meets(live: map<int, int>, x: int, lo: int, hi: int) {
    x in live && x < hi && lo < x + live[x]
  }

  ghost predicate EndsAt(live: map<int, int>, x: int, lo: int) {
    x in live && x + live[x] == lo
  }

  /** A maximal stretch of the heap that no live chunk meets. */
  ghost predicate Gap(live: map<int, int>, base: int, end: int, lo: int, hi: int) {
    && base <= lo < hi <= end
    && (forall x {:trigger Meets(live, x, lo, hi)} :: !Meets(live, x, lo, hi))
    && (lo == base || exists x {:trigger EndsAt(live, x, lo)} :: EndsAt(live, x, lo))
    && (hi == end || hi in live)
  }

  /** The stretch is a chunk in a bin, or top. */
  ghost predicate Spare(c: Chunks, lo: int, hi: int) {
    lo in c && (c[lo].kind.Free? || c[lo].kind.Top?) && lo + c[lo].n == hi
  }

  ghost predicate NoFast(a: Arena)
    reads a
  {
    |a.g.fasts| == NFASTBINS && forall i :: 0 <= i < NFASTBINS ==> a.g.fasts[i] == []
  }

  lemma NoFastChunks(a: Arena, p: int)
    requires a.Valid() && NoFast(a) && p in a.g.c
    ensures !a.g.c[p].kind.Fast? && !a.g.c[p].kind.Limbo?
  {
    assert Listed(a.g, p);
  }

  lemma SpareIsGap(a: Arena, lo: int, hi: int)
    requires a.Valid() && NoFast(a) && Spare(a.g.c, lo, hi)
    ensures Gap(a.live, a.base, |a.mem|, lo, hi)
  {
    var c := a.g.c;
    assert ChunkOk(a.mem, c, a.base, lo);
    forall x ensures !Meets(a.live, x, lo, hi) {
      assert x in a.live ==> Apart(c, x, lo) && Apart(c, lo, x);
    }
    if lo != a.base {
      var r := Predecessor(a.mem, c, a.base, lo);
      assert ChunkOk(a.mem, c, a.base, r);
      NoFastChunks(a, r);
      assert EndsAt(a.live, r, lo);
    }
    if hi != |a.mem| {
      assert hi in c;
      NoFastChunks(a, hi);
    }
  }

  lemma GapIsSpare(a: Arena, lo: int, hi: int)
    requires a.Valid() && NoFast(a) && Gap(a.live, a.base, |a.mem|, lo, hi)
    ensures Spare(a.g.c, lo, hi)
  {
    var c := a.g.c;
    if lo != a.base {
      var x :| EndsAt(a.live, x, lo);
      assert ChunkOk(a.mem, c, a.base, x);
    }
    assert ChunkOk(a.mem, c, a.base, lo);
    NoFastChunks(a, lo);
    assert lo in a.live ==> Meets(a.live, lo, lo, hi);
    var q := lo + c[lo].n;
    SpareIsGap(a, lo, q);
    assert q in c ==> ChunkOk(a.mem, c, a.base, q);
    assert hi in c ==> ChunkOk(a.mem, c, a.base, hi);
    assert q in a.live ==> (Meets(a.live, q, lo, hi) <==> q < hi);
    assert hi in a.live ==> (Meets(a.live, hi, lo, q) <==> hi < q);
  }

  /** With empty fastbins, the binned chunks and top are exactly the maximal gaps between live chunks:
    what was freed in which order no longer shows. */
  lemma MaximalGaps(a: Arena)
    requires a.Valid() && NoFast(a)
    ensures forall lo, hi {:trigger Spare(a.g.c, lo, hi)} ::
              Spare(a.g.c, lo, hi) <==> Gap(a.live, a.base, |a.mem|, lo, hi)
  {
    forall lo, hi ensures Spare(a.g.c, lo, hi) <==> Gap(a.live, a.base, |a.mem|, lo, hi) {
      if Spare(a.g.c, lo, hi) {
        SpareIsGap(a, lo, hi);
      } else if Gap(a.live, a.base, |a.mem|, lo, hi) {
        GapIsSpare(a, lo, hi);
      }
    }
  }

  /** malloc_consolidate leaves the free space in one piece wherever it can be. */
  method ConsolidateFully(a: Arena)
    requires a.Valid()
    modifies a
    ensures a.Valid() && a.live == old(a.live) && |a.mem| == |old(a.mem)|
    ensures forall lo, hi {:trigger Spare(a.g.c, lo, hi)} ::
              Spare(a.g.c, lo, hi) <==> Gap(old(a.live), a.base, |old(a.mem)|, lo, hi)
  {
    Consolidate(a);
    MaximalGaps(a);
  }

  // ------------------------------------------------------------------ best fit over all the free space

  /** A free chunk, sorted yet or not, that is big enough for the request. */
  ghost predicate FreeFit(c: Chunks, nb: int, x: int) {
    x in c && c[x].kind.Free? && 8 * c[x].n >= nb
  }

  /** No free chunk is big enough, but for those of `unseen`. */
  ghost predicate NoneFree(c: Chunks, unseen: seq<int>, nb: int) {
    forall x {:trigger FreeFit(c, nb, x)} :: FreeFit(c, nb, x) ==> x in unseen
  }

  /** `p` is a smallest free chunk that is big enough, but for those of `unseen`; when there is none, top or 0. */
  ghost predicate BestChunk(c: Chunks, unseen: seq<int>, top: int, nb: int, p: int) {
    if FreeFit(c, nb, p)
    then forall x {:trigger FreeFit(c, nb, x)} :: FreeFit(c, nb, x) && x !in unseen ==> c[x].n >= c[p].n
    else (p == 0 || p == top) && NoneFree(c, unseen, nb)
  }

  /** A gap before the end of the heap that is big enough. */
  ghost predicate GapFit(live: map<int, int>, base: int, end: int, nb: int, lo: int, hi: int) {
    Gap(live, base, end, lo, hi) && hi < end && 8 * (hi - lo) >= nb
  }

  /** No gap that is big enough is smaller. */
  ghost predicate Smallest(live: map<int, int>, base: int, end: int, nb: int, size: int) {
    forall x, y {:trigger GapFit(live, base, end, nb, x, y)} :: GapFit(live, base, end, nb, x, y) ==> y - x >= size
  }

  /** `p` begins a smallest gap that is big enough; when there is none, the one at the end of the heap, or is 0. */
  ghost predicate BestGap(live: map<int, int>, base: int, end: int, nb: int, p: int) {
    if exists x, y :: GapFit(live, base, end, nb, x, y)
    then exists hi :: GapFit(live, base, end, nb, p, hi) && Smallest(live, base, end, nb, hi - p)
    else p == 0 || Gap(live, base, end, p, end)
  }

  /** The free chunks that are big enough are the gaps that are. */
  lemma FitIsGap(a: Arena, nb: int, lo: int)
    requires a.Valid() && NoFast(a) && FreeFit(a.g.c, nb, lo)
    ensures GapFit(a.live, a.base, |a.mem|, nb, lo, lo + a.g.c[lo].n)
  {
    assert ChunkOk(a.mem, a.g.c, a.base, lo);
    SpareIsGap(a, lo, lo + a.g.c[lo].n);
  }

  lemma GapIsFit(a: Arena, nb: int, lo: int, hi: int)
    requires a.Valid() && NoFast(a) && GapFit(a.live, a.base, |a.mem|, nb, lo, hi)
    ensures FreeFit(a.g.c, nb, lo) && hi == lo + a.g.c[lo].n
  {
    GapIsSpare(a, lo, hi);
    assert ChunkOk(a.mem, a.g.c, a.base, lo);
  }

  /** A best fit over the chunks is one over the gaps between the live blocks. */
  lemma BestIsBest(a: Arena, nb: int, p: int)
    requires a.Valid() && NoFast(a) && BestChunk(a.g.c, [], a.top, nb, p)
    ensures BestGap(a.live, a.base, |a.mem|, nb, p)
  {
    var live, base, end := a.live, a.base, |a.mem|;
    forall x, y | GapFit(live, base, end, nb, x, y) ensures FreeFit(a.g.c, nb, x) && y == x + a.g.c[x].n {
      GapIsFit(a, nb, x, y);
    }
    if FreeFit(a.g.c, nb, p) {
      FitIsGap(a, nb, p);
      assert Smallest(live, base, end, nb, a.g.c[p].n);
    } else {
      assert ChunkOk(a.mem, a.g.c, base, a.top);
      SpareIsGap(a, a.top, a.top + a.g.c[a.top].n);
    }
  }

  ghost predicate GapBefore(live: map<int, int>, base: int, end: int, lo: int) {
    exists hi :: Gap(live, base, end, lo, hi) && hi < end
  }

  /** Where the gaps before the end of the heap begin. */
  ghost function Starts(live: map<int, int>, base: int, end: int): set<int> {
    set lo | base <= lo < end && GapBefore(live, base, end, lo)
  }

  lemma {:induction false} DistinctIn(l: seq<int>, s: set<int>)
    requires Distinct(l) && forall x :: x in l ==> x in s
    ensures |l| <= |s|
  {
    if l != [] {
      var n := |l| - 1;
      var last := l[n];
      assert last in l && last in s;
      forall x | x in l[..n] ensures x in s - {last} { assert x in l; }
      DistinctIn(l[..n], s - {last});
    }
  }

  /** No more chunks are unsorted than there are gaps. */
  lemma UnsortedFew(a: Arena)
    requires a.Valid() && NoFast(a)
    ensures |a.g.lists[UNSORTED]| <= |Starts(a.live, a.base, |a.mem|)|
  {
    assert BinAt(a.mem, a.g, UNSORTED);
    forall x | x in a.g.lists[UNSORTED] ensures x in Starts(a.live, a.base, |a.mem|) {
      assert Member(a.g.c, UNSORTED, x);
      assert ChunkOk(a.mem, a.g.c, a.base, x) && ChunkOk(a.mem, a.g.c, a.base, a.top);
      FitIsGap(a, 0, x);
    }
    DistinctIn(a.g.lists[UNSORTED], Starts(a.live, a.base, |a.mem|));
  }
}
