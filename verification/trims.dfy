/** mTRIm: whole pages inside free chunks go back to the system, then the spare pages of top. */
module Trims {
  import Arith
  import opened Chunks
  import opened Rings
  import opened Sizes
  import opened Bins
  import opened BinOps
  import opened Arenas
  import opened System
  import opened Frees
  import opened Gaps
  import opened Takes
  import opened Accounts

  /** sizeof (struct malloc_chunk): six words. */
  const STRUCT := 48
  const STRUCTWORDS := 6

  /** Word `a` is free space no list uses: behind the six fields of a binned chunk. */
  ghost predicate Idle(c: Chunks, p: int, a: int) {
    p in c && c[p].kind.Free? && p + STRUCTWORDS <= a < p + c[p].n
  }

  /** Such a word may change without notice. */
  lemma IdleWrite(mem: seq<int>, base: int, g: View, fb: seq<int>, p: int, a: int, v: int)
    requires Sound(mem, base, g, fb, 0) && Idle(g.c, p, a)
    ensures 0 <= a < |mem| && Sound(mem[a := v], base, g, fb, 0)
  {
    InteriorWrite(mem, g.c, base, p, a, v);
    assert ChunkOk(mem, g.c, base, p);
    forall y | y in g.c ensures !(y + FD <= a < y + g.c[y].n && a <= y + BK_NEXTSIZE) {
      assert Apart(g.c, y, p) && Apart(g.c, p, y);
    }
    var m := mem[a := v];
    forall b | 1 <= b < NBINS ensures BinAt(m, g, b) {
      assert BinAt(mem, g, b);
      BinKept(mem, base, g, b, a, v);
    }
    forall i | 0 <= i < NFASTBINS ensures FastAt(m, g, fb, i) {
      assert FastAt(mem, g, fb, i);
      FastKept(mem, base, g, fb, 1, i, a, v);
    }
  }

  lemma IdleNotUser(mem: seq<int>, base: int, c: Chunks, live: map<int, int>, p: int, a: int, v: int)
    requires Tiled(mem, c, base) && AllLive(live, c) && Idle(c, p, a)
    ensures 0 <= a < |mem| && UserSame(live, mem, mem[a := v])
  {
    assert ChunkOk(mem, c, base, p);
    forall q, w | UserWord(live, q, w) ensures 0 <= w < |mem| && w != a {
      assert ChunkOk(mem, c, base, q);
      assert Apart(c, q, p) && Apart(c, p, q);
    }
  }

  /** madvise with MADV_DONTNEED: the words from `lo` to `hi` read as zero afterwards. */
  method Advise(a: Arena, lo: int, hi: int, ghost p: int)
    requires a.Valid() && p in a.g.c && a.g.c[p].kind.Free? && p + STRUCTWORDS <= lo <= hi <= p + a.g.c[p].n
    modifies a`mem
    ensures a.Valid() && UserSame(a.live, old(a.mem), a.mem) && |a.mem| == |old(a.mem)| && 0 <= lo && hi <= |a.mem|
    ensures forall w :: 0 <= w < |a.mem| ==> a.mem[w] == if lo <= w < hi then 0 else old(a.mem)[w]
  {
    UserInside(a.mem, a.base, a.g.c, a.live);
    assert ChunkOk(a.mem, a.g.c, a.base, p);
    for w := lo to hi
      invariant a.Valid() && UserSame(a.live, old(a.mem), a.mem) && |a.mem| == |old(a.mem)|
      invariant forall x :: 0 <= x < |a.mem| ==> a.mem[x] == if lo <= x < w then 0 else old(a.mem)[x]
    {
      ghost var m1 := a.mem;
      assert Idle(a.g.c, p, w);
      IdleWrite(a.mem, a.base, a.g, a.fb, p, w, 0);
      IdleNotUser(a.mem, a.base, a.g.c, a.live, p, w, 0);
      a.mem := a.mem[w := 0];
      UserChain(a.live, a.live, old(a.mem), m1, a.mem);
    }
  }

  /** Page k of the address space, in words. */
  ghost predicate PageIn(c: Chunks, p: int, k: int) {
    p in c && c[p].kind.Free? && p + STRUCTWORDS <= PAGEWORDS * k && PAGEWORDS * (k + 1) <= p + c[p].n
  }

  /** The chunk holds a whole page behind its fields. */
  ghost predicate Paged(c: Chunks, p: int) {
    exists k :: PageIn(c, p, k)
  }

  ghost predicate InPage(c: Chunks, p: int, k: int, w: int) {
    PageIn(c, p, k) && PAGEWORDS * k <= w < PAGEWORDS * (k + 1)
  }

  /** The words that differ lie in such pages, and read as zero. */
  ghost predicate OnlyPages(c: Chunks, m0: seq<int>, m1: seq<int>) {
    && |m0| == |m1|
    && forall w :: 0 <= w < |m0| && m0[w] != m1[w] ==> m1[w] == 0 && exists p, k :: InPage(c, p, k, w)
  }

  lemma OnlyPagesChain(c: Chunks, m0: seq<int>, m1: seq<int>, m2: seq<int>)
    requires OnlyPages(c, m0, m1) && OnlyPages(c, m1, m2)
    ensures OnlyPages(c, m0, m2)
  {
  }

  ghost predicate PageZero(mem: seq<int>, k: int) {
    forall w {:trigger mem[w]} :: PAGEWORDS * k <= w < PAGEWORDS * (k + 1) && 0 <= w < |mem| ==> mem[w] == 0
  }

  /** No whole page inside the chunk is left to the process. */
  ghost predicate Released(mem: seq<int>, c: Chunks, p: int) {
    forall k {:trigger PageIn(c, p, k)} :: PageIn(c, p, k) ==> PageZero(mem, k)
  }

  lemma ReleasedKept(m0: seq<int>, m1: seq<int>, c: Chunks, p: int)
    requires Released(m0, c, p) && OnlyPages(c, m0, m1)
    ensures Released(m1, c, p)
  {
    forall k | PageIn(c, p, k) ensures PageZero(m1, k) {
      assert PageZero(m0, k);
    }
  }

  /** The first page border behind the struct of a chunk, in bytes: `(p + sizeof + psm1) & ~psm1`. */
  function Border(p: int): int {
    (8 * p + STRUCT + (PAGE - 1)) / PAGE * PAGE
  }

  /** The whole pages from the border on, as many as fit, are all the pages inside the chunk. */
  lemma PageRange(p: int, n: int)
    requires 0 <= p && p % 2 == 0 && 0 < n && 8 * n > PAGE - 1 + STRUCT
    ensures var size := 8 * n - (Border(p) - 8 * p);
      var lo, hi := Border(p) / 8, Border(p) / 8 + size / PAGE * PAGE / 8;
      && 8 * (p + STRUCTWORDS) <= Border(p) < 8 * (p + n) && p + STRUCTWORDS <= lo && (size >= 0 ==> lo <= hi <= p + n)
      && (size < PAGE ==> hi <= lo)
      && forall k :: p + STRUCTWORDS <= PAGEWORDS * k && PAGEWORDS * (k + 1) <= p + n ==>
           lo <= PAGEWORDS * k && PAGEWORDS * (k + 1) <= hi
  {
    var t := (8 * p + STRUCT + (PAGE - 1)) / PAGE;
    var size := 8 * n - (PAGE * t - 8 * p);
    assert Border(p) == PAGE * t && Border(p) / 8 == PAGEWORDS * t;
    assert size / PAGE * PAGE / 8 == PAGEWORDS * (size / PAGE);
    forall k | p + STRUCTWORDS <= PAGEWORDS * k && PAGEWORDS * (k + 1) <= p + n
      ensures PAGEWORDS * t <= PAGEWORDS * k && PAGEWORDS * (k + 1) <= PAGEWORDS * (t + size / PAGE)
    {
      assert 8 * p + STRUCT <= PAGE * k;
      assert PAGE * (k + 1 - t) <= size;
      assert k + 1 - t <= size / PAGE;
    }
  }

  /** Both ends of that range are page borders. */
  lemma PageBorders(p: int, n: int)
    ensures var size := 8 * n - (Border(p) - 8 * p);
      var lo, hi := Border(p) / 8, Border(p) / 8 + size / PAGE * PAGE / 8;
      lo % PAGEWORDS == 0 && (hi - lo) % PAGEWORDS == 0 && (size >= PAGE ==> lo + PAGEWORDS <= hi)
  {
    var t := (8 * p + STRUCT + (PAGE - 1)) / PAGE;
    var size := 8 * n - (PAGE * t - 8 * p);
    PageWords8(t);
    PageWords8(size / PAGE);
  }

  lemma PageWords8(t: int)
    ensures t * PAGE / 8 == PAGEWORDS * t && PAGEWORDS * t % PAGEWORDS == 0
  {
    Arith.DivUnique(t * PAGE, 8, PAGEWORDS * t, 0);
    Arith.ModUnique(PAGEWORDS * t, PAGEWORDS, t, 0);
  }

  /** The pages of a chunk that lie between `lo` and `hi` are zero. */
  lemma PagesZero(mem: seq<int>, c: Chunks, p: int, lo: int, hi: int)
    requires 0 <= lo && hi <= |mem| && (lo <= hi ==> forall w :: lo <= w < hi ==> mem[w] == 0)
    requires p in c && forall k :: p + STRUCTWORDS <= PAGEWORDS * k && PAGEWORDS * (k + 1) <= p + c[p].n ==>
           lo <= PAGEWORDS * k && PAGEWORDS * (k + 1) <= hi
    ensures Released(mem, c, p) && (hi <= lo ==> !Paged(c, p))
  {
    forall k | PageIn(c, p, k) ensures PageZero(mem, k) {
    }
  }

  lemma NoPages(mem: seq<int>, c: Chunks, p: int)
    requires p in c && c[p].kind.Free? ==> 8 * c[p].n <= PAGE - 1 + STRUCT
    ensures Released(mem, c, p) && !Paged(c, p)
  {
  }

  /** Every word between two page borders lies in a page between them. */
  lemma PagesBetween(c: Chunks, p: int, lo: int, hi: int, w: int)
    requires p in c && c[p].kind.Free? && p + STRUCTWORDS <= lo <= w < hi <= p + c[p].n && lo % PAGEWORDS == 0
    requires (hi - lo) % PAGEWORDS == 0
    ensures InPage(c, p, w / PAGEWORDS, w)
  {
    var i, j := lo / PAGEWORDS, (hi - lo) / PAGEWORDS;
    assert lo == PAGEWORDS * i && hi == PAGEWORDS * (i + j);
    assert i <= w / PAGEWORDS < i + j;
  }

  lemma PagesAdvised(c: Chunks, p: int, lo: int, hi: int, m0: seq<int>, m1: seq<int>)
    requires p in c && c[p].kind.Free? && p + STRUCTWORDS <= lo <= hi <= p + c[p].n && lo % PAGEWORDS == 0
    requires (hi - lo) % PAGEWORDS == 0
    requires |m0| == |m1| && forall w :: 0 <= w < |m1| ==> m1[w] == if lo <= w < hi then 0 else m0[w]
    ensures OnlyPages(c, m0, m1)
  {
    forall w | 0 <= w < |m0| && m0[w] != m1[w] ensures m1[w] == 0 && exists p, k :: InPage(c, p, k, w) {
      PagesBetween(c, p, lo, hi, w);
    }
  }

  lemma OnlyPagesSame(c: Chunks, mem: seq<int>)
    ensures OnlyPages(c, mem, mem)
  {
  }

  /** `madvise (paligned_mem, size & ~psm1, MADV_DONTNEED)`, for the part of a chunk from the border on. */
  method AdvisePages(a: Arena, p: int, aligned: int, size: int) returns (result: int)
    requires a.Valid() && p in a.g.c && a.g.c[p].kind.Free? && 0 <= p && p % 2 == 0
    requires 8 * a.g.c[p].n > PAGE - 1 + STRUCT && aligned == Border(p) && size == 8 * a.g.c[p].n - (aligned - 8 * p)
    modifies a`mem
    ensures a.Valid() && UserSame(a.live, old(a.mem), a.mem) && OnlyPages(a.g.c, old(a.mem), a.mem)
    ensures Released(a.mem, a.g.c, p) && (result != 0 <==> Paged(a.g.c, p))
  {
    hide BinIndex, FastIndex, OnlyPages;
    ghost var m0 := a.mem;
    UserInside(a.mem, a.base, a.g.c, a.live);
    PageRange(p, a.g.c[p].n);
    PageBorders(p, a.g.c[p].n);
    var lo, hi := aligned / 8, aligned / 8 + size / PAGE * PAGE / 8;
    result := 0;
    if size > PAGE - 1 {
      Advise(a, lo, hi, p);
      result := 1;
      PagesAdvised(a.g.c, p, lo, hi, m0, a.mem);
      PagesBetween(a.g.c, p, lo, hi, lo);
    } else {
      OnlyPagesSame(a.g.c, a.mem);
    }
    PagesZero(a.mem, a.g.c, p, lo, hi) by { assert ChunkOk(a.mem, a.g.c, a.base, p); }
  }

  /** One chunk: "see whether the chunk contains at least one unused page". */
  method TrimChunk(a: Arena, p: int) returns (result: int)
    requires a.Valid() && p in a.g.c && a.g.c[p].kind.Free?
    modifies a`mem
    ensures a.Valid() && UserSame(a.live, old(a.mem), a.mem) && OnlyPages(a.g.c, old(a.mem), a.mem)
    ensures Released(a.mem, a.g.c, p) && (result != 0 <==> Paged(a.g.c, p))
  {
    hide Released, Arena.Fields;
    UserInside(a.mem, a.base, a.g.c, a.live);
    assert ChunkOk(a.mem, a.g.c, a.base, p);
    result := 0;
    var size := SizeAt(a.mem, p);
    if size > PAGE - 1 + STRUCT {
      PageRange(p, a.g.c[p].n);
      var aligned := Border(p);
      assert 8 * (p + FD) + 4 * 8 <= aligned && 8 * p + size > aligned;
      result := AdvisePages(a, p, aligned, size - (aligned - 8 * p));
    } else {
      NoPages(a.mem, a.g.c, p);
    }
  }

  /** One bin, from its end. */
  method TrimBin(a: Arena, b: int) returns (result: int)
    requires a.Valid() && 1 <= b < NBINS
    modifies a`mem
    ensures a.Valid() && UserSame(a.live, old(a.mem), a.mem) && OnlyPages(a.g.c, old(a.mem), a.mem)
    ensures forall x :: x in a.g.lists[b] ==> Released(a.mem, a.g.c, x)
    ensures result != 0 <==> exists x :: x in a.g.lists[b] && Paged(a.g.c, x)
  {
    hide FastOk, PageIn, OnlyPages, Paged, Released;
    UserInside(a.mem, a.base, a.g.c, a.live);
    ghost var l := a.g.lists[b];
    LastIsHead(a, b);
    ghost var k := |l|;
    result := 0;
    OnlyPagesSame(a.g.c, a.mem);
    var p := a.mem[Head(b) + BK];
    while p != Head(b)
      invariant a.Valid() && UserSame(a.live, old(a.mem), a.mem) && OnlyPages(a.g.c, old(a.mem), a.mem)
      invariant 0 <= k <= |l| && p == Node(Head(b), l, k)
      invariant forall j :: k <= j < |l| ==> Released(a.mem, a.g.c, l[j])
      invariant result != 0 <==> exists j :: k <= j < |l| && Paged(a.g.c, l[j])
      decreases k
    {
      BinStep(a, b, k);
      assert BinAt(a.mem, a.g, b) && Member(a.g.c, b, l[k - 1]);
      ghost var m1 := a.mem;
      var r := TrimChunk(a, p);
      UserChain(a.live, a.live, old(a.mem), m1, a.mem);
      OnlyPagesChain(a.g.c, old(a.mem), m1, a.mem);
      forall j | k <= j < |l| ensures Released(a.mem, a.g.c, l[j]) {
        ReleasedKept(m1, a.mem, a.g.c, l[j]);
      }
      if r != 0 { result := 1; }
      BinStep(a, b, k);
      p := a.mem[p + BK];
      k := k - 1;
    }
    if k > 0 { BinStep(a, b, k); }
  }

  /** Every chunk of the bins visited so far: bin 1, and those from psindex on. */
  ghost predicate Visited(a: Arena, i: int)
    requires |a.g.lists| == NBINS && i <= NBINS
    reads a
  {
    forall b, x :: 1 <= b < i && x in a.g.lists[b] ==> Released(a.mem, a.g.c, x)
  }

  /** One of them holds a page. */
  ghost predicate SomePaged(a: Arena, i: int)
    requires |a.g.lists| == NBINS && i <= NBINS
    reads a
  {
    exists b, x {:trigger x in a.g.lists[b]} :: 1 <= b < i && x in a.g.lists[b] && Paged(a.g.c, x)
  }

  /** Chunks in the bins between have no room for a page. */
  lemma SmallPageless(a: Arena, b: int, x: int)
    requires a.Valid() && 1 < b < BinIndex(PAGE) && x in a.g.lists[b]
    ensures Released(a.mem, a.g.c, x) && !Paged(a.g.c, x)
  {
    assert BinAt(a.mem, a.g, b);
    MemberAt(a.mem, a.base, a.g.c, b, a.g.lists[b], a.g.skips[b], x);
    if 8 * a.g.c[x].n >= PAGE { BinIndexMonotone(PAGE, 8 * a.g.c[x].n); }
    NoPages(a.mem, a.g.c, x);
  }

  /** One round of the loop over the bins. */
  method TrimStep(a: Arena, i: int) returns (r: int)
    requires a.Valid() && 1 <= i < NBINS && Visited(a, i)
    modifies a`mem
    ensures a.Valid() && UserSame(a.live, old(a.mem), a.mem) && OnlyPages(a.g.c, old(a.mem), a.mem) && Visited(a, i + 1)
    ensures SomePaged(a, i + 1) <==> SomePaged(a, i) || r != 0
  {
    hide OnlyPages, Paged, Released, PageIn;
    UserInside(a.mem, a.base, a.g.c, a.live);
    r := 0;
    ghost var m0 := a.mem;
    OnlyPagesSame(a.g.c, a.mem);
    if i == 1 || i >= BinIndex(PAGE) {
      r := TrimBin(a, i);
    } else {
      forall x | x in a.g.lists[i] ensures Released(a.mem, a.g.c, x) && !Paged(a.g.c, x) {
        SmallPageless(a, i, x);
      }
    }
    forall b, x | 1 <= b < i && x in a.g.lists[b] ensures Released(a.mem, a.g.c, x) {
      ReleasedKept(m0, a.mem, a.g.c, x);
    }
  }

  /** All bins: exactly the whole pages inside binned chunks, behind their fields, are released. */
  method TrimBins(a: Arena) returns (result: int)
    requires a.Valid()
    modifies a`mem
    ensures a.Valid() && UserSame(a.live, old(a.mem), a.mem) && OnlyPages(a.g.c, old(a.mem), a.mem)
    ensures forall p, k {:trigger PageIn(a.g.c, p, k)} :: PageIn(a.g.c, p, k) ==> PageZero(a.mem, k)
    ensures result != 0 <==> exists p :: Paged(a.g.c, p)
  {
    hide OnlyPages;
    UserInside(a.mem, a.base, a.g.c, a.live);
    result := 0;
    OnlyPagesSame(a.g.c, a.mem);
    for i := 1 to NBINS
      invariant a.Valid() && UserSame(a.live, old(a.mem), a.mem) && OnlyPages(a.g.c, old(a.mem), a.mem) && Visited(a, i)
      invariant result != 0 <==> SomePaged(a, i)
    {
      ghost var m1 := a.mem;
      var r := TrimStep(a, i);
      UserChain(a.live, a.live, old(a.mem), m1, a.mem);
      OnlyPagesChain(a.g.c, old(a.mem), m1, a.mem);
      if r != 0 { result := 1; }
    }
    forall p, k | PageIn(a.g.c, p, k) ensures PageZero(a.mem, k) && result != 0 {
      assert Listed(a.g, p) && Paged(a.g.c, p);
      assert Released(a.mem, a.g.c, p);
    }
  }

  /** Top as consolidation will leave it, behind the last live chunk, does not make the pad wrap. */
  ghost predicate PadFits(live: map<int, int>, base: int, end: int, pad: int) {
    forall lo {:trigger Gap(live, base, end, lo, end)} ::
      Gap(live, base, end, lo, end) ==> !PadWraps(8 * (end - lo), pad)
  }

  /** After consolidation the last gap is top. */
  lemma TopIsGap(a: Arena, pad: int)
    requires a.Valid() && NoFast(a) && PadFits(a.live, a.base, |a.mem|, pad)
    ensures !PadWraps(8 * a.g.c[a.top].n, pad)
  {
    TopShape(a);
    SpareIsGap(a, a.top, |a.mem|);
  }

  /** No pad below 2 to the 63rd wraps. */
  lemma SmallPadFits(a: Arena, pad: int)
    requires a.Valid() && 0 <= pad < TWO64 / 2
    ensures PadFits(a.live, a.base, |a.mem|, pad)
  {
    TopShape(a);
    var end := |a.mem|;
    forall lo {:trigger Gap(a.live, a.base, end, lo, end)} | Gap(a.live, a.base, end, lo, end) ensures lo <= a.top {
      if lo != a.base {
        var x :| EndsAt(a.live, x, lo);
        assert Apart(a.g.c, x, a.top) && Apart(a.g.c, a.top, x);
        assert ChunkOk(a.mem, a.g.c, a.base, a.top) && ChunkOk(a.mem, a.g.c, a.base, x);
      }
    }
  }

  /** The pages in binned chunks lie below top. */
  lemma PagesKept(c: Chunks, m0: seq<int>, base: int, d: Chunks, m1: seq<int>, top: int, p: int, k: int)
    requires Tiled(m0, c, base) && OnlyTop(c, m0, d, m1, top) && c[top].kind.Top?
    ensures PageIn(c, p, k) <==> PageIn(d, p, k)
    ensures PageIn(c, p, k) && PageZero(m0, k) ==> PageZero(m1, k)
  {
    if PageIn(c, p, k) {
      assert ChunkOk(m0, c, base, p) && ChunkOk(m0, c, base, top);
      assert Apart(c, p, top) && Apart(c, top, p);
      forall w | PAGEWORDS * k <= w < PAGEWORDS * (k + 1) && PageZero(m0, k) && w < |m1| ensures m1[w] == 0 {
        assert m1[..top][w] == m0[..top][w];
      }
    }
  }

  /** mTRIm: the result is 0 if and only if there is no whole page inside a binned chunk and none of top that the
    system takes; all of them are given back, and nothing else. */
  method MTrim(a: Arena, pad: int, sys: Sbrk) returns (result: int)
    requires a.Valid() && 0 <= pad < TWO64 && PadFits(a.live, a.base, |a.mem|, pad)
    modifies a
    ensures a.Valid() && !a.haveFast && a.live == old(a.live) && UserSame(a.live, old(a.mem), a.mem)
    ensures Gap(a.live, a.base, |old(a.mem)|, a.top, |old(a.mem)|)
    ensures |a.mem| == |old(a.mem)| - PAGEWORDS * Returned(8 * (|old(a.mem)| - a.top), pad, sys.keeps)
    ensures forall p, k {:trigger PageIn(a.g.c, p, k)} :: PageIn(a.g.c, p, k) ==> PageZero(a.mem, k)
    ensures result != 0 <==> |a.mem| < |old(a.mem)| || exists p :: Paged(a.g.c, p)
  {
    hide OnlyPages, OnlyTop, PageIn, PageZero;
    Consolidate(a);
    TopIsGap(a, pad);
    ghost var m1 := a.mem;
    result := TrimBins(a);
    UserChain(a.live, a.live, old(a.mem), m1, a.mem);
    ghost var m2, c := a.mem, a.g.c;
    TopShape(a);
    SpareIsGap(a, a.top, |a.mem|);
    var r := SysTrim(a, pad, sys);
    UserChain(a.live, a.live, old(a.mem), m2, a.mem);
    forall p, k
      ensures (PageIn(c, p, k) <==> PageIn(a.g.c, p, k)) && (PageIn(a.g.c, p, k) ==> PageZero(a.mem, k)) {
      PagesKept(c, m2, a.base, a.g.c, a.mem, a.top, p, k);
    }
    assert forall p :: Paged(c, p) <==> Paged(a.g.c, p);
    result := if result != 0 || r != 0 then 1 else 0;
  }
}
