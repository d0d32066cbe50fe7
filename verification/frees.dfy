/** _int_free, malloc_consolidate and their parts: coalescing, the unsorted list, top. */
module Frees {
  import opened Chunks
  import opened Rings
  import opened Sizes
  import opened Bins
  import opened BinOps
  import opened Binmaps
  import opened Arenas
  import opened System

  /** Head, foot and empty nextsize pointers for a chunk about to be put on the unsorted list. */
  method Stamp(a: Arena, p: int, size: int)
    requires a.Steady() && p in a.g.c && a.g.c[p].kind.Limbo? && size == 8 * a.g.c[p].n && a.g.c[p].pin
    requires var q := p + a.g.c[p].n; q in a.g.c && !a.g.c[q].pin && (a.g.c[q].kind.Live? || a.g.c[q].kind.Fast?)
    modifies a`mem
    ensures a.Steady() && UserSame(a.live, old(a.mem), a.mem) && |a.mem| == |old(a.mem)|
    ensures Ready(a.mem, a.g.c, p, Free(UNSORTED)) && Unskipped(a.mem, a.g.c, p)
  {
    hide AllLive, BinOk, BinAt;
    ghost var n := a.g.c[p].n;
    assert ChunkOk(a.mem, a.g.c, a.base, p) && ChunkOk(a.mem, a.g.c, a.base, p + n);
    a.StoreTag(p, p + SIZE, size + 1);
    a.StoreTag(p, p + size / 8, size);
    if size >= MIN_LARGE_SIZE {
      a.Store(p + FD_NEXTSIZE, 0, 0, p);
      a.Store(p + BK_NEXTSIZE, 0, 0, p);
    }
  }

  /** Puts a chunk in limbo at the front of the unsorted list. */
  method PlaceUnsorted(a: Arena, p: int, size: int)
    requires a.Steady() && p in a.g.c && a.g.c[p].kind.Limbo? && size == 8 * a.g.c[p].n && a.g.c[p].pin
    requires var q := p + a.g.c[p].n; q in a.g.c && !a.g.c[q].pin && (a.g.c[q].kind.Live? || a.g.c[q].kind.Fast?)
    modifies a`mem, a`g
    ensures a.Steady() && UserSame(a.live, old(a.mem), a.mem) && |a.mem| == |old(a.mem)|
    ensures a.g == old(a.g).(c := SetKind(old(a.g.c), p, Free(UNSORTED)),
                             lists := old(a.g.lists)[UNSORTED := [p] + old(a.g.lists[UNSORTED])])
  {
    Stamp(a, p, size);
    ghost var g, l, s := a.g, a.g.lists[UNSORTED], a.g.skips[UNSORTED];
    assert BinAt(a.mem, g, UNSORTED);
    assert Linked(a.mem, Head(UNSORTED), l, 0);
    var bck := Head(UNSORTED);
    var fwd := a.mem[bck + FD];
    assert a.mem[fwd + BK] == bck;  // free(): corrupted unsorted chunks
    PutOn(a.mem, a.base, g.c, UNSORTED, l, s, 0, p);
    a.Link(p, bck, fwd, UNSORTED, 0, s);
    assert With(l, 0, p) == [p] + l;
    assert g.skips[UNSORTED := s] == g.skips;
  }

  /** No regular bin that was empty has been filled. */
  ghost predicate NoneFilled(l0: seq<seq<int>>, l1: seq<seq<int>>) {
    |l0| == |l1| && forall b {:trigger l1[b]} :: 2 <= b < |l0| && l0[b] == [] ==> l1[b] == []
  }

  /** Chunks behind `p` are untouched. */
  ghost predicate SameBehind(c: Chunks, d: Chunks, p: int) {
    forall x :: x in c && x > p ==> x in d && d[x] == c[x]
  }

  /** A binned chunk ends where p begins. */
  ghost predicate FreeUpTo(c: Chunks, r: int, p: int) {
    r in c && c[r].kind.Free? && r + c[r].n == p
  }

  /** What becomes one chunk when p is freed: p, a binned chunk in front of it, and a binned chunk or top behind it. */
  ghost predicate Merges(c: Chunks, p: int, lo: int, hi: int) {
    && p in c && (if lo == p then forall r :: !FreeUpTo(c, r, p) else FreeUpTo(c, lo, p))
    && var q := p + c[p].n; hi == if q in c && (c[q].kind.Free? || c[q].kind.Top?) then q + c[q].n else q
  }

  /** There is one such stretch only. */
  lemma OneStretch(mem: seq<int>, c: Chunks, base: int, p: int, lo: int, hi: int, lo': int, hi': int)
    requires Tiled(mem, c, base) && Merges(c, p, lo, hi) && Merges(c, p, lo', hi')
    ensures lo == lo' && hi == hi'
  {
    if FreeUpTo(c, lo, p) && FreeUpTo(c, lo', p) {
      assert ChunkOk(mem, c, base, lo) && ChunkOk(mem, c, base, lo');
      assert Apart(c, lo, lo') && Apart(c, lo', lo);
    }
  }

  /** Chunks know of the binned chunk in front of them. */
  lemma PinnedFront(mem: seq<int>, c: Chunks, base: int, p: int)
    requires Tiled(mem, c, base) && p in c && c[p].pin
    ensures forall r :: !FreeUpTo(c, r, p)
  {
    forall r ensures !FreeUpTo(c, r, p) {
      assert r in c ==> ChunkOk(mem, c, base, r);
    }
  }

  lemma MergesSame(c: Chunks, p: int, kind: Kind, lo: int, hi: int)
    requires p in c && 0 < c[p].n && !c[p].kind.Free? && !kind.Free?
    ensures Merges(SetKind(c, p, kind), p, lo, hi) <==> Merges(c, p, lo, hi)
  {
    var d := SetKind(c, p, kind);
    forall r ensures FreeUpTo(c, r, p) <==> FreeUpTo(d, r, p) {
    }
  }

  /** Takes a free chunk off its bin and joins it with the chunk in limbo behind it. */
  method Absorb(a: Arena, p: int, ghost next: int)
    requires a.Steady() && OnlyLimbo(a.g.c, next) && p in a.g.c && a.g.c[p].kind.Free? && p + a.g.c[p].n == next
    requires MapOk(a.marked, a.g.lists)
    modifies a`mem, a`g
    ensures a.Steady() && OnlyLimbo(a.g.c, p) && a.g.c[p].pin && p < next
    ensures a.g.c[p].n == old(a.g.c[p].n) + old(a.g.c[next].n)
    ensures SameBehind(old(a.g.c), a.g.c, next)
    ensures MapOk(a.marked, a.g.lists) && a.g.fasts == old(a.g.fasts) && NoneFilled(old(a.g.lists), a.g.lists)
    ensures UserSame(a.live, old(a.mem), a.mem) && |a.mem| == |old(a.mem)|
  {
    assert ChunkOk(a.mem, a.g.c, a.base, p);
    ghost var _, _ := a.Unlink(p);
    a.Fuse(p);
  }

  /** Consolidate backward: a free chunk in front of `p` is taken off its bin and absorbs it. */
  method MergeBackward(a: Arena, p: int, size: int) returns (p': int, size': int)
    requires a.Steady() && OnlyLimbo(a.g.c, p) && size == 8 * a.g.c[p].n && HeadKept(a.mem, a.g.c, p)
    requires MapOk(a.marked, a.g.lists)
    modifies a`mem, a`g
    ensures a.Steady() && OnlyLimbo(a.g.c, p') && size' == 8 * a.g.c[p'].n && a.g.c[p'].pin
    ensures p' <= p && p' + a.g.c[p'].n == p + old(a.g.c[p].n) && SameBehind(old(a.g.c), a.g.c, p)
    ensures if p' == p then old(a.g.c[p].pin) else FreeUpTo(old(a.g.c), p', p)
    ensures MapOk(a.marked, a.g.lists) && a.g.fasts == old(a.g.fasts) && NoneFilled(old(a.g.lists), a.g.lists)
    ensures UserSame(a.live, old(a.mem), a.mem) && |a.mem| == |old(a.mem)|
  {
    p', size' := p, size;
    UserInside(a.mem, a.base, a.g.c, a.live);
    HeadReads(a.mem, a.g.c, p);
    if !PrevInuse(a.mem, p) {
      FreeBefore(a.mem, a.g.c, a.base, p);
      var prevsize := a.mem[p];
      size' := size + prevsize;
      p' := p - prevsize / 8;
      Absorb(a, p', p);
    }
  }

  /** Takes a free chunk off its bin and joins it to the chunk in limbo in front of it. */
  method AbsorbNext(a: Arena, ghost p: int, next: int)
    requires a.Steady() && OnlyLimbo(a.g.c, p) && next == p + a.g.c[p].n && next in a.g.c && a.g.c[next].kind.Free?
    requires MapOk(a.marked, a.g.lists)
    modifies a`mem, a`g
    ensures a.Steady() && OnlyLimbo(a.g.c, p) && a.g.c[p].pin == old(a.g.c[p].pin)
    ensures a.g.c[p].n == old(a.g.c[p].n) + old(a.g.c[next].n)
    ensures var q := p + a.g.c[p].n; q in a.g.c && !a.g.c[q].pin && (a.g.c[q].kind.Live? || a.g.c[q].kind.Fast?)
    ensures IsTop(old(a.g.c), a.top) ==> IsTop(a.g.c, a.top)
    ensures MapOk(a.marked, a.g.lists) && a.g.fasts == old(a.g.fasts) && NoneFilled(old(a.g.lists), a.g.lists)
    ensures UserSame(a.live, old(a.mem), a.mem) && |a.mem| == |old(a.mem)|
  {
    assert ChunkOk(a.mem, a.g.c, a.base, next) && ChunkOk(a.mem, a.g.c, a.base, p);
    ghost var _, _ := a.Unlink(next);
    a.Fuse(p);
  }

  /** Consolidate forward: a free chunk behind `p` is absorbed; one in use is told that `p` is not. */
  method MergeForward(a: Arena, p: int, size: int, next: int) returns (size': int)
    requires a.Steady() && OnlyLimbo(a.g.c, p) && size == 8 * a.g.c[p].n && a.g.c[p].pin
    requires next == p + a.g.c[p].n && next in a.g.c && !a.g.c[next].kind.Top?
    requires MapOk(a.marked, a.g.lists)
    modifies a`mem, a`g
    ensures a.Steady() && OnlyLimbo(a.g.c, p) && size' == 8 * a.g.c[p].n && a.g.c[p].pin
    ensures size' == size + if old(a.g.c[next].kind.Free?) then 8 * old(a.g.c[next].n) else 0
    ensures var q := p + a.g.c[p].n; q in a.g.c && !a.g.c[q].pin && (a.g.c[q].kind.Live? || a.g.c[q].kind.Fast?)
    ensures IsTop(old(a.g.c), a.top) ==> IsTop(a.g.c, a.top)
    ensures MapOk(a.marked, a.g.lists) && a.g.fasts == old(a.g.fasts) && NoneFilled(old(a.g.lists), a.g.lists)
    ensures UserSame(a.live, old(a.mem), a.mem) && |a.mem| == |old(a.mem)|
  {
    size' := size;
    assert ChunkOk(a.mem, a.g.c, a.base, p);
    HeadOf(a.mem, a.g.c, a.base, next);
    var nextsize := SizeAt(a.mem, next);
    var beyond := next + nextsize / 8;
    assert ChunkOk(a.mem, a.g.c, a.base, next);
    HeadOf(a.mem, a.g.c, a.base, beyond);
    if !PrevInuse(a.mem, beyond) {
      AbsorbNext(a, p, next);
      size' := size + nextsize;
    } else {
      a.StorePin(p, next, false);
    }
  }

  /** A chunk that borders top becomes part of it. */
  method MergeTop(a: Arena, p: int, size: int) returns (size': int)
    requires a.Steady() && OnlyLimbo(a.g.c, p) && size == 8 * a.g.c[p].n && a.g.c[p].pin
    requires a.top == p + a.g.c[p].n && a.top in a.g.c && a.g.c[a.top].kind.Top?
    modifies a`mem, a`g, a`top, a`live
    ensures a.Steady() && NoLimbo(a.g.c) && a.live == old(a.live)
    ensures a.top == p && p in a.g.c && a.g.c[p].kind.Top? && size' == 8 * a.g.c[p].n
    ensures size' == size + 8 * old(a.g.c[a.top].n)
    ensures a.g.lists == old(a.g.lists) && a.g.fasts == old(a.g.fasts)
    ensures UserSame(a.live, old(a.mem), a.mem) && |a.mem| == |old(a.mem)|
  {
    assert ChunkOk(a.mem, a.g.c, a.base, a.top) && ChunkOk(a.mem, a.g.c, a.base, p);
    HeadOf(a.mem, a.g.c, a.base, a.top);
    var nextsize := SizeAt(a.mem, a.top);
    size' := size + nextsize;
    assert a.top !in a.live;
    a.Grasp(a.top);
    a.Fuse(p);
    a.StoreTag(p, p + SIZE, size' + 1);
    a.Settle(p, Top);
    a.top := p;
    assert a.live == old(a.live);
  }

  /** What a step of _int_free or malloc_consolidate relies on beside the lists. */
  ghost predicate TopAndMap(a: Arena)
    reads a
  {
    IsTop(a.g.c, a.top) && MapOk(a.marked, a.g.lists)
  }

  /** The stretch is top, or the newest unsorted chunk. */
  ghost predicate Given(a: Arena, lo: int, hi: int)
    reads a
  {
    && lo in a.g.c && lo + a.g.c[lo].n == hi
    && if a.g.c[lo].kind.Top? then a.top == lo
       else UNSORTED < |a.g.lists| && a.g.lists[UNSORTED] != [] && a.g.lists[UNSORTED][0] == lo
  }

  /** Gives a chunk in limbo back: merged with its free neighbours into the unsorted list, or into top. */
  method Coalesce(a: Arena, p: int, size: int) returns (size': int, ghost lo: int)
    requires a.Steady() && OnlyLimbo(a.g.c, p) && size == 8 * a.g.c[p].n && HeadKept(a.mem, a.g.c, p) && TopAndMap(a)
    modifies a`mem, a`g, a`top, a`live
    ensures a.Steady() && NoLimbo(a.g.c) && TopAndMap(a)
    ensures a.live == old(a.live) && UserSame(a.live, old(a.mem), a.mem) && |a.mem| == |old(a.mem)|
    ensures a.g.fasts == old(a.g.fasts) && NoneFilled(old(a.g.lists), a.g.lists)
    ensures Merges(old(a.g.c), p, lo, lo + size' / 8) && Given(a, lo, lo + size' / 8) && size' % 8 == 0
  {
    hide BinIndex, FastIndex, BinOk, FastOk, UserWord;
    ghost var c := a.g.c;
    if c[p].pin { PinnedFront(a.mem, c, a.base, p); }
    var next := p + size / 8;
    assert ChunkOk(a.mem, a.g.c, a.base, p) && ChunkOk(a.mem, a.g.c, a.base, a.top);
    assert Apart(a.g.c, a.top, p) && Apart(a.g.c, p, a.top);
    var p', s := MergeBackward(a, p, size);
    lo := p';
    if next != a.top {
      assert ChunkOk(a.mem, a.g.c, a.base, p') && ChunkOk(a.mem, a.g.c, a.base, next);
      assert ChunkOk(a.mem, a.g.c, a.base, a.top);
      assert Apart(a.g.c, a.top, next) && Apart(a.g.c, next, a.top);
      size' := MergeForward(a, p', s, next);
      PlaceUnsorted(a, p', size');
    } else {
      size' := MergeTop(a, p', s);
    }
  }

  // ------------------------------------------------------------------ malloc_consolidate

  /** The first chunk of fast chain i goes into limbo. */
  ghost method PopFast(a: Arena, i: int)
    requires a.Steady() && NoLimbo(a.g.c) && 0 <= i < NFASTBINS && |a.fb| == NFASTBINS && a.fb[i] != 0
    modifies a`g, a`fb
    ensures var p := old(a.fb[i]);
      && FastMember(old(a.g.c), i, p) && 0 <= p && p + FD < |a.mem| && HeadKept(a.mem, a.g.c, p) && OnlyLimbo(a.g.c, p)
      && old(a.g.fasts[i]) != [] && a.fb == old(a.fb)[i := a.mem[p + FD]] && p !in a.live
      && a.g == old(a.g).(c := SetKind(old(a.g.c), p, Limbo), fasts := old(a.g.fasts)[i := old(a.g.fasts[i])[1..]])
    ensures a.Steady()
  {
    FastPop(a.mem, a.base, a.g, a.fb, i);
    var p := a.fb[i];
    assert ChunkOk(a.mem, a.g.c, a.base, p);
    a.g := View(SetKind(a.g.c, p, Limbo), a.g.lists, a.g.skips, a.g.fasts[i := a.g.fasts[i][1..]]);
    a.fb := a.fb[i := a.mem[p + FD]];
  }

  /** Empties one fastbin. */
  method ConsolidateBin(a: Arena, i: int)
    requires a.Steady() && NoLimbo(a.g.c) && TopAndMap(a) && 0 <= i < NFASTBINS && a.fb == a.fastbins
    modifies a`mem, a`g, a`top, a`live, a`fb, a`fastbins
    ensures a.Steady() && NoLimbo(a.g.c) && TopAndMap(a) && a.fb == a.fastbins
    ensures a.live == old(a.live) && UserSame(a.live, old(a.mem), a.mem) && |a.mem| == |old(a.mem)|
    ensures a.g.fasts == old(a.g.fasts)[i := []] && NoneFilled(old(a.g.lists), a.g.lists)
  {
    UserInside(a.mem, a.base, a.g.c, a.live);
    var p := a.fastbins[i];
    a.fastbins := a.fastbins[i := 0];
    while p != 0
      invariant a.Steady() && NoLimbo(a.g.c) && TopAndMap(a)
      invariant |a.fastbins| == NFASTBINS && a.fastbins[i] == 0 && a.fb == a.fastbins[i := p]
      invariant a.live == old(a.live) && UserSame(a.live, old(a.mem), a.mem) && |a.mem| == |old(a.mem)|
      invariant a.g.fasts == old(a.g.fasts)[i := a.g.fasts[i]] && NoneFilled(old(a.g.lists), a.g.lists)
      decreases |a.g.fasts[i]|
    {
      assert a.top != p by { FastPop(a.mem, a.base, a.g, a.fb, i); }
      PopFast(a, i);
      var nextp := a.mem[p + FD];
      HeadReads(a.mem, a.g.c, p);
      var size := SizeAt(a.mem, p);
      var _, _ := Coalesce(a, p, size);
      p := nextp;
    }
    assert FastAt(a.mem, a.g, a.fb, i);
    assert a.g.fasts[i] != [] ==> FastLinked(a.mem, a.g.fasts[i], 0);
  }

  /** malloc_consolidate: every fast chunk is coalesced into the unsorted list or into top. */
  method Consolidate(a: Arena)
    requires a.Valid()
    modifies a
    ensures a.Valid() && !a.haveFast && forall i :: 0 <= i < NFASTBINS ==> a.g.fasts[i] == []
    ensures a.live == old(a.live) && UserSame(a.live, old(a.mem), a.mem) && |a.mem| == |old(a.mem)|
    ensures NoneFilled(old(a.g.lists), a.g.lists)
    ensures a.lastRemainder == old(a.lastRemainder)
  {
    UserInside(a.mem, a.base, a.g.c, a.live);
    a.haveFast := false;
    for i := 0 to NFASTBINS
      invariant a.Steady() && NoLimbo(a.g.c) && TopAndMap(a) && a.fb == a.fastbins && !a.haveFast
      invariant a.live == old(a.live) && UserSame(a.live, old(a.mem), a.mem) && |a.mem| == |old(a.mem)|
      invariant a.systemMem == old(a.systemMem) && a.binmap == old(a.binmap) && a.marked == old(a.marked)
      invariant forall j :: 0 <= j < i ==> a.g.fasts[j] == []
      invariant NoneFilled(old(a.g.lists), a.g.lists) && a.lastRemainder == old(a.lastRemainder)
    {
      ConsolidateBin(a, i);
    }
  }

  // ------------------------------------------------------------------ _int_free

  const FASTBIN_CONSOLIDATION_THRESHOLD := 65536

  /** The checks of _int_free on the chunk itself and on the chunk behind it never fire. */
  lemma FreeChecks(a: Arena, p: int)
    requires a.Valid() && p in a.live
    ensures var size := 8 * a.live[p];
      && p in a.g.c && a.g.c[p].kind.Live? && a.g.c[p].n == a.live[p] && 0 <= p && p + SIZE < |a.mem|
      && SizeAt(a.mem, p) == size && HeadKept(a.mem, a.g.c, p)
      && 8 * p <= TWO64 - size && p % 2 == 0 && MINSIZE <= size && size % 16 == 0
      && p != a.top && p + size / 8 < a.top + a.g.c[a.top].n == |a.mem|
      && var next := p + size / 8;
         && next in a.g.c && 0 <= next && next + SIZE < |a.mem|
         && PrevInuse(a.mem, next) && a.mem[next + SIZE] > 16 && SizeAt(a.mem, next) < a.systemMem
  {
    assert ChunkOk(a.mem, a.g.c, a.base, p) && ChunkOk(a.mem, a.g.c, a.base, a.top);
    var next := p + a.g.c[p].n;
    HeadOf(a.mem, a.g.c, a.base, p);
    HeadOf(a.mem, a.g.c, a.base, next);
    assert Apart(a.g.c, p, a.top) && Apart(a.g.c, a.top, p);
  }

  /** Puts a chunk in limbo, whose tags say it is in use, at the head of a fastbin. */
  method PushFast(a: Arena, p: int, idx: int)
    requires a.Steady() && OnlyLimbo(a.g.c, p) && a.fb == a.fastbins && HeadKept(a.mem, a.g.c, p)
    requires 0 <= idx < NFASTBINS && FastIndex(8 * a.g.c[p].n) == idx
    requires p + a.g.c[p].n in a.g.c && a.g.c[p + a.g.c[p].n].pin && p + a.g.c[p].n < |a.mem|
    modifies a`mem, a`g, a`fb, a`fastbins
    ensures a.Steady() && NoLimbo(a.g.c) && a.fb == a.fastbins
    ensures UserSame(a.live, old(a.mem), a.mem) && |a.mem| == |old(a.mem)|
    ensures a.g == old(a.g).(c := SetKind(old(a.g.c), p, Fast),
                             fasts := old(a.g.fasts)[idx := [p] + old(a.g.fasts[idx])])
  {
    assert ChunkOk(a.mem, a.g.c, a.base, p);
    a.Store(p + FD, a.fastbins[idx], 0, p);
    a.fastbins := a.fastbins[idx := p];
    FastPush(a.mem, a.base, a.g, a.fb, idx, p);
    a.g := View(SetKind(a.g.c, p, Fast), a.g.lists, a.g.skips, a.g.fasts[idx := [p] + a.g.fasts[idx]]);
    a.fb := a.fb[idx := p];
  }

  /** Puts a live chunk of fast size on its fastbin. */
  method FreeFast(a: Arena, p: int, size: int)
    requires a.Valid() && p in a.live && size == 8 * a.live[p] && size <= a.maxFast
    modifies a
    ensures a.Valid() && a.live == old(a.live) - {p} && UserSame(a.live, old(a.mem), a.mem) && |a.mem| == |old(a.mem)|
    ensures 0 <= FastIndex(size) < NFASTBINS
    ensures a.g.fasts == old(a.g.fasts)[FastIndex(size) := [p] + old(a.g.fasts[FastIndex(size)])]
    ensures a.haveFast && a.top == old(a.top) && a.g.lists == old(a.g.lists)
  {
    hide BinOk, FastLinked, AllLive, BitsOk, MapOk;
    FreeChecks(a, p);
    a.haveFast := true;
    var idx := FastIndex(size);
    assert FastAt(a.mem, a.g, a.fb, idx);
    assert ChunkOk(a.mem, a.g.c, a.base, p);
    var head := a.fastbins[idx];
    // double free or corruption (fasttop); invalid fastbin entry (free)
    assert head != p && (head != 0 ==> 0 <= head < head + SIZE < |a.mem| && FastIndex(a.mem[head + SIZE]) == idx) by {
      if head != 0 {
        assert head in a.g.fasts[idx] && FastMember(a.g.c, idx, head) && ChunkOk(a.mem, a.g.c, a.base, head);
      }
    }
    a.Grasp(p);
    PushFast(a, p, idx);
  }

  /** A live chunk that is too large for the fastbins is coalesced. */
  method GiveBack(a: Arena, p: int, size: int) returns (size': int, ghost lo: int)
    requires a.Valid() && p in a.live && size == 8 * a.live[p]
    modifies a
    ensures a.Valid() && a.live == old(a.live) - {p} && UserSame(a.live, old(a.mem), a.mem)
    ensures |a.mem| == |old(a.mem)| && a.g.fasts == old(a.g.fasts) && a.haveFast == old(a.haveFast)
    ensures Merges(old(a.g.c), p, lo, lo + size' / 8) && Given(a, lo, lo + size' / 8) && size' % 8 == 0
  {
    hide BinOk, Given, BinIndex, FastIndex, Merges;
    FreeChecks(a, p);
    ghost var c := a.g.c;
    a.Grasp(p);
    size', lo := Coalesce(a, p, size);
    MergesSame(c, p, Limbo, lo, lo + size' / 8);
  }

  /** No fast chunk is left, and of a top that has reached the threshold the surplus over the pad is given back,
    as far as the system takes it; the heap ended at that word before. */
  ghost predicate Tidied(a: Arena, end: int, sys: Sbrk)
    reads a
  {
    && !a.haveFast && (forall i :: 0 <= i < |a.g.fasts| ==> a.g.fasts[i] == [])
    && var topSize := 8 * (end - a.top);
       |a.mem| == if topSize >= a.trimThreshold then end - PAGEWORDS * Returned(topSize, a.topPad, sys.keeps) else end
  }

  lemma NoneFast(a: Arena)
    requires a.Valid()
    ensures !a.haveFast ==> forall i :: 0 <= i < |a.g.fasts| ==> a.g.fasts[i] == []
    ensures UserSame(a.live, a.mem, a.mem) && |a.g.fasts| == NFASTBINS
  {
    UserInside(a.mem, a.base, a.g.c, a.live);
  }

  /** "If freeing a large space, consolidate possibly-surrounding chunks", and trim a top that is too large. */
  method TidyUp(a: Arena, sys: Sbrk)
    requires a.Valid()
    modifies a
    ensures a.Valid() && a.live == old(a.live) && UserSame(a.live, old(a.mem), a.mem)
    ensures Tidied(a, |old(a.mem)|, sys)
  {
    hide Arena.Valid, UserSame, Returned, OnlyTop, SizeAt;
    NoneFast(a);
    if a.haveFast {
      Consolidate(a);
      NoneFast(a);
    }
    ghost var m1 := a.mem;
    TopShape(a);
    TopFits(a);
    if SizeAt(a.mem, a.top) >= a.trimThreshold {
      var _ := SysTrim(a, a.topPad, sys);
      UserChain(a.live, a.live, old(a.mem), m1, a.mem);
    }
  }

  /** _int_free: `p` leaves the caller's hands, every other chunk stays there untouched. A chunk of fast size becomes
    the first of its fastbin, and nothing else happens. Another one is coalesced; when the chunk it makes is large,
    fast chunks are consolidated and top is trimmed, else that chunk is the newest unsorted one, or top. */
  method IntFree(a: Arena, p: int, sys: Sbrk)
    requires a.Valid() && p in a.live
    modifies a
    ensures a.Valid() && a.live == old(a.live) - {p} && UserSame(a.live, old(a.mem), a.mem)
    ensures |a.mem| <= |old(a.mem)|
    ensures var size := 8 * old(a.live[p]);
      size <= a.maxFast ==>
        && 0 <= FastIndex(size) < NFASTBINS && a.haveFast && |a.mem| == |old(a.mem)| && a.top == old(a.top)
        && a.g.fasts == old(a.g.fasts)[FastIndex(size) := [p] + old(a.g.fasts)[FastIndex(size)]]
        && a.g.lists == old(a.g.lists)
    ensures 8 * old(a.live[p]) > a.maxFast ==>
              exists lo, hi {:trigger Merges(old(a.g.c), p, lo, hi)} ::
                && Merges(old(a.g.c), p, lo, hi)
                && if 8 * (hi - lo) >= 65536 then Tidied(a, |old(a.mem)|, sys)
                   else a.g.fasts == old(a.g.fasts) && a.haveFast == old(a.haveFast) && |a.mem| == |old(a.mem)|
                        && Given(a, lo, hi)
  {
    hide Merges, Given, BinIndex, BinOk;
    FreeChecks(a, p);
    UserInside(a.mem, a.base, a.g.c, a.live);
    var size := SizeAt(a.mem, p);
    assert !(8 * p > TWO64 - size) && p % 2 == 0;     // free(): invalid pointer
    assert !(size < MINSIZE);                         // free(): invalid size
    if size <= a.maxFast {
      FreeFast(a, p, size);
    } else {
      ghost var c, m0, lo := a.g.c, a.mem, p;
      size, lo := GiveBack(a, p, size);
      assert Merges(c, p, lo, lo + size / 8);
      ghost var m1 := a.mem;
      if size >= FASTBIN_CONSOLIDATION_THRESHOLD {
        TidyUp(a, sys);
        UserChain(a.live, a.live, m0, m1, a.mem);
      }
    }
  }
}
