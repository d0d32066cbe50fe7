/** _int_realloc: shrinking, growing in place, growing into a new chunk behind, moving. */
module Reallocs {
  import opened Chunks
  import opened Sizes
  import opened Bins
  import opened Binmaps
  import opened Arenas
  import opened System
  import opened Frees
  import opened Gaps
  import opened Mallocs

  /** The first `k` words of the usable areas of `p` in `m0` and `q` in `m1` are the same. */
  ghost predicate SameContents(m0: seq<int>, p: int, m1: seq<int>, q: int, k: int) {
    && 0 <= p && 0 <= q && 0 <= k && p + FD + k <= |m0| && q + FD + k <= |m1|
    && m1[q + FD..q + FD + k] == m0[p + FD..p + FD + k]
  }

  function Min(x: int, y: int): int {
    if x <= y then x else y
  }

  lemma Kept(live: map<int, int>, m0: seq<int>, m1: seq<int>, p: int)
    requires UserSame(live, m0, m1) && p in live && 0 <= p && p + live[p] < |m0| && p + live[p] < |m1| && 1 <= live[p]
    ensures SameContents(m0, p, m1, p, live[p] - 1)
  {
    forall w | p + FD <= w <= p + live[p] ensures m1[w] == m0[w] {
      assert UserWord(live, p, w);
    }
  }

  lemma ContentsPrefix(m0: seq<int>, p: int, m1: seq<int>, q: int, k: int, j: int)
    requires SameContents(m0, p, m1, q, k) && 0 <= j <= k
    ensures SameContents(m0, p, m1, q, j)
  {
    assert m1[q + FD..q + FD + j] == m1[q + FD..q + FD + k][..j];
    assert m0[p + FD..p + FD + j] == m0[p + FD..p + FD + k][..j];
  }

  lemma ContentsChain(m0: seq<int>, p: int, m1: seq<int>, q: int, m2: seq<int>, r: int, k: int)
    requires SameContents(m0, p, m1, q, k) && SameContents(m1, q, m2, r, k)
    ensures SameContents(m0, p, m2, r, k)
  {
  }

  // ------------------------------------------------------------------ the end of every path in place

  /** A chunk in limbo that lies in front of a chunk and whose flag bits still stand in memory. */
  ghost predicate Resizing(a: Arena, p: int, size: int)
    reads a
  {
    && a.Steady() && a.Fields() && a.fb == a.fastbins && OnlyLimbo(a.g.c, p) && p !in a.live
    && size == 8 * a.g.c[p].n && p + a.g.c[p].n in a.g.c
    && 0 <= p && p + SIZE < |a.mem| && a.mem[p + SIZE] % 8 == PinBit(a.g.c[p].pin)
  }

  /** A live chunk is taken into limbo, its head still in place. */
  ghost method Borrow(a: Arena, p: int, size: int)
    requires a.Valid() && p in a.live && size == 8 * a.live[p]
    modifies a`g, a`live
    ensures Resizing(a, p, size) && a.live == old(a.live) - {p} && a.g == old(a.g).(c := SetKind(old(a.g.c), p, Limbo))
    ensures p + size / 8 in a.g.c && a.g.c[p + size / 8].pin
  {
    assert ChunkOk(a.mem, a.g.c, a.base, p);
    a.Grasp(p);
  }

  /** "Not enough extra to split off": the chunk is kept whole. */
  method KeepWhole(a: Arena, p: int, size: int)
    requires Resizing(a, p, size)
    modifies a`mem, a`g, a`live
    ensures a.Valid() && a.live == old(a.live)[p := size / 8] && UserSame(old(a.live), old(a.mem), a.mem)
    ensures SameContents(old(a.mem), p, a.mem, p, size / 8 - 1)
  {
    assert ChunkOk(a.mem, a.g.c, a.base, p) && ChunkOk(a.mem, a.g.c, a.base, p + a.g.c[p].n);
    a.StoreTag(p, p + SIZE, size + a.mem[p + SIZE] % 8);
    a.StorePin(p, p + size / 8, true);
    a.Settle(p, Live);
  }

  /** Two neighbours in limbo, correctly headed, with a chunk behind that knows them in use. */
  ghost predicate HeadedPair(a: Arena, p: int, r: int)
    reads a
  {
    && a.Steady() && a.Fields() && a.fb == a.fastbins && HeadKept(a.mem, a.g.c, p) && HeadKept(a.mem, a.g.c, r)
    && a.g.c[p].kind.Limbo? && a.g.c[r].kind.Limbo? && r == p + a.g.c[p].n && a.g.c[r].pin && p != r
    && (forall x :: x in a.g.c && x != p && x != r ==> !a.g.c[x].kind.Limbo?)
    && r + a.g.c[r].n in a.g.c && r + a.g.c[r].n != p && a.g.c[r].n > 0
  }

  /** The heads of a chunk cut in two, both parts still in limbo. */
  method CutLive(a: Arena, p: int, size: int, nb: int) returns (remainder: int)
    requires Resizing(a, p, size) && Padded(nb) && nb + MINSIZE <= size
    modifies a`mem, a`g
    ensures HeadedPair(a, p, remainder) && remainder == p + nb / 8 && remainder !in old(a.g.c)
    ensures a.g.c[p].n == nb / 8 && a.g.c[remainder].n == (size - nb) / 8
    ensures var q := p + size / 8; q in old(a.g.c) && q in a.g.c && a.g.c[q].pin == old(a.g.c[q].pin)
    ensures UserSame(a.live, old(a.mem), a.mem) && SameContents(old(a.mem), p, a.mem, p, nb / 8 - 1)
  {
    hide AllLive, UserWord, BinOk, FastIndex;
    assert ChunkOk(a.mem, a.g.c, a.base, p) && ChunkOk(a.mem, a.g.c, a.base, a.top);
    remainder := p + nb / 8;
    a.Cut(p, nb / 8, true);
    a.StoreTag(p, p + SIZE, nb + a.mem[p + SIZE] % 8);
    a.StoreTag(remainder, remainder + SIZE, size - nb + 1);
  }

  /** Both halves of such a pair go to the caller. */
  ghost method SettleTwo(a: Arena, p: int, r: int)
    requires HeadedPair(a, p, r) && a.g.c[r + a.g.c[r].n].pin
    modifies a`g, a`live
    ensures a.Valid() && a.live == old(a.live)[p := old(a.g.c[p].n)][r := old(a.g.c[r].n)]
  {
    assert ChunkOk(a.mem, a.g.c, a.base, r) && ChunkOk(a.mem, a.g.c, a.base, p);
    assert ChunkOk(a.mem, a.g.c, a.base, r + a.g.c[r].n);
    a.Settle(p, Live);
    a.Settle(r, Live);
  }

  /** set_inuse_bit_at_offset, behind the second of the two. */
  method PinTwo(a: Arena, p: int, r: int, size: int)
    requires HeadedPair(a, p, r) && size == 8 * a.g.c[r].n
    modifies a`mem, a`g
    ensures HeadedPair(a, p, r) && a.g.c[r + a.g.c[r].n].pin && a.g.c[p].n == old(a.g.c[p].n)
    ensures a.g.c[r].n == old(a.g.c[r].n)
    ensures UserSame(a.live, old(a.mem), a.mem) && SameContents(old(a.mem), p, a.mem, p, a.g.c[p].n - 1)
  {
    assert ChunkOk(a.mem, a.g.c, a.base, r) && ChunkOk(a.mem, a.g.c, a.base, p);
    assert ChunkOk(a.mem, a.g.c, a.base, r + a.g.c[r].n);
    a.StorePin(r, r + size / 8, true);
  }

  lemma LiveKnown(a: Arena, x: int)
    requires a.Steady() && x in a.live
    ensures x in a.g.c && a.g.c[x].kind.Live?
  {
  }

  /** The extra space becomes a chunk marked as in use, ready to be freed. */
  method SplitLive(a: Arena, p: int, size: int, nb: int) returns (remainder: int)
    requires Resizing(a, p, size) && Padded(nb) && nb + MINSIZE <= size
    modifies a`mem, a`g, a`live
    ensures a.Valid() && remainder == p + nb / 8 && remainder != p && remainder !in old(a.live)
    ensures a.live == old(a.live)[p := nb / 8][remainder := (size - nb) / 8]
    ensures UserSame(old(a.live), old(a.mem), a.mem) && SameContents(old(a.mem), p, a.mem, p, nb / 8 - 1)
  {
    hide Arena.Steady, Arena.Fields, UserSame, SameContents;
    ghost var m0, l0 := a.mem, a.live;
    forall x | x in a.live ensures x in a.g.c { LiveKnown(a, x); }
    remainder := CutLive(a, p, size, nb);
    ghost var m1 := a.mem;
    PinTwo(a, p, remainder, size - nb);
    UserChain(l0, l0, m0, m1, a.mem);
    ContentsChain(m0, p, m1, p, a.mem, p, nb / 8 - 1);
    SettleTwo(a, p, remainder);
  }

  method SplitAndFree(a: Arena, p: int, size: int, nb: int, sys: Sbrk)
    requires Resizing(a, p, size) && Padded(nb) && nb + MINSIZE <= size
    modifies a
    ensures a.Valid() && a.live == old(a.live)[p := nb / 8] && UserSame(old(a.live), old(a.mem), a.mem)
    ensures SameContents(old(a.mem), p, a.mem, p, nb / 8 - 1)
    ensures |a.mem| <= |old(a.mem)|
  {
    var remainder := SplitLive(a, p, size, nb);
    ghost var m1 := a.mem;
    IntFree(a, remainder, sys);
    assert a.live == old(a.live)[p := nb / 8];
    assert ChunkOk(a.mem, a.g.c, a.base, p);
    Kept(a.live, m1, a.mem, p);
    UserChain(old(a.live), a.live, old(a.mem), m1, a.mem);
  }

  /** "If possible, free extra space in old or extended chunk". */
  method FinishRealloc(a: Arena, p: int, size: int, nb: int, sys: Sbrk)
    requires Resizing(a, p, size) && Padded(nb) && nb <= size
    modifies a
    ensures a.Valid() && p in a.live && a.live == old(a.live)[p := a.live[p]] && nb <= 8 * a.live[p] < nb + MINSIZE
    ensures UserSame(old(a.live), old(a.mem), a.mem)
    ensures a.live[p] <= size / 8 && SameContents(old(a.mem), p, a.mem, p, a.live[p] - 1)
    ensures |a.mem| <= |old(a.mem)|
  {
    assert ChunkOk(a.mem, a.g.c, a.base, p);
    if size - nb < MINSIZE {
      KeepWhole(a, p, size);
    } else {
      SplitAndFree(a, p, size, nb, sys);
    }
  }

  // ------------------------------------------------------------------ the ways to grow

  /** A chunk and the chunk behind it, which no one else holds, are joined in limbo. */
  ghost method JoinNext(a: Arena, p: int, next: int)
    requires a.Steady() && NoLimbo(a.g.c) && p in a.live && a.g.c[p].kind.Live? && next == p + a.g.c[p].n
    requires next in a.g.c
    requires a.g.c[next].kind.Live? || a.g.c[next].kind.Top?
    modifies a`g, a`live
    ensures a.Steady() && OnlyLimbo(a.g.c, p) && a.live == old(a.live) - {p} - {next}
    ensures a.g == old(a.g).(c := Merge(SetKind(SetKind(old(a.g.c), p, Limbo), next, Limbo), p))
  {
    assert ChunkOk(a.mem, a.g.c, a.base, p);
    a.Grasp(p);
    a.Grasp(next);
    a.Fuse(p);
  }

  /** A chunk in limbo that reaches the break, beside fields that fit everything but top. */
  ghost predicate Topless(a: Arena, p: int, size: int)
    reads a
  {
    && a.Steady() && OnlyLimbo(a.g.c, p) && p !in a.live && size == 8 * a.g.c[p].n && p + a.g.c[p].n == |a.mem|
    && a.Parameters() && MapOk(a.marked, a.g.lists) && BitsOk(a.binmap, a.marked) && a.fb == a.fastbins
    && ((exists i :: 0 <= i < |a.g.fasts| && a.g.fasts[i] != []) ==> a.haveFast)
    && a.systemMem == 8 * (|a.mem| - a.base) && 8 * |a.mem| < TWO64 / 2 && |a.mem| % PAGEWORDS == 0
  }

  /** The heads of the two parts of such a chunk. */
  method CutEnd(a: Arena, p: int, size: int, nb: int, flag: int) returns (remainder: int)
    requires Topless(a, p, size) && Padded(nb) && nb + MINSIZE <= size && flag == PinBit(a.g.c[p].pin)
    modifies a`mem, a`g
    ensures a.Steady() && |a.mem| == |old(a.mem)| && UserSame(a.live, old(a.mem), a.mem)
    ensures remainder == p + nb / 8 && remainder != p && remainder !in old(a.g.c)
    ensures a.g == old(a.g).(c := Split(old(a.g.c), p, nb / 8, true))
    ensures HeadKept(a.mem, a.g.c, p) && HeadKept(a.mem, a.g.c, remainder)
    ensures SameContents(old(a.mem), p, a.mem, p, nb / 8 - 1)
  {
    assert ChunkOk(a.mem, a.g.c, a.base, p);
    remainder := p + nb / 8;
    a.Cut(p, nb / 8, true);
    a.StoreTag(p, p + SIZE, nb + flag);
    a.StoreTag(remainder, remainder + SIZE, size - nb + 1);
  }

  /** A chunk in limbo at the end of the heap is split into a live chunk and top. */
  method MoveTop(a: Arena, p: int, size: int, nb: int, flag: int)
    requires Topless(a, p, size) && Padded(nb) && nb + MINSIZE <= size && flag == PinBit(a.g.c[p].pin)
    modifies a`mem, a`g, a`live, a`top
    ensures a.Valid() && a.live == old(a.live)[p := nb / 8] && UserSame(old(a.live), old(a.mem), a.mem)
    ensures SameContents(old(a.mem), p, a.mem, p, nb / 8 - 1)
  {
    a.top := CutEnd(a, p, size, nb, flag);
    a.Settle(a.top, Top);
    a.Settle(p, Live);
  }

  /** "Try to expand forward into top". */
  method GrowIntoTop(a: Arena, p: int, nb: int)
    requires a.Valid() && p in a.live && Padded(nb) && a.top == p + a.live[p] && 8 * a.live[p] < nb
    requires nb + MINSIZE <= 8 * (a.live[p] + a.g.c[a.top].n)
    modifies a
    ensures a.Valid() && a.live == old(a.live)[p := nb / 8] && UserSame(old(a.live) - {p}, old(a.mem), a.mem)
    ensures SameContents(old(a.mem), p, a.mem, p, old(a.live[p]) - 1)
    ensures |a.mem| <= |old(a.mem)|
  {
    hide BinAt, FastIndex;
    HeadOf(a.mem, a.g.c, a.base, p);
    HeadOf(a.mem, a.g.c, a.base, a.top);
    assert ChunkOk(a.mem, a.g.c, a.base, a.top);
    assert a.top !in a.live;
    var size := SizeAt(a.mem, p) + SizeAt(a.mem, a.top);
    var flag := a.mem[p + SIZE] % 8;
    JoinNext(a, p, a.top);
    assert a.live == old(a.live) - {p};
    MoveTop(a, p, size, nb, flag);
    ContentsPrefix(old(a.mem), p, a.mem, p, nb / 8 - 1, old(a.live[p]) - 1);
  }

  /** The free chunk behind a live one is taken off its bin, and the two are joined in limbo. */
  method AbsorbBehind(a: Arena, p: int, next: int)
    requires a.Valid() && p in a.live && next == p + a.live[p] && next in a.g.c && a.g.c[next].kind.Free?
    modifies a`mem, a`g, a`live
    ensures Resizing(a, p, 8 * old(a.live[p] + a.g.c[next].n)) && a.live == old(a.live) - {p}
    ensures UserSame(old(a.live), old(a.mem), a.mem) && |a.mem| == |old(a.mem)|
  {
    assert ChunkOk(a.mem, a.g.c, a.base, next) && ChunkOk(a.mem, a.g.c, a.base, p);
    ghost var _, _ := a.Unlink(next);
    a.Grasp(p);
    a.Fuse(p);
  }

  /** "Try to expand forward into next chunk; split off remainder below". */
  method GrowIntoNext(a: Arena, p: int, nb: int, sys: Sbrk)
    requires a.Valid() && p in a.live && Padded(nb) && 8 * a.live[p] < nb
    requires var next := p + a.live[p]; next in a.g.c && a.g.c[next].kind.Free? && nb <= 8 * (a.live[p] + a.g.c[next].n)
    modifies a
    ensures a.Valid() && p in a.live && a.live == old(a.live)[p := a.live[p]] && nb <= 8 * a.live[p] < nb + MINSIZE
    ensures UserSame(old(a.live) - {p}, old(a.mem), a.mem) && SameContents(old(a.mem), p, a.mem, p, old(a.live[p]) - 1)
    ensures |a.mem| <= |old(a.mem)|
  {
    hide FastIndex;
    HeadOf(a.mem, a.g.c, a.base, p);
    ghost var m0, n := a.mem, a.live[p];
    var next := p + SizeAt(a.mem, p) / 8;
    HeadOf(a.mem, a.g.c, a.base, next);
    assert ChunkOk(a.mem, a.g.c, a.base, next);
    var size := SizeAt(a.mem, p) + SizeAt(a.mem, next);
    AbsorbBehind(a, p, next);
    ghost var m1 := a.mem;
    Kept(old(a.live), m0, m1, p);
    FinishRealloc(a, p, size, nb, sys);
    ContentsPrefix(m1, p, a.mem, p, a.live[p] - 1, n - 1);
    UserLess(old(a.live), p, m0, m1);
    UserChain(old(a.live) - {p}, old(a.live) - {p}, m0, m1, a.mem);
  }

  lemma UserLess(live: map<int, int>, p: int, m0: seq<int>, m1: seq<int>)
    requires UserSame(live, m0, m1)
    ensures UserSame(live - {p}, m0, m1)
  {
    forall q, w | UserWord(live - {p}, q, w) ensures 0 <= w < |m0| && w < |m1| && m0[w] == m1[w] {
      assert UserWord(live, q, w);
    }
  }

  // ------------------------------------------------------------------ allocate, copy, free

  /** The caller writes a word of its own. */
  method UserStore(a: Arena, p: int, w: int, v: int)
    requires a.Steady() && UserWord(a.live, p, w)
    modifies a`mem
    ensures a.Steady() && 0 <= w < |old(a.mem)| && a.mem == old(a.mem)[w := v]
    ensures UserSame(a.live - {p}, old(a.mem), a.mem)
  {
    UserWrite(a.mem, a.base, a.g, a.fb, p, w, v);
    forall q, x | UserWord(a.live - {p}, q, x) ensures 0 <= x < |a.mem| && x != w {
      assert ChunkOk(a.mem, a.g.c, a.base, q) && Apart(a.g.c, p, q) && Apart(a.g.c, q, p);
    }
    a.mem := a.mem[w := v];
  }

  /** The first `i` words of a copy from `s` to `d` are done. */
  ghost predicate Copied(a: Arena, m0: seq<int>, s: int, d: int, i: int)
    reads a
  {
    && a.Valid() && s in a.live && d in a.live && s != d && i < a.live[s] && i < a.live[d]
    && UserSame(a.live - {d}, m0, a.mem) && SameContents(m0, s, a.mem, d, i) && |m0| == |a.mem|
  }

  /** One word of a copy. */
  method CopyWord(a: Arena, s: int, d: int, i: int, ghost m0: seq<int>)
    requires Copied(a, m0, s, d, i) && i + 1 < a.live[s] && i + 1 < a.live[d]
    modifies a`mem
    ensures Copied(a, m0, s, d, i + 1)
  {
    assert UserWord(a.live - {d}, s, s + FD + i) && UserWord(a.live, d, d + FD + i);
    ghost var m1 := a.mem;
    UserStore(a, d, d + FD + i, a.mem[s + FD + i]);
    UserChain(a.live - {d}, a.live - {d}, m0, m1, a.mem);
    assert a.mem[d + FD..d + FD + i] == m1[d + FD..d + FD + i];
    assert a.mem[d + FD..d + FD + (i + 1)] == a.mem[d + FD..d + FD + i] + [m0[s + FD + i]];
    assert m0[s + FD..s + FD + (i + 1)] == m0[s + FD..s + FD + i] + [m0[s + FD + i]];
  }

  /** memcpy */
  method CopyAll(a: Arena, s: int, d: int, ncopies: int, ghost m0: seq<int>)
    requires Copied(a, m0, s, d, 0) && 0 <= ncopies < a.live[s] && ncopies < a.live[d]
    modifies a`mem
    ensures Copied(a, m0, s, d, ncopies)
  {
    for i := 0 to ncopies
      invariant Copied(a, m0, s, d, i)
    {
      CopyWord(a, s, d, i, m0);
    }
  }

  method CopyTwo(a: Arena, s: int, d: int, i: int, ghost m0: seq<int>)
    requires Copied(a, m0, s, d, i) && i + 2 < a.live[s] && i + 2 < a.live[d]
    modifies a`mem
    ensures Copied(a, m0, s, d, i + 2)
  {
    CopyWord(a, s, d, i, m0);
    CopyWord(a, s, d, i + 1, m0);
  }

  /** The end of the unrolled copy, from the sixth word on. */
  method CopyRest(a: Arena, s: int, d: int, ncopies: int, ghost m0: seq<int>)
    requires Copied(a, m0, s, d, 5) && 5 <= ncopies <= 9 && ncopies % 2 == 1 && ncopies < a.live[s]
    requires ncopies < a.live[d]
    modifies a`mem
    ensures Copied(a, m0, s, d, ncopies)
  {
    if ncopies > 6 {
      CopyTwo(a, s, d, 5, m0);
      if ncopies > 8 {
        CopyTwo(a, s, d, 7, m0);
      }
    }
  }

  /** The copy of at most nine words, an odd number of them, unrolled. */
  method CopyFew(a: Arena, s: int, d: int, ncopies: int, ghost m0: seq<int>)
    requires Copied(a, m0, s, d, 0) && 3 <= ncopies <= 9 && ncopies % 2 == 1 && ncopies < a.live[s]
    requires ncopies < a.live[d]
    modifies a`mem
    ensures Copied(a, m0, s, d, ncopies)
  {
    CopyWord(a, s, d, 0, m0);
    CopyTwo(a, s, d, 1, m0);
    if ncopies > 4 {
      CopyTwo(a, s, d, 3, m0);
      CopyRest(a, s, d, ncopies, m0);
    }
  }

  /** The contents of `s` are copied to `d`: unrolled when they are nine words or fewer. */
  method CopyContents(a: Arena, s: int, d: int, copysize: int)
    requires a.Valid() && s in a.live && d in a.live && s != d && copysize == 8 * (a.live[s] - 1)
    requires a.live[s] <= a.live[d]
    modifies a`mem
    ensures a.Valid() && UserSame(a.live - {d}, old(a.mem), a.mem)
    ensures SameContents(old(a.mem), s, a.mem, d, a.live[s] - 1)
  {
    assert ChunkOk(a.mem, a.g.c, a.base, s) && ChunkOk(a.mem, a.g.c, a.base, d);
    assert Copied(a, a.mem, s, d, 0) by {
      UserInside(a.mem, a.base, a.g.c, a.live);
      UserLess(a.live, d, a.mem, a.mem);
    }
    var ncopies := copysize / 8;
    assert ncopies >= 3 && ncopies % 2 == 1;  // "contents have an odd number of words; minimally 3"
    if ncopies > 9 {
      CopyAll(a, s, d, ncopies, a.mem);
    } else {
      CopyFew(a, s, d, ncopies, a.mem);
    }
  }

  /** `q` stands for `p` in the caller's hands: its size fits, the common contents and all other chunks are
    untouched. */
  ghost predicate Moved(l0: map<int, int>, m0: seq<int>, p: int, l1: map<int, int>, m1: seq<int>, q: int, nb: int) {
    && p in l0 && q in l1 && l1 == (l0 - {p})[q := l1[q]] && (q != p ==> q !in l0)
    && nb <= 8 * l1[q] < nb + MINSIZE
    && UserSame(l0 - {p}, m0, m1) && SameContents(m0, p, m1, q, Min(l0[p], l1[q]) - 1)
  }

  /** Two live neighbours are joined in limbo. */
  ghost method JoinLive(a: Arena, p: int, next: int)
    requires a.Valid() && p in a.live && next in a.live && next == p + a.live[p]
    modifies a`g, a`live
    ensures Resizing(a, p, 8 * old(a.live[p] + a.live[next])) && a.live == old(a.live) - {next} - {p}
  {
    assert ChunkOk(a.mem, a.g.c, a.base, next) && ChunkOk(a.mem, a.g.c, a.base, p);
    JoinNext(a, p, next);
  }

  /** The new chunk lies directly behind the old one: no copy is needed. */
  method MoveJoined(a: Arena, p: int, newp: int, size: int, nb: int, sys: Sbrk)
    requires a.Valid() && p in a.live && newp in a.live && newp == p + a.live[p]
    requires size == 8 * (a.live[p] + a.live[newp]) && Padded(nb) && 8 * a.live[p] < nb <= size
    modifies a
    ensures a.Valid() && Moved(old(a.live) - {newp}, old(a.mem), p, a.live, a.mem, p, nb)
    ensures |a.mem| <= |old(a.mem)|
  {
    ghost var m0, n := a.mem, a.live[p];
    assert ChunkOk(m0, a.g.c, a.base, p);
    JoinLive(a, p, newp);
    FinishRealloc(a, p, size, nb, sys);
    ContentsPrefix(m0, p, a.mem, p, a.live[p] - 1, n - 1);
  }

  /** The contents move to the new chunk, and the old one is freed. */
  method MoveCopied(a: Arena, p: int, newp: int, oldsize: int, nb: int, sys: Sbrk)
    requires a.Valid() && p in a.live && newp in a.live && newp != p && oldsize == 8 * a.live[p]
    requires oldsize < nb <= 8 * a.live[newp] < nb + MINSIZE
    modifies a
    ensures a.Valid() && Moved(old(a.live) - {newp}, old(a.mem), p, a.live, a.mem, newp, nb)
    ensures |a.mem| <= |old(a.mem)|
  {
    ghost var l0, m0 := a.live, a.mem;
    CopyContents(a, p, newp, oldsize - 8);
    ghost var m1 := a.mem;
    assert ChunkOk(m1, a.g.c, a.base, newp);
    IntFree(a, p, sys);
    assert ChunkOk(a.mem, a.g.c, a.base, newp);
    CopiedMoves(l0, m0, p, m1, a.live, a.mem, newp, nb);
  }

  lemma CopiedMoves(l0: map<int, int>, m0: seq<int>, p: int, m1: seq<int>, l1: map<int, int>, m2: seq<int>, q: int,
                    nb: int)
    requires p in l0 && q in l0 && p != q && l1 == l0 - {p} && 1 <= l0[p] <= l0[q] && nb <= 8 * l0[q] < nb + MINSIZE
    requires UserSame(l0 - {q}, m0, m1) && SameContents(m0, p, m1, q, l0[p] - 1) && UserSame(l1, m1, m2)
    requires 0 <= q && q + l0[q] < |m1| && q + l0[q] < |m2|
    ensures Moved(l0 - {q}, m0, p, l1, m2, q, nb)
  {
    Kept(l1, m1, m2, q);
    ContentsPrefix(m1, q, m2, q, l1[q] - 1, l0[p] - 1);
    ContentsChain(m0, p, m1, q, m2, q, l0[p] - 1);
    UserLess(l0 - {q}, p, m0, m1);
    UserChain(l0 - {q} - {p}, l1, m0, m1, m2);
    assert (l0 - {q}) - {p} == l0 - {q} - {p};
    assert l1 == (l0 - {q} - {p})[q := l1[q]];
  }

  lemma TookBack(l0: map<int, int>, l1: map<int, int>, p: int, nb: int)
    requires Took(l0, l1, p, nb)
    ensures l1 - {p} == l0
  {
  }

  lemma LiveBlock(a: Arena, p: int)
    requires a.Valid() && p in a.live
    ensures FIRST <= p && p + a.live[p] < |a.mem| && 4 <= a.live[p] && p + SIZE < |a.mem|
    ensures SizeAt(a.mem, p) == 8 * a.live[p] && 0 <= a.topPad && p in a.g.c && a.g.c[p].n == a.live[p]
  {
    assert ChunkOk(a.mem, a.g.c, a.base, p);
    HeadOf(a.mem, a.g.c, a.base, p);
  }

  /** Block p can have the padded size where it is: it is long enough, or grows into top, or into the binned chunk
    behind it. */
  ghost predicate RoomAt(c: Chunks, top: int, p: int, nb: int) {
    p in c &&
    var q := p + c[p].n;
    || 8 * c[p].n >= nb
    || (q in c && q == top && 8 * (c[p].n + c[q].n) >= nb + MINSIZE)
    || (q in c && c[q].kind.Free? && 8 * (c[p].n + c[q].n) >= nb)
  }

  ghost predicate GapFitsAt(live: map<int, int>, base: int, end: int, need: int, lo: int) {
    exists hi :: GapFit(live, base, end, need, lo, hi)
  }

  /** The same by the blocks of the caller: a gap begins behind p, and is long enough. */
  ghost predicate RoomInGap(live: map<int, int>, base: int, end: int, p: int, nb: int)
    requires p in live
  {
    || 8 * live[p] >= nb
    || (Gap(live, base, end, p + live[p], end) && 8 * (end - p) >= nb + MINSIZE)
    || GapFitsAt(live, base, end, nb - 8 * live[p], p + live[p])
  }

  /** With empty fastbins the two are one. */
  lemma RoomIsGap(a: Arena, p: int, nb: int)
    requires a.Valid() && NoFast(a) && p in a.live
    ensures RoomAt(a.g.c, a.top, p, nb) <==> RoomInGap(a.live, a.base, |a.mem|, p, nb)
  {
    var c, q := a.g.c, p + a.live[p];
    assert ChunkOk(a.mem, c, a.base, p) && ChunkOk(a.mem, c, a.base, q) && ChunkOk(a.mem, c, a.base, a.top);
    forall hi ensures Gap(a.live, a.base, |a.mem|, q, hi) <==> Spare(c, q, hi) {
      if Spare(c, q, hi) {
        SpareIsGap(a, q, hi);
      } else if Gap(a.live, a.base, |a.mem|, q, hi) {
        GapIsSpare(a, q, hi);
      }
    }
    assert Apart(c, q, a.top) && Apart(c, a.top, q);
    assert Spare(c, q, q + c[q].n) <==> c[q].kind.Free? || q == a.top;
    assert GapFit(a.live, a.base, |a.mem|, nb - 8 * a.live[p], q, q + c[q].n) <==>
             c[q].kind.Free? && 8 * (c[p].n + c[q].n) >= nb;
  }

  /** "Allocate, copy, free." */
  method MoveContents(a: Arena, p: int, oldsize: int, nb: int, sys: Sbrk) returns (q: int)
    requires a.Valid() && p in a.live && Padded(nb) && oldsize == 8 * a.live[p] < nb
    modifies a
    ensures a.Valid()
    ensures q == 0 ==> a.live == old(a.live) && UserSame(old(a.live), old(a.mem), a.mem)
    ensures q != 0 ==> Moved(old(a.live), old(a.mem), p, a.live, a.mem, q, nb)
    ensures q != p + old(a.live[p])
    ensures old(Granted(a, nb, sys)) ==> q != 0
    ensures Grown(|old(a.mem)|, |a.mem|, a.topPad, nb)
  {
    hide Arena.Valid, UserSame, Moved, SizeAt, FastHit, SmallHit, BestServed, Searched;
    ghost var l0, m0 := a.live, a.mem;
    LiveBlock(a, p);
    PadUnpad(nb);
    var newp := IntMalloc(a, nb - 15, sys);
    if newp == 0 {
      return 0;
    }
    ghost var m1 := a.mem;
    LiveBlock(a, p);
    LiveBlock(a, newp);
    var newsize := SizeAt(a.mem, newp);
    TookBack(l0, a.live, newp, nb);
    if newp == p + oldsize / 8 {
      q := p;
      MoveJoined(a, p, newp, newsize + oldsize, nb, sys);
    } else {
      q := newp;
      MoveCopied(a, p, newp, oldsize, nb, sys);
    }
    MovedChain(l0, m0, m1, p, a.live, a.mem, q, nb);
  }

  lemma MovedChain(l0: map<int, int>, m0: seq<int>, m1: seq<int>, p: int, l1: map<int, int>, m2: seq<int>, q: int,
                   nb: int)
    requires UserSame(l0, m0, m1) && Moved(l0, m1, p, l1, m2, q, nb) && 0 <= p && p + l0[p] < |m0| && p + l0[p] < |m1|
    requires 1 <= l0[p]
    ensures Moved(l0, m0, p, l1, m2, q, nb)
  {
    var k := Min(l0[p], l1[q]) - 1;
    Kept(l0, m0, m1, p);
    ContentsPrefix(m0, p, m1, p, l0[p] - 1, k);
    ContentsChain(m0, p, m1, p, m2, q, k);
    UserLess(l0, p, m0, m1);
    UserChain(l0 - {p}, l0 - {p}, m0, m1, m2);
  }

  // ------------------------------------------------------------------ _int_realloc

  /** The chunk is big enough already: what it can spare is split off. */
  method Shrink(a: Arena, p: int, oldsize: int, nb: int, sys: Sbrk)
    requires a.Valid() && p in a.live && Padded(nb) && nb <= oldsize == 8 * a.live[p]
    modifies a
    ensures a.Valid() && Moved(old(a.live), old(a.mem), p, a.live, a.mem, p, nb)
    ensures |a.mem| <= |old(a.mem)|
  {
    Borrow(a, p, oldsize);
    FinishRealloc(a, p, oldsize, nb, sys);
  }

  /** The checks of _int_realloc on the chunk and on the one behind it never fire. */
  lemma ReallocChecks(a: Arena, p: int)
    requires a.Valid() && p in a.live
    ensures var next := p + a.live[p];
      && FIRST <= p && p + SIZE < |a.mem| && a.mem[p + SIZE] > 16 && 8 * a.live[p] < a.systemMem
      && HeadKept(a.mem, a.g.c, next) && a.mem[next + SIZE] > 16 && SizeAt(a.mem, next) < a.systemMem
  {
    FreeChecks(a, p);
    assert ChunkOk(a.mem, a.g.c, a.base, p);
    HeadOf(a.mem, a.g.c, a.base, p + a.live[p]);
  }

  /** The PREV_INUSE bit behind a chunk tells whether it is in a bin. */
  lemma InuseReads(a: Arena, p: int)
    requires a.Valid() && p in a.g.c && p != a.top
    ensures var q := p + a.g.c[p].n; HeadKept(a.mem, a.g.c, q) && (a.g.c[p].kind.Free? <==> !PrevInuse(a.mem, q))
  {
    assert ChunkOk(a.mem, a.g.c, a.base, p) && ChunkOk(a.mem, a.g.c, a.base, a.top);
    assert Apart(a.g.c, p, a.top) && Apart(a.g.c, a.top, p);
    HeadOf(a.mem, a.g.c, a.base, p + a.g.c[p].n);
  }

  /** next != av->top && !inuse(next) */
  method NextIsFree(a: Arena, next: int, nextsize: int) returns (free: bool)
    requires a.Valid() && next in a.g.c && nextsize == 8 * a.g.c[next].n
    ensures free <==> a.g.c[next].kind.Free?
  {
    free := false;
    if next != a.top {
      InuseReads(a, next);
      free := !PrevInuse(a.mem, next + nextsize / 8);
    }
  }

  lemma GrownHere(l0: map<int, int>, m0: seq<int>, p: int, l1: map<int, int>, m1: seq<int>, nb: int)
    requires p in l0 && p in l1 && l1 == l0[p := l1[p]] && Padded(nb) && 8 * l0[p] < nb
    requires nb <= 8 * l1[p] < nb + MINSIZE || l1[p] == nb / 8
    requires UserSame(l0 - {p}, m0, m1) && SameContents(m0, p, m1, p, l0[p] - 1)
    ensures Moved(l0, m0, p, l1, m1, p, nb)
  {
  }

  /** The chunk is too small: it grows into top or into the free chunk behind it, or it moves. */
  method Grow(a: Arena, p: int, oldsize: int, next: int, nextsize: int, nb: int, sys: Sbrk) returns (q: int)
    requires a.Valid() && p in a.live && oldsize == 8 * a.live[p] && Padded(nb) && oldsize < nb && 0 < p
    requires next == p + a.live[p] && next in a.g.c && nextsize == 8 * a.g.c[next].n
    modifies a
    ensures a.Valid()
    ensures q == 0 ==> a.live == old(a.live) && UserSame(old(a.live), old(a.mem), a.mem)
    ensures q != 0 ==> Moved(old(a.live), old(a.mem), p, a.live, a.mem, q, nb)
    ensures old(RoomAt(a.g.c, a.top, p, nb)) ==> q == p && |a.mem| <= |old(a.mem)|
    ensures q != p + old(a.live[p])
    ensures old(Granted(a, nb, sys)) ==> q != 0
    ensures Grown(|old(a.mem)|, |a.mem|, a.topPad, nb)
  {
    hide Arena.Valid, Moved, UserSame, SameContents, FastIndex, ChunkOk, Grants;
    ghost var l0, m0 := a.live, a.mem;
    LiveBlock(a, p);
    if next == a.top && oldsize + nextsize >= nb + MINSIZE {
      GrowIntoTop(a, p, nb);
      GrownHere(l0, m0, p, a.live, a.mem, nb);
      return p;
    }
    var free := NextIsFree(a, next, nextsize);
    if free && oldsize + nextsize >= nb {
      GrowIntoNext(a, p, nb, sys);
      GrownHere(l0, m0, p, a.live, a.mem, nb);
      q := p;
    } else {
      q := MoveContents(a, p, oldsize, nb, sys);
    }
  }

  /** _int_realloc: 0 and no change when space runs out; else the chunk, grown, shrunk or moved. It stays where it is
    when there is room, whatever the system answers, and when the new chunk is the one behind it. */
  method IntRealloc(a: Arena, p: int, oldsize: int, nb: int, sys: Sbrk) returns (q: int)
    requires a.Valid() && p in a.live && oldsize == 8 * a.live[p] && Padded(nb)
    modifies a
    ensures a.Valid()
    ensures q == 0 ==> a.live == old(a.live) && UserSame(old(a.live), old(a.mem), a.mem)
    ensures q != 0 ==> Moved(old(a.live), old(a.mem), p, a.live, a.mem, q, nb)
    ensures old(RoomAt(a.g.c, a.top, p, nb)) ==> q == p && |a.mem| <= |old(a.mem)|
    ensures q != p + old(a.live[p])
    ensures old(Granted(a, nb, sys)) ==> q != 0
    ensures Grown(|old(a.mem)|, |a.mem|, a.topPad, nb)
  {
    ReallocChecks(a, p);
    assert !(a.mem[p + SIZE] <= 16) && !(oldsize >= a.systemMem);  // realloc(): invalid old size
    var next := p + oldsize / 8;
    HeadReads(a.mem, a.g.c, next);
    var nextsize := SizeAt(a.mem, next);
    assert !(a.mem[next + SIZE] <= 16) && !(nextsize >= a.systemMem);  // realloc(): invalid next size
    if oldsize >= nb {
      Shrink(a, p, oldsize, nb, sys);
      q := p;
    } else {
      q := Grow(a, p, oldsize, next, nextsize, nb, sys);
    }
  }
}
