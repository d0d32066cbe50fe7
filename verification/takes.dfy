/** The ways _int_malloc takes a chunk: whole, split, off a fastbin, off the end of a bin. */
module Takes {
  import opened Chunks
  import opened Rings
  import opened Sizes
  import opened Bins
  import opened BinOps
  import opened Arenas
  import opened Frees

  /** `last(bin) == bin` exactly when the bin is empty. */
  lemma LastIsHead(a: Arena, b: int)
    requires a.Steady() && 1 <= b < NBINS
    ensures Head(b) + BK < |a.mem| && (a.mem[Head(b) + BK] == Head(b) <==> a.g.lists[b] == [])
    ensures var l := a.g.lists[b]; a.mem[Head(b) + BK] == if l == [] then Head(b) else l[|l| - 1]
    ensures var l := a.g.lists[b]; a.mem[Head(b) + FD] == if l == [] then Head(b) else l[0]
    ensures a.mem[Head(b) + FD] == Head(b) <==> a.g.lists[b] == []
  {
    assert BinAt(a.mem, a.g, b);
    var l := a.g.lists[b];
    assert Linked(a.mem, Head(b), l, |l|) && Linked(a.mem, Head(b), l, 0);
    assert l != [] ==> l[0] in l && l[|l| - 1] in l;
  }

  /** Takes the last chunk off the unsorted list or a small bin: `bin->bk = bck; bck->fd = bin`. */
  method TakeLast(a: Arena, b: int) returns (p: int)
    requires a.Steady() && 1 <= b < NSMALLBINS && a.g.lists[b] != []
    modifies a`mem, a`g
    ensures a.Steady() && UserSame(a.live, old(a.mem), a.mem) && TagsSame(old(a.g.c), old(a.mem), a.mem)
    ensures b == UNSORTED ==> Unskipped(a.mem, old(a.g.c), p)
    ensures var l := old(a.g.lists[b]); p == l[|l| - 1] && p in old(a.g.c) && old(a.g.c[p].kind) == Free(b)
    ensures a.g == old(a.g).(c := SetKind(old(a.g.c), p, Limbo),
                             lists := old(a.g.lists)[b := old(a.g.lists[b])[..|old(a.g.lists[b])| - 1]])
  {
    assert BinAt(a.mem, a.g, b);
    ghost var g, l, s, m0 := a.g, a.g.lists[b], a.g.skips[b], a.mem;
    ghost var j := |l| - 1;
    UnlinkReads(a.mem, a.base, g.c, b, l, s, j);
    MemberAt(a.mem, a.base, g.c, b, l, s, l[j]);
    p := a.mem[Head(b) + BK];
    var bck := a.mem[p + BK];
    assert a.mem[bck + FD] == p;  // malloc(): smallbin double linked list corrupted
    a.Store(Head(b) + BK, bck, b, Head(b));
    a.Store(bck + FD, Head(b), b, bck);
    assert a.mem == Unlinked(m0, Head(b), l, j);
    UnlinkPlainLinks(m0, a.base, g.c, b, l, s, j);
    TakeOff(m0, a.base, g.c, b, l, s, j);
    Unlisting(a.mem, a.base, g, a.fb, b, j, s, p);
    a.g := View(SetKind(g.c, p, Limbo), g.lists[b := Without(l, j)], g.skips[b := s], g.fasts);
    assert Without(l, j) == l[..j];
    assert g.skips[b := s] == g.skips;
  }

  /** A chunk in limbo with a head of its own and used neighbours is handed out whole. */
  method HandOut(a: Arena, p: int)
    requires a.Steady() && OnlyLimbo(a.g.c, p) && HeadKept(a.mem, a.g.c, p) && p !in a.live && p + a.g.c[p].n in a.g.c
    modifies a`mem, a`g, a`live
    ensures a.Steady() && NoLimbo(a.g.c) && a.live == old(a.live)[p := old(a.g.c[p].n)]
    ensures UserSame(old(a.live), old(a.mem), a.mem) && |a.mem| == |old(a.mem)|
    ensures a.g.lists == old(a.g.lists) && a.g.fasts == old(a.g.fasts)
    ensures p in a.g.c && a.g.c[p].pin == old(a.g.c[p].pin) && a.g.c[p].n == old(a.g.c[p].n)
    ensures IsTop(old(a.g.c), a.top) ==> IsTop(a.g.c, a.top)
  {
    var size := SizeAt(a.mem, p);
    assert ChunkOk(a.mem, a.g.c, a.base, p) && ChunkOk(a.mem, a.g.c, a.base, p + a.g.c[p].n);
    a.StorePin(p, p + size / 8, true);
    a.Settle(p, Live);
  }

  /** Cuts a chunk in limbo: the rest joins the unsorted list, the low end gets its head. */
  method CutOff(a: Arena, p: int, nb: int) returns (remainder: int)
    requires a.Steady() && OnlyLimbo(a.g.c, p) && HeadKept(a.mem, a.g.c, p) && a.g.c[p].pin
    requires MINSIZE <= nb && nb % 16 == 0 && 8 * a.g.c[p].n >= nb + MINSIZE
    requires var q := p + a.g.c[p].n; q in a.g.c && !a.g.c[q].pin && (a.g.c[q].kind.Live? || a.g.c[q].kind.Fast?)
    modifies a`mem, a`g
    ensures a.Steady() && OnlyLimbo(a.g.c, p) && HeadKept(a.mem, a.g.c, p)
    ensures UserSame(a.live, old(a.mem), a.mem) && |a.mem| == |old(a.mem)|
    ensures remainder == p + nb / 8 && remainder !in old(a.g.c)
    ensures a.g == old(a.g).(c := SetKind(Split(old(a.g.c), p, nb / 8, true), remainder, Free(UNSORTED)),
                             lists := old(a.g.lists)[UNSORTED := [remainder] + old(a.g.lists[UNSORTED])])
  {
    ghost var q := p + a.g.c[p].n;
    assert ChunkOk(a.mem, a.g.c, a.base, p) && ChunkOk(a.mem, a.g.c, a.base, q);
    HeadReads(a.mem, a.g.c, p);
    var size := SizeAt(a.mem, p);
    remainder := p + nb / 8;
    a.Cut(p, nb / 8, true);
    PlaceUnsorted(a, remainder, size - nb);
    a.StoreTag(p, p + SIZE, nb + 1);
  }

  /** A chunk in limbo is cut in two: the low end is handed out, the rest joins the unsorted list. */
  method HandOutSplit(a: Arena, p: int, nb: int) returns (remainder: int)
    requires a.Steady() && OnlyLimbo(a.g.c, p) && HeadKept(a.mem, a.g.c, p) && a.g.c[p].pin && p !in a.live
    requires MINSIZE <= nb && nb % 16 == 0 && 8 * a.g.c[p].n >= nb + MINSIZE
    requires var q := p + a.g.c[p].n; q in a.g.c && !a.g.c[q].pin && (a.g.c[q].kind.Live? || a.g.c[q].kind.Fast?)
    modifies a`mem, a`g, a`live
    ensures a.Steady() && NoLimbo(a.g.c) && a.live == old(a.live)[p := nb / 8]
    ensures UserSame(old(a.live), old(a.mem), a.mem) && |a.mem| == |old(a.mem)|
    ensures remainder == p + nb / 8 && remainder !in old(a.g.c) && a.g.fasts == old(a.g.fasts)
    ensures a.g.lists == old(a.g.lists)[UNSORTED := [remainder] + old(a.g.lists[UNSORTED])]
    ensures p in a.g.c && a.g.c[p].pin && remainder in a.g.c && a.g.c[remainder].n == old(a.g.c[p].n) - nb / 8
    ensures IsTop(old(a.g.c), a.top) ==> IsTop(a.g.c, a.top)
  {
    remainder := CutOff(a, p, nb);
    assert ChunkOk(a.mem, a.g.c, a.base, remainder) && ChunkOk(a.mem, a.g.c, a.base, p);
    a.Settle(p, Live);
  }
}
