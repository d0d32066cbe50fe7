/** Sorting a chunk from the unsorted list into the bin of its size. */
module Binning {
  import opened Chunks
  import opened Rings
  import opened Ladders
  import opened Sizes
  import opened Bins
  import opened BinOps
  import opened Binmaps
  import opened Arenas
  import opened Takes

  /** A chunk in limbo, tagged as free, that is to go on the bin of its size. */
  ghost predicate Binnable(a: Arena, v: int, b: int)
    reads a
  {
    && a.Steady() && OnlyLimbo(a.g.c, v) && Ready(a.mem, a.g.c, v, Free(b))
    && 2 <= b < NBINS && BinIndex(8 * a.g.c[v].n) == b && 0 < v && v + BK < |a.mem|
  }

  /** mark_bin */
  method MarkBin(a: Arena, b: int)
    requires 2 <= b < NBINS && BitsOk(a.binmap, a.marked)
    modifies a`binmap, a`marked
    ensures BitsOk(a.binmap, a.marked) && a.marked == old(a.marked) + {b}
  {
    var w, k := b / BITSPERMAP, b % BITSPERMAP;
    MarkBits(a.binmap, a.marked, w, k);
    a.binmap := a.binmap[w := Or(a.binmap[w], Bit(k))];
    a.marked := a.marked + {b};
  }

  /** Small bins are not ordered: the chunk goes to the front. */
  method BinSmall(a: Arena, v: int, b: int)
    requires Binnable(a, v, b) && b < NSMALLBINS
    modifies a`mem, a`g
    ensures a.Steady() && NoLimbo(a.g.c) && UserSame(a.live, old(a.mem), a.mem) && |a.mem| == |old(a.mem)|
    ensures a.g == old(a.g).(c := SetKind(old(a.g.c), v, Free(b)),
                             lists := old(a.g.lists)[b := [v] + old(a.g.lists[b])])
  {
    ghost var g, l, s := a.g, a.g.lists[b], a.g.skips[b];
    assert BinAt(a.mem, g, b);
    PutOn(a.mem, a.base, g.c, b, l, s, 0, v);
    var bck := Head(b);
    var fwd := a.mem[bck + FD];
    a.Link(v, bck, fwd, b, 0, s);
    assert With(l, 0, v) == [v] + l;
    assert g.skips[b := s] == g.skips;
  }

  // ------------------------------------------------------------------ large bins

  /** What the source has to know of a large bin and the chunk that joins it. */
  ghost predicate Joining(a: Arena, v: int, b: int)
    reads a
  {
    Binnable(a, v, b) && NSMALLBINS <= b && NoSkip(a.mem, v) && a.g.lists[b] != []
  }

  lemma JoiningFacts(a: Arena, v: int, b: int)
    requires Joining(a, v, b)
    ensures BinAt(a.mem, a.g, b) && |a.g.skips[b]| > 0 && a.g.skips[b][0] == a.g.lists[b][0]
    ensures forall x :: x in a.g.lists[b] ==>
      0 < x && x + BK_NEXTSIZE < |a.mem| && a.mem[x + SIZE] == 8 * Size(a.g.c, x) + 1
      && LinkWord(a.g.c, b, x, x + FD_NEXTSIZE) && LinkWord(a.g.c, b, x, x + BK_NEXTSIZE)
    ensures LinkWord(a.g.c, b, v, v + FD_NEXTSIZE) && LinkWord(a.g.c, b, v, v + BK_NEXTSIZE) && InMem(a.mem, v)
    ensures v !in a.g.lists[b]
  {
    assert BinAt(a.mem, a.g, b);
    LadderTop(a.mem, a.g.c, a.g.lists[b], a.g.skips[b]);
    forall x | x in a.g.lists[b]
      ensures 0 < x && x + BK_NEXTSIZE < |a.mem| && a.mem[x + SIZE] == 8 * Size(a.g.c, x) + 1
      ensures LinkWord(a.g.c, b, x, x + FD_NEXTSIZE) && LinkWord(a.g.c, b, x, x + BK_NEXTSIZE)
    {
      MemberAt(a.mem, a.base, a.g.c, b, a.g.lists[b], a.g.skips[b], x);
      OnSkipList(a.mem, a.base, a.g.c, b, a.g.lists[b], a.g.skips[b], x);
    }
    assert ChunkOk(a.mem, a.g.c, a.base, v);
    BinIndexRange(8 * a.g.c[v].n);
    assert v in a.g.lists[b] ==> Member(a.g.c, b, v);
  }

  lemma SizeNotLarger(mem: seq<int>, c: Chunks, l: seq<int>, s: seq<int>, n: int) returns (z: int)
    requires Ladder(mem, c, l, s) && |l| > 0 && Size(c, l[|l| - 1]) <= n
    ensures 0 <= z < |s| && Size(c, s[z]) <= n
  {
    var j := FirstOf(c, l, s, |l| - 1);
    z :| 0 <= z < |s| && s[z] == l[j];
  }

  /** One step down the skip list. */
  method NextSize(a: Arena, b: int, x: int, ghost i: int) returns (fwd: int, ghost i': int)
    requires a.Steady() && NSMALLBINS <= b < NBINS && 0 <= i && i + 1 < |a.g.skips[b]| && x == a.g.skips[b][i]
    ensures i' == i + 1 && fwd == a.g.skips[b][i + 1] && fwd in a.g.c && 0 <= fwd && fwd + SIZE < |a.mem|
    ensures a.mem[fwd + SIZE] == 8 * a.g.c[fwd].n + 1
  {
    assert BinAt(a.mem, a.g, b);
    StepBack(a.mem, a.g.skips[b], i);
    fwd := a.mem[x + FD_NEXTSIZE];
    i' := i + 1;
    OnSkipList(a.mem, a.base, a.g.c, b, a.g.lists[b], a.g.skips[b], fwd);
  }

  /** The walk over the skip list: the first distinct size that is not larger than the chunk. */
  method FindSize(a: Arena, v: int, b: int, w: int) returns (fwd: int, ghost i: int)
    requires Joining(a, v, b) && w == 8 * a.g.c[v].n + 1
    requires var l := a.g.lists[b]; Size(a.g.c, l[|l| - 1]) <= a.g.c[v].n
    ensures 0 <= i < |a.g.skips[b]| && fwd == a.g.skips[b][i] && fwd in a.g.lists[b]
    ensures Size(a.g.c, fwd) <= a.g.c[v].n && (i > 0 ==> Size(a.g.c, a.g.skips[b][i - 1]) > a.g.c[v].n)
  {
    assert BinAt(a.mem, a.g, b);
    ghost var c, l, s, n := a.g.c, a.g.lists[b], a.g.skips[b], a.g.c[v].n;
    ghost var z := SizeNotLarger(a.mem, c, l, s, n);
    LastIsHead(a, b);
    LadderTop(a.mem, c, l, s);
    fwd := a.mem[Head(b) + FD];
    i := 0;
    OnSkipList(a.mem, a.base, c, b, l, s, fwd);
    while w < a.mem[fwd + SIZE]
      invariant 0 <= i <= z && fwd == s[i] && 0 <= fwd && fwd + SIZE < |a.mem|
      invariant fwd in c && a.mem[fwd + SIZE] == 8 * c[fwd].n + 1
      invariant i > 0 ==> Size(c, s[i - 1]) > n
      decreases |s| - i
    {
      fwd, i := NextSize(a, b, fwd, i);
    }
  }

  /** "Always insert in the second position": another chunk of a size the bin has already. */
  method JoinSize(a: Arena, v: int, b: int, first: int, ghost j: int)
    requires Joining(a, v, b) && 0 < j <= |a.g.lists[b]| && first == a.g.lists[b][j - 1]
    requires Size(a.g.c, first) == a.g.c[v].n
    modifies a`mem, a`g
    ensures a.Steady() && NoLimbo(a.g.c) && UserSame(a.live, old(a.mem), a.mem) && |a.mem| == |old(a.mem)|
    ensures a.g.c == SetKind(old(a.g.c), v, Free(b)) && a.g.fasts == old(a.g.fasts)
    ensures a.g.lists == old(a.g.lists)[b := With(old(a.g.lists[b]), j, v)]
  {
    ghost var l, s := a.g.lists[b], a.g.skips[b];
    assert BinAt(a.mem, a.g, b);
    PutOn(a.mem, a.base, a.g.c, b, l, s, j, v);
    assert Linked(a.mem, Head(b), l, j);
    var fwd := a.mem[first + FD];
    var bck := a.mem[fwd + BK];
    a.Link(v, bck, fwd, b, j, s);
  }

  /** A chunk of a new size, put in front of position j of the list and i of the skip list. */
  method JoinNew(a: Arena, v: int, b: int, bck: int, fwd: int, k: int, f: int, ghost j: int, ghost i: int)
    requires Joining(a, v, b) && 0 <= j <= |a.g.lists[b]| && 0 <= i <= |a.g.skips[b]| && 0 < |a.g.skips[b]|
    requires bck == Node(Head(b), a.g.lists[b], j) && fwd == Node(Head(b), a.g.lists[b], j + 1)
    requires k == Before(a.g.skips[b], i) && f == After(a.g.skips[b], i) && k in a.g.lists[b] && f in a.g.lists[b]
    requires j > 0 ==> Size(a.g.c, a.g.lists[b][j - 1]) > a.g.c[v].n
    requires j < |a.g.lists[b]| ==> a.g.c[v].n > Size(a.g.c, a.g.lists[b][j])
    requires i > 0 ==> Size(a.g.c, a.g.skips[b][i - 1]) > a.g.c[v].n
    requires i < |a.g.skips[b]| ==> a.g.c[v].n > Size(a.g.c, a.g.skips[b][i])
    modifies a`mem, a`g
    ensures a.Steady() && NoLimbo(a.g.c) && UserSame(a.live, old(a.mem), a.mem) && |a.mem| == |old(a.mem)|
    ensures a.g.c == SetKind(old(a.g.c), v, Free(b)) && a.g.fasts == old(a.g.fasts)
    ensures a.g.lists == old(a.g.lists)[b := With(old(a.g.lists[b]), j, v)]
  {
    JoiningFacts(a, v, b);
    ghost var l, s := a.g.lists[b], a.g.skips[b];
    PutNew(a.mem, a.base, a.g.c, b, l, s, j, i, v);
    a.Thread(k, f, v, b);
    a.Link(v, bck, fwd, b, j, With(s, i, v));
  }

  /** Position j is right behind the first chunk of the size, or where a new size belongs. */
  ghost predicate Fitting(c: Chunks, l: seq<int>, s: seq<int>, j: int, n: int)
    requires 0 <= j <= |l|
  {
    || (j > 0 && l[j - 1] in s && Size(c, l[j - 1]) == n)
    || ((j > 0 ==> Size(c, l[j - 1]) > n) && (j < |l| ==> n > Size(c, l[j])))
  }

  /** The list index of the first chunk of a size. */
  lemma IndexOf(l: seq<int>, x: int) returns (j: int)
    requires x in l
    ensures 0 <= j < |l| && l[j] == x
  {
    j :| 0 <= j < |l| && l[j] == x;
  }

  /** In front of the first chunk of a size stand only larger chunks. */
  lemma LargerBefore(mem: seq<int>, c: Chunks, l: seq<int>, s: seq<int>, j: int, i: int, n: int)
    requires Ladder(mem, c, l, s) && 0 <= j < |l| && 0 <= i < |s| && l[j] == s[i]
    requires i > 0 ==> Size(c, s[i - 1]) > n
    ensures j > 0 ==> Size(c, l[j - 1]) > n
  {
    if j > 0 {
      assert FirstOk(c, l, s, j);
      LadderGap(mem, c, l, s, j - 1, i);
    }
  }

  lemma SmallestOfAll(mem: seq<int>, c: Chunks, l: seq<int>, s: seq<int>, n: int)
    requires Ladder(mem, c, l, s) && |l| > 0 && Size(c, l[|l| - 1]) > n
    ensures |s| > 0 && Size(c, s[|s| - 1]) > n && s[0] in l && s[|s| - 1] in l
  {
    LadderTop(mem, c, l, s);
    var j := IndexOf(l, s[|s| - 1]);
  }

  /** "If smaller than smallest, bypass loop": the chunk goes to the end of both lists. */
  method JoinLast(a: Arena, v: int, b: int) returns (ghost j: int)
    requires Joining(a, v, b)
    requires var l := a.g.lists[b]; Size(a.g.c, l[|l| - 1]) > a.g.c[v].n
    modifies a`mem, a`g
    ensures a.Steady() && NoLimbo(a.g.c) && UserSame(a.live, old(a.mem), a.mem) && |a.mem| == |old(a.mem)|
    ensures a.g.c == SetKind(old(a.g.c), v, Free(b)) && a.g.fasts == old(a.g.fasts)
    ensures 0 <= j <= |old(a.g.lists[b])| && a.g.lists == old(a.g.lists)[b := With(old(a.g.lists[b]), j, v)]
    ensures Fitting(old(a.g.c), old(a.g.lists[b]), old(a.g.skips[b]), j, old(a.g.c[v].n))
  {
    hide FastOk, Firsts, MapOk, FastAt, BinIndex, FastIndex;
    JoiningFacts(a, v, b);
    ghost var l, s := a.g.lists[b], a.g.skips[b];
    assert Linked(a.mem, Head(b), l, |l|) && Linked(a.mem, Head(b), l, 0);
    SmallestOfAll(a.mem, a.g.c, l, s, a.g.c[v].n);
    StepBack(a.mem, s, 0);
    var first := a.mem[Head(b) + FD];
    j := |l|;
    JoinNew(a, v, b, a.mem[Head(b) + BK], Head(b), a.mem[first + BK_NEXTSIZE], first, |l|, |s|);
  }

  method JoinBefore(a: Arena, v: int, b: int, fwd: int, ghost i: int) returns (ghost j: int)
    requires Joining(a, v, b) && 0 <= i < |a.g.skips[b]| && fwd == a.g.skips[b][i] && fwd in a.g.lists[b]
    requires Size(a.g.c, fwd) < a.g.c[v].n && (i > 0 ==> Size(a.g.c, a.g.skips[b][i - 1]) > a.g.c[v].n)
    modifies a`mem, a`g
    ensures a.Steady() && NoLimbo(a.g.c) && UserSame(a.live, old(a.mem), a.mem) && |a.mem| == |old(a.mem)|
    ensures a.g.c == SetKind(old(a.g.c), v, Free(b)) && a.g.fasts == old(a.g.fasts)
    ensures 0 <= j <= |old(a.g.lists[b])| && a.g.lists == old(a.g.lists)[b := With(old(a.g.lists[b]), j, v)]
    ensures Fitting(old(a.g.c), old(a.g.lists[b]), old(a.g.skips[b]), j, old(a.g.c[v].n))
  {
    JoiningFacts(a, v, b);
    ghost var l, s := a.g.lists[b], a.g.skips[b];
    j := IndexOf(l, fwd);
    LargerBefore(a.mem, a.g.c, l, s, j, i, a.g.c[v].n);
    StepBack(a.mem, s, i);
    assert Linked(a.mem, Head(b), l, j);
    assert Before(s, i) in s;
    JoinNew(a, v, b, a.mem[fwd + BK], fwd, a.mem[fwd + BK_NEXTSIZE], fwd, j, i);
  }

  /** The chunk goes next to the first chunk of its size, or in front of the first smaller one. */
  method JoinInOrder(a: Arena, v: int, b: int, w: int) returns (ghost j: int)
    requires Joining(a, v, b) && w == 8 * a.g.c[v].n + 1
    requires var l := a.g.lists[b]; Size(a.g.c, l[|l| - 1]) <= a.g.c[v].n
    modifies a`mem, a`g
    ensures a.Steady() && NoLimbo(a.g.c) && UserSame(a.live, old(a.mem), a.mem) && |a.mem| == |old(a.mem)|
    ensures a.g.c == SetKind(old(a.g.c), v, Free(b)) && a.g.fasts == old(a.g.fasts)
    ensures 0 <= j <= |old(a.g.lists[b])| && a.g.lists == old(a.g.lists)[b := With(old(a.g.lists[b]), j, v)]
    ensures Fitting(old(a.g.c), old(a.g.lists[b]), old(a.g.skips[b]), j, old(a.g.c[v].n))
  {
    JoiningFacts(a, v, b);
    var fwd; ghost var i;
    fwd, i := FindSize(a, v, b, w);
    if w == a.mem[fwd + SIZE] {
      j := IndexOf(a.g.lists[b], fwd);
      j := j + 1;
      JoinSize(a, v, b, fwd, j);
    } else {
      j := JoinBefore(a, v, b, fwd, i);
    }
  }

  /** Places a chunk in its large bin, keeping both the size order and the skip list. */
  method BinLarge(a: Arena, v: int, b: int) returns (ghost j: int)
    requires Joining(a, v, b)
    modifies a`mem, a`g
    ensures a.Steady() && NoLimbo(a.g.c) && UserSame(a.live, old(a.mem), a.mem) && |a.mem| == |old(a.mem)|
    ensures a.g.c == SetKind(old(a.g.c), v, Free(b)) && a.g.fasts == old(a.g.fasts)
    ensures 0 <= j <= |old(a.g.lists[b])| && a.g.lists == old(a.g.lists)[b := With(old(a.g.lists[b]), j, v)]
    ensures Fitting(old(a.g.c), old(a.g.lists[b]), old(a.g.skips[b]), j, old(a.g.c[v].n))
  {
    JoiningFacts(a, v, b);
    ghost var l := a.g.lists[b];
    assert Linked(a.mem, Head(b), l, |l|);
    HeadReads(a.mem, a.g.c, v);
    var w := SizeAt(a.mem, v) + 1;   // "Or with inuse bit to speed comparisons"
    var last := a.mem[Head(b) + BK];
    if w < a.mem[last + SIZE] {
      j := JoinLast(a, v, b);
    } else {
      j := JoinInOrder(a, v, b, w);
    }
  }

  lemma EmptyFacts(a: Arena, v: int, b: int)
    requires Binnable(a, v, b) && NSMALLBINS <= b && a.g.lists[b] == []
    ensures BinAt(a.mem, a.g, b) && a.g.skips[b] == [] && InMem(a.mem, v)
    ensures LinkWord(a.g.c, b, v, v + FD_NEXTSIZE) && LinkWord(a.g.c, b, v, v + BK_NEXTSIZE)
    ensures var m := Threaded(a.mem, v, v, v);
      && Linked(m, Head(b), [], 0)
      && BinOk(Inserted(m, Head(b), [], 0, v), SetKind(a.g.c, v, Free(b)), b, [v], [v])
  {
    assert BinAt(a.mem, a.g, b) && ChunkOk(a.mem, a.g.c, a.base, v);
    LadderTop(a.mem, a.g.c, a.g.lists[b], a.g.skips[b]);
    BinIndexRange(8 * a.g.c[v].n);
    PutNew(a.mem, a.base, a.g.c, b, [], [], 0, 0, v);
    assert With([], 0, v) == [v];
  }

  /** The first chunk of an empty large bin is alone on the skip list too. */
  method JoinEmpty(a: Arena, v: int, b: int)
    requires Binnable(a, v, b) && NSMALLBINS <= b && a.g.lists[b] == []
    modifies a`mem, a`g
    ensures a.Steady() && NoLimbo(a.g.c) && UserSame(a.live, old(a.mem), a.mem) && |a.mem| == |old(a.mem)|
    ensures a.g.c == SetKind(old(a.g.c), v, Free(b)) && a.g.fasts == old(a.g.fasts)
    ensures a.g.lists == old(a.g.lists)[b := [v]]
  {
    EmptyFacts(a, v, b);
    assert With([], 0, v) == [v];
    a.Thread(v, v, v, b);
    a.Link(v, Head(b), Head(b), b, 0, [v]);
  }

  /** "place chunk in bin": small or large, and marks the bin. */
  method BinChunk(a: Arena, v: int, size: int)
    requires a.Steady() && OnlyLimbo(a.g.c, v) && size == 8 * a.g.c[v].n && Ready(a.mem, a.g.c, v, Free(UNSORTED))
    requires Unskipped(a.mem, a.g.c, v) && MapOk(a.marked, a.g.lists) && BitsOk(a.binmap, a.marked)
    modifies a`mem, a`g, a`binmap, a`marked
    ensures a.Steady() && NoLimbo(a.g.c) && UserSame(a.live, old(a.mem), a.mem) && |a.mem| == |old(a.mem)|
    ensures MapOk(a.marked, a.g.lists) && BitsOk(a.binmap, a.marked) && a.g.fasts == old(a.g.fasts)
    ensures a.g.c == SetKind(old(a.g.c), v, Free(BinIndex(size))) && |a.g.lists| == |old(a.g.lists)|
    ensures forall b :: 0 <= b < NBINS && b != BinIndex(size) ==> a.g.lists[b] == old(a.g.lists[b])
  {
    assert ChunkOk(a.mem, a.g.c, a.base, v);
    BinIndexRange(size);
    var b := BinIndex(size);
    if size < MIN_LARGE_SIZE {
      BinSmall(a, v, b);
    } else {
      LastIsHead(a, b);
      if a.mem[Head(b) + FD] != Head(b) {
        ghost var _ := BinLarge(a, v, b);
      } else {
        JoinEmpty(a, v, b);
      }
    }
    MarkBin(a, b);
  }
}
