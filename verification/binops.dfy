/** What taking a chunk off a bin, or putting one on, does to that bin. */
module BinOps {
  import opened Chunks
  import opened Rings
  import opened Ladders
  import opened Sizes
  import opened Bins

  /** `y` is a node of bin `b`, or a chunk about to become one. */
  ghost predicate LinkNode(c: Chunks, b: int, y: int) {
    (y == Head(b) && 1 <= b < NBINS) || y in c
  }

  lemma MemberAt(mem: seq<int>, base: int, c: Chunks, b: int, l: seq<int>, s: seq<int>, x: int)
    requires Tiled(mem, c, base) && BinOk(mem, c, b, l, s) && x in l && 1 <= b < NBINS
    ensures x in c && c[x].kind == Free(b) && FIRST <= x && x % 2 == 0 && 4 <= c[x].n && x + c[x].n < |mem|
    ensures b >= NSMALLBINS ==> 128 <= c[x].n
    ensures b != UNSORTED ==> BinIndex(8 * c[x].n) == b && 2 <= b <= 126
  {
    assert Member(c, b, x) && ChunkOk(mem, c, base, x);
    BinIndexRange(8 * c[x].n);
  }

  lemma HeadInside(mem: seq<int>, base: int, c: Chunks, b: int)
    requires Tiled(mem, c, base) && 1 <= b < NBINS
    ensures 0 < Head(b) && Head(b) + BK < |mem| && Head(b) + BK < FIRST && Head(b) !in c
  {
    assert ChunkOk(mem, c, base, base);
    assert Head(b) in c ==> ChunkOk(mem, c, base, Head(b));
  }

  /** A plain link store passes by the skip list; `tags` is any memory that shows the tiling. */
  lemma LinkKeepsSkips(tags: seq<int>, mem: seq<int>, base: int, c: Chunks, b: int, l: seq<int>, s: seq<int>, y: int,
                       a: int, v: int)
    requires Tiled(tags, c, base) && |mem| == |tags| && 1 <= b < NBINS
    requires LinkNode(c, b, y) && (a == y + FD || a == y + BK) && 0 <= a < |mem|
    requires forall x :: x in l ==> x in c
    ensures Ladder(mem, c, l, s) ==> Ladder(mem[a := v], c, l, s)
    ensures forall x {:trigger Unskipped(mem, c, x)} {:trigger Unskipped(mem[a := v], c, x)} ::
      x in c && Unskipped(mem, c, x) ==> Unskipped(mem[a := v], c, x)
  {
    HeadInside(tags, base, c, b);
    forall x | x in c ensures a != x + FD_NEXTSIZE && a != x + BK_NEXTSIZE {
      assert ChunkOk(tags, c, base, x);
      if y in c {
        assert Apart(c, x, y) && Apart(c, y, x);
      }
    }
    if Ladder(mem, c, l, s) {
      LadderFrame(mem, c, l, s, a, v);
    }
  }

  /** A nextsize store passes by the plain links; `tags` is any memory that shows the tiling. */
  lemma SkipKeepsLinks(tags: seq<int>, mem: seq<int>, base: int, c: Chunks, b: int, l: seq<int>, y: int, a: int, v: int)
    requires Tiled(tags, c, base) && |mem| == |tags| && 1 <= b < NBINS
    requires y in c && 6 <= c[y].n && (a == y + FD_NEXTSIZE || a == y + BK_NEXTSIZE)
    requires Ring(mem, Head(b), l) && forall x :: x in l ==> x in c
    ensures 0 <= a < |mem| && Ring(mem[a := v], Head(b), l)
  {
    HeadInside(tags, base, c, b);
    assert ChunkOk(tags, c, base, y);
    forall x | x in l ensures a != x + FD && a != x + BK {
      assert ChunkOk(tags, c, base, x);
      assert Apart(c, x, y) && Apart(c, y, x);
    }
    RingFrame(mem, Head(b), l, a, v);
  }

  /** So do the four stores that thread a chunk into the skip list. */
  lemma ThreadKeepsLinks(tags: seq<int>, mem: seq<int>, base: int, c: Chunks, b: int, l: seq<int>, k: int, f: int,
                         v: int)
    requires Tiled(tags, c, base) && |mem| == |tags| && 1 <= b < NBINS
    requires k in c && 6 <= c[k].n && f in c && 6 <= c[f].n && v in c && 6 <= c[v].n
    requires Ring(mem, Head(b), l) && forall x :: x in l ==> x in c
    ensures InMem(mem, k) && InMem(mem, f) && InMem(mem, v) && Ring(Threaded(mem, k, f, v), Head(b), l)
  {
    assert ChunkOk(tags, c, base, k) && ChunkOk(tags, c, base, f) && ChunkOk(tags, c, base, v);
    SkipKeepsLinks(tags, mem, base, c, b, l, v, v + FD_NEXTSIZE, f);
    var m := mem[v + FD_NEXTSIZE := f];
    SkipKeepsLinks(tags, m, base, c, b, l, v, v + BK_NEXTSIZE, k);
    m := m[v + BK_NEXTSIZE := k];
    SkipKeepsLinks(tags, m, base, c, b, l, f, f + BK_NEXTSIZE, v);
    m := m[f + BK_NEXTSIZE := v];
    SkipKeepsLinks(tags, m, base, c, b, l, k, k + FD_NEXTSIZE, v);
  }

  lemma UnthreadKeepsLinks(tags: seq<int>, mem: seq<int>, base: int, c: Chunks, b: int, l: seq<int>, k: int, f: int)
    requires Tiled(tags, c, base) && |mem| == |tags| && 1 <= b < NBINS
    requires k in c && 6 <= c[k].n && f in c && 6 <= c[f].n
    requires Ring(mem, Head(b), l) && forall x :: x in l ==> x in c
    ensures InMem(mem, k) && InMem(mem, f)
    ensures Ring(mem[f + BK_NEXTSIZE := k][k + FD_NEXTSIZE := f], Head(b), l)
  {
    assert ChunkOk(tags, c, base, k) && ChunkOk(tags, c, base, f);
    SkipKeepsLinks(tags, mem, base, c, b, l, f, f + BK_NEXTSIZE, k);
    SkipKeepsLinks(tags, mem[f + BK_NEXTSIZE := k], base, c, b, l, k, k + FD_NEXTSIZE, f);
  }

  /** The two stores of a removal, as far as both lists of the bin are concerned. */
  lemma UnlinkPlainLinks(mem: seq<int>, base: int, c: Chunks, b: int, l: seq<int>, s: seq<int>, j: int)
    requires Tiled(mem, c, base) && 1 <= b < NBINS && BinOk(mem, c, b, l, s) && 0 <= j < |l|
    ensures Linked(mem, Head(b), l, j) && Linked(mem, Head(b), l, j + 1)
    ensures Ring(Unlinked(mem, Head(b), l, j), Head(b), Without(l, j))
    ensures b >= NSMALLBINS ==> Ladder(Unlinked(mem, Head(b), l, j), c, l, s)
    ensures b == UNSORTED ==> forall x {:trigger Unskipped(Unlinked(mem, Head(b), l, j), c, x)} ::
      x in l ==> Unskipped(Unlinked(mem, Head(b), l, j), c, x)
  {
    RingRemove(mem, Head(b), l, j);
    var f, k := Node(Head(b), l, j + 2), Node(Head(b), l, j);
    forall x | x in l ensures x in c {
      assert Member(c, b, x);
    }
    HeadInside(mem, base, c, b);
    LinkKeepsSkips(mem, mem, base, c, b, l, s, f, f + BK, k);
    LinkKeepsSkips(mem, mem[f + BK := k], base, c, b, l, s, k, k + FD, f);
    if b == UNSORTED {
      forall x | x in l ensures Unskipped(mem[f + BK := k][k + FD := f], c, x) {
        assert Unskipped(mem, c, x) && Unskipped(mem[f + BK := k], c, x);
      }
    }
  }

  /** A chunk leaves a bin without nextsize pointers. */
  lemma TakeOff(mem: seq<int>, base: int, c: Chunks, b: int, l: seq<int>, s: seq<int>, j: int)
    requires Tiled(mem, c, base) && 1 <= b < NBINS && BinOk(mem, c, b, l, s) && 0 <= j < |l|
    requires b >= NSMALLBINS ==> l[j] !in s
    ensures Linked(mem, Head(b), l, j) && Linked(mem, Head(b), l, j + 1)
    ensures l[j] in c && BinOk(Unlinked(mem, Head(b), l, j), SetKind(c, l[j], Limbo), b, Without(l, j), s)
  {
    UnlinkPlainLinks(mem, base, c, b, l, s, j);
    var m, w := Unlinked(mem, Head(b), l, j), Without(l, j);
    WithoutHas(l, j);
    if b >= NSMALLBINS { RemovePlain(m, c, l, s, j); }
    assert Member(c, b, l[j]);
    RegardBin(m, c, SetKind(c, l[j], Limbo), b, w, s, l[j]);
  }

  lemma AllMembers(mem: seq<int>, base: int, c: Chunks, b: int, l: seq<int>, s: seq<int>)
    requires Tiled(mem, c, base) && 1 <= b < NBINS && BinOk(mem, c, b, l, s)
    ensures forall x :: x in l ==> x in c && x % 2 == 0 && (b >= NSMALLBINS ==> 6 <= c[x].n)
  {
    forall x | x in l ensures x in c && x % 2 == 0 && (b >= NSMALLBINS ==> 6 <= c[x].n) {
      MemberAt(mem, base, c, b, l, s, x);
    }
  }

  lemma Departed(m: seq<int>, c: Chunks, b: int, l: seq<int>, t: seq<int>, j: int)
    requires NSMALLBINS <= b < NBINS && 0 <= j < |l| && Distinct(l)
    requires forall x {:trigger Member(c, b, x)} :: x in l ==> Member(c, b, x)
    requires Ring(m, Head(b), Without(l, j)) && Ladder(m, c, Without(l, j), t)
    ensures l[j] in c && BinOk(m, SetKind(c, l[j], Limbo), b, Without(l, j), t)
  {
    WithoutHas(l, j);
    assert Member(c, b, l[j]);
    forall x | x in Without(l, j) ensures Member(c, b, x) {
      assert x in l && Member(c, b, x);
    }
    RegardBin(m, c, SetKind(c, l[j], Limbo), b, Without(l, j), t, l[j]);
  }

  /** The last chunk of its size leaves a large bin. */
  lemma TakeOffFirst(mem: seq<int>, base: int, c: Chunks, b: int, l: seq<int>, s: seq<int>, j: int, i: int)
    requires Tiled(mem, c, base) && NSMALLBINS <= b < NBINS && BinOk(mem, c, b, l, s)
    requires 0 <= j < |l| && 0 <= i < |s| && l[j] == s[i] && (j + 1 < |l| ==> l[j + 1] in s)
    ensures Linked(mem, Head(b), l, j) && Linked(mem, Head(b), l, j + 1)
    ensures var m := Unlinked(mem, Head(b), l, j);
      && InMem(m, Prev(s, i)) && InMem(m, Next(s, i)) && l[j] in c
      && BinOk(m[Next(s, i) + BK_NEXTSIZE := Prev(s, i)][Prev(s, i) + FD_NEXTSIZE := Next(s, i)],
               SetKind(c, l[j], Limbo), b, Without(l, j), Without(s, i))
  {
    hide BinIndex;
    UnlinkPlainLinks(mem, base, c, b, l, s, j);
    AllMembers(mem, base, c, b, l, s);
    FirstLeaves(mem, Unlinked(mem, Head(b), l, j), base, c, b, l, s, j, i);
  }

  lemma FirstLeaves(mem: seq<int>, m: seq<int>, base: int, c: Chunks, b: int, l: seq<int>, s: seq<int>, j: int, i: int)
    requires Tiled(mem, c, base) && |m| == |mem| && NSMALLBINS <= b < NBINS
    requires 0 <= j < |l| && 0 <= i < |s| && l[j] == s[i] && (j + 1 < |l| ==> l[j + 1] in s)
    requires forall x {:trigger Member(c, b, x)} :: x in l ==> Member(c, b, x)
    requires forall x :: x in l ==> x in c && x % 2 == 0 && 6 <= c[x].n
    requires Ring(m, Head(b), Without(l, j)) && Ladder(m, c, l, s)
    ensures InMem(m, Prev(s, i)) && InMem(m, Next(s, i)) && l[j] in c
    ensures BinOk(m[Next(s, i) + BK_NEXTSIZE := Prev(s, i)][Prev(s, i) + FD_NEXTSIZE := Next(s, i)],
                  SetKind(c, l[j], Limbo), b, Without(l, j), Without(s, i))
  {
    hide BinIndex, BinOk;
    RemoveFirst(m, c, l, s, j, i);
    var k, f := Prev(s, i), Next(s, i);
    var m' := m[f + BK_NEXTSIZE := k][k + FD_NEXTSIZE := f];
    assert Ring(m', Head(b), Without(l, j)) by {
      assert k in s && f in s && k in l && f in l;
      WithoutHas(l, j);
      UnthreadKeepsLinks(mem, m, base, c, b, Without(l, j), k, f);
    }
    Departed(m', c, b, l, Without(s, i), j);
  }

  /** The first chunk of its size leaves and the second takes over its nextsize pointers. */
  lemma TakeOffReplace(mem: seq<int>, base: int, c: Chunks, b: int, l: seq<int>, s: seq<int>, j: int, i: int)
    requires Tiled(mem, c, base) && NSMALLBINS <= b < NBINS && BinOk(mem, c, b, l, s)
    requires 0 <= j && j + 1 < |l| && 0 <= i < |s| && l[j] == s[i] && l[j + 1] !in s
    ensures Linked(mem, Head(b), l, j) && Linked(mem, Head(b), l, j + 1)
    ensures var m, v := Unlinked(mem, Head(b), l, j), l[j + 1];
      && InMem(m, Prev(s, i)) && InMem(m, Next(s, i)) && InMem(m, v) && l[j] in c
      && BinOk(if |s| == 1 then Threaded(m, v, v, v) else Threaded(m, Prev(s, i), Next(s, i), v),
               SetKind(c, l[j], Limbo), b, Without(l, j), s[i := v])
  {
    hide BinIndex;
    UnlinkPlainLinks(mem, base, c, b, l, s, j);
    AllMembers(mem, base, c, b, l, s);
    var m, w, v := Unlinked(mem, Head(b), l, j), Without(l, j), l[j + 1];
    WithoutHas(l, j);
    ReplaceFirst(m, c, l, s, j, i);
    var k, f := Prev(s, i), Next(s, i);
    assert k in s && f in s && k in l && f in l && v in l;
    ThreadKeepsLinks(mem, m, base, c, b, w, if |s| == 1 then v else k, if |s| == 1 then v else f, v);
    Departed(if |s| == 1 then Threaded(m, v, v, v) else Threaded(m, k, f, v), c, b, l, s[i := v], j);
  }

  // ------------------------------------------------------------------ putting a chunk on

  /** The four plain link stores of an insertion pass by the skip list. */
  lemma InsertKeepsSkips(tags: seq<int>, mem: seq<int>, base: int, c: Chunks, b: int, l: seq<int>, w: seq<int>,
                         s: seq<int>, j: int, v: int)
    requires Tiled(tags, c, base) && |mem| == |tags| && 1 <= b < NBINS && 0 <= j <= |l| && v in c
    requires Ring(mem, Head(b), l)
    requires forall x :: x in l || x in w ==> x in c
    ensures Linked(mem, Head(b), l, j) && 0 <= v && v + BK < |mem|
    ensures Ladder(mem, c, w, s) ==> Ladder(Inserted(mem, Head(b), l, j, v), c, w, s)
    ensures forall x {:trigger Unskipped(Inserted(mem, Head(b), l, j, v), c, x)} ::
      x in c && Unskipped(mem, c, x) ==> Unskipped(Inserted(mem, Head(b), l, j, v), c, x)
  {
    assert Linked(mem, Head(b), l, j) && ChunkOk(tags, c, base, v);
    var k, f := Node(Head(b), l, j), Node(Head(b), l, j + 1);
    LinkKeepsSkips(tags, mem, base, c, b, w, s, v, v + BK, k);
    var m1 := mem[v + BK := k];
    LinkKeepsSkips(tags, m1, base, c, b, w, s, v, v + FD, f);
    var m2 := m1[v + FD := f];
    LinkKeepsSkips(tags, m2, base, c, b, w, s, f, f + BK, v);
    var m3 := m2[f + BK := v];
    LinkKeepsSkips(tags, m3, base, c, b, w, s, k, k + FD, v);
    forall x | x in c && Unskipped(mem, c, x) ensures Unskipped(m3[k + FD := v], c, x) {
      assert Unskipped(m1, c, x) && Unskipped(m2, c, x) && Unskipped(m3, c, x);
    }
  }

  lemma Arrived(m: seq<int>, c: Chunks, b: int, l: seq<int>, t: seq<int>, j: int, v: int)
    requires 1 <= b < NBINS && 0 <= j <= |l| && v in c && v !in l
    requires b != UNSORTED ==> BinIndex(8 * c[v].n) == b
    requires forall x {:trigger Member(c, b, x)} :: x in l ==> Member(c, b, x)
    requires Ring(m, Head(b), With(l, j, v))
    requires if b >= NSMALLBINS then Ladder(m, c, With(l, j, v), t) else t == []
    requires b == UNSORTED ==> forall x {:trigger Unskipped(m, c, x)} :: x in With(l, j, v) ==> Unskipped(m, c, x)
    ensures BinOk(m, SetKind(c, v, Free(b)), b, With(l, j, v), t)
  {
    var d, w := SetKind(c, v, Free(b)), With(l, j, v);
    WithHas(l, j, v);
    forall x | x in w ensures Member(d, b, x) && Size(c, x) == Size(d, x) {
      if x != v { assert Member(c, b, x); }
    }
    if b >= NSMALLBINS { LadderSizes(m, c, d, w, t); }
    if b == UNSORTED {
      forall x | x in w ensures Unskipped(m, d, x) {
        assert Unskipped(m, c, x);
      }
    }
  }

  /** A chunk joins the unsorted list, a small bin, or others of its size in a large bin. */
  lemma PutOn(mem: seq<int>, base: int, c: Chunks, b: int, l: seq<int>, s: seq<int>, j: int, v: int)
    requires Tiled(mem, c, base) && 1 <= b < NBINS && BinOk(mem, c, b, l, s) && 0 <= j <= |l|
    requires v in c && c[v].kind.Limbo?
    requires b != UNSORTED ==> BinIndex(8 * c[v].n) == b
    requires b == UNSORTED ==> Unskipped(mem, c, v)
    requires b >= NSMALLBINS ==> j > 0 && Size(c, v) == Size(c, l[j - 1]) && NoSkip(mem, v)
    ensures Linked(mem, Head(b), l, j) && 0 <= v && v + BK < |mem|
    ensures BinOk(Inserted(mem, Head(b), l, j, v), SetKind(c, v, Free(b)), b, With(l, j, v), s)
  {
    AllMembers(mem, base, c, b, l, s);
    HeadInside(mem, base, c, b);
    assert ChunkOk(mem, c, base, v);
    assert v in l ==> Member(c, b, v);
    RingInsert(mem, Head(b), l, j, v);
    var m, w := Inserted(mem, Head(b), l, j, v), With(l, j, v);
    WithHas(l, j, v);
    InsertKeepsSkips(mem, mem, base, c, b, l, w, s, j, v);
    if b >= NSMALLBINS { InsertSame(mem, c, l, s, j, v); }
    if b == UNSORTED {
      forall x | x in w ensures Unskipped(m, c, x) {
        assert Unskipped(mem, c, x);
      }
    }
    Arrived(m, c, b, l, s, j, v);
  }

  /** Memory after `v` is threaded into the skip list at `i`, or alone. */
  function Skipped(mem: seq<int>, s: seq<int>, i: int, v: int): seq<int>
    requires 0 <= i <= |s|
    requires InMem(mem, v) && (|s| > 0 ==> InMem(mem, Before(s, i)) && InMem(mem, After(s, i)))
  {
    if |s| == 0 then Threaded(mem, v, v, v) else Threaded(mem, Before(s, i), After(s, i), v)
  }

  /** A chunk of a new size joins a large bin. */
  lemma PutNew(mem: seq<int>, base: int, c: Chunks, b: int, l: seq<int>, s: seq<int>, j: int, i: int, v: int)
    requires Tiled(mem, c, base) && NSMALLBINS <= b < NBINS && BinOk(mem, c, b, l, s)
    requires 0 <= j <= |l| && 0 <= i <= |s|
    requires v in c && c[v].kind.Limbo? && BinIndex(8 * c[v].n) == b
    requires j > 0 ==> Size(c, l[j - 1]) > Size(c, v)
    requires j < |l| ==> Size(c, v) > Size(c, l[j])
    requires i > 0 ==> Size(c, s[i - 1]) > Size(c, v)
    requires i < |s| ==> Size(c, v) > Size(c, s[i])
    ensures InMem(mem, v) && (|s| > 0 ==> InMem(mem, Before(s, i)) && InMem(mem, After(s, i)))
    ensures Linked(Skipped(mem, s, i, v), Head(b), l, j)
    ensures BinOk(Inserted(Skipped(mem, s, i, v), Head(b), l, j, v), SetKind(c, v, Free(b)), b,
                  With(l, j, v), With(s, i, v))
  {
    hide Ring, SkipRing, BinIndex;
    AllMembers(mem, base, c, b, l, s);
    assert ChunkOk(mem, c, base, v);
    BinIndexRange(8 * c[v].n);
    assert v in l ==> Member(c, b, v);
    LadderTop(mem, c, l, s);
    if |s| == 0 {
      AloneOnLadder(mem, c, v);
      ThreadKeepsLinks(mem, mem, base, c, b, l, v, v, v);
      assert With(l, j, v) == [v] && With(s, i, v) == [v];
    } else {
      InsertNew(mem, c, l, s, j, i, v);
      SkipKeepsRing(mem, base, c, b, l, s, i, v);
    }
    NewArrives(mem, Skipped(mem, s, i, v), base, c, b, l, With(s, i, v), j, v);
  }

  lemma SkipKeepsRing(mem: seq<int>, base: int, c: Chunks, b: int, l: seq<int>, s: seq<int>, i: int, v: int)
    requires Tiled(mem, c, base) && NSMALLBINS <= b < NBINS && BinOk(mem, c, b, l, s) && 0 <= i <= |s| && |s| > 0
    requires v in c && c[v].kind.Limbo? && BinIndex(8 * c[v].n) == b
    requires InMem(mem, v) && InMem(mem, Before(s, i)) && InMem(mem, After(s, i))
    ensures Ring(Skipped(mem, s, i, v), Head(b), l)
  {
    AllMembers(mem, base, c, b, l, s);
    LadderTop(mem, c, l, s);
    assert Before(s, i) in s && After(s, i) in s && Before(s, i) in l && After(s, i) in l;
    ThreadKeepsLinks(mem, mem, base, c, b, l, Before(s, i), After(s, i), v);
  }

  lemma AloneOnLadder(mem: seq<int>, c: Chunks, v: int)
    requires 0 < v && v % 2 == 0 && InMem(mem, v)
    ensures Ladder(Threaded(mem, v, v, v), c, [v], [v])
  {
    var m := Threaded(mem, v, v, v);
    assert FirstOk(c, [v], [v], 0) && Stepped(m, [v], 0);
  }

  lemma NewArrives(tags: seq<int>, mem: seq<int>, base: int, c: Chunks, b: int, l: seq<int>, t: seq<int>, j: int,
                   v: int)
    requires Tiled(tags, c, base) && |mem| == |tags| && NSMALLBINS <= b < NBINS && 0 <= j <= |l|
    requires v in c && v !in l && BinIndex(8 * c[v].n) == b
    requires forall x {:trigger Member(c, b, x)} :: x in l ==> Member(c, b, x)
    requires Ring(mem, Head(b), l) && Ladder(mem, c, With(l, j, v), t)
    ensures Linked(mem, Head(b), l, j) && 0 <= v && v + BK < |mem|
    ensures BinOk(Inserted(mem, Head(b), l, j, v), SetKind(c, v, Free(b)), b, With(l, j, v), t)
  {
    HeadInside(tags, base, c, b);
    assert ChunkOk(tags, c, base, v);
    RingInsert(mem, Head(b), l, j, v);
    WithHas(l, j, v);
    forall x | x in l ensures x in c { assert Member(c, b, x); }
    InsertKeepsSkips(tags, mem, base, c, b, l, With(l, j, v), t, j, v);
    Arrived(Inserted(mem, Head(b), l, j, v), c, b, l, t, j, v);
  }

  // ------------------------------------------------------------------ what a node's links are

  /** Both link words of every node of bin `b` belong to the bin. */
  lemma NodeWords(mem: seq<int>, base: int, c: Chunks, b: int, l: seq<int>, s: seq<int>, k: int)
    requires Tiled(mem, c, base) && 1 <= b < NBINS && BinOk(mem, c, b, l, s) && 0 <= k <= |l|
    ensures Linked(mem, Head(b), l, k)
    ensures var x := Node(Head(b), l, k); LinkWord(c, b, x, x + FD) && LinkWord(c, b, x, x + BK)
    ensures var x := Node(Head(b), l, k + 1); LinkWord(c, b, x, x + FD) && LinkWord(c, b, x, x + BK)
  {
    assert Linked(mem, Head(b), l, k);
    if 0 < k { MemberAt(mem, base, c, b, l, s, l[k - 1]); }
    if k < |l| { MemberAt(mem, base, c, b, l, s, l[k]); }
  }

  /** What unlink reads of the chunk it takes off. */
  lemma UnlinkReads(mem: seq<int>, base: int, c: Chunks, b: int, l: seq<int>, s: seq<int>, j: int)
    requires Tiled(mem, c, base) && 1 <= b < NBINS && BinOk(mem, c, b, l, s) && 0 <= j < |l|
    ensures Linked(mem, Head(b), l, j) && Linked(mem, Head(b), l, j + 1)
    ensures var fd, bk := Node(Head(b), l, j + 2), Node(Head(b), l, j);
      LinkWord(c, b, fd, fd + BK) && LinkWord(c, b, bk, bk + FD)
    ensures var m, p := Unlinked(mem, Head(b), l, j), l[j];
      && p + BK_NEXTSIZE <= |m| && m[p + SIZE] == mem[p + SIZE]
      && (l[j] in s <==> m[p + SIZE] >= MIN_LARGE_SIZE && p + FD_NEXTSIZE < |m| && m[p + FD_NEXTSIZE] != 0)
  {
    hide BinIndex;
    NodeWords(mem, base, c, b, l, s, j);
    NodeWords(mem, base, c, b, l, s, j + 1);
    OnSkipList(mem, base, c, b, l, s, l[j]);
    MemberAt(mem, base, c, b, l, s, l[j]);
    var fd, bk, p := Node(Head(b), l, j + 2), Node(Head(b), l, j), l[j];
    HeadInside(mem, base, c, b);
    assert ChunkOk(mem, c, base, p);
    if j + 1 < |l| { MemberAt(mem, base, c, b, l, s, fd); assert Apart(c, p, fd) && Apart(c, fd, p); }
    if 0 < j { MemberAt(mem, base, c, b, l, s, bk); assert Apart(c, p, bk) && Apart(c, bk, p); }
  }

  lemma SkipWords(mem: seq<int>, base: int, c: Chunks, b: int, l: seq<int>, s: seq<int>, x: int)
    requires Tiled(mem, c, base) && NSMALLBINS <= b < NBINS && BinOk(mem, c, b, l, s) && x in l
    ensures LinkWord(c, b, x, x + FD_NEXTSIZE) && LinkWord(c, b, x, x + BK_NEXTSIZE)
  {
    MemberAt(mem, base, c, b, l, s, x);
  }

  /** The test `!in_smallbin_range (P->size) && P->fd_nextsize != NULL` finds exactly the chunks on the skip list. */
  lemma OnSkipList(mem: seq<int>, base: int, c: Chunks, b: int, l: seq<int>, s: seq<int>, x: int)
    requires Tiled(mem, c, base) && 1 <= b < NBINS && BinOk(mem, c, b, l, s) && x in l
    ensures x in c && 0 <= x && x + SIZE < |mem| && mem[x + SIZE] == 8 * c[x].n + 1
    ensures mem[x + SIZE] >= MIN_LARGE_SIZE ==> x + BK_NEXTSIZE < |mem|
    ensures x in s <==> mem[x + SIZE] >= MIN_LARGE_SIZE && mem[x + FD_NEXTSIZE] != 0
    ensures x in s ==> b >= NSMALLBINS
  {
    MemberAt(mem, base, c, b, l, s, x);
    assert ChunkOk(mem, c, base, x);
    BinIndexRange(8 * c[x].n);
    if b == UNSORTED { assert Unskipped(mem, c, x); }
    if b >= NSMALLBINS {
      assert Plain(mem, s, x);
      if x in s {
        var i :| 0 <= i < |s| && s[i] == x;
        assert Stepped(mem, s, i);
      }
    }
  }

  // ------------------------------------------------------------------ from one bin to all of them

  lemma OnOneList(mem: seq<int>, base: int, g: View, fb: seq<int>, b: int, p: int)
    requires Sound(mem, base, g, fb, b) && p in g.c && g.c[p].kind == Free(b)
    ensures OffLists(g, b, p)
  {
    forall b' | 1 <= b' < NBINS && b' != b ensures p !in g.lists[b'] {
      assert BinAt(mem, g, b');
      assert p in g.lists[b'] ==> Member(g.c, b', p);
    }
    forall i | 0 <= i < NFASTBINS ensures p !in g.fasts[i] {
      assert FastAt(mem, g, fb, i);
      assert p in g.fasts[i] ==> FastMember(g.c, i, p);
    }
  }

  /** A chunk taken off its bin in memory is taken off it in the view. */
  lemma Unlisting(mem: seq<int>, base: int, g: View, fb: seq<int>, b: int, j: int, t: seq<int>, p: int)
    requires Sound(mem, base, g, fb, b) && AllListed(g) && 1 <= b < NBINS
    requires 0 <= j < |g.lists[b]| && g.lists[b][j] == p && Distinct(g.lists[b]) && p in g.c && g.c[p].kind == Free(b)
    requires BinOk(mem, SetKind(g.c, p, Limbo), b, Without(g.lists[b], j), t)
    ensures var h := View(SetKind(g.c, p, Limbo), g.lists[b := Without(g.lists[b], j)], g.skips[b := t], g.fasts);
      Sound(mem, base, h, fb, 0) && AllListed(h)
  {
    var d := SetKind(g.c, p, Limbo);
    var h := View(d, g.lists[b := Without(g.lists[b], j)], g.skips[b := t], g.fasts);
    ToLimbo(mem, g.c, base, p);
    OnOneList(mem, base, g, fb, b, p);
    Regard(mem, base, g, fb, b, p, d);
    var h' := g.(c := d);
    forall b' | 1 <= b' < NBINS ensures BinAt(mem, h, b') {
      if b' != b { assert BinAt(mem, h', b'); }
    }
    forall i | 0 <= i < NFASTBINS ensures FastAt(mem, h, fb, i) {
      assert FastAt(mem, h', fb, i);
    }
    WithoutHas(g.lists[b], j);
    forall x | x in d ensures Listed(h, x) {
      assert Listed(g, x);
    }
  }

  /** A chunk in limbo put on bin `b` in memory is put on it in the view. */
  lemma Listing(mem: seq<int>, base: int, g: View, fb: seq<int>, b: int, j: int, t: seq<int>, p: int)
    requires Sound(mem, base, g, fb, b) && AllListed(g) && 1 <= b < NBINS
    requires 0 <= j <= |g.lists[b]| && p in g.c && g.c[p].kind.Limbo?
    requires Ready(mem, g.c, p, Free(b))
    requires BinOk(mem, SetKind(g.c, p, Free(b)), b, With(g.lists[b], j, p), t)
    ensures var h := View(SetKind(g.c, p, Free(b)), g.lists[b := With(g.lists[b], j, p)], g.skips[b := t], g.fasts);
      Sound(mem, base, h, fb, 0) && AllListed(h)
  {
    var d := SetKind(g.c, p, Free(b));
    var h := View(d, g.lists[b := With(g.lists[b], j, p)], g.skips[b := t], g.fasts);
    FromLimbo(mem, g.c, base, p, Free(b));
    Unlisted(mem, base, g, fb, b, p);
    Regard(mem, base, g, fb, b, p, d);
    var h' := g.(c := d);
    forall b' | 1 <= b' < NBINS ensures BinAt(mem, h, b') {
      if b' != b { assert BinAt(mem, h', b'); }
    }
    forall i | 0 <= i < NFASTBINS ensures FastAt(mem, h, fb, i) {
      assert FastAt(mem, h', fb, i);
    }
    WithHas(g.lists[b], j, p);
    forall x | x in d ensures Listed(h, x) {
      assert Listed(g, x);
    }
  }

  /** The chunk after `l[j]`, or failing that the next bin's head, tells by its fd_nextsize word
    whether it is already on the skip list: a list head is never zero. */
  lemma NextSkip(m0: seq<int>, m: seq<int>, base: int, g: View, fb: seq<int>, b: int, l: seq<int>, s: seq<int>, j: int)
    requires Tiled(m0, g.c, base) && NSMALLBINS <= b < NBINS && BinOk(m0, g.c, b, l, s) && 0 <= j < |l|
    requires Sound(m, base, g, fb, b) && Ladder(m, g.c, l, s)
    ensures var fd := Node(Head(b), l, j + 2);
      && 0 <= fd && fd + FD_NEXTSIZE < |m|
      && (m[fd + FD_NEXTSIZE] == 0 <==> j + 1 < |l| && l[j + 1] !in s)
      && (m[fd + FD_NEXTSIZE] == 0 ==> fd == l[j + 1])
  {
    MemberAt(m0, base, g.c, b, l, s, l[j]);
    var fd := Node(Head(b), l, j + 2);
    if j + 1 < |l| {
      MemberAt(m0, base, g.c, b, l, s, fd);
      assert Plain(m, s, fd) && ChunkOk(m, g.c, base, fd);
      if fd in s {
        var i :| 0 <= i < |s| && s[i] == fd;
        assert Stepped(m, s, i);
      }
    } else {
      assert BinAt(m, g, b + 1) && Linked(m, Head(b + 1), g.lists[b + 1], 0);
    }
  }

  lemma NodesLink(mem: seq<int>, base: int, c: Chunks, b: int, l: seq<int>, j: int)
    requires Tiled(mem, c, base) && 1 <= b < NBINS && 0 <= j <= |l|
    requires forall x {:trigger Member(c, b, x)} :: x in l ==> Member(c, b, x)
    ensures var x := Node(Head(b), l, j); LinkWord(c, b, x, x + FD)
    ensures var x := Node(Head(b), l, j + 1); LinkWord(c, b, x, x + BK)
  {
    if 0 < j { assert l[j - 1] in l && Member(c, b, l[j - 1]) && ChunkOk(mem, c, base, l[j - 1]); }
    if j < |l| { assert l[j] in l && Member(c, b, l[j]) && ChunkOk(mem, c, base, l[j]); }
  }

  /** A PREV_INUSE bit is no concern of the lists. */
  lemma PinSound(mem: seq<int>, base: int, g: View, fb: seq<int>, q: int, b: bool)
    requires Sound(mem, base, g, fb, 0) && AllListed(g) && q in g.c && 0 <= q && q + SIZE < |mem|
    requires var d, m := g.c[q := g.c[q].(pin := b)], mem[q + SIZE := 8 * g.c[q].n + PinBit(b)]; Tiled(m, d, base)
    ensures var d, m := g.c[q := g.c[q].(pin := b)], mem[q + SIZE := 8 * g.c[q].n + PinBit(b)];
      Sound(m, base, g.(c := d), fb, 0) && AllListed(g.(c := d))
  {
    var d, m := g.c[q := g.c[q].(pin := b)], mem[q + SIZE := 8 * g.c[q].n + PinBit(b)];
    var h := g.(c := d);
    forall k | 1 <= k < NBINS ensures BinAt(m, h, k) {
      assert BinAt(mem, g, k);
      TagMisses(mem, base, g.c, q, k);
      BinKept(mem, base, g, k, q + SIZE, 8 * g.c[q].n + PinBit(b));
      PinMember(m, g.c, d, k, g.lists[k], g.skips[k], q, b);
    }
    forall i | 0 <= i < NFASTBINS ensures FastAt(m, h, fb, i) {
      assert FastAt(mem, g, fb, i);
      TagMisses(mem, base, g.c, q, 1);
      FastKept(mem, base, g, fb, 1, i, q + SIZE, 8 * g.c[q].n + PinBit(b));
      forall x | x in g.fasts[i] ensures FastMember(d, i, x) {
        assert FastMember(g.c, i, x);
      }
    }
    forall x | x in d ensures Listed(h, x) {
      assert Listed(g, x);
    }
  }

  lemma PinMember(mem: seq<int>, c: Chunks, d: Chunks, b: int, l: seq<int>, s: seq<int>, q: int, pin: bool)
    requires BinOk(mem, c, b, l, s) && q in c && d == c[q := c[q].(pin := pin)]
    ensures BinOk(mem, d, b, l, s)
  {
    forall x | x in l ensures Member(d, b, x) && Size(c, x) == Size(d, x) {
      assert Member(c, b, x);
    }
    if b >= NSMALLBINS { LadderSizes(mem, c, d, l, s); }
    if b == UNSORTED {
      forall x | x in l ensures Unskipped(mem, d, x) {
        assert Unskipped(mem, c, x);
      }
    }
  }

  // ------------------------------------------------------------------ changing hands

  /** A chunk that is on no list goes into limbo, or from limbo into use. */
  lemma Rekind(mem: seq<int>, base: int, g: View, fb: seq<int>, p: int, kind: Kind)
    requires Sound(mem, base, g, fb, 0) && AllListed(g) && p in g.c
    requires !g.c[p].kind.Free? && !g.c[p].kind.Fast?
    requires kind.Limbo? || (g.c[p].kind.Limbo? && (kind.Live? || kind.Top?) && Ready(mem, g.c, p, kind))
    ensures var h := g.(c := SetKind(g.c, p, kind)); Sound(mem, base, h, fb, 0) && AllListed(h)
  {
    var d := SetKind(g.c, p, kind);
    if kind.Limbo? { ToLimbo(mem, g.c, base, p); } else { FromLimbo(mem, g.c, base, p, kind); }
    Unlisted(mem, base, g, fb, 0, p);
    Regard(mem, base, g, fb, 0, p, d);
    forall x | x in d ensures Listed(g.(c := d), x) {
      assert Listed(g, x);
    }
  }

  lemma Remerge(mem: seq<int>, base: int, g: View, fb: seq<int>, p: int)
    requires Sound(mem, base, g, fb, 0) && AllListed(g) && p in g.c && g.c[p].kind.Limbo?
    requires p + g.c[p].n in g.c && g.c[p + g.c[p].n].kind.Limbo?
    ensures var h := g.(c := Merge(g.c, p)); Sound(mem, base, h, fb, 0) && AllListed(h)
  {
    var d := Merge(g.c, p);
    MergeLimbo(mem, g.c, base, p);
    Unlisted(mem, base, g, fb, 0, p);
    Regard(mem, base, g, fb, 0, p, d);
    forall x | x in d ensures Listed(g.(c := d), x) {
      assert Listed(g, x);
    }
  }

  lemma Resplit(mem: seq<int>, base: int, g: View, fb: seq<int>, p: int, m: int, pin: bool)
    requires Sound(mem, base, g, fb, 0) && AllListed(g) && p in g.c && g.c[p].kind.Limbo?
    requires 4 <= m <= g.c[p].n - 4 && m % 2 == 0
    ensures var h := g.(c := Split(g.c, p, m, pin)); Sound(mem, base, h, fb, 0) && AllListed(h)
    ensures p + m !in g.c
  {
    var d := Split(g.c, p, m, pin);
    SplitLimbo(mem, g.c, base, p, m, pin);
    Unlisted(mem, base, g, fb, 0, p);
    Regard(mem, base, g, fb, 0, p, d);
    forall x | x in d ensures Listed(g.(c := d), x) {
      if x != p + m { assert Listed(g, x); }
    }
  }

  // ------------------------------------------------------------------ fastbins

  /** The chunk at the head of fastbin i comes off it into limbo. */
  lemma FastPop(mem: seq<int>, base: int, g: View, fb: seq<int>, i: int)
    requires Sound(mem, base, g, fb, 0) && AllListed(g) && 0 <= i < NFASTBINS && fb[i] != 0
    ensures g.fasts[i] != [] && g.fasts[i][0] == fb[i] && FastLinked(mem, g.fasts[i], 0)
    ensures var p := fb[i];
      && FastMember(g.c, i, p) && mem[p + FD] == (if |g.fasts[i]| > 1 then g.fasts[i][1] else 0)
      && var h := View(SetKind(g.c, p, Limbo), g.lists, g.skips, g.fasts[i := g.fasts[i][1..]]);
         var fb' := fb[i := mem[p + FD]];
         Sound(mem, base, h, fb', 0) && AllListed(h)
  {
    assert FastAt(mem, g, fb, i);
    var l, p := g.fasts[i], fb[i];
    assert FastLinked(mem, l, 0) && FastMember(g.c, i, p);
    var k, fb' := g.(fasts := g.fasts[i := l[1..]]), fb[i := mem[p + FD]];
    assert Sound(mem, base, k, fb', 0) by {
      forall b | 1 <= b < NBINS ensures BinAt(mem, k, b) { assert BinAt(mem, g, b); }
      forall j | 0 <= j < NFASTBINS ensures FastAt(mem, k, fb', j) {
        assert FastAt(mem, g, fb, j);
        if j == i {
          forall n | 0 <= n < |l| - 1 ensures FastLinked(mem, l[1..], n) { assert FastLinked(mem, l, n + 1); }
          forall x | x in l[1..] ensures FastMember(g.c, i, x) { assert x in l; }
        }
      }
    }
    var d := SetKind(g.c, p, Limbo);
    ToLimbo(mem, g.c, base, p);
    assert OffLists(k, 0, p) by {
      forall b | 1 <= b < NBINS ensures p !in g.lists[b] {
        assert BinAt(mem, g, b);
        assert p in g.lists[b] ==> Member(g.c, b, p);
      }
      forall j | 0 <= j < NFASTBINS ensures p !in k.fasts[j] {
        assert FastAt(mem, g, fb, j);
        assert p in k.fasts[j] ==> p in g.fasts[j] && FastMember(g.c, j, p);
      }
    }
    Regard(mem, base, k, fb', 0, p, d);
    var h := k.(c := d);
    forall x | x in d ensures Listed(h, x) {
      assert Listed(g, x);
      if x != p && x in l {
        var n :| 0 <= n < |l| && l[n] == x;
        assert l[1..][n - 1] == x;
      }
    }
  }

  /** A chunk in limbo whose fd word already holds the head of fastbin i goes onto it. */
  lemma FastPush(mem: seq<int>, base: int, g: View, fb: seq<int>, i: int, p: int)
    requires Sound(mem, base, g, fb, 0) && AllListed(g) && 0 <= i < NFASTBINS
    requires p in g.c && g.c[p].kind.Limbo? && Ready(mem, g.c, p, Fast) && FastIndex(8 * g.c[p].n) == i
    requires mem[p + FD] == fb[i]
    ensures var h, fb' := View(SetKind(g.c, p, Fast), g.lists, g.skips, g.fasts[i := [p] + g.fasts[i]]), fb[i := p];
      Sound(mem, base, h, fb', 0) && AllListed(h)
  {
    assert ChunkOk(mem, g.c, base, p);
    var d, l := SetKind(g.c, p, Fast), g.fasts[i];
    FromLimbo(mem, g.c, base, p, Fast);
    Unlisted(mem, base, g, fb, 0, p);
    Regard(mem, base, g, fb, 0, p, d);
    var k, fb' := g.(c := d), fb[i := p];
    var h, w := k.(fasts := k.fasts[i := [p] + l]), [p] + l;
    forall b | 1 <= b < NBINS ensures BinAt(mem, h, b) { assert BinAt(mem, k, b); }
    forall j | 0 <= j < NFASTBINS ensures FastAt(mem, h, fb', j) {
      assert FastAt(mem, k, fb, j);
      if j == i {
        forall n | 0 <= n < |w| ensures FastLinked(mem, w, n) {
          if n > 0 { assert FastLinked(mem, l, n - 1); }
        }
        forall x | x in w ensures FastMember(d, i, x) {
          if x != p { assert FastMember(d, i, x); }
        }
      }
    }
    forall x | x in d ensures Listed(h, x) {
      assert Listed(g, x);
      assert w[0] == p;
      if x != p && g.c[x].kind.Fast? && FastIndex(8 * g.c[x].n) == i {
        var n :| 0 <= n < |l| && l[n] == x;
        assert w[n + 1] == x;
      }
    }
  }

  /** What the second half of unlink reads of the chunk that leaves the skip list. */
  lemma UnskipReads(m0: seq<int>, m: seq<int>, base: int, c: Chunks, b: int, l: seq<int>, s: seq<int>, j: int, i: int)
    requires Tiled(m0, c, base) && NSMALLBINS <= b < NBINS && BinOk(m0, c, b, l, s)
    requires 0 <= j < |l| && 0 <= i < |s| && s[i] == l[j]
    requires Linked(m0, Head(b), l, j) && Linked(m0, Head(b), l, j + 1) && m == Unlinked(m0, Head(b), l, j)
    ensures Ladder(m, c, l, s) && l[j] in c
    ensures var p, f, k := l[j], Next(s, i), Prev(s, i);
      && 0 <= p && p + BK_NEXTSIZE < |m| && m[p + FD_NEXTSIZE] == f && m[p + BK_NEXTSIZE] == k
      && InMem(m, f) && InMem(m, k) && m[f + BK_NEXTSIZE] == p && m[k + FD_NEXTSIZE] == p
      && LinkWord(c, b, f, f + BK_NEXTSIZE) && LinkWord(c, b, k, k + FD_NEXTSIZE)
      && (f == p <==> |s| == 1)
  {
    UnlinkPlainLinks(m0, base, c, b, l, s, j);
    StepBack(m, s, i);
    assert Next(s, i) in s && Prev(s, i) in s;
    SkipWords(m0, base, c, b, l, s, Next(s, i));
    SkipWords(m0, base, c, b, l, s, Prev(s, i));
    MemberAt(m0, base, c, b, l, s, l[j]);
  }
}
