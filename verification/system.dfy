/** The end of the heap: MORECORE, the growth and the release of top. */
module System {
  import Arith
  import opened Chunks
  import opened Rings
  import opened Ladders
  import opened Sizes
  import opened Bins
  import opened Arenas

  /** `m` is `mem` with another end: the words before chunk `p`, the last one, are the same. */
  ghost predicate NewEnd(mem: seq<int>, m: seq<int>, c: Chunks, p: int) {
    && p in c && c[p].kind.Limbo? && p + c[p].n == |mem| && 0 <= p && p + 4 <= |m| && (|m| - p) % 2 == 0
    && forall a :: 0 <= a < p + FD ==> a < |mem| && m[a] == mem[a]
  }

  function Resized(c: Chunks, p: int, n: int): Chunks
    requires p in c
  {
    c[p := c[p].(n := n)]
  }

  lemma ResizeTiled(mem: seq<int>, m: seq<int>, c: Chunks, base: int, p: int)
    requires Tiled(mem, c, base) && NewEnd(mem, m, c, p)
    ensures Tiled(m, Resized(c, p, |m| - p), base)
  {
    var d := Resized(c, p, |m| - p);
    assert ChunkOk(mem, c, base, p);
    forall x | x in d ensures ChunkOk(m, d, base, x) {
      assert ChunkOk(mem, c, base, x);
      assert Apart(c, x, p) && Apart(c, p, x);
    }
    forall x, y | x in d && y in d ensures Apart(d, x, y) {
      assert Apart(c, x, y) && ChunkOk(mem, c, base, y);
    }
  }

  lemma BeforeEnd(mem: seq<int>, m: seq<int>, c: Chunks, base: int, p: int, x: int)
    requires Tiled(mem, c, base) && NewEnd(mem, m, c, p) && x in c && x != p
    ensures FIRST <= x && x + c[x].n <= p && 4 <= c[x].n && FIRST <= p
  {
    assert ChunkOk(mem, c, base, x) && ChunkOk(mem, c, base, p);
    assert Apart(c, x, p) && Apart(c, p, x);
  }

  lemma ResizeBin(mem: seq<int>, m: seq<int>, base: int, g: View, b: int, p: int)
    requires Tiled(mem, g.c, base) && NewEnd(mem, m, g.c, p)
    requires |g.lists| == NBINS && |g.skips| == NBINS && 1 <= b < NBINS && BinAt(mem, g, b)
    ensures BinAt(m, g.(c := Resized(g.c, p, |m| - p)), b)
  {
    var c, l, s := g.c, g.lists[b], g.skips[b];
    var d := Resized(c, p, |m| - p);
    assert ChunkOk(mem, c, base, p);
    forall x | x in l
      ensures Member(d, b, x) && Size(c, x) == Size(d, x) && FIRST <= x && x + 4 <= p
      ensures x + 6 <= p || 8 * Size(c, x) < MIN_LARGE_SIZE
      ensures b >= NSMALLBINS ==> 8 * Size(c, x) >= MIN_LARGE_SIZE
    {
      assert Member(c, b, x);
      BeforeEnd(mem, m, c, base, p, x);
      assert ChunkOk(mem, c, base, x);
      BinIndexRange(8 * c[x].n);
    }
    forall k | 0 <= k <= |l| ensures Linked(m, Head(b), l, k) {
      assert Linked(mem, Head(b), l, k);
      assert (k > 0 ==> l[k - 1] in l) && (k < |l| ==> l[k] in l);
    }
    if b >= NSMALLBINS {
      LadderSizes(mem, c, d, l, s);
      forall k | 0 <= k < |s| ensures Stepped(m, s, k) {
        assert Stepped(mem, s, k) && s[k] in l && Next(s, k) in l;
      }
      forall x | x in l ensures Plain(m, s, x) {
        assert Plain(mem, s, x);
      }
    }
    if b == UNSORTED {
      forall x | x in l ensures Unskipped(m, d, x) {
        assert Unskipped(mem, c, x);
      }
    }
  }

  lemma ResizeSound(mem: seq<int>, m: seq<int>, base: int, g: View, fb: seq<int>, p: int)
    requires Sound(mem, base, g, fb, 0) && AllListed(g) && NewEnd(mem, m, g.c, p)
    ensures var h := g.(c := Resized(g.c, p, |m| - p)); Sound(m, base, h, fb, 0) && AllListed(h)
  {
    var d := Resized(g.c, p, |m| - p);
    var h := g.(c := d);
    ResizeTiled(mem, m, g.c, base, p);
    forall b | 1 <= b < NBINS ensures BinAt(m, h, b) {
      assert BinAt(mem, g, b);
      ResizeBin(mem, m, base, g, b, p);
    }
    forall i | 0 <= i < NFASTBINS ensures FastAt(m, h, fb, i) {
      assert FastAt(mem, g, fb, i);
      forall x | x in g.fasts[i] ensures FastMember(d, i, x) && x + 4 <= p {
        assert FastMember(g.c, i, x);
        BeforeEnd(mem, m, g.c, base, p, x);
      }
      forall k | 0 <= k < |g.fasts[i]| ensures FastLinked(m, g.fasts[i], k) {
        assert FastLinked(mem, g.fasts[i], k) && g.fasts[i][k] in g.fasts[i];
      }
    }
    forall x | x in d ensures Listed(h, x) {
      assert Listed(g, x);
    }
  }

  lemma ResizeUser(mem: seq<int>, m: seq<int>, base: int, c: Chunks, live: map<int, int>, p: int)
    requires Tiled(mem, c, base) && AllLive(live, c) && NewEnd(mem, m, c, p)
    ensures UserSame(live, mem, m)
  {
    assert ChunkOk(mem, c, base, p);
    forall x, w | UserWord(live, x, w) ensures 0 <= w < |mem| && w < |m| && mem[w] == m[w] {
      BeforeEnd(mem, m, c, base, p, x);
    }
  }

  /** What the operating system does when asked: whether sbrk grows the heap, with what in the new
    words, and how many of the pages a negative sbrk offers it does not take back. */
  datatype Sbrk = Sbrk(grants: bool, filler: int -> int, keeps: nat)

  /** A chunk was handed out: new to the caller, big enough, and less than MINSIZE too big. */
  ghost predicate Took(live0: map<int, int>, live1: map<int, int>, p: int, nb: int) {
    p !in live0 && p in live1 && live1 == live0[p := live1[p]] && nb <= 8 * live1[p] < nb + MINSIZE
  }

  /** Moves the break, with the last chunk in limbo. */
  method SetBreak(a: Arena, m: seq<int>, ghost p: int)
    requires a.Steady() && NewEnd(a.mem, m, a.g.c, p)
    modifies a`mem, a`g
    ensures a.Steady() && a.mem == m && a.g == old(a.g).(c := Resized(old(a.g.c), p, |m| - p))
    ensures UserSame(a.live, old(a.mem), m)
  {
    ResizeSound(a.mem, m, a.base, a.g, a.fb, p);
    ResizeUser(a.mem, m, a.base, a.g.c, a.live, p);
    a.g := a.g.(c := Resized(a.g.c, p, |m| - p));
    a.mem := m;
  }

  /** Nothing but the size of top, and the words from its head on, is different. */
  ghost predicate OnlyTop(c: Chunks, mem: seq<int>, d: Chunks, m: seq<int>, top: int) {
    && top in c && top in d && d == c[top := d[top]] && 0 <= top && top <= |m| && top <= |mem| && m[..top] == mem[..top]
    && d[top].kind == c[top].kind && top + d[top].n == |m|
  }

  /** Gives top another end and the head that goes with it. */
  method ResizeTop(a: Arena, m: seq<int>)
    requires a.Valid() && a.top + 4 <= |m| && (|m| - a.top) % 2 == 0
    requires forall x :: 0 <= x < a.top + FD && x < |a.mem| ==> m[x] == a.mem[x]
    requires 8 * |m| < TWO64 / 2 && |m| % PAGEWORDS == 0
    modifies a
    ensures a.Valid() && a.live == old(a.live) && UserSame(a.live, old(a.mem), a.mem)
    ensures a.top == old(a.top) && |a.mem| == |m| && a.g.c[a.top].n == |m| - a.top
    ensures OnlyTop(old(a.g.c), old(a.mem), a.g.c, a.mem, a.top)
    ensures a.g.lists == old(a.g.lists) && a.g.fasts == old(a.g.fasts) && a.haveFast == old(a.haveFast)
    ensures a.lastRemainder == old(a.lastRemainder)
  {
    hide FastIndex;
    var t, end := a.top, |a.mem|;
    assert ChunkOk(a.mem, a.g.c, a.base, t);
    assert t !in a.live;
    a.Grasp(t);
    SetBreak(a, m, t);
    a.StoreTag(t, t + SIZE, 8 * (|m| - t) + 1);
    a.Settle(t, Top);
    a.systemMem := a.systemMem + 8 * (|m| - end);
    assert a.live == old(a.live);
  }

  /** The heads of the two parts of top, both in limbo. */
  method CutTop(a: Arena, p: int, nb: int) returns (remainder: int)
    requires a.Steady() && NoLimbo(a.g.c) && p in a.g.c && a.g.c[p].kind.Top? && p !in a.live
    requires MINSIZE <= nb && nb % 16 == 0 && 8 * a.g.c[p].n >= nb + MINSIZE
    modifies a`mem, a`g, a`live
    ensures a.Steady() && a.live == old(a.live) && remainder == p + nb / 8 && remainder != p && remainder !in old(a.g.c)
    ensures a.g == old(a.g).(c := Split(SetKind(old(a.g.c), p, Limbo), p, nb / 8, true))
    ensures Ready(a.mem, a.g.c, remainder, Top) && 0 <= p < p + SIZE < |a.mem| && a.mem[p + SIZE] == nb + 1
    ensures UserSame(a.live, old(a.mem), a.mem) && |a.mem| == |old(a.mem)|
  {
    assert ChunkOk(a.mem, a.g.c, a.base, p);
    HeadOf(a.mem, a.g.c, a.base, p);
    var size := SizeAt(a.mem, p);
    remainder := p + nb / 8;
    a.Grasp(p);
    a.Cut(p, nb / 8, true);
    a.StoreTag(p, p + SIZE, nb + 1);
    a.StoreTag(remainder, remainder + SIZE, size - nb + 1);
  }

  /** Splits a chunk of the padded size off the low end of top. */
  method SplitTop(a: Arena, nb: int) returns (p: int)
    requires a.Valid() && MINSIZE <= nb && nb % 16 == 0 && 8 * a.g.c[a.top].n >= nb + MINSIZE
    modifies a
    ensures a.Valid() && Took(old(a.live), a.live, p, nb) && UserSame(old(a.live), old(a.mem), a.mem)
    ensures p == old(a.top) && p in a.g.c && a.g.c[p].pin && a.g.lists == old(a.g.lists) && a.g.fasts == old(a.g.fasts)
    ensures |a.mem| == |old(a.mem)| && 8 * a.live[p] == nb && a.top == p + nb / 8
    ensures a.lastRemainder == old(a.lastRemainder)
    ensures a.haveFast == old(a.haveFast)
  {
    p := a.top;
    assert ChunkOk(a.mem, a.g.c, a.base, p);
    assert p !in a.live;
    var remainder := CutTop(a, p, nb);
    a.top := remainder;
    a.Settle(remainder, Top);
    a.Settle(p, Live);
  }

  /** Top is the last chunk, aligned, and at least MINSIZE. */
  lemma TopShape(a: Arena)
    requires a.Valid()
    ensures a.top in a.g.c && FIRST <= a.base <= a.top && a.g.c[a.top].n == |a.mem| - a.top
    ensures 4 <= |a.mem| - a.top && (|a.mem| - a.top) % 2 == 0 && a.mem[a.top + SIZE] == 8 * (|a.mem| - a.top) + 1
  {
    assert ChunkOk(a.mem, a.g.c, a.base, a.top);
  }

  /** A positive sbrk: whole pages, so many words, are added to top. */
  method GrowTop(a: Arena, words: int, sys: Sbrk)
    requires a.Valid() && 0 < words && words % PAGEWORDS == 0 && 8 * (|a.mem| + words) < TWO64 / 2
    modifies a
    ensures a.Valid() && a.live == old(a.live) && UserSame(a.live, old(a.mem), a.mem)
    ensures a.top == old(a.top) && a.g.c[a.top].n == old(a.g.c[a.top].n) + words
    ensures a.g.lists == old(a.g.lists) && a.g.fasts == old(a.g.fasts) && a.haveFast == old(a.haveFast)
    ensures |a.mem| == |old(a.mem)| + words
    ensures a.lastRemainder == old(a.lastRemainder)
  {
    hide Arena.Valid, UserSame;
    TopShape(a);
    TopPages(a);
    WholePages(|a.mem|, words);
    Arith.ModSum(|a.mem| - a.top, words, 2);
    var more := Filled(words, sys.filler);
    ResizeTop(a, a.mem + more);
  }

  /** A negative sbrk: whole pages are taken from top. */
  method ShrinkTop(a: Arena, words: int)
    requires a.Valid() && 0 < words && words % PAGEWORDS == 0 && words + 4 <= a.g.c[a.top].n
    modifies a
    ensures a.Valid() && a.live == old(a.live) && UserSame(a.live, old(a.mem), a.mem)
    ensures a.top == old(a.top) && a.g.c[a.top].n == old(a.g.c[a.top].n) - words
    ensures a.g.lists == old(a.g.lists) && a.g.fasts == old(a.g.fasts) && a.haveFast == old(a.haveFast)
    ensures |a.mem| == |old(a.mem)| - words && OnlyTop(old(a.g.c), old(a.mem), a.g.c, a.mem, a.top)
  {
    hide Arena.Valid, UserSame;
    TopShape(a);
    TopPages(a);
    WholePages(|a.mem|, words);
    Arith.ModSum(|a.mem| - a.top, words, 2);
    ResizeTop(a, a.mem[..|a.mem| - words]);
  }

  lemma TopPages(a: Arena)
    requires a.Valid()
    ensures |a.mem| % PAGEWORDS == 0 && 8 * |a.mem| < TWO64 / 2
  {
  }

  lemma WholePages(x: int, y: int)
    requires x % PAGEWORDS == 0 && y % PAGEWORDS == 0
    ensures (x + y) % PAGEWORDS == 0 && (x - y) % PAGEWORDS == 0 && y % 2 == 0
  {
    Arith.ModSum(x, y, PAGEWORDS);
    var j := y / PAGEWORDS;
    Arith.ModUnique(y, 2, 256 * j, 0);
  }

  lemma PageWords(size: int)
    requires size % PAGE == 0
    ensures size == 8 * (size / 8) && (size / 8) % PAGEWORDS == 0
  {
  }

  // ------------------------------------------------------------------ sYSMALLOc

  /** The size sYSMALLOc asks sbrk for, in wrapping 64-bit arithmetic. */
  function Shortfall(nb: int, pad: int, oldSize: int): int {
    var size := (nb + pad + MINSIZE - oldSize) % TWO64;
    var padded := (size + (PAGE - 1)) % TWO64;
    padded - padded % PAGE
  }

  /** The system grants what a request may take of a heap that ends at that word, and no sum wraps. */
  predicate Grants(sys: Sbrk, pad: int, end: int, need: int) {
    sys.grants && need + pad + MINSIZE + PAGE + 8 * end < TWO64 / 2
  }

  ghost predicate Granted(a: Arena, nb: int, sys: Sbrk)
    reads a
  {
    Grants(sys, a.topPad, |a.mem|, nb)
  }

  /** The heap has grown by no more than the request, the pad and a page. */
  ghost predicate Grown(end0: int, end: int, pad: int, need: int) {
    8 * end <= 8 * end0 + need + pad + MINSIZE + PAGE
  }

  /** The part of sYSMALLOc that asks sbrk: top grows by whole pages, until it holds the request, the pad and
    MINSIZE, and no page more, when the sum does not wrap. */
  method ExtendTop(a: Arena, nb: int, sys: Sbrk)
    requires a.Valid() && MINSIZE <= nb && 8 * a.g.c[a.top].n < nb + MINSIZE
    modifies a
    ensures a.Valid() && a.live == old(a.live) && UserSame(a.live, old(a.mem), a.mem) && a.top == old(a.top)
    ensures a.g.lists == old(a.g.lists) && a.g.fasts == old(a.g.fasts) && a.haveFast == old(a.haveFast)
    ensures |a.mem| >= |old(a.mem)| && (|a.mem| - |old(a.mem)|) % PAGEWORDS == 0
    ensures Grown(|old(a.mem)|, |a.mem|, a.topPad, nb)
    ensures |a.mem| == |old(a.mem)| ==> a.mem == old(a.mem) && a.g == old(a.g)
    ensures |a.mem| > |old(a.mem)| ==> sys.grants
    ensures |a.mem| > |old(a.mem)| && nb + a.topPad + MINSIZE + PAGE < TWO64 ==>
              nb + MINSIZE + a.topPad <= 8 * (|a.mem| - a.top) < nb + MINSIZE + a.topPad + PAGE
    ensures old(Granted(a, nb, sys)) ==> |a.mem| > |old(a.mem)|
    ensures a.lastRemainder == old(a.lastRemainder)
  {
    hide UserSame, Shortfall;
    TopShape(a);
    UserInside(a.mem, a.base, a.g.c, a.live);
    HeadOf(a.mem, a.g.c, a.base, a.top);
    var oldSize := SizeAt(a.mem, a.top);
    var size := Shortfall(nb, a.topPad, oldSize);
    if nb + a.topPad + MINSIZE + PAGE < TWO64 { ShortfallEnough(nb, a.topPad, oldSize); }
    ShortfallAtMost(nb, a.topPad, oldSize);
    if 0 < size < TWO64 / 2 && sys.grants && 8 * |a.mem| + size < TWO64 / 2 {
      PageWords(size);
      GrowTop(a, size / 8, sys);
    }
  }

  /** sYSMALLOc, contiguous case: extends top by whole pages, if the system lets it, and serves the request from
    it. When it fails nothing has changed, but for a top that has grown when the size asked for wrapped around. */
  method SysMalloc(a: Arena, nb: int, sys: Sbrk) returns (p: int)
    requires a.Valid() && !a.haveFast && MINSIZE <= nb && nb % 16 == 0 && nb + MINSIZE < TWO64
    requires 8 * a.g.c[a.top].n < nb + MINSIZE
    modifies a
    ensures a.Valid() && UserSame(old(a.live), old(a.mem), a.mem)
    ensures if p == 0 then a.live == old(a.live) else Took(old(a.live), a.live, p, nb) && p in a.g.c && a.g.c[p].pin
    ensures old(Granted(a, nb, sys)) ==> p != 0
    ensures p != 0 ==> p == old(a.top) && 8 * a.live[p] == nb && a.top == p + nb / 8
    ensures a.g.lists == old(a.g.lists) && a.g.fasts == old(a.g.fasts)
    ensures |a.mem| >= |old(a.mem)| && (|a.mem| - |old(a.mem)|) % PAGEWORDS == 0
    ensures !sys.grants ==> |a.mem| == |old(a.mem)|
    ensures old(Granted(a, nb, sys)) ==> a.topPad + MINSIZE <= 8 * (|a.mem| - a.top) < a.topPad + MINSIZE + PAGE
    ensures Grown(|old(a.mem)|, |a.mem|, a.topPad, nb)
    ensures p == 0 ==> a.top == old(a.top) && a.g.c[a.top].n == old(a.g.c[a.top].n) + |a.mem| - |old(a.mem)|
    ensures p == 0 && nb + a.topPad + MINSIZE + PAGE < TWO64 ==> a.mem == old(a.mem) && a.g == old(a.g)
    ensures a.lastRemainder == old(a.lastRemainder)
    ensures a.haveFast == old(a.haveFast)
  {
    hide UserSame, Arena.Valid, ChunkOk;
    TopShape(a);
    ghost var l0, m0 := a.live, a.mem;
    ExtendTop(a, nb, sys);
    ghost var m1 := a.mem;
    TopShape(a);
    var size := SizeAt(a.mem, a.top);
    TopFits(a);
    if size >= nb + MINSIZE {
      p := SplitTop(a, nb);
      UserChain(l0, l0, m0, m1, a.mem);
    } else {
      p := 0;
    }
  }

  /** The head of top, and the bounds on the heap. */
  lemma TopFits(a: Arena)
    requires a.Valid()
    ensures 0 <= a.top < a.top + SIZE < |a.mem| && SizeAt(a.mem, a.top) == 8 * (|a.mem| - a.top)
    ensures 0 <= a.topPad < TWO64 / 2 && 8 * |a.mem| < TWO64 / 2
  {
    TopShape(a);
    HeadOf(a.mem, a.g.c, a.base, a.top);
  }

  /** When the system grants the space, and the sum does not wrap, the request is served. */
  lemma ShortfallEnough(nb: int, pad: int, oldSize: int)
    requires 0 <= oldSize < nb + MINSIZE && 0 <= pad && MINSIZE <= nb && nb + pad + MINSIZE + PAGE < TWO64
    ensures var size := Shortfall(nb, pad, oldSize);
      0 < size && size % PAGE == 0 && nb + MINSIZE + pad <= oldSize + size < nb + MINSIZE + pad + PAGE
  {
    assert (nb + pad + MINSIZE - oldSize) % TWO64 == nb + pad + MINSIZE - oldSize;
  }

  /** Wrapping only makes it less. */
  lemma ShortfallAtMost(nb: int, pad: int, oldSize: int)
    requires 0 <= oldSize < nb + MINSIZE && 0 <= pad
    ensures Shortfall(nb, pad, oldSize) <= nb + pad + MINSIZE + PAGE && Shortfall(nb, pad, oldSize) % PAGE == 0
  {
    var x := nb + pad + MINSIZE - oldSize;
    Below(x, TWO64);
    Below(x % TWO64 + (PAGE - 1), TWO64);
  }

  lemma Below(x: int, n: int)
    requires 0 <= x && 0 < n
    ensures x % n <= x
  {
    if x < n { Arith.ModUnique(x, n, 0, x); }
  }

  // ------------------------------------------------------------------ sYSTRIm

  /** `extra` of sYSTRIm: unsigned 64-bit arithmetic read back as a signed long. */
  function TrimExtra(topSize: int, pad: int): int {
    var u := (topSize - pad - MINSIZE + (PAGE - 1)) % TWO64;
    var e := (u / PAGE - 1) * PAGE % TWO64;
    if e >= TWO64 / 2 then e - TWO64 else e
  }

  /** The pads for which the wrapped arithmetic asks for more than top has to spare. */
  predicate PadWraps(topSize: int, pad: int) {
    topSize + TWO64 / 2 - MINSIZE <= pad <= TWO64 + topSize - MINSIZE - 1 - PAGE
  }

  /** Whole pages are offered back, and top stays larger than pad + MINSIZE, exactly when the pad does not wrap. */
  lemma TrimLeaves(topSize: int, pad: int)
    requires MINSIZE <= topSize < TWO64 / 2 && 0 <= pad < TWO64
    ensures var e := TrimExtra(topSize, pad);
      (e > 0 ==> e % PAGE == 0 && topSize - e > pad + MINSIZE) <==> !PadWraps(topSize, pad)
  {
    var x := topSize - pad - MINSIZE + (PAGE - 1);
    if x >= 0 {
      assert x % TWO64 == x;
    } else {
      assert x % TWO64 == x + TWO64;
    }
  }

  /** How many pages of top are more than the pad, MINSIZE and a page: those sYSTRIm offers. */
  function Surplus(topSize: int, pad: int): (n: nat)
    ensures n > 0 <==> topSize > pad + MINSIZE + PAGE
    ensures n > 0 ==> pad + MINSIZE < topSize - PAGE * n <= pad + MINSIZE + PAGE
  {
    if topSize > pad + MINSIZE + PAGE then (topSize - pad - MINSIZE - 1) / PAGE else 0
  }

  /** The wrapped arithmetic asks for just that many, unless the pad wraps. */
  lemma ExtraIsSurplus(topSize: int, pad: int)
    requires MINSIZE <= topSize < TWO64 / 2 && 0 <= pad < TWO64 && !PadWraps(topSize, pad)
    ensures var e := TrimExtra(topSize, pad); (if e > 0 then e else 0) == PAGE * Surplus(topSize, pad)
  {
    var x := topSize - pad - MINSIZE + (PAGE - 1);
    if x >= 0 {
      assert x % TWO64 == x;
    } else {
      assert x % TWO64 == x + TWO64;
    }
  }

  /** How many pages go back: those offered, but for those the system does not take. */
  function Returned(topSize: int, pad: int, keeps: nat): (n: nat)
    ensures n == 0 || n + keeps == Surplus(topSize, pad)
    ensures n > 0 <==> Surplus(topSize, pad) > keeps
  {
    var n := Surplus(topSize, pad);
    if n > keeps then n - keeps else 0
  }

  /** A pad of 2 to the 63rd more than top: all but a page of half the address space is asked back. */
  lemma TrimTooMuch()
    ensures var top := 33 * PAGE; var pad := TWO64 / 2 + top;
      PadWraps(top, pad) && TrimExtra(top, pad) == TWO64 / 2 - PAGE > top
  {
  }

  /** sYSTRIm: offers the spare pages of top to the system; the result is 1 just when it takes one. */
  method SysTrim(a: Arena, pad: int, sys: Sbrk) returns (r: int)
    requires a.Valid() && 0 <= pad < TWO64 && !PadWraps(8 * a.g.c[a.top].n, pad)
    modifies a
    ensures a.Valid() && a.live == old(a.live) && UserSame(a.live, old(a.mem), a.mem)
    ensures a.g.lists == old(a.g.lists) && a.g.fasts == old(a.g.fasts) && a.haveFast == old(a.haveFast)
    ensures r == 0 ==> a.mem == old(a.mem) && a.g == old(a.g)
    ensures var n := Returned(8 * old(a.g.c[a.top].n), pad, sys.keeps);
      |a.mem| == |old(a.mem)| - PAGEWORDS * n && r == if n > 0 then 1 else 0
    ensures a.top == old(a.top) && OnlyTop(old(a.g.c), old(a.mem), a.g.c, a.mem, a.top)
    ensures r != 0 ==> 8 * a.g.c[a.top].n > pad + MINSIZE
  {
    TopShape(a);
    UserInside(a.mem, a.base, a.g.c, a.live);
    HeadOf(a.mem, a.g.c, a.base, a.top);
    var topSize := SizeAt(a.mem, a.top);
    var extra := TrimExtra(topSize, pad);
    TrimLeaves(topSize, pad);
    ExtraIsSurplus(topSize, pad);
    r := 0;
    if extra > 0 {
      var released := if sys.keeps * PAGE < extra then extra - sys.keeps * PAGE else 0;
      if released != 0 {
        PageWords(released);
        ShrinkTop(a, released / 8);
        r := 1;
      }
    }
  }
}
