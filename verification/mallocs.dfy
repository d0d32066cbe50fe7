/** _int_malloc: fastbins, small bins, the unsorted list, best fit over the bins, top, the system. */
module Mallocs {
  import opened Chunks
  import opened Rings
  import opened Ladders
  import opened Sizes
  import opened Bins
  import opened BinOps
  import opened Binmaps
  import opened Arenas
  import opened System
  import opened Frees
  import opened Gaps
  import opened Takes
  import opened Binning

  // ------------------------------------------------------------------ the binmap scan

  /** Every bin from `lo` up to but not including `hi` is empty. */
  ghost predicate EmptyFrom(lists: seq<seq<int>>, lo: int, hi: int) {
    forall b {:trigger lists[b]} :: lo <= b < hi && 0 <= b < |lists| ==> lists[b] == []
  }

  /** None of those bins is marked. */
  ghost predicate NoneMarked(marked: set<int>, lo: int, hi: int) {
    forall b {:trigger b in marked} :: lo <= b < hi ==> b !in marked
  }

  /** The words of the binmap from `block` on are skipped while they are zero. */
  method NextBlock(a: Arena, block: int) returns (block': int)
    requires a.Valid() && 0 <= block < BINMAPSIZE
    ensures block < block' <= BINMAPSIZE && NoneMarked(a.marked, BITSPERMAP * (block + 1), BITSPERMAP * block')
    ensures block' < BINMAPSIZE ==> a.binmap[block'] != 0
  {
    block' := block + 1;
    while block' < BINMAPSIZE && a.binmap[block'] == 0
      invariant block < block' <= BINMAPSIZE
      invariant NoneMarked(a.marked, BITSPERMAP * (block + 1), BITSPERMAP * block')
    {
      forall b | BITSPERMAP * block' <= b < BITSPERMAP * (block' + 1) ensures b !in a.marked {
        var k := b - BITSPERMAP * block';
        assert BitAt(a.binmap, a.marked, block', k);
        ZeroHas(k);
      }
      block' := block' + 1;
    }
  }

  /** `bit` is the mask of position k, or zero when it has been shifted out of the word. */
  ghost predicate Mask(bit: nat, k: int) {
    0 <= k <= BITSPERMAP && bit == if k < BITSPERMAP then Bit(k) else 0
  }

  lemma ShiftMask(bit: nat, k: int)
    requires Mask(bit, k) && k < BITSPERMAP
    ensures Mask(bit * 2 % TWO32, k + 1) && 0 < bit
  {
    Bit32();
    BitMonotone(k, k);
    if k + 1 < BITSPERMAP {
      BitMonotone(k + 2, BITSPERMAP);
      BitMonotone(k + 1, k + 1);
    }
  }

  /** The rest of a word is passed over when its mask exceeds the word. */
  lemma SkipWord(a: Arena, block: int, k: int, bit: nat)
    requires a.Valid() && 0 <= block < BINMAPSIZE && Mask(bit, k) && 2 <= BITSPERMAP * block + k
    requires bit > a.binmap[block] || bit == 0
    ensures NoneMarked(a.marked, BITSPERMAP * block + k, BITSPERMAP * (block + 1))
  {
    if k < BITSPERMAP { BitMonotone(k, k); }
    forall b | BITSPERMAP * block + k <= b < BITSPERMAP * (block + 1) ensures b !in a.marked {
      NoneAbove(a.binmap, a.marked, block, k, b - BITSPERMAP * block);
    }
  }

  /** The inner bit search always finds a bit: the mask is shifted up to the next marked bin of the word. */
  method NextMarked(a: Arena, block: int, bit: nat, ghost k: int) returns (steps: int, bit': nat)
    requires a.Valid() && 0 <= block < BINMAPSIZE && Mask(bit, k) && 0 < bit <= a.binmap[block]
    requires 2 <= BITSPERMAP * block + k
    ensures 0 <= steps && k + steps < BITSPERMAP && bit' == Bit(k + steps)
    ensures NoneMarked(a.marked, BITSPERMAP * block + k, BITSPERMAP * block + k + steps)
  {
    hide BinIndex, FastIndex;
    steps, bit' := 0, bit;
    var map32 := a.binmap[block];
    while And(map32, bit') == 0
      invariant 0 <= steps && k + steps < BITSPERMAP && bit' == Bit(k + steps) <= map32
      invariant NoneMarked(a.marked, BITSPERMAP * block + k, BITSPERMAP * block + k + steps)
      decreases BITSPERMAP - k - steps
    {
      AndHas(map32, k + steps);
      assert BitAt(a.binmap, a.marked, block, k + steps);
      Above(map32, k + steps);
      Bit32();
      ShiftMask(bit', k + steps);
      steps, bit' := steps + 1, bit' * 2 % TWO32;
      assert bit' != 0;
    }
  }

  /** Clears the bit of a bin that turned out to be empty. */
  method UnmarkBin(a: Arena, block: int, bit: nat, ghost k: int)
    requires a.Valid() && 0 <= block < BINMAPSIZE && 0 <= k < BITSPERMAP && bit == Bit(k)
    requires a.g.lists[BITSPERMAP * block + k] == []
    modifies a`binmap, a`marked
    ensures a.Valid() && a.marked == old(a.marked) - {BITSPERMAP * block + k}
  {
    UnmarkBits(a.binmap, a.marked, block, k);
    a.binmap := a.binmap[block := AndNot(a.binmap[block], bit)];
    a.marked := a.marked - {BITSPERMAP * block + k};
  }

  /** The scan over the binmap: the first non-empty bin from `idx` on, or NBINS when there is none. The empty bins it
    has passed are not marked any more, and no other mark is gone. */
  method FindBin(a: Arena, idx: int) returns (i: int)
    requires a.Valid() && 2 <= idx < NBINS
    modifies a`binmap, a`marked
    ensures a.Valid() && idx <= i <= NBINS && EmptyFrom(a.g.lists, idx, i)
    ensures i < NBINS ==> a.g.lists[i] != []
    ensures forall b :: b in a.marked <==> b in old(a.marked) && !(idx <= b < i)
  {
    hide BinIndex, FastIndex;
    i := idx;
    var block, bit: nat := idx / BITSPERMAP, Bit(idx % BITSPERMAP);
    while true
      invariant a.Valid() && idx <= i <= NBINS
      invariant forall b :: b in a.marked <==> b in old(a.marked) && !(idx <= b < i)
      invariant 0 <= block < BINMAPSIZE && Mask(bit, i - BITSPERMAP * block)
      decreases NBINS - i
    {
      if bit > a.binmap[block] || bit == 0 {
        SkipWord(a, block, i - BITSPERMAP * block, bit);
        block := NextBlock(a, block);
        if block >= BINMAPSIZE {
          return NBINS;
        }
        i, bit := BITSPERMAP * block, 1;
      }
      var steps;
      steps, bit := NextMarked(a, block, bit, i - BITSPERMAP * block);
      i := i + steps;
      LastIsHead(a, i);
      if a.mem[Head(i) + BK] != Head(i) {
        return;
      }
      UnmarkBin(a, block, bit, i - BITSPERMAP * block);
      ShiftMask(bit, i - BITSPERMAP * block);
      i, bit := i + 1, bit * 2 % TWO32;
    }
  }

  // ------------------------------------------------------------------ taking a binned chunk

  /** The front of chunk p of `c`, of exactly the size, is the caller's, and its rest the newest unsorted chunk. */
  ghost predicate Cut(a: Arena, c: Chunks, tail: seq<int>, nb: int, p: int)
    reads a`g, a`live
  {
    var rest := p + nb / 8;
    && p in c && p in a.live && 8 * a.live[p] == nb && rest in a.g.c && a.g.c[rest].n == c[p].n - nb / 8
    && UNSORTED < |a.g.lists| && a.g.lists[UNSORTED] == [rest] + tail
  }

  /** Unlinks a chunk big enough for the request; hands it out whole, or its low end when the rest
    makes a chunk of its own. */
  method TakeFree(a: Arena, victim: int, nb: int) returns (remainder: int)
    requires a.Valid() && victim in a.g.c && a.g.c[victim].kind.Free?
    requires MINSIZE <= nb <= 8 * a.g.c[victim].n && nb % 16 == 0 && a.g.c[victim].kind.bin != UNSORTED
    modifies a`mem, a`g, a`live
    ensures a.Valid() && Took(old(a.live), a.live, victim, nb) && UserSame(old(a.live), old(a.mem), a.mem)
    ensures victim in a.g.c && a.g.c[victim].pin && NoneFilled(old(a.g.lists), a.g.lists)
    ensures if 8 * old(a.g.c[victim].n) - nb < MINSIZE then remainder == 0
            else remainder == victim + nb / 8 != 0 && Cut(a, old(a.g.c), old(a.g.lists[UNSORTED]), nb, victim)
  {
    hide BinIndex, FastIndex, BinOk;
    assert ChunkOk(a.mem, a.g.c, a.base, victim);
    var size := SizeAt(a.mem, victim);
    ghost var _, _ := a.Unlink(victim);
    if size - nb < MINSIZE {
      HandOut(a, victim);
      remainder := 0;
    } else {
      remainder := HandOutSplit(a, victim, nb);
    }
  }

  // ------------------------------------------------------------------ best fit in a large bin

  /** `victim` is on the bin, fits, and no chunk of the bin that fits is smaller. */
  ghost predicate BestOf(c: Chunks, l: seq<int>, nb: int, victim: int) {
    && victim in l && 8 * Size(c, victim) >= nb
    && forall x :: x in l && 8 * Size(c, x) >= nb ==> Size(c, x) >= Size(c, victim)
  }

  lemma SkipListBest(mem: seq<int>, c: Chunks, l: seq<int>, s: seq<int>, i: int, nb: int)
    requires Ladder(mem, c, l, s) && 0 <= i < |s| && 8 * Size(c, s[i]) >= nb
    requires forall k :: i < k < |s| ==> 8 * Size(c, s[k]) < nb
    ensures BestOf(c, l, nb, s[i])
  {
    forall x | x in l && 8 * Size(c, x) >= nb ensures Size(c, x) >= Size(c, s[i]) {
      var k :| 0 <= k < |l| && l[k] == x;
      var j := FirstOf(c, l, s, k);
      var n :| 0 <= n < |s| && s[n] == l[j];
    }
  }

  /** The first chunk of a large bin is its largest. */
  lemma FirstLargest(mem: seq<int>, c: Chunks, l: seq<int>, s: seq<int>, nb: int)
    requires Ladder(mem, c, l, s) && |l| > 0 && 8 * Size(c, l[0]) < nb
    ensures forall x :: x in l ==> 8 * Size(c, x) < nb
  {
    forall x | x in l ensures 8 * Size(c, x) < nb {
      var k :| 0 <= k < |l| && l[k] == x;
    }
  }

  /** Walks the skip list from the smallest size up to the first size that fits. */
  method WalkSkips(a: Arena, nb: int, idx: int, first: int) returns (victim: int)
    requires a.Valid() && NSMALLBINS <= idx < NBINS && a.g.lists[idx] != [] && first == a.g.lists[idx][0]
    requires 8 * Size(a.g.c, first) >= nb
    ensures BestOf(a.g.c, a.g.lists[idx], nb, victim) && victim in a.g.skips[idx]
  {
    hide FastIndex;
    assert BinAt(a.mem, a.g, idx);
    ghost var c, l, s := a.g.c, a.g.lists[idx], a.g.skips[idx];
    LadderTop(a.mem, c, l, s);
    StepBack(a.mem, s, 0);
    victim := a.mem[first + BK_NEXTSIZE];
    ghost var i := |s| - 1;
    OnSkipList(a.mem, a.base, c, idx, l, s, victim);
    while SizeAt(a.mem, victim) < nb
      invariant 0 <= i < |s| && victim == s[i] && 0 < victim && victim + SIZE < |a.mem|
      invariant victim in c && a.mem[victim + SIZE] == 8 * c[victim].n + 1
      invariant forall k :: i < k < |s| ==> 8 * Size(c, s[k]) < nb
      decreases i
    {
      StepBack(a.mem, s, i);
      victim := a.mem[victim + BK_NEXTSIZE];
      i := i - 1;
      OnSkipList(a.mem, a.base, c, idx, l, s, victim);
    }
    SkipListBest(a.mem, c, l, s, i, nb);
  }

  /** The second chunk of its size in the bin, or the only one: chunks on the skip list are spared. */
  ghost predicate Spared(c: Chunks, l: seq<int>, victim: int) {
    exists j {:trigger l[j]} :: 0 <= j < |l| && l[j] == victim &&
      if j > 0 && Size(c, l[j - 1]) == Size(c, victim) then j < 2 || Size(c, l[j - 2]) != Size(c, victim)
      else j + 1 == |l| || Size(c, l[j + 1]) != Size(c, victim)
  }

  /** `if (victim != last (bin) && victim->size == victim->fd->size) victim = victim->fd` */
  method SecondOfSize(a: Arena, idx: int, first: int) returns (victim: int)
    requires a.Valid() && NSMALLBINS <= idx < NBINS && first in a.g.skips[idx]
    ensures Spared(a.g.c, a.g.lists[idx], victim)
    ensures victim in a.g.lists[idx] && Size(a.g.c, victim) == Size(a.g.c, first) && victim != 0
  {
    assert BinAt(a.mem, a.g, idx);
    ghost var c, l, s := a.g.c, a.g.lists[idx], a.g.skips[idx];
    LastIsHead(a, idx);
    ghost var j :| 0 <= j < |l| && l[j] == first;
    MemberAt(a.mem, a.base, c, idx, l, s, first);
    OnSkipList(a.mem, a.base, c, idx, l, s, first);
    assert Linked(a.mem, Head(idx), l, j + 1) && FirstOk(c, l, s, j);
    victim := first;
    if first != a.mem[Head(idx) + BK] {
      OnSkipList(a.mem, a.base, c, idx, l, s, l[j + 1]);
      if a.mem[first + SIZE] == a.mem[a.mem[first + FD] + SIZE] {
        victim := a.mem[first + FD];
        MemberAt(a.mem, a.base, c, idx, l, s, victim);
        assert l[j + 1] == victim;
      }
    }
  }

  /** The scan of one large bin: its best fit, passing over the first chunk of a size that has others. */
  method ChooseLarge(a: Arena, nb: int, idx: int) returns (victim: int)
    requires a.Valid() && nb % 16 == 0 && NSMALLBINS <= idx < NBINS
    ensures victim != 0 ==> BestOf(a.g.c, a.g.lists[idx], nb, victim) && Spared(a.g.c, a.g.lists[idx], victim)
    ensures victim == 0 ==> forall x :: x in a.g.lists[idx] ==> 8 * Size(a.g.c, x) < nb
  {
    LastIsHead(a, idx);
    var first := a.mem[Head(idx) + FD];
    victim := 0;
    assert BinAt(a.mem, a.g, idx);
    HeadInside(a.mem, a.base, a.g.c, idx);
    assert first == Head(idx) <==> a.g.lists[idx] == [] by {
      assert a.g.lists[idx] != [] ==> a.g.lists[idx][0] in a.g.lists[idx] && Member(a.g.c, idx, a.g.lists[idx][0]);
    }
    if first != Head(idx) {
      OnSkipList(a.mem, a.base, a.g.c, idx, a.g.lists[idx], a.g.skips[idx], first);
      if a.mem[first + SIZE] >= nb {
        victim := WalkSkips(a, nb, idx, first);
        victim := SecondOfSize(a, idx, victim);
      } else {
        FirstLargest(a.mem, a.g.c, a.g.lists[idx], a.g.skips[idx], nb);
      }
    }
  }

  // ------------------------------------------------------------------ exact fits

  /** A padded request size: aligned, at least MINSIZE, and with room to add MINSIZE. */
  predicate Padded(nb: int) {
    MINSIZE <= nb && nb % 16 == 0 && nb + MINSIZE < TWO64
  }

  /** A fastbin field is 0 exactly when its chain is empty; the first chunk is of the size of the bin. */
  lemma FastHead(a: Arena, idx: int)
    requires a.Valid() && 0 <= idx < NFASTBINS
    ensures a.fastbins[idx] != 0 <==> a.g.fasts[idx] != []
    ensures var p := a.fastbins[idx]; p != 0 ==>
      && p == a.g.fasts[idx][0] && FastMember(a.g.c, idx, p) && HeadKept(a.mem, a.g.c, p)
      && p + FD < |a.mem| && FastIndex(SizeAt(a.mem, p)) == idx
      && p + a.g.c[p].n in a.g.c && a.g.c[p + a.g.c[p].n].pin && p + a.g.c[p].n < |a.mem|
      && 4 <= a.g.c[p].n && a.g.c[p].n % 2 == 0
  {
    var l := a.g.fasts[idx];
    assert FastAt(a.mem, a.g, a.fb, idx);
    if l != [] {
      assert FastLinked(a.mem, l, 0) && l[0] in l && FastMember(a.g.c, idx, l[0]);
      assert ChunkOk(a.mem, a.g.c, a.base, l[0]);
      HeadReads(a.mem, a.g.c, l[0]);
    }
  }

  /** The head of the fastbin of the size, if it has one: last in, first out. */
  method TakeFast(a: Arena, nb: int) returns (p: int)
    requires a.Valid() && Padded(nb) && nb <= a.maxFast
    modifies a`fastbins, a`g, a`live, a`fb
    ensures a.Valid() && a.mem == old(a.mem) && UserSame(old(a.live), old(a.mem), a.mem)
    ensures 0 <= FastIndex(nb) < NFASTBINS && (p != 0 <==> old(a.g.fasts[FastIndex(nb)]) != [])
    ensures p == 0 ==> a.live == old(a.live) && a.g == old(a.g)
    ensures p != 0 ==> Took(old(a.live), a.live, p, nb) && 8 * a.live[p] == nb
    ensures p != 0 ==> p == old(a.g.fasts[FastIndex(nb)])[0]
  {
    UserInside(a.mem, a.base, a.g.c, a.live);
    var idx := FastIndex(nb);
    FastHead(a, idx);
    p := a.fastbins[idx];
    if p != 0 {
      assert FastIndex(SizeAt(a.mem, p)) == idx;  // malloc(): memory corruption (fast)
      a.fastbins := a.fastbins[idx := a.mem[p + FD]];
      PopFast(a, idx);
      a.Settle(p, Live);
    }
  }

  /** The oldest chunk of the small bin of exactly the size. */
  method TakeSmall(a: Arena, nb: int) returns (p: int)
    requires a.Valid() && Padded(nb) && nb < MIN_LARGE_SIZE
    modifies a`mem, a`g, a`live
    ensures a.Valid() && UserSame(old(a.live), old(a.mem), a.mem)
    ensures p == 0 ==> a.live == old(a.live) && a.g.lists[nb / 16] == [] && a.g == old(a.g) && a.mem == old(a.mem)
    ensures |a.mem| == |old(a.mem)|
    ensures p != 0 ==> Took(old(a.live), a.live, p, nb) && 8 * a.live[p] == nb && p in a.g.c && a.g.c[p].pin
    ensures p != 0 ==> old(a.g.lists[nb / 16]) != [] && p == Last(old(a.g.lists[nb / 16]))
  {
    UserInside(a.mem, a.base, a.g.c, a.live);
    var idx := nb / 16;
    LastIsHead(a, idx);
    p := 0;
    if a.mem[Head(idx) + BK] != Head(idx) {
      p := TakeWhole(a, idx);
    }
  }

  /** The last chunk of the unsorted list or of a small bin, handed out as it is. */
  method TakeWhole(a: Arena, b: int) returns (p: int)
    requires a.Valid() && 1 <= b < NSMALLBINS && a.g.lists[b] != []
    modifies a`mem, a`g, a`live
    ensures a.Valid() && UserSame(old(a.live), old(a.mem), a.mem)
    ensures p != 0 && p !in old(a.live) && p in a.live && a.live == old(a.live)[p := a.live[p]]
    ensures p == old(a.g.lists[b])[|old(a.g.lists[b])| - 1] && p in a.g.c && a.g.c[p].pin
    ensures p in old(a.g.c) && a.live[p] == old(a.g.c[p].n) && (b > UNSORTED ==> 8 * a.live[p] == 16 * b)
  {
    assert BinAt(a.mem, a.g, b);
    ghost var l := a.g.lists[b];
    MemberAt(a.mem, a.base, a.g.c, b, l, a.g.skips[b], l[|l| - 1]);
    assert ChunkOk(a.mem, a.g.c, a.base, l[|l| - 1]);
    BinIndexRange(8 * a.g.c[l[|l| - 1]].n);
    p := TakeLast(a, b);
    HandOut(a, p);
  }

  // ------------------------------------------------------------------ the unsorted list

  const MAX_ITERS := 10000

  /** The chunk at the end of the unsorted list, as the source reads it. */
  lemma OldestUnsorted(a: Arena)
    requires a.Valid() && a.g.lists[UNSORTED] != []
    ensures var l := a.g.lists[UNSORTED]; var v := l[|l| - 1];
      && Head(UNSORTED) + BK < |a.mem| && a.mem[Head(UNSORTED) + BK] == v
      && v in a.g.c && a.g.c[v].kind == Free(UNSORTED) && v !in a.live && 4 <= a.g.c[v].n && a.g.c[v].n % 2 == 0
      && FIRST <= v && v + BK < |a.mem| && SizeAt(a.mem, v) == 8 * a.g.c[v].n && HeadKept(a.mem, a.g.c, v)
      && 16 < a.mem[v + SIZE] <= a.systemMem
      && Ready(a.mem, a.g.c, v, Free(UNSORTED)) && v + a.g.c[v].n in a.g.c
      && (a.mem[v + BK] == Head(UNSORTED) <==> |l| == 1)
  {
    var l := a.g.lists[UNSORTED];
    assert BinAt(a.mem, a.g, UNSORTED);
    LastIsHead(a, UNSORTED);
    var v := l[|l| - 1];
    MemberAt(a.mem, a.base, a.g.c, UNSORTED, l, a.g.skips[UNSORTED], v);
    assert ChunkOk(a.mem, a.g.c, a.base, v) && ChunkOk(a.mem, a.g.c, a.base, a.top);
    HeadOf(a.mem, a.g.c, a.base, v);
    assert Linked(a.mem, Head(UNSORTED), l, |l| - 1);
    assert |l| > 1 ==> l[|l| - 2] in l;
  }

  /** "Advertise as last remainder". */
  method Advertise(a: Arena, remainder: int)
    requires a.Valid()
    modifies a`lastRemainder
    ensures a.Valid() && a.lastRemainder == remainder
  {
    a.lastRemainder := remainder;
  }

  /** The oldest unsorted chunk is split: its front is the caller's, its rest the newest unsorted chunk. */
  method SplitOldest(a: Arena, nb: int) returns (p: int, remainder: int)
    requires a.Valid() && Padded(nb) && a.g.lists[UNSORTED] != []
    requires 8 * Size(a.g.c, Last(a.g.lists[UNSORTED])) > nb + MINSIZE
    modifies a`mem, a`g, a`live
    ensures a.Steady() && NoLimbo(a.g.c) && IsTop(a.g.c, a.top) && |a.mem| == |old(a.mem)|
    ensures p == Last(old(a.g.lists[UNSORTED])) && p !in old(a.live) && p != 0 && p in a.g.c && a.g.c[p].pin
    ensures a.live == old(a.live)[p := nb / 8] && UserSame(old(a.live), old(a.mem), a.mem)
    ensures remainder == p + nb / 8 && a.g.fasts == old(a.g.fasts)
    ensures Cut(a, old(a.g.c), old(a.g.lists[UNSORTED])[..|old(a.g.lists[UNSORTED])| - 1], nb, p)
    ensures |a.g.lists| == |old(a.g.lists)| && forall b :: 2 <= b < NBINS ==> a.g.lists[b] == old(a.g.lists[b])
  {
    hide BinOk, BinAt, FastOk, FastAt, Linked, Ring, Ladder, SkipRing, FastIndex, BinIndex;
    OldestUnsorted(a);
    p := TakeLast(a, UNSORTED);
    remainder := HandOutSplit(a, p, nb);
  }

  /** The last remainder, alone on the unsorted list, is split again. */
  method TakeRemainder(a: Arena, nb: int) returns (p: int)
    requires a.Valid() && Padded(nb) && a.g.lists[UNSORTED] != []
    requires 8 * Size(a.g.c, Last(a.g.lists[UNSORTED])) > nb + MINSIZE
    modifies a`mem, a`g, a`live, a`lastRemainder
    ensures a.Valid() && Took(old(a.live), a.live, p, nb) && UserSame(old(a.live), old(a.mem), a.mem)
    ensures p != 0 && 8 * a.live[p] == nb && a.g.c[p].pin && a.lastRemainder == p + nb / 8
    ensures p == Last(old(a.g.lists[UNSORTED]))
    ensures Cut(a, old(a.g.c), old(a.g.lists[UNSORTED])[..|old(a.g.lists[UNSORTED])| - 1], nb, p)
    ensures |a.g.lists| == |old(a.g.lists)| && forall b :: 2 <= b < NBINS ==> a.g.lists[b] == old(a.g.lists[b])
  {
    hide Arena.Steady, UserSame, NoLimbo;
    var remainder;
    p, remainder := SplitOldest(a, nb);
    Advertise(a, remainder);
  }

  /** The oldest unsorted chunk goes to the bin of its size. */
  method SortOldest(a: Arena)
    requires a.Valid() && a.g.lists[UNSORTED] != []
    modifies a`mem, a`g, a`binmap, a`marked
    ensures a.Valid() && UserSame(a.live, old(a.mem), a.mem) && a.g.fasts == old(a.g.fasts)
    ensures var l := old(a.g.lists[UNSORTED]); var v := l[|l| - 1];
      && a.g.lists[UNSORTED] == l[..|l| - 1]
      && v in old(a.g.c) && a.g.c == SetKind(old(a.g.c), v, Free(BinIndex(8 * old(a.g.c[v].n))))
      && forall b :: 2 <= b < NBINS && b != BinIndex(8 * old(a.g.c[v].n)) ==> a.g.lists[b] == old(a.g.lists[b])
  {
    OldestUnsorted(a);
    ghost var c := a.g.c;
    var victim := TakeLast(a, UNSORTED);
    HeadReads(a.mem, a.g.c, victim);
    var size := SizeAt(a.mem, victim);
    KindTwice(c, victim, Free(BinIndex(size)));
    BinIndexRange(size);
    BinChunk(a, victim, size);
  }

  lemma KindTwice(c: Chunks, p: int, kind: Kind)
    requires p in c
    ensures SetKind(SetKind(c, p, Limbo), p, kind) == SetKind(c, p, kind)
  {
  }

  /** The same chunks, and the same ones free. */
  ghost predicate SameFree(c: Chunks, d: Chunks) {
    && c.Keys == d.Keys
    && forall x :: x in c ==> c[x].n == d[x].n && (c[x].kind.Free? <==> d[x].kind.Free?)
  }

  /** A free chunk of exactly the size. */
  ghost predicate Exact(c: Chunks, nb: int, p: int) {
    p in c && c[p].kind.Free? && 8 * c[p].n == nb
  }

  /** The last remainder, big enough to be split for a small request, is the only chunk left on the unsorted list. */
  ghost predicate Remainder(c: Chunks, l: seq<int>, lastRemainder: int, nb: int, p: int) {
    nb < MIN_LARGE_SIZE && l != [] && p == l[0] == lastRemainder && p in c && 8 * c[p].n > nb + MINSIZE
  }

  /** A bin of small chunks is empty when no chunk of its size is free. */
  ghost predicate Empties(c: Chunks, lists: seq<seq<int>>) {
    |lists| == NBINS && forall b :: 2 <= b < NSMALLBINS && NoExact(c, 16 * b) ==> lists[b] == []
  }

  ghost predicate NoExact(c: Chunks, nb: int) {
    forall x :: !Exact(c, nb, x)
  }

  lemma BinsExact(a: Arena)
    requires a.Valid()
    ensures Empties(a.g.c, a.g.lists)
  {
    forall b | 2 <= b < NSMALLBINS && NoExact(a.g.c, 16 * b) ensures a.g.lists[b] == [] {
      if a.g.lists[b] != [] {
        var x := a.g.lists[b][0];
        assert BinAt(a.mem, a.g, b) && x in a.g.lists[b];
        MemberAt(a.mem, a.base, a.g.c, b, a.g.lists[b], a.g.skips[b], x);
        assert ChunkOk(a.mem, a.g.c, a.base, x);
        BinIndexRange(8 * a.g.c[x].n);
        assert Exact(a.g.c, 16 * b, x);
      }
    }
  }

  lemma SameExact(c: Chunks, d: Chunks, nb: int, x: int)
    requires SameFree(c, d)
    ensures Exact(c, nb, x) <==> Exact(d, nb, x)
  {
  }

  /** The unsorted list after so many rounds from its old end. */
  function Left(l: seq<int>, rounds: nat): seq<int> {
    if rounds <= |l| then l[..|l| - rounds] else []
  }

  /** No chunk from position k of the list on is of exactly the size. */
  ghost predicate NoneExact(c: Chunks, l: seq<int>, nb: int, k: int) {
    forall j :: k <= j < |l| && 0 <= j ==> !Exact(c, nb, l[j])
  }

  /** What the unsorted list gives: its oldest chunk of exactly the size; when there is none the last remainder, if
    all others have been sorted away from it and it is big enough; else nothing. MAX_ITERS chunks are looked at. */
  ghost predicate Picked(c: Chunks, l: seq<int>, lastRemainder: int, nb: int, p: int) {
    var k := |Left(l, MAX_ITERS)|;
    if NoneExact(c, l, nb, k) then
      p == if l != [] && k == 0 && Remainder(c, l, lastRemainder, nb, l[0]) then l[0] else 0
    else OldestExact(c, l, nb, k, p)
  }

  ghost predicate OldestExact(c: Chunks, l: seq<int>, nb: int, k: int, p: int) {
    exists j {:trigger l[j]} :: 0 <= j < |l| && k <= j && l[j] == p && Exact(c, nb, p) && NoneExact(c, l, nb, j + 1)
  }

  /** Chunk p is free, and too big to be handed out whole. */
  ghost predicate IsCut(c: Chunks, nb: int, p: int) {
    p in c && c[p].kind.Free? && 8 * c[p].n >= nb + MINSIZE
  }

  /** What becomes of the last remainder: a chunk split for a small request leaves a new one. */
  ghost predicate Remembered(a: Arena, c: Chunks, tail: seq<int>, lastRemainder: int, nb: int, p: int)
    reads a
  {
    if IsCut(c, nb, p)
    then Cut(a, c, tail, nb, p) && a.lastRemainder == if nb < MIN_LARGE_SIZE then p + nb / 8 else lastRemainder
    else a.lastRemainder == lastRemainder
  }

  /** Works through the unsorted list from its old end: takes an exact fit, or the last remainder for a
    small request, and sorts every other chunk into its bin; when it takes none the list is empty, or
    MAX_ITERS shorter. */
  method ProcessUnsorted(a: Arena, nb: int) returns (p: int)
    requires a.Valid() && Padded(nb)
    modifies a`mem, a`g, a`live, a`lastRemainder, a`binmap, a`marked
    ensures a.Valid() && UserSame(old(a.live), old(a.mem), a.mem)
    ensures p == 0 ==> a.live == old(a.live) && a.g.fasts == old(a.g.fasts)
    ensures p == 0 ==> SameFree(old(a.g.c), a.g.c) && a.g.lists[UNSORTED] == Left(old(a.g.lists[UNSORTED]), MAX_ITERS)
    ensures p == 0 && nb < MIN_LARGE_SIZE && old(a.g.lists[nb / 16]) == [] ==> a.g.lists[nb / 16] == []
    ensures p != 0 ==> Took(old(a.live), a.live, p, nb) && 8 * a.live[p] == nb && p in a.g.c && a.g.c[p].pin
    ensures p != 0 ==> p in old(a.g.lists[UNSORTED]) && p in old(a.g.c) && old(a.g.c[p].kind.Free?)
    ensures Picked(old(a.g.c), old(a.g.lists[UNSORTED]), old(a.lastRemainder), nb, p)
    ensures Remembered(a, old(a.g.c), Left(old(a.g.lists[UNSORTED]), MAX_ITERS), old(a.lastRemainder), nb, p)
    ensures p != 0 && !old(Exact(a.g.c, nb, p)) ==> Empties(old(a.g.c), a.g.lists)
  {
    hide BinOk, Cut, Remembered, Empties, Picked, Taken, Exact, Remainder, NoneExact, SameFree, BinIndex, FastIndex;
    UserInside(a.mem, a.base, a.g.c, a.live);
    LastIsHead(a, UNSORTED);
    ghost var l0, c0, lr := a.g.lists[UNSORTED], a.g.c, a.lastRemainder;
    NoChunkZero(a);
    SameFreeSelf(c0);
    assert NoneExact(c0, l0, nb, |l0|) by { ListEnd(c0, l0, nb); }
    var iters := 0;
    while a.mem[Head(UNSORTED) + BK] != Head(UNSORTED)
      invariant a.Valid() && a.live == old(a.live) && a.g.fasts == old(a.g.fasts) && UserSame(a.live, old(a.mem), a.mem)
      invariant Head(UNSORTED) + BK < |a.mem|
      invariant (a.mem[Head(UNSORTED) + BK] == Head(UNSORTED)) == (a.g.lists[UNSORTED] == [])
      invariant 0 <= iters <= |l0| && iters < MAX_ITERS && a.g.lists[UNSORTED] == l0[..|l0| - iters]
      invariant SameFree(c0, a.g.c) && a.lastRemainder == lr
      invariant nb < MIN_LARGE_SIZE && old(a.g.lists[nb / 16]) == [] ==> a.g.lists[nb / 16] == []
      invariant NoneExact(c0, l0, nb, |l0| - iters)
      invariant l0 != [] && iters == |l0| ==> !Remainder(c0, l0, lr, nb, l0[0])
      decreases |a.g.lists[UNSORTED]|
    {
      ghost var m0, l, c, lists := a.mem, a.g.lists[UNSORTED], a.g.c, a.g.lists;
      assert l[0] == l0[0] && Last(l) == l0[|l0| - iters - 1];
      BinsExact(a);
      p := ProcessOldest(a, nb);
      UserChain(old(a.live), old(a.live), old(a.mem), m0, a.mem);
      if p != 0 {
        PickedNow(a, c0, l0, c, l, lr, nb, iters);
        EmptiesThen(a, c0, c, lists, nb, p);
        return;
      }
      Passed(c0, l0, c, l, lr, nb, iters);
      SameFreeChain(c0, c, a.g.c);
      LastIsHead(a, UNSORTED);
      iters := iters + 1;
      assert l[..|l| - 1] == l0[..|l0| - iters];
      if iters >= MAX_ITERS {
        break;
      }
    }
    p := 0;
    PickedNone(a, c0, l0, lr, nb, iters);
  }

  lemma SameFreeSelf(c: Chunks)
    ensures SameFree(c, c)
  {
  }

  lemma SameFreeChain(c: Chunks, d: Chunks, e: Chunks)
    requires SameFree(c, d) && SameFree(d, e)
    ensures SameFree(c, e)
  {
  }

  lemma ListEnd(c: Chunks, l: seq<int>, nb: int)
    ensures NoneExact(c, l, nb, |l|)
  {
  }

  lemma EmptiesThen(a: Arena, c0: Chunks, c: Chunks, lists: seq<seq<int>>, nb: int, p: int)
    requires SameFree(c0, c) && Empties(c, lists)
    requires !Exact(c, nb, p) ==> |a.g.lists| == |lists| && forall b :: 2 <= b < NBINS ==> a.g.lists[b] == lists[b]
    ensures p in c ==> p in c0 && (c[p].kind.Free? ==> c0[p].kind.Free?)
    ensures !Exact(c0, nb, p) ==> Empties(c0, a.g.lists)
  {
    SameExact(c0, c, nb, p);
    forall b | 2 <= b < NSMALLBINS && NoExact(c0, 16 * b) ensures NoExact(c, 16 * b) {
      forall x ensures !Exact(c, 16 * b, x) { SameExact(c0, c, 16 * b, x); }
    }
  }

  /** One more chunk has been looked at and not taken. */
  lemma Passed(c0: Chunks, l0: seq<int>, c: Chunks, l: seq<int>, lr: int, nb: int, iters: nat)
    requires SameFree(c0, c) && iters < |l0| && l == l0[..|l0| - iters] && NoneExact(c0, l0, nb, |l0| - iters)
    requires !Taken(c, l, lr, nb)
    ensures NoneExact(c0, l0, nb, |l0| - iters - 1)
    ensures iters + 1 == |l0| ==> !Remainder(c0, l0, lr, nb, l0[0])
  {
    SameExact(c0, c, nb, Last(l));
  }

  lemma NoChunkZero(a: Arena)
    requires a.Valid()
    ensures 0 !in a.g.c
  {
    assert 0 in a.g.c ==> ChunkOk(a.mem, a.g.c, a.base, 0);
  }

  /** The chunk that the round after `iters` others has taken. */
  lemma PickedNow(a: Arena, c0: Chunks, l0: seq<int>, c: Chunks, l: seq<int>, lr: int, nb: int, iters: nat)
    requires SameFree(c0, c) && iters < |l0| && iters < MAX_ITERS && l == l0[..|l0| - iters] && l != []
    requires NoneExact(c0, l0, nb, |l0| - iters) && Taken(c, l, lr, nb)
    requires Remembered(a, c, l[..|l| - 1], lr, nb, Last(l)) && Last(l) in c && c[Last(l)].kind.Free?
    ensures Picked(c0, l0, lr, nb, Last(l)) && Remembered(a, c0, Left(l0, MAX_ITERS), lr, nb, Last(l))
  {
    var j := |l0| - iters - 1;
    var p := Last(l);
    assert l0[j] == p && l[0] == l0[0];
    SameExact(c0, c, nb, p);
    if Exact(c0, nb, p) {
      assert OldestExact(c0, l0, nb, |Left(l0, MAX_ITERS)|, p);
      assert !NoneExact(c0, l0, nb, |Left(l0, MAX_ITERS)|);
    } else {
      assert l == [p] && |l0| == iters + 1 && Left(l0, MAX_ITERS) == [] && l[..0] == [];
    }
  }

  lemma PickedNone(a: Arena, c0: Chunks, l0: seq<int>, lr: int, nb: int, iters: nat)
    requires iters <= |l0| && (iters == |l0| || iters == MAX_ITERS) && iters <= MAX_ITERS
    requires NoneExact(c0, l0, nb, |l0| - iters) && 0 !in c0 && a.lastRemainder == lr
    requires l0 != [] && iters == |l0| ==> !Remainder(c0, l0, lr, nb, l0[0])
    ensures Picked(c0, l0, lr, nb, 0) && Remembered(a, c0, Left(l0, MAX_ITERS), lr, nb, 0)
  {
  }

  /** The oldest chunk of the list is the one to take. */
  ghost predicate Taken(c: Chunks, l: seq<int>, lastRemainder: int, nb: int)
    requires l != []
  {
    Exact(c, nb, Last(l)) || (|l| == 1 && Remainder(c, l, lastRemainder, nb, l[0]))
  }

  /** One round of that loop: the oldest unsorted chunk is split, handed out, or binned. */
  method ProcessOldest(a: Arena, nb: int) returns (p: int)
    requires a.Valid() && Padded(nb) && a.g.lists[UNSORTED] != []
    modifies a`mem, a`g, a`live, a`lastRemainder, a`binmap, a`marked
    ensures a.Valid() && UserSame(old(a.live), old(a.mem), a.mem)
    ensures p == 0 ==> a.live == old(a.live) && a.g.fasts == old(a.g.fasts) && a.lastRemainder == old(a.lastRemainder)
    ensures p == 0 ==> SameFree(old(a.g.c), a.g.c)
    ensures var l := old(a.g.lists[UNSORTED]);
      if Taken(old(a.g.c), l, old(a.lastRemainder), nb) then p == Last(l) != 0
      else p == 0 && a.g.lists[UNSORTED] == l[..|l| - 1]
    ensures p == 0 && nb < MIN_LARGE_SIZE && old(a.g.lists[nb / 16]) == [] ==> a.g.lists[nb / 16] == []
    ensures p != 0 ==> Took(old(a.live), a.live, p, nb) && 8 * a.live[p] == nb && p in a.g.c && a.g.c[p].pin
    ensures p != 0 ==> p in old(a.g.c) && old(a.g.c[p].kind) == Free(UNSORTED)
    ensures p != 0 ==> var l := old(a.g.lists[UNSORTED]);
      Remembered(a, old(a.g.c), l[..|l| - 1], old(a.lastRemainder), nb, p)
    ensures p != 0 && !old(Exact(a.g.c, nb, p)) ==>
              |a.g.lists| == |old(a.g.lists)| && forall b :: 2 <= b < NBINS ==> a.g.lists[b] == old(a.g.lists[b])
  {
    hide BinOk, Cut;
    UserInside(a.mem, a.base, a.g.c, a.live);
    LastIsHead(a, UNSORTED);
    OldestUnsorted(a);
    var victim := a.mem[Head(UNSORTED) + BK];
    var bck := a.mem[victim + BK];
    assert !(a.mem[victim + SIZE] <= 16) && !(a.mem[victim + SIZE] > a.systemMem);  // malloc(): memory corruption
    var size := SizeAt(a.mem, victim);
    if nb < MIN_LARGE_SIZE && bck == Head(UNSORTED) && victim == a.lastRemainder && size > nb + MINSIZE {
      p := TakeRemainder(a, nb);
      return;
    }
    if size == nb {
      p := TakeWhole(a, UNSORTED);
      return;
    }
    BinIndexRange(size);
    SortOldest(a);
    p := 0;
  }

  // ------------------------------------------------------------------ best fit over all the bins

  /** A chunk in a regular bin that is big enough for the request. */
  ghost predicate Fits(c: Chunks, nb: int, x: int) {
    x in c && c[x].kind.Free? && c[x].kind.bin != UNSORTED && 8 * c[x].n >= nb
  }

  /** `p` fits, and no chunk in a regular bin fits better. */
  ghost predicate BestFit(c: Chunks, nb: int, p: int) {
    Fits(c, nb, p) && forall x {:trigger Fits(c, nb, x)} :: Fits(c, nb, x) ==> c[x].n >= c[p].n
  }

  /** The kind of a chunk names the bin it is on. */
  lemma InOwnBin(a: Arena, b: int, x: int)
    requires a.Valid() && 1 <= b < NBINS && x in a.g.lists[b]
    ensures x in a.g.c && a.g.c[x].kind == Free(b)
  {
    assert BinAt(a.mem, a.g, b);
    MemberAt(a.mem, a.base, a.g.c, b, a.g.lists[b], a.g.skips[b], x);
  }

  /** A chunk that fits lies in the bin of the request or a later one. */
  lemma FitBin(a: Arena, nb: int, x: int)
    requires a.Valid() && Padded(nb) && Fits(a.g.c, nb, x)
    ensures var b := a.g.c[x].kind.bin;
      BinIndex(nb) <= b < NBINS && x in a.g.lists[b] && b == BinIndex(8 * a.g.c[x].n) && x != 0
  {
    assert Listed(a.g, x);
    var b := a.g.c[x].kind.bin;
    assert BinAt(a.mem, a.g, b);
    MemberAt(a.mem, a.base, a.g.c, b, a.g.lists[b], a.g.skips[b], x);
    BinIndexMonotone(nb, 8 * a.g.c[x].n);
  }

  /** The best of the bin of the request is the best of all. */
  lemma BestInBin(a: Arena, nb: int, victim: int)
    requires a.Valid() && Padded(nb) && NSMALLBINS <= BinIndex(nb) < NBINS
    requires BestOf(a.g.c, a.g.lists[BinIndex(nb)], nb, victim)
    ensures BestFit(a.g.c, nb, victim)
  {
    var idx := BinIndex(nb);
    assert BinAt(a.mem, a.g, idx);
    MemberAt(a.mem, a.base, a.g.c, idx, a.g.lists[idx], a.g.skips[idx], victim);
    forall x | Fits(a.g.c, nb, x) ensures a.g.c[x].n >= a.g.c[victim].n {
      FitBin(a, nb, x);
      if a.g.c[x].n <= a.g.c[victim].n {
        BinIndexMonotone(8 * a.g.c[x].n, 8 * a.g.c[victim].n);
      }
    }
  }

  /** Nothing in the bin of the request fits. */
  ghost predicate BinExhausted(a: Arena, nb: int)
    reads a
  {
    var idx := BinIndex(nb);
    0 <= idx < |a.g.lists| && forall x :: x in a.g.lists[idx] ==> 8 * Size(a.g.c, x) < nb
  }

  /** The last chunk of the first non-empty bin above that of the request is the best fit. */
  lemma BestInNextBin(a: Arena, nb: int, i: int)
    requires a.Valid() && Padded(nb) && BinExhausted(a, nb) && BinIndex(nb) < i < NBINS
    requires a.g.lists[i] != [] && EmptyFrom(a.g.lists, BinIndex(nb) + 1, i)
    ensures var l := a.g.lists[i]; BestFit(a.g.c, nb, l[|l| - 1])
  {
    var l, c := a.g.lists[i], a.g.c;
    var p := l[|l| - 1];
    BinIndexRange(nb);
    assert BinAt(a.mem, a.g, i);
    MemberAt(a.mem, a.base, c, i, l, a.g.skips[i], p);
    if 8 * c[p].n <= nb { BinIndexMonotone(8 * c[p].n, nb); }
    assert ChunkOk(a.mem, c, a.base, p);
    BinIndexRange(8 * c[p].n);
    forall x | Fits(c, nb, x) ensures c[x].n >= c[p].n {
      FitBin(a, nb, x);
      assert ChunkOk(a.mem, c, a.base, x);
      if c[x].n <= c[p].n {
        BinIndexMonotone(8 * c[x].n, 8 * c[p].n);
        MemberAt(a.mem, a.base, c, i, l, a.g.skips[i], x);
      }
    }
  }

  lemma NoneFits(a: Arena, nb: int)
    requires a.Valid() && Padded(nb) && BinExhausted(a, nb) && EmptyFrom(a.g.lists, BinIndex(nb) + 1, NBINS)
    ensures forall x {:trigger Fits(a.g.c, nb, x)} :: !Fits(a.g.c, nb, x)
  {
    forall x | Fits(a.g.c, nb, x) ensures false {
      FitBin(a, nb, x);
    }
  }

  /** Of chunks of equal size, the second in the bin of a large request, and the last in any other bin. */
  ghost predicate Chosen(c: Chunks, lists: seq<seq<int>>, nb: int, p: int) {
    p in c && c[p].kind.Free? && var b := c[p].kind.bin;
    && 0 <= b < |lists|
    && if nb >= MIN_LARGE_SIZE && b == BinIndex(nb) then Spared(c, lists[b], p)
       else lists[b] != [] && p == Last(lists[b])
  }

  /** The last chunk of the first non-empty bin above that of the request serves it. */
  method TakeNext(a: Arena, nb: int, i: int) returns (p: int)
    requires a.Valid() && Padded(nb) && BinExhausted(a, nb) && BinIndex(nb) < i < NBINS
    requires a.g.lists[i] != [] && EmptyFrom(a.g.lists, BinIndex(nb) + 1, i)
    modifies a`mem, a`g, a`live, a`lastRemainder
    ensures a.Valid() && UserSame(old(a.live), old(a.mem), a.mem) && p != 0
    ensures Took(old(a.live), a.live, p, nb) && BestFit(old(a.g.c), nb, p) && p in a.g.c && a.g.c[p].pin
    ensures NoneFilled(old(a.g.lists), a.g.lists) && Chosen(old(a.g.c), old(a.g.lists), nb, p)
    ensures Remembered(a, old(a.g.c), old(a.g.lists[UNSORTED]), old(a.lastRemainder), nb, p)
  {
    hide BinIndex, FastIndex, Cut, Spared, BestFit, BinExhausted, EmptyFrom;
    BinIndexRange(nb);
    BestInNextBin(a, nb, i);
    LastIsHead(a, i);
    p := a.mem[Head(i) + BK];
    assert BestFit(a.g.c, nb, p) ==> Fits(a.g.c, nb, p) by { BestFits(a.g.c, nb, p); }
    FitBin(a, nb, p);
    InOwnBin(a, i, p);
    var remainder := TakeFree(a, p, nb);
    if remainder != 0 && nb < MIN_LARGE_SIZE {
      a.lastRemainder := remainder;
    }
  }

  lemma BestFits(c: Chunks, nb: int, p: int)
    ensures BestFit(c, nb, p) ==> Fits(c, nb, p)
  {
  }

  /** The search of the bins, strictly by best fit: first the bin of a large request, then the binmap. */
  method SearchBins(a: Arena, nb: int) returns (p: int)
    requires a.Valid() && Padded(nb) && (nb < MIN_LARGE_SIZE ==> a.g.lists[nb / 16] == [])
    modifies a`mem, a`g, a`live, a`lastRemainder, a`binmap, a`marked
    ensures a.Valid() && UserSame(old(a.live), old(a.mem), a.mem)
    ensures p == 0 ==> a.live == old(a.live) && a.g == old(a.g)
    ensures p == 0 ==> forall x {:trigger Fits(a.g.c, nb, x)} :: !Fits(a.g.c, nb, x)
    ensures p != 0 ==> Took(old(a.live), a.live, p, nb) && BestFit(old(a.g.c), nb, p) && p in a.g.c && a.g.c[p].pin
    ensures p != 0 ==> NoneFilled(old(a.g.lists), a.g.lists) && Chosen(old(a.g.c), old(a.g.lists), nb, p)
    ensures Remembered(a, old(a.g.c), old(a.g.lists[UNSORTED]), old(a.lastRemainder), nb, p)
  {
    hide BinIndex, FastIndex, Cut, Spared, BestFit, NoneFilled, BinOk;
    UserInside(a.mem, a.base, a.g.c, a.live);
    BinIndexRange(nb);
    NoChunkZero(a);
    var idx := BinIndex(nb);
    p := 0;
    if nb >= MIN_LARGE_SIZE {
      p := ChooseLarge(a, nb, idx);
      if p != 0 {
        BestInBin(a, nb, p);
        BestFits(a.g.c, nb, p);
        FitBin(a, nb, p);
        InOwnBin(a, idx, p);
        var _ := TakeFree(a, p, nb);
        return;
      }
    }
    var i := FindBin(a, idx + 1);
    if i == NBINS {
      NoneFits(a, nb);
      return 0;
    }
    p := TakeNext(a, nb, i);
  }

  // ------------------------------------------------------------------ _int_malloc

  /** use_top: top serves the request when it stays at least MINSIZE. */
  method UseTop(a: Arena, nb: int) returns (p: int)
    requires a.Valid() && Padded(nb)
    modifies a
    ensures a.Valid() && UserSame(old(a.live), old(a.mem), a.mem)
    ensures p == 0 ==> a.live == old(a.live) && a.g == old(a.g) && a.haveFast == old(a.haveFast) && a.mem == old(a.mem)
    ensures p == 0 ==> 8 * a.g.c[a.top].n < nb + MINSIZE && a.top == old(a.top)
    ensures |a.mem| == |old(a.mem)|
    ensures p != 0 ==> Took(old(a.live), a.live, p, nb) && p == old(a.top) && p in a.g.c && a.g.c[p].pin
    ensures a.lastRemainder == old(a.lastRemainder)
    ensures a.haveFast == old(a.haveFast)
  {
    UserInside(a.mem, a.base, a.g.c, a.live);
    HeadOf(a.mem, a.g.c, a.base, a.top);
    if SizeAt(a.mem, a.top) >= nb + MINSIZE {
      p := SplitTop(a, nb);
    } else {
      p := 0;
    }
  }

  /** Every free chunk is in a regular bin or still unsorted. */
  lemma SortedOrNot(a: Arena, nb: int, x: int)
    requires a.Valid()
    ensures FreeFit(a.g.c, nb, x) && x !in a.g.lists[UNSORTED] <==> Fits(a.g.c, nb, x)
  {
    if FreeFit(a.g.c, nb, x) {
      assert Listed(a.g, x) && BinAt(a.mem, a.g, UNSORTED);
      assert x in a.g.lists[UNSORTED] ==> Member(a.g.c, UNSORTED, x);
    }
  }

  /** The best of the regular bins is the best of all that are not unsorted, also since before they were binned. */
  lemma BestSorted(a: Arena, c: Chunks, top: int, nb: int, p: int)
    requires a.Valid() && SameFree(c, a.g.c)
    requires if Fits(a.g.c, nb, p) then BestFit(a.g.c, nb, p)
             else (p == 0 || p == top) && forall x {:trigger Fits(a.g.c, nb, x)} :: !Fits(a.g.c, nb, x)
    ensures BestChunk(c, a.g.lists[UNSORTED], top, nb, p)
    ensures !Fits(a.g.c, nb, p) ==> NoneFree(c, a.g.lists[UNSORTED], nb)
  {
    forall x ensures FreeFit(c, nb, x) && x !in a.g.lists[UNSORTED] <==> Fits(a.g.c, nb, x) {
      SortedOrNot(a, nb, x);
      assert x in a.g.c <==> x in c;
    }
  }

  /** What a request gets that no fast or small bin serves: what the unsorted list gives, else a best fit over all
    free chunks, but for those that MAX_ITERS rounds leave on that list; when there is none, top or 0. */
  ghost predicate BestServed(c: Chunks, l: seq<int>, top: int, lastRemainder: int, nb: int, p: int) {
    if Picked(c, l, lastRemainder, nb, 0) then BestChunk(c, Left(l, MAX_ITERS), top, nb, p)
    else Picked(c, l, lastRemainder, nb, p)
  }

  /** An exact fit is a best fit. */
  lemma ExactIsBest(c: Chunks, l: seq<int>, top: int, lr: int, nb: int, p: int)
    requires BestServed(c, l, top, lr, nb, p)
    ensures BestChunk(c, Left(l, MAX_ITERS), top, nb, p) || (l != [] && Remainder(c, l, lr, nb, p))
  {
  }

  /** One round of the outer loop: the unsorted list, the bins, top. */
  method Round(a: Arena, nb: int) returns (p: int)
    requires a.Valid() && Padded(nb) && (nb < MIN_LARGE_SIZE ==> a.g.lists[nb / 16] == [])
    modifies a
    ensures a.Valid() && UserSame(old(a.live), old(a.mem), a.mem)
    ensures p == 0 ==> a.live == old(a.live)
    ensures |a.mem| == |old(a.mem)| && a.haveFast == old(a.haveFast)
    ensures p == 0 ==> 8 * a.g.c[a.top].n < nb + MINSIZE && (nb < MIN_LARGE_SIZE ==> a.g.lists[nb / 16] == [])
    ensures p == 0 ==> a.top == old(a.top) && a.lastRemainder == old(a.lastRemainder)
    ensures p != 0 ==> Took(old(a.live), a.live, p, nb) && p in a.g.c && a.g.c[p].pin
    ensures BestServed(old(a.g.c), old(a.g.lists[UNSORTED]), old(a.top), old(a.lastRemainder), nb, p)
    ensures p == 0 ==> NoneFree(old(a.g.c), Left(old(a.g.lists[UNSORTED]), MAX_ITERS), nb)
    ensures Remembered(a, old(a.g.c), Left(old(a.g.lists[UNSORTED]), MAX_ITERS), old(a.lastRemainder), nb, p)
    ensures IsCut(old(a.g.c), nb, p) ==> Empties(old(a.g.c), a.g.lists)
  {
    hide BinIndex, FastIndex, BinOk, Picked, Cut, Empties, NoneFree, BestChunk;
    ghost var c0, lr := a.g.c, a.lastRemainder;
    NoChunkZero(a);
    p := ProcessUnsorted(a, nb);
    if p == 0 {
      ghost var c1, lists := a.g.c, a.g.lists;
      BinsExact(a);
      p := Search(a, c0, nb);
      SearchedThen(a, c0, c1, lists, lr, nb, p);
    } else {
      PickedOnce(c0, old(a.g.lists[UNSORTED]), lr, nb, p, 0);
    }
  }

  /** There is no choice in what the unsorted list gives. */
  lemma PickedOnce(c: Chunks, l: seq<int>, lr: int, nb: int, p: int, q: int)
    requires Picked(c, l, lr, nb, p)
    ensures Picked(c, l, lr, nb, q) ==> p == q
  {
    var k := |Left(l, MAX_ITERS)|;
    if !NoneExact(c, l, nb, k) && Picked(c, l, lr, nb, q) {
      var i :| 0 <= i < |l| && k <= i && l[i] == p && Exact(c, nb, p) && NoneExact(c, l, nb, i + 1);
      var j :| 0 <= j < |l| && k <= j && l[j] == q && Exact(c, nb, q) && NoneExact(c, l, nb, j + 1);
    }
  }

  lemma SearchedThen(a: Arena, c0: Chunks, c1: Chunks, lists: seq<seq<int>>, lr: int, nb: int, p: int)
    requires SameFree(c0, c1) && Empties(c1, lists) && UNSORTED < |lists|
    requires Remembered(a, c1, lists[UNSORTED], lr, nb, p) && (IsCut(c1, nb, p) ==> NoneFilled(lists, a.g.lists))
    ensures Remembered(a, c0, lists[UNSORTED], lr, nb, p)
    ensures IsCut(c0, nb, p) ==> Empties(c0, a.g.lists)
  {
    assert p in c0 <==> p in c1;
    forall b | 2 <= b < NSMALLBINS && NoExact(c0, 16 * b) ensures NoExact(c1, 16 * b) {
      forall x ensures !Exact(c1, 16 * b, x) { SameExact(c0, c1, 16 * b, x); }
    }
  }

  /** The bins, then top. */
  method Search(a: Arena, ghost c0: Chunks, nb: int) returns (p: int)
    requires a.Valid() && Padded(nb) && (nb < MIN_LARGE_SIZE ==> a.g.lists[nb / 16] == []) && SameFree(c0, a.g.c)
    modifies a
    ensures a.Valid() && UserSame(old(a.live), old(a.mem), a.mem)
    ensures p == 0 ==> a.live == old(a.live)
    ensures |a.mem| == |old(a.mem)| && a.haveFast == old(a.haveFast)
    ensures p == 0 ==> 8 * a.g.c[a.top].n < nb + MINSIZE && a.g == old(a.g) && a.top == old(a.top)
    ensures p != 0 ==> Took(old(a.live), a.live, p, nb) && p in a.g.c && a.g.c[p].pin
    ensures BestChunk(c0, old(a.g.lists[UNSORTED]), old(a.top), nb, p)
    ensures p == 0 ==> NoneFree(c0, old(a.g.lists[UNSORTED]), nb)
    ensures Remembered(a, old(a.g.c), old(a.g.lists[UNSORTED]), old(a.lastRemainder), nb, p)
    ensures IsCut(old(a.g.c), nb, p) ==> NoneFilled(old(a.g.lists), a.g.lists)
  {
    hide BinIndex, FastIndex, BinOk, BestChunk, NoneFree, BestFit, Cut, SameFree;
    NoChunkZero(a);
    forall q | BestFit(a.g.c, nb, q) ensures BestChunk(c0, a.g.lists[UNSORTED], a.top, nb, q) {
      BestFits(a.g.c, nb, q);
      BestSorted(a, c0, a.top, nb, q);
    }
    p := SearchBins(a, nb);
    if p == 0 {
      BestSorted(a, c0, a.top, nb, 0);
      BestSorted(a, c0, a.top, nb, a.top);
      ghost var c1 := a.g.c;
      p := UseTop(a, nb);
      assert p == 0 || c1[p].kind.Top?;
    }
  }

  /** When nothing else fits top is the best, before it is too small and after it has grown. */
  lemma TopServes(c: Chunks, unseen: seq<int>, top: int, nb: int)
    requires NoneFree(c, unseen, nb) && top in c && c[top].kind.Top?
    ensures BestChunk(c, unseen, top, nb, top) && !IsCut(c, nb, top)
  {
  }

  /** No gap between the live blocks has room for the request, and the last one none beside MINSIZE. */
  ghost predicate NoRoom(live: map<int, int>, base: int, end: int, nb: int) {
    && (forall x, y {:trigger GapFit(live, base, end, nb, x, y)} :: !GapFit(live, base, end, nb, x, y))
    && forall x {:trigger Gap(live, base, end, x, end)} :: Gap(live, base, end, x, end) ==> 8 * (end - x) < nb + MINSIZE
  }

  /** So it is when no free chunk fits and top is too small, and there are no more gaps than rounds. */
  lemma NoRoomNow(a: Arena, nb: int)
    requires a.Valid() && !a.haveFast && |Starts(a.live, a.base, |a.mem|)| <= MAX_ITERS
    requires NoneFree(a.g.c, Left(a.g.lists[UNSORTED], MAX_ITERS), nb) && 8 * (|a.mem| - a.top) < nb + MINSIZE
    ensures NoRoom(a.live, a.base, |a.mem|, nb)
  {
    hide Starts;
    assert NoFast(a);
    UnsortedFew(a);
    TopShape(a);
    var live, base, end := a.live, a.base, |a.mem|;
    forall x, y ensures !GapFit(live, base, end, nb, x, y) {
      if GapFit(live, base, end, nb, x, y) { GapIsFit(a, nb, x, y); }
    }
    forall x | Gap(live, base, end, x, end) ensures 8 * (end - x) < nb + MINSIZE {
      GapIsSpare(a, x, end);
      assert ChunkOk(a.mem, a.g.c, base, x) && ChunkOk(a.mem, a.g.c, base, a.top);
      assert Apart(a.g.c, x, a.top) && Apart(a.g.c, a.top, x);
    }
  }

  /** "Otherwise, relay to handle system-dependent cases." */
  method LastResort(a: Arena, nb: int, sys: Sbrk, ghost c: Chunks, ghost unseen: seq<int>, ghost lr: int)
    returns (p: int)
    requires a.Valid() && !a.haveFast && Padded(nb) && 8 * a.g.c[a.top].n < nb + MINSIZE
    requires NoneFree(c, unseen, nb) && a.top in c && c[a.top].kind.Top? && 0 !in c && a.lastRemainder == lr
    modifies a
    ensures a.Valid() && UserSame(old(a.live), old(a.mem), a.mem) && !a.haveFast
    ensures if p == 0 then a.live == old(a.live) else Took(old(a.live), a.live, p, nb) && p in a.g.c && a.g.c[p].pin
    ensures old(Granted(a, nb, sys)) ==> p != 0
    ensures Grown(|old(a.mem)|, |a.mem|, a.topPad, nb)
    ensures BestChunk(c, unseen, old(a.top), nb, p) && Remembered(a, c, unseen, lr, nb, p) && !IsCut(c, nb, p)
  {
    hide Arena.Valid, UserSame, Took, Cut;
    TopServes(c, unseen, a.top, nb);
    p := SysMalloc(a, nb, sys);
  }

  /** The outer loop of _int_malloc. It is entered again only after a consolidation, so at most once; the heap is
    grown only when no gap between the live blocks has room. */
  method Serve(a: Arena, nb: int, sys: Sbrk) returns (p: int, ghost rounds: nat)
    requires a.Valid() && Padded(nb)
    requires if nb < MIN_LARGE_SIZE then a.g.lists[nb / 16] == [] else !a.haveFast
    modifies a
    ensures a.Valid() && UserSame(old(a.live), old(a.mem), a.mem)
    ensures if p == 0 then a.live == old(a.live) else Took(old(a.live), a.live, p, nb) && p in a.g.c && a.g.c[p].pin
    ensures old(Granted(a, nb, sys)) ==> p != 0
    ensures Grown(|old(a.mem)|, |a.mem|, a.topPad, nb)
    ensures !old(a.haveFast) ==>
              BestServed(old(a.g.c), old(a.g.lists[UNSORTED]), old(a.top), old(a.lastRemainder), nb, p)
    ensures 1 <= rounds <= 2 && (rounds == 2 ==> old(a.haveFast) && nb < MIN_LARGE_SIZE)
    ensures !Picked(old(a.g.c), old(a.g.lists[UNSORTED]), old(a.lastRemainder), nb, 0) ==>
              rounds == 1 && Picked(old(a.g.c), old(a.g.lists[UNSORTED]), old(a.lastRemainder), nb, p)
              && |a.mem| == |old(a.mem)|
    ensures rounds == 1 ==>
              Remembered(a, old(a.g.c), Left(old(a.g.lists[UNSORTED]), MAX_ITERS), old(a.lastRemainder), nb, p)
              && (IsCut(old(a.g.c), nb, p) ==> Empties(old(a.g.c), a.g.lists))
    ensures (p == 0 || |a.mem| != |old(a.mem)|) && |Starts(old(a.live), a.base, |old(a.mem)|)| <= MAX_ITERS ==>
              NoRoom(old(a.live), a.base, |old(a.mem)|, nb)
    ensures !old(a.haveFast) ==> !a.haveFast
  {
    hide BinIndex, FastIndex, BinOk, Picked, Cut, Empties, NoneFree, BestChunk, Starts, NoRoom;
    hide Remembered, IsCut, UserSame, Took;
    UserInside(a.mem, a.base, a.g.c, a.live);
    rounds := 0;
    while true
      invariant rounds <= 1 && if rounds == 0 then a.haveFast == old(a.haveFast) else !a.haveFast
      invariant rounds == 0 ==> a.g == old(a.g) && a.top == old(a.top) && a.lastRemainder == old(a.lastRemainder)
      invariant rounds == 1 ==> old(a.haveFast) && nb < MIN_LARGE_SIZE
      invariant rounds == 1 ==> Picked(old(a.g.c), old(a.g.lists[UNSORTED]), old(a.lastRemainder), nb, 0)
      invariant a.Valid() && a.live == old(a.live) && UserSame(a.live, old(a.mem), a.mem) && |a.mem| == |old(a.mem)|
      invariant if nb < MIN_LARGE_SIZE then a.g.lists[nb / 16] == [] else !a.haveFast
      decreases a.haveFast
    {
      rounds := rounds + 1;
      ghost var m := a.mem;
      ghost var end, c, l := |a.mem|, a.g.c, a.g.lists[UNSORTED];
      NoChunkZero(a);
      TopShape(a);
      assert c[a.top].kind.Top?;
      if !a.haveFast && |Starts(a.live, a.base, end)| <= MAX_ITERS {
        if NoneFree(a.g.c, Left(a.g.lists[UNSORTED], MAX_ITERS), nb) && 8 * (end - a.top) < nb + MINSIZE {
          NoRoomNow(a, nb);
        }
      }
      p := Round(a, nb);
      UserChain(old(a.live), old(a.live), old(a.mem), m, a.mem);
      if p != 0 { return; }
      TopShape(a);
      m := a.mem;
      if a.haveFast {
        assert nb < MIN_LARGE_SIZE;
        Consolidate(a);
        UserChain(old(a.live), old(a.live), old(a.mem), m, a.mem);
      } else {
        p := LastResort(a, nb, sys, c, Left(l, MAX_ITERS), a.lastRemainder);
        UserChain(old(a.live), old(a.live), old(a.mem), m, a.mem);
        return;
      }
    }
  }

  /** A fastbin serves first: its newest chunk. */
  ghost predicate FastHit(a: Arena, nb: int)
    reads a
  {
    nb <= a.maxFast && 0 <= FastIndex(nb) < |a.g.fasts| && a.g.fasts[FastIndex(nb)] != []
  }

  /** Else the small bin of exactly the size: its oldest chunk. */
  ghost predicate SmallHit(a: Arena, nb: int)
    reads a
  {
    !FastHit(a, nb) && 0 <= nb < MIN_LARGE_SIZE && nb / 16 < |a.g.lists| && a.g.lists[nb / 16] != []
  }

  /** The unsorted list will be worked through to its end: there are no more gaps to put on it than rounds, or,
    when nothing is consolidated first, no more chunks on it now. */
  ghost predicate Few(a: Arena)
    reads a
  {
    || |Starts(a.live, a.base, |a.mem|)| <= MAX_ITERS
    || (!a.haveFast && UNSORTED < |a.g.lists| && |a.g.lists[UNSORTED]| <= MAX_ITERS)
  }

  /** No fast or small bin answers, and every free chunk will have been looked at: large requests consolidate first. */
  ghost predicate Searched(a: Arena, nb: int)
    reads a
  {
    Few(a) && (nb >= MIN_LARGE_SIZE || (!a.haveFast && !SmallHit(a, nb)))
  }

  /** With empty fastbins the search ends at a smallest gap that fits, or at the last remainder. */
  lemma GapServed(a: Arena, nb: int, p: int)
    requires a.Valid() && !a.haveFast && Few(a)
    requires BestServed(a.g.c, a.g.lists[UNSORTED], a.top, a.lastRemainder, nb, p)
    ensures BestGap(a.live, a.base, |a.mem|, nb, p) || (nb < MIN_LARGE_SIZE && p == a.lastRemainder != 0)
  {
    hide BestChunk, BestGap, Starts, BestServed, Picked;
    assert NoFast(a);
    UnsortedFew(a);
    ExactIsBest(a.g.c, a.g.lists[UNSORTED], a.top, a.lastRemainder, nb, p);
    assert Left(a.g.lists[UNSORTED], MAX_ITERS) == [];
    if BestChunk(a.g.c, [], a.top, nb, p) {
      BestIsBest(a, nb, p);
    } else {
      var l := a.g.lists[UNSORTED];
      assert BinAt(a.mem, a.g, UNSORTED) && l[0] in l;
      MemberAt(a.mem, a.base, a.g.c, UNSORTED, l, a.g.skips[UNSORTED], l[0]);
    }
  }

  /** Neither a fastbin nor a small bin serves the request, and nothing is consolidated before the search. */
  ghost predicate Unhit(a: Arena, nb: int)
    reads a
  {
    if nb < MIN_LARGE_SIZE then !FastHit(a, nb) && !SmallHit(a, nb) else !a.haveFast
  }

  /** The last remainder is split when it is big enough and all chunks before it on the unsorted list are sorted
    away, with no exact fit among them. */
  lemma RemainderFirst(c: Chunks, l: seq<int>, lr: int, nb: int)
    requires 0 < |l| <= MAX_ITERS && Remainder(c, l, lr, nb, l[0]) && NoneExact(c, l, nb, 0)
    ensures Picked(c, l, lr, nb, lr) && (Picked(c, l, lr, nb, 0) ==> lr == 0)
  {
  }

  function Last(l: seq<int>): int
    requires l != []
  {
    l[|l| - 1]
  }

  lemma Starting(a: Arena)
    requires a.Valid()
    ensures UserSame(a.live, a.mem, a.mem) && 0 <= a.topPad && a.maxFast <= 160
    ensures |a.g.lists| == NBINS && |a.g.fasts| == NFASTBINS
    ensures !a.haveFast ==> forall nb :: !FastHit(a, nb)
  {
    UserInside(a.mem, a.base, a.g.c, a.live);
  }

  /** _int_malloc: the result is a chunk of the padded size, in no one's hands before, or 0 when the request
    is out of range or the system refuses; the chunks in the caller's hands keep their places and their
    contents. Without fast chunks, the chunk in front of the result is in use. What the unsorted list has to give,
    an exact fit or the last remainder, it gives first. A large request, and a small one
    that finds no fast chunk and an empty bin, gets a smallest gap between the live blocks that fits. The heap is
    grown, or the request refused, only when no gap has room. */
  method IntMalloc(a: Arena, bytes: int, sys: Sbrk) returns (p: int)
    requires a.Valid() && 0 <= bytes < TWO64
    modifies a
    ensures a.Valid() && UserSame(old(a.live), old(a.mem), a.mem)
    ensures if p == 0 then a.live == old(a.live) else Took(old(a.live), a.live, p, Request2Size(bytes))
    ensures OutOfRange(bytes) ==> p == 0
    ensures !OutOfRange(bytes) && old(Granted(a, Request2Size(bytes), sys)) ==> p != 0
    ensures if OutOfRange(bytes) then a.mem == old(a.mem)
            else Grown(|old(a.mem)|, |a.mem|, a.topPad, Request2Size(bytes))
    ensures !OutOfRange(bytes) && old(FastHit(a, Request2Size(bytes))) ==>
              p == old(a.g.fasts[FastIndex(Request2Size(bytes))])[0] && p != 0 && 8 * a.live[p] == Request2Size(bytes)
    ensures !OutOfRange(bytes) && old(SmallHit(a, Request2Size(bytes))) ==>
              p == Last(old(a.g.lists[Request2Size(bytes) / 16])) && p != 0 && 8 * a.live[p] == Request2Size(bytes)
    ensures !OutOfRange(bytes) && !old(a.haveFast) && !old(SmallHit(a, Request2Size(bytes))) ==>
              BestServed(old(a.g.c), old(a.g.lists[UNSORTED]), old(a.top), old(a.lastRemainder), Request2Size(bytes), p)
    ensures !OutOfRange(bytes) && old(Searched(a, Request2Size(bytes))) ==>
              || BestGap(old(a.live), a.base, |old(a.mem)|, Request2Size(bytes), p)
              || (Request2Size(bytes) < MIN_LARGE_SIZE && p == old(a.lastRemainder) != 0)
    ensures !OutOfRange(bytes) && old(Unhit(a, Request2Size(bytes))) &&
            !old(Picked(a.g.c, a.g.lists[UNSORTED], a.lastRemainder, Request2Size(bytes), 0)) ==>
              var nb := Request2Size(bytes);
              && Picked(old(a.g.c), old(a.g.lists[UNSORTED]), old(a.lastRemainder), nb, p) && |a.mem| == |old(a.mem)|
              && Remembered(a, old(a.g.c), Left(old(a.g.lists[UNSORTED]), MAX_ITERS), old(a.lastRemainder), nb, p)
    ensures !OutOfRange(bytes) && !old(a.haveFast) && !old(SmallHit(a, Request2Size(bytes))) ==>
              var nb := Request2Size(bytes);
              && Remembered(a, old(a.g.c), Left(old(a.g.lists[UNSORTED]), MAX_ITERS), old(a.lastRemainder), nb, p)
              && (IsCut(old(a.g.c), nb, p) ==> Empties(old(a.g.c), a.g.lists)) && !a.haveFast
    ensures !OutOfRange(bytes) && |Starts(old(a.live), a.base, |old(a.mem)|)| <= MAX_ITERS &&
            (p == 0 || |a.mem| != |old(a.mem)|) ==>
              NoRoom(old(a.live), a.base, |old(a.mem)|, Request2Size(bytes))
    ensures p != 0 && !old(a.haveFast) ==> p in a.g.c && a.g.c[p].pin
  {
    hide BestGap, Starts, BestServed, Picked, Remembered, NoRoom, Empties, Grants, IsCut, BinIndex, BinOk;
    hide Arena.Valid, UserSame, FastIndex;
    Starting(a);
    ghost var l0, m0 := a.live, a.mem;
    if OutOfRange(bytes) {
      return 0;
    }
    PaddedSize(bytes);
    var nb := Request2Size(bytes);
    assert !a.haveFast ==> !FastHit(a, nb);
    if nb <= a.maxFast {
      p := TakeFast(a, nb);
      if p != 0 { return; }
    }
    if nb < MIN_LARGE_SIZE {
      p := TakeSmall(a, nb);
      if p != 0 { return; }
    } else if a.haveFast {
      Consolidate(a);
    }
    if !a.haveFast && Few(a) {
      forall q | BestServed(a.g.c, a.g.lists[UNSORTED], a.top, a.lastRemainder, nb, q)
        ensures BestGap(a.live, a.base, |a.mem|, nb, q) || (nb < MIN_LARGE_SIZE && q == a.lastRemainder != 0) {
        GapServed(a, nb, q);
      }
    }
    ghost var rounds;
    ghost var m1 := a.mem;
    p, rounds := Serve(a, nb, sys);
    UserChain(l0, l0, m0, m1, a.mem);
  }

  /** A chunk of fast size comes back to the next request of its size: malloc undoes free. */
  method FreeThenMalloc(a: Arena, p: int, bytes: int, sys: Sbrk) returns (q: int)
    requires a.Valid() && p in a.live && 0 <= bytes < TWO64 && !OutOfRange(bytes)
    requires 8 * a.live[p] == Request2Size(bytes) <= a.maxFast
    modifies a
    ensures a.Valid() && q == p && a.live == old(a.live) && UserSame(old(a.live) - {p}, old(a.mem), a.mem)
  {
    hide Arena.Valid, UserSame, Request2Size, OutOfRange, BestServed, BestGap, Picked, Remembered, NoRoom, Starts;
    ghost var l0, m0 := a.live, a.mem;
    Starting(a);
    IntFree(a, p, sys);
    Starting(a);
    ghost var m1 := a.mem;
    assert FastHit(a, Request2Size(bytes));
    q := IntMalloc(a, bytes, sys);
    assert a.live == (l0 - {p})[p := l0[p]];
    UserChain(l0 - {p}, l0 - {p}, m0, m1, a.mem);
  }

  /** A small bin hands out chunks of exactly its size. */
  lemma SmallExact(a: Arena, nb: int)
    requires a.Valid() && SmallHit(a, nb) && Padded(nb)
    ensures Exact(a.g.c, nb, Last(a.g.lists[nb / 16]))
  {
    var x := Last(a.g.lists[nb / 16]);
    assert BinAt(a.mem, a.g, nb / 16) && x in a.g.lists[nb / 16];
    MemberAt(a.mem, a.base, a.g.c, nb / 16, a.g.lists[nb / 16], a.g.skips[nb / 16], x);
    assert ChunkOk(a.mem, a.g.c, a.base, x);
    BinIndexRange(8 * a.g.c[x].n);
  }

  /** The rest of a split chunk, alone on the unsorted list, is what the next small request gets. */
  lemma RestIsNext(a: Arena, c: Chunks, nb: int, p: int, nb2: int)
    requires a.Valid() && Padded(nb) && Padded(nb2) && nb < MIN_LARGE_SIZE && nb2 < MIN_LARGE_SIZE
    requires IsCut(c, nb, p) && Remembered(a, c, [], a.lastRemainder, nb, p) && 8 * c[p].n > nb + nb2 + MINSIZE
    ensures var l := a.g.lists[UNSORTED]; var rest := p + nb / 8;
      Picked(a.g.c, l, a.lastRemainder, nb2, rest) && !Picked(a.g.c, l, a.lastRemainder, nb2, 0)
      && IsCut(a.g.c, nb2, rest)
  {
    NoChunkZero(a);
    assert a.g.lists[UNSORTED] == [p + nb / 8];
    InOwnBin(a, UNSORTED, p + nb / 8);
    RemainderFirst(a.g.c, a.g.lists[UNSORTED], a.lastRemainder, nb2);
  }

  /** Runs of small requests: when the first is split from a chunk that is big enough for both, and no free chunk is of
    just the size of the second, the two blocks are neighbours. */
  method TwoInARow(a: Arena, bytes1: int, bytes2: int, sys: Sbrk) returns (p: int, q: int)
    requires a.Valid() && !a.haveFast && |a.g.lists[UNSORTED]| <= MAX_ITERS && 0 <= bytes1 && 0 <= bytes2
    requires Request2Size(bytes1) < MIN_LARGE_SIZE && Request2Size(bytes2) < MIN_LARGE_SIZE
    requires NoExact(a.g.c, Request2Size(bytes2))
    modifies a
    ensures a.Valid()
    ensures p in old(a.g.c) && old(a.g.c[p].kind.Free?)
            && 8 * old(a.g.c[p].n) > Request2Size(bytes1) + Request2Size(bytes2) + MINSIZE ==>
              q == p + Request2Size(bytes1) / 8 && q in a.live && 8 * a.live[q] == Request2Size(bytes2)
  {
    hide BestServed, BestGap, Picked, NoRoom, Starts, NoExact, Request2Size, Arena.Valid, UserSame;
    PaddedSize(bytes1);
    PaddedSize(bytes2);
    var nb1, nb2 := Request2Size(bytes1), Request2Size(bytes2);
    ghost var c := a.g.c;
    Starting(a);
    assert Left(a.g.lists[UNSORTED], MAX_ITERS) == [];
    if SmallHit(a, nb1) { SmallExact(a, nb1); }
    p := IntMalloc(a, bytes1, sys);
    Starting(a);
    ghost var split := p in c && c[p].kind.Free? && 8 * c[p].n > nb1 + nb2 + MINSIZE;
    if split {
      RestIsNext(a, c, nb1, p, nb2);
      assert 16 * (nb2 / 16) == nb2;
    }
    ghost var l1, c1, lr1 := a.g.lists[UNSORTED], a.g.c, a.lastRemainder;
    q := IntMalloc(a, bytes2, sys);
    if split {
      PickedOnce(c1, l1, lr1, nb2, q, p + nb1 / 8);
    }
  }
}
