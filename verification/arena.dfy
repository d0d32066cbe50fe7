/** The arena: the words of memory, the state beside them, and the macros that move one chunk. */
module Arenas {
  import opened Chunks
  import opened Rings
  import opened Ladders
  import opened Sizes
  import opened Bins
  import opened BinOps
  import opened Binmaps

  lemma PinArith(n: int, pin: bool, b: bool)
    ensures var w := 8 * n + PinBit(pin); w - w % 2 + (if b then 1 else 0) == 8 * n + PinBit(b)
  {
  }

  function Repeat<T>(x: T, n: nat): (s: seq<T>)
    ensures |s| == n && forall i :: 0 <= i < n ==> s[i] == x
  {
    seq(n, _ => x)
  }

  function Filled(n: nat, filler: int -> int): (s: seq<int>)
    ensures |s| == n
  {
    seq(n, i requires 0 <= i < n => filler(i))
  }

  /** The heads of the bins before b point to themselves. */
  ghost predicate EmptyRings(mem: seq<int>, b: int) {
    forall b' {:trigger Linked(mem, Head(b'), [], 0)} :: 1 <= b' < b ==> Linked(mem, Head(b'), [], 0)
  }

  lemma EmptyRing(m0: seq<int>, m1: seq<int>, b: int)
    requires 1 <= b < NBINS && |m0| >= FIRST && EmptyRings(m0, b)
    requires m1 == m0[Head(b) + FD := Head(b)][Head(b) + BK := Head(b)]
    ensures EmptyRings(m1, b + 1)
  {
    forall b' | 1 <= b' < b + 1 ensures Linked(m1, Head(b'), [], 0) {
      if b' < b { assert Linked(m0, Head(b'), [], 0); }
    }
  }

  lemma HeadStore(m0: seq<int>, m1: seq<int>, a: int, v: int)
    requires FIRST <= a < |m0| && m1 == m0[a := v] && EmptyRings(m0, NBINS)
    ensures EmptyRings(m1, NBINS)
  {
    forall b | 1 <= b < NBINS ensures Linked(m1, Head(b), [], 0) {
      assert Linked(m0, Head(b), [], 0);
    }
  }

  /** With empty lists and one chunk, top, everything is in order. */
  lemma InitSound(mem: seq<int>, base: int, g: View, fb: seq<int>)
    requires FIRST <= base && base % 2 == 0 && base + 4 <= |mem| && |mem| % PAGEWORDS == 0
    requires g.c == map[base := Chunk(|mem| - base, Top, true)]
    requires |g.lists| == NBINS && |g.skips| == NBINS && |g.fasts| == NFASTBINS
    requires forall b :: 0 <= b < NBINS ==> g.lists[b] == [] && g.skips[b] == []
    requires |fb| == NFASTBINS && forall i :: 0 <= i < NFASTBINS ==> fb[i] == 0 && g.fasts[i] == []
    requires mem[base + SIZE] == 8 * (|mem| - base) + 1
    requires EmptyRings(mem, NBINS)
    ensures Sound(mem, base, g, fb, 0) && AllListed(g)
  {
    assert |mem| == 2 * (256 * (|mem| / PAGEWORDS));
    assert ChunkOk(mem, g.c, base, base);
    forall b | 1 <= b < NBINS ensures BinAt(mem, g, b) {
      assert Linked(mem, Head(b), [], 0);
    }
    forall i | 0 <= i < NFASTBINS ensures FastAt(mem, g, fb, i) {
    }
  }

  /** malloc_state of the main arena, the tunable parameters it uses, and the words it manages. */
  class Arena {
    /** sbrk_base, global_max_fast, and mp_: top_pad, trim_threshold. */
    const base: int
    const maxFast: int
    const topPad: int
    const trimThreshold: int

    var mem: seq<int>
    var top: int
    var lastRemainder: int
    var fastbins: seq<int>
    var binmap: seq<nat>
    /** have_fastchunks: FASTCHUNKS_BIT of the flags, which the source keeps inverted. */
    var haveFast: bool
    var systemMem: int

    /** The chunks and the contents of the lists; the caller's chunks; the bins marked in the binmap;
      the heads of the fast chains, which differ from `fastbins` only while malloc_consolidate walks
      a chain it has detached. */
    ghost var g: View
    ghost var live: map<int, int>
    ghost var marked: set<int>
    ghost var fb: seq<int>

    /** malloc_init_state, and the first top: memory from the heap base to the end of a page. */
    constructor (start: int, end: int, filler: int -> int, maxFast': int, topPad': int, trimThreshold': int)
      requires FIRST <= start && start % 2 == 0 && start + 4 <= end && end % PAGEWORDS == 0 && 8 * end < TWO64 / 2
      requires 16 <= maxFast' <= 160 && maxFast' % 16 == 0 && 0 <= topPad' < TWO64 / 2 && 0 <= trimThreshold' < TWO64
      ensures Valid() && live == map[] && top == base == start && |mem| == end && !haveFast
      ensures maxFast == maxFast' && topPad == topPad' && trimThreshold == trimThreshold'
      ensures forall b :: 0 <= b < |g.lists| ==> g.lists[b] == []
    {
      base, maxFast, topPad, trimThreshold := start, maxFast', topPad', trimThreshold';
      mem := Filled(end, filler);
      top, lastRemainder, fastbins, binmap := start, 0, Repeat(0, NFASTBINS), Repeat(0, BINMAPSIZE);
      haveFast, systemMem := false, 8 * (end - start);
      g := View(map[start := Chunk(end - start, Top, true)],
                Repeat([], NBINS), Repeat([], NBINS), Repeat([], NFASTBINS));
      live, marked, fb := map[], {}, Repeat(0, NFASTBINS);
      new;
      LinkHeads();
      StampTop();
      InitSound(mem, base, g, fb);
      ClearMap(binmap);
    }

    method StampTop()
      requires FIRST <= top && top + SIZE < |mem| && EmptyRings(mem, NBINS)
      modifies this`mem
      ensures |mem| == |old(mem)| && EmptyRings(mem, NBINS) && mem[top + SIZE] == systemMem + 1
    {
      HeadStore(mem, mem[top + SIZE := systemMem + 1], top + SIZE, systemMem + 1);
      mem := mem[top + SIZE := systemMem + 1];
    }

    /** "Establish circular links for normal bins." */
    method LinkHeads()
      requires |mem| >= FIRST
      modifies this`mem
      ensures |mem| == |old(mem)| && EmptyRings(mem, NBINS)
    {
      for b := 1 to NBINS
        invariant |mem| == |old(mem)| && EmptyRings(mem, b)
      {
        ghost var m0 := mem;
        mem := mem[Head(b) + FD := Head(b)][Head(b) + BK := Head(b)];
        EmptyRing(m0, mem, b);
      }
    }

    /** Tiling, tags and every list but bin `but`. */
    ghost predicate Good(but: int)
      reads this
    {
      Sound(mem, base, g, fb, but) && AllLive(live, g.c)
    }

    /** The invariant between the steps of an operation: everything but what the fields add to it. */
    ghost predicate Steady()
      reads this
    {
      Good(0) && AllListed(g)
    }

    /** The fixed parameters: alignment, and fast sizes of at most MAX_FAST_SIZE. */
    ghost predicate Parameters()
      reads this
    {
      && base % 2 == 0 && 16 <= maxFast <= 160 && maxFast % 16 == 0
      && 0 <= topPad < TWO64 / 2 && 0 <= trimThreshold < TWO64
    }

    /** The fields beside memory: top, binmap, flags and statistics agree with the view. */
    ghost predicate Fields()
      reads this
    {
      && Parameters()
      && IsTop(g.c, top)
      && MapOk(marked, g.lists) && BitsOk(binmap, marked)
      && ((exists i :: 0 <= i < |g.fasts| && g.fasts[i] != []) ==> haveFast)
      && systemMem == 8 * (|mem| - base) && 8 * |mem| < TWO64 / 2 && |mem| % PAGEWORDS == 0
    }

    /** The invariant of the arena. */
    ghost predicate Valid()
      reads this
    {
      Steady() && Fields() && fb == fastbins && NoLimbo(g.c)
    }

    /** One store to a link word of bin `b`, or inside a chunk in limbo. */
    method Store(a: int, v: int, ghost b: int, ghost x: int)
      requires Good(b) && LinkWord(g.c, b, x, a)
      modifies this`mem
      ensures 0 <= a < |old(mem)| && mem == old(mem)[a := v]
      ensures Good(b) && UserSame(live, old(mem), mem) && TagsSame(g.c, old(mem), mem)
    {
      LinkWrite(mem, base, g, fb, b, x, a, v);
      LinkNotUser(mem, base, g.c, live, b, x, a, v);
      LinkNotTag(mem, base, g.c, b, x, a, v);
      mem := mem[a := v];
    }

    /** Threads `v` between `k` and `f` on the skip list of bin `b`. */
    method Thread(k: int, f: int, v: int, ghost b: int)
      requires Good(b)
      requires LinkWord(g.c, b, v, v + FD_NEXTSIZE) && LinkWord(g.c, b, v, v + BK_NEXTSIZE)
      requires LinkWord(g.c, b, k, k + FD_NEXTSIZE) && LinkWord(g.c, b, f, f + BK_NEXTSIZE)
      requires InMem(mem, k) && InMem(mem, f) && InMem(mem, v)
      modifies this`mem
      ensures Good(b) && mem == Threaded(old(mem), k, f, v)
      ensures UserSame(live, old(mem), mem) && TagsSame(g.c, old(mem), mem)
    {
      Store(v + FD_NEXTSIZE, f, b, v);
      Store(v + BK_NEXTSIZE, k, b, v);
      Store(f + BK_NEXTSIZE, v, b, f);
      Store(k + FD_NEXTSIZE, v, b, k);
    }

    method Unthread(k: int, f: int, ghost b: int)
      requires Good(b) && LinkWord(g.c, b, f, f + BK_NEXTSIZE) && LinkWord(g.c, b, k, k + FD_NEXTSIZE)
      requires InMem(mem, k) && InMem(mem, f)
      modifies this`mem
      ensures Good(b) && mem == old(mem)[f + BK_NEXTSIZE := k][k + FD_NEXTSIZE := f]
      ensures UserSame(live, old(mem), mem) && TagsSame(g.c, old(mem), mem)
    {
      Store(f + BK_NEXTSIZE, k, b, f);
      Store(k + FD_NEXTSIZE, f, b, k);
    }

    /** The second half of unlink, for a chunk on the skip list. */
    method Unskip(p: int, fd: int, ghost m0: seq<int>, ghost b: int, ghost l: seq<int>, ghost s: seq<int>, ghost j: int)
      returns (ghost t: seq<int>)
      requires Good(b) && NSMALLBINS <= b < NBINS && BinOk(m0, g.c, b, l, s) && Tiled(m0, g.c, base)
      requires 0 <= j < |l| && l[j] == p && p in s && fd == Node(Head(b), l, j + 2)
      requires Linked(m0, Head(b), l, j) && Linked(m0, Head(b), l, j + 1) && mem == Unlinked(m0, Head(b), l, j)
      modifies this`mem
      ensures Good(b) && p in g.c && BinOk(mem, SetKind(g.c, p, Limbo), b, Without(l, j), t)
      ensures UserSame(live, old(mem), mem) && TagsSame(g.c, old(mem), mem)
    {
      ghost var c := g.c;
      ghost var i :| 0 <= i < |s| && s[i] == p;
      UnskipReads(m0, mem, base, c, b, l, s, j, i);
      var fdn, bkn := mem[p + FD_NEXTSIZE], mem[p + BK_NEXTSIZE];
      assert mem[fdn + BK_NEXTSIZE] == p && mem[bkn + FD_NEXTSIZE] == p;
      NextSkip(m0, mem, base, g, fb, b, l, s, j);
      if mem[fd + FD_NEXTSIZE] == 0 {
        SkipWords(m0, base, c, b, l, s, fd);
        TakeOffReplace(m0, base, c, b, l, s, j, i);
        t := s[i := fd];
        if fdn == p {
          Thread(fd, fd, fd, b);
        } else {
          Thread(bkn, fdn, fd, b);
        }
      } else {
        TakeOffFirst(m0, base, c, b, l, s, j, i);
        t := Without(s, i);
        Unthread(bkn, fdn, b);
      }
    }

    /** The first half of unlink: the two stores that close the list over `p`. */
    method Bypass(p: int, ghost b: int, ghost l: seq<int>, ghost s: seq<int>, ghost j: int) returns (fd: int)
      requires Good(b) && 1 <= b < NBINS && BinOk(mem, g.c, b, l, s) && 0 <= j < |l| && l[j] == p
      modifies this`mem
      ensures Good(b) && fd == Node(Head(b), l, j + 2)
      ensures Linked(old(mem), Head(b), l, j) && Linked(old(mem), Head(b), l, j + 1)
      ensures mem == Unlinked(old(mem), Head(b), l, j)
      ensures UserSame(live, old(mem), mem) && TagsSame(g.c, old(mem), mem)
    {
      UnlinkReads(mem, base, g.c, b, l, s, j);
      fd := mem[p + FD];
      var bk := mem[p + BK];
      assert mem[fd + BK] == p && mem[bk + FD] == p;  // corrupted double-linked list
      Store(fd + BK, bk, b, fd);
      Store(bk + FD, fd, b, bk);
    }

    /** unlink: takes a chunk off its bin, nextsize pointers and all, and leaves it in limbo. */
    method Unlink(p: int) returns (ghost b: int, ghost j: int)
      requires Steady() && p in g.c && g.c[p].kind.Free?
      modifies this`mem, this`g
      ensures Steady()
      ensures g.c == SetKind(old(g.c), p, Limbo) && g.fasts == old(g.fasts)
      ensures 1 <= b < NBINS && old(g.c[p].kind) == Free(b) && 0 <= j < |old(g.lists[b])| && old(g.lists[b])[j] == p
      ensures g.lists == old(g.lists)[b := Without(old(g.lists[b]), j)]
      ensures UserSame(live, old(mem), mem) && TagsSame(old(g.c), old(mem), mem)
    {
      assert Listed(g, p);
      b := g.c[p].kind.bin;
      assert BinAt(mem, g, b);
      ghost var l, s, m0, c := g.lists[b], g.skips[b], mem, g.c;
      j :| 0 <= j < |l| && l[j] == p;
      UnlinkReads(m0, base, c, b, l, s, j);
      var fd := Bypass(p, b, l, s, j);
      ghost var t := s;
      if mem[p + SIZE] >= MIN_LARGE_SIZE && mem[p + FD_NEXTSIZE] != 0 {
        t := Unskip(p, fd, m0, b, l, s, j);
      } else {
        TakeOff(m0, base, c, b, l, s, j);
      }
      Unlisting(mem, base, g, fb, b, j, t, p);
      g := View(SetKind(c, p, Limbo), g.lists[b := Without(l, j)], g.skips[b := t], g.fasts);
    }

    // ---------------------------------------------------------------- tags

    /** set_head or set_foot, on a chunk in limbo. */
    method StoreTag(p: int, a: int, v: int)
      requires Good(0) && p in g.c && g.c[p].kind.Limbo?
      requires a == p + SIZE || (a == p + g.c[p].n && a < |mem|)
      modifies this`mem
      ensures 0 <= a < |old(mem)| && mem == old(mem)[a := v]
      ensures Good(0) && UserSame(live, old(mem), mem)
    {
      LimboWrite(mem, g.c, base, p, a, v);
      assert ChunkOk(mem, g.c, base, p);
      TagStore(mem, base, g, fb, if a == p + SIZE then p else a, a, v);
      TagNotUser(mem, base, g.c, live, p, a, v);
      mem := mem[a := v];
    }

    /** set_inuse_bit_at_offset and clear_inuse_bit_at_offset, behind a chunk in limbo. */
    method StorePin(p: int, q: int, b: bool)
      requires Steady() && p in g.c && g.c[p].kind.Limbo? && q == p + g.c[p].n
      requires q in g.c && !g.c[q].kind.Limbo? && (b || (!g.c[q].kind.Free? && !g.c[q].kind.Top?))
      modifies this`mem, this`g
      ensures 0 <= q && q + SIZE < |old(mem)| && mem == old(mem)[q + SIZE := 8 * old(g.c[q].n) + PinBit(b)]
      ensures g == old(g).(c := old(g.c)[q := old(g.c[q]).(pin := b)])
      ensures Steady() && UserSame(live, old(mem), mem)
    {
      ghost var c := g.c;
      assert ChunkOk(mem, c, base, p) && ChunkOk(mem, c, base, q);
      PinWrite(mem, c, base, p, b);
      TagNotUser(mem, base, c, live, q, q + SIZE, 8 * c[q].n + PinBit(b));
      PinArith(c[q].n, c[q].pin, b);
      PinSound(mem, base, g, fb, q, b);
      var w := mem[q + SIZE];
      mem := mem[q + SIZE := w - w % 2 + if b then 1 else 0];
      g := g.(c := c[q := c[q].(pin := b)]);
    }

    // ---------------------------------------------------------------- putting a chunk on a bin

    method LinkStores(p: int, bck: int, fwd: int, ghost b: int)
      requires Good(b) && p in g.c && g.c[p].kind.Limbo? && 0 <= p && p + BK < |mem|
      requires LinkWord(g.c, b, bck, bck + FD) && LinkWord(g.c, b, fwd, fwd + BK)
      modifies this`mem
      ensures Good(b) && UserSame(live, old(mem), mem) && TagsSame(g.c, old(mem), mem)
      ensures 0 <= bck && bck + FD < |mem| && 0 <= fwd + BK < |mem|
      ensures mem == old(mem)[p + BK := bck][p + FD := fwd][fwd + BK := p][bck + FD := p]
    {
      hide AllLive;
      assert ChunkOk(mem, g.c, base, p);
      LinkMisses(mem, base, g.c, b, bck, bck + FD);
      Store(p + BK, bck, b, p);
      Store(p + FD, fwd, b, p);
      Store(fwd + BK, p, b, fwd);
      Store(bck + FD, p, b, bck);
    }

    /** The four stores that put `p` between two nodes of bin `b`. */
    method Link(p: int, bck: int, fwd: int, ghost b: int, ghost j: int, ghost t: seq<int>)
      requires 1 <= b < NBINS && Good(b) && AllListed(g)
      requires p in g.c && g.c[p].kind.Limbo? && Ready(mem, g.c, p, Free(b)) && p + BK < |mem|
      requires 0 <= j <= |g.lists[b]| && Linked(mem, Head(b), g.lists[b], j)
      requires bck == Node(Head(b), g.lists[b], j) && fwd == Node(Head(b), g.lists[b], j + 1)
      requires forall x {:trigger Member(g.c, b, x)} :: x in g.lists[b] ==> Member(g.c, b, x)
      requires BinOk(Inserted(mem, Head(b), g.lists[b], j, p), SetKind(g.c, p, Free(b)), b, With(g.lists[b], j, p), t)
      modifies this`mem, this`g
      ensures Steady()
      ensures g == View(SetKind(old(g.c), p, Free(b)), old(g.lists)[b := With(old(g.lists[b]), j, p)],
                        old(g.skips)[b := t], old(g.fasts))
      ensures UserSame(live, old(mem), mem) && TagsSame(old(g.c), old(mem), mem)
    {
      ghost var l := g.lists[b];
      NodesLink(mem, base, g.c, b, l, j);
      LinkStores(p, bck, fwd, b);
      Listing(mem, base, g, fb, b, j, t, p);
      g := View(SetKind(g.c, p, Free(b)), g.lists[b := With(l, j, p)], g.skips[b := t], g.fasts);
    }

    // ---------------------------------------------------------------- changing hands

    /** A chunk in the caller's hands, or top, is taken into limbo. */
    ghost method Grasp(p: int)
      requires Steady() && p in g.c && (g.c[p].kind.Live? || g.c[p].kind.Top?)
      modifies this`g, this`live
      ensures Steady() && g == old(g).(c := SetKind(old(g.c), p, Limbo)) && live == old(live) - {p}
    {
      Rekind(mem, base, g, fb, p, Limbo);
      g := g.(c := SetKind(g.c, p, Limbo));
      live := live - {p};
    }

    /** A chunk in limbo is handed out, or becomes top. */
    ghost method Settle(p: int, kind: Kind)
      requires Steady() && p in g.c && g.c[p].kind.Limbo? && (kind.Live? || kind.Top?) && Ready(mem, g.c, p, kind)
      modifies this`g, this`live
      ensures Steady() && g == old(g).(c := SetKind(old(g.c), p, kind))
      ensures live == if kind.Live? then old(live)[p := old(g.c[p].n)] else old(live)
    {
      Rekind(mem, base, g, fb, p, kind);
      if kind.Live? { live := live[p := g.c[p].n]; }
      g := g.(c := SetKind(g.c, p, kind));
    }

    /** Two neighbours in limbo become one chunk. */
    ghost method Fuse(p: int)
      requires Steady() && p in g.c && g.c[p].kind.Limbo?
      requires p + g.c[p].n in g.c && g.c[p + g.c[p].n].kind.Limbo?
      modifies this`g
      ensures Steady() && g == old(g).(c := Merge(old(g.c), p))
    {
      Remerge(mem, base, g, fb, p);
      g := g.(c := Merge(g.c, p));
    }

    /** A chunk in limbo becomes two. */
    ghost method Cut(p: int, m: int, pin: bool)
      requires Steady() && p in g.c && g.c[p].kind.Limbo? && 4 <= m <= g.c[p].n - 4 && m % 2 == 0
      modifies this`g
      ensures Steady() && g == old(g).(c := Split(old(g.c), p, m, pin)) && p + m !in old(g.c)
    {
      Resplit(mem, base, g, fb, p, m, pin);
      g := g.(c := Split(g.c, p, m, pin));
    }
  }
}
