/** mALLINFo: what the arena holds, counted by walking its lists, accounts for every word; the int fields
  that report it hold no more than 31 bits of it. */
module Accounts {
  import Arith
  import opened Chunks
  import opened Rings
  import opened Sizes
  import opened Bins
  import opened BinOps
  import opened Arenas

  // ------------------------------------------------------------------ words of sets of chunks

  ghost function SizeOf(c: Chunks, x: int): int {
    if x in c then c[x].n else 0
  }

  /** The sizes of the chunks in `s` below address k, added up. */
  ghost function Words(c: Chunks, s: set<int>, k: nat): int {
    if k == 0 then 0 else Words(c, s, k - 1) + if k - 1 in s then SizeOf(c, k - 1) else 0
  }

  lemma {:induction false} WordsTake(c: Chunks, s: set<int>, x: int, k: nat)
    requires x in s && x >= 0
    ensures Words(c, s, k) == Words(c, s - {x}, k) + if x < k then SizeOf(c, x) else 0
  {
    if k > 0 { WordsTake(c, s, x, k - 1); }
  }

  lemma {:induction false} WordsUnion(c: Chunks, s: set<int>, t: set<int>, k: nat)
    requires s !! t
    ensures Words(c, s + t, k) == Words(c, s, k) + Words(c, t, k)
  {
    if k > 0 { WordsUnion(c, s, t, k - 1); }
  }

  lemma {:induction false} WordsNone(c: Chunks, k: nat)
    ensures Words(c, {}, k) == 0
  {
    if k > 0 { WordsNone(c, k - 1); }
  }

  ghost function From(c: Chunks, p: int): set<int> {
    set x | x in c && x >= p
  }

  /** Conservation: the chunks from any one on fill the heap up to the break. */
  lemma {:induction false} WordsFrom(mem: seq<int>, c: Chunks, base: int, p: int)
    requires Tiled(mem, c, base) && p in c
    ensures Words(c, From(c, p), |mem|) == |mem| - p
    decreases |mem| - p
  {
    assert ChunkOk(mem, c, base, p);
    var q := p + c[p].n;
    WordsTake(c, From(c, p), p, |mem|);
    forall x | x in c && x > p ensures q <= x < |mem| {
      assert Apart(c, p, x) && ChunkOk(mem, c, base, x);
    }
    assert From(c, p) - {p} == From(c, q);
    if q < |mem| {
      WordsFrom(mem, c, base, q);
    } else {
      assert From(c, q) == {};
      WordsNone(c, |mem|);
    }
  }

  ghost function Lives(c: Chunks): set<int> {
    set x | x in c && c[x].kind.Live?
  }

  /** The fast chunks of the fastbins before i. */
  ghost function Fasts(c: Chunks, i: int): set<int> {
    set x | x in c && c[x].kind.Fast? && FastIndex(8 * c[x].n) < i
  }

  /** The free chunks in the bins before b. */
  ghost function Binned(c: Chunks, b: int): set<int> {
    set x | x in c && c[x].kind.Free? && c[x].kind.bin < b
  }

  /** The heap divides into live, fast and binned chunks and top. */
  lemma Divided(a: Arena)
    requires a.Valid()
    ensures var c := a.g.c;
      var k := |a.mem|;
      var idle := Words(c, Fasts(c, NFASTBINS), k) + Words(c, Binned(c, NBINS), k) + c[a.top].n;
      Words(c, Lives(c), k) + idle == k - a.base
  {
    var c := a.g.c;
    var l, f, b := Lives(c), Fasts(c, NFASTBINS), Binned(c, NBINS);
    forall x | x in c
      ensures x >= a.base && (x in l || x in f || x in b || x == a.top)
      ensures x == a.top ==> x !in l && x !in f && x !in b
    {
      assert ChunkOk(a.mem, c, a.base, x) && ChunkOk(a.mem, c, a.base, a.top) && Listed(a.g, x);
      assert Apart(c, x, a.top) && Apart(c, a.top, x);
    }
    assert From(c, a.base) == l + f + b + {a.top};
    WordsFrom(a.mem, c, a.base, a.base);
    WordsUnion(c, l, f, |a.mem|);
    WordsUnion(c, l + f, b, |a.mem|);
    WordsUnion(c, l + f + b, {a.top}, |a.mem|);
    WordsTake(c, {a.top}, a.top, |a.mem|);
    assert {a.top} - {a.top} == {};
    WordsNone(c, |a.mem|);
  }

  // ------------------------------------------------------------------ int fields

  const TWO31 := 0x8000_0000

  /** A 64-bit sum stored in an int: its low 32 bits, read as signed. */
  function Int32(x: int): (r: int)
    ensures -TWO31 <= r < TWO31
  {
    (x + TWO31) % (2 * TWO31) - TWO31
  }

  /** The int shows the value, as far as 31 bits go. */
  ghost predicate Shows(field: int, value: int) {
    field == Int32(value) && (field == value <==> value < TWO31)
  }

  /** A field is right exactly for values below 2 to the 31st. */
  lemma Int32Exact(x: int)
    requires 0 <= x
    ensures Shows(Int32(x), x)
  {
    if x < TWO31 { Arith.ModUnique(x + TWO31, 2 * TWO31, 0, x + TWO31); }
  }

  /** An int counter may wrap at every step or once at the end. */
  lemma Int32Sum(x: int, y: int)
    ensures Int32(Int32(x) + y) == Int32(x + y)
  {
    var n := 2 * TWO31;
    var r := (x + y + TWO31) % n;
    Arith.ModUnique(Int32(x) + y + TWO31, n, (x + y + TWO31) / n - (x + TWO31) / n, r);
  }

  /** At 2 to the 31st the field turns negative, and stays so for as long again. */
  lemma Int32Negative(x: int)
    requires TWO31 <= x < 2 * TWO31
    ensures Int32(x) == x - 2 * TWO31 < 0
  {
    Arith.ModUnique(x + TWO31, 2 * TWO31, 1, x - TWO31);
  }

  // ------------------------------------------------------------------ walking the lists

  ghost function Elements(l: seq<int>): set<int> {
    set x | x in l
  }

  /** The element at k of the rest of a list is counted once. */
  lemma ElementsHead(c: Chunks, l: seq<int>, k: int, m: nat)
    requires Distinct(l) && 0 <= k < |l| && 0 <= l[k] < m
    ensures Words(c, Elements(l[k..]), m) == SizeOf(c, l[k]) + Words(c, Elements(l[k + 1..]), m)
    ensures |Elements(l[k..])| == 1 + |Elements(l[k + 1..])|
  {
    var x := l[k];
    assert l[k..] == [x] + l[k + 1..];
    assert x !in l[k + 1..];
    WordsTake(c, Elements(l[k..]), x, m);
    assert Elements(l[k..]) - {x} == Elements(l[k + 1..]);
  }

  /** So is the element at the end of the beginning. */
  lemma ElementsLast(c: Chunks, l: seq<int>, k: int, m: nat)
    requires Distinct(l) && 0 < k <= |l| && 0 <= l[k - 1] < m
    ensures Words(c, Elements(l[..k]), m) == SizeOf(c, l[k - 1]) + Words(c, Elements(l[..k - 1]), m)
    ensures |Elements(l[..k])| == 1 + |Elements(l[..k - 1])|
  {
    var x := l[k - 1];
    assert l[..k] == l[..k - 1] + [x];
    assert x !in l[..k - 1];
    WordsTake(c, Elements(l[..k]), x, m);
    assert Elements(l[..k]) - {x} == Elements(l[..k - 1]);
  }

  /** One step along a fastbin. */
  lemma FastStep(a: Arena, i: int, k: int)
    requires a.Valid() && 0 <= i < NFASTBINS && 0 <= k < |a.g.fasts[i]|
    ensures var l := a.g.fasts[i]; var p := l[k];
      && 0 < p && p + FD < |a.mem| && SizeAt(a.mem, p) == 8 * SizeOf(a.g.c, p)
      && a.mem[p + FD] == (if k + 1 < |l| then l[k + 1] else 0)
      && Words(a.g.c, Elements(l[k..]), |a.mem|) == SizeOf(a.g.c, p) + Words(a.g.c, Elements(l[k + 1..]), |a.mem|)
      && |Elements(l[k..])| == 1 + |Elements(l[k + 1..])|
  {
    var l := a.g.fasts[i];
    assert FastAt(a.mem, a.g, a.fb, i);
    assert FastLinked(a.mem, l, k) && l[k] in l && FastMember(a.g.c, i, l[k]);
    HeadOf(a.mem, a.g.c, a.base, l[k]);
    ElementsHead(a.g.c, l, k, |a.mem|);
  }

  /** Along one fastbin: its chunks are added to an int counter, and their bytes to a sum. */
  method WalkFast(a: Arena, i: int, count0: int, bytes0: int) returns (count: int, bytes: int)
    requires a.Valid() && 0 <= i < NFASTBINS && count0 == Int32(count0)
    ensures count == Int32(count0 + |Elements(a.g.fasts[i])|)
    ensures bytes == bytes0 + 8 * Words(a.g.c, Elements(a.g.fasts[i]), |a.mem|)
  {
    hide Int32, Words;
    ghost var l, k := a.g.fasts[i], 0;
    assert FastAt(a.mem, a.g, a.fb, i);
    count, bytes := count0, bytes0;
    var p := a.fastbins[i];
    assert l[0..] == l;
    if l != [] { FastStep(a, i, 0); }
    while p != 0
      invariant 0 <= k <= |l| && p == (if k < |l| then l[k] else 0)
      invariant count == Int32(count0 + |Elements(l)| - |Elements(l[k..])|)
      invariant bytes == bytes0 + 8 * (Words(a.g.c, Elements(l), |a.mem|) - Words(a.g.c, Elements(l[k..]), |a.mem|))
      decreases |l| - k
    {
      FastStep(a, i, k);
      Int32Sum(count0 + |Elements(l)| - |Elements(l[k..])|, 1);
      count, bytes := Int32(count + 1), bytes + SizeAt(a.mem, p);
      p := a.mem[p + FD];
      k := k + 1;
    }
    if k < |l| { FastStep(a, i, k); }
    assert Elements(l[k..]) == {};
    WordsNone(a.g.c, |a.mem|);
  }

  /** One step back along a bin. */
  lemma BinStep(a: Arena, b: int, k: int)
    requires a.Valid() && 1 <= b < NBINS && 0 < k <= |a.g.lists[b]|
    ensures var l := a.g.lists[b]; var p := l[k - 1];
      && 0 <= p && p + BK < |a.mem| && SizeAt(a.mem, p) == 8 * SizeOf(a.g.c, p)
      && a.mem[p + BK] == Node(Head(b), l, k - 1) && p != Head(b)
      && Words(a.g.c, Elements(l[..k]), |a.mem|) == SizeOf(a.g.c, p) + Words(a.g.c, Elements(l[..k - 1]), |a.mem|)
      && |Elements(l[..k])| == 1 + |Elements(l[..k - 1])|
  {
    var l := a.g.lists[b];
    assert BinAt(a.mem, a.g, b);
    assert Linked(a.mem, Head(b), l, k - 1) && l[k - 1] in l;
    MemberAt(a.mem, a.base, a.g.c, b, l, a.g.skips[b], l[k - 1]);
    HeadOf(a.mem, a.g.c, a.base, l[k - 1]);
    ElementsLast(a.g.c, l, k, |a.mem|);
  }

  /** Along one bin, from its end. */
  method WalkBin(a: Arena, b: int, count0: int, bytes0: int) returns (count: int, bytes: int)
    requires a.Valid() && 1 <= b < NBINS && count0 == Int32(count0)
    ensures count == Int32(count0 + |Elements(a.g.lists[b])|)
    ensures bytes == bytes0 + 8 * Words(a.g.c, Elements(a.g.lists[b]), |a.mem|)
  {
    hide Int32, Words;
    ghost var l := a.g.lists[b];
    assert BinAt(a.mem, a.g, b);
    ghost var k := |l|;
    assert Linked(a.mem, Head(b), l, k);
    count, bytes := count0, bytes0;
    var p := a.mem[Head(b) + BK];
    assert l[..k] == l;
    while p != Head(b)
      invariant 0 <= k <= |l| && p == Node(Head(b), l, k)
      invariant count == Int32(count0 + |Elements(l)| - |Elements(l[..k])|)
      invariant bytes == bytes0 + 8 * (Words(a.g.c, Elements(l), |a.mem|) - Words(a.g.c, Elements(l[..k]), |a.mem|))
      decreases k
    {
      BinStep(a, b, k);
      Int32Sum(count0 + |Elements(l)| - |Elements(l[..k])|, 1);
      count, bytes := Int32(count + 1), bytes + SizeAt(a.mem, p);
      p := a.mem[p + BK];
      k := k - 1;
    }
    if k > 0 { BinStep(a, b, k); }
    assert Elements(l[..k]) == {};
    WordsNone(a.g.c, |a.mem|);
  }

  // ------------------------------------------------------------------ mALLINFo

  lemma FastsGrow(a: Arena, i: int)
    requires a.Valid() && 0 <= i < NFASTBINS
    ensures var c, t := a.g.c, Elements(a.g.fasts[i]); Fasts(c, i) !! t && Fasts(c, i + 1) == Fasts(c, i) + t
  {
    assert FastAt(a.mem, a.g, a.fb, i);
    forall x | x in a.g.c && a.g.c[x].kind.Fast? ensures x in a.g.fasts[i] <==> FastIndex(8 * a.g.c[x].n) == i {
      assert Listed(a.g, x);
      assert x in a.g.fasts[i] ==> FastMember(a.g.c, i, x);
    }
    forall x | x in a.g.fasts[i] ensures x in a.g.c && a.g.c[x].kind.Fast? { assert FastMember(a.g.c, i, x); }
  }

  lemma NoFasts(a: Arena)
    requires a.Valid()
    ensures Fasts(a.g.c, 0) == {} && Binned(a.g.c, 1) == {}
  {
    forall x | x in a.g.c && (a.g.c[x].kind.Fast? || a.g.c[x].kind.Free?)
      ensures a.g.c[x].kind.Fast? ==> FastIndex(8 * a.g.c[x].n) >= 0
      ensures a.g.c[x].kind.Free? ==> a.g.c[x].kind.bin >= 1
    {
      assert Listed(a.g, x);
    }
  }

  lemma BinnedGrow(a: Arena, b: int)
    requires a.Valid() && 1 <= b < NBINS
    ensures var c, t := a.g.c, Elements(a.g.lists[b]); Binned(c, b) !! t && Binned(c, b + 1) == Binned(c, b) + t
  {
    assert BinAt(a.mem, a.g, b);
    forall x | x in a.g.c && a.g.c[x].kind.Free? ensures x in a.g.lists[b] <==> a.g.c[x].kind.bin == b {
      assert Listed(a.g, x);
      assert x in a.g.lists[b] ==> Member(a.g.c, b, x);
    }
    forall x | x in a.g.lists[b] ensures x in a.g.c && a.g.c[x].kind.Free? { assert Member(a.g.c, b, x); }
  }

  /** struct mallinfo, without the mmap fields: bytes, and numbers of chunks, all of them ints. */
  datatype Info = Info(smblks: int, ordblks: int, fordblks: int, uordblks: int, arena: int, fsmblks: int, keepcost: int)

  /** All fastbins. */
  method CountFast(a: Arena) returns (count: int, bytes: int)
    requires a.Valid()
    ensures var s := Fasts(a.g.c, NFASTBINS); count == Int32(|s|) && bytes == 8 * Words(a.g.c, s, |a.mem|)
  {
    count, bytes := 0, 0;
    NoFasts(a);
    WordsNone(a.g.c, |a.mem|);
    for i := 0 to NFASTBINS
      invariant count == Int32(|Fasts(a.g.c, i)|) && bytes == 8 * Words(a.g.c, Fasts(a.g.c, i), |a.mem|)
    {
      FastsGrow(a, i);
      WordsUnion(a.g.c, Fasts(a.g.c, i), Elements(a.g.fasts[i]), |a.mem|);
      Int32Sum(|Fasts(a.g.c, i)|, 0);
      Int32Sum(|Fasts(a.g.c, i)|, |Elements(a.g.fasts[i])|);
      count, bytes := WalkFast(a, i, count, bytes);
    }
  }

  /** Top, all regular bins and the unsorted list. */
  method CountBins(a: Arena) returns (count: int, bytes: int)
    requires a.Valid()
    ensures var s := Binned(a.g.c, NBINS); count == Int32(1 + |s|) && bytes == 8 * Words(a.g.c, s, |a.mem|)
  {
    count, bytes := 1, 0;
    NoFasts(a);
    WordsNone(a.g.c, |a.mem|);
    for i := 1 to NBINS
      invariant count == Int32(1 + |Binned(a.g.c, i)|) && bytes == 8 * Words(a.g.c, Binned(a.g.c, i), |a.mem|)
    {
      BinnedGrow(a, i);
      WordsUnion(a.g.c, Binned(a.g.c, i), Elements(a.g.lists[i]), |a.mem|);
      Int32Sum(1 + |Binned(a.g.c, i)|, 0);
      Int32Sum(1 + |Binned(a.g.c, i)|, |Elements(a.g.lists[i])|);
      count, bytes := WalkBin(a, i, count, bytes);
    }
  }

  lemma LivesKeys(a: Arena)
    requires a.Valid()
    ensures Lives(a.g.c) == a.live.Keys
  {
    forall x ensures x in Lives(a.g.c) <==> x in a.live.Keys {
      assert x in a.live ==> x in a.g.c && a.g.c[x].kind.Live?;
    }
  }

  lemma {:induction false} WordsPositive(c: Chunks, s: set<int>, k: nat)
    requires forall x :: x in c ==> c[x].n >= 0
    ensures Words(c, s, k) >= 0
  {
    if k > 0 { WordsPositive(c, s, k - 1); }
  }

  /** The bytes in the caller's hands. */
  ghost function InUse(a: Arena): int
    reads a
  {
    8 * Words(a.g.c, a.live.Keys, |a.mem|)
  }

  /** No sum is negative. */
  lemma Sums(a: Arena)
    requires a.Valid()
    ensures var c := a.g.c; var fast := 8 * Words(c, Fasts(c, NFASTBINS), |a.mem|);
      && 0 <= InUse(a) <= a.systemMem && 0 <= fast && 0 <= 8 * c[a.top].n
  {
    var c, k := a.g.c, |a.mem|;
    forall x | x in c ensures c[x].n >= 0 { assert ChunkOk(a.mem, c, a.base, x); }
    WordsPositive(c, Fasts(c, NFASTBINS), k);
    WordsPositive(c, Binned(c, NBINS), k);
    WordsPositive(c, a.live.Keys, k);
    assert a.top in c;
    Divided(a);
    LivesKeys(a);
  }

  /** mALLINFo: what is not on a list nor top is exactly what the caller holds. Every field shows its sum or
    number, and is right if and only if that is below 2 to the 31st. */
  method MallInfo(a: Arena) returns (mi: Info)
    requires a.Valid()
    ensures Shows(mi.uordblks, InUse(a)) && Shows(mi.fordblks, a.systemMem - InUse(a)) && Shows(mi.arena, a.systemMem)
    ensures mi.arena == Int32(mi.uordblks + mi.fordblks)
    ensures Shows(mi.smblks, |Fasts(a.g.c, NFASTBINS)|) && Shows(mi.ordblks, 1 + |Binned(a.g.c, NBINS)|)
    ensures Shows(mi.fsmblks, 8 * Words(a.g.c, Fasts(a.g.c, NFASTBINS), |a.mem|))
    ensures Shows(mi.keepcost, 8 * a.g.c[a.top].n)
  {
    hide Int32, Words, BinIndex, FastIndex;
    HeadOf(a.mem, a.g.c, a.base, a.top);
    var avail := SizeAt(a.mem, a.top);
    var nfastblocks, fastavail := CountFast(a);
    avail := avail + fastavail;
    var nblocks, binavail := CountBins(a);
    avail := avail + binavail;
    Divided(a);
    LivesKeys(a);
    Sums(a);
    Int32Exact(avail);
    Int32Exact(a.systemMem - avail);
    Int32Exact(a.systemMem);
    Int32Exact(fastavail);
    Int32Exact(SizeAt(a.mem, a.top));
    Int32Exact(|Fasts(a.g.c, NFASTBINS)|);
    Int32Exact(1 + |Binned(a.g.c, NBINS)|);
    Int32Sum(a.systemMem - avail, Int32(avail));
    Int32Sum(avail, a.systemMem - avail);
    mi := Info(nfastblocks, nblocks, Int32(avail), Int32(a.systemMem - avail), Int32(a.systemMem), Int32(fastavail),
      Int32(SizeAt(a.mem, a.top)));
  }
}
