/** iALLOc: one aggregate chunk carved into n adjacent elements, and a chunk for the array of pointers. */
module Iallocs {
  import opened Chunks
  import opened Sizes
  import opened Bins
  import opened Aggregates
  import opened Arenas
  import opened System
  import opened Frees
  import opened Mallocs
  import opened Reallocs

  // ------------------------------------------------------------------ carving

  /** The part of the aggregate not yet carved, in limbo between chunks that know it in use. */
  ghost predicate Carving(a: Arena, p: int, rest: int)
    reads a
  {
    && a.Steady() && a.Fields() && a.fb == a.fastbins && OnlyLimbo(a.g.c, p) && p !in a.live
    && rest == 8 * a.g.c[p].n && a.g.c[p].pin && p + a.g.c[p].n in a.g.c && a.g.c[p + a.g.c[p].n].pin
    && p + a.g.c[p].n < |a.mem|
  }

  /** The low end becomes an element. */
  method CarveNext(a: Arena, p: int, rest: int, size: int) returns (p': int)
    requires Carving(a, p, rest) && Padded(size) && size + MINSIZE <= rest
    modifies a`mem, a`g, a`live
    ensures Carving(a, p', rest - size) && p' == p + size / 8 && a.live == old(a.live)[p := size / 8]
    ensures UserSame(old(a.live), old(a.mem), a.mem) && |a.mem| == |old(a.mem)|
  {
    assert ChunkOk(a.mem, a.g.c, a.base, p) && ChunkOk(a.mem, a.g.c, a.base, a.top);
    a.Cut(p, size / 8, true);
    a.StoreTag(p, p + SIZE, size + 1);
    p' := p + size / 8;
    a.Settle(p, Live);
  }

  /** "The final element absorbs any overallocation slop." */
  method CarveLast(a: Arena, p: int, rest: int)
    requires Carving(a, p, rest)
    modifies a`mem, a`g, a`live
    ensures a.Valid() && a.live == old(a.live)[p := rest / 8]
    ensures UserSame(old(a.live), old(a.mem), a.mem) && |a.mem| == |old(a.mem)|
  {
    assert ChunkOk(a.mem, a.g.c, a.base, p) && ChunkOk(a.mem, a.g.c, a.base, a.top);
    a.StoreTag(p, p + SIZE, rest + 1);
    a.Settle(p, Live);
  }

  /** "Allocate the pointer array as final part of chunk." */
  method CarveArray(a: Arena, p: int, rest: int, contents: int) returns (table: int)
    requires Carving(a, p, rest) && Padded(contents) && contents + MINSIZE <= rest
    modifies a`mem, a`g, a`live
    ensures Carving(a, p, contents) && table == p + contents / 8 && table !in old(a.live)
    ensures a.live == old(a.live)[table := (rest - contents) / 8]
    ensures UserSame(old(a.live), old(a.mem), a.mem)
  {
    hide BinIndex;
    assert ChunkOk(a.mem, a.g.c, a.base, p) && ChunkOk(a.mem, a.g.c, a.base, a.top);
    a.Cut(p, contents / 8, true);
    table := p + contents / 8;
    a.StoreTag(table, table + SIZE, (rest - contents) + 1);
    a.Settle(table, Live);
  }

  // ------------------------------------------------------------------ the elements and their pointers

  /** The pointer array holds the addresses of the elements. */
  ghost predicate Noted(mem: seq<int>, table: int, elems: seq<int>) {
    && 0 <= table && table + FD + |elems| <= |mem|
    && forall j :: 0 <= j < |elems| ==> mem[table + FD + j] == 8 * (elems[j] + FD)
  }

  lemma NotedKept(live: map<int, int>, m0: seq<int>, m1: seq<int>, table: int, elems: seq<int>)
    requires UserSame(live, m0, m1) && table in live && |elems| < live[table] && Noted(m0, table, elems) && |m1| == |m0|
    ensures Noted(m1, table, elems)
  {
    forall j | 0 <= j < |elems| ensures m1[table + FD + j] == 8 * (elems[j] + FD) {
      assert UserWord(live, table, table + FD + j);
    }
  }

  /** `marray[i] = chunk2mem(p)` */
  method Note(a: Arena, table: int, i: int, p: int, ghost rest: int, ghost elems: seq<int>)
    requires Carving(a, p, rest) && table in a.live && 0 <= i == |elems| && i + 1 < a.live[table]
    requires Noted(a.mem, table, elems)
    modifies a`mem
    ensures Carving(a, p, rest) && Noted(a.mem, table, elems + [p]) && UserSame(a.live - {table}, old(a.mem), a.mem)
  {
    assert ChunkOk(a.mem, a.g.c, a.base, table);
    assert UserWord(a.live, table, table + FD + i);
    UserStore(a, table, table + FD + i, 8 * (p + FD));
  }

  /** Element j is of exactly its padded size, and the next one starts where it ends. */
  ghost predicate Adjacent(live: map<int, int>, elems: seq<int>, sizes: seq<int>, same: bool, j: int)
    requires 0 <= j < |elems| - 1 && elems[j] in live && if same then |sizes| > 0 else |elems| <= |sizes|
  {
    8 * live[elems[j]] == Element(sizes, same, j) && elems[j + 1] == elems[j] + live[elems[j]]
  }

  /** The elements carved so far: new, adjacent, of their padded sizes; all that was live before is kept. */
  ghost predicate Carved(l0: map<int, int>, live: map<int, int>, elems: seq<int>, sizes: seq<int>, same: bool)
    requires if same then |sizes| > 0 else |elems| <= |sizes|
  {
    && (forall x :: x in l0 ==> x in live && live[x] == l0[x])
    && (forall x :: x in live ==> x in l0 || x in elems)
    && (forall j :: 0 <= j < |elems| ==>
          elems[j] in live && elems[j] !in l0 && 8 * live[elems[j]] >= Element(sizes, same, j))
    && (forall j {:trigger Adjacent(live, elems, sizes, same, j)} ::
          0 <= j < |elems| - 1 ==> Adjacent(live, elems, sizes, same, j))
  }

  lemma CarvedNext(l0: map<int, int>, live: map<int, int>, elems: seq<int>, sizes: seq<int>, same: bool, p: int, n: int)
    requires if same then |sizes| > 0 else |elems| < |sizes|
    requires Carved(l0, live, elems, sizes, same) && p !in live && 8 * n >= Element(sizes, same, |elems|)
    requires |elems| > 0 ==>
               var q := elems[|elems| - 1]; 8 * live[q] == Element(sizes, same, |elems| - 1) && p == q + live[q]
    ensures Carved(l0, live[p := n], elems + [p], sizes, same)
  {
    var e, l := elems + [p], live[p := n];
    forall j | 0 <= j < |e| ensures e[j] in l && e[j] !in l0 && 8 * l[e[j]] >= Element(sizes, same, j) {
      if j < |elems| { assert e[j] == elems[j]; }
    }
    forall j | 0 <= j < |e| - 1 ensures Adjacent(l, e, sizes, same, j) {
      assert e[j] == elems[j] && e[j + 1] == if j + 1 < |elems| then elems[j + 1] else p;
      if j + 1 < |elems| { assert Adjacent(live, elems, sizes, same, j); }
    }
    forall x | x in l ensures x in l0 || x in e {
      if x == p { assert e[|elems|] == p; } else if x in elems {
        var j :| 0 <= j < |elems| && elems[j] == x;
        assert e[j] == x;
      }
    }
  }

  /** The loop invariant: i elements carved and noted, `p` is where the next one starts. */
  ghost predicate Progress(a: Arena, l0: map<int, int>, m0: seq<int>, p: int, rest: int, elems: seq<int>,
                           sizes: seq<int>, same: bool, own: bool, table: int)
    requires if same then |sizes| > 0 else |elems| <= |sizes|
    reads a
  {
    && Carving(a, p, rest) && Carved(l0, a.live, elems, sizes, same)
    && (|elems| > 0 ==> var q := elems[|elems| - 1];
          q in a.live && 8 * a.live[q] == Element(sizes, same, |elems| - 1) && p == q + a.live[q])
    && (own ==> table in l0 && Noted(a.mem, table, elems))
    && UserSame(if own then l0 - {table} else l0, m0, a.mem)
  }

  /** `marray[i] = chunk2mem(p)`, when the array is a chunk of its own. */
  method NoteNext(a: Arena, p: int, ghost rest: int, ghost sizes: seq<int>, ghost same: bool, i: int, own: bool,
                  table: int,
                  ghost l0: map<int, int>, ghost m0: seq<int>, ghost elems: seq<int>)
    requires 0 <= i == |elems| && Requests(sizes, same, i + 1)
    requires Progress(a, l0, m0, p, rest, elems, sizes, same, own, table)
    requires own ==> i + 1 < l0[table]
    modifies a`mem
    ensures Carving(a, p, rest) && (own ==> Noted(a.mem, table, elems + [p]))
    ensures UserSame(if own then l0 - {table} else l0, m0, a.mem)
  {
    if own {
      ghost var m1 := a.mem;
      Note(a, table, i, p, rest, elems);
      UserChain(l0 - {table}, a.live - {table}, m0, m1, a.mem);
    }
  }

  lemma NotedNext(own: bool, l0: map<int, int>, l1: map<int, int>, m0: seq<int>, m1: seq<int>, m2: seq<int>, table: int,
                  elems: seq<int>)
    requires forall x :: x in l0 ==> x in l1 && l1[x] == l0[x]
    requires UserSame(l1, m1, m2) && UserSame(if own then l0 - {table} else l0, m0, m1) && |m1| == |m2|
    requires own ==> table in l0 && |elems| < l0[table] && Noted(m1, table, elems)
    ensures UserSame(if own then l0 - {table} else l0, m0, m2) && (own ==> Noted(m2, table, elems))
  {
    UserChain(if own then l0 - {table} else l0, l1, m0, m1, m2);
    if own { NotedKept(l1, m1, m2, table, elems); }
  }

  /** One round of the loop that splits out elements, but the last. */
  method CarveOne(a: Arena, p: int, rest: int, ghost sizes: seq<int>, ghost same: bool, i: int, own: bool, table: int,
                  size: int,
                  ghost l0: map<int, int>, ghost m0: seq<int>, ghost elems: seq<int>) returns (p': int)
    requires 0 <= i == |elems| && Requests(sizes, same, i + 1)
    requires Progress(a, l0, m0, p, rest, elems, sizes, same, own, table)
    requires size == Element(sizes, same, i) && Padded(size) && size + MINSIZE <= rest && (own ==> i + 1 < l0[table])
    modifies a`mem, a`g, a`live
    ensures Progress(a, l0, m0, p', rest - size, elems + [p], sizes, same, own, table) && p' == p + size / 8
  {
    hide Arena.Steady, Arena.Fields;
    NoteNext(a, p, rest, sizes, same, i, own, table, l0, m0, elems);
    CarvedNext(l0, a.live, elems, sizes, same, p, size / 8);
    ghost var m2, l2 := a.mem, a.live;
    p' := CarveNext(a, p, rest, size);
    NotedNext(own, l0, l2, m0, m2, a.mem, table, elems + [p]);
    assert (elems + [p])[|elems|] == p;
  }

  /** The last element takes all that is left. */
  method CarveEnd(a: Arena, p: int, rest: int, ghost sizes: seq<int>, ghost same: bool, i: int, own: bool, table: int,
                  ghost l0: map<int, int>, ghost m0: seq<int>, ghost elems: seq<int>)
    requires 0 <= i == |elems| && Requests(sizes, same, i + 1)
    requires Progress(a, l0, m0, p, rest, elems, sizes, same, own, table)
    requires Element(sizes, same, i) <= rest && (own ==> i + 1 < l0[table])
    modifies a`mem, a`g, a`live
    ensures a.Valid() && Carved(l0, a.live, elems + [p], sizes, same) && (own ==> Noted(a.mem, table, elems + [p]))
    ensures UserSame(if own then l0 - {table} else l0, m0, a.mem) && p in a.live && a.live[p] == rest / 8
  {
    NoteNext(a, p, rest, sizes, same, i, own, table, l0, m0, elems);
    CarvedNext(l0, a.live, elems, sizes, same, p, rest / 8);
    ghost var m2, l2 := a.mem, a.live;
    CarveLast(a, p, rest);
    NotedNext(own, l0, l2, m0, m2, a.mem, table, elems + [p]);
  }

  /** There is room for the element and at least one more. */
  lemma NextFits(a: Arena, p: int, rest: int, rest0: int, i: nat, n: nat, sizes: seq<int>, same: bool)
    requires Requests(sizes, same, n) && i + 1 < n && Carving(a, p, rest)
    requires rest == rest0 - Total(sizes, same, i) && Total(sizes, same, n) <= rest0
    ensures var size := Element(sizes, same, i); Padded(size) && size + MINSIZE <= rest && size % 16 == 0
    ensures Total(sizes, same, i + 1) == Total(sizes, same, i) + Element(sizes, same, i)
  {
    PaddedSize(if same then sizes[0] else sizes[i]);
    TotalLeft(sizes, same, i + 1, n);
    assert ChunkOk(a.mem, a.g.c, a.base, p);
  }

  lemma Start(a: Arena, p: int, rest: int, sizes: seq<int>, same: bool, own: bool, table: int)
    requires Requests(sizes, same, 0) && Carving(a, p, rest) && (own ==> table in a.live && 0 < a.live[table])
    ensures Progress(a, a.live, a.mem, p, rest, [], sizes, same, own, table)
  {
    UserInside(a.mem, a.base, a.g.c, a.live);
    if own {
      assert ChunkOk(a.mem, a.g.c, a.base, table);
      UserLess(a.live, table, a.mem, a.mem);
    }
  }

  /** Where the loop stands after i elements of n. */
  ghost predicate Halfway(a: Arena, l0: map<int, int>, m0: seq<int>, p0: int, rest0: int, p: int, rest: int,
                          elems: seq<int>,
                          n: nat, sizes: seq<int>, same: bool, own: bool, table: int)
    requires Requests(sizes, same, n)
    reads a
  {
    && |elems| < n && (if elems == [] then p == p0 else elems[0] == p0)
    && rest == rest0 - Total(sizes, same, |elems|) && p + rest / 8 == p0 + rest0 / 8
    && Progress(a, l0, m0, p, rest, elems, sizes, same, own, table)
  }

  method CarveStep(a: Arena, p0: int, rest0: int, p: int, rest: int, n: nat, sizes: seq<int>, same: bool, own: bool,
                   table: int,
                   i: nat, elementSize: int, ghost l0: map<int, int>, ghost m0: seq<int>, ghost elems: seq<int>)
    returns (p': int, rest': int)
    requires Requests(sizes, same, n) && Total(sizes, same, n) <= rest0 && (own ==> table in l0 && n < l0[table])
    requires Total(sizes, same, n) < TWO64
    requires i == |elems| && i + 1 < n && Halfway(a, l0, m0, p0, rest0, p, rest, elems, n, sizes, same, own, table)
    requires elementSize == if same then Request2Size64(sizes[0]) else 0
    modifies a`mem, a`g, a`live
    ensures Halfway(a, l0, m0, p0, rest0, p', rest', elems + [p], n, sizes, same, own, table)
  {
    hide BinOk, Carved;
    NextFits(a, p, rest, rest0, i, n, sizes, same);
    ElementExact(sizes, same, i, n);
    var size := if elementSize != 0 then elementSize else Request2Size64(sizes[i]);
    p' := CarveOne(a, p, rest, sizes, same, i, own, table, size, l0, m0, elems);
    rest' := rest - size;
  }

  /** "Split out elements", all but the last. */
  method CarveMost(a: Arena, p0: int, rest0: int, n: nat, sizes: seq<int>, same: bool, own: bool, table: int)
    returns (elems: seq<int>, p: int, rest: int)
    requires 0 < n && Requests(sizes, same, n) && Carving(a, p0, rest0) && Total(sizes, same, n) <= rest0
    requires Total(sizes, same, n) < TWO64
    requires own ==> table in a.live && n < a.live[table]
    modifies a`mem, a`g, a`live
    ensures |elems| == n - 1
    ensures Halfway(a, old(a.live), old(a.mem), p0, rest0, p, rest, elems, n, sizes, same, own, table)
  {
    ghost var l0, m0 := a.live, a.mem;
    Start(a, p0, rest0, sizes, same, own, table);
    var elementSize := if same then Request2Size64(sizes[0]) else 0;
    p, rest, elems := p0, rest0, [];
    var i := 0;
    while i != n - 1
      invariant 0 <= i <= n - 1 && |elems| == i
      invariant Halfway(a, l0, m0, p0, rest0, p, rest, elems, n, sizes, same, own, table)
    {
      var p', rest' := CarveStep(a, p0, rest0, p, rest, n, sizes, same, own, table, i, elementSize, l0, m0, elems);
      elems, p, rest, i := elems + [p], p', rest', i + 1;
    }
  }

  method CarveAll(a: Arena, p0: int, rest0: int, n: nat, sizes: seq<int>, same: bool, own: bool, table: int)
    returns (elems: seq<int>)
    requires 0 < n && Requests(sizes, same, n) && Carving(a, p0, rest0) && Total(sizes, same, n) <= rest0
    requires Total(sizes, same, n) < TWO64
    requires own ==> table in a.live && n < a.live[table]
    modifies a`mem, a`g, a`live
    ensures a.Valid() && |elems| == n && Carved(old(a.live), a.live, elems, sizes, same)
    ensures (own ==> Noted(a.mem, table, elems))
    ensures UserSame(if own then old(a.live) - {table} else old(a.live), old(a.mem), a.mem)
    ensures elems[0] == p0 && elems[n - 1] in a.live && elems[n - 1] + a.live[elems[n - 1]] == p0 + rest0 / 8
  {
    ghost var l0, m0 := a.live, a.mem;
    var p, rest;
    elems, p, rest := CarveMost(a, p0, rest0, n, sizes, same, own, table);
    CarveEnd(a, p, rest, sizes, same, n - 1, own, table, l0, m0, elems);
    elems := elems + [p];
  }

  // ------------------------------------------------------------------ iALLOc

  /** The aggregate chunk, fresh from _int_malloc when no chunk is in a fastbin, can be carved. */
  ghost method OpenAggregate(a: Arena, p: int)
    requires a.Valid() && p in a.live && p in a.g.c && a.g.c[p].pin
    modifies a`g, a`live
    ensures Carving(a, p, 8 * old(a.live[p])) && a.live == old(a.live) - {p}
  {
    assert ChunkOk(a.mem, a.g.c, a.base, p);
    a.Grasp(p);
  }

  /** The elements, and the array of their addresses unless the caller supplies one, fill the aggregate. */
  ghost predicate Filled(l0: map<int, int>, l1: map<int, int>, mem: seq<int>, n: nat, sizes: seq<int>, same: bool,
                         own: bool,
                         elems: seq<int>, table: int)
    requires Requests(sizes, same, n) && 0 < n
  {
    && |elems| == n && elems[n - 1] in l1
    && var first, end := elems[0], elems[n - 1] + l1[elems[n - 1]];
       if own then
         && table == end && table !in l0 && table in l1 && 8 * l1[table] >= Request2Size(8 * n)
         && Carved(l0[table := l1[table]], l1, elems, sizes, same) && Noted(mem, table, elems)
         && var total := Total(sizes, same, n) + ArraySize(n, own);
            total <= 8 * (end + l1[table] - first) < total + MINSIZE
       else
         && Carved(l0, l1, elems, sizes, same)
         && Total(sizes, same, n) <= 8 * (end - first) < Total(sizes, same, n) + MINSIZE
  }

  /** The elements share the aggregate with the array of their addresses. */
  method DivideOwn(a: Arena, p: int, rest: int, contents: int, n: nat, sizes: seq<int>, same: bool)
      returns (elems: seq<int>, table: int)
    requires 0 < n && Requests(sizes, same, n) && Carving(a, p, rest) && contents == Total(sizes, same, n) < TWO64
    requires contents + Request2Size(8 * n) <= rest < contents + Request2Size(8 * n) + MINSIZE
    modifies a`mem, a`g, a`live
    ensures a.Valid() && Filled(old(a.live), a.live, a.mem, n, sizes, same, true, elems, table)
    ensures UserSame(old(a.live), old(a.mem), a.mem)
  {
    hide BinOk, FastOk;
    ghost var l0, m0 := a.live, a.mem;
    TotalShape(sizes, same, n);
    PaddedSize(8 * n);
    PaddedContents(a, p, contents, rest);
    table := CarveArray(a, p, rest, contents);
    ghost var m1, l1 := a.mem, a.live;
    elems := CarveAll(a, p, contents, n, sizes, same, true, table);
    FilledOwn(l0, l1, a.live, a.mem, n, sizes, same, elems, table, (rest - contents) / 8);
    UserChain(l0, l1 - {table}, m0, m1, a.mem);
  }

  lemma PaddedContents(a: Arena, p: int, contents: int, rest: int)
    requires Carving(a, p, rest) && contents <= rest - MINSIZE && MINSIZE <= contents && contents % 16 == 0
    ensures Padded(contents) && rest % 16 == 0
  {
    assert ChunkOk(a.mem, a.g.c, a.base, p);
  }

  lemma FilledOwn(l0: map<int, int>, l1: map<int, int>, l2: map<int, int>, mem: seq<int>, n: nat, sizes: seq<int>,
                  same: bool,
                  elems: seq<int>, table: int, k: int)
    requires 0 < n && Requests(sizes, same, n) && |elems| == n && table !in l0 && l1 == l0[table := k]
    requires Carved(l1, l2, elems, sizes, same) && Noted(mem, table, elems) && elems[n - 1] in l2
    requires elems[n - 1] + l2[elems[n - 1]] == table && 8 * (table - elems[0]) == Total(sizes, same, n)
    requires Request2Size(8 * n) <= 8 * k < Request2Size(8 * n) + MINSIZE
    ensures Filled(l0, l2, mem, n, sizes, same, true, elems, table) && l1 - {table} == l0
  {
    assert l2[table] == l1[table];
  }

  /** The aggregate is divided among the elements and, if need be, the pointer array. */
  method Divide(a: Arena, p: int, contents: int, n: nat, sizes: seq<int>, same: bool, own: bool)
    returns (elems: seq<int>, table: int)
    requires 0 < n && Requests(sizes, same, n) && a.Valid() && p in a.live && p in a.g.c && a.g.c[p].pin
    requires contents == Total(sizes, same, n) < TWO64
    requires contents + ArraySize(n, own) <= 8 * a.live[p] < contents + ArraySize(n, own) + MINSIZE
    modifies a`mem, a`g, a`live
    ensures a.Valid() && Filled(old(a.live) - {p}, a.live, a.mem, n, sizes, same, own, elems, table)
    ensures UserSame(old(a.live) - {p}, old(a.mem), a.mem) && |a.mem| == |old(a.mem)|
  {
    HeadOf(a.mem, a.g.c, a.base, p);
    var rest := SizeAt(a.mem, p);
    OpenAggregate(a, p);
    if own {
      elems, table := DivideOwn(a, p, rest, contents, n, sizes, same);
    } else {
      table := 0;
      elems := DivideGiven(a, p, rest, n, sizes, same);
    }
  }

  /** All of the aggregate is for the elements. */
  method DivideGiven(a: Arena, p: int, rest: int, n: nat, sizes: seq<int>, same: bool) returns (elems: seq<int>)
    requires 0 < n && Requests(sizes, same, n) && Carving(a, p, rest)
    requires Total(sizes, same, n) <= rest < Total(sizes, same, n) + MINSIZE && Total(sizes, same, n) < TWO64
    modifies a`mem, a`g, a`live
    ensures a.Valid() && Filled(old(a.live), a.live, a.mem, n, sizes, same, false, elems, 0)
    ensures UserSame(old(a.live), old(a.mem), a.mem)
  {
    elems := CarveAll(a, p, rest, n, sizes, same, false, 0);
  }

  /** "Add up all the sizes", or multiply when they are all the same, in 64-bit arithmetic. */
  method ContentsSize(n: nat, sizes: seq<int>, same: bool) returns (contents: int)
    requires Requests(sizes, same, n)
    ensures contents == Total64(sizes, same, n)
  {
    if same {
      contents := n * Request2Size64(sizes[0]) % TWO64;
      Product64(sizes, n);
    } else {
      contents := 0;
      var i := 0;
      while i != n
        invariant 0 <= i <= n && contents == Total64(sizes, same, i)
      {
        contents := (contents + Request2Size64(sizes[i])) % TWO64;
        i := i + 1;
      }
    }
  }

  /** The aggregate request, with the bytes that padding will add taken off again, and its division. */
  method Aggregate(a: Arena, n: nat, sizes: seq<int>, same: bool, own: bool, sys: Sbrk)
    returns (ok: bool, elems: seq<int>, table: int)
    requires a.Valid() && !a.haveFast && 0 < n && Requests(sizes, same, n) && Enough(n, sizes, same, own)
    modifies a
    ensures a.Valid() && UserSame(old(a.live), old(a.mem), a.mem)
    ensures if ok then Filled(old(a.live), a.live, a.mem, n, sizes, same, own, elems, table) else a.live == old(a.live)
    ensures ok ==> Total(sizes, same, n) + ArraySize(n, own) < TWO64
    ensures old(Granted(a, Total(sizes, same, n) + ArraySize(n, own), sys)) ==>
              ok || OutOfRange(Request64(n, sizes, same, own))
    ensures if OutOfRange(Request64(n, sizes, same, own)) then |a.mem| == |old(a.mem)|
            else Grown(|old(a.mem)|, |a.mem|, a.topPad, Total(sizes, same, n) + ArraySize(n, own))
  {
    hide Arena.Valid, Total, Total64, Enough, Request2Size, Request2Size64, Filled, UserSame, Granted, UserWord;
    hide Grown, Grants, Searched, FastHit, SmallHit;
    ghost var l0, m0 := a.live, a.mem;
    var contents := ContentsSize(n, sizes, same);
    var array_size := if own then Request2Size64(8 * n % TWO64) else 0;
    AggregateSound(n, sizes, same, own);
    RequestRange(n, sizes, same, own);
    var p := IntMalloc(a, (contents + array_size - 15) % TWO64, sys);
    if p == 0 {
      TotalTaken(n, sizes, same, own);
      return false, [], 0;
    }
    TotalTaken(n, sizes, same, own);
    ok := true;
    ghost var m1 := a.mem;
    TookBack(l0, a.live, p, contents + array_size);
    elems, table := Divide(a, p, contents, n, sizes, same, own);
    UserChain(l0, l0, m0, m1, a.mem);
  }

  /** A request that is sound and in range is the total of the parts. */
  lemma TotalTaken(n: nat, sizes: seq<int>, same: bool, own: bool)
    requires 0 < n && Requests(sizes, same, n) && Enough(n, sizes, same, own)
    ensures !OutOfRange(Request64(n, sizes, same, own)) ==>
              var total := Total(sizes, same, n) + ArraySize(n, own);
              total < TWO64 && total == Total64(sizes, same, n) + ArraySize64(n, own)
              && Request2Size(Request64(n, sizes, same, own)) == total
              && Total64(sizes, same, n) == Total(sizes, same, n)
  {
    hide Total, Total64, Request2Size, Request2Size64, ArraySize64, ArraySize;
    AggregateSound(n, sizes, same, own);
    if !OutOfRange(Request64(n, sizes, same, own)) {
      RequestExact(n, sizes, same, own);
      TotalAligned(n, sizes, same, own);
      PadUnpad(Total(sizes, same, n) + ArraySize(n, own));
    }
  }

  /** iALLOc: n adjacent chunks for the n requests, out of one allocation. */
  method IAlloc(a: Arena, n: nat, sizes: seq<int>, same: bool, own: bool, sys: Sbrk)
    returns (ok: bool, elems: seq<int>, table: int)
    requires a.Valid() && Requests(sizes, same, n) && (n > 0 ==> Enough(n, sizes, same, own))
    modifies a
    ensures a.Valid() && UserSame(old(a.live), old(a.mem), a.mem)
    ensures !ok || (n == 0 && !own) ==> a.live == old(a.live)
    ensures ok && n == 0 && own ==> Took(old(a.live), a.live, table, MINSIZE)
    ensures ok && n > 0 ==> Filled(old(a.live), a.live, a.mem, n, sizes, same, own, elems, table)
    ensures old(Granted(a, Total(sizes, same, n) + ArraySize(n, own), sys)) ==>
              ok || (n > 0 && OutOfRange(Request64(n, sizes, same, own)))
    ensures if n > 0 && OutOfRange(Request64(n, sizes, same, own)) then |a.mem| == |old(a.mem)|
            else Grown(|old(a.mem)|, |a.mem|, a.topPad, Total(sizes, same, n) + ArraySize(n, own))
  {
    hide Enough, Filled, UserSame, Took, Request64;
    ghost var l0, m0 := a.live, a.mem;
    UserInside(a.mem, a.base, a.g.c, a.live);
    if a.haveFast {
      Consolidate(a);
    }
    ghost var m1 := a.mem;
    if n == 0 {
      elems, table := [], 0;
      if own {
        table := IntMalloc(a, 0, sys);
      }
      ok := !own || table != 0;
    } else {
      ok, elems, table := Aggregate(a, n, sizes, same, own, sys);
    }
    UserChain(l0, l0, m0, m1, a.mem);
  }
}
