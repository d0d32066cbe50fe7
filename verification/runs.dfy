/** Any run of an allocator's client: the heap behaves as a store of separate blocks. */
module Runs {
  import opened Chunks
  import opened Sizes
  import opened Bins
  import opened Arenas
  import opened System
  import opened Frees
  import opened Mallocs
  import opened Reallocs
  import opened Memaligns
  import opened Trims
  import opened Aggregates
  import Accounts
  import Iallocs

  // ------------------------------------------------------------------ the store the client sees

  /** Block p maps to the words of its usable area. */
  type Store = map<int, seq<int>>

  ghost function StoreIn(mem: seq<int>, live: map<int, int>): Store {
    map p | p in live && 0 <= p && 1 <= live[p] && p + FD + live[p] - 1 <= |mem| :: mem[p + FD..p + FD + (live[p] - 1)]
  }

  ghost function StoreOf(a: Arena): Store
    reads a
  {
    StoreIn(a.mem, a.live)
  }

  ghost predicate InBounds(mem: seq<int>, live: map<int, int>) {
    forall p :: p in live ==> 0 < p && p % 2 == 0 && 4 <= live[p] && p + live[p] < |mem|
  }

  lemma LiveInBounds(a: Arena)
    requires a.Valid()
    ensures InBounds(a.mem, a.live)
  {
    forall p | p in a.live ensures 0 < p && p % 2 == 0 && 4 <= a.live[p] && p + a.live[p] < |a.mem| {
      assert ChunkOk(a.mem, a.g.c, a.base, p);
    }
  }

  lemma StoreSame(live: map<int, int>, m0: seq<int>, m1: seq<int>)
    requires UserSame(live, m0, m1) && InBounds(m0, live)
    ensures InBounds(m1, live) && StoreIn(m0, live) == StoreIn(m1, live)
  {
    forall p | p in live ensures p + live[p] < |m1| && SameContents(m0, p, m1, p, live[p] - 1) {
      assert UserWord(live, p, p + live[p]);
      Kept(live, m0, m1, p);
    }
  }

  lemma StorePlus(mem: seq<int>, live: map<int, int>, p: int)
    requires InBounds(mem, live) && p in live
    ensures var s, t := StoreIn(mem, live), StoreIn(mem, live - {p});
      p in s && s == t[p := s[p]] && |s[p]| == live[p] - 1 && s.Keys == live.Keys && t == s - {p}
  {
  }

  // ------------------------------------------------------------------ what the client asks for

  /** Addresses are those of chunks; p + FD is the address of the memory. */
  datatype Call =
    | Malloc(bytes: nat)
    | Free(p: int)
    | Realloc(p: int, bytes: nat)
    | Memalign(alignment: nat, bytes: nat)
    | Write(p: int, i: int, v: int)
    | Trim(pad: int)
    | Independent(n: nat, sizes: seq<int>, same: bool, chunks: int)

  /** The address a call returns, and those it writes into a table of the caller's or its own. */
  datatype Reply = Reply(r: int, elems: seq<int>)

  /** What the allocator asks of its client; 0 may be freed and reallocated. */
  predicate Legal(blocks: map<int, int>, call: Call) {
    match call
    case Malloc(bytes) => bytes < TWO64
    case Free(p) => p == 0 || p in blocks
    case Realloc(p, bytes) => (p == 0 || p in blocks) && bytes < TWO64
    case Memalign(alignment, bytes) =>
      bytes < TWO64 && alignment <= TWO64 / 2 &&
      (alignment > MALLOC_ALIGNMENT && !OutOfRange(bytes) ==>
         Request2Size(bytes) + Rounded(alignment) + MINSIZE < TWO64)
    case Write(p, i, _) => p in blocks && 0 <= i < blocks[p]
    case Trim(pad) => 0 <= pad < TWO64 / 2
    case Independent(n, sizes, same, chunks) =>
      Requests(sizes, same, n) && (n > 0 ==> Enough(n, sizes, same, chunks == 0))
  }

  /** A new block of enough words at a multiple of the alignment, beside the old ones. */
  ghost predicate Added(s0: Store, s1: Store, r: int, bytes: int, alignment: int)
    requires alignment > 0
  {
    r !in s0 && r in s1 && s1 == s0[r := s1[r]] && bytes <= 8 * |s1[r]| && 8 * (r + FD) % alignment == 0
  }

  /** Block r takes the place of block p and its contents, as far as they fit. */
  ghost predicate Replaced(s0: Store, s1: Store, p: int, r: int, bytes: int) {
    && p in s0 && r in s1 && s1 == (s0 - {p})[r := s1[r]] && (r == p || r !in s0) && bytes <= 8 * |s1[r]| && r % 2 == 0
    && var k := Min(|s0[p]|, |s1[r]|); s1[r][..k] == s0[p][..k]
  }

  /** The blocks of `news` are added, and nothing else happens. */
  ghost predicate AddedAll(s0: Store, s1: Store, news: set<int>) {
    && s1.Keys == s0.Keys + news && s0.Keys !! news
    && forall p :: p in s0 ==> s1[p] == s0[p]
  }

  /** Element j has room for its request, and the next one starts where it ends. */
  ghost predicate Placed(s: Store, elems: seq<int>, sizes: seq<int>, same: bool, j: int)
    requires 0 <= j < |elems| && if same then |sizes| > 0 else |elems| <= |sizes|
  {
    && elems[j] in s && elems[j] % 2 == 0 && (if same then sizes[0] else sizes[j]) <= 8 * |s[elems[j]]|
    && (j + 1 < |elems| ==> elems[j + 1] == elems[j] + |s[elems[j]]| + 1)
  }

  /** The table comes right behind the elements, and holds their addresses. */
  ghost predicate Tabled(s: Store, elems: seq<int>, r: int) {
    && elems != [] && elems[|elems| - 1] in s && r == elems[|elems| - 1] + |s[elems[|elems| - 1]]| + 1
    && r in s && |elems| <= |s[r]| && forall j :: 0 <= j < |elems| ==> s[r][j] == 8 * (elems[j] + FD)
  }

  ghost function Items(elems: seq<int>): set<int> {
    set p | p in elems
  }

  /** n adjacent blocks, and a table of their addresses unless the caller supplies one. */
  ghost predicate Divided(s0: Store, n: nat, sizes: seq<int>, same: bool, own: bool, r: int, elems: seq<int>, s1: Store)
    requires if same then |sizes| > 0 else n <= |sizes|
  {
    && |elems| == n
    && (forall j {:trigger Placed(s1, elems, sizes, same, j)} :: 0 <= j < n ==> Placed(s1, elems, sizes, same, j))
    && AddedAll(s0, s1, Items(elems) + if own then {r} else {})
    && (own ==> Tabled(s1, elems, r))
  }

  /** The meaning of a call. */
  ghost predicate Meaning(s0: Store, call: Call, reply: Reply, s1: Store) {
    match call
    case Independent(n, sizes, same, chunks) =>
      && (if same then |sizes| > 0 else n <= |sizes|)
      && (chunks != 0 && reply.r != 0 ==> reply.r == chunks)
      && if reply.r == 0 then s1 == s0
         else if n > 0 then Divided(s0, n, sizes, same, chunks == 0, reply.r, reply.elems, s1)
         else if chunks == 0 then Added(s0, s1, reply.r, 0, 16)
         else s1 == s0
    case _ => reply.elems == [] && Means(s0, call, reply.r, s1)
  }

  /** The meaning of a call that returns one block at most. */
  ghost predicate Means(s0: Store, call: Call, r: int, s1: Store)
    requires !call.Independent?
  {
    match call
    case Malloc(bytes) => if r == 0 then s1 == s0 else Added(s0, s1, r, bytes, 16)
    case Free(p) => r == 0 && s1 == s0 - {p}
    case Realloc(p, bytes) =>
      if p == 0 then (if r == 0 then s1 == s0 else Added(s0, s1, r, bytes, 16))
      else if bytes == 0 then r == 0 && s1 == s0 - {p}
      else if r == 0 then s1 == s0 else Replaced(s0, s1, p, r, bytes)
    case Memalign(alignment, bytes) =>
      if r == 0 then s1 == s0
      else Added(s0, s1, r, bytes, if alignment <= MALLOC_ALIGNMENT then 16 else Rounded(alignment))
    case Write(p, i, v) => r == 0 && p in s0 && 0 <= i < |s0[p]| && s1 == s0[p := s0[p][i := v]]
    case Trim(_) => s1 == s0
  }

  /** The call asks for memory, and is in range. */
  predicate Asks(call: Call) {
    match call
    case Malloc(bytes) => !OutOfRange(bytes)
    case Realloc(p, bytes) => (p == 0 || bytes > 0) && !OutOfRange(bytes)
    case Memalign(_, bytes) => !OutOfRange(bytes)
    case Independent(n, sizes, same, chunks) =>
      Requests(sizes, same, n) && (n > 0 ==> !OutOfRange(Request64(n, sizes, same, chunks == 0)))
    case _ => false
  }

  /** How many bytes it may take. */
  function Need(call: Call): int
    requires Asks(call)
  {
    match call
    case Malloc(bytes) => Request2Size(bytes)
    case Realloc(_, bytes) => Request2Size(bytes)
    case Memalign(alignment, bytes) => Request2Size(bytes) + Rounded(alignment) + 2 * MINSIZE
    case Independent(n, sizes, same, chunks) => Total(sizes, same, n) + ArraySize(n, chunks == 0)
  }

  /** A request in range is served when the system grants what it may take; the heap, which ended at word
    `end0`, grows by no more than that, the pad and a page. */
  ghost predicate Answered(call: Call, r: int, sys: Sbrk, pad: int, end0: int, end: int) {
    if Asks(call) then (Grants(sys, pad, end0, Need(call)) ==> r != 0) && Grown(end0, end, pad, Need(call))
    else end <= end0
  }

  /** Blocks do not overlap. */
  ghost predicate Separate(s: Store) {
    forall p, q {:trigger p in s, q in s} :: p in s && q in s && p < q ==> p + FD + |s[p]| <= q + FD
  }

  lemma AlwaysSeparate(a: Arena)
    requires a.Valid()
    ensures Separate(StoreOf(a)) && StoreOf(a).Keys == a.live.Keys
  {
    LiveInBounds(a);
    var s, l := StoreIn(a.mem, a.live), a.live;
    assert forall p :: p in l <==> p in s;
    forall p, q {:trigger p in s, q in s} | p in s && q in s && p < q ensures p + FD + |s[p]| <= q + FD {
      assert p in l && q in l;
      assert Apart(a.g.c, p, q);
      StorePlus(a.mem, l, p);
    }
  }

  // ------------------------------------------------------------------ the calls, one by one

  lemma AddedNow(l0: map<int, int>, m0: seq<int>, l1: map<int, int>, m1: seq<int>, r: int, bytes: int)
    requires InBounds(m0, l0) && InBounds(m1, l1) && UserSame(l0, m0, m1)
    requires r !in l0 && r in l1 && l1 == l0[r := l1[r]] && 0 <= bytes && Request2Size(bytes) <= 8 * l1[r]
    ensures Added(StoreIn(m0, l0), StoreIn(m1, l1), r, bytes, 16)
  {
    StoreSame(l0, m0, m1);
    StorePlus(m1, l1, r);
    assert l1 - {r} == l0;
    BlockSize(bytes, l1[r], r);
  }

  lemma BlockSize(bytes: int, n: int, r: int)
    requires 0 <= bytes && Request2Size(bytes) <= 8 * n && r % 2 == 0
    ensures bytes <= 8 * (n - 1) && 8 * (r + FD) % 16 == 0
  {
    assert bytes + 8 <= Request2Size(bytes) by { PaddedSize(bytes); }
    assert r + FD == 2 * (r / 2 + 1);
  }

  /** public_mALLOc */
  method DoMalloc(a: Arena, bytes: nat, sys: Sbrk) returns (r: int)
    requires a.Valid() && 0 <= bytes < TWO64
    modifies a
    ensures a.Valid() && Means(old(StoreOf(a)), Malloc(bytes), r, StoreOf(a))
    ensures Answered(Malloc(bytes), r, sys, a.topPad, |old(a.mem)|, |a.mem|)
  {
    LiveInBounds(a);
    ghost var l0, m0 := a.live, a.mem;
    r := IntMalloc(a, bytes, sys);
    LiveInBounds(a);
    StoreSame(l0, m0, a.mem);
    if r != 0 { AddedNow(l0, m0, a.live, a.mem, r, bytes); }
  }

  /** public_fREe: "free(0) has no effect". */
  method DoFree(a: Arena, p: int, sys: Sbrk)
    requires a.Valid() && (p == 0 || p in a.live)
    modifies a
    ensures a.Valid() && StoreOf(a) == old(StoreOf(a)) - {p}
    ensures |a.mem| <= |old(a.mem)|
  {
    LiveInBounds(a);
    ghost var l0, m0 := a.live, a.mem;
    if p != 0 {
      IntFree(a, p, sys);
      LiveInBounds(a);
      UserKeep(l0, p, m0, a.mem);
      StoreSame(a.live, m0, a.mem);
      StorePlus(m0, l0, p);
    } else {
      assert p !in StoreOf(a);
    }
  }

  lemma UserKeep(l0: map<int, int>, p: int, m0: seq<int>, m1: seq<int>)
    requires InBounds(m0, l0)
    ensures InBounds(m0, l0 - {p})
  {
  }

  /** The common words of the old and the new block. */
  lemma SamePrefix(l0: map<int, int>, m0: seq<int>, p: int, l1: map<int, int>, m1: seq<int>, r: int, k: int)
    requires InBounds(m0, l0) && InBounds(m1, l1) && p in l0 && r in l1 && k == Min(l0[p], l1[r]) - 1
    requires SameContents(m0, p, m1, r, k)
    ensures StoreIn(m1, l1)[r][..k] == StoreIn(m0, l0)[p][..k]
  {
    var s, t := StoreIn(m0, l0)[p], StoreIn(m1, l1)[r];
    assert t[..k] == m1[r + FD..r + FD + k] && s[..k] == m0[p + FD..p + FD + k];
  }

  lemma ReplacedNow(l0: map<int, int>, m0: seq<int>, p: int, l1: map<int, int>, m1: seq<int>, r: int, bytes: nat)
    requires InBounds(m0, l0) && InBounds(m1, l1) && Moved(l0, m0, p, l1, m1, r, Request2Size(bytes))
    ensures Replaced(StoreIn(m0, l0), StoreIn(m1, l1), p, r, bytes)
  {
    assert StoreIn(m1, l1) == (StoreIn(m0, l0) - {p})[r := StoreIn(m1, l1)[r]] by {
      StorePlus(m0, l0, p);
      UserKeep(l0, p, m0, m1);
      StoreSame(l0 - {p}, m0, m1);
      StorePlus(m1, l1, r);
      MovedLess(l0, p, l1, r);
    }
    assert |StoreIn(m1, l1)[r]| == l1[r] - 1 && |StoreIn(m0, l0)[p]| == l0[p] - 1;
    PaddedSize(bytes);
    SamePrefix(l0, m0, p, l1, m1, r, Min(l0[p], l1[r]) - 1);
  }

  lemma MovedLess(l0: map<int, int>, p: int, l1: map<int, int>, r: int)
    requires p in l0 && r in l1 && l1 == (l0 - {p})[r := l1[r]] && (r != p ==> r !in l0)
    ensures l1 - {r} == l0 - {p}
  {
  }

  /** public_rEALLOc, one arena. */
  method DoRealloc(a: Arena, p: int, bytes: nat, sys: Sbrk) returns (r: int)
    requires a.Valid() && (p == 0 || p in a.live) && 0 <= bytes < TWO64
    modifies a
    ensures a.Valid() && Means(old(StoreOf(a)), Realloc(p, bytes), r, StoreOf(a))
    ensures Answered(Realloc(p, bytes), r, sys, a.topPad, |old(a.mem)|, |a.mem|)
    ensures p != 0 && bytes > 0 && !OutOfRange(bytes) && old(RoomAt(a.g.c, a.top, p, Request2Size(bytes))) ==>
              r == p && |a.mem| <= |old(a.mem)|
  {
    if bytes == 0 && p != 0 {
      DoFree(a, p, sys);
      return 0;
    }
    if p == 0 {
      r := DoMalloc(a, bytes, sys);
      return;
    }
    FreeChecks(a, p);
    var oldsize := SizeAt(a.mem, p);
    assert !(8 * p > TWO64 - oldsize) && p % 2 == 0;  // realloc(): invalid pointer
    if OutOfRange(bytes) {
      return 0;
    }
    r := Resize(a, p, oldsize, bytes, sys);
  }

  method Resize(a: Arena, p: int, oldsize: int, bytes: nat, sys: Sbrk) returns (r: int)
    requires a.Valid() && p in a.live && 0 <= bytes < TWO64 && !OutOfRange(bytes) && oldsize == 8 * a.live[p]
    modifies a
    ensures a.Valid()
    ensures if r == 0 then StoreOf(a) == old(StoreOf(a)) else Replaced(old(StoreOf(a)), StoreOf(a), p, r, bytes)
    ensures old(Granted(a, Request2Size(bytes), sys)) ==> r != 0
    ensures Grown(|old(a.mem)|, |a.mem|, a.topPad, Request2Size(bytes))
    ensures old(RoomAt(a.g.c, a.top, p, Request2Size(bytes))) ==> r == p && |a.mem| <= |old(a.mem)|
  {
    LiveInBounds(a);
    ghost var l0, m0 := a.live, a.mem;
    PaddedSize(bytes);
    r := IntRealloc(a, p, oldsize, Request2Size(bytes), sys);
    LiveInBounds(a);
    if r == 0 {
      StoreSame(l0, m0, a.mem);
    } else {
      ReplacedNow(l0, m0, p, a.live, a.mem, r, bytes);
    }
  }

  /** public_mEMALIGn, one arena. */
  method DoMemalign(a: Arena, alignment: nat, bytes: nat, sys: Sbrk) returns (r: int)
    requires a.Valid() && Legal(a.live, Memalign(alignment, bytes))
    modifies a
    ensures a.Valid() && Means(old(StoreOf(a)), Memalign(alignment, bytes), r, StoreOf(a))
    ensures Answered(Memalign(alignment, bytes), r, sys, a.topPad, |old(a.mem)|, |a.mem|)
  {
    LiveInBounds(a);
    ghost var l0, m0 := a.live, a.mem;
    r := IntMemalign(a, alignment, bytes, sys);
    LiveInBounds(a);
    StoreSame(l0, m0, a.mem);
    if r != 0 { AddedNow(l0, m0, a.live, a.mem, r, bytes); }
  }

  /** The client stores a word in a block of its own. */
  method DoWrite(a: Arena, p: int, i: int, v: int)
    requires a.Valid() && p in a.live && 0 <= i < a.live[p] - 1
    modifies a`mem
    ensures a.Valid() && Means(old(StoreOf(a)), Write(p, i, v), 0, StoreOf(a))
    ensures |a.mem| == |old(a.mem)|
  {
    LiveInBounds(a);
    ghost var m0 := a.mem;
    assert UserWord(a.live, p, p + FD + i);
    UserStore(a, p, p + FD + i, v);
    WrittenNow(a.live, m0, a.mem, p, i, v);
  }

  lemma WrittenNow(live: map<int, int>, m0: seq<int>, m1: seq<int>, p: int, i: int, v: int)
    requires InBounds(m0, live) && p in live && 0 <= i < live[p] - 1 && m1 == m0[p + FD + i := v]
    requires UserSame(live - {p}, m0, m1)
    ensures Means(StoreIn(m0, live), Write(p, i, v), 0, StoreIn(m1, live))
  {
    assert StoreIn(m1, live) == (StoreIn(m0, live) - {p})[p := StoreIn(m1, live)[p]] by {
      StorePlus(m0, live, p);
      StorePlus(m1, live, p);
      UserKeep(live, p, m0, m1);
      StoreSame(live - {p}, m0, m1);
    }
    assert StoreIn(m1, live)[p] == StoreIn(m0, live)[p][i := v];
    PutOver(StoreIn(m0, live), p, StoreIn(m1, live)[p]);
  }

  lemma PutOver(s: Store, p: int, block: seq<int>)
    ensures (s - {p})[p := block] == s[p := block]
  {
  }

  method DoTrim(a: Arena, pad: int, sys: Sbrk) returns (r: int)
    requires a.Valid() && 0 <= pad < TWO64 / 2
    modifies a
    ensures a.Valid() && StoreOf(a) == old(StoreOf(a))
    ensures |a.mem| == |old(a.mem)| - PAGEWORDS * Returned(8 * (|old(a.mem)| - a.top), pad, sys.keeps)
    ensures r != 0 <==> |a.mem| < |old(a.mem)| || exists p :: Paged(a.g.c, p)
  {
    LiveInBounds(a);
    ghost var m0 := a.mem;
    SmallPadFits(a, pad);
    r := MTrim(a, pad, sys);
    StoreSame(a.live, m0, a.mem);
  }

  // ------------------------------------------------------------------ iALLOc

  lemma StoreBlock(mem: seq<int>, live: map<int, int>, p: int)
    requires InBounds(mem, live) && p in live
    ensures p in StoreIn(mem, live) && StoreIn(mem, live)[p] == mem[p + FD..p + FD + (live[p] - 1)]
  {
  }

  lemma StoreMore(m0: seq<int>, l0: map<int, int>, m1: seq<int>, l1: map<int, int>, news: set<int>)
    requires InBounds(m0, l0) && InBounds(m1, l1) && UserSame(l0, m0, m1)
    requires l1.Keys == l0.Keys + news && l0.Keys !! news && forall p :: p in l0 ==> l1[p] == l0[p]
    ensures AddedAll(StoreIn(m0, l0), StoreIn(m1, l1), news)
  {
    StoreSame(l0, m0, m1);
    var s0, s1 := StoreIn(m0, l0), StoreIn(m1, l1);
    assert s0.Keys == l0.Keys && s1.Keys == l1.Keys;
    forall p | p in s0 ensures s1[p] == s0[p] {
      StoreBlock(m0, l0, p);
      StoreBlock(m1, l1, p);
      StoreBlock(m1, l0, p);
    }
  }

  /** The elements that iALLOc carved. */
  lemma PlacedNow(l0: map<int, int>, mem: seq<int>, l1: map<int, int>, elems: seq<int>, sizes: seq<int>, same: bool,
                  n: nat, j: int)
    requires InBounds(mem, l1) && Requests(sizes, same, n) && |elems| == n && 0 <= j < n
    requires Iallocs.Carved(l0, l1, elems, sizes, same)
    ensures Placed(StoreIn(mem, l1), elems, sizes, same, j)
  {
    StoreBlock(mem, l1, elems[j]);
    PaddedSize(if same then sizes[0] else sizes[j]);
    if j + 1 < n { assert Iallocs.Adjacent(l1, elems, sizes, same, j); }
  }

  lemma CarvedKeys(l0: map<int, int>, l1: map<int, int>, elems: seq<int>, sizes: seq<int>, same: bool)
    requires if same then |sizes| > 0 else |elems| <= |sizes|
    requires Iallocs.Carved(l0, l1, elems, sizes, same)
    ensures l1.Keys == l0.Keys + Items(elems) && l0.Keys !! Items(elems) && forall p :: p in l0 ==> l1[p] == l0[p]
  {
    forall p | p in Items(elems) ensures p in l1 && p !in l0 {
      var k :| 0 <= k < |elems| && elems[k] == p;
    }
    assert forall p :: p in l1 <==> p in l0 || p in Items(elems);
  }

  lemma TabledNow(mem: seq<int>, l1: map<int, int>, elems: seq<int>, table: int)
    requires InBounds(mem, l1) && elems != [] && elems[|elems| - 1] in l1 && table in l1
    requires Iallocs.Noted(mem, table, elems)
    requires table == elems[|elems| - 1] + l1[elems[|elems| - 1]] && 8 * l1[table] >= Request2Size(8 * |elems|)
    ensures Tabled(StoreIn(mem, l1), elems, table)
  {
    StoreBlock(mem, l1, table);
    StoreBlock(mem, l1, elems[|elems| - 1]);
    PaddedSize(8 * |elems|);
    forall k | 0 <= k < |elems| ensures StoreIn(mem, l1)[table][k] == 8 * (elems[k] + FD) {
      assert mem[table + FD..table + FD + (l1[table] - 1)][k] == mem[table + FD + k];
    }
  }

  lemma DividedNow(l0: map<int, int>, m0: seq<int>, l1: map<int, int>, m1: seq<int>, n: nat, sizes: seq<int>,
                   same: bool,
                   own: bool, elems: seq<int>, table: int, r: int)
    requires InBounds(m0, l0) && InBounds(m1, l1) && UserSame(l0, m0, m1) && 0 < n && Requests(sizes, same, n)
    requires own ==> r == table
    requires Iallocs.Filled(l0, l1, m1, n, sizes, same, own, elems, table)
    ensures Divided(StoreIn(m0, l0), n, sizes, same, own, r, elems, StoreIn(m1, l1)) && (own ==> table > 0)
  {
    assert own ==> table in l1;
    hide Placed, Tabled, Iallocs.Carved, Iallocs.Noted, UserSame, AddedAll;
    var la := if own then l0[table := l1[table]] else l0;
    CarvedKeys(la, l1, elems, sizes, same);
    assert forall p :: p in l0 ==> p in la && la[p] == l0[p];
    StoreMore(m0, l0, m1, l1, Items(elems) + if own then {table} else {});
    if own { TabledNow(m1, l1, elems, table); }
    forall j {:trigger Placed(StoreIn(m1, l1), elems, sizes, same, j)} | 0 <= j < n
      ensures Placed(StoreIn(m1, l1), elems, sizes, same, j) {
      PlacedNow(la, m1, l1, elems, sizes, same, n, j);
    }
  }

  /** public_iCALLOc and public_iCOMALLOc, one arena. */
  method DoIndependent(a: Arena, n: nat, sizes: seq<int>, same: bool, chunks: int, sys: Sbrk) returns (reply: Reply)
    requires a.Valid() && Legal(Blocks(StoreOf(a)), Independent(n, sizes, same, chunks))
    modifies a
    ensures a.Valid() && Meaning(old(StoreOf(a)), Independent(n, sizes, same, chunks), reply, StoreOf(a))
    ensures Answered(Independent(n, sizes, same, chunks), reply.r, sys, a.topPad, |old(a.mem)|, |a.mem|)
  {
    hide Divided, Iallocs.Filled, Enough, Took, Added;
    LiveInBounds(a);
    ghost var l0, m0 := a.live, a.mem;
    var own := chunks == 0;
    var ok, elems, table := Iallocs.IAlloc(a, n, sizes, same, own, sys);
    LiveInBounds(a);
    StoreSame(l0, m0, a.mem);
    if !ok {
      return Reply(0, []);
    }
    reply := Reply(if own then table else chunks, elems);
    if n > 0 {
      DividedNow(l0, m0, a.live, a.mem, n, sizes, same, own, elems, table, reply.r);
    } else if own {
      TookAdded(l0, m0, a.live, a.mem, table);
    }
  }

  lemma TookAdded(l0: map<int, int>, m0: seq<int>, l1: map<int, int>, m1: seq<int>, r: int)
    requires InBounds(m0, l0) && InBounds(m1, l1) && UserSame(l0, m0, m1) && Took(l0, l1, r, MINSIZE)
    ensures Added(StoreIn(m0, l0), StoreIn(m1, l1), r, 0, 16) && r > 0
  {
    AddedNow(l0, m0, l1, m1, r, 0);
  }

  // ------------------------------------------------------------------ whole runs

  ghost function Blocks(s: Store): map<int, int> {
    map p | p in s :: |s[p]|
  }

  /** One legal call. */
  method Perform(a: Arena, call: Call, sys: Sbrk) returns (reply: Reply)
    requires a.Valid() && Legal(Blocks(StoreOf(a)), call)
    modifies a
    ensures a.Valid() && Meaning(old(StoreOf(a)), call, reply, StoreOf(a)) && Separate(StoreOf(a))
    ensures Answered(call, reply.r, sys, a.topPad, |old(a.mem)|, |a.mem|)
  {
    AlwaysSeparate(a);
    var r := 0;
    match call {
      case Malloc(bytes) => r := DoMalloc(a, bytes, sys);
      case Free(p) => DoFree(a, p, sys);
      case Realloc(p, bytes) => r := DoRealloc(a, p, bytes, sys);
      case Memalign(alignment, bytes) => r := DoMemalign(a, alignment, bytes, sys);
      case Write(p, i, v) =>
        LiveInBounds(a);
        StorePlus(a.mem, a.live, p);
        DoWrite(a, p, i, v);
      case Trim(pad) => r := DoTrim(a, pad, sys);
      case Independent(n, sizes, same, chunks) =>
        reply := DoIndependent(a, n, sizes, same, chunks, sys);
        AlwaysSeparate(a);
        return;
    }
    reply := Reply(r, []);
    AlwaysSeparate(a);
  }

  /** mUSABLe, in words. */
  method Usable(a: Arena, p: int) returns (words: int)
    requires a.Valid() && (p == 0 || p in a.live)
    ensures if p == 0 then words == 0 else p in StoreOf(a) && words == |StoreOf(a)[p]|
  {
    words := 0;
    if p != 0 {
      LiveInBounds(a);
      StorePlus(a.mem, a.live, p);
      HeadOf(a.mem, a.g.c, a.base, p);
      assert p != a.top;
      InuseReads(a, p);
      if PrevInuse(a.mem, p + SizeAt(a.mem, p) / 8) {
        words := (SizeAt(a.mem, p) - 8) / 8;
      }
    }
  }

  /** The blocks a call has made, as the client finds them in the reply. */
  function News(call: Call, reply: Reply): seq<int> {
    match call
    case Independent(n, _, _, chunks) =>
      if reply.r == 0 then []
      else (if n > 0 then reply.elems else []) + if chunks == 0 then [reply.r] else []
    case Malloc(_) => if reply.r == 0 then [] else [reply.r]
    case Memalign(_, _) => if reply.r == 0 then [] else [reply.r]
    case Realloc(_, _) => if reply.r == 0 then [] else [reply.r]
    case _ => []
  }

  /** The block that a call has taken away, or 0. */
  function Gone(call: Call, reply: Reply): int {
    match call
    case Free(p) => p
    case Realloc(p, bytes) => if bytes == 0 || reply.r != 0 then p else 0
    case _ => 0
  }

  /** What the client's record must become. */
  lemma RecordKeys(s0: Store, call: Call, reply: Reply, s1: Store)
    requires Meaning(s0, call, reply, s1) && 0 !in s0 && 0 !in s1
    ensures s1.Keys == s0.Keys - {Gone(call, reply)} + Items(News(call, reply))
    ensures forall p :: p in s0 && p in s1 && p !in News(call, reply) ==> |s1[p]| == |s0[p]|
  {
    match call
    case Independent(n, sizes, same, chunks) =>
      if reply.r != 0 && chunks == 0 {
        assert Items(News(call, reply)) == Items(if n > 0 then reply.elems else []) + {reply.r};
      } else if reply.r != 0 {
        assert News(call, reply) == if n > 0 then reply.elems else [];
      }
    case _ =>
  }

  /** The store between two calls, and the word where the heap ends. */
  datatype Moment = Moment(store: Store, end: int)

  ghost function Now(a: Arena): Moment
    reads a
  {
    Moment(StoreOf(a), |a.mem|)
  }

  /** A run: the moments before, between and after its calls, and what the system has to offer for each. */
  ghost predicate Happened(moments: seq<Moment>, calls: seq<Call>, results: seq<Reply>, system: int -> Sbrk, pad: int,
                           i: int)
    requires 0 <= i < |results| <= |calls| && |moments| == |results| + 1
  {
    var s0, s1 := moments[i], moments[i + 1];
    && Legal(Blocks(s0.store), calls[i]) && Meaning(s0.store, calls[i], results[i], s1.store) && Separate(s1.store)
    && Answered(calls[i], results[i].r, system(i), pad, s0.end, s1.end)
  }

  ghost predicate AllHappened(moments: seq<Moment>, calls: seq<Call>, results: seq<Reply>, system: int -> Sbrk,
                              pad: int)
  {
    && |results| <= |calls| && |moments| == |results| + 1
    && forall i {:trigger Happened(moments, calls, results, system, pad, i)} ::
         0 <= i < |results| ==> Happened(moments, calls, results, system, pad, i)
  }

  lemma OneMore(moments: seq<Moment>, calls: seq<Call>, results: seq<Reply>, system: int -> Sbrk, pad: int, s: Moment,
                r: Reply)
    requires AllHappened(moments, calls, results, system, pad) && |results| < |calls|
    requires Happened(moments + [s], calls, results + [r], system, pad, |results|)
    ensures AllHappened(moments + [s], calls, results + [r], system, pad)
  {
    forall i | 0 <= i < |results| + 1 ensures Happened(moments + [s], calls, results + [r], system, pad, i) {
      if i < |results| { assert Happened(moments, calls, results, system, pad, i); }
    }
  }

  /** What the first n calls may make the heap grow by, in bytes. */
  function Demand(calls: seq<Call>, pad: int, n: nat): int
    requires n <= |calls|
  {
    if n == 0 then 0
    else Demand(calls, pad, n - 1) + if Asks(calls[n - 1]) then Need(calls[n - 1]) + pad + MINSIZE + PAGE else 0
  }

  lemma {:induction false} DemandEnough(moments: seq<Moment>, calls: seq<Call>, results: seq<Reply>,
                                        system: int -> Sbrk, pad: int, n: nat)
    requires AllHappened(moments, calls, results, system, pad) && n <= |results|
    ensures 8 * moments[n].end <= 8 * moments[0].end + Demand(calls, pad, n)
  {
    if n > 0 {
      DemandEnough(moments, calls, results, system, pad, n - 1);
      assert Happened(moments, calls, results, system, pad, n - 1);
    }
  }

  /** Whatever was freed and trimmed in between: while what has been asked for stays below half the address space,
    a request in range is refused only when the system refuses. */
  lemma NeverRefused(moments: seq<Moment>, calls: seq<Call>, results: seq<Reply>, system: int -> Sbrk, pad: int, n: nat)
    requires AllHappened(moments, calls, results, system, pad) && n < |results|
    requires Asks(calls[n]) && system(n).grants
    requires 8 * moments[0].end + Demand(calls, pad, n + 1) < TWO64 / 2
    ensures results[n].r != 0
  {
    DemandEnough(moments, calls, results, system, pad, n);
    assert Happened(moments, calls, results, system, pad, n);
  }

  /** The client asks for the sizes of its new blocks. */
  method Record(a: Arena, blocks: map<int, int>, news: seq<int>, ghost blocks0: map<int, int>, ghost gone: int)
      returns (blocks': map<int, int>)
    requires a.Valid() && blocks == blocks0 - {gone}
    requires StoreOf(a).Keys == blocks.Keys + Items(news) && 0 !in news
    requires forall p :: p in blocks && p !in news ==> |StoreOf(a)[p]| == blocks[p]
    ensures blocks' == Blocks(StoreOf(a))
  {
    hide StoreIn;
    ghost var s := StoreOf(a);
    AlwaysSeparate(a);
    blocks' := blocks;
    for i := 0 to |news|
      invariant forall p :: p in blocks' <==> p in blocks || p in news[..i]
      invariant forall p :: p in blocks' && (p in news[..i] || p !in news) ==> p in s && blocks'[p] == |s[p]|
    {
      assert news[i] in Items(news);
      var words := Usable(a, news[i]);
      assert news[..i + 1] == news[..i] + [news[i]];
      blocks' := blocks'[news[i] := words];
    }
    assert news[..|news|] == news;
    assert forall p :: p in s <==> p in blocks || p in Items(news);
    assert forall p :: p in s <==> p in blocks';
    assert blocks'.Keys == s.Keys;
    assert forall p :: p in s ==> blocks'[p] == Blocks(s)[p];
  }

  /** A call, and the client's record of it. */
  method Take(a: Arena, blocks: map<int, int>, call: Call, sys: Sbrk) returns (reply: Reply, blocks': map<int, int>)
    requires a.Valid() && blocks == Blocks(StoreOf(a)) && Legal(blocks, call)
    modifies a
    ensures a.Valid() && Meaning(old(StoreOf(a)), call, reply, StoreOf(a)) && Separate(StoreOf(a))
    ensures blocks' == Blocks(StoreOf(a))
    ensures Answered(call, reply.r, sys, a.topPad, |old(a.mem)|, |a.mem|)
  {
    hide Meaning, Arena.Valid;
    ghost var s0 := StoreOf(a);
    NoZero(a);
    reply := Perform(a, call, sys);
    NoZero(a);
    RecordKeys(s0, call, reply, StoreOf(a));
    AlwaysSeparate(a);
    var gone := Gone(call, reply);
    ghost var s1 := StoreOf(a);
    assert 0 in News(call, reply) ==> 0 in Items(News(call, reply));
    blocks' := Record(a, blocks - {gone}, News(call, reply), blocks, gone);
  }

  lemma NoZero(a: Arena)
    requires a.Valid()
    ensures 0 !in StoreOf(a)
  {
    LiveInBounds(a);
  }

  /** Any sequence of calls, up to the first that is not legal, with any behaviour of the system, means what
    the calls mean one after the other on a store of separate blocks; the arena stays in order. */
  method Run(a: Arena, blocks0: map<int, int>, calls: seq<Call>, system: int -> Sbrk)
    returns (results: seq<Reply>, ghost moments: seq<Moment>)
    requires a.Valid() && blocks0 == Blocks(StoreOf(a))
    modifies a
    ensures a.Valid() && |results| <= |calls| && |moments| == |results| + 1
    ensures moments[0] == old(Now(a)) && moments[|results|] == Now(a)
    ensures AllHappened(moments, calls, results, system, a.topPad)
    ensures |results| < |calls| ==> !Legal(Blocks(StoreOf(a)), calls[|results|])
  {
    results, moments := [], [Now(a)];
    var blocks := blocks0;
    while |results| < |calls| && Legal(blocks, calls[|results|])
      invariant a.Valid() && |results| <= |calls| && |moments| == |results| + 1
      invariant moments[0] == old(Now(a)) && moments[|results|] == Now(a) && blocks == Blocks(StoreOf(a))
      invariant AllHappened(moments, calls, results, system, a.topPad)
      decreases |calls| - |results|
    {
      var r, blocks' := Take(a, blocks, calls[|results|], system(|results|));
      OneMore(moments, calls, results, system, a.topPad, Now(a), r);
      results, moments, blocks := results + [r], moments + [Now(a)], blocks';
    }
  }

  // ------------------------------------------------------------------ the first request

  /** Where the first two MORECOREs leave the break: the size rounded to pages, then to a page border. */
  function FirstEnd(brk: int, size: int): int {
    var correction := (brk + size + (PAGE - 1)) / PAGE * PAGE - (brk + size);
    brk + size + correction
  }

  /** A new arena, whose first top holds the first request; the break was at `brk`, a multiple of 16. */
  method Open(brk: int, nb: int, filler: int -> int, maxFast: int, topPad: int, trimThreshold: int) returns (a: Arena)
    requires brk % 16 == 0 && 8 * FIRST <= brk && Padded(nb) && brk + nb + topPad + MINSIZE + 2 * PAGE < TWO64 / 2
    requires 16 <= maxFast <= 160 && maxFast % 16 == 0 && 0 <= topPad < TWO64 / 2 && 0 <= trimThreshold < TWO64
    ensures fresh(a) && a.Valid() && a.live == map[] && StoreOf(a) == map[] && a.base == a.top == brk / 8
    ensures a.maxFast == maxFast && a.topPad == topPad && a.trimThreshold == trimThreshold
    ensures 8 * a.g.c[a.top].n >= nb + topPad + MINSIZE && 8 * |a.mem| <= brk + nb + topPad + MINSIZE + 2 * PAGE
  {
    var size := Shortfall(nb, topPad, 0);
    ShortfallEnough(nb, topPad, 0);
    var end := FirstEnd(brk, size);
    EndWhole(brk + size);
    a := new Arena(brk / 8, end / 8, filler, maxFast, topPad, trimThreshold);
    TopShape(a);
    assert StoreOf(a) == map[];
  }

  /** One block of 2 to the 31st bytes: mALLINFo reports a negative number of bytes in use. */
  method TwoGigabytes(brk: int, filler: int -> int) returns (a: Arena, p: int, info: Accounts.Info)
    requires brk % 16 == 0 && 8 * FIRST <= brk < TWO64 / 4
    ensures fresh(a) && a.Valid() && a.live.Keys == {p} && Accounts.InUse(a) >= Accounts.TWO31
    ensures info.uordblks == Accounts.InUse(a) - 2 * Accounts.TWO31 < 0
  {
    hide Arena.Valid, Searched, FastHit, SmallHit, Request2Size, UserSame;
    var nb := Accounts.TWO31;
    a := Open(brk, nb, filler, 128, 0, 128 * 1024);
    PadUnpad(nb);
    p := IntMalloc(a, nb - 15, Sbrk(true, filler, 0));
    info := Accounts.MallInfo(a);
    OneBlock(a, p);
    Accounts.Int32Negative(Accounts.InUse(a));
  }

  lemma OneBlock(a: Arena, p: int)
    requires a.Valid() && a.live.Keys == {p}
    ensures Accounts.InUse(a) == 8 * a.live[p]
  {
    assert p in a.live;
    assert ChunkOk(a.mem, a.g.c, a.base, p);
    Accounts.WordsTake(a.g.c, {p}, p, |a.mem|);
    assert {p} - {p} == {};
    Accounts.WordsNone(a.g.c, |a.mem|);
  }

  lemma EndWhole(x: int)
    requires 0 <= x
    ensures var e := (x + (PAGE - 1)) / PAGE * PAGE; x <= e < x + PAGE && e == 8 * (e / 8) && (e / 8) % PAGEWORDS == 0
  {
    var t := (x + (PAGE - 1)) / PAGE;
    assert PAGE * t / 8 == PAGEWORDS * t;
  }
}
