/** The size-ordered list of a large bin and the skip list of its distinct sizes.

  The first chunk of every size in the bin, and no other, carries nextsize pointers; these close
  a second ring, without a head, that visits the sizes in decreasing order. */
module Ladders {
  import opened Chunks
  import opened Rings

  function Size(c: Chunks, x: int): int {
    if x in c then c[x].n else 0
  }

  ghost predicate Sorted(c: Chunks, l: seq<int>) {
    forall j, k :: 0 <= j < k < |l| ==> Size(c, l[j]) >= Size(c, l[k])
  }

  /** Position `k` of a sorted list holds the first chunk of its size. */
  ghost predicate IsFirst(c: Chunks, l: seq<int>, k: int)
    requires 0 <= k < |l|
  {
    k == 0 || Size(c, l[k - 1]) != Size(c, l[k])
  }

  ghost predicate StrictlyDecreasing(c: Chunks, s: seq<int>) {
    forall i, j :: 0 <= i < j < |s| ==> Size(c, s[i]) > Size(c, s[j])
  }

  ghost predicate FirstOk(c: Chunks, l: seq<int>, s: seq<int>, k: int)
    requires 0 <= k < |l|
  {
    l[k] in s <==> IsFirst(c, l, k)
  }

  /** `s` lists exactly the first chunks of the sizes in `l`. */
  ghost predicate Firsts(c: Chunks, l: seq<int>, s: seq<int>) {
    && StrictlyDecreasing(c, s)
    && (forall i :: 0 <= i < |s| ==> s[i] in l)
    && (forall k {:trigger FirstOk(c, l, s, k)} :: 0 <= k < |l| ==> FirstOk(c, l, s, k))
  }

  function Next(s: seq<int>, k: int): int
    requires 0 <= k < |s|
  {
    if k + 1 == |s| then s[0] else s[k + 1]
  }

  ghost predicate Stepped(mem: seq<int>, s: seq<int>, k: int)
    requires 0 <= k < |s|
  {
    var x, y := s[k], Next(s, k);
    && 0 < x && x % 2 == 0 && x + BK_NEXTSIZE < |mem|
    && 0 < y && y % 2 == 0 && y + BK_NEXTSIZE < |mem|
    && mem[x + FD_NEXTSIZE] == y && mem[y + BK_NEXTSIZE] == x
  }

  ghost predicate SkipRing(mem: seq<int>, s: seq<int>) {
    forall k {:trigger Stepped(mem, s, k)} :: 0 <= k < |s| ==> Stepped(mem, s, k)
  }

  ghost predicate NoSkip(mem: seq<int>, x: int) {
    0 < x && x + BK_NEXTSIZE < |mem| && mem[x + FD_NEXTSIZE] == 0 && mem[x + BK_NEXTSIZE] == 0
  }

  ghost predicate Plain(mem: seq<int>, s: seq<int>, x: int) {
    x in s || NoSkip(mem, x)
  }

  /** What the source checks of a large bin, apart from the plain list links. */
  ghost predicate Ladder(mem: seq<int>, c: Chunks, l: seq<int>, s: seq<int>) {
    && Sorted(c, l) && Distinct(l) && Firsts(c, l, s) && SkipRing(mem, s)
    && forall x {:trigger Plain(mem, s, x)} :: x in l ==> Plain(mem, s, x)
  }

  // ------------------------------------------------------------------ runs of equal size

  /** The first chunk of the size found at position `k`. */
  lemma {:induction false} FirstOf(c: Chunks, l: seq<int>, s: seq<int>, k: int) returns (j: int)
    requires Sorted(c, l) && Firsts(c, l, s) && 0 <= k < |l|
    ensures 0 <= j <= k && Size(c, l[j]) == Size(c, l[k]) && l[j] in s
    decreases k
  {
    assert FirstOk(c, l, s, k);
    if IsFirst(c, l, k) {
      j := k;
    } else {
      j := FirstOf(c, l, s, k - 1);
    }
  }

  /** The skip list starts where the list starts. */
  lemma LadderTop(mem: seq<int>, c: Chunks, l: seq<int>, s: seq<int>)
    requires Ladder(mem, c, l, s)
    ensures |l| > 0 <==> |s| > 0
    ensures |l| > 0 ==> s[0] == l[0]
  {
    if |l| > 0 {
      assert FirstOk(c, l, s, 0);
      var i :| 0 <= i < |s| && s[i] == l[0];
      var k :| 0 <= k < |l| && l[k] == s[0];
    }
  }

  /** A step of the skip list misses no size in between. */
  lemma LadderGap(mem: seq<int>, c: Chunks, l: seq<int>, s: seq<int>, k: int, i: int)
    requires Ladder(mem, c, l, s) && 0 <= k < |l| && 0 <= i <= |s|
    requires i == |s| || Size(c, l[k]) > Size(c, s[i])
    ensures 0 < i && Size(c, l[k]) >= Size(c, s[i - 1])
  {
    var j := FirstOf(c, l, s, k);
    var i' :| 0 <= i' < |s| && s[i'] == l[j];
  }

  // ------------------------------------------------------------------ the list changes

  lemma InsertSame(mem: seq<int>, c: Chunks, l: seq<int>, s: seq<int>, j: int, v: int)
    requires Ladder(mem, c, l, s) && 0 < j <= |l| && v !in l && NoSkip(mem, v)
    requires Size(c, v) == Size(c, l[j - 1])
    ensures Ladder(mem, c, With(l, j, v), s)
  {
    var w := With(l, j, v);
    WithHas(l, j, v);
    forall x | x in w ensures Plain(mem, s, x) {
      if x != v { assert Plain(mem, s, x); }
    }
    forall k | 0 <= k < |w| ensures FirstOk(c, w, s, k) {
      if k < j {
        assert FirstOk(c, l, s, k);
      } else if k > j {
        assert FirstOk(c, l, s, k - 1);
      }
    }
  }

  lemma RemovePlain(mem: seq<int>, c: Chunks, l: seq<int>, s: seq<int>, j: int)
    requires Ladder(mem, c, l, s) && 0 <= j < |l| && l[j] !in s
    ensures Ladder(mem, c, Without(l, j), s)
  {
    var w := Without(l, j);
    WithoutHas(l, j);
    forall x | x in w ensures Plain(mem, s, x) {
      assert Plain(mem, s, x);
    }
    assert FirstOk(c, l, s, j);
    forall k | 0 <= k < |w| ensures FirstOk(c, w, s, k) {
      if k < j {
        assert FirstOk(c, l, s, k);
      } else {
        assert FirstOk(c, l, s, k + 1);
      }
    }
  }

  // ------------------------------------------------------------------ the skip list changes

  function Prev(s: seq<int>, k: int): int
    requires 0 <= k < |s|
  {
    if k == 0 then s[|s| - 1] else s[k - 1]
  }

  lemma StepBack(mem: seq<int>, s: seq<int>, k: int)
    requires SkipRing(mem, s) && 0 <= k < |s|
    ensures Stepped(mem, s, k) && 0 < s[k] && s[k] + BK_NEXTSIZE < |mem|
    ensures 0 < Next(s, k) && 0 < Prev(s, k)
    ensures mem[s[k] + FD_NEXTSIZE] == Next(s, k) && mem[s[k] + BK_NEXTSIZE] == Prev(s, k)
    ensures Next(s, k) + BK_NEXTSIZE < |mem| && mem[Next(s, k) + BK_NEXTSIZE] == s[k]
    ensures Prev(s, k) + BK_NEXTSIZE < |mem| && mem[Prev(s, k) + FD_NEXTSIZE] == s[k]
    ensures Next(s, k) % 2 == 0 && Prev(s, k) % 2 == 0
  {
    assert Stepped(mem, s, k);
    assert Stepped(mem, s, if k == 0 then |s| - 1 else k - 1);
  }

  /** The neighbours of a new first chunk put in front of position `i`. */
  function After(s: seq<int>, i: int): int
    requires 0 <= i <= |s| && 0 < |s|
  {
    if i == |s| then s[0] else s[i]
  }

  function Before(s: seq<int>, i: int): int
    requires 0 <= i <= |s| && 0 < |s|
  {
    if i == 0 then s[|s| - 1] else s[i - 1]
  }

  ghost predicate InMem(mem: seq<int>, x: int) {
    0 <= x && x + BK_NEXTSIZE < |mem|
  }

  /** Memory after `v` is threaded between `b` and `f` on the skip list. */
  function Threaded(mem: seq<int>, b: int, f: int, v: int): seq<int>
    requires InMem(mem, b) && InMem(mem, f) && InMem(mem, v)
  {
    mem[v + FD_NEXTSIZE := f][v + BK_NEXTSIZE := b][f + BK_NEXTSIZE := v][b + FD_NEXTSIZE := v]
  }

  /** `m` is `mem` with `v` threaded between `b` and `f`. */
  ghost predicate Threads(m: seq<int>, mem: seq<int>, b: int, f: int, v: int) {
    && |m| == |mem| && InMem(mem, b) && InMem(mem, f) && InMem(mem, v)
    && m[v + FD_NEXTSIZE] == f && m[f + BK_NEXTSIZE] == v && m[b + FD_NEXTSIZE] == v && m[v + BK_NEXTSIZE] == b
    && forall a ::
         0 <= a < |mem| && a != v + FD_NEXTSIZE && a != b + FD_NEXTSIZE && a != v + BK_NEXTSIZE && a != f + BK_NEXTSIZE
         ==> m[a] == mem[a]
  }

  lemma ThreadedThreads(mem: seq<int>, b: int, f: int, v: int)
    requires InMem(mem, b) && InMem(mem, f) && InMem(mem, v)
    requires b % 2 == 0 && f % 2 == 0 && v % 2 == 0 && ((v != b && v != f) || (v == b && v == f))
    ensures Threads(Threaded(mem, b, f, v), mem, b, f, v)
  {
  }

  lemma SkipInsert(mem: seq<int>, s: seq<int>, i: int, v: int)
    requires SkipRing(mem, s) && Distinct(s) && 0 <= i <= |s| && 0 < |s|
    requires v !in s && 0 < v && v % 2 == 0 && v + BK_NEXTSIZE < |mem|
    ensures InMem(mem, Before(s, i)) && InMem(mem, After(s, i))
    ensures SkipRing(Threaded(mem, Before(s, i), After(s, i), v), With(s, i, v))
  {
    StepBack(mem, s, if i == |s| then 0 else i);
    StepBack(mem, s, if i == 0 then |s| - 1 else i - 1);
    var b, f := Before(s, i), After(s, i);
    ThreadedThreads(mem, b, f, v);
    Inserting(mem, Threaded(mem, b, f, v), s, i, v);
  }

  lemma Inserting(mem: seq<int>, m: seq<int>, s: seq<int>, i: int, v: int)
    requires SkipRing(mem, s) && Distinct(s) && 0 <= i <= |s| && 0 < |s|
    requires v !in s && 0 < v && v % 2 == 0 && Threads(m, mem, Before(s, i), After(s, i), v)
    ensures SkipRing(m, With(s, i, v))
  {
    StepBack(mem, s, if i == |s| then 0 else i);
    StepBack(mem, s, if i == 0 then |s| - 1 else i - 1);
    var w := With(s, i, v);
    assert w[i] == v && Next(w, i) == After(s, i);
    forall k | 0 <= k < |w| ensures Stepped(m, w, k) {
      if k != i {
        assert Stepped(mem, s, if k < i then k else k - 1);
        InsertingAt(mem, m, s, i, v, k);
      }
    }
  }

  lemma InsertingAt(mem: seq<int>, m: seq<int>, s: seq<int>, i: int, v: int, k: int)
    requires Distinct(s) && 0 <= i <= |s| && 0 < |s| && 0 <= k <= |s| && k != i
    requires Stepped(mem, s, if k < i then k else k - 1)
    requires v !in s && 0 < v && v % 2 == 0 && Threads(m, mem, Before(s, i), After(s, i), v)
    requires Before(s, i) % 2 == 0 && After(s, i) % 2 == 0
    ensures Stepped(m, With(s, i, v), k)
  {
    var w, o := With(s, i, v), if k < i then k else k - 1;
    assert w[k] == s[o];
    if k + 1 == i || (i == 0 && k + 1 == |w|) {
      assert Next(w, k) == v && w[k] == Before(s, i);
    } else {
      assert Next(w, k) == Next(s, o);
      assert w[k] != Before(s, i) && Next(w, k) != After(s, i);
    }
  }

  lemma OrderInsert(c: Chunks, l: seq<int>, j: int, v: int)
    requires Sorted(c, l) && Distinct(l) && 0 <= j <= |l| && v !in l
    requires j > 0 ==> Size(c, l[j - 1]) >= Size(c, v)
    requires j < |l| ==> Size(c, v) >= Size(c, l[j])
    ensures Sorted(c, With(l, j, v)) && Distinct(With(l, j, v))
  {
  }

  lemma StrictInsert(c: Chunks, s: seq<int>, i: int, v: int)
    requires StrictlyDecreasing(c, s) && 0 <= i <= |s|
    requires i > 0 ==> Size(c, s[i - 1]) > Size(c, v)
    requires i < |s| ==> Size(c, v) > Size(c, s[i])
    ensures StrictlyDecreasing(c, With(s, i, v))
  {
  }

  lemma FirstsInsert(c: Chunks, l: seq<int>, s: seq<int>, j: int, i: int, v: int)
    requires Sorted(c, l) && Firsts(c, l, s) && 0 <= j <= |l| && 0 <= i <= |s| && v !in l
    requires j > 0 ==> Size(c, l[j - 1]) > Size(c, v)
    requires j < |l| ==> Size(c, v) > Size(c, l[j])
    requires i > 0 ==> Size(c, s[i - 1]) > Size(c, v)
    requires i < |s| ==> Size(c, v) > Size(c, s[i])
    ensures Firsts(c, With(l, j, v), With(s, i, v))
  {
    var w, t := With(l, j, v), With(s, i, v);
    WithHas(l, j, v);
    WithHas(s, i, v);
    StrictInsert(c, s, i, v);
    forall k | 0 <= k < |w| ensures FirstOk(c, w, t, k) {
      FirstsInsertAt(c, l, s, t, j, v, k);
    }
  }

  lemma FirstsInsertAt(c: Chunks, l: seq<int>, s: seq<int>, t: seq<int>, j: int, v: int, k: int)
    requires Sorted(c, l) && Firsts(c, l, s) && 0 <= j <= |l| && v !in l && 0 <= k <= |l|
    requires j > 0 ==> Size(c, l[j - 1]) > Size(c, v)
    requires j < |l| ==> Size(c, v) > Size(c, l[j])
    requires forall x :: x in t <==> x in s || x == v
    ensures FirstOk(c, With(l, j, v), t, k)
  {
    var w := With(l, j, v);
    if k < j {
      assert FirstOk(c, l, s, k);
      assert w[k] == l[k] && (k > 0 ==> w[k - 1] == l[k - 1]);
    } else if k > j {
      assert FirstOk(c, l, s, k - 1);
      assert w[k] == l[k - 1] && w[k - 1] == if k == j + 1 then v else l[k - 2];
    } else {
      assert w[k] == v;
    }
  }

  /** A chunk without nextsize pointers keeps none when others are threaded. */
  lemma StillPlain(m: seq<int>, mem: seq<int>, b: int, f: int, v: int, x: int)
    requires Threads(m, mem, b, f, v) && NoSkip(mem, x) && x != v && x != b && x != f
    requires x % 2 == 0 && b % 2 == 0 && f % 2 == 0 && v % 2 == 0
    ensures NoSkip(m, x)
  {
  }

  lemma InsertNew(mem: seq<int>, c: Chunks, l: seq<int>, s: seq<int>, j: int, i: int, v: int)
    requires Ladder(mem, c, l, s) && 0 <= j <= |l| && 0 <= i <= |s| && 0 < |l|
    requires v !in l && 0 < v && v % 2 == 0 && v + BK_NEXTSIZE < |mem|
    requires forall k :: 0 <= k < |l| ==> l[k] % 2 == 0
    requires j > 0 ==> Size(c, l[j - 1]) > Size(c, v)
    requires j < |l| ==> Size(c, v) > Size(c, l[j])
    requires i > 0 ==> Size(c, s[i - 1]) > Size(c, v)
    requires i < |s| ==> Size(c, v) > Size(c, s[i])
    ensures |s| > 0 && InMem(mem, Before(s, i)) && InMem(mem, After(s, i))
    ensures Ladder(Threaded(mem, Before(s, i), After(s, i), v), c, With(l, j, v), With(s, i, v))
  {
    LadderTop(mem, c, l, s);
    assert v !in s;
    SkipInsert(mem, s, i, v);
    FirstsInsert(c, l, s, j, i, v);
    OrderInsert(c, l, j, v);
    ThreadedThreads(mem, Before(s, i), After(s, i), v);
    PlainInsert(Threaded(mem, Before(s, i), After(s, i), v), mem, l, s, j, i, v);
  }

  lemma PlainInsert(m: seq<int>, mem: seq<int>, l: seq<int>, s: seq<int>, j: int, i: int, v: int)
    requires 0 <= j <= |l| && 0 <= i <= |s| && 0 < |s| && v % 2 == 0
    requires forall k :: 0 <= k < |l| ==> l[k] % 2 == 0
    requires forall i :: 0 <= i < |s| ==> s[i] in l
    requires forall x {:trigger Plain(mem, s, x)} :: x in l ==> Plain(mem, s, x)
    requires Threads(m, mem, Before(s, i), After(s, i), v)
    ensures forall x {:trigger Plain(m, With(s, i, v), x)} :: x in With(l, j, v) ==> Plain(m, With(s, i, v), x)
  {
    WithHas(l, j, v);
    WithHas(s, i, v);
    var b, f := Before(s, i), After(s, i);
    assert b in s && f in s && b in l && f in l;
    forall x | x in With(l, j, v) ensures Plain(m, With(s, i, v), x) {
      if x != v {
        assert Plain(mem, s, x);
        if x !in s { StillPlain(m, mem, b, f, v, x); }
      }
    }
  }

  lemma SkipRemove(mem: seq<int>, s: seq<int>, i: int)
    requires SkipRing(mem, s) && Distinct(s) && 0 <= i < |s|
    ensures InMem(mem, Prev(s, i)) && InMem(mem, Next(s, i))
    ensures SkipRing(mem[Next(s, i) + BK_NEXTSIZE := Prev(s, i)][Prev(s, i) + FD_NEXTSIZE := Next(s, i)], Without(s, i))
  {
    StepBack(mem, s, i);
    var b, f := Prev(s, i), Next(s, i);
    var m, w := mem[f + BK_NEXTSIZE := b][b + FD_NEXTSIZE := f], Without(s, i);
    forall k | 0 <= k < |w| ensures Stepped(m, w, k) {
      var o := if k < i then k else k + 1;
      assert Stepped(mem, s, o) && w[k] == s[o];
      if k + 1 == i || (i == 0 && k + 1 == |w|) {
        assert w[k] == b && Next(w, k) == f;
      } else {
        assert Next(w, k) == Next(s, o);
        assert w[k] != b && Next(w, k) != f;
      }
    }
  }

  lemma FirstsRemove(c: Chunks, l: seq<int>, s: seq<int>, j: int, i: int)
    requires Sorted(c, l) && Distinct(l) && Distinct(s) && Firsts(c, l, s)
    requires 0 <= j < |l| && 0 <= i < |s| && l[j] == s[i]
    requires j + 1 < |l| ==> l[j + 1] in s
    ensures Firsts(c, Without(l, j), Without(s, i))
  {
    var w, t := Without(l, j), Without(s, i);
    forall k | 0 <= k < |w| ensures FirstOk(c, w, t, k) {
      FirstsRemoveAt(c, l, s, j, i, k);
    }
    WithoutHas(l, j);
    WithoutHas(s, i);
  }

  lemma FirstsRemoveAt(c: Chunks, l: seq<int>, s: seq<int>, j: int, i: int, k: int)
    requires Sorted(c, l) && Distinct(l) && Distinct(s) && Firsts(c, l, s)
    requires 0 <= j < |l| && 0 <= i < |s| && l[j] == s[i] && 0 <= k < |l| - 1
    requires j + 1 < |l| ==> l[j + 1] in s
    ensures FirstOk(c, Without(l, j), Without(s, i), k)
  {
    var q := if k < j then k else k + 1;
    assert FirstOk(c, l, s, j) && FirstOk(c, l, s, q);
    StillIn(s, i, l[q]);
    assert Without(l, j)[k] == l[q] != l[j];
    hide Firsts, Distinct, Without;
    if k == j {
      assert k > 0 ==> Without(l, j)[k - 1] == l[k - 1] by { WithoutAt(l, j, k - 1); }
      assert k > 0 ==> Size(c, l[k - 1]) >= Size(c, l[j]) >= Size(c, l[k + 1]);
    } else {
      assert k > 0 ==> Without(l, j)[k - 1] == l[q - 1] by { WithoutAt(l, j, k - 1); }
    }
  }

  lemma WithoutAt(l: seq<int>, j: int, k: int)
    requires 0 <= j < |l| && -1 <= k < |l| - 1
    ensures k >= 0 ==> Without(l, j)[k] == if k < j then l[k] else l[k + 1]
  {
  }

  lemma StillIn(s: seq<int>, i: int, x: int)
    requires 0 <= i < |s| && Distinct(s) && x != s[i]
    ensures x in Without(s, i) <==> x in s
  {
    WithoutHas(s, i);
  }

  /** The only chunk of its size leaves, and its entry in the skip list with it. */
  lemma RemoveFirst(mem: seq<int>, c: Chunks, l: seq<int>, s: seq<int>, j: int, i: int)
    requires Ladder(mem, c, l, s) && 0 <= j < |l| && 0 <= i < |s| && l[j] == s[i]
    requires forall k :: 0 <= k < |l| ==> l[k] % 2 == 0
    requires j + 1 < |l| ==> l[j + 1] in s
    ensures InMem(mem, Prev(s, i)) && InMem(mem, Next(s, i))
    ensures Ladder(mem[Next(s, i) + BK_NEXTSIZE := Prev(s, i)][Prev(s, i) + FD_NEXTSIZE := Next(s, i)], c,
                   Without(l, j), Without(s, i))
  {
    SkipRemove(mem, s, i);
    FirstsRemove(c, l, s, j, i);
    PlainRemove(mem, l, s, j, i);
  }

  lemma PlainRemove(mem: seq<int>, l: seq<int>, s: seq<int>, j: int, i: int)
    requires 0 <= j < |l| && 0 <= i < |s| && l[j] == s[i] && Distinct(l) && Distinct(s)
    requires forall k :: 0 <= k < |l| ==> l[k] % 2 == 0
    requires forall i :: 0 <= i < |s| ==> s[i] in l
    requires forall x {:trigger Plain(mem, s, x)} :: x in l ==> Plain(mem, s, x)
    requires InMem(mem, Prev(s, i)) && InMem(mem, Next(s, i))
    ensures var m := mem[Next(s, i) + BK_NEXTSIZE := Prev(s, i)][Prev(s, i) + FD_NEXTSIZE := Next(s, i)];
      forall x {:trigger Plain(m, Without(s, i), x)} :: x in Without(l, j) ==> Plain(m, Without(s, i), x)
  {
    var b, f := Prev(s, i), Next(s, i);
    var m := mem[f + BK_NEXTSIZE := b][b + FD_NEXTSIZE := f];
    WithoutHas(l, j);
    WithoutHas(s, i);
    assert b in s && f in s && b in l && f in l;
    forall x | x in Without(l, j) ensures Plain(m, Without(s, i), x) {
      assert Plain(mem, s, x);
    }
  }

  lemma SkipReplace(mem: seq<int>, s: seq<int>, i: int, v: int)
    requires SkipRing(mem, s) && Distinct(s) && 0 <= i < |s|
    requires v !in s && 0 < v && v % 2 == 0 && v + BK_NEXTSIZE < |mem|
    ensures InMem(mem, Prev(s, i)) && InMem(mem, Next(s, i))
    ensures |s| > 1 ==> SkipRing(Threaded(mem, Prev(s, i), Next(s, i), v), s[i := v])
    ensures |s| == 1 ==> SkipRing(Threaded(mem, v, v, v), s[i := v])
  {
    StepBack(mem, s, i);
    if |s| == 1 {
      ThreadedThreads(mem, v, v, v);
      Replacing(mem, Threaded(mem, v, v, v), s, i, v);
    } else {
      ThreadedThreads(mem, Prev(s, i), Next(s, i), v);
      Replacing(mem, Threaded(mem, Prev(s, i), Next(s, i), v), s, i, v);
    }
  }

  lemma Replacing(mem: seq<int>, m: seq<int>, s: seq<int>, i: int, v: int)
    requires SkipRing(mem, s) && Distinct(s) && 0 <= i < |s|
    requires v !in s && 0 < v && v % 2 == 0
    requires if |s| == 1 then Threads(m, mem, v, v, v) else Threads(m, mem, Prev(s, i), Next(s, i), v)
    ensures SkipRing(m, s[i := v])
  {
    StepBack(mem, s, i);
    var b, f, w := Prev(s, i), Next(s, i), s[i := v];
    forall k | 0 <= k < |w| ensures Stepped(m, w, k) {
      assert Stepped(mem, s, k);
      if k != i {
        if k + 1 == i || (i == 0 && k + 1 == |w|) {
          assert w[k] == b && Next(w, k) == v;
        } else {
          assert Next(w, k) == Next(s, k) && w[k] != b && Next(w, k) != f;
        }
      } else if |s| > 1 {
        assert Next(w, k) == f && f != v;
      }
    }
  }

  /** The first chunk of a size leaves and the second takes its place in the skip list. */
  lemma ReplaceFirst(mem: seq<int>, c: Chunks, l: seq<int>, s: seq<int>, j: int, i: int)
    requires Ladder(mem, c, l, s) && 0 <= j && j + 1 < |l| && 0 <= i < |s| && l[j] == s[i]
    requires l[j + 1] !in s && forall k :: 0 <= k < |l| ==> l[k] % 2 == 0
    ensures 0 < l[j + 1] && l[j + 1] + BK_NEXTSIZE < |mem|
    ensures InMem(mem, Prev(s, i)) && InMem(mem, Next(s, i))
    ensures var v := l[j + 1];
      Ladder(if |s| == 1 then Threaded(mem, v, v, v) else Threaded(mem, Prev(s, i), Next(s, i), v), c,
             Without(l, j), s[i := v])
  {
    var v := l[j + 1];
    assert Plain(mem, s, v);
    SkipReplace(mem, s, i, v);
    FirstsReplace(c, l, s, j, i);
    StepBack(mem, s, i);
    ThreadedThreads(mem, v, v, v);
    if |s| > 1 {
      ThreadedThreads(mem, Prev(s, i), Next(s, i), v);
      PlainReplace(Threaded(mem, Prev(s, i), Next(s, i), v), mem, l, s, j, i, Prev(s, i), Next(s, i));
    } else {
      PlainReplace(Threaded(mem, v, v, v), mem, l, s, j, i, v, v);
    }
  }

  lemma PlainReplace(m: seq<int>, mem: seq<int>, l: seq<int>, s: seq<int>, j: int, i: int, b: int, f: int)
    requires 0 <= j && j + 1 < |l| && 0 <= i < |s| && l[j] == s[i] && Distinct(l) && Distinct(s)
    requires forall k :: 0 <= k < |l| ==> l[k] % 2 == 0
    requires forall i :: 0 <= i < |s| ==> s[i] in l
    requires forall x {:trigger Plain(mem, s, x)} :: x in l ==> Plain(mem, s, x)
    requires b in s + [l[j + 1]] && f in s + [l[j + 1]] && Threads(m, mem, b, f, l[j + 1])
    ensures forall x {:trigger Plain(m, s[i := l[j + 1]], x)} :: x in Without(l, j) ==> Plain(m, s[i := l[j + 1]], x)
  {
    var v := l[j + 1];
    var t := s[i := v];
    WithoutHas(l, j);
    ReplaceHas(s, i, v);
    assert b in l && f in l;
    forall x | x in Without(l, j) ensures Plain(m, t, x) {
      assert Plain(mem, s, x);
      if x !in s && x != v {
        StillPlain(m, mem, b, f, v, x);
      }
    }
  }

  lemma FirstsReplace(c: Chunks, l: seq<int>, s: seq<int>, j: int, i: int)
    requires Sorted(c, l) && Distinct(l) && Distinct(s) && Firsts(c, l, s)
    requires 0 <= j && j + 1 < |l| && 0 <= i < |s| && l[j] == s[i] && l[j + 1] !in s
    ensures Firsts(c, Without(l, j), s[i := l[j + 1]])
  {
    var w, v := Without(l, j), l[j + 1];
    var t := s[i := v];
    assert FirstOk(c, l, s, j) && FirstOk(c, l, s, j + 1);
    WithoutHas(l, j);
    ReplaceHas(s, i, v);
    forall k | 0 <= k < |w| ensures FirstOk(c, w, t, k) {
      assert FirstOk(c, l, s, if k < j then k else k + 1);
    }
  }

  // ------------------------------------------------------------------ frames

  /** A store that misses the nextsize words of the bin leaves its ladder alone. */
  lemma LadderFrame(mem: seq<int>, c: Chunks, l: seq<int>, s: seq<int>, a: int, v: int)
    requires Ladder(mem, c, l, s) && 0 <= a < |mem|
    requires forall x :: x in l ==> a != x + FD_NEXTSIZE && a != x + BK_NEXTSIZE
    ensures Ladder(mem[a := v], c, l, s)
  {
    var m := mem[a := v];
    forall k | 0 <= k < |s| ensures Stepped(m, s, k) {
      assert Stepped(mem, s, k);
      assert s[k] in l && Next(s, k) in l;
    }
    forall x | x in l ensures Plain(m, s, x) {
      assert Plain(mem, s, x);
    }
  }

  /** A ladder depends on the chunks only through the sizes of its own. */
  lemma LadderSizes(mem: seq<int>, c: Chunks, d: Chunks, l: seq<int>, s: seq<int>)
    requires Ladder(mem, c, l, s)
    requires forall x :: x in l ==> Size(c, x) == Size(d, x)
    ensures Ladder(mem, d, l, s)
  {
    forall k | 0 <= k < |l| ensures FirstOk(d, l, s, k) {
      assert FirstOk(c, l, s, k);
    }
    forall i | 0 <= i < |s| ensures Size(c, s[i]) == Size(d, s[i]) {
      assert s[i] in l;
    }
  }
}
