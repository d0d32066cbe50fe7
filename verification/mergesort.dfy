/** What slist_sort computes, on sequences: a merge sort that takes from the left on ties. */
module MergeSort {
  function Merge<T>(a: seq<T>, b: seq<T>, compare: (T, T) -> int): (m: seq<T>)
    ensures |m| == |a| + |b|
  {
    if a == [] then b
    else if b == [] then a
    else if compare(a[0], b[0]) <= 0 then [a[0]] + Merge(a[1..], b, compare)
    else [b[0]] + Merge(a, b[1..], compare)
  }

  function Sort<T>(s: seq<T>, compare: (T, T) -> int): (r: seq<T>)
    ensures |r| == |s|
    decreases |s|
  {
    if |s| <= 1 then s
    else Merge(Sort(s[..|s| / 2], compare), Sort(s[|s| / 2..], compare), compare)
  }

  // ------------------------------------------------------------------ the same items

  lemma {:induction false} MergeItems<T>(a: seq<T>, b: seq<T>, compare: (T, T) -> int)
    ensures multiset(Merge(a, b, compare)) == multiset(a) + multiset(b)
  {
    if a != [] && b != [] {
      if compare(a[0], b[0]) <= 0 {
        MergeItems(a[1..], b, compare);
        assert a == [a[0]] + a[1..];
      } else {
        MergeItems(a, b[1..], compare);
        assert b == [b[0]] + b[1..];
      }
    }
  }

  /** Whatever the comparison answers, the items are the same. */
  lemma {:induction false} SortItems<T>(s: seq<T>, compare: (T, T) -> int)
    ensures multiset(Sort(s, compare)) == multiset(s)
    decreases |s|
  {
    if |s| > 1 {
      var a, b := s[..|s| / 2], s[|s| / 2..];
      SortItems(a, compare);
      SortItems(b, compare);
      MergeItems(Sort(a, compare), Sort(b, compare), compare);
      assert s == a + b;
    }
  }

  // ------------------------------------------------------------------ in order

  /** The comparison is a total preorder on the items. */
  ghost predicate Preorder<T>(s: seq<T>, compare: (T, T) -> int) {
    && (forall x, y :: x in s && y in s ==> compare(x, y) <= 0 || compare(y, x) <= 0)
    && forall x, y, z :: x in s && y in s && z in s && compare(x, y) <= 0 && compare(y, z) <= 0 ==> compare(x, z) <= 0
  }

  ghost predicate Sorted<T>(s: seq<T>, compare: (T, T) -> int) {
    forall i, j :: 0 <= i < j < |s| ==> compare(s[i], s[j]) <= 0
  }

  lemma Transitive<T>(s: seq<T>, compare: (T, T) -> int, x: T, y: T, z: T)
    requires Preorder(s, compare) && x in s && y in s && z in s && compare(x, y) <= 0 && compare(y, z) <= 0
    ensures compare(x, z) <= 0
  {
  }

  lemma Either<T>(s: seq<T>, compare: (T, T) -> int, x: T, y: T)
    requires Preorder(s, compare) && x in s && y in s
    ensures compare(x, y) <= 0 || compare(y, x) <= 0
  {
  }

  lemma Fewer<T>(s: seq<T>, t: seq<T>, compare: (T, T) -> int)
    requires Preorder(s, compare) && forall x :: x in t ==> x in s
    ensures Preorder(t, compare)
  {
  }

  lemma FromEither<T>(a: seq<T>, b: seq<T>, compare: (T, T) -> int, x: T)
    ensures x in Merge(a, b, compare) <==> x in a || x in b
  {
    MergeItems(a, b, compare);
    assert x in Merge(a, b, compare) <==> x in multiset(Merge(a, b, compare));
    assert x in a <==> x in multiset(a);
    assert x in b <==> x in multiset(b);
  }

  lemma SameItems<T>(s: seq<T>, compare: (T, T) -> int, x: T)
    ensures x in Sort(s, compare) <==> x in s
  {
    SortItems(s, compare);
    assert x in Sort(s, compare) <==> x in multiset(Sort(s, compare));
    assert x in s <==> x in multiset(s);
  }

  lemma SortedCons<T>(h: T, m: seq<T>, compare: (T, T) -> int)
    requires Sorted(m, compare) && forall x :: x in m ==> compare(h, x) <= 0
    ensures Sorted([h] + m, compare)
  {
  }

  /** The first item comes before the others, and before all that come after an item it precedes. */
  lemma Precedes<T>(a: seq<T>, b: seq<T>, compare: (T, T) -> int, h: T, x: T)
    requires Preorder(a + b, compare) && Sorted(a, compare) && Sorted(b, compare) && a != [] && b != []
    requires h == a[0] && compare(h, b[0]) <= 0 && (x in a[1..] || x in b)
    ensures compare(h, x) <= 0
  {
    hide Preorder;
    if x in a[1..] {
      var i :| 0 <= i < |a| - 1 && a[1..][i] == x;
      assert compare(a[0], a[i + 1]) <= 0;
    } else if x != b[0] {
      var i :| 0 <= i < |b| && b[i] == x;
      assert h in a + b && b[0] in a + b && x in a + b;
      Transitive(a + b, compare, h, b[0], x);
    }
  }

  lemma {:induction false} MergeSorted<T>(a: seq<T>, b: seq<T>, compare: (T, T) -> int)
    requires Preorder(a + b, compare) && Sorted(a, compare) && Sorted(b, compare)
    ensures Sorted(Merge(a, b, compare), compare)
  {
    hide Preorder;
    if a != [] && b != [] {
      assert a[0] in a + b && b[0] in a + b;
      Either(a + b, compare, a[0], b[0]);
      if compare(a[0], b[0]) <= 0 {
        Fewer(a + b, a[1..] + b, compare);
        MergeSorted(a[1..], b, compare);
        forall x | x in Merge(a[1..], b, compare) ensures compare(a[0], x) <= 0 {
          FromEither(a[1..], b, compare, x);
          Precedes(a, b, compare, a[0], x);
        }
        SortedCons(a[0], Merge(a[1..], b, compare), compare);
      } else {
        Fewer(a + b, a + b[1..], compare);
        MergeSorted(a, b[1..], compare);
        Fewer(a + b, b + a, compare);
        forall x | x in Merge(a, b[1..], compare) ensures compare(b[0], x) <= 0 {
          FromEither(a, b[1..], compare, x);
          Precedes(b, a, compare, b[0], x);
        }
        SortedCons(b[0], Merge(a, b[1..], compare), compare);
      }
    }
  }

  lemma {:induction false} SortSorted<T>(s: seq<T>, compare: (T, T) -> int)
    requires Preorder(s, compare)
    ensures Sorted(Sort(s, compare), compare)
    decreases |s|
  {
    hide Preorder;
    if |s| > 1 {
      var a, b := s[..|s| / 2], s[|s| / 2..];
      Fewer(s, a, compare);
      Fewer(s, b, compare);
      SortSorted(a, compare);
      SortSorted(b, compare);
      forall x | x in Sort(a, compare) + Sort(b, compare) ensures x in s {
        SameItems(a, compare, x);
        SameItems(b, compare, x);
      }
      Fewer(s, Sort(a, compare) + Sort(b, compare), compare);
      MergeSorted(Sort(a, compare), Sort(b, compare), compare);
    }
  }

  // ------------------------------------------------------------------ stable

  /** Neither comes before the other. */
  predicate Tied<T>(compare: (T, T) -> int, x: T, y: T) {
    compare(x, y) <= 0 && compare(y, x) <= 0
  }

  /** The items tied with x, in their order. */
  function Ties<T>(s: seq<T>, compare: (T, T) -> int, x: T): (t: seq<T>) {
    if s == [] then []
    else if Tied(compare, s[0], x) then [s[0]] + Ties(s[1..], compare, x)
    else Ties(s[1..], compare, x)
  }

  lemma {:induction false} TiesConcat<T>(a: seq<T>, b: seq<T>, compare: (T, T) -> int, x: T)
    ensures Ties(a + b, compare, x) == Ties(a, compare, x) + Ties(b, compare, x)
  {
    if a == [] {
      assert a + b == b;
    } else {
      TiesConcat(a[1..], b, compare, x);
      assert (a + b)[1..] == a[1..] + b;
    }
  }

  lemma {:induction false} NoTies<T>(s: seq<T>, compare: (T, T) -> int, x: T)
    requires forall y :: y in s ==> !Tied(compare, y, x)
    ensures Ties(s, compare, x) == []
  {
    if s != [] {
      assert s[0] in s;
      NoTies(s[1..], compare, x);
    }
  }

  lemma FirstOf<T>(a: seq<T>, compare: (T, T) -> int, y: T)
    requires Sorted(a, compare) && y in a
    ensures compare(a[0], y) <= 0 || y == a[0]
  {
    var i :| 0 <= i < |a| && a[i] == y;
    if i > 0 { assert compare(a[0], a[i]) <= 0; }
  }

  /** When the right one is taken first, nothing on the left is tied with it. */
  lemma RightFirst<T>(u: seq<T>, a: seq<T>, r: T, compare: (T, T) -> int, x: T, y: T)
    requires Preorder(u, compare) && Sorted(a, compare) && y in a && (forall z :: z in a ==> z in u) && r in u && x in u
    requires compare(a[0], r) > 0 && Tied(compare, r, x)
    ensures !Tied(compare, y, x)
  {
    hide Preorder, Sorted;
    if Tied(compare, y, x) {
      FirstOf(a, compare, y);
      assert a[0] in a;
      Transitive(u, compare, y, x, r);
      if y != a[0] { Transitive(u, compare, a[0], y, r); }
      assert false;
    }
  }

  lemma {:induction false} MergeStable<T>(u: seq<T>, a: seq<T>, b: seq<T>, compare: (T, T) -> int, x: T)
    requires Preorder(u, compare) && Sorted(a, compare) && Sorted(b, compare)
    requires x in u && forall z :: z in a || z in b ==> z in u
    ensures Ties(Merge(a, b, compare), compare, x) == Ties(a, compare, x) + Ties(b, compare, x)
  {
    hide Preorder;
    if a != [] && b != [] {
      var m := Merge(a, b, compare);
      if compare(a[0], b[0]) <= 0 {
        MergeStable(u, a[1..], b, compare, x);
        assert m[1..] == Merge(a[1..], b, compare);
      } else {
        MergeStable(u, a, b[1..], compare, x);
        assert m[1..] == Merge(a, b[1..], compare);
        if Tied(compare, b[0], x) {
          forall y | y in a ensures !Tied(compare, y, x) {
            RightFirst(u, a, b[0], compare, x, y);
          }
          NoTies(a, compare, x);
        }
      }
    }
  }

  /** Items tied with each other keep their order. */
  lemma {:induction false} SortStable<T>(s: seq<T>, compare: (T, T) -> int, u: seq<T>, x: T)
    requires Preorder(u, compare) && x in u && forall y :: y in s ==> y in u
    ensures Ties(Sort(s, compare), compare, x) == Ties(s, compare, x)
    decreases |s|
  {
    hide Preorder;
    if |s| > 1 {
      var a, b := s[..|s| / 2], s[|s| / 2..];
      SortStable(a, compare, u, x);
      SortStable(b, compare, u, x);
      Fewer(u, a, compare);
      Fewer(u, b, compare);
      SortSorted(a, compare);
      SortSorted(b, compare);
      forall y | y in Sort(a, compare) || y in Sort(b, compare) ensures y in u {
        SameItems(a, compare, y);
        SameItems(b, compare, y);
      }
      MergeStable(u, Sort(a, compare), Sort(b, compare), compare, x);
      TiesConcat(a, b, compare, x);
      assert a + b == s;
    }
  }
}
