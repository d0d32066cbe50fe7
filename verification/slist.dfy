/** slist.c: slist_sort, which relinks the items of a list in place. */
module SLists {
  import opened MergeSort

  class SList {
    var next: SList?

    constructor ()
    {
      next := null;
    }
  }

  /** A comparison of two items, as the callers of slist_sort supply it. */
  type SListCompare = (SList, SList) -> int

  /** The item at place i, null at the end. */
  function ItemAt(s: seq<SList>, i: nat): (p: SList?)
    requires i <= |s|
  {
    if i < |s| then s[i] else null
  }

  ghost function Items(s: seq<SList>): set<SList> {
    set x | x in s
  }

  /** `head` is a list of the items of `s`, ended by null. */
  ghost predicate Chain(head: SList?, s: seq<SList>)
    reads Items(s)
  {
    head == ItemAt(s, 0) && forall i :: 0 <= i < |s| ==> s[i].next == ItemAt(s, i + 1)
  }

  ghost predicate Distinct(s: seq<SList>) {
    forall i, j :: 0 <= i < j < |s| ==> s[i] != s[j]
  }

  /** A list that ends has no item twice. */
  lemma {:induction false} EndsOnce(s: seq<SList>, i: nat, j: nat)
    requires (forall k :: 0 <= k < |s| ==> s[k].next == ItemAt(s, k + 1)) && i < j < |s|
    ensures s[i] != s[j]
    decreases |s| - j
  {
    if j + 1 < |s| { EndsOnce(s, i + 1, j + 1); }
  }

  lemma ChainDistinct(head: SList?, s: seq<SList>)
    requires Chain(head, s)
    ensures Distinct(s)
  {
    forall i: nat, j: nat | i < j < |s| ensures s[i] != s[j] {
      EndsOnce(s, i, j);
    }
  }

  /** The rest of a list is one. */
  lemma RestOf(head: SList?, s: seq<SList>)
    requires Chain(head, s) && s != []
    ensures Chain(s[0].next, s[1..])
  {
    forall i | 0 <= i < |s| - 1 ensures s[1..][i].next == ItemAt(s[1..], i + 1) {
      assert s[1..][i] == s[i + 1];
    }
  }

  // ------------------------------------------------------------------ slist_sort_merge

  /** The items merged so far hang off `merged`, each on the one before; `insert` is the last of them. */
  ghost predicate Linked(merged: SList, done: seq<SList>, insert: SList)
    reads merged, Items(done)
  {
    && insert == (if done == [] then merged else done[|done| - 1])
    && (done != [] ==> merged.next == done[0])
    && forall k :: 0 <= k < |done| - 1 ==> done[k].next == done[k + 1]
  }

  /** The dummy, the items merged and the two rests have nothing in common. */
  ghost predicate Apart(merged: SList, done: seq<SList>, a: seq<SList>, b: seq<SList>) {
    && Distinct(done) && Distinct(a) && Distinct(b) && merged !in done && merged !in a && merged !in b
    && (forall x :: x in done ==> x !in a && x !in b) && forall x :: x in a ==> x !in b
  }

  /** The first of `a` moves behind the merged items. */
  lemma MoveOne(merged: SList, done: seq<SList>, a: seq<SList>, b: seq<SList>)
    requires Apart(merged, done, a, b) && a != []
    ensures Apart(merged, done + [a[0]], a[1..], b)
  {
    assert a[0] in a;
    assert forall x :: x in a[1..] ==> x in a;
    forall x | x in a[1..] ensures x != a[0] {
      var i :| 0 <= i < |a| - 1 && a[1..][i] == x;
      assert a[0] != a[i + 1];
    }
    forall i, j | 0 <= i < j < |done + [a[0]]| ensures (done + [a[0]])[i] != (done + [a[0]])[j] {
      if j == |done| { assert done[i] in done; }
    }
  }

  lemma Swapped(merged: SList, done: seq<SList>, a: seq<SList>, b: seq<SList>)
    requires Apart(merged, done, a, b)
    ensures Apart(merged, done, b, a)
  {
  }

  /** One step: the first item of a rest is linked behind the last merged one. */
  method Link(merged: SList, insert: SList, item: SList, ghost done: seq<SList>, ghost a: seq<SList>,
              ghost b: seq<SList>, ghost other: SList?)
      returns (insert': SList)
    requires Linked(merged, done, insert) && Apart(merged, done, a, b) && a != [] && item == a[0]
    requires Chain(item, a) && Chain(other, b)
    modifies insert
    ensures Linked(merged, done + [item], insert') && Apart(merged, done + [item], a[1..], b)
    ensures Chain(item.next, a[1..]) && Chain(other, b)
  {
    MoveOne(merged, done, a, b);
    RestOf(item, a);
    assert insert !in a && insert !in b;
    insert.next := item;
    insert' := item;
  }

  /** The items merged and a rest make one list. */
  lemma Joined(merged: SList, done: seq<SList>, insert: SList, rest: seq<SList>)
    requires Linked(merged, done, insert) && insert.next == ItemAt(rest, 0)
    requires forall i :: 0 <= i < |rest| ==> rest[i].next == ItemAt(rest, i + 1)
    ensures Chain(merged.next, done + rest)
  {
    var all := done + rest;
    forall i | 0 <= i < |all| ensures all[i].next == ItemAt(all, i + 1) {
      if i >= |done| {
        assert all[i] == rest[i - |done|];
      }
    }
  }

  lemma TakenLeft(a: seq<SList>, b: seq<SList>, compare: SListCompare, done: seq<SList>, m: seq<SList>)
    requires a != [] && b != [] && compare(a[0], b[0]) <= 0 && m == done + Merge(a, b, compare)
    ensures m == done + [a[0]] + Merge(a[1..], b, compare)
  {
  }

  lemma TakenRight(a: seq<SList>, b: seq<SList>, compare: SListCompare, done: seq<SList>, m: seq<SList>)
    requires a != [] && b != [] && compare(a[0], b[0]) > 0 && m == done + Merge(a, b, compare)
    ensures m == done + [b[0]] + Merge(a, b[1..], compare)
  {
  }

  /** What the loop of the merge keeps. */
  ghost predicate Merging(merged: SList, insert: SList, left: SList?, right: SList?,
                          done: seq<SList>, a: seq<SList>, b: seq<SList>)
    reads merged, Items(done), Items(a), Items(b)
  {
    Linked(merged, done, insert) && Apart(merged, done, a, b) && Chain(left, a) && Chain(right, b)
  }

  /** The lower of the two first items is linked; the left one on a tie. */
  method MergeStep(merged: SList, insert: SList, l: SList, r: SList, compare: SListCompare,
                   ghost done: seq<SList>, ghost a: seq<SList>, ghost b: seq<SList>)
      returns (insert': SList, left: SList?, right: SList?,
               ghost done': seq<SList>, ghost a': seq<SList>, ghost b': seq<SList>)
    requires Merging(merged, insert, l, r, done, a, b)
    modifies insert
    ensures Merging(merged, insert', left, right, done', a', b')
    ensures Items(done') + Items(a') + Items(b') == Items(done) + Items(a) + Items(b) && |a'| + |b'| < |a| + |b|
    ensures done' + Merge(a', b', compare) == done + Merge(a, b, compare)
  {
    hide Merge, Linked, Apart;
    left, right, done', a', b' := l, r, done, a, b;
    if compare(left, right) <= 0 {
      TakenLeft(a, b, compare, done, done + Merge(a, b, compare));
      insert' := Link(merged, insert, left, done, a, b, right);
      left := left.next;
      done', a' := done + [a[0]], a[1..];
      ItemsMoved(done, a);
    } else {
      TakenRight(a, b, compare, done, done + Merge(a, b, compare));
      Swapped(merged, done, a, b);
      insert' := Link(merged, insert, right, done, b, a, left);
      right := right.next;
      done', b' := done + [b[0]], b[1..];
      Swapped(merged, done', b', a);
      ItemsMoved(done, b);
    }
  }

  lemma ItemsMoved(done: seq<SList>, a: seq<SList>)
    requires a != []
    ensures Items(done + [a[0]]) + Items(a[1..]) == Items(done) + Items(a)
  {
    assert a == [a[0]] + a[1..];
  }

  lemma Begun(merged: SList, l: SList?, r: SList?, a: seq<SList>, b: seq<SList>)
    requires Chain(l, a) && Chain(r, b) && Items(a) !! Items(b) && merged !in Items(a) && merged !in Items(b)
    ensures Merging(merged, merged, l, r, [], a, b)
  {
    ChainDistinct(l, a);
    ChainDistinct(r, b);
    forall x | x in a ensures x !in b {
      assert x in Items(a);
    }
    assert merged in a ==> merged in Items(a);
    assert merged in b ==> merged in Items(b);
  }

  lemma InsertIs(merged: SList, insert: SList, left: SList?, right: SList?, done: seq<SList>, a: seq<SList>,
                 b: seq<SList>)
    requires Merging(merged, insert, left, right, done, a, b)
    ensures insert == merged || insert in Items(done)
    ensures (left == null <==> a == []) && (right == null <==> b == [])
  {
  }

  /** The last link: what is left of one list. */
  method LinkRest(merged: SList, insert: SList, left: SList?, right: SList?,
                  ghost done: seq<SList>, ghost a: seq<SList>, ghost b: seq<SList>)
    requires Merging(merged, insert, left, right, done, a, b) && (a == [] || b == [])
    modifies insert
    ensures Chain(merged.next, done + if a != [] then a else b)
  {
    ghost var rest := if left != null then a else b;
    assert insert !in a && insert !in b;
    insert.next := if left != null then left else right;
    Joined(merged, done, insert, rest);
  }

  /** slist_sort_merge: two lists become one, with the items in the order of Merge. */
  method SlistSortMerge(l: SList?, r: SList?, compare: SListCompare, ghost a: seq<SList>, ghost b: seq<SList>)
      returns (result: SList?)
    requires Chain(l, a) && Chain(r, b) && Items(a) !! Items(b)
    modifies Items(a), Items(b)
    ensures Chain(result, Merge(a, b, compare))
  {
    hide Merge, Merging, Chain;
    var left, right := l, r;
    var merged := new SList();
    var insert := merged;
    Begun(merged, l, r, a, b);
    ghost var done: seq<SList>, la, lb := [], a, b;
    while left != null && right != null
      invariant Merging(merged, insert, left, right, done, la, lb) && fresh(merged)
      invariant Merge(a, b, compare) == done + Merge(la, lb, compare)
      invariant Items(done) + Items(la) + Items(lb) <= Items(a) + Items(b)
      decreases |la| + |lb|
    {
      InsertIs(merged, insert, left, right, done, la, lb);
      insert, left, right, done, la, lb := MergeStep(merged, insert, left, right, compare, done, la, lb);
    }
    InsertIs(merged, insert, left, right, done, la, lb);
    Rest(la, lb, compare);
    LinkRest(merged, insert, left, right, done, la, lb);
    return merged.next;
  }

  lemma Rest(a: seq<SList>, b: seq<SList>, compare: SListCompare)
    requires a == [] || b == []
    ensures Merge(a, b, compare) == if a != [] then a else b
  {
  }

  // ------------------------------------------------------------------ slist_sort

  /** The two-speed walk: `right` skips two items for each that `slist` skips. Both halves have items. */
  method Middle(head: SList, ghost s: seq<SList>) returns (slist: SList)
    requires Chain(head, s) && |s| >= 2
    ensures slist == s[|s| / 2 - 1]
  {
    slist := head;
    var right := head.next;
    ghost var k, p := 0, 1;
    assert head == s[0];
    while right != null
      invariant 0 <= k < |s| && slist == s[k] && 0 <= p <= |s| && right == ItemAt(s, p)
      invariant if right != null then p == 2 * k + 1 else k == |s| / 2 - 1
      decreases |s| - p
    {
      right := right.next;
      p := p + 1;
      if right == null {
        break;
      }
      right := right.next;
      p := p + 1;
      if right == null {
        break;
      }
      slist := slist.next;
      k := k + 1;
    }
  }

  /** The list cut behind its first n items. */
  method Cut(slist: SList, ghost s: seq<SList>, ghost head: SList?, ghost n: nat) returns (right: SList?)
    requires 0 < n <= |s| && slist == s[n - 1] && Chain(head, s)
    modifies slist
    ensures Chain(head, s[..n]) && Chain(right, s[n..]) && right == ItemAt(s, n)
  {
    ChainDistinct(head, s);
    right := slist.next;
    slist.next := null;
    forall i | 0 <= i < n ensures s[..n][i].next == ItemAt(s[..n], i + 1) {
      if i < n - 1 { assert s[i] != s[n - 1]; }
    }
    forall i | 0 <= i < |s| - n ensures s[n..][i].next == ItemAt(s[n..], i + 1) {
      assert s[n..][i] == s[n + i] && s[n + i] != s[n - 1];
    }
  }

  /** slist_sort: the same items, relinked in the order of Sort. */
  method SlistSort(slist: SList?, compare: SListCompare, ghost s: seq<SList>) returns (result: SList?)
    requires Chain(slist, s)
    modifies Items(s)
    ensures Chain(result, Sort(s, compare))
    decreases |s|
  {
    hide Sort;
    if slist == null {
      Short(s, compare);
      return slist;
    }
    if slist.next == null {
      Short(s, compare);
      return slist;
    }
    assert s[0] == slist && |s| >= 2;
    ghost var n := |s| / 2;
    ChainDistinct(slist, s);
    var middle := Middle(slist, s);
    var left := slist;
    var right := Cut(middle, s, slist, n);
    left, right := SortHalves(left, right, compare, s, n);
    SortedApart(s, compare, n);
    result := SlistSortMerge(left, right, compare, Sort(s[..n], compare), Sort(s[n..], compare));
    Long(s, compare);
  }

  method SortHalves(l: SList?, r: SList?, compare: SListCompare, ghost s: seq<SList>, ghost n: nat)
      returns (left: SList?, right: SList?)
    requires 0 < n < |s| && Chain(l, s[..n]) && Chain(r, s[n..]) && Distinct(s)
    modifies Items(s)
    ensures Chain(left, Sort(s[..n], compare)) && Chain(right, Sort(s[n..], compare))
    decreases |s|, 0
  {
    hide Sort, Chain;
    SortedApart(s, compare, n);
    left := SlistSort(l, compare, s[..n]);
    right := SlistSort(r, compare, s[n..]);
  }

  lemma SameSet(s: seq<SList>, compare: SListCompare)
    ensures Items(Sort(s, compare)) == Items(s)
  {
    forall x | x in Sort(s, compare) ensures x in s { SameItems(s, compare, x); }
    forall x | x in s ensures x in Sort(s, compare) { SameItems(s, compare, x); }
  }

  lemma SortedApart(s: seq<SList>, compare: SListCompare, n: nat)
    requires n <= |s| && Distinct(s)
    ensures Items(Sort(s[..n], compare)) == Items(s[..n]) && Items(Sort(s[n..], compare)) == Items(s[n..])
    ensures Items(s[..n]) !! Items(s[n..]) && Items(s[..n]) + Items(s[n..]) == Items(s)
  {
    SameSet(s[..n], compare);
    SameSet(s[n..], compare);
    assert s == s[..n] + s[n..];
  }

  lemma Short(s: seq<SList>, compare: SListCompare)
    requires |s| <= 1
    ensures Sort(s, compare) == s
  {
  }

  lemma Long(s: seq<SList>, compare: SListCompare)
    requires |s| > 1
    ensures Sort(s, compare) == Merge(Sort(s[..|s| / 2], compare), Sort(s[|s| / 2..], compare), compare)
  {
  }
}
