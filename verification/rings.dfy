/** Circular doubly linked lists threaded through the words of memory.

  A node x keeps its forward pointer in word x + 2 and its backward pointer in word x + 3. Nodes
  are even addresses, so that forward and backward words of any two nodes never coincide. */
module Rings {
  import opened Chunks

  /** The head `h` is node 0 and, again, node |l| + 1 of the ring that holds `l`. */
  function Node(h: int, l: seq<int>, k: int): int {
    if 0 < k <= |l| then l[k - 1] else h
  }

  ghost predicate Linked(mem: seq<int>, h: int, l: seq<int>, k: int) {
    var x, y := Node(h, l, k), Node(h, l, k + 1);
    && 0 < x && x % 2 == 0 && x + BK < |mem|
    && 0 < y && y % 2 == 0 && y + BK < |mem|
    && mem[x + FD] == y && mem[y + BK] == x
  }

  ghost predicate Distinct(l: seq<int>) {
    forall j, k :: 0 <= j < k < |l| ==> l[j] != l[k]
  }

  /** The list heads at `h` reaches exactly the chunks `l`, in order, forward and backward. */
  ghost predicate Ring(mem: seq<int>, h: int, l: seq<int>) {
    && h !in l && Distinct(l)
    && forall k {:trigger Linked(mem, h, l, k)} :: 0 <= k <= |l| ==> Linked(mem, h, l, k)
  }

  function Without(l: seq<int>, j: int): seq<int>
    requires 0 <= j < |l|
  {
    l[..j] + l[j + 1..]
  }

  function With(l: seq<int>, j: int, v: int): seq<int>
    requires 0 <= j <= |l|
  {
    l[..j] + [v] + l[j..]
  }

  /** Memory after the two stores that take node `j + 1` off the ring. */
  function Unlinked(mem: seq<int>, h: int, l: seq<int>, j: int): seq<int>
    requires 0 <= j < |l|
    requires var f, b := Node(h, l, j + 2), Node(h, l, j); 0 <= f && f + BK < |mem| && 0 <= b && b + BK < |mem|
  {
    var f, b := Node(h, l, j + 2), Node(h, l, j);
    mem[f + BK := b][b + FD := f]
  }

  lemma RingRemove(mem: seq<int>, h: int, l: seq<int>, j: int)
    requires Ring(mem, h, l) && 0 <= j < |l|
    ensures Linked(mem, h, l, j) && Linked(mem, h, l, j + 1)
    ensures Ring(Unlinked(mem, h, l, j), h, Without(l, j))
  {
    assert Linked(mem, h, l, j) && Linked(mem, h, l, j + 1);
    var m, w := Unlinked(mem, h, l, j), Without(l, j);
    forall k | 0 <= k <= |w| ensures Linked(m, h, w, k) {
      if k < j {
        assert Linked(mem, h, l, k);
      } else if k > j {
        assert Linked(mem, h, l, k + 1);
      }
    }
  }

  /** Memory after the four stores that put `v` between nodes `j` and `j + 1`. */
  function Inserted(mem: seq<int>, h: int, l: seq<int>, j: int, v: int): seq<int>
    requires 0 <= j <= |l| && 0 <= v && v + BK < |mem|
    requires var b, f := Node(h, l, j), Node(h, l, j + 1); 0 <= f && f + BK < |mem| && 0 <= b && b + BK < |mem|
  {
    var b, f := Node(h, l, j), Node(h, l, j + 1);
    mem[v + BK := b][v + FD := f][f + BK := v][b + FD := v]
  }

  lemma RingInsert(mem: seq<int>, h: int, l: seq<int>, j: int, v: int)
    requires Ring(mem, h, l) && 0 <= j <= |l|
    requires v != h && v !in l && 0 < v && v % 2 == 0 && v + BK < |mem|
    ensures Linked(mem, h, l, j)
    ensures Ring(Inserted(mem, h, l, j, v), h, With(l, j, v))
  {
    assert Linked(mem, h, l, j);
    var m, w := Inserted(mem, h, l, j, v), With(l, j, v);
    assert Distinct(w) && h !in w;
    forall k | 0 <= k <= |w| ensures Linked(m, h, w, k) {
      if k < j || k > j + 1 {
        assert Linked(mem, h, l, if k < j then k else k - 1);
        InsertElsewhere(mem, h, l, j, v, k);
      }
    }
  }

  /** The links away from the insertion are those of the old ring. */
  lemma InsertElsewhere(mem: seq<int>, h: int, l: seq<int>, j: int, v: int, k: int)
    requires h !in l && Distinct(l) && 0 <= j <= |l| && Linked(mem, h, l, j)
    requires v != h && v !in l && 0 < v && v % 2 == 0 && v + BK < |mem|
    requires 0 <= k <= |l| + 1 && (k < j || k > j + 1) && Linked(mem, h, l, if k < j then k else k - 1)
    ensures Linked(Inserted(mem, h, l, j, v), h, With(l, j, v), k)
  {
    var o, w := if k < j then k else k - 1, With(l, j, v);
    assert Node(h, w, k) == Node(h, l, o) && Node(h, w, k + 1) == Node(h, l, o + 1);
  }

  /** A store that misses the link words of a ring leaves the ring alone. */
  lemma RingFrame(mem: seq<int>, h: int, l: seq<int>, a: int, v: int)
    requires Ring(mem, h, l) && 0 <= a < |mem|
    requires a != h + FD && a != h + BK
    requires forall x :: x in l ==> a != x + FD && a != x + BK
    ensures Ring(mem[a := v], h, l)
  {
    var m := mem[a := v];
    forall k | 0 <= k <= |l| ensures Linked(m, h, l, k) {
      assert Linked(mem, h, l, k);
      assert (k > 0 ==> l[k - 1] in l) && (k < |l| ==> l[k] in l);
    }
  }

  /** Membership in a list with one element more or less. */
  lemma WithHas(l: seq<int>, j: int, v: int)
    requires 0 <= j <= |l|
    ensures forall x :: x in With(l, j, v) <==> x in l || x == v
  {
    var w := With(l, j, v);
    forall x | x in l || x == v ensures x in w {
      if x == v {
        assert w[j] == v;
      } else {
        var k :| 0 <= k < |l| && l[k] == x;
        assert w[if k < j then k else k + 1] == x;
      }
    }
  }

  lemma WithoutHas(l: seq<int>, j: int)
    requires 0 <= j < |l| && Distinct(l)
    ensures forall x :: x in Without(l, j) <==> x in l && x != l[j]
  {
    var w := Without(l, j);
    forall x | x in l && x != l[j] ensures x in w {
      var k :| 0 <= k < |l| && l[k] == x;
      assert w[if k < j then k else k - 1] == x;
    }
  }

  lemma ReplaceHas(l: seq<int>, j: int, v: int)
    requires 0 <= j < |l| && Distinct(l)
    ensures forall x :: x in l[j := v] <==> x == v || (x in l && x != l[j])
  {
    var w := l[j := v];
    assert w[j] == v;
    forall x | x in l && x != l[j] ensures x in w {
      var k :| 0 <= k < |l| && l[k] == x;
      assert w[k] == x;
    }
  }
}
