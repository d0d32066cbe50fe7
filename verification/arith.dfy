/** Division facts the solver does not find by itself. */
module Arith {
  /** The remainder is the only number below n that differs from x by a multiple of n. */
  lemma ModUnique(x: int, n: int, q: int, r: int)
    requires x == n * q + r && 0 <= r < n
    ensures x % n == r
  {
    var d := x / n - q;
    assert x % n - r == -n * d by {
      assert x == n * (x / n) + x % n;
    }
    assert d >= 1 ==> n * d >= n;
    assert d <= -1 ==> n * d <= -n;
  }

  lemma DivUnique(x: int, n: int, q: int, r: int)
    requires x == n * q + r && 0 <= r < n
    ensures x / n == q
  {
    ModUnique(x, n, q, r);
    var d := x / n - q;
    assert n * d == 0 by {
      assert x == n * (x / n) + x % n;
    }
    assert d >= 1 ==> n * d >= n;
    assert d <= -1 ==> n * d <= -n;
  }

  lemma ModSum(x: int, y: int, n: int)
    requires 0 < n && x % n == 0 && y % n == 0
    ensures (x + y) % n == 0 && (x - y) % n == 0
  {
    var i, j := x / n, y / n;
    assert x + y == n * (i + j) + 0 && x - y == n * (i - j) + 0;
    ModUnique(x + y, n, i + j, 0);
    ModUnique(x - y, n, i - j, 0);
  }
}
