/** The sizes iALLOc adds up, and the same in the 64-bit arithmetic of the code. */
module Aggregates {
  import opened Sizes

  /** The padded size of element i: all sizes are the first one when `same`. */
  function Element(sizes: seq<int>, same: bool, i: nat): int
    requires if same then |sizes| > 0 else i < |sizes|
  {
    Request2Size(if same then sizes[0] else sizes[i])
  }

  predicate Requests(sizes: seq<int>, same: bool, n: nat) {
    && n < TWO64 && (if same then |sizes| > 0 else n <= |sizes|)
    && forall i :: 0 <= i < |sizes| ==> 0 <= sizes[i] < TWO64
  }

  /** contents_size, for the first k elements. */
  function Total(sizes: seq<int>, same: bool, k: nat): int
    requires if same then |sizes| > 0 else k <= |sizes|
  {
    if k == 0 then 0 else Total(sizes, same, k - 1) + Element(sizes, same, k - 1)
  }

  function ArraySize(n: nat, own: bool): int {
    if own then Request2Size(8 * n) else 0
  }

  lemma {:induction false} TotalShape(sizes: seq<int>, same: bool, k: nat)
    requires Requests(sizes, same, k)
    ensures Total(sizes, same, k) % 16 == 0 && Total(sizes, same, k) >= MINSIZE * k
  {
    if k > 0 {
      TotalShape(sizes, same, k - 1);
      PaddedSize(if same then sizes[0] else sizes[k - 1]);
    }
  }

  /** What is left behind the first i elements holds the rest of them. */
  lemma {:induction false} TotalLeft(sizes: seq<int>, same: bool, i: nat, n: nat)
    requires Requests(sizes, same, n) && i <= n
    ensures Total(sizes, same, n) - Total(sizes, same, i) >= MINSIZE * (n - i)
  {
    if i < n {
      TotalLeft(sizes, same, i, n - 1);
      PaddedSize(if same then sizes[0] else sizes[n - 1]);
    }
  }

  // ------------------------------------------------------------------ in 64-bit arithmetic

  function Element64(sizes: seq<int>, same: bool, i: nat): int
    requires if same then |sizes| > 0 else i < |sizes|
  {
    Request2Size64(if same then sizes[0] else sizes[i])
  }

  /** contents_size after k rounds of the loop. */
  function Total64(sizes: seq<int>, same: bool, k: nat): (t: int)
    requires if same then |sizes| > 0 else k <= |sizes|
    ensures 0 <= t < TWO64
  {
    if k == 0 then 0 else (Total64(sizes, same, k - 1) + Element64(sizes, same, k - 1)) % TWO64
  }

  function ArraySize64(n: nat, own: bool): int {
    if own then Request2Size64(8 * n % TWO64) else 0
  }

  /** The request for the aggregate chunk, with the alignment bytes subtracted. */
  function Request64(n: nat, sizes: seq<int>, same: bool, own: bool): int
    requires if same then |sizes| > 0 else n <= |sizes|
  {
    (Total64(sizes, same, n) + ArraySize64(n, own) - 15) % TWO64
  }

  /** The product of the all-same-size case is the sum. */
  lemma {:induction false} Product64(sizes: seq<int>, k: nat)
    requires |sizes| > 0
    ensures Total64(sizes, true, k) == k * Request2Size64(sizes[0]) % TWO64
  {
    var e := Request2Size64(sizes[0]);
    if k > 0 {
      Product64(sizes, k - 1);
      SumWraps((k - 1) * e, e);
      assert k * e == (k - 1) * e + e;
    }
  }

  lemma SumWraps(x: int, y: int)
    ensures (x % TWO64 + y) % TWO64 == (x + y) % TWO64
  {
    var q := x / TWO64;
    assert x == TWO64 * q + x % TWO64;
  }

  lemma {:induction false} TotalExact(sizes: seq<int>, same: bool, k: nat)
    requires Requests(sizes, same, k) && Total(sizes, same, k) < TWO64
    ensures Total64(sizes, same, k) == Total(sizes, same, k)
  {
    hide Request2Size, Request2Size64;
    if k > 0 {
      TotalShape(sizes, same, k - 1);
      var req := if same then sizes[0] else sizes[k - 1];
      PaddedSize(req);
      TotalExact(sizes, same, k - 1);
      InRange(req);
    }
  }

  /** When the total does not wrap, no element does. */
  lemma ElementExact(sizes: seq<int>, same: bool, i: nat, n: nat)
    requires Requests(sizes, same, n) && i < n && Total(sizes, same, n) < TWO64
    ensures Element64(sizes, same, i) == Element(sizes, same, i) && Element64(sizes, same, i) != 0
  {
    hide Request2Size, Request2Size64;
    var req := if same then sizes[0] else sizes[i];
    TotalLeft(sizes, same, i + 1, n);
    TotalShape(sizes, same, i);
    PaddedSize(req);
    InRange(req);
  }

  lemma RequestExact(n: nat, sizes: seq<int>, same: bool, own: bool)
    requires 0 < n && Requests(sizes, same, n) && Total(sizes, same, n) + ArraySize(n, own) < TWO64
    ensures Request64(n, sizes, same, own) == Total(sizes, same, n) + ArraySize(n, own) - 15
    ensures Total64(sizes, same, n) == Total(sizes, same, n) && ArraySize64(n, own) == ArraySize(n, own)
  {
    hide Total, Total64, Request2Size, Request2Size64;
    TotalShape(sizes, same, n);
    PaddedSize(8 * n);
    TotalExact(sizes, same, n);
    if own {
      InRange(8 * n);
    }
  }

  /** A request whose padded size is below the word size is padded right. */
  lemma InRange(req: int)
    requires 0 <= req && Request2Size(req) < TWO64
    ensures req % TWO64 == req && Request2Size64(req) == Request2Size(req)
  {
    PaddedSize(req);
    PaddedExactly(req);
  }

  /** What iALLOc relies on: the allocation is refused, or its chunk holds all elements and the table. */
  predicate Enough(n: nat, sizes: seq<int>, same: bool, own: bool)
    requires if same then |sizes| > 0 else n <= |sizes|
  {
    var request := Request64(n, sizes, same, own);
    OutOfRange(request) || Request2Size(request) >= Total(sizes, same, n) + ArraySize(n, own)
  }

  /** That is so exactly when the sizes add up below the word size, or the wrapped request is still out of range;
    the source checks neither. */
  lemma AggregateSound(n: nat, sizes: seq<int>, same: bool, own: bool)
    requires 0 < n && Requests(sizes, same, n)
    ensures Enough(n, sizes, same, own)
       <==> Total(sizes, same, n) + ArraySize(n, own) < TWO64 || OutOfRange(Request64(n, sizes, same, own))
  {
    hide Total, Request2Size, ArraySize, Request64;
    var request, total := Request64(n, sizes, same, own), Total(sizes, same, n) + ArraySize(n, own);
    if total < TWO64 {
      RequestExact(n, sizes, same, own);
      TotalAligned(n, sizes, same, own);
      PadUnpad(total);
    } else {
      RequestRange(n, sizes, same, own);
      PaddedSize(request);
    }
  }

  lemma RequestRange(n: nat, sizes: seq<int>, same: bool, own: bool)
    requires if same then |sizes| > 0 else n <= |sizes|
    ensures 0 <= Request64(n, sizes, same, own) < TWO64
  {
  }

  lemma TotalAligned(n: nat, sizes: seq<int>, same: bool, own: bool)
    requires 0 < n && Requests(sizes, same, n)
    ensures var total := Total(sizes, same, n) + ArraySize(n, own); total % 16 == 0 && MINSIZE <= total
  {
    hide Total, Request2Size;
    TotalShape(sizes, same, n);
    PaddedSize(8 * n);
  }

  /** One element of 2 to the 64th less 20 bytes, into the caller's table: the chunk has 32 bytes. */
  lemma AggregateShort()
    ensures var sizes := [TWO64 - 20];
      Requests(sizes, false, 1) && Request64(1, sizes, false, false) == 17 && Request2Size(17) == MINSIZE
      && Total(sizes, false, 1) == TWO64 && !Enough(1, sizes, false, false)
  {
    var sizes := [TWO64 - 20];
    PaddedExactly(TWO64 - 20);
    assert Total64(sizes, false, 0) == 0 && Total(sizes, false, 0) == 0;
    assert Total64(sizes, false, 1) == MINSIZE;
    assert Total(sizes, false, 1) == TWO64;
  }
}
