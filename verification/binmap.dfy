/** The binmap: one bit per bin in four unsigned 32-bit words, set while a bin may hold chunks.

  The C operators on unsigned words are defined bit by bit; only `<<` can leave the 32 bits. */
module Binmaps {
  const BITSPERMAP := 32
  const BINMAPSIZE := 4
  const TWO32 := 0x1_0000_0000

  // ------------------------------------------------------------------ unsigned words

  /** `x & y` */
  function And(x: nat, y: nat): nat {
    if x == 0 then 0 else (if x % 2 == 1 && y % 2 == 1 then 1 else 0) + 2 * And(x / 2, y / 2)
  }

  /** `x | y` */
  function Or(x: nat, y: nat): nat
    decreases x + y
  {
    if x == 0 && y == 0 then 0 else (if x % 2 == 1 || y % 2 == 1 then 1 else 0) + 2 * Or(x / 2, y / 2)
  }

  /** `x & ~y` */
  function AndNot(x: nat, y: nat): nat {
    if x == 0 then 0 else (if x % 2 == 1 && y % 2 == 0 then 1 else 0) + 2 * AndNot(x / 2, y / 2)
  }

  /** `1U << k` */
  function Bit(k: nat): nat {
    if k == 0 then 1 else 2 * Bit(k - 1)
  }

  /** Whether bit k of x is set. */
  predicate Has(x: nat, k: nat)
    decreases k
  {
    if k == 0 then x % 2 == 1 else Has(x / 2, k - 1)
  }

  lemma {:induction false} ZeroHas(k: nat)
    ensures !Has(0, k)
  {
    if k > 0 { ZeroHas(k - 1); }
  }

  lemma {:induction false} AndHas(x: nat, k: nat)
    ensures And(x, Bit(k)) != 0 <==> Has(x, k)
  {
    if x == 0 {
      ZeroHas(k);
    } else if k > 0 {
      AndHas(x / 2, k - 1);
    } else {
      AndZero(x / 2);
    }
  }

  lemma {:induction false} AndZero(x: nat)
    ensures And(x, 0) == 0
  {
    if x > 0 { AndZero(x / 2); }
  }

  lemma {:induction false} OrHas(x: nat, y: nat, k: nat)
    ensures Has(Or(x, y), k) <==> Has(x, k) || Has(y, k)
    decreases k
  {
    if k > 0 {
      OrHas(x / 2, y / 2, k - 1);
      if x == 0 && y == 0 { ZeroHas(k - 1); }
    }
  }

  lemma {:induction false} AndNotHas(x: nat, y: nat, k: nat)
    ensures Has(AndNot(x, y), k) <==> Has(x, k) && !Has(y, k)
    decreases k
  {
    if k > 0 {
      AndNotHas(x / 2, y / 2, k - 1);
      if x == 0 { ZeroHas(k - 1); }
    }
  }

  lemma {:induction false} BitHas(j: nat, k: nat)
    ensures Has(Bit(j), k) <==> j == k
    decreases k
  {
    if j == 0 {
      if k > 0 { ZeroHas(k - 1); }
    } else if k > 0 {
      BitHas(j - 1, k - 1);
    }
  }

  /** Below a power of two, its bit and all higher ones are clear. */
  lemma {:induction false} Below(x: nat, j: nat, k: nat)
    requires x < Bit(j) && j <= k
    ensures !Has(x, k)
    decreases k
  {
    if x == 0 {
      ZeroHas(k);
    } else {
      Below(x / 2, j - 1, k - 1);
    }
  }

  /** A word not below a clear bit is not below the next bit either. */
  lemma {:induction false} Above(x: nat, k: nat)
    requires Bit(k) <= x && !Has(x, k)
    ensures Bit(k + 1) <= x
    decreases k
  {
    if k > 0 { Above(x / 2, k - 1); }
  }

  lemma {:induction false} BitMonotone(j: nat, k: nat)
    requires j <= k
    ensures 1 <= Bit(j) <= Bit(k)
    decreases k
  {
    if j < k {
      BitMonotone(j, k - 1);
    } else if j > 0 {
      BitMonotone(j - 1, j - 1);
    }
  }

  lemma Bit32()
    ensures Bit(32) == TWO32
  {
    assert Bit(8) == 256 && Bit(16) == 256 * 256 && Bit(24) == 256 * 256 * 256;
  }

  /** The bitwise operators stay inside the word. */
  lemma {:induction false} OrBound(x: nat, y: nat, k: nat)
    requires x < Bit(k) && y < Bit(k)
    ensures Or(x, y) < Bit(k)
    decreases k
  {
    if k > 0 { OrBound(x / 2, y / 2, k - 1); }
  }

  lemma {:induction false} AndNotBound(x: nat, y: nat)
    ensures AndNot(x, y) <= x
  {
    if x > 0 { AndNotBound(x / 2, y / 2); }
  }

  // ------------------------------------------------------------------ the map

  /** What the map says of one bin, against the set of marked bins. */
  ghost predicate BitAt(map32: seq<nat>, marked: set<int>, w: int, k: int)
    requires |map32| == BINMAPSIZE && 0 <= w < BINMAPSIZE && 0 <= k < BITSPERMAP
  {
    Has(map32[w], k) <==> BITSPERMAP * w + k in marked
  }

  /** get_binmap: the bits of the map are the members of `marked`. */
  ghost predicate BitsOk(map32: seq<nat>, marked: set<int>) {
    && |map32| == BINMAPSIZE && (forall w :: 0 <= w < BINMAPSIZE ==> map32[w] < TWO32)
    && forall w, k {:trigger BitAt(map32, marked, w, k)} ::
         0 <= w < BINMAPSIZE && 0 <= k < BITSPERMAP ==> BitAt(map32, marked, w, k)
  }

  /** The binmap is sound: a bin that is not marked is empty. */
  ghost predicate MapOk(marked: set<int>, lists: seq<seq<int>>) {
    && |lists| == BITSPERMAP * BINMAPSIZE
    && forall b {:trigger lists[b]} :: 2 <= b < BITSPERMAP * BINMAPSIZE && lists[b] != [] ==> b in marked
  }

  lemma ClearMap(map32: seq<nat>)
    requires |map32| == BINMAPSIZE && forall w :: 0 <= w < BINMAPSIZE ==> map32[w] == 0
    ensures BitsOk(map32, {})
  {
    forall w, k | 0 <= w < BINMAPSIZE && 0 <= k < BITSPERMAP ensures BitAt(map32, {}, w, k) {
      ZeroHas(k);
    }
  }

  /** mark_bin */
  lemma MarkBits(map32: seq<nat>, marked: set<int>, w: int, k: int)
    requires BitsOk(map32, marked) && 0 <= w < BINMAPSIZE && 0 <= k < BITSPERMAP
    ensures BitsOk(map32[w := Or(map32[w], Bit(k))], marked + {BITSPERMAP * w + k})
  {
    var m, s := map32[w := Or(map32[w], Bit(k))], marked + {BITSPERMAP * w + k};
    forall w', k' | 0 <= w' < BINMAPSIZE && 0 <= k' < BITSPERMAP ensures BitAt(m, s, w', k') {
      assert BitAt(map32, marked, w', k');
      OrHas(map32[w], Bit(k), k');
      BitHas(k, k');
    }
    Bit32();
    BitMonotone(k + 1, 32);
    BitMonotone(k, k);
    OrBound(map32[w], Bit(k), 32);
  }

  /** `binmap[block] = map &= ~bit` */
  lemma UnmarkBits(map32: seq<nat>, marked: set<int>, w: int, k: int)
    requires BitsOk(map32, marked) && 0 <= w < BINMAPSIZE && 0 <= k < BITSPERMAP
    ensures BitsOk(map32[w := AndNot(map32[w], Bit(k))], marked - {BITSPERMAP * w + k})
  {
    var m, s := map32[w := AndNot(map32[w], Bit(k))], marked - {BITSPERMAP * w + k};
    forall w', k' | 0 <= w' < BINMAPSIZE && 0 <= k' < BITSPERMAP ensures BitAt(m, s, w', k') {
      assert BitAt(map32, marked, w', k');
      AndNotHas(map32[w], Bit(k), k');
      BitHas(k, k');
    }
    AndNotBound(map32[w], Bit(k));
  }

  /** `bit > map`: no bin at position k or above in the word is marked. */
  lemma NoneAbove(map32: seq<nat>, marked: set<int>, w: int, k: int, j: int)
    requires BitsOk(map32, marked) && 0 <= w < BINMAPSIZE && 0 <= k <= j < BITSPERMAP
    requires Bit(k) > map32[w]
    ensures BITSPERMAP * w + j !in marked
  {
    assert BitAt(map32, marked, w, j);
    Below(map32[w], k, j);
  }
}
