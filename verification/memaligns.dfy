/** _int_memalign: an aligned spot inside a larger chunk, with leader and tail given back. */
module Memaligns {
  import opened Arith
  import opened Chunks
  import opened Sizes
  import opened Bins
  import opened Binmaps
  import opened Arenas
  import opened System
  import opened Frees
  import opened Mallocs
  import opened Reallocs

  const MALLOC_ALIGNMENT := 16

  // ------------------------------------------------------------------ powers of two

  ghost predicate PowerOfTwo(n: int) {
    exists k: nat :: n == Bit(k)
  }

  lemma {:induction false} BitPlus(j: nat, k: nat)
    ensures Bit(j + k) == Bit(j) * Bit(k)
  {
    if k > 0 { BitPlus(j, k - 1); }
  }

  lemma BitValues()
    ensures Bit(5) == 32 && Bit(58) == 0x400_0000_0000_0000 && Bit(63) == TWO64 / 2
  {
    assert Bit(4) == 16 && Bit(5) == 32;
    BitPlus(4, 4);
    BitPlus(8, 8);
    BitPlus(16, 16);
    assert Bit(16) == 0x1_0000 && Bit(32) == 0x1_0000_0000;
    BitPlus(16, 5);
    BitPlus(21, 5);
    BitPlus(32, 26);
    BitPlus(58, 5);
  }

  /** `(n & (n - 1)) == 0` tests for powers of two. */
  lemma {:induction false} PowerTest(n: nat)
    requires n > 0
    ensures And(n, n - 1) == 0 <==> PowerOfTwo(n)
  {
    if n % 2 == 0 {
      AndEven(n);
      PowerTest(n / 2);
      PowerHalf(n);
    } else {
      AndOdd(n);
      PowerOdd(n);
    }
  }

  lemma AndEven(n: nat)
    requires n > 0 && n % 2 == 0
    ensures And(n, n - 1) == 2 * And(n / 2, n / 2 - 1)
  {
    assert (n - 1) / 2 == n / 2 - 1 && (n - 1) % 2 == 1;
  }

  lemma AndOdd(n: nat)
    requires n % 2 == 1
    ensures And(n, n - 1) == n - 1
  {
    assert (n - 1) / 2 == n / 2;
    AndSelf(n / 2);
  }

  lemma PowerOdd(n: nat)
    requires n % 2 == 1
    ensures PowerOfTwo(n) <==> n == 1
  {
    if n == 1 { assert n == Bit(0); }
    forall k: nat | n == Bit(k) ensures k == 0 {}
  }

  lemma PowerHalf(n: nat)
    requires n > 0 && n % 2 == 0
    ensures PowerOfTwo(n) <==> PowerOfTwo(n / 2)
  {
    forall k: nat | n == Bit(k) ensures PowerOfTwo(n / 2) {
      assert k > 0 && n / 2 == Bit(k - 1);
    }
    forall k: nat | n / 2 == Bit(k) ensures PowerOfTwo(n) {
      assert n == Bit(k + 1);
    }
  }

  lemma {:induction false} AndSelf(n: nat)
    ensures And(n, n) == n
  {
    if n > 0 { AndSelf(n / 2); }
  }

  function Down(x: nat, n: nat): nat
    requires n > 0
  {
    x - x % n
  }

  /** Rounding down by a mask: `x & -n`, that is `x & ~(n - 1)`, for a power of two. */
  lemma {:induction false} MaskRounds(x: nat, k: nat)
    ensures Bit(k) >= 1 && AndNot(x, Bit(k) - 1) == Down(x, Bit(k))
  {
    BitMonotone(k, k);
    if k == 0 {
      AndNotZero(x);
    } else if x > 0 {
      MaskRounds(x / 2, k - 1);
      AndNotStep(x, Bit(k - 1));
      DownHalf(x, Bit(k - 1));
    }
  }

  lemma AndNotStep(x: nat, h: nat)
    requires h >= 1 && x > 0
    ensures AndNot(x, 2 * h - 1) == 2 * AndNot(x / 2, h - 1)
  {
    assert (2 * h - 1) / 2 == h - 1 && (2 * h - 1) % 2 == 1;
  }

  lemma {:induction false} AndNotZero(x: nat)
    ensures AndNot(x, 0) == x
  {
    if x > 0 { AndNotZero(x / 2); }
  }

  lemma DownHalf(x: nat, h: nat)
    requires h > 0
    ensures 2 * Down(x / 2, h) == Down(x, 2 * h)
  {
    var q, r := (x / 2) / h, (x / 2) % h;
    assert x == (2 * h) * q + (2 * r + x % 2);
    ModUnique(x, 2 * h, q, 2 * r + x % 2);
  }

  /** Between a power of two and the next there is none. */
  lemma PowerGap(x: int, y: int)
    requires PowerOfTwo(x) && PowerOfTwo(y) && x < y
    ensures 0 < 2 * x <= y && PowerOfTwo(2 * x)
  {
    var j: nat, k: nat :| x == Bit(j) && y == Bit(k);
    BitMonotone(j, j);
    if k <= j { BitMonotone(k, j); }
    BitMonotone(j + 1, k);
    assert 2 * x == Bit(j + 1);
  }

  lemma SmallPower()
    ensures PowerOfTwo(MINSIZE) && PowerOfTwo(TWO64 / 2)
  {
    BitValues();
    assert MINSIZE == Bit(5) && TWO64 / 2 == Bit(63);
  }

  lemma PowerMod(n: int)
    requires PowerOfTwo(n) && n >= MINSIZE
    ensures n % MINSIZE == 0
  {
    var k: nat :| n == Bit(k);
    BitValues();
    if k < 5 {
      BitMonotone(k + 1, 5);
    } else {
      BitPlus(5, k - 5);
    }
  }

  // ------------------------------------------------------------------ the alignment

  /** The alignment used: the smallest power of two that is no smaller than asked, and at least MINSIZE. */
  function Rounded(alignment: nat): (r: nat)
    ensures MINSIZE <= r && alignment <= r
  {
    if alignment <= MINSIZE then MINSIZE else 2 * Rounded((alignment + 1) / 2)
  }

  lemma {:induction false} RoundedIsPower(alignment: nat)
    ensures PowerOfTwo(Rounded(alignment))
  {
    SmallPower();
    if alignment > MINSIZE {
      var h := (alignment + 1) / 2;
      RoundedIsPower(h);
      PowerHalf(2 * Rounded(h));
    }
  }

  lemma {:induction false} RoundedMinimal(alignment: nat, x: nat)
    requires PowerOfTwo(x) && MINSIZE <= x && alignment <= x
    ensures Rounded(alignment) <= x
  {
    if alignment > MINSIZE {
      SmallPower();
      PowerGap(MINSIZE, x);
      PowerMod(x);
      PowerHalf(x);
      RoundedMinimal((alignment + 1) / 2, x / 2);
    }
  }

  lemma RoundedLeast(alignment: nat)
    ensures PowerOfTwo(Rounded(alignment)) && Rounded(alignment) % MINSIZE == 0
    ensures forall x: nat :: PowerOfTwo(x) && MINSIZE <= x && alignment <= x ==> Rounded(alignment) <= x
    ensures alignment <= TWO64 / 2 ==> Rounded(alignment) <= TWO64 / 2
  {
    RoundedIsPower(alignment);
    PowerMod(Rounded(alignment));
    SmallPower();
    forall x: nat | PowerOfTwo(x) && MINSIZE <= x && alignment <= x ensures Rounded(alignment) <= x {
      RoundedMinimal(alignment, x);
    }
  }

  /** `a <<= 1`, on 64 bits. */
  function ShiftLeft(a: nat): nat {
    if 2 * a < TWO64 then 2 * a else 2 * a - TWO64
  }

  /** The shift repeated k times, from MALLOC_ALIGNMENT * 2. */
  function Shifted(k: nat): nat {
    if k == 0 then MALLOC_ALIGNMENT * 2 else ShiftLeft(Shifted(k - 1))
  }

  /** While the shift fits, it doubles; from 2 to the 64th on, it is 0 for good. */
  lemma {:induction false} ShiftedShape(k: nat)
    ensures Shifted(k) == if k <= 58 then 32 * Bit(k) else 0
  {
    if k > 0 {
      ShiftedShape(k - 1);
      if k <= 59 { BitSmall(k - 1); }
    }
  }

  const TWO58 := 0x400_0000_0000_0000

  lemma BitSmall(k: nat)
    requires k <= 58
    ensures Bit(k) <= TWO58 && (k < 58 ==> 2 * Bit(k) <= TWO58) && (k == 58 ==> Bit(k) == TWO58)
  {
    BitValues();
    BitMonotone(k, 58);
    if k < 58 { BitMonotone(k + 1, 58); }
  }

  lemma ShiftedBound(k: nat)
    ensures Shifted(k) <= TWO64 / 2 && (k == 58 ==> Shifted(k) == TWO64 / 2)
  {
    ShiftedShape(k);
    if k <= 58 { BitSmall(k); }
  }

  /** The loop that rounds the alignment up ends exactly when half the address space is enough. */
  lemma RoundingEnds(alignment: nat)
    ensures (exists k: nat :: Shifted(k) >= alignment) <==> alignment <= TWO64 / 2
  {
    var last: nat :| last == 58;
    ShiftedBound(last);
    assert alignment <= TWO64 / 2 ==> Shifted(last) >= alignment;
    forall k: nat ensures Shifted(k) <= TWO64 / 2 {
      ShiftedBound(k);
    }
  }

  /** One byte more, and the loop goes on for ever. */
  lemma NeverRounded()
    ensures forall k: nat :: Shifted(k) < TWO64 / 2 + 1
  {
    forall k: nat ensures Shifted(k) <= TWO64 / 2 {
      ShiftedBound(k);
    }
  }

  /** "Make sure alignment is power of 2", and at least MINSIZE. */
  method RoundAlignment(alignment: nat) returns (al: nat)
    requires alignment <= TWO64 / 2
    ensures al == Rounded(alignment)
  {
    RoundedLeast(alignment);
    al := if alignment < MINSIZE then MINSIZE else alignment;
    PowerTest(al);
    if And(al, al - 1) != 0 {
      var a := MALLOC_ALIGNMENT * 2;
      SmallPower();
      while a < al
        invariant PowerOfTwo(a) && MINSIZE <= a <= Rounded(alignment)
        decreases al - a
      {
        PowerGap(a, Rounded(alignment));
        a := ShiftLeft(a);
      }
      al := a;
    }
  }

  // ------------------------------------------------------------------ the aligned spot

  /** The request with worst-case padding leaves room for it exactly when the sum does not wrap. */
  lemma MemalignRoom(nb: int, al: nat)
    requires Padded(nb) && MINSIZE <= al <= TWO64 / 2
    ensures Request2Size((nb + al + MINSIZE) % TWO64) >= nb <==> nb + al + MINSIZE < TWO64
  {
    var sum := nb + al + MINSIZE;
    assert sum % TWO64 == if sum < TWO64 then sum else sum - TWO64;
    PaddedSize(sum % TWO64);
  }

  /** 2 to the 63rd bytes, in range, aligned to as much: the sum wraps, and a chunk of 64 bytes is asked for. */
  lemma MemalignShort()
    ensures var bytes, al := TWO64 / 2, TWO64 / 2;
      var nb := Request2Size(bytes);
      && !OutOfRange(bytes) && Padded(nb) && nb > bytes && Rounded(al) == al
      && Request2Size((nb + al + MINSIZE) % TWO64) == 64
  {
    RoundedLeast(TWO64 / 2);
  }

  /** `(m + alignment - 1) & -alignment` */
  function RoundUp(m: nat, al: nat): nat
    requires al > 0
  {
    AndNot(m + al - 1, al - 1)
  }

  lemma DownUp(m: nat, al: nat)
    requires 0 < al && m % al != 0
    ensures Down(m + al - 1, al) == m + (al - m % al)
  {
    var q, r := m / al, m % al;
    assert m + al - 1 == al * (q + 1) + (r - 1);
    ModUnique(m + al - 1, al, q + 1, r - 1);
  }

  lemma RoundUpAdds(m: nat, al: nat)
    requires PowerOfTwo(al) && 0 < al && m % al != 0
    ensures RoundUp(m, al) == m + (al - m % al)
  {
    var k: nat :| al == Bit(k);
    MaskRounds(m + al - 1, k);
    DownUp(m, al);
  }

  lemma NextMultiple(m: nat, al: nat)
    requires al > 0
    ensures (m + (al - m % al)) % al == 0
  {
    var q, r := m / al, m % al;
    assert m + (al - r) == al * (q + 1) + 0;
    ModUnique(m + (al - r), al, q + 1, 0);
  }

  lemma AddMultiple(x: nat, al: nat)
    requires al > 0 && x % al == 0
    ensures (x + al) % al == 0
  {
    var q := x / al;
    assert x + al == al * (q + 1) + 0;
    ModUnique(x + al, al, q + 1, 0);
  }

  lemma SixteenMod(m: nat, al: nat)
    requires al > 0 && al % 32 == 0 && m % 16 == 0
    ensures (m % al) % 16 == 0
  {
    var k, q := al / 32, m / al;
    assert m % al == m - al * q;
    assert al * q == 16 * (2 * k * q);
  }

  lemma LeadSize(al: nat, r: nat)
    requires al % 32 == 0 && r % 16 == 0 && 0 < r < al
    ensures 16 <= al - r < al && (al - r) % 16 == 0 && al % 16 == 0
  {
  }

  /** The chunk address `brk` found for the memory address `m`. */
  function Spot(m: nat, al: nat): int
    requires al > 0
  {
    var brk := RoundUp(m, al) - 16;
    if brk - (m - 16) < MINSIZE then brk + al else brk
  }

  /** It is aligned, and leaves a leader of at least MINSIZE and at most the alignment and one half MINSIZE. */
  lemma AlignedSpot(m: nat, al: nat)
    requires PowerOfTwo(al) && MINSIZE <= al && m % 16 == 0 && m % al != 0
    ensures var lead := Spot(m, al) - (m - 16);
      MINSIZE <= lead <= al + 16 && lead % 16 == 0 && (Spot(m, al) + 16) % al == 0
  {
    RoundUpAdds(m, al);
    PowerMod(al);
    SixteenMod(m, al);
    LeadSize(al, m % al);
    NextMultiple(m, al);
    AddMultiple(RoundUp(m, al), al);
    SpotCases(m, al, RoundUp(m, al));
  }

  lemma SpotCases(m: nat, al: nat, up: nat)
    requires 0 < al && 16 <= up - m < al && (up - m) % 16 == 0 && al % 16 == 0 && up % al == 0 && (up + al) % al == 0
    requires up == RoundUp(m, al)
    ensures var lead := Spot(m, al) - (m - 16);
      MINSIZE <= lead <= al + 16 && lead % 16 == 0 && (Spot(m, al) + 16) % al == 0
  {
  }

  lemma PutBack(live: map<int, int>, p: int, n: int)
    ensures (live - {p})[p := n] == live[p := n]
  {
  }

  /** The leader becomes a chunk of its own, still marked as in use. */
  method CarveLeader(a: Arena, p: int, size: int, leadsize: int)
    requires a.Valid() && p in a.live && size == 8 * a.live[p] && Padded(leadsize) && leadsize + MINSIZE <= size
    modifies a`mem, a`g, a`live
    ensures a.Valid() && UserSame(old(a.live) - {p}, old(a.mem), a.mem)
    ensures var newp := p + leadsize / 8;
      newp !in old(a.live) && a.live == old(a.live)[p := leadsize / 8][newp := (size - leadsize) / 8]
  {
    ghost var l0 := a.live;
    Borrow(a, p, size);
    var _ := SplitLive(a, p, size, leadsize);
    PutBack(l0, p, leadsize / 8);
  }

  /** "Give back leader, use the rest". */
  method GiveLeader(a: Arena, p: int, newp: int, leadsize: int, sys: Sbrk)
    requires a.Valid() && p in a.live && Padded(leadsize) && leadsize + MINSIZE <= 8 * a.live[p]
    requires newp == p + leadsize / 8
    modifies a
    ensures a.Valid() && newp !in old(a.live) && a.live == (old(a.live) - {p})[newp := old(a.live[p]) - leadsize / 8]
    ensures UserSame(old(a.live) - {p}, old(a.mem), a.mem)
    ensures |a.mem| <= |old(a.mem)|
  {
    hide BinIndex;
    ghost var l0, m0 := a.live, a.mem;
    assert ChunkOk(a.mem, a.g.c, a.base, p);
    CarveLeader(a, p, SizeAt(a.mem, p), leadsize);
    ghost var m1 := a.mem;
    IntFree(a, p, sys);
    UserChain(l0 - {p}, a.live, m0, m1, a.mem);
    assert a.live == (l0 - {p})[newp := l0[p] - leadsize / 8];
  }

  lemma SpotWords(p: nat, al: nat)
    requires PowerOfTwo(al) && MINSIZE <= al <= TWO64 / 2 && p % 2 == 0 && (8 * (p + FD)) % al != 0
    ensures var brk := Spot(8 * (p + FD), al); var lead := brk - 8 * p;
      && Padded(lead) && lead <= al + 16 && brk / 8 == p + lead / 8
      && 8 * (brk / 8 + FD) == brk + 16 && (brk + 16) % al == 0
  {
    AlignedSpot(8 * (p + FD), al);
    LeadWords(p, Spot(8 * (p + FD), al));
  }

  lemma LeadWords(p: nat, brk: int)
    requires p % 2 == 0 && (brk - 8 * p) % 16 == 0 && brk >= 8 * p
    ensures brk / 8 == p + (brk - 8 * p) / 8 && 8 * (brk / 8 + FD) == brk + 16
  {
  }

  /** The chunk moved up to the first aligned spot that leaves a leader. */
  method AlignUp(a: Arena, p: int, al: nat, sys: Sbrk) returns (newp: int)
    requires a.Valid() && p in a.live && 0 <= p && PowerOfTwo(al) && MINSIZE <= al && (8 * (p + FD)) % al != 0
    requires 8 * a.live[p] >= al + 16 + MINSIZE && al <= TWO64 / 2 && p % 2 == 0
    modifies a
    ensures a.Valid() && newp !in old(a.live) && newp in a.live && a.live == (old(a.live) - {p})[newp := a.live[newp]]
    ensures 8 * (newp + FD) % al == 0 && p < newp && newp + a.live[newp] == p + old(a.live[p])
    ensures 8 * a.live[newp] >= 8 * old(a.live[p]) - al - 16
    ensures UserSame(old(a.live) - {p}, old(a.mem), a.mem)
    ensures |a.mem| <= |old(a.mem)|
  {
    SpotWords(p, al);
    var brk := Spot(8 * (p + FD), al);
    newp := brk / 8;
    assert 8 * (newp + FD) % al == 0;
    GiveLeader(a, p, newp, brk - 8 * p, sys);
  }

  /** "Also give back spare room at the end". */
  method GiveTail(a: Arena, p: int, nb: int, sys: Sbrk)
    requires a.Valid() && p in a.live && Padded(nb) && nb <= 8 * a.live[p]
    modifies a
    ensures a.Valid() && p in a.live && a.live == old(a.live)[p := a.live[p]] && nb <= 8 * a.live[p] <= nb + MINSIZE
    ensures 8 * a.live[p] == if 8 * old(a.live[p]) > nb + MINSIZE then nb else 8 * old(a.live[p])
    ensures UserSame(old(a.live) - {p}, old(a.mem), a.mem)
    ensures |a.mem| <= |old(a.mem)|
  {
    UserInside(a.mem, a.base, a.g.c, a.live);
    UserLess(a.live, p, a.mem, a.mem);
    HeadOf(a.mem, a.g.c, a.base, p);
    hide Arena.Valid, UserSame, SizeAt, ChunkOk, Padded;
    var size := SizeAt(a.mem, p);
    PaddedWords(nb);
    if size > nb + MINSIZE {
      FreeTail(a, p, size, nb, sys);
    }
  }

  lemma PaddedWords(nb: int)
    requires Padded(nb)
    ensures 8 * (nb / 8) == nb
  {
    var q := nb / 16;
    assert nb == 8 * (2 * q) + 0;
    DivUnique(nb, 8, 2 * q, 0);
  }

  method FreeTail(a: Arena, p: int, size: int, nb: int, sys: Sbrk)
    requires a.Valid() && p in a.live && size == 8 * a.live[p] && Padded(nb) && nb + MINSIZE <= size
    modifies a
    ensures a.Valid() && a.live == old(a.live)[p := nb / 8] && UserSame(old(a.live) - {p}, old(a.mem), a.mem)
    ensures |a.mem| <= |old(a.mem)|
  {
    ghost var l0, m0 := a.live, a.mem;
    var remainder := CutTail(a, p, size, nb);
    ghost var m1 := a.mem;
    IntFree(a, remainder, sys);
    UserChain(l0 - {p}, a.live, m0, m1, a.mem);
    assert a.live == l0[p := nb / 8];
  }

  /** The spare room becomes a chunk of its own; the chunk behind knows already that it is in use. */
  method CutTail(a: Arena, p: int, size: int, nb: int) returns (remainder: int)
    requires a.Valid() && p in a.live && size == 8 * a.live[p] && Padded(nb) && nb + MINSIZE <= size
    modifies a`mem, a`g, a`live
    ensures a.Valid() && UserSame(old(a.live) - {p}, old(a.mem), a.mem) && remainder !in old(a.live) && remainder != p
    ensures a.live == old(a.live)[p := nb / 8][remainder := (size - nb) / 8]
  {
    hide BinIndex;
    assert ChunkOk(a.mem, a.g.c, a.base, p);
    ghost var l0 := a.live;
    Borrow(a, p, size);
    remainder := CutLive(a, p, size, nb);
    SettleTwo(a, p, remainder);
    PutBack(l0, p, nb / 8);
  }

  /** Leader and tail of an allocated chunk are given back, if need be. */
  method FitAligned(a: Arena, p: int, nb: int, al: nat, sys: Sbrk) returns (q: int)
    requires a.Valid() && p in a.live && Padded(nb) && PowerOfTwo(al) && MINSIZE <= al <= TWO64 / 2
    requires 8 * a.live[p] >= nb + al + 16
    modifies a
    ensures a.Valid() && q in a.live && (q == p || q !in old(a.live)) && 0 < q
    ensures a.live == (old(a.live) - {p})[q := a.live[q]]
    ensures nb <= 8 * a.live[q] <= nb + MINSIZE && 8 * (q + FD) % al == 0
    ensures UserSame(old(a.live) - {p}, old(a.mem), a.mem)
    ensures |a.mem| <= |old(a.mem)|
  {
    ghost var l0, m0 := a.live, a.mem;
    UserInside(a.mem, a.base, a.g.c, a.live);
    UserLess(a.live, p, a.mem, a.mem);
    assert ChunkOk(a.mem, a.g.c, a.base, p);
    q := p;
    if 8 * (p + FD) % al != 0 {
      q := AlignUp(a, p, al, sys);
    }
    ghost var m1, l1 := a.mem, a.live;
    GiveTail(a, q, nb, sys);
    UserChain(l0 - {p}, l1 - {q}, m0, m1, a.mem);
    assert a.live == (l0 - {p})[q := a.live[q]];
  }

  /** _int_memalign: a new chunk at an aligned address, of the padded size and at most MINSIZE more. */
  method IntMemalign(a: Arena, alignment: nat, bytes: nat, sys: Sbrk) returns (p: int)
    requires a.Valid() && bytes < TWO64 && alignment <= TWO64 / 2
    requires alignment > MALLOC_ALIGNMENT && !OutOfRange(bytes) ==>
               Request2Size(bytes) + Rounded(alignment) + MINSIZE < TWO64
    modifies a
    ensures a.Valid() && UserSame(old(a.live), old(a.mem), a.mem)
    ensures p == 0 ==> a.live == old(a.live)
    ensures p != 0 ==> p !in old(a.live) && p in a.live && a.live == old(a.live)[p := a.live[p]]
    ensures p != 0 ==> Request2Size(bytes) <= 8 * a.live[p] <= Request2Size(bytes) + MINSIZE
    ensures p != 0 && alignment > MALLOC_ALIGNMENT ==> 8 * (p + FD) % Rounded(alignment) == 0
    ensures !OutOfRange(bytes) && old(Granted(a, Request2Size(bytes) + Rounded(alignment) + 2 * MINSIZE, sys)) ==>
              p != 0
    ensures if OutOfRange(bytes) then a.mem == old(a.mem)
            else Grown(|old(a.mem)|, |a.mem|, a.topPad, Request2Size(bytes) + Rounded(alignment) + 2 * MINSIZE)
  {
    UserInside(a.mem, a.base, a.g.c, a.live);
    if alignment <= MALLOC_ALIGNMENT {
      p := IntMalloc(a, bytes, sys);
      return;
    }
    var al := RoundAlignment(alignment);
    if OutOfRange(bytes) {
      return 0;
    }
    var nb := Request2Size(bytes);
    PaddedSize(bytes);
    PaddedSize(nb + al + MINSIZE);
    ghost var l0, m0 := a.live, a.mem;
    p := IntMalloc(a, nb + al + MINSIZE, sys);
    if p == 0 {
      return 0;
    }
    ghost var m1 := a.mem;
    TookBack(l0, a.live, p, Request2Size(nb + al + MINSIZE));
    RoundedLeast(alignment);
    p := FitAligned(a, p, nb, al, sys);
    UserChain(l0, l0, m0, m1, a.mem);
  }
}
