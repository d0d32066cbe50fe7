/** Request sizes, bins and their indices: the arithmetic macros, in bytes. */
module Sizes {
  const TWO64 := 0x1_0000_0000_0000_0000
  const MINSIZE := 32
  const MIN_LARGE_SIZE := 1024
  /** mp_.pagesize */
  const PAGE := 4096
  const PAGEWORDS := 512

  /** REQUEST_OUT_OF_RANGE: the request would wrap around zero when padded. */
  predicate OutOfRange(req: int) {
    req >= TWO64 - 2 * MINSIZE
  }

  function Request2Size(req: int): int {
    if req + 8 + 15 < MINSIZE then MINSIZE else (req + 8 + 15) / 16 * 16
  }

  /** The macro in 64-bit arithmetic, where the sum wraps. */
  function Request2Size64(req: int): int {
    var padded := (req + 8 + 15) % TWO64;
    if padded < MINSIZE then MINSIZE else padded / 16 * 16
  }

  function LargeBinIndex(sz: int): int {
    if sz / 64 <= 48 then 48 + sz / 64
    else if sz / 512 <= 20 then 91 + sz / 512
    else if sz / 4096 <= 10 then 110 + sz / 4096
    else if sz / 32768 <= 4 then 119 + sz / 32768
    else if sz / 262144 <= 2 then 124 + sz / 262144
    else 126
  }

  function BinIndex(sz: int): int {
    if sz < MIN_LARGE_SIZE then sz / 16 else LargeBinIndex(sz)
  }

  function FastIndex(sz: int): int {
    sz / 16 - 2
  }

  /** A chunk of the padded size is aligned, has room for the request, and is the smallest that does. */
  lemma PaddedSize(req: int)
    requires 0 <= req
    ensures var nb := Request2Size(req); nb % 16 == 0 && MINSIZE <= nb && req + 8 <= nb
    ensures forall sz :: sz % 16 == 0 && MINSIZE <= sz && req + 8 <= sz ==> Request2Size(req) <= sz
    ensures !OutOfRange(req) ==> Request2Size(req) + MINSIZE < TWO64
  {
    var nb := Request2Size(req);
    forall sz | sz % 16 == 0 && MINSIZE <= sz && req + 8 <= sz ensures nb <= sz {
      assert sz == 16 * (sz / 16);
    }
  }

  /** The macro pads a request right exactly when the sum does not wrap; else it gives the smallest chunk. */
  lemma PaddedExactly(req: int)
    requires 0 <= req < TWO64
    ensures Request2Size64(req) == Request2Size(req) <==> req < TWO64 - 23
    ensures req >= TWO64 - 23 ==> Request2Size64(req) == MINSIZE
    ensures OutOfRange(req) <==> req + 64 >= 0x1_0000_0000_0000_0000
  {
    if req < TWO64 - 23 {
      assert (req + 23) % TWO64 == req + 23;
    } else {
      assert (req + 23) % TWO64 == req + 23 - TWO64;
    }
  }

  /** Asking for a padded size less the alignment mask gives that padded size back. */
  lemma PadUnpad(nb: int)
    requires nb % 16 == 0 && MINSIZE <= nb
    ensures Request2Size(nb - 15) == nb
  {
  }

  /** Larger chunks never live in a smaller bin, over all six slopes of the index. */
  lemma BinIndexMonotone(x: int, y: int)
    requires 0 <= x <= y
    ensures BinIndex(x) <= BinIndex(y)
  {
    assert x / 64 <= y / 64 && x / 512 <= y / 512 && x / 4096 <= y / 4096 && x / 32768 <= y / 32768;
    assert x / 262144 <= y / 262144;
    if x >= MIN_LARGE_SIZE {
      LargeMonotone(x, y);
    }
  }

  lemma LargeMonotone(x: int, y: int)
    requires MIN_LARGE_SIZE <= x <= y
    ensures 64 <= LargeBinIndex(x) <= LargeBinIndex(y) <= 126
  {
  }

  lemma BinIndexRange(sz: int)
    requires MINSIZE <= sz && sz % 16 == 0
    ensures 2 <= BinIndex(sz) <= 126
    ensures BinIndex(sz) < 64 <==> sz < MIN_LARGE_SIZE
    ensures sz < MIN_LARGE_SIZE ==> sz == 16 * BinIndex(sz)
  {
  }

  /** The smallest size in a bin: bins are 16 bytes wide, then 64, 512, 4096, 32768 and 262144; where one width gives
    way to the next a bin is narrower or wider, and the last takes all that is left. */
  function Lowest(b: int): int {
    if b < 64 then 16 * b
    else if b <= 96 then 64 * (b - 48)
    else if b == 97 then 3136
    else if b <= 111 then 512 * (b - 91)
    else if b == 112 then 10752
    else if b <= 120 then 4096 * (b - 110)
    else if b <= 123 then 32768 * (b - 119)
    else if b == 124 then 163840
    else 262144 * (b - 124)
  }

  /** A bin holds exactly the sizes from its smallest to that of the next bin. */
  lemma BinWidths(sz: int, b: int)
    requires MINSIZE <= sz && sz % 16 == 0 && 2 <= b <= 126
    ensures BinIndex(sz) == b <==> Lowest(b) <= sz && (b < 126 ==> sz < Lowest(b + 1))
  {
    BinIndexRange(sz);
    if b >= 64 && sz >= MIN_LARGE_SIZE { LargeWidths(sz, b); }
  }

  lemma LargeWidths(sz: int, b: int)
    requires MIN_LARGE_SIZE <= sz && 64 <= b <= 126
    ensures LargeBinIndex(sz) == b <==> Lowest(b) <= sz && (b < 126 ==> sz < Lowest(b + 1))
  {
  }
}
