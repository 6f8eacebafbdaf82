/**
 One page of a process's heap (kernel/src/solicitudes.c): blocks with 8-byte headers, a
 32-bit size and a free flag followed by three bytes of padding that the source never sets,
 tile the page. pad stands for whatever those bytes hold.
 */
module HeapPage {
  import opened Bytes

  const HEADER := 8  // sizeof(t_heapMetadata)

  function SizeAt(page: seq<byte>, off: int): (n: int)
    requires 0 <= off && off + HEADER <= |page|
    ensures n >= 0
  {
    FromBytes(page[off..off + 4])
  }

  predicate FreeAt(page: seq<byte>, off: int)
    requires 0 <= off && off + HEADER <= |page|
  {
    page[off + 4] != 0
  }

  function Header(size: int, free: bool, pad: seq<byte>): (h: seq<byte>)
    requires size >= 0 && |pad| == 3
    ensures |h| == HEADER
  {
    ToBytes(size, 4) + [if free then 1 else 0] + pad
  }

  lemma {:induction false} HeaderRoundTrip(page: seq<byte>, off: int, size: int, free: bool, pad: seq<byte>)
    requires 0 <= off && off + HEADER <= |page| && |pad| == 3 && 0 <= size < Power256(4)
    ensures SizeAt(Splice(page, off, Header(size, free, pad)), off) == size
    ensures FreeAt(Splice(page, off, Header(size, free, pad)), off) == free
  {
    var p := Splice(page, off, Header(size, free, pad));
    assert p[off..off + 4] == ToBytes(size, 4);
    BytesRoundTrip(size, 4);
  }

  /** sizeof(uint32_t) bytes of size, least significant first, a byte for the flag and three of padding. */
  lemma {:induction false} HeaderBytes(size: int, free: bool, pad: seq<byte>)
    requires size >= 0 && |pad| == 3
    ensures Header(size, free, pad)[..4]
         == [size % 256, size / 0x100 % 256, size / 0x1_0000 % 256, size / 0x100_0000 % 256]
    ensures Header(size, free, pad)[4] == (if free then 1 else 0) && Header(size, free, pad)[5..] == pad
  {
    FourBytes(size);
  }

  lemma {:induction false} HeaderFrame(page: seq<byte>, page': seq<byte>, off: int)
    requires 0 <= off && off + HEADER <= |page| == |page'|
          && forall k :: off <= k < off + HEADER ==> page'[k] == page[k]
    ensures SizeAt(page', off) == SizeAt(page, off) && FreeAt(page', off) == FreeAt(page, off)
  {
    assert page'[off..off + 4] == page[off..off + 4];
  }

  // ---- layouts ----

  /** The blocks of a page in address order. */
  datatype Blocks = End | Block(size: nat, free: bool, rest: Blocks)

  /** The headers from lo on describe these blocks, which end exactly at hi. */
  ghost predicate Tiles(page: seq<byte>, lo: int, bs: Blocks, hi: int)
    decreases bs
  {
    && 0 <= lo <= hi <= |page|
    && match bs
       case End => lo == hi
       case Block(size, free, rest) =>
         lo + HEADER + size <= hi && SizeAt(page, lo) == size && FreeAt(page, lo) == free
           && Tiles(page, lo + HEADER + size, rest, hi)
  }

  /** A layout only depends on the bytes it covers. */
  lemma {:induction false} TilesFrame(page: seq<byte>, page': seq<byte>, lo: int, bs: Blocks, hi: int)
    requires Tiles(page, lo, bs, hi) && |page'| == |page| && forall k :: lo <= k < hi ==> page'[k] == page[k]
    ensures Tiles(page', lo, bs, hi)
    decreases bs
  {
    match bs
    case End =>
    case Block(size, free, rest) =>
      HeaderFrame(page, page', lo);
      TilesFrame(page, page', lo + HEADER + size, rest, hi);
  }

  /** A page has one layout. */
  lemma {:induction false} LayoutIsOne(page: seq<byte>, lo: int, a: Blocks, b: Blocks, hi: int)
    requires Tiles(page, lo, a, hi) && Tiles(page, lo, b, hi)
    ensures a == b
    decreases a
  {
    if a.Block? && b.Block? {
      LayoutIsOne(page, lo + HEADER + a.size, a.rest, b.rest, hi);
    }
  }

  /** A block of z bytes in use has its header at s. */
  ghost predicate IsLive(bs: Blocks, lo: int, s: int, z: int) {
    match bs
    case End => false
    case Block(size, free, rest) => (!free && s == lo && z == size) || IsLive(rest, lo + HEADER + size, s, z)
  }

  lemma {:induction false} LiveBounds(page: seq<byte>, lo: int, bs: Blocks, hi: int, s: int, z: int)
    requires Tiles(page, lo, bs, hi) && IsLive(bs, lo, s, z)
    ensures lo <= s && z >= 0 && s + HEADER + z <= hi
    decreases bs
  {
    if !(!bs.free && s == lo && z == bs.size) {
      LiveBounds(page, lo + HEADER + bs.size, bs.rest, hi, s, z);
    }
  }

  /** A program that writes inside a block it has leaves the layout as it is. */
  lemma {:induction false} StoreKeeps(page: seq<byte>, page': seq<byte>, lo: int, bs: Blocks, hi: int, s: int, z: int)
    requires Tiles(page, lo, bs, hi) && IsLive(bs, lo, s, z) && SameOutside(page, page', s + HEADER, s + HEADER + z)
    ensures Tiles(page', lo, bs, hi)
    decreases bs
  {
    LiveBounds(page, lo, bs, hi, s, z);
    HeaderFrame(page, page', lo);
    if !bs.free && s == lo && z == bs.size {
      TilesFrame(page, page', lo + HEADER + bs.size, bs.rest, hi);
    } else {
      StoreKeeps(page, page', lo + HEADER + bs.size, bs.rest, hi, s, z);
    }
  }

  /** The last block is free: a used block always has a header after it. */
  ghost predicate LastFree(bs: Blocks) {
    bs.Block? && if bs.rest.End? then bs.free else LastFree(bs.rest)
  }

  lemma {:induction false} LiveHasNext(page: seq<byte>, lo: int, bs: Blocks, hi: int, s: int, z: int)
    requires Tiles(page, lo, bs, hi) && IsLive(bs, lo, s, z) && LastFree(bs)
    ensures lo <= s && z >= 0 && s + HEADER + z + HEADER <= hi
    decreases bs
  {
    var next := lo + HEADER + bs.size;
    if !(!bs.free && s == lo && z == bs.size) {
      LiveHasNext(page, next, bs.rest, hi, s, z);
    }
  }

  /** The sum of the free payloads. */
  function FreeBytes(bs: Blocks): nat {
    match bs
    case End => 0
    case Block(size, free, rest) => (if free then size else 0) + FreeBytes(rest)
  }

  lemma {:induction false} FreeBytesBound(page: seq<byte>, lo: int, bs: Blocks, hi: int)
    requires Tiles(page, lo, bs, hi)
    ensures bs.Block? ==> FreeBytes(bs) <= hi - lo - HEADER
    ensures bs.End? ==> FreeBytes(bs) == 0
    decreases bs
  {
    if bs.Block? {
      FreeBytesBound(page, lo + HEADER + bs.size, bs.rest, hi);
    }
  }

  /** The table's test for an empty page holds exactly when the page is one free block. */
  lemma {:induction false} EmptyIff(page: seq<byte>, bs: Blocks)
    requires Tiles(page, 0, bs, |page|) && |page| > HEADER
    ensures FreeBytes(bs) == |page| - HEADER <==> bs == Block(|page| - HEADER, true, End)
  {
    FreeBytesBound(page, HEADER + bs.size, bs.rest, |page|);
  }

  // ---- what happens to the bytes ----

  /** Two blocks, headers included, have no byte in common. */
  predicate Apart(s: int, z: int, s': int, z': int) {
    s + HEADER + z <= s' || s' + HEADER + z' <= s
  }

  /** The z bytes after the header at s are the same in both pages. */
  ghost predicate SamePayload(page: seq<byte>, page': seq<byte>, s: int, z: int) {
    && 0 <= s && z >= 0 && s + HEADER + z <= |page| == |page'|
    && forall k :: s + HEADER <= k < s + HEADER + z ==> page'[k] == page[k]
  }

  /** page' differs from page at most between lo and hi. */
  ghost predicate SameOutside(page: seq<byte>, page': seq<byte>, lo: int, hi: int) {
    |page'| == |page| && forall k :: 0 <= k < |page| && !(lo <= k < hi) ==> page'[k] == page[k]
  }

  // ---- allocation ----

  /** The header of the first block with room for n bytes and a header after them, or -1. */
  function Fit(bs: Blocks, lo: int, n: int): int {
    match bs
    case End => -1
    case Block(size, free, rest) => if free && size >= n + HEADER then lo else Fit(rest, lo + HEADER + size, n)
  }

  /** That block split into n used bytes and a free rest. */
  function Carved(bs: Blocks, n: nat): Blocks {
    match bs
    case End => End
    case Block(size, free, rest) =>
      if free && size >= n + HEADER then Block(n, false, Block(size - n - HEADER, true, rest))
      else Block(size, free, Carved(rest, n))
  }

  lemma {:induction false} CarvedLastFree(bs: Blocks, n: nat)
    requires LastFree(bs)
    ensures LastFree(Carved(bs, n))
  {
    if bs.rest.Block? {
      CarvedLastFree(bs.rest, n);
    }
  }

  /** uint32_t arithmetic of crear_metadata_libre */
  function Wrap32(x: int): (r: int)
    ensures 0 <= r < Power256(4)
  {
    assert Power256(4) == 0x1_0000_0000;
    x % 0x1_0000_0000
  }

  /** marcar_bloque_ocupado: a used header over the block and a free one after its n bytes. */
  function Marked(page: seq<byte>, off: int, n: nat, pad: seq<byte>, pad': seq<byte>): (p: seq<byte>)
    requires 0 <= off && off + HEADER + n + HEADER <= |page| && |pad| == |pad'| == 3
    ensures |p| == |page|
  {
    Splice(Splice(page, off, Header(n, false, pad)), off + HEADER + n,
         Header(Wrap32(SizeAt(page, off) - n - HEADER), true, pad'))
  }

  lemma {:induction false} TwoSplices(page: seq<byte>, page1: seq<byte>, page': seq<byte>, off: int, h: seq<byte>,
                                      off': int, h': seq<byte>)
    requires |h| == |h'| == HEADER && 0 <= off && off + HEADER <= off' && off' + HEADER <= |page|
    requires page1 == Splice(page, off, h) && page' == Splice(page1, off', h')
    ensures |page'| == |page| && SameOutside(page, page', off, off' + HEADER)
    ensures forall k :: off <= k < off + HEADER ==> page'[k] == page1[k]
  {
  }

  lemma {:induction false} MarkedHeaders(page: seq<byte>, off: int, n: nat, pad: seq<byte>, pad': seq<byte>,
                                         page': seq<byte>)
    requires 0 <= off && off + HEADER + n + HEADER <= |page| < Power256(4) && |pad| == |pad'| == 3
    requires page' == Marked(page, off, n, pad, pad')
    ensures SizeAt(page', off) == n && !FreeAt(page', off)
    ensures SizeAt(page', off + HEADER + n) == Wrap32(SizeAt(page, off) - n - HEADER) && FreeAt(page', off + HEADER + n)
    ensures SameOutside(page, page', off, off + HEADER + n + HEADER)
  {
    var h, h' := Header(n, false, pad), Header(Wrap32(SizeAt(page, off) - n - HEADER), true, pad');
    var page1 := Splice(page, off, h);
    TwoSplices(page, page1, page', off, h, off + HEADER + n, h');
    HeaderRoundTrip(page, off, n, false, pad);
    HeaderRoundTrip(page1, off + HEADER + n, Wrap32(SizeAt(page, off) - n - HEADER), true, pad');
    HeaderFrame(page1, page', off);
  }

  /** Where the first fit is, and how large. */
  lemma {:induction false} FitBounds(page: seq<byte>, lo: int, bs: Blocks, hi: int, n: nat)
    requires Tiles(page, lo, bs, hi) && Fit(bs, lo, n) >= 0
    ensures lo <= Fit(bs, lo, n) && Fit(bs, lo, n) + HEADER + n + HEADER <= hi
    ensures n + HEADER <= SizeAt(page, Fit(bs, lo, n)) <= hi
    decreases bs
  {
    if !(bs.free && bs.size >= n + HEADER) {
      FitBounds(page, lo + HEADER + bs.size, bs.rest, hi, n);
    }
  }

  /** page' has a used header of n bytes at off and, after them, a free one for the rest of the block. */
  ghost predicate CarvedAt(page: seq<byte>, page': seq<byte>, off: int, n: nat) {
    && 0 <= off && off + HEADER + n + HEADER <= |page| && SameOutside(page, page', off, off + HEADER + n + HEADER)
    && SizeAt(page', off) == n && !FreeAt(page', off)
    && SizeAt(page', off + HEADER + n) == SizeAt(page, off) - n - HEADER && FreeAt(page', off + HEADER + n)
  }

  lemma {:induction false} SplitTiles(page: seq<byte>, page': seq<byte>, lo: int, bs: Blocks, hi: int, n: nat)
    requires Tiles(page, lo, bs, hi) && bs.Block? && bs.size >= n + HEADER && CarvedAt(page, page', lo, n)
    ensures Tiles(page', lo, Block(n, false, Block(bs.size - n - HEADER, true, bs.rest)), hi)
  {
    TilesFrame(page, page', lo + HEADER + bs.size, bs.rest, hi);
    assert Tiles(page', lo + HEADER + n, Block(bs.size - n - HEADER, true, bs.rest), hi);
  }

  lemma {:induction false} CarvedTiles(page: seq<byte>, page': seq<byte>, lo: int, bs: Blocks, hi: int, n: nat)
    requires Tiles(page, lo, bs, hi) && Fit(bs, lo, n) >= 0 && CarvedAt(page, page', Fit(bs, lo, n), n)
    ensures Tiles(page', lo, Carved(bs, n), hi)
    ensures FreeBytes(Carved(bs, n)) == FreeBytes(bs) - n - HEADER
    decreases bs
  {
    var next := lo + HEADER + bs.size;
    if bs.free && bs.size >= n + HEADER {
      SplitTiles(page, page', lo, bs, hi, n);
    } else {
      FitBounds(page, next, bs.rest, hi, n);
      HeaderFrame(page, page', lo);
      CarvedTiles(page, page', next, bs.rest, hi, n);
    }
  }

  /** Marking the first fit carves it: the page stays tiled and loses n bytes and a header of free space. */
  lemma {:induction false} Allocated(page: seq<byte>, page': seq<byte>, bs: Blocks, n: nat, off: int, pad: seq<byte>,
                                     pad': seq<byte>)
    requires Tiles(page, 0, bs, |page|) && |page| < Power256(4) && |pad| == |pad'| == 3
    requires off == Fit(bs, 0, n) && 0 <= off && off + HEADER + n + HEADER <= |page|
          && page' == Marked(page, off, n, pad, pad')
    ensures Tiles(page', 0, Carved(bs, n), |page|)
    ensures FreeBytes(Carved(bs, n)) == FreeBytes(bs) - n - HEADER
    ensures SameOutside(page, page', off, off + HEADER + n + HEADER)
  {
    FitBounds(page, 0, bs, |page|, n);
    MarkedFits(page, page', n, off, pad, pad');
    CarvedTiles(page, page', 0, bs, |page|, n);
  }

  lemma {:induction false} MarkedFits(page: seq<byte>, page': seq<byte>, n: nat, off: int, pad: seq<byte>,
                                      pad': seq<byte>)
    requires |page| < Power256(4) && |pad| == |pad'| == 3
    requires 0 <= off && off + HEADER + n + HEADER <= |page| && page' == Marked(page, off, n, pad, pad')
    requires n + HEADER <= SizeAt(page, off) <= |page|
    ensures CarvedAt(page, page', off, n)
  {
    MarkedHeaders(page, off, n, pad, pad', page');
    assert Power256(4) == 0x1_0000_0000;
  }

  /** Exactly one live block is added; no live block has a byte in common with it or loses its payload. */
  lemma {:induction false} AllocatedLive(page: seq<byte>, page': seq<byte>, lo: int, bs: Blocks, hi: int, n: nat,
                                         s: int, z: int)
    requires Tiles(page, lo, bs, hi) && Fit(bs, lo, n) >= 0
    requires SameOutside(page, page', Fit(bs, lo, n), Fit(bs, lo, n) + HEADER + n + HEADER)
    ensures IsLive(Carved(bs, n), lo, s, z) <==> IsLive(bs, lo, s, z) || (s == Fit(bs, lo, n) && z == n)
    ensures IsLive(bs, lo, s, z) ==> Apart(s, z, Fit(bs, lo, n), n) && SamePayload(page, page', s, z)
    decreases bs
  {
    var next := lo + HEADER + bs.size;
    FitBounds(page, lo, bs, hi, n);
    if bs.free && bs.size >= n + HEADER {
      if IsLive(bs.rest, next, s, z) {
        LiveBounds(page, next, bs.rest, hi, s, z);
      }
    } else {
      FitBounds(page, next, bs.rest, hi, n);
      AllocatedLive(page, page', next, bs.rest, hi, n, s, z);
    }
  }

  /** Marking a block that is too small leaves bytes that no blocks tile: the header written after its
      n bytes claims a size that wrapped around. */
  lemma {:induction false} MarkedTooSmall(page: seq<byte>, off: int, n: nat, pad: seq<byte>, pad': seq<byte>,
                                          bs: Blocks)
    requires 0 <= off && off + HEADER + n + HEADER <= |page| < Power256(4) / 2 && |pad| == |pad'| == 3
    requires SizeAt(page, off) < n + HEADER
    ensures !Tiles(Marked(page, off, n, pad, pad'), off, bs, |page|)
  {
    var page', short := Marked(page, off, n, pad, pad'), SizeAt(page, off) - n - HEADER;
    MarkedHeaders(page, off, n, pad, pad', page');
    assert Power256(4) == 0x1_0000_0000 && Wrap32(short) == short + 0x1_0000_0000;
  }

  // ---- release and merging ----

  /** The block whose header is at off becomes free. */
  function Freed(bs: Blocks, lo: int, off: int): Blocks {
    match bs
    case End => End
    case Block(size, free, rest) =>
      if lo == off then Block(size, true, rest) else Block(size, free, Freed(rest, lo + HEADER + size, off))
  }

  /** marcar_bloque_libre */
  function Unmarked(page: seq<byte>, off: int, pad: seq<byte>): (p: seq<byte>)
    requires 0 <= off && off + HEADER <= |page| && |pad| == 3
    ensures |p| == |page|
  {
    Splice(page, off, Header(SizeAt(page, off), true, pad))
  }

  /** Releasing a live block keeps the page tiled and returns exactly its bytes. */
  lemma {:induction false} Released(page: seq<byte>, page': seq<byte>, lo: int, bs: Blocks, hi: int, off: int, z: int,
                                    pad: seq<byte>)
    requires Tiles(page, lo, bs, hi) && |page| < Power256(4) && |pad| == 3
    requires IsLive(bs, lo, off, z) && 0 <= off && off + HEADER <= |page| && page' == Unmarked(page, off, pad)
    ensures SizeAt(page, off) == z
    ensures Tiles(page', lo, Freed(bs, lo, off), hi) && FreeBytes(Freed(bs, lo, off)) == FreeBytes(bs) + z
    decreases bs
  {
    var next := lo + HEADER + bs.size;
    if lo == off {
      if IsLive(bs.rest, next, off, z) {
        LiveBounds(page, next, bs.rest, hi, off, z);
      }
      HeaderRoundTrip(page, off, bs.size, true, pad);
      TilesFrame(page, page', next, bs.rest, hi);
    } else {
      LiveBounds(page, next, bs.rest, hi, off, z);
      HeaderFrame(page, page', lo);
      Released(page, page', next, bs.rest, hi, off, z, pad);
    }
  }

  /** Exactly that block stops being live; the others keep their payloads. */
  lemma {:induction false} ReleasedLive(page: seq<byte>, page': seq<byte>, lo: int, bs: Blocks, hi: int, off: int,
                                        s: int, z: int)
    requires Tiles(page, lo, bs, hi) && SameOutside(page, page', off, off + HEADER)
          && exists y :: IsLive(bs, lo, off, y)
    ensures IsLive(Freed(bs, lo, off), lo, s, z) <==> IsLive(bs, lo, s, z) && s != off
    ensures IsLive(Freed(bs, lo, off), lo, s, z) ==> SamePayload(page, page', s, z)
    decreases bs
  {
    var next := lo + HEADER + bs.size;
    var y :| IsLive(bs, lo, off, y);
    if IsLive(bs.rest, next, s, z) {
      LiveBounds(page, next, bs.rest, hi, s, z);
    }
    if lo == off {
      if IsLive(bs.rest, next, off, y) {
        LiveBounds(page, next, bs.rest, hi, off, y);
      }
    } else {
      LiveBounds(page, next, bs.rest, hi, off, y);
      ReleasedLive(page, page', next, bs.rest, hi, off, s, z);
    }
  }

  /** The first of two adjacent free blocks, or -1. */
  function Pair(bs: Blocks, lo: int): int {
    if bs.End? || bs.rest.End? then -1
    else if bs.free && bs.rest.free then lo
    else Pair(bs.rest, lo + HEADER + bs.size)
  }

  /** That pair made one block. */
  function Joined(bs: Blocks): Blocks {
    if bs.End? || bs.rest.End? then bs
    else if bs.free && bs.rest.free then Block(bs.size + HEADER + bs.rest.size, true, bs.rest.rest)
    else Block(bs.size, bs.free, Joined(bs.rest))
  }

  lemma {:induction false} ReleasedLastFree(bs: Blocks, lo: int, off: int)
    requires LastFree(bs)
    ensures LastFree(Freed(bs, lo, off)) && LastFree(Joined(bs))
  {
    if bs.rest.Block? {
      ReleasedLastFree(bs.rest, lo + HEADER + bs.size, off);
      assert Freed(bs.rest, lo + HEADER + bs.size, off).Block? && Joined(bs.rest).Block?;
    }
  }

  lemma {:induction false} PairBounds(page: seq<byte>, lo: int, bs: Blocks, hi: int)
    requires Tiles(page, lo, bs, hi) && Pair(bs, lo) >= 0
    ensures lo <= Pair(bs, lo) && Pair(bs, lo) + HEADER <= hi && PairSize(bs) <= hi
    decreases bs
  {
    if !(bs.free && bs.rest.free) {
      PairBounds(page, lo + HEADER + bs.size, bs.rest, hi);
    }
  }

  lemma {:induction false} JoinedTiles(page: seq<byte>, page': seq<byte>, lo: int, bs: Blocks, hi: int)
    requires Tiles(page, lo, bs, hi) && Pair(bs, lo) >= 0 && Pair(bs, lo) + HEADER <= |page|
    requires SameOutside(page, page', Pair(bs, lo), Pair(bs, lo) + HEADER)
    requires SizeAt(page', Pair(bs, lo)) == PairSize(bs) && FreeAt(page', Pair(bs, lo))
    ensures Tiles(page', lo, Joined(bs), hi) && FreeBytes(Joined(bs)) == FreeBytes(bs) + HEADER
    decreases bs
  {
    var next := lo + HEADER + bs.size;
    if bs.free && bs.rest.free {
      TilesFrame(page, page', next + HEADER + bs.rest.size, bs.rest.rest, hi);
    } else {
      PairBounds(page, next, bs.rest, hi);
      HeaderFrame(page, page', lo);
      JoinedTiles(page, page', next, bs.rest, hi);
    }
  }

  /** Merging a pair keeps the page tiled and frees the second header. */
  lemma {:induction false} Merged(page: seq<byte>, page': seq<byte>, bs: Blocks, off: int, pad: seq<byte>)
    requires Tiles(page, 0, bs, |page|) && |page| < Power256(4) && |pad| == 3
    requires off == Pair(bs, 0) >= 0 && off + HEADER <= |page|
          && page' == Splice(page, off, Header(PairSize(bs), true, pad))
    ensures Tiles(page', 0, Joined(bs), |page|) && FreeBytes(Joined(bs)) == FreeBytes(bs) + HEADER
    ensures SameOutside(page, page', off, off + HEADER)
  {
    PairBounds(page, 0, bs, |page|);
    HeaderRoundTrip(page, off, PairSize(bs), true, pad);
    JoinedTiles(page, page', 0, bs, |page|);
  }

  /** The payload the first pair has once merged. */
  function PairSize(bs: Blocks): nat {
    if bs.End? || bs.rest.End? then 0
    else if bs.free && bs.rest.free then bs.size + HEADER + bs.rest.size
    else PairSize(bs.rest)
  }

  /** Merging changes no live block. */
  lemma {:induction false} MergedLive(page: seq<byte>, page': seq<byte>, lo: int, bs: Blocks, hi: int, s: int, z: int)
    requires Tiles(page, lo, bs, hi) && Pair(bs, lo) >= 0
          && SameOutside(page, page', Pair(bs, lo), Pair(bs, lo) + HEADER)
    ensures IsLive(Joined(bs), lo, s, z) <==> IsLive(bs, lo, s, z)
    ensures IsLive(bs, lo, s, z) ==> SamePayload(page, page', s, z)
    decreases bs
  {
    var next := lo + HEADER + bs.size;
    PairBounds(page, lo, bs, hi);
    if IsLive(bs.rest, next, s, z) {
      LiveBounds(page, next, bs.rest, hi, s, z);
    }
    if !(bs.free && bs.rest.free) {
      PairBounds(page, next, bs.rest, hi);
      MergedLive(page, page', next, bs.rest, hi, s, z);
    }
  }

  // ---- the same, block by block ----

  /** One of the blocks has its header at s, z bytes, and is free or not. */
  ghost predicate Has(bs: Blocks, lo: int, s: int, z: int, free: bool) {
    match bs
    case End => false
    case Block(size, f, rest) => (s == lo && z == size && free == f) || Has(rest, lo + HEADER + size, s, z, free)
  }

  lemma {:induction false} HasBounds(bs: Blocks, lo: int, s: int, z: int, free: bool)
    requires Has(bs, lo, s, z, free)
    ensures s >= lo && z >= 0
    decreases bs
  {
    if !(s == lo && z == bs.size && free == bs.free) {
      HasBounds(bs.rest, lo + HEADER + bs.size, s, z, free);
    }
  }

  lemma {:induction false} LiveIsUsed(bs: Blocks, lo: int, s: int, z: int)
    ensures IsLive(bs, lo, s, z) <==> Has(bs, lo, s, z, false)
  {
    if bs.Block? {
      LiveIsUsed(bs.rest, lo + HEADER + bs.size, s, z);
    }
  }

  ghost predicate NoneFits(bs: Blocks, lo: int, n: int) {
    forall s, z :: Has(bs, lo, s, z, true) ==> z < n + 8
  }

  /** The block at off, of z bytes, is the first that is free and has room for n bytes and a header after them. */
  ghost predicate FirstFit(bs: Blocks, lo: int, off: int, z: int, n: int) {
    && Has(bs, lo, off, z, true) && z >= n + 8
    && forall s, y, f :: Has(bs, lo, s, y, f) && s < off ==> !f || y < n + 8
  }

  lemma {:induction false} FitIsFirst(bs: Blocks, lo: int, n: int) returns (z: int)
    requires lo >= 0
    ensures Fit(bs, lo, n) < 0 ==> NoneFits(bs, lo, n)
    ensures Fit(bs, lo, n) >= 0 ==> Fit(bs, lo, n) >= lo && FirstFit(bs, lo, Fit(bs, lo, n), z, n)
  {
    z := 0;
    if bs.Block? {
      var next := lo + HEADER + bs.size;
      if bs.free && bs.size >= n + HEADER {
        z := bs.size;
        forall s, y, f | Has(bs, lo, s, y, f) ensures s >= lo {
          HasBounds(bs, lo, s, y, f);
        }
      } else {
        z := FitIsFirst(bs.rest, next, n);
      }
    }
  }

  /** Of the block at off, z bytes and free, the first n are used and the rest, less a header, is free. */
  ghost predicate SplitAt(bs: Blocks, bs': Blocks, lo: int, off: int, z: int, n: int) {
    forall s, y, f :: Has(bs', lo, s, y, f) <==>
      (Has(bs, lo, s, y, f) && s != off) || (s == off && y == n && !f) || (s == off + 8 + n && y == z - n - 8 && f)
  }

  lemma {:induction false} CarvedSplits(bs: Blocks, lo: int, n: nat, z: int)
    requires lo >= 0 && Fit(bs, lo, n) >= 0 && FirstFit(bs, lo, Fit(bs, lo, n), z, n)
    ensures SplitAt(bs, Carved(bs, n), lo, Fit(bs, lo, n), z, n)
  {
    forall s, y, f
      ensures Has(Carved(bs, n), lo, s, y, f) <==>
                || (Has(bs, lo, s, y, f) && s != Fit(bs, lo, n)) || (s == Fit(bs, lo, n) && y == n && !f)
                || (s == Fit(bs, lo, n) + 8 + n && y == z - n - 8 && f)
    {
      CarvedHas(bs, lo, n, z, s, y, f);
    }
  }

  lemma {:induction false} CarvedHas(bs: Blocks, lo: int, n: nat, z: int, s: int, y: int, f: bool)
    requires lo >= 0 && Fit(bs, lo, n) >= 0 && Has(bs, lo, Fit(bs, lo, n), z, true)
    ensures Has(Carved(bs, n), lo, s, y, f) <==>
              || (Has(bs, lo, s, y, f) && s != Fit(bs, lo, n)) || (s == Fit(bs, lo, n) && y == n && !f)
              || (s == Fit(bs, lo, n) + 8 + n && y == z - n - 8 && f)
    decreases bs
  {
    var next := lo + HEADER + bs.size;
    if Has(bs.rest, next, s, y, f) {
      HasBounds(bs.rest, next, s, y, f);
    }
    if Has(bs.rest, next, Fit(bs, lo, n), z, true) {
      HasBounds(bs.rest, next, Fit(bs, lo, n), z, true);
    }
    if !(bs.free && bs.size >= n + HEADER) {
      var last := FitIsFirst(bs.rest, next, n);
      CarvedHas(bs.rest, next, n, z, s, y, f);
    }
  }

  /** The block at off is free now, and nothing else changed. */
  ghost predicate FreedAt(bs: Blocks, bs': Blocks, lo: int, off: int, z: int) {
    forall s, y, f :: Has(bs', lo, s, y, f) <==> (Has(bs, lo, s, y, f) && s != off) || (s == off && y == z && f)
  }

  lemma {:induction false} FreedHas(bs: Blocks, lo: int, off: int, z: int, s: int, y: int, f: bool)
    requires Has(bs, lo, off, z, false)
    ensures Has(Freed(bs, lo, off), lo, s, y, f) <==> (Has(bs, lo, s, y, f) && s != off) || (s == off && y == z && f)
    decreases bs
  {
    var next := lo + HEADER + bs.size;
    if Has(bs.rest, next, s, y, f) {
      HasBounds(bs.rest, next, s, y, f);
    }
    if Has(bs.rest, next, off, z, false) {
      HasBounds(bs.rest, next, off, z, false);
    }
    if off != lo {
      FreedHas(bs.rest, next, off, z, s, y, f);
    }
  }

  /** Two adjacent free blocks, the first at s. */
  ghost predicate Adjacent(bs: Blocks, lo: int, s: int, y: int, y': int) {
    Has(bs, lo, s, y, true) && Has(bs, lo, s + 8 + y, y', true)
  }

  /** The first two adjacent free blocks, if there are any, are one block, and nothing else changed. */
  ghost predicate FirstJoined(bs: Blocks, bs': Blocks, lo: int) {
    || (bs' == bs && forall s, y, y' :: !Adjacent(bs, lo, s, y, y'))
    || exists at, x, x' :: JoinedAt(bs, bs', lo, at, x, x')
  }

  ghost predicate JoinedAt(bs: Blocks, bs': Blocks, lo: int, at: int, x: int, x': int) {
    && Adjacent(bs, lo, at, x, x') && (forall s, y, y' :: Adjacent(bs, lo, s, y, y') ==> at <= s)
    && forall s, y, f :: Has(bs', lo, s, y, f) <==>
         (Has(bs, lo, s, y, f) && s != at && s != at + 8 + x) || (s == at && y == x + 8 + x' && f)
  }

  lemma {:induction false} AtHead(bs: Blocks, lo: int, y: int, f: bool)
    requires Has(bs, lo, lo, y, f)
    ensures bs.Block? && bs.size == y && bs.free == f
  {
    if Has(bs.rest, lo + HEADER + bs.size, lo, y, f) {
      HasBounds(bs.rest, lo + HEADER + bs.size, lo, y, f);
    }
  }

  lemma {:induction false} AdjacentInRest(bs: Blocks, lo: int, s: int, y: int, y': int)
    requires bs.Block? && Adjacent(bs, lo, s, y, y')
    ensures if s == lo then bs.free && bs.rest.Block? && bs.rest.free && y == bs.size && y' == bs.rest.size
            else Adjacent(bs.rest, lo + HEADER + bs.size, s, y, y')
  {
    var next := lo + HEADER + bs.size;
    HasBounds(bs, lo, s, y, true);
    if s == lo {
      AtHead(bs, lo, y, true);
      AtHead(bs.rest, next, y', true);
    }
  }

  lemma {:induction false} JoinedIsFirst(bs: Blocks, lo: int)
    ensures FirstJoined(bs, Joined(bs), lo)
    decreases bs
  {
    if bs.Block? && bs.rest.Block? && bs.free && bs.rest.free {
      HeadsJoined(bs, lo);
      assert JoinedAt(bs, Joined(bs), lo, lo, bs.size, bs.rest.size);
    } else if bs.Block? {
      var next := lo + HEADER + bs.size;
      JoinedIsFirst(bs.rest, next);
      forall s, y, y' | Adjacent(bs, lo, s, y, y') ensures Adjacent(bs.rest, next, s, y, y') {
        AdjacentInRest(bs, lo, s, y, y');
      }
      if at, x, x' :| JoinedAt(bs.rest, Joined(bs.rest), next, at, x, x') {
        LaterJoined(bs, lo, at, x, x');
      } else if bs.rest.End? {
        assert Joined(bs) == bs;
      } else {
        assert Joined(bs) == bs;
      }
    }
  }

  lemma {:induction false} HeadsJoined(bs: Blocks, lo: int)
    requires bs.Block? && bs.rest.Block? && bs.free && bs.rest.free
    ensures JoinedAt(bs, Joined(bs), lo, lo, bs.size, bs.rest.size)
  {
    var next := lo + HEADER + bs.size;
    var last := next + HEADER + bs.rest.size;
    assert Has(bs.rest, next, next, bs.rest.size, true);
    forall s, y, y' | Adjacent(bs, lo, s, y, y') ensures lo <= s {
      HasBounds(bs, lo, s, y, true);
    }
    forall s, y, f
      ensures Has(Joined(bs), lo, s, y, f) <==>
                (Has(bs, lo, s, y, f) && s != lo && s != next) || (s == lo && y == bs.size + 8 + bs.rest.size && f)
    {
      if Has(bs.rest.rest, last, s, y, f) {
        HasBounds(bs.rest.rest, last, s, y, f);
      }
    }
  }

  lemma {:induction false} LaterJoined(bs: Blocks, lo: int, at: int, x: int, x': int)
    requires bs.Block? && bs.rest.Block? && !(bs.free && bs.rest.free)
    requires JoinedAt(bs.rest, Joined(bs.rest), lo + HEADER + bs.size, at, x, x')
    requires forall s, y, y' :: Adjacent(bs, lo, s, y, y') ==> Adjacent(bs.rest, lo + HEADER + bs.size, s, y, y')
    ensures JoinedAt(bs, Joined(bs), lo, at, x, x')
  {
    var next := lo + HEADER + bs.size;
    HasBounds(bs.rest, next, at, x, true);
    assert Adjacent(bs, lo, at, x, x');
    forall s, y, f
      ensures Has(Joined(bs), lo, s, y, f) <==>
                (Has(bs, lo, s, y, f) && s != at && s != at + 8 + x) || (s == at && y == x + 8 + x' && f)
    {
      if Has(bs.rest, next, s, y, f) {
        HasBounds(bs.rest, next, s, y, f);
      }
    }
  }

  // ---- the kernel's walks over the page buffer ----

  /** leer_metadata */
  method ReadHeader(page: array<byte>, off: int) returns (size: int, free: bool)
    requires 0 <= off && off + HEADER <= page.Length
    ensures size == SizeAt(page[..], off) && free == FreeAt(page[..], off)
  {
    size, free := SizeAt(page[..], off), FreeAt(page[..], off);
  }

  /** buscar_bloque_disponible: the header of the first fit, and offset 0 when nothing fits. */
  method FindBlock(page: array<byte>, n: nat, ghost bs: Blocks) returns (off: int)
    requires Tiles(page[..], 0, bs, page.Length)
    ensures off == if Fit(bs, 0, n) >= 0 then Fit(bs, 0, n) else 0
  {
    off := 0;
    ghost var todo := bs;
    while off < page.Length
      invariant off >= 0 && Tiles(page[..], off, todo, page.Length) && Fit(todo, off, n) == Fit(bs, 0, n)
      decreases page.Length - off
    {
      var size, free := ReadHeader(page, off);
      if free && size >= n + HEADER {
        return;
      }
      off := off + HEADER + size;
      todo := todo.rest;
    }
    off := 0;
  }

  /** marcar_bloque_ocupado */
  method MarkUsed(page: array<byte>, off: int, n: nat, pad: seq<byte>, pad': seq<byte>)
    requires 0 <= off && off + HEADER + n + HEADER <= page.Length && |pad| == |pad'| == 3
    modifies page
    ensures page[..] == Marked(old(page[..]), off, n, pad, pad')
  {
    var size, free := ReadHeader(page, off);
    var spare := size - n;
    Memcpy(page, off, Header(n, false, pad));
    Memcpy(page, off + HEADER + n, Header(Wrap32(spare - HEADER), true, pad'));
  }

  /** The walk of defragmentar: the first of two adjacent free blocks and their joint size. */
  method FindPair(page: array<byte>, ghost bs: Blocks) returns (at: int, size: int)
    requires Tiles(page[..], 0, bs, page.Length) && HEADER <= page.Length
    ensures at == Pair(bs, 0) && (at >= 0 ==> size == PairSize(bs))
  {
    ghost var p := page[..];
    var free;
    size, free := ReadHeader(page, 0);
    var off := HEADER + size;
    ghost var start, todo := 0, bs;
    while off < page.Length
      invariant 0 <= start && off == start + HEADER + size
      invariant todo.Block? && todo.size == size && todo.free == free && Tiles(p, start, todo, |p|)
      invariant Pair(todo, start) == Pair(bs, 0) && PairSize(todo) == PairSize(bs)
      decreases page.Length - off
    {
      var size2, free2 := ReadHeader(page, off);
      if free && free2 {
        return off - HEADER - size, size2 + HEADER + size;
      }
      start, todo := off, todo.rest;
      size, free := size2, free2;
      off := off + HEADER + size2;
    }
    return -1, 0;
  }

  /** defragmentar: the first pair of adjacent free blocks, and only that pair, becomes one block. */
  method Defragment(page: array<byte>, pad: seq<byte>, ghost bs: Blocks) returns (merged: bool)
    requires Tiles(page[..], 0, bs, page.Length) && HEADER <= page.Length && |pad| == 3
    modifies page
    ensures merged <==> Pair(bs, 0) >= 0
    ensures !merged ==> page[..] == old(page[..])
    ensures merged ==>
              && Pair(bs, 0) + HEADER <= page.Length
              && page[..] == Splice(old(page[..]), Pair(bs, 0), Header(PairSize(bs), true, pad))
  {
    var at, size := FindPair(page, bs);
    if at >= 0 {
      PairBounds(page[..], 0, bs, page.Length);
      Memcpy(page, at, Header(size, true, pad));
    }
    return at >= 0;
  }
}
