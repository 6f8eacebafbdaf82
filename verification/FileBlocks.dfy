/**
 The bytes of a file spread over its blocks (file-system/src/file-system.c), and the loops of
 read_file and write_file over them. disk holds the block files by number.
 */
module FileBlocks {
  import opened Bytes
  import opened Lists

  const BLOCK := 64     // BLOCK_SIZE
  const SPACE: byte := 32

  type Disk = seq<seq<byte>>

  /** The blocks of a list are whole blocks of the disk, each of them once. */
  ghost predicate BlocksOk(disk: Disk, blocks: seq<int>) {
    NoDuplicates(blocks) && forall i :: 0 <= i < |blocks| ==> 0 <= blocks[i] < |disk| && |disk[blocks[i]]| == BLOCK
  }

  /** Byte k of the blocks in a row. */
  function ByteAt(disk: Disk, blocks: seq<int>, k: int): byte
    requires BlocksOk(disk, blocks) && 0 <= k < BLOCK * |blocks|
  {
    disk[blocks[k / BLOCK]][k % BLOCK]
  }

  /** The flat file: its first size bytes. */
  function Flat(disk: Disk, blocks: seq<int>, size: int): (s: seq<byte>)
    requires BlocksOk(disk, blocks) && 0 <= size <= BLOCK * |blocks|
    ensures |s| == size && forall k :: 0 <= k < size ==> s[k] == ByteAt(disk, blocks, k)
  {
    seq(size, k requires 0 <= k < size => ByteAt(disk, blocks, k))
  }

  /** A file is its blocks in the order of the list. */
  lemma {:induction false} BlocksInOrder(disk: Disk, blocks: seq<int>, size: int, i: int)
    requires BlocksOk(disk, blocks) && 0 <= size <= BLOCK * |blocks| && 0 <= i && 64 * (i + 1) <= size
    ensures i < |blocks| && Flat(disk, blocks, size)[64 * i..64 * (i + 1)] == disk[blocks[i]]
  {
  }

  /** A file of size bytes has exactly the blocks it needs, with spaces after its last byte. */
  ghost predicate FileOk(disk: Disk, blocks: seq<int>, size: int) {
    && BlocksOk(disk, blocks) && size >= 1 && |blocks| == (size + BLOCK - 1) / BLOCK
    && forall k :: size <= k < BLOCK * |blocks| ==> ByteAt(disk, blocks, k) == SPACE
  }

  /** A write of data at offset on a flat file; a gap before it becomes spaces. */
  function Written(flat: seq<byte>, offset: nat, data: seq<byte>): (s: seq<byte>)
    ensures |s| == if offset + |data| > |flat| then offset + |data| else |flat|
    ensures forall k :: 0 <= k < |s| ==>
              s[k] == if offset <= k < offset + |data| then data[k - offset] else if k < |flat| then flat[k] else SPACE
  {
    seq(if offset + |data| > |flat| then offset + |data| else |flat|, k requires 0 <= k =>
      if offset <= k < offset + |data| then data[k - offset] else if k < |flat| then flat[k] else SPACE)
  }

  /** The loop that fills a block with spaces. */
  method SpaceBlock() returns (block: seq<byte>)
    ensures |block| == BLOCK && forall k :: 0 <= k < BLOCK ==> block[k] == SPACE
  {
    block := [];
    var i := 0;
    while i < BLOCK
      invariant 0 <= i <= BLOCK && |block| == i && forall k :: 0 <= k < i ==> block[k] == SPACE
    {
      block := block + [SPACE];
      i := i + 1;
    }
  }

  /** The reading loop of read_file, for a size already clipped to the file. */
  method ReadBlocks(disk: Disk, blocks: seq<int>, offset: nat, size: nat) returns (buff: seq<byte>)
    requires BlocksOk(disk, blocks) && offset + size <= BLOCK * |blocks| && offset < BLOCK * |blocks|
    ensures |buff| == size && forall k :: 0 <= k < size ==> buff[k] == ByteAt(disk, blocks, offset + k)
  {
    var pos := offset / BLOCK;
    var start := offset - BLOCK * pos;
    var reading := if BLOCK - start >= size then size else BLOCK - start;
    buff := disk[blocks[pos]][start..start + reading];
    var left := size - reading;
    while left > 0
      invariant 0 <= left && |buff| == size - left && 0 <= pos < |blocks|
      invariant left > 0 ==> offset + |buff| == BLOCK * (pos + 1)
      invariant forall k :: 0 <= k < |buff| ==> buff[k] == ByteAt(disk, blocks, offset + k)
      decreases left
    {
      pos := pos + 1;
      reading := if left >= BLOCK then BLOCK else left;
      buff := buff + disk[blocks[pos]][0..reading];
      left := left - reading;
    }
  }

  /** Writing inside one block changes those bytes of the file and no others. */
  lemma {:induction false} OneBlock(disk: Disk, disk': Disk, blocks: seq<int>, n: int, start: int, chunk: seq<byte>)
    requires BlocksOk(disk, blocks) && 0 <= n < |blocks| && 0 <= start && start + |chunk| <= BLOCK
    requires disk' == disk[blocks[n] := Splice(disk[blocks[n]], start, chunk)]
    ensures BlocksOk(disk', blocks)
    ensures forall k :: 0 <= k < BLOCK * |blocks| ==>
              ByteAt(disk', blocks, k) == if BLOCK * n + start <= k < BLOCK * n + start + |chunk|
                                          then chunk[k - BLOCK * n - start] else ByteAt(disk, blocks, k)
  {
    forall k | 0 <= k < BLOCK * |blocks|
      ensures ByteAt(disk', blocks, k) == if BLOCK * n + start <= k < BLOCK * n + start + |chunk|
                                          then chunk[k - BLOCK * n - start] else ByteAt(disk, blocks, k)
    {
      if k / BLOCK != n {
        assert blocks[k / BLOCK] != blocks[n];
      }
    }
  }

  /** list_get: block 0 past the end of the list. */
  function BlockOf(blocks: seq<int>, n: nat): int {
    if n < |blocks| then blocks[n] else 0
  }

  /** The chunk of a write that goes to the n-th block of a list. */
  method WriteChunk(disk: Disk, blocks: seq<int>, n: nat, start: nat, chunk: seq<byte>) returns (disk': Disk)
    requires BlocksOk(disk, blocks) && start + |chunk| <= BLOCK && (n >= |blocks| ==> |disk| > 0 && |disk[0]| == BLOCK)
    ensures |disk'| == |disk| && BlocksOk(disk', blocks) && forall b :: 0 <= b < |disk| ==> |disk'[b]| == |disk[b]|
    ensures forall b :: 0 <= b < |disk| && b != BlockOf(blocks, n) ==> disk'[b] == disk[b]
    ensures n >= |blocks| ==> disk'[0] == Splice(disk[0], start, chunk)
    ensures n < |blocks| ==> forall k :: 0 <= k < BLOCK * |blocks| ==>
              ByteAt(disk', blocks, k) == if BLOCK * n + start <= k < BLOCK * n + start + |chunk|
                                          then chunk[k - BLOCK * n - start] else ByteAt(disk, blocks, k)
  {
    var b := BlockOf(blocks, n);
    disk' := disk[b := Splice(disk[b], start, chunk)];
    if n < |blocks| {
      OneBlock(disk, disk', blocks, n, start, chunk);
    }
  }

  /** What block 0 holds after a write that goes on past the end of the list: its last chunk. */
  ghost predicate Spilled(disk: Disk, offset: nat, data: seq<byte>) {
    && |disk| > 0 && |disk[0]| == BLOCK
    && forall k :: 0 <= k < |data| && (offset + k) / BLOCK == (offset + |data| - 1) / BLOCK ==>
         disk[0][(offset + k) % BLOCK] == data[k]
  }

  lemma {:induction false} LastChunk(was: seq<byte>, now: seq<byte>, offset: nat, data: seq<byte>, n: nat, start: nat,
                                     done: nat)
    requires |was| == BLOCK && done < |data| && BLOCK * n + start == offset + done && start + |data| - done <= BLOCK
          && (done > 0 ==> start == 0)
    requires now == Splice(was, start, data[done..])
    ensures forall k :: 0 <= k < |data| && (offset + k) / BLOCK == (offset + |data| - 1) / BLOCK ==>
              now[(offset + k) % BLOCK] == data[k]
  {
    forall k | 0 <= k < |data| && (offset + k) / BLOCK == (offset + |data| - 1) / BLOCK
      ensures now[(offset + k) % BLOCK] == data[k]
    {
      assert (offset + |data| - 1) / BLOCK == n && k >= done;
      assert (offset + k) % BLOCK == start + (k - done) && data[done..][k - done] == data[k];
    }
  }

  /** The writing loop of write_file. If the list is long enough, exactly the written bytes of the file change;
      if not, the bytes without a block go to block 0, whoever it belongs to. */
  method WriteBlocks(disk: Disk, blocks: seq<int>, offset: nat, data: seq<byte>) returns (disk': Disk)
    requires BlocksOk(disk, blocks) && (offset + |data| > BLOCK * |blocks| ==> |disk| > 0 && |disk[0]| == BLOCK)
    ensures |disk'| == |disk| && BlocksOk(disk', blocks) && forall b :: 0 <= b < |disk| ==> |disk'[b]| == |disk[b]|
    ensures forall b :: 0 <= b < |disk| && b !in blocks && (offset + |data| > BLOCK * |blocks| ==> b != 0) ==>
              disk'[b] == disk[b]
    ensures offset + |data| <= BLOCK * |blocks| ==> forall k :: 0 <= k < BLOCK * |blocks| ==>
              ByteAt(disk', blocks, k) == if offset <= k < offset + |data| then data[k - offset]
                else ByteAt(disk, blocks, k)
    ensures offset + |data| > BLOCK * |blocks| && data != [] ==> Spilled(disk', offset, data)
  {
    disk' := disk;
    var n := offset / BLOCK;
    var start := offset - n * BLOCK;
    var room, left, done := BLOCK - start, |data|, 0;
    ghost var enough := offset + |data| <= BLOCK * |blocks|;
    while left > 0
      invariant 0 <= left && done + left == |data| && 0 <= done && |disk'| == |disk| && BlocksOk(disk', blocks)
      invariant forall b :: 0 <= b < |disk| ==> |disk'[b]| == |disk[b]|
      invariant left > 0 ==>
                && 0 <= start < BLOCK && room == BLOCK - start && BLOCK * n + start == offset + done
                && (done > 0 ==> start == 0)
      invariant forall b :: 0 <= b < |disk| && b !in blocks && (!enough ==> b != 0) ==> disk'[b] == disk[b]
      invariant enough ==> forall k :: 0 <= k < BLOCK * |blocks| ==>
                  ByteAt(disk', blocks, k) == if offset <= k < offset + done then data[k - offset]
                    else ByteAt(disk, blocks, k)
      invariant !enough && left == 0 && data != [] ==> Spilled(disk', offset, data)
      decreases left
    {
      var writing := if left >= room then room else left;
      var chunk := data[done..done + writing];
      ghost var was := disk';
      disk' := WriteChunk(disk', blocks, n, start, chunk);
      if !enough && writing == left {
        LastChunk(was[0], disk'[0], offset, data, n, start, done);
      }
      n := n + 1;
      left := left - writing;
      done := done + writing;
      room, start := BLOCK, 0;
    }
  }
}
