/**
 The file system server (file-system/src/file-system.c): every handler as one step. A path names a
 regular file, a directory or nothing; dir says it is a directory of the host.
 */
module FileSystem {
  import opened Bytes
  import opened Lists
  import opened Bitmap
  import opened FileBlocks

  datatype Status = Success | IsReg | IsDir | NoSpace | IsNotReg

  datatype ReadReply = Data(bytes: seq<byte>) | NotRegular | NoReply

  /** Every block has its size. */
  ghost predicate Whole(disk: Disk) {
    forall b :: 0 <= b < |disk| ==> |disk[b]| == BLOCK
  }

  ghost predicate FilesOk(disk: Disk, files: map<string, Meta>) {
    forall p :: p in files ==> FileOk(disk, files[p].blocks, files[p].size)
  }

  /** Every file of a has the same content in b. */
  ghost predicate SameContents(disk: Disk, a: map<string, Meta>, disk': Disk, b: map<string, Meta>)
    requires FilesOk(disk, a) && FilesOk(disk', b)
  {
    forall q :: q in a ==> q in b && Flat(disk', b[q].blocks, b[q].size) == Flat(disk, a[q].blocks, a[q].size)
  }

  lemma {:induction false} FileFrame(disk: Disk, disk': Disk, blocks: seq<int>, size: int)
    requires FileOk(disk, blocks, size) && |disk'| == |disk|
          && forall i :: 0 <= i < |blocks| ==> disk'[blocks[i]] == disk[blocks[i]]
    ensures FileOk(disk', blocks, size) && Flat(disk', blocks, size) == Flat(disk, blocks, size)
  {
    assert BlocksOk(disk', blocks);
    forall k | 0 <= k < BLOCK * |blocks| ensures ByteAt(disk', blocks, k) == ByteAt(disk, blocks, k) {
      assert disk'[blocks[k / BLOCK]] == disk[blocks[k / BLOCK]];
    }
  }

  /** Writing blocks whose bits are clear touches no file. */
  lemma {:induction false} FilesFrame(bits: seq<bool>, disk: Disk, disk': Disk, files: map<string, Meta>,
                                      owner: map<int, string>)
    requires Owned(bits, files, owner) && FilesOk(disk, files) && |disk'| == |disk| == |bits|
    requires forall b :: 0 <= b < |bits| && bits[b] ==> disk'[b] == disk[b]
    ensures FilesOk(disk', files) && SameContents(disk, files, disk', files)
  {
    forall p | p in files ensures FileOk(disk', files[p].blocks, files[p].size)
      && Flat(disk', files[p].blocks, files[p].size) == Flat(disk, files[p].blocks, files[p].size)
    {
      FileFrame(disk, disk', files[p].blocks, files[p].size);
    }
  }

  /** A new file of one block, next to the others. */
  lemma {:induction false} Created(bits: seq<bool>, disk: Disk, files: map<string, Meta>, owner: map<int, string>,
                                   p: string, b: int, block: seq<byte>)
    requires Owned(bits, files, owner) && |disk| == |bits| && p !in files && 0 <= b < |bits| && !bits[b]
    requires |block| == BLOCK && forall k :: 0 <= k < BLOCK ==> block[k] == SPACE
    ensures var disk', files' := disk[b := block], files[p := Meta(BLOCK, [b])];
            && Owned(bits[b := true], files', owner[b := p])
            && FileOk(disk', [b], BLOCK) && (forall k :: 0 <= k < BLOCK ==> Flat(disk', [b], BLOCK)[k] == SPACE)
            && (FilesOk(disk, files) ==> FilesOk(disk', files') && SameContents(disk, files, disk', files'))
  {
    var disk' := disk[b := block];
    OwnedNew(bits, files, owner, p, Meta(BLOCK, [b]), b);
    assert BlocksOk(disk', [b]) && forall k :: 0 <= k < BLOCK ==> ByteAt(disk', [b], k) == SPACE;
    if FilesOk(disk, files) {
      FilesFrame(bits, disk, disk', files, owner);
    }
  }

  lemma {:induction false} WroteAll(disk: Disk, disk': Disk, files: map<string, Meta>, m: Meta, p: string)
    requires FilesOk(disk, files) && FilesOk(disk', files - {p}) && SameContents(disk, files - {p}, disk', files - {p})
          && FileOk(disk', m.blocks, m.size)
    ensures FilesOk(disk', files[p := m]) && SameContents(disk, files - {p}, disk', files[p := m])
  {
    var files' := files[p := m];
    forall q | q in files' ensures FileOk(disk', files'[q].blocks, files'[q].size) {
      assert q != p ==> q in files - {p};
    }
  }

  /** No other file has one of these blocks. */
  lemma {:induction false} OthersBlocks(bits: seq<bool>, files: map<string, Meta>, m: Meta, owner: map<int, string>,
                                        p: string)
    requires Owned(bits, files[p := m], owner)
    ensures forall q, i :: q in files && q != p && 0 <= i < |files[q].blocks| ==> files[q].blocks[i] !in m.blocks
  {
    forall q, i | q in files && q != p && 0 <= i < |files[q].blocks| ensures files[q].blocks[i] !in m.blocks {
      var files' := files[p := m];
      assert owner[files'[q].blocks[i]] == q;
      forall k | 0 <= k < |m.blocks| ensures m.blocks[k] != files[q].blocks[i] {
        assert owner[files'[p].blocks[k]] == p;
      }
    }
  }

  /** The number of blocks for this many bytes beyond the blocks a file has. */
  function Needed(bytes: int): (n: int)
    ensures n >= 0
  {
    if bytes <= 0 then 0 else (bytes + BLOCK - 1) / BLOCK
  }

  /** The list that the rollback of write_file leaves: it moves on after removing a block, past the one
      that took its place. */
  function EveryOther(blocks: seq<int>, pos: nat): seq<int>
    decreases |blocks| - pos
  {
    if pos < |blocks| then EveryOther(RemoveAt(blocks, pos), pos + 1) else blocks
  }

  /** Of the blocks from there on it gives back every other one, so that it restores the list exactly
      when at most one block was added. */
  lemma {:induction false} EveryOtherStays(blocks: seq<int>, from: nat)
    requires from <= |blocks|
    ensures |EveryOther(blocks, from)| == from + (|blocks| - from) / 2
          && EveryOther(blocks, from)[..from] == blocks[..from]
    ensures forall j :: from <= j < |EveryOther(blocks, from)| ==>
              EveryOther(blocks, from)[j] == blocks[2 * j - from + 1]
    ensures EveryOther(blocks, from) == blocks[..from] <==> |blocks| - from <= 1
    decreases |blocks| - from
  {
    if from < |blocks| {
      var rest := RemoveAt(blocks, from);
      if from + 1 <= |rest| {
        EveryOtherStays(rest, from + 1);
        var kept := EveryOther(blocks, from);
        assert kept[..from] == kept[..from + 1][..from] == rest[..from + 1][..from];
        assert kept[from] == kept[..from + 1][from] == rest[..from + 1][from];
      }
    }
  }

  /** The blocks of a file hold what a read that is answered asks for, as they do unless a write ran out of them. */
  predicate Holds(m: Meta, offset: nat, size: nat) {
    offset < m.size - 1 ==>
      && offset < BLOCK * |m.blocks|
      && (offset + size <= BLOCK * |m.blocks| || m.size <= BLOCK * |m.blocks|)
  }

  /** The bytes up to end for which a file has no block: bytes_to_expand. */
  function Lacking(m: Meta, end: int): int {
    if end <= m.size then 0
    else
      var room := BLOCK - (m.size - (|m.blocks| - 1) * BLOCK);
      if room > 0 then end - m.size - room else end - m.size
  }

  /** A file never has more blocks than it needs, and after the expansion no fewer. */
  lemma {:induction false} BlocksSuffice(m: Meta, end: int)
    requires m.size >= 1 && |m.blocks| == (m.size + BLOCK - 1) / BLOCK
    ensures var size := if end > m.size then end else m.size;
            |m.blocks| + Needed(Lacking(m, end)) == (size + BLOCK - 1) / BLOCK
  {
  }

  /** A file whose list has grown by blocks of spaces. */
  lemma {:induction false} GrownFile(disk: Disk, disk1: Disk, m: Meta, blocks: seq<int>)
    requires FileOk(disk, m.blocks, m.size) && |disk1| == |disk| && |m.blocks| <= |blocks|
          && blocks[..|m.blocks|] == m.blocks && NoDuplicates(blocks)
    requires forall i :: 0 <= i < |m.blocks| ==> disk1[m.blocks[i]] == disk[m.blocks[i]]
    requires forall j :: |m.blocks| <= j < |blocks| ==> 0 <= blocks[j] < |disk1| && disk1[blocks[j]] == Spaces()
    ensures BlocksOk(disk1, blocks)
    ensures forall k :: 0 <= k < BLOCK * |blocks| ==>
              ByteAt(disk1, blocks, k) == if k < m.size then ByteAt(disk, m.blocks, k) else SPACE
  {
    assert forall i :: 0 <= i < |m.blocks| ==> blocks[i] == blocks[..|m.blocks|][i];
    assert BlocksOk(disk1, blocks);
    forall k | 0 <= k < BLOCK * |blocks|
      ensures ByteAt(disk1, blocks, k) == if k < m.size then ByteAt(disk, m.blocks, k) else SPACE
    {
      if k < BLOCK * |m.blocks| {
        assert blocks[k / BLOCK] == m.blocks[k / BLOCK];
        assert ByteAt(disk1, blocks, k) == ByteAt(disk, m.blocks, k);
      }
    }
  }

  lemma {:induction false} WrittenFile(disk: Disk, disk1: Disk, disk2: Disk, m: Meta, blocks: seq<int>, offset: nat,
                                       data: seq<byte>)
    requires FileOk(disk, m.blocks, m.size) && BlocksOk(disk1, blocks) && BlocksOk(disk2, blocks)
          && |m.blocks| <= |blocks|
    requires forall k :: 0 <= k < BLOCK * |blocks| ==>
              ByteAt(disk1, blocks, k) == if k < m.size then ByteAt(disk, m.blocks, k) else SPACE
    requires forall k :: 0 <= k < BLOCK * |blocks| ==>
               ByteAt(disk2, blocks, k) == if offset <= k < offset + |data| then data[k - offset]
                 else ByteAt(disk1, blocks, k)
    requires var size := if offset + |data| > m.size then offset + |data| else m.size;
            |blocks| == (size + BLOCK - 1) / BLOCK
    ensures var size := if offset + |data| > m.size then offset + |data| else m.size;
            FileOk(disk2, blocks, size)
              && Flat(disk2, blocks, size) == Written(Flat(disk, m.blocks, m.size), offset, data)
  {
  }

  /** The other files own none of these blocks. */
  lemma {:induction false} OthersFrame(bits: seq<bool>, disk: Disk, disk1: Disk, disk2: Disk, files: map<string, Meta>,
                                       m: Meta, owner: map<int, string>, p: string)
    requires FilesOk(disk, files) && |disk2| == |disk1| == |disk| && Owned(bits, files[p := m], owner)
    requires forall q, i :: q in files && 0 <= i < |files[q].blocks| ==>
              disk1[files[q].blocks[i]] == disk[files[q].blocks[i]]
    requires forall b :: 0 <= b < |disk| && b !in m.blocks ==> disk2[b] == disk1[b]
    ensures FilesOk(disk2, files - {p}) && SameContents(disk, files - {p}, disk2, files - {p})
  {
    forall q | q in files - {p}
      ensures FileOk(disk2, files[q].blocks, files[q].size)
            && Flat(disk2, files[q].blocks, files[q].size) == Flat(disk, files[q].blocks, files[q].size)
    {
      forall i | 0 <= i < |files[q].blocks| ensures files[q].blocks[i] !in m.blocks {
        assert files[p := m][q].blocks[i] in owner;
      }
      FileFrame(disk, disk2, files[q].blocks, files[q].size);
    }
  }

  /** A new block. */
  function Spaces(): (block: seq<byte>)
    ensures |block| == BLOCK
  {
    seq(BLOCK, _ => SPACE)
  }

  class Server {
    const bitmap: array<bool>
    var disk: Disk
    var files: map<string, Meta>
    ghost var owner: map<int, string>

    /** The bitmap and the lists of blocks agree, whatever the files hold: every request keeps this, and a
        write that runs out of blocks too. */
    ghost predicate Sound()
      reads this, bitmap
    {
      && |disk| == bitmap.Length && Whole(disk) && Owned(bitmap[..], files, owner)
      && forall p :: p in files ==> files[p].size >= 1 && files[p].blocks != []
    }

    /** And every file has exactly the blocks for its bytes. */
    ghost predicate Valid()
      reads this, bitmap
    {
      Sound() && FilesOk(disk, files)
    }

    /** The flat content of a file. */
    ghost function Content(p: string): seq<byte>
      requires p in files && FileOk(disk, files[p].blocks, files[p].size)
      reads this
    {
      Flat(disk, files[p].blocks, files[p].size)
    }

    constructor (blocks: nat)
      ensures Valid() && fresh(bitmap) && bitmap.Length == blocks && files == map[] && FreeCount(bitmap[..]) == blocks
    {
      bitmap := new bool[blocks](_ => false);
      disk := seq(blocks, _ => Spaces());
      files, owner := map[], map[];
      new;
      AllFree(bitmap[..]);
    }

    /** validate_file */
    method Validate(p: string) returns (r: Status)
      ensures r == if p in files then IsReg else IsNotReg
    {
      r := if p in files then IsReg else IsNotReg;
    }

    /** create_file: a path that is no directory becomes a file of one block of spaces. A file that is
        there already is released first, so that it never fails for space. */
    method Create(p: string, dir: bool) returns (r: Status)
      requires Sound() && (dir ==> p !in files)
      modifies this`disk, this`files, this`owner, bitmap
      ensures Sound() && (old(Valid()) ==> Valid() && SameContents(old(disk), old(files) - {p}, disk, files))
      ensures r == if dir then IsDir
                   else if p !in old(files) && FreeCount(old(bitmap[..])) == 0 then NoSpace else Success
      ensures r != Success ==> files == old(files) && disk == old(disk) && bitmap[..] == old(bitmap[..])
      ensures r == Success ==> p in files && files == old(files)[p := files[p]] && files[p].size == BLOCK
      ensures r == Success ==>
                && FileOk(disk, files[p].blocks, BLOCK)
                && forall k :: 0 <= k < BLOCK ==> Content(p)[k] == SPACE
      ensures r == Success && p !in old(files) ==> FreeCount(bitmap[..]) == FreeCount(old(bitmap[..])) - 1
      ensures r == Success ==>
                && |files[p].blocks| == 1 && 0 <= files[p].blocks[0] < bitmap.Length
                && (forall b :: 0 <= b < files[p].blocks[0] ==> bitmap[b])
                && forall b :: 0 <= b < bitmap.Length && b != files[p].blocks[0] ==>
                     bitmap[b] == (old(bitmap[b]) && !(p in old(files) && b in old(files)[p].blocks))
    {
      if dir {
        return IsDir;
      }
      ghost var others := files - {p};
      if p in files {
        owner := ReleaseAll(bitmap, files, owner, p);
      } else {
        assert others == files;
      }
      r := CreateAt(p, others);
    }

    /** The rest of create_file, when no file has the path or its blocks are released. */
    method CreateAt(p: string, ghost others: map<string, Meta>) returns (r: Status)
      requires |disk| == bitmap.Length && Whole(disk) && others == files - {p} && Owned(bitmap[..], others, owner)
      requires forall q :: q in others ==> files[q].size >= 1 && files[q].blocks != []
      modifies this`disk, this`files, this`owner, bitmap
      ensures r == if FreeCount(old(bitmap[..])) == 0 then NoSpace else Success
      ensures r != Success ==> files == old(files) && disk == old(disk) && owner == old(owner)
      ensures r != Success ==> bitmap[..] == old(bitmap[..])
      ensures r == Success ==> p in files && files == old(files)[p := files[p]] && |files[p].blocks| == 1
      ensures r == Success ==> Sound() && files[p].size == BLOCK && FileOk(disk, files[p].blocks, BLOCK)
      ensures r == Success ==> forall k :: 0 <= k < BLOCK ==> Content(p)[k] == SPACE
      ensures r == Success ==> FreeCount(bitmap[..]) == FreeCount(old(bitmap[..])) - 1
      ensures r == Success ==>
                && 0 <= files[p].blocks[0] < bitmap.Length && !old(bitmap[..])[files[p].blocks[0]]
                && (forall b :: 0 <= b < files[p].blocks[0] ==> old(bitmap[..])[b])
                && bitmap[..] == old(bitmap[..])[files[p].blocks[0] := true]
      ensures r == Success && FilesOk(old(disk), others) ==>
                FilesOk(disk, files) && SameContents(old(disk), others, disk, files)
    {
      ghost var bits := bitmap[..];
      var b := GetAvailable(bitmap);
      if b < 0 {
        return NoSpace;
      }
      var block := SpaceBlock();
      Created(bits, disk, others, owner, p, b, block);
      FreeCountSet(bits, b, true);
      assert others[p := Meta(BLOCK, [b])] == files[p := Meta(BLOCK, [b])];
      files := files[p := Meta(BLOCK, [b])];
      disk := disk[b := block];
      owner := owner[b := p];
      return Success;
    }

    /** delete_file: it always succeeds, and the blocks of a regular file are free again. */
    method Delete(p: string) returns (r: Status)
      requires Sound()
      modifies this`files, this`owner, bitmap
      ensures Sound() && r == Success && files == old(files) - {p}
      ensures old(Valid()) ==> Valid() && SameContents(old(disk), files, disk, files)
      ensures forall b :: 0 <= b < bitmap.Length ==>
                bitmap[b] == (old(bitmap[b]) && !(p in old(files) && b in old(files)[p].blocks))
    {
      if p in files {
        owner := ReleaseAll(bitmap, files, owner, p);
        files := files - {p};
      }
      return Success;
    }

    /** read_file: the slice clipped to the file, and no reply at all from its last byte on. */
    method Read(p: string, offset: nat, size: nat) returns (r: ReadReply)
      requires Sound() && (p in files ==> Holds(files[p], offset, size))
      ensures r.NotRegular? <==> p !in files
      ensures r.NoReply? <==> p in files && offset >= files[p].size - 1
      ensures r.Data? ==> |r.bytes| == (if offset + size > files[p].size then files[p].size - offset else size)
      ensures r.Data? ==> offset + |r.bytes| <= BLOCK * |files[p].blocks| && BlocksOk(disk, files[p].blocks)
      ensures r.Data? ==> forall k :: 0 <= k < |r.bytes| ==> r.bytes[k] == ByteAt(disk, files[p].blocks, offset + k)
      ensures r.Data? && Valid() ==>
                && |Content(p)| == files[p].size && offset + |r.bytes| <= |Content(p)|
                && |r.bytes| == (if size < |Content(p)| - offset then size else |Content(p)| - offset)
                && r.bytes == Content(p)[offset..offset + |r.bytes|]
    {
      if p !in files {
        return NotRegular;
      }
      var m := files[p];
      if offset >= m.size - 1 {
        return NoReply;
      }
      var clipped := if offset + size > m.size then m.size - offset else size;
      assert files[p := Meta(m.size, m.blocks)] == files;
      HeldBlocks(p, m.blocks, m.size);
      var buff := ReadBlocks(disk, m.blocks, offset, clipped);
      return Data(buff);
    }

    /** The blocks of a file are whole blocks of the disk. */
    lemma {:induction false} HeldBlocks(p: string, blocks: seq<int>, size: int)
      requires |disk| == bitmap.Length && Whole(disk) && p in files[p := Meta(size, blocks)]
      requires Owned(bitmap[..], files[p := Meta(size, blocks)], owner)
      ensures BlocksOk(disk, blocks)
    {
      var held := files[p := Meta(size, blocks)];
      assert NoDuplicates(held[p].blocks);
      forall i | 0 <= i < |blocks| ensures 0 <= blocks[i] < |disk| {
        assert held[p].blocks[i] in owner;
      }
    }

    /** Takes the block at pos from the list of a file and clears its bit. */
    method GiveBack(p: string, blocks: seq<int>, pos: int) returns (rest: seq<int>)
      requires p in files && 0 <= pos < |blocks| && Owned(bitmap[..], files[p := files[p].(blocks := blocks)], owner)
      modifies this`owner, bitmap
      ensures rest == RemoveAt(blocks, pos) && Owned(bitmap[..], files[p := files[p].(blocks := rest)], owner)
      ensures FreeCount(bitmap[..]) == FreeCount(old(bitmap[..])) + 1 && owner == old(owner) - {blocks[pos]}
    {
      var b := blocks[pos];
      ghost var view, bits := files[p := files[p].(blocks := blocks)], bitmap[..];
      rest := RemoveAt(blocks, pos);
      OwnedRemove(bits, view, owner, p, files[p].(blocks := rest), pos);
      FreeCountSet(bits, b, false);
      assert view[p := files[p].(blocks := rest)] == files[p := files[p].(blocks := rest)];
      bitmap[b] := false;
      assert bitmap[..] == bits[b := false];
      owner := owner - {b};
    }

    /** The rollback of write_file. */
    method Rollback(p: string, blocks: seq<int>, from: nat) returns (kept: seq<int>)
      requires p in files && from <= |blocks| && Owned(bitmap[..], files[p := files[p].(blocks := blocks)], owner)
      modifies this`owner, bitmap
      ensures Owned(bitmap[..], files[p := files[p].(blocks := kept)], owner) && kept == EveryOther(blocks, from)
      ensures FreeCount(bitmap[..]) == FreeCount(old(bitmap[..])) + |blocks| - |kept|
      ensures forall b :: b in old(owner) && b !in blocks[from..] ==> b in owner
    {
      kept := blocks;
      var pos := from;
      while pos < |kept|
        invariant from <= pos && |kept| >= from && EveryOther(kept, pos) == EveryOther(blocks, from)
        invariant Owned(bitmap[..], files[p := files[p].(blocks := kept)], owner)
        invariant FreeCount(bitmap[..]) == FreeCount(old(bitmap[..])) + |blocks| - |kept|
        invariant forall j :: from <= j < |kept| ==> kept[j] in blocks[from..]
        invariant forall b :: b in old(owner) && b !in blocks[from..] ==> b in owner
        decreases |kept| - pos
      {
        kept := GiveBack(p, kept, pos);
        pos := pos + 1;
      }
    }

    /** Sets the first clear bit for a block of spaces at the end of the list of a file. */
    method Grab(p: string, blocks: seq<int>) returns (more: seq<int>)
      requires p in files && |disk| == bitmap.Length && Whole(disk)
            && Owned(bitmap[..], files[p := files[p].(blocks := blocks)], owner)
      modifies this`owner, this`disk, bitmap
      ensures more == blocks <==> FreeCount(old(bitmap[..])) == 0
      ensures more == blocks ==> bitmap[..] == old(bitmap[..]) && owner == old(owner) && disk == old(disk)
      ensures more != blocks ==>
                && |more| == |blocks| + 1 && more[..|blocks|] == blocks
                && FreeCount(bitmap[..]) == FreeCount(old(bitmap[..])) - 1
      ensures Owned(bitmap[..], files[p := files[p].(blocks := more)], owner)
      ensures Whole(disk) && |disk| == |old(disk)|
            && forall b :: b in old(owner) ==> b in owner && 0 <= b < |disk| && disk[b] == old(disk[b])
      ensures more != blocks ==>
                && more[|blocks|] !in old(owner) && 0 <= more[|blocks|] < |disk|
                && disk[more[|blocks|]] == Spaces()
    {
      ghost var bits := bitmap[..];
      var b := GetAvailable(bitmap);
      if b < 0 {
        return blocks;
      }
      ghost var view := files[p := files[p].(blocks := blocks)];
      more := blocks + [b];
      var block := SpaceBlock();
      OwnedAdd(bits, view, owner, p, files[p].(blocks := more), b);
      FreeCountSet(bits, b, true);
      assert view[p := files[p].(blocks := more)] == files[p := files[p].(blocks := more)];
      disk := disk[b := block];
      owner := owner[b := p];
      assert disk[b] == Spaces();
    }

    /** The list of p has grown from its first had blocks by blocks of spaces that nobody owned before;
        what was owned is as it was. */
    ghost predicate Grown(p: string, had: nat, blocks: seq<int>, owner0: map<int, string>, disk0: Disk)
      reads this, bitmap
    {
      && p in files && had == |files[p].blocks| <= |blocks| && blocks[..had] == files[p].blocks
      && |disk| == bitmap.Length == |disk0| && Whole(disk)
          && Owned(bitmap[..], files[p := files[p].(blocks := blocks)], owner)
      && (forall b :: b in owner0 ==> b in owner && 0 <= b < |disk| && disk[b] == disk0[b])
      && (forall j :: had <= j < |blocks| ==>
            0 <= blocks[j] < |disk| && blocks[j] !in owner0 && disk[blocks[j]] == Spaces())
    }

    /** One turn of the loop that adds blocks: a block more, or a rollback when there is none. */
    method ExpandOnce(p: string, had: nat, blocks: seq<int>, ghost owner0: map<int, string>, ghost disk0: Disk)
        returns (next: seq<int>, added: bool)
      requires Grown(p, had, blocks, owner0, disk0)
      modifies this`owner, this`disk, bitmap
      ensures Grown(p, had, next, owner0, disk0)
      ensures added <==> FreeCount(old(bitmap[..])) > 0
      ensures |next| == if added then |blocks| + 1 else had + (|blocks| - had) / 2
      ensures FreeCount(bitmap[..]) + |next| == FreeCount(old(bitmap[..])) + |blocks|
    {
      ghost var view := files[p := files[p].(blocks := blocks)];
      next := Grab(p, blocks);
      added := next != blocks;
      if added {
        assert next[..had] == next[..|blocks|][..had];
        forall j | had <= j < |next| ensures 0 <= next[j] < |disk| && next[j] !in owner0 && disk[next[j]] == Spaces() {
          if j < |blocks| {
            assert next[j] == next[..|blocks|][j] == view[p].blocks[j];
          }
        }
      } else {
        EveryOtherStays(blocks, had);
        next := Rollback(p, blocks, had);
      }
    }

    /** The loop of write_file that adds blocks for this many bytes. With no free block at all the source
        stays in it for ever. With some but too few it rolls back, goes on with what it gave back and
        leaves with fewer blocks than needed. */
    method Expand(p: string, bytes: int) returns (blocks: seq<int>)
      requires p in files && |disk| == bitmap.Length && Whole(disk) && Owned(bitmap[..], files, owner)
      requires bytes <= 0 || FreeCount(bitmap[..]) > 0
      modifies this`owner, this`disk, bitmap
      ensures Grown(p, |files[p].blocks|, blocks, old(owner), old(disk))
      ensures FreeCount(old(bitmap[..])) >= Needed(bytes) ==> |blocks| == |files[p].blocks| + Needed(bytes)
      ensures FreeCount(old(bitmap[..])) < Needed(bytes) ==> |blocks| < |files[p].blocks| + Needed(bytes)
    {
      var had := |files[p].blocks|;
      var left := bytes;
      blocks := files[p].blocks;
      assert files[p := files[p].(blocks := blocks)] == files;
      ghost var free0 := FreeCount(bitmap[..]);
      while left > 0
        invariant Grown(p, had, blocks, old(owner), old(disk))
        invariant FreeCount(bitmap[..]) + |blocks| - had == free0 && left <= bytes
        invariant free0 >= Needed(bytes) ==> |blocks| == had + Needed(bytes) - Needed(left)
        decreases left, if FreeCount(bitmap[..]) > 0 then 0 else 1
      {
        var added;
        blocks, added := ExpandOnce(p, had, blocks, old(owner), old(disk));
        if added {
          left := left - BLOCK;
        }
      }
    }

    /** write_file. With room for the blocks it needs, on the flat file it is a splice, with spaces in a gap,
        and no other file changes. With some free blocks but too few, it still ends with success: the file has
        a size beyond its blocks, and what they cannot hold is in block 0. Every block keeps one owner, with
        its bit set, in every case. */
    method Write(p: string, offset: nat, data: seq<byte>) returns (r: Status)
      requires Sound()
      requires p in files && Needed(Lacking(files[p], offset + |data|)) > 0 ==> FreeCount(bitmap[..]) > 0
      modifies this`files, this`owner, this`disk, bitmap
      ensures Sound() && r == (if p in old(files) then Success else IsNotReg) && |disk| == |old(disk)|
      ensures p !in old(files) ==>
                && files == old(files) && disk == old(disk) && owner == old(owner)
                && bitmap[..] == old(bitmap[..])
      ensures p in old(files) ==> p in files && files == old(files)[p := files[p]]
      ensures p in old(files) ==> old(files)[p].blocks <= files[p].blocks
      ensures p in old(files) ==>
                files[p].size == if offset + |data| > old(files)[p].size then offset + |data| else old(files)[p].size
      ensures p in old(files) && old(Valid()) ==>
                (Valid() <==> (files[p].size + 63) / 64 - |old(files)[p].blocks| <= FreeCount(old(bitmap[..])))
      ensures p in old(files) && old(Valid()) ==>
                (Valid() <==> Needed(Lacking(old(files)[p], offset + |data|)) <= FreeCount(old(bitmap[..])))
      ensures p in old(files) && old(Valid()) && Valid() ==>
                Content(p) == Written(old(Content(p)), offset, data)
                  && SameContents(old(disk), old(files) - {p}, disk, files)
      ensures p in old(files) && old(Valid()) && !Valid() ==>
                files[p].size == offset + |data| > BLOCK * |files[p].blocks|
                  && (data != [] ==> Spilled(disk, offset, data))
      ensures forall q, i :: q in old(files) && q != p && 0 <= i < |old(files)[q].blocks|
                              && old(files)[q].blocks[i] != 0 ==>
                disk[old(files)[q].blocks[i]] == old(disk)[old(files)[q].blocks[i]]
    {
      if p !in files {
        return IsNotReg;
      }
      var m := files[p];
      var blocks := Expand(p, Lacking(m, offset + |data|));
      if old(Valid()) {
        GrownStep(p, m, blocks, old(disk), old(owner));
        BlocksSuffice(m, offset + |data|);
      }
      ghost var disk1 := disk;
      Store(p, blocks, offset, data);
      if old(Valid()) && Needed(Lacking(m, offset + |data|)) <= FreeCount(old(bitmap[..])) {
        WrittenFile(old(disk), disk1, disk, m, blocks, offset, data);
        OthersFrame(bitmap[..], old(disk), disk1, disk, old(files), files[p], owner, p);
        WroteAll(old(disk), disk, old(files), files[p], p);
      }
      return Success;
    }

    /** The rest of write_file: the bytes, then the size and the list of blocks. */
    method Store(p: string, blocks: seq<int>, offset: nat, data: seq<byte>)
      requires p in files && |disk| == bitmap.Length && Whole(disk) && |files[p].blocks| <= |blocks|
      requires Owned(bitmap[..], files[p := files[p].(blocks := blocks)], owner)
      requires forall q :: q in files ==> files[q].size >= 1 && files[q].blocks != []
      modifies this`files, this`disk
      ensures Sound() && |disk| == |old(disk)| && BlocksOk(old(disk), blocks) && BlocksOk(disk, blocks)
      ensures var size := old(files)[p].size;
              files == old(files)[p := Meta(if offset + |data| > size then offset + |data| else size, blocks)]
      ensures offset + |data| <= BLOCK * |blocks| ==> forall k :: 0 <= k < BLOCK * |blocks| ==>
                ByteAt(disk, blocks, k) == if offset <= k < offset + |data| then data[k - offset]
                  else ByteAt(old(disk), blocks, k)
      ensures forall b :: 0 <= b < |disk| && b !in blocks && (offset + |data| > BLOCK * |blocks| ==> b != 0) ==>
                disk[b] == old(disk)[b]
      ensures offset + |data| > BLOCK * |blocks| && data != [] ==> Spilled(disk, offset, data)
      ensures forall q, i :: q in old(files) && q != p && 0 <= i < |old(files)[q].blocks| ==>
                old(files)[q].blocks[i] !in blocks
    {
      var m := files[p];
      var size := if offset + |data| > m.size then offset + |data| else m.size;
      GrownOwned(p, m, blocks, size);
      OthersBlocks(bitmap[..], files, Meta(size, blocks), owner, p);
      disk := WriteBlocks(disk, blocks, offset, data);
      files := files[p := Meta(size, blocks)];
    }

    lemma {:induction false} GrownOwned(p: string, m: Meta, blocks: seq<int>, size: int)
      requires p in files && m == files[p] && m.blocks != []
      requires |disk| == bitmap.Length && Whole(disk) && |m.blocks| <= |blocks|
            && Owned(bitmap[..], files[p := m.(blocks := blocks)], owner)
      ensures blocks != [] && BlocksOk(disk, blocks) && 0 <= blocks[0] < |disk|
            && Owned(bitmap[..], files[p := Meta(size, blocks)], owner)
    {
      OwnedResized(bitmap[..], files, owner, p, m.(blocks := blocks), size);
      HeldBlocks(p, blocks, size);
    }

    lemma {:induction false} GrownStep(p: string, m: Meta, blocks: seq<int>, disk0: Disk, owner0: map<int, string>)
      requires p in files && m == files[p] && Grown(p, |m.blocks|, blocks, owner0, disk0) && FilesOk(disk0, files)
      requires forall q, i :: q in files && 0 <= i < |files[q].blocks| ==> files[q].blocks[i] in owner0
      ensures BlocksOk(disk, blocks)
      ensures forall k :: 0 <= k < BLOCK * |blocks| ==>
                ByteAt(disk, blocks, k) == if k < m.size then ByteAt(disk0, m.blocks, k) else SPACE
      ensures forall q, i :: q in files && 0 <= i < |files[q].blocks| ==>
                disk[files[q].blocks[i]] == disk0[files[q].blocks[i]]
    {
      assert NoDuplicates(files[p := m.(blocks := blocks)][p].blocks);
      GrownFile(disk0, disk, m, blocks);
    }

    /** A write of a file with room for it and a read of the same bytes: the data written, unless they start with
        the last byte of the file, from which on there is no reply. */
    method WriteThenRead(p: string, offset: nat, data: seq<byte>) returns (r: ReadReply)
      requires Valid() && p in files
      requires Needed(Lacking(files[p], offset + |data|)) <= FreeCount(bitmap[..])
      modifies this`files, this`owner, this`disk, bitmap
      ensures Valid() && p in files && !r.NotRegular?
      ensures r.NoReply? <==> offset >= files[p].size - 1
      ensures |data| >= 2 ==> r.Data?
      ensures r.Data? ==> r.bytes == data
    {
      var status := Write(p, offset, data);
      assert FileOk(disk, files[p].blocks, files[p].size);
      r := Read(p, offset, |data|);
      if r.Data? {
        assert Content(p)[offset..offset + |data|] == data;
      }
    }

    /** A read of the whole of a file. */
    method ReadAll(p: string, size: nat) returns (r: ReadReply)
      requires Valid() && p in files && |Content(p)| >= 2 && size >= |Content(p)|
      ensures r == Data(Content(p))
    {
      assert FileOk(disk, files[p].blocks, files[p].size);
      r := Read(p, 0, size);
    }
  }

  /** A disk of three blocks: a file of one block and a write of four. It ends with success, and the file has
      more bytes than its blocks hold. */
  method ShortDisk(data: seq<byte>) returns (s: Server, r: Status)
    requires |data| == 4 * BLOCK
    ensures |s.disk| == 3 && s.disk[0] == data[3 * BLOCK..]
    ensures fresh(s) && r == Success && s.Sound() && !s.Valid() && "/a" in s.files
          && s.files["/a"].size > BLOCK * |s.files["/a"].blocks|
  {
    s := new Server(3);
    r := s.Create("/a", false);
    assert FileOk(s.disk, s.files["/a"].blocks, BLOCK) && Lacking(s.files["/a"], 4 * BLOCK) == 3 * BLOCK;
    r := s.Write("/a", 0, data);
  }
}
