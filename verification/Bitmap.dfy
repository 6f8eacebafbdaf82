/**
 The block bitmap of the file system (file-system/src/file-system.c) and who owns each block.
 Every file of the Archivos directory has a size and a list of blocks.
 */
module Bitmap {
  import opened Lists

  datatype Meta = Meta(size: int, blocks: seq<int>)

  /** The number of clear bits. */
  function FreeCount(bits: seq<bool>): (n: nat)
    ensures n <= |bits|
  {
    if bits == [] then 0 else (if bits[|bits| - 1] then 0 else 1) + FreeCount(bits[..|bits| - 1])
  }

  lemma {:induction false} FreeCountSet(bits: seq<bool>, b: int, busy: bool)
    requires 0 <= b < |bits| && bits[b] != busy
    ensures FreeCount(bits[b := busy]) == if busy then FreeCount(bits) - 1 else FreeCount(bits) + 1
  {
    var init := bits[..|bits| - 1];
    if b < |bits| - 1 {
      assert bits[b := busy][..|bits| - 1] == init[b := busy];
      FreeCountSet(init, b, busy);
    } else {
      assert bits[b := busy][..|bits| - 1] == init;
    }
  }

  lemma {:induction false} FullIff(bits: seq<bool>)
    ensures FreeCount(bits) == 0 <==> forall b :: 0 <= b < |bits| ==> bits[b]
  {
    if bits != [] {
      FullIff(bits[..|bits| - 1]);
    }
  }

  lemma {:induction false} AllFree(bits: seq<bool>)
    requires forall b :: 0 <= b < |bits| ==> !bits[b]
    ensures FreeCount(bits) == |bits|
  {
    if bits != [] {
      AllFree(bits[..|bits| - 1]);
    }
  }

  /** A bit is set exactly when its block belongs to one file, once. */
  ghost predicate Owned(bits: seq<bool>, files: map<string, Meta>, owner: map<int, string>) {
    && (forall b :: b in owner ==> 0 <= b < |bits| && bits[b] && owner[b] in files && b in files[owner[b]].blocks)
    && (forall b :: 0 <= b < |bits| && bits[b] ==> b in owner)
    && (forall p, i :: p in files && 0 <= i < |files[p].blocks| ==>
         files[p].blocks[i] in owner && owner[files[p].blocks[i]] == p)
    && (forall p :: p in files ==> NoDuplicates(files[p].blocks))
  }

  /** No two files share a block. */
  lemma {:induction false} NoneShared(bits: seq<bool>, files: map<string, Meta>, owner: map<int, string>, p: string,
                                      q: string, i: int, j: int)
    requires Owned(bits, files, owner) && p in files && q in files
    requires 0 <= i < |files[p].blocks| && 0 <= j < |files[q].blocks| && files[p].blocks[i] == files[q].blocks[j]
    ensures p == q && i == j && 0 <= files[p].blocks[i] < |bits| && bits[files[p].blocks[i]]
  {
    assert owner[files[p].blocks[i]] == p && owner[files[q].blocks[j]] == q;
  }

  /** A clear bit is set for a block added to a file. */
  lemma {:induction false} OwnedAdd(bits: seq<bool>, files: map<string, Meta>, owner: map<int, string>, p: string,
                                    m: Meta, b: int)
    requires Owned(bits, files, owner) && p in files && 0 <= b < |bits| && !bits[b] && m.blocks == files[p].blocks + [b]
    ensures Owned(bits[b := true], files[p := m], owner[b := p])
  {
    AppendFacts(files[p].blocks, b);
  }

  /** The bit of a block is cleared and the block taken from its file. */
  lemma {:induction false} OwnedRemove(bits: seq<bool>, files: map<string, Meta>, owner: map<int, string>, p: string,
                                       m: Meta, i: int)
    requires Owned(bits, files, owner) && p in files && 0 <= i < |files[p].blocks|
          && m.blocks == RemoveAt(files[p].blocks, i)
    ensures var b := files[p].blocks[i];
            0 <= b < |bits| && bits[b] && Owned(bits[b := false], files[p := m], owner - {b})
  {
    RemoveAtFacts(files[p].blocks, i);
  }

  /** A new file without blocks, and a file without blocks that goes. */
  lemma {:induction false} OwnedEmpty(bits: seq<bool>, files: map<string, Meta>, owner: map<int, string>, p: string,
                                      m: Meta)
    requires Owned(bits, files, owner) && m.blocks == [] && (p in files ==> files[p].blocks == [])
    ensures Owned(bits, files[p := m], owner) && Owned(bits, files - {p}, owner)
  {
  }

  /** Ownership is about blocks, not sizes. */
  lemma {:induction false} OwnedResized(bits: seq<bool>, files: map<string, Meta>, owner: map<int, string>, p: string,
                                        m: Meta, size: int)
    requires Owned(bits, files[p := m], owner)
    ensures Owned(bits, files[p := m.(size := size)], owner)
  {
    var a, b := files[p := m], files[p := m.(size := size)];
    assert forall q :: q in b ==> q in a && b[q].blocks == a[q].blocks;
  }

  /** A new file of one block. */
  lemma {:induction false} OwnedNew(bits: seq<bool>, files: map<string, Meta>, owner: map<int, string>, p: string,
                                    m: Meta, b: int)
    requires Owned(bits, files, owner) && p !in files && 0 <= b < |bits| && !bits[b] && m.blocks == [b]
    ensures Owned(bits[b := true], files[p := m], owner[b := p])
  {
    var none := m.(blocks := []);
    OwnedEmpty(bits, files, owner, p, none);
    OwnedAdd(bits, files[p := none], owner, p, m, b);
    assert files[p := none][p := m] == files[p := m];
  }

  // ---- the loops over the bitmap ----

  /** get_available_block: the first clear bit, which it sets, or -1 when there is none. */
  method GetAvailable(bitmap: array<bool>) returns (b: int)
    modifies bitmap
    ensures b == -1 || 0 <= b < bitmap.Length
    ensures b == -1 <==> FreeCount(old(bitmap[..])) == 0
    ensures b == -1 ==> bitmap[..] == old(bitmap[..])
    ensures b >= 0 ==>
              && !old(bitmap[b]) && (forall k :: 0 <= k < b ==> old(bitmap[k]))
              && bitmap[..] == old(bitmap[..])[b := true]
  {
    FullIff(bitmap[..]);
    b := 0;
    while b < bitmap.Length
      invariant 0 <= b <= bitmap.Length && bitmap[..] == old(bitmap[..])
      invariant forall k :: 0 <= k < b ==> bitmap[k]
    {
      if !bitmap[b] {
        bitmap[b] := true;
        return;
      }
      b := b + 1;
    }
    b := -1;
  }

  /** Clears the bits of all blocks of a file, as recreating and deleting it do. */
  method ReleaseAll(bitmap: array<bool>, files: map<string, Meta>, ghost owner: map<int, string>, p: string)
      returns (ghost owner': map<int, string>)
    requires Owned(bitmap[..], files, owner) && p in files
    modifies bitmap
    ensures Owned(bitmap[..], files - {p}, owner') && owner' == owner - set b | b in files[p].blocks
    ensures forall k :: 0 <= k < bitmap.Length ==> bitmap[k] == (old(bitmap[k]) && k !in files[p].blocks)
    ensures files[p].blocks != [] ==> FreeCount(bitmap[..]) > 0
  {
    var blocks := files[p].blocks;
    var pos := 0;
    while pos < |blocks|
      invariant 0 <= pos <= |blocks|
      invariant forall k :: 0 <= k < bitmap.Length ==> bitmap[k] == (old(bitmap[k]) && k !in blocks[..pos])
    {
      assert files[p].blocks[pos] in owner;
      bitmap[blocks[pos]] := false;
      pos := pos + 1;
    }
    assert blocks[..pos] == blocks;
    owner' := owner - set b | b in files[p].blocks;
    FullIff(bitmap[..]);
    assert blocks != [] ==> files[p].blocks[0] in owner && !bitmap[blocks[0]];
  }
}
