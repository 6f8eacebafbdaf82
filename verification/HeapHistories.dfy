/**
 Histories of heap requests in which something goes wrong: each starts from an empty heap with
 pages of 64 bytes.
 */
module HeapHistories {
  import opened Lists
  import opened Bytes
  import opened HeapPage
  import opened HeapKernel

  const PAGE := 64
  const PAD: seq<byte> := [0, 0, 0]

  function Raw(): (page: seq<byte>)
    ensures |page| == PAGE
  {
    seq(PAGE, _ => 0)
  }

  method NewHeap() returns (h: HeapManager)
    ensures fresh(h) && h.pageSize == PAGE && (forall q :: h.code(q) == 0) && h.table == [] && h.layouts == []
          && h.gone == {}
    ensures h.Now().Valid() && h.Now().InStep() && h.Now().Counter(1) == 0 && h.broken == {}
  {
    assert Power256(4) == 0x1_0000_0000;
    h := new HeapManager(PAGE, q => 0);
  }

  /** One request of process 1 on an empty heap. */
  method FirstEight(h: HeapManager) returns (address: int)
    requires h.pageSize == PAGE && (forall q :: h.code(q) == 0) && h.table == [] && h.layouts == [] && h.gone == {}
    requires h.Now().Valid() && h.Now().InStep() && h.Now().Counter(1) == 0 && h.broken == {}
    modifies h
    ensures h.Now().Valid() && h.Now().InStep() && h.Now().Counter(1) == 1 && h.gone == {} && h.broken == {}
    ensures h.table == [PageRecord(1, 0, 40)] && h.layouts == [Block(8, false, Block(40, true, End))]
    ensures address == Address(0, 0, 0, PAGE) && h.Now().Live(0, 0, 8)
  {
    var r;
    ghost var i, off;
    r, i, off := h.Reserve(1, 8, true, Raw(), PAD, PAD);
    address := r.address;
    assert Carved(Block(56, true, End), 8) == Block(8, false, Block(40, true, End));
  }

  // ---- page numbers that differ ----

  /** A block is reserved and freed, and its page goes back. */
  method EightAndBack(h: HeapManager)
    requires h.pageSize == PAGE && (forall q :: h.code(q) == 0) && h.table == [] && h.layouts == [] && h.gone == {}
    requires h.Now().Valid() && h.Now().InStep() && h.Now().Counter(1) == 0 && h.broken == {}
    modifies h
    ensures h.Now().Valid() && h.Now().InStep() && h.Now().Counter(1) == 1 && h.gone == {} && h.table == []
  {
    var address := FirstEight(h);
    ghost var a := h.Now();
    var returned := h.Liberate(1, address, 0, 0, 8, PAD, PAD);
    assert a.PageOk(0);
    ReturnedIff(a.memory[a.Key(a.table[0])], a.layouts[0], 0, 8);
  }

  /** Reserve, free, reserve: the kernel gives the new page the number of the old one, the memory server the
      next, and the kernel uses a page that is not there. */
  method NumbersDiffer() returns (h: HeapManager, r: Reserved)
    ensures r.Crashed?
  {
    h := NewHeap();
    EightAndBack(h);
    ghost var i, off;
    r, i, off := h.Reserve(1, 8, true, Raw(), PAD, PAD);
  }

  // ---- fragmentation ----

  /** Another request of process 1, which its one page has room for. */
  method NextEight(h: HeapManager, ghost free: nat, ghost bs: Blocks, ghost bs': Blocks)
    requires h.pageSize == PAGE && (forall q :: h.code(q) == 0) && h.gone == {} && h.broken == {}
    requires h.table == [PageRecord(1, 0, free)] && free >= 16 && h.layouts == [bs] && Fit(bs, 0, 8) >= 0
          && Carved(bs, 8) == bs'
    requires h.Now().Valid() && h.Now().InStep()
    modifies h
    ensures h.Now().Valid() && h.Now().InStep() && h.gone == {} && h.broken == {}
    ensures h.table == [PageRecord(1, 0, free - 16)] && h.layouts == [bs']
    ensures forall s, z :: old(h.Now().Live(0, s, z)) ==> h.Now().Live(0, s, z)
  {
    var r;
    ghost var i, off;
    r, i, off := h.Reserve(1, 8, false, Raw(), PAD, PAD);
  }

  const ONE := Block(8, false, Block(40, true, End))
  const TWO := Block(8, false, Block(8, false, Block(24, true, End)))
  const THREE := Block(8, false, Block(8, false, Block(8, false, Block(8, true, End))))
  const HOLES := Block(8, true, Block(8, false, Block(8, false, Block(8, true, End))))

  /** The page as three requests and the release of the first block leave it: 16 bytes are free, in two holes. */
  lemma {:induction false} Layouts()
    ensures Carved(ONE, 8) == TWO && Carved(TWO, 8) == THREE && Fit(ONE, 0, 8) >= 0 && Fit(TWO, 0, 8) >= 0
    ensures AfterRelease(THREE, 0) == HOLES && FreeBytes(HOLES) == 16 && Fit(HOLES, 0, 8) == -1
  {
    var a := Block(8, false, Block(24, true, End));
    assert Carved(Block(40, true, End), 8) == a
          && Carved(Block(24, true, End), 8) == Block(8, false, Block(8, true, End));
    assert Carved(a, 8) == Block(8, false, Block(8, false, Block(8, true, End)));
    assert Fit(Block(40, true, End), 16, 8) == 16 && Fit(Block(24, true, End), 32, 8) == 32 && Fit(a, 16, 8) == 32;
    var b, c := Block(8, true, End), Block(8, false, Block(8, true, End));
    assert Joined(b) == b && Joined(c) == c && Joined(Block(8, false, c)) == Block(8, false, c);
    assert FreeBytes(b) == 8 && FreeBytes(c) == 8 && FreeBytes(Block(8, false, c)) == 8;
    assert Fit(End, 64, 8) == -1 && Fit(b, 48, 8) == -1 && Fit(c, 32, 8) == -1 && Fit(Block(8, false, c), 16, 8) == -1;
  }

  method ThreeEights(h: HeapManager) returns (address: int)
    requires h.pageSize == PAGE && (forall q :: h.code(q) == 0) && h.table == [] && h.layouts == [] && h.gone == {}
    requires h.Now().Valid() && h.Now().InStep() && h.Now().Counter(1) == 0 && h.broken == {}
    modifies h
    ensures h.Now().Valid() && h.Now().InStep() && h.gone == {} && h.broken == {} && h.table == [PageRecord(1, 0, 8)]
          && h.layouts == [THREE]
    ensures address == Address(0, 0, 0, PAGE) && h.Now().Live(0, 0, 8)
  {
    Layouts();
    address := FirstEight(h);
    NextEight(h, 40, ONE, TWO);
    NextEight(h, 24, TWO, THREE);
  }

  method MakeHoles(h: HeapManager)
    requires h.pageSize == PAGE && (forall q :: h.code(q) == 0) && h.table == [] && h.layouts == [] && h.gone == {}
    requires h.Now().Valid() && h.Now().InStep() && h.Now().Counter(1) == 0 && h.broken == {}
    modifies h
    ensures h.Now().Valid() && h.Now().InStep() && h.gone == {} && h.broken == {} && h.table == [PageRecord(1, 0, 16)]
          && h.layouts == [HOLES]
  {
    Layouts();
    var address := ThreeEights(h);
    var returned := h.Liberate(1, address, 0, 0, 8, PAD, PAD);
  }

  /** Three blocks reserved and the first one freed: the next request finds enough free space but no block, and
      leaves a page that agrees with nothing. */
  method Fragmented() returns (h: HeapManager, r: Reserved)
    ensures r.Pointer? && h.Now().Broken(0) && h.Now().Valid()
  {
    h := NewHeap();
    MakeHoles(h);
    Layouts();
    ghost var i, off;
    r, i, off := h.Reserve(1, 8, false, Raw(), PAD, PAD);
  }
}
