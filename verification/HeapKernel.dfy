/**
 The kernel's heap requests (kernel/src/solicitudes.c, OC_FUNCION_RESERVAR and
 OC_FUNCION_LIBERAR): a table of heap pages per process with the free space of each, over
 pages that live in the memory server. A heap page is known to the kernel by its number and
 to the memory server by that number plus the process's code and stack pages; the server
 numbers pages by a counter of its own that never goes back.
 */
module HeapKernel {
  import opened Arithmetic
  import opened Lists
  import opened Bytes
  import opened HeapPage

  datatype PageRecord = PageRecord(pid: int, number: int, free: int)

  datatype Reserved =
    | TooBig                 // error_heap 1
    | NoMemory               // error_heap 2
    | Crashed                // a page that is not there is used
    | Pointer(address: int)

  // ---- pointers ----

  /** obtener_direccion_relativa */
  function Address(off: int, number: int, code: int, pageSize: int): int {
    off + HEADER + pageSize * number + pageSize * code
  }

  /** The address of the block's bytes: after its header, in its page, after the code and stack pages. */
  lemma {:induction false} AddressOf(off: int, number: int, code: int, pageSize: int)
    ensures Address(off, number, code, pageSize) == off + 8 + pageSize * (number + code)
  {
  }

  /** The pointer handed out decodes, as obtener_direccion_de_bloque_verdadera does, to the same page and header. */
  lemma {:induction false} PointerRoundTrip(off: int, number: int, code: int, pageSize: int)
    requires 0 <= off && off + HEADER < pageSize && 0 <= number && 0 <= code
    ensures var p := Address(off, number, code, pageSize);
            p / pageSize - code == number && p % pageSize - HEADER == off
  {
    var p := Address(off, number, code, pageSize);
    assert p == (number + code) * pageSize + (off + HEADER);
    DivMod(number + code, off + HEADER, pageSize);
  }

  // ---- the table ----

  /** obtener_pagina_con_suficiente_espacio: the first page of the process with room for n bytes and a header. */
  function Roomy(table: seq<PageRecord>, pid: int, n: int): (i: int)
    ensures 0 <= i <= |table|
    ensures i < |table| ==> table[i].pid == pid && table[i].free >= n + HEADER
    ensures forall j :: 0 <= j < i && table[j].pid == pid ==> table[j].free < n + HEADER
  {
    if table == [] then 0 else if table[0].pid == pid && table[0].free >= n + HEADER then 0
    else 1 + Roomy(table[1..], pid, n)
  }

  /** buscar_pagina_heap */
  function At(table: seq<PageRecord>, pid: int, number: int): (i: int)
    ensures 0 <= i <= |table|
    ensures i < |table| ==> table[i].pid == pid && table[i].number == number
    ensures forall j :: 0 <= j < i ==> !(table[j].pid == pid && table[j].number == number)
  {
    if table == [] then 0 else if table[0].pid == pid && table[0].number == number then 0
    else 1 + At(table[1..], pid, number)
  }

  /** tabla_heap_agregar_pagina numbers a new page after the last page of the process in the table. */
  function NextNumber(table: seq<PageRecord>, pid: int): int {
    if table == [] then 0
    else if table[|table| - 1].pid == pid then table[|table| - 1].number + 1
    else NextNumber(table[..|table| - 1], pid)
  }

  /** A process's pages are in the table once each, in increasing order. */
  ghost predicate Ordered(table: seq<PageRecord>) {
    && (forall i :: 0 <= i < |table| ==> table[i].number >= 0)
    && (forall i, j :: 0 <= i < j < |table| && table[i].pid == table[j].pid ==> table[i].number < table[j].number)
  }

  lemma {:induction false} NextIsNew(table: seq<PageRecord>, pid: int)
    requires Ordered(table)
    ensures NextNumber(table, pid) >= 0
    ensures forall j :: 0 <= j < |table| && table[j].pid == pid ==> table[j].number < NextNumber(table, pid)
  {
    if table != [] {
      NextIsNew(table[..|table| - 1], pid);
    }
  }

  /** The number after that of the last page of the process in the table, and 0 when it has none. */
  lemma {:induction false} NextFollowsLast(table: seq<PageRecord>, pid: int)
    ensures (forall j :: 0 <= j < |table| ==> table[j].pid != pid) ==> NextNumber(table, pid) == 0
    ensures forall j :: 0 <= j < |table| && table[j].pid == pid
                        && (forall m :: j < m < |table| ==> table[m].pid != pid) ==>
              NextNumber(table, pid) == table[j].number + 1
  {
    if table != [] {
      NextFollowsLast(table[..|table| - 1], pid);
    }
  }

  lemma {:induction false} ShrunkTiles(page: seq<byte>, page': seq<byte>, bs: Blocks, n: nat, pad: seq<byte>,
                                       pad': seq<byte>)
    requires Tiles(page, 0, bs, |page|) && bs.Block? && bs.size >= n + HEADER && |pad| == |pad'| == 3
    requires HEADER + n + HEADER <= |page| < Power256(4) && page' == Marked(page, 0, n, pad, pad')
    ensures Tiles(page', 0, Block(n, false, Block(bs.size - n - HEADER, true, bs.rest)), |page|)
  {
    MarkedFits(page, page', n, 0, pad, pad');
    SplitTiles(page, page', 0, bs, |page|, n);
  }

  /** No layout of a page marked where nothing fits has the free space that the table then records. */
  lemma {:induction false} MisfitBreaks(page: seq<byte>, page': seq<byte>, bs: Blocks, n: nat, pad: seq<byte>,
                                        pad': seq<byte>)
    requires Tiles(page, 0, bs, |page|) && Fit(bs, 0, n) < 0 && |pad| == |pad'| == 3
    requires HEADER + n + HEADER <= |page| < Power256(4) / 2 && page' == Marked(page, 0, n, pad, pad')
    ensures forall bs' :: !(Tiles(page', 0, bs', |page|) && FreeBytes(bs') == FreeBytes(bs) - n - HEADER)
  {
    forall bs' | Tiles(page', 0, bs', |page|) ensures FreeBytes(bs') != FreeBytes(bs) - n - HEADER {
      if bs.size < n + HEADER {
        MarkedTooSmall(page, 0, n, pad, pad', bs');
      } else {
        ShrunkTiles(page, page', bs, n, pad, pad');
        LayoutIsOne(page', 0, bs', Block(n, false, Block(bs.size - n - HEADER, true, bs.rest)), |page|);
      }
    }
  }

  lemma {:induction false} NextIsLeast(table: seq<PageRecord>, pid: int, bound: int)
    requires bound >= 0 && forall j :: 0 <= j < |table| && table[j].pid == pid ==> table[j].number < bound
    ensures NextNumber(table, pid) <= bound
  {
    if table != [] {
      NextIsLeast(table[..|table| - 1], pid, bound);
    }
  }

  /** Page m of process q is in the table. */
  predicate Listed(table: seq<PageRecord>, q: int, m: int) {
    table != [] && (var r := table[|table| - 1]; (r.pid == q && r.number == m) || Listed(table[..|table| - 1], q, m))
  }

  lemma {:induction false} ListedIsOld(table: seq<PageRecord>, q: int, m: int)
    requires Ordered(table) && Listed(table, q, m)
    ensures m < NextNumber(table, q)
  {
    var init, last := table[..|table| - 1], table[|table| - 1];
    if !(last.pid == q && last.number == m) {
      ListedIsOld(init, q, m);
      if last.pid == q {
        NextIsLeast(init, q, last.number);
      }
    }
  }

  lemma {:induction false} ListedAfterRelease(table: seq<PageRecord>, i: int, q: int, m: int)
    requires 0 <= i < |table| && Listed(table, q, m) && !(table[i].pid == q && table[i].number == m)
    ensures Listed(RemoveAt(table, i), q, m)
  {
    var init := table[..|table| - 1];
    if i == |table| - 1 {
      assert RemoveAt(table, i) == init;
    } else {
      assert RemoveAt(table, i) == RemoveAt(init, i) + [table[|table| - 1]];
      assert RemoveAt(table, i)[..|table| - 2] == RemoveAt(init, i);
      if Listed(init, q, m) {
        ListedAfterRelease(init, i, q, m);
      }
    }
  }

  /** Releasing a page moves the number of the next page back exactly when it was the last page of its process. */
  lemma {:induction false} NextAfterRelease(table: seq<PageRecord>, i: int, q: int)
    requires Ordered(table) && 0 <= i < |table|
    ensures NextNumber(RemoveAt(table, i), q) <= NextNumber(table, q)
    ensures NextNumber(RemoveAt(table, i), q) < NextNumber(table, q) <==>
              table[i].pid == q && table[i].number + 1 == NextNumber(table, q)
  {
    var init := table[..|table| - 1];
    if i < |table| - 1 {
      assert RemoveAt(table, i) == RemoveAt(init, i) + [table[|table| - 1]];
      assert RemoveAt(table, i)[..|table| - 2] == RemoveAt(init, i);
      NextAfterRelease(init, i, q);
      NextIsNew(init, q);
    } else {
      if table[i].pid == q {
        NextIsLeast(init, q, table[i].number);
      }
      assert RemoveAt(table, i) == init;
    }
  }

  lemma {:induction false} NextAfterAdd(table: seq<PageRecord>, r: PageRecord, q: int)
    ensures NextNumber(table + [r], q) == if q == r.pid then r.number + 1 else NextNumber(table, q)
    ensures forall m :: Listed(table + [r], q, m) <==> Listed(table, q, m) || (q == r.pid && m == r.number)
  {
    assert (table + [r])[..|table|] == table;
  }

  /** Records with other free space have the same numbers. */
  lemma {:induction false} SameNumbers(a: seq<PageRecord>, b: seq<PageRecord>, q: int, m: int)
    requires |a| == |b| && forall i :: 0 <= i < |a| ==> a[i].pid == b[i].pid && a[i].number == b[i].number
    ensures NextNumber(a, q) == NextNumber(b, q) && Listed(a, q, m) == Listed(b, q, m)
  {
    if a != [] {
      SameNumbers(a[..|a| - 1], b[..|b| - 1], q, m);
    }
  }

  function Without(memory: map<(int, int), seq<byte>>, pid: int): map<(int, int), seq<byte>> {
    map key | key in memory && key.0 != pid :: memory[key]
  }

  // ---- one page ----

  /** A new page, with its one header. */
  function Formatted(raw: seq<byte>, pad: seq<byte>): (page: seq<byte>)
    requires HEADER <= |raw| && |pad| == 3
    ensures |page| == |raw|
  {
    Splice(raw, 0, Header(|raw| - HEADER, true, pad))
  }

  lemma {:induction false} FormattedTiles(raw: seq<byte>, pad: seq<byte>)
    requires HEADER <= |raw| < Power256(4) && |pad| == 3
    ensures Tiles(Formatted(raw, pad), 0, Block(|raw| - HEADER, true, End), |raw|)
  {
    HeaderRoundTrip(raw, 0, |raw| - HEADER, true, pad);
  }

  /** buscar_bloque_disponible and marcar_bloque_ocupado on a page chosen by its free space. */
  method CarvePage(page: array<byte>, n: nat, pad: seq<byte>, pad': seq<byte>, ghost bs: Blocks) returns (off: int)
    requires Tiles(page[..], 0, bs, page.Length) && FreeBytes(bs) >= n + HEADER && |pad| == |pad'| == 3
    modifies page
    ensures off == if Fit(bs, 0, n) >= 0 then Fit(bs, 0, n) else 0
    ensures 0 <= off && off + HEADER + n + HEADER <= page.Length && page[..] == Marked(old(page[..]), off, n, pad, pad')
  {
    FreeBytesBound(page[..], 0, bs, page.Length);
    off := FindBlock(page, n, bs);
    if Fit(bs, 0, n) >= 0 {
      FitBounds(page[..], 0, bs, page.Length, n);
    }
    MarkUsed(page, off, n, pad, pad');
  }

  lemma {:induction false} CarvedLive(page: seq<byte>, page': seq<byte>, bs: Blocks, n: nat)
    requires Tiles(page, 0, bs, |page|) && Fit(bs, 0, n) >= 0
    requires SameOutside(page, page', Fit(bs, 0, n), Fit(bs, 0, n) + HEADER + n + HEADER)
    ensures forall s, z :: IsLive(Carved(bs, n), 0, s, z) <==> IsLive(bs, 0, s, z) || (s == Fit(bs, 0, n) && z == n)
    ensures forall s, z :: IsLive(bs, 0, s, z) ==> Apart(s, z, Fit(bs, 0, n), n) && SamePayload(page, page', s, z)
  {
    forall s, z
      ensures IsLive(Carved(bs, n), 0, s, z) <==> IsLive(bs, 0, s, z) || (s == Fit(bs, 0, n) && z == n)
      ensures IsLive(bs, 0, s, z) ==> Apart(s, z, Fit(bs, 0, n), n) && SamePayload(page, page', s, z)
    {
      AllocatedLive(page, page', 0, bs, |page|, n, s, z);
    }
  }

  /** n bytes taken from a page: the first free block with room is split, or, when none has, offset 0 is given. */
  ghost predicate TakenFirst(bs: Blocks, bs': Blocks, off: int, n: int) {
    if NoneFits(bs, 0, n) then off == 0
    else exists z :: FirstFit(bs, 0, off, z, n) && SplitAt(bs, bs', 0, off, z, n)
  }

  lemma {:induction false} TakesFirst(bs: Blocks, off: int, n: nat)
    requires off == if Fit(bs, 0, n) >= 0 then Fit(bs, 0, n) else 0
    ensures TakenFirst(bs, Carved(bs, n), off, n)
    ensures Fit(bs, 0, n) < 0 <==> NoneFits(bs, 0, n)
  {
    var z := FitIsFirst(bs, 0, n);
    if Fit(bs, 0, n) >= 0 {
      CarvedSplits(bs, 0, n, z);
      assert Has(bs, 0, off, z, true);
    }
  }

  /** A block given back and the first pair of free neighbours joined. */
  ghost predicate GivenBack(bs: Blocks, bs': Blocks, off: int, z: int) {
    exists mid :: FreedAt(bs, mid, 0, off, z) && FirstJoined(mid, bs', 0)
  }

  lemma {:induction false} GivesBack(bs: Blocks, off: int, z: int)
    requires IsLive(bs, 0, off, z)
    ensures GivenBack(bs, AfterRelease(bs, off), off, z)
  {
    var mid := Freed(bs, 0, off);
    LiveIsUsed(bs, 0, off, z);
    forall s, y, f
      ensures Has(mid, 0, s, y, f) <==> (Has(bs, 0, s, y, f) && s != off) || (s == off && y == z && f)
    {
      FreedHas(bs, 0, off, z, s, y, f);
    }
    assert FreedAt(bs, mid, 0, off, z);
    JoinedIsFirst(mid, 0);
  }

  /** What OC_FUNCION_LIBERAR leaves of a layout. */
  function AfterRelease(bs: Blocks, off: int): Blocks {
    Joined(Freed(bs, 0, off))
  }

  /** marcar_bloque_libre and defragmentar; gain is what they add to the recorded free space. */
  method ReleasePage(page: array<byte>, off: int, ghost z: int, pad: seq<byte>, pad': seq<byte>, ghost bs: Blocks)
      returns (gain: int)
    requires Tiles(page[..], 0, bs, page.Length) && IsLive(bs, 0, off, z) && |pad| == |pad'| == 3
          && page.Length < Power256(4)
    modifies page
    ensures Tiles(page[..], 0, AfterRelease(bs, off), page.Length)
    ensures gain == FreeBytes(AfterRelease(bs, off)) - FreeBytes(bs)
    ensures forall s, y :: IsLive(AfterRelease(bs, off), 0, s, y) <==> IsLive(bs, 0, s, y) && s != off
    ensures forall s, y :: IsLive(bs, 0, s, y) && s != off ==> SamePayload(old(page[..]), page[..], s, y)
  {
    ghost var was := page[..];
    LiveBounds(page[..], 0, bs, page.Length, off, z);
    Released(page[..], Unmarked(page[..], off, pad), 0, bs, page.Length, off, z, pad);
    var size, free := ReadHeader(page, off);
    Memcpy(page, off, Header(size, true, pad));
    ghost var p, mid := page[..], Freed(bs, 0, off);
    var merged := Defragment(page, pad', mid);
    gain := if merged then size + HEADER else size;
    if merged {
      PairBounds(p, 0, mid, |p|);
      Merged(p, page[..], mid, Pair(mid, 0), pad');
    } else {
      JoinedWithoutPair(mid, 0);
    }
    forall s, y
      ensures IsLive(AfterRelease(bs, off), 0, s, y) <==> IsLive(bs, 0, s, y) && s != off
      ensures IsLive(bs, 0, s, y) && s != off ==> SamePayload(was, page[..], s, y)
    {
      ReleasedLive(was, p, 0, bs, |p|, off, s, y);
      if merged {
        MergedLive(p, page[..], 0, mid, |p|, s, y);
      }
    }
  }

  lemma {:induction false} JoinedWithoutPair(bs: Blocks, lo: int)
    requires lo >= 0 && Pair(bs, lo) < 0
    ensures Joined(bs) == bs
  {
    if bs.Block? {
      JoinedWithoutPair(bs.rest, lo + HEADER + bs.size);
    }
  }

  /** The page is then one free block exactly when the block was the last live one and had at most one
      neighbour. Two free neighbours, or any other free block, and the page stays. */
  lemma {:induction false} ReturnedIff(page: seq<byte>, bs: Blocks, off: int, z: int)
    requires Tiles(page, 0, bs, |page|) && IsLive(bs, 0, off, z) && |page| > HEADER
    ensures AfterRelease(bs, off) == Block(|page| - HEADER, true, End) <==>
            bs.rest == End || (bs.rest.rest == End && (bs.free || bs.rest.free))
  {
    var f, next := Freed(bs, 0, off), HEADER + bs.size;
    if off == 0 {
      if bs.free {
        LiveBounds(page, next, bs.rest, |page|, 0, z);
      }
      assert f == Block(bs.size, true, bs.rest);
      if bs.rest.Block? {
        assert Tiles(page, next + HEADER + bs.rest.size, bs.rest.rest, |page|);
        assert Joined(bs.rest).Block?;
      }
    } else if bs.rest.Block? {
      assert f == Block(bs.size, bs.free, Freed(bs.rest, next, off));
      FreedShape(bs.rest, next, off, z);
      assert Tiles(page, next + HEADER + bs.rest.size, bs.rest.rest, |page|);
      assert Joined(f.rest).Block?;
    }
  }

  lemma {:induction false} FreedShape(bs: Blocks, lo: int, off: int, z: int)
    requires bs.Block? && IsLive(bs, lo, off, z)
    ensures Freed(bs, lo, off).Block? && Freed(bs, lo, off).size == bs.size
    ensures Freed(bs, lo, off).rest == End <==> bs.rest == End
    ensures bs.rest == End ==> lo == off && !bs.free && Freed(bs, lo, off).free
  {
    assert bs.rest == End ==> !IsLive(bs.rest, lo + HEADER + bs.size, off, z);
  }

  // ---- the heap of all processes ----

  type Memory = map<(int, int), seq<byte>>

  /** The kernel's table, the heap pages as the memory server holds them with its page counters, the
      layout of each page in the table, and the processes finalized in memory after a failed request,
      and the pages marked where nothing fits.
      code gives the number of code and stack pages of a process. */
  datatype Heap = Heap(pageSize: int, code: int -> int, table: seq<PageRecord>, memory: Memory, counters: map<int, int>,
                       layouts: seq<Blocks>, gone: set<int>, broken: set<(int, int)>)
  {
    function Key(r: PageRecord): (int, int) {
      (r.pid, code(r.pid) + r.number)
    }

    /** The memory server's next page number for a process. */
    function Counter(q: int): int {
      if q in counters then counters[q] else code(q)
    }

    ghost predicate PageOk(i: int)
      requires 0 <= i < |table| == |layouts|
    {
      && Key(table[i]) in memory && |memory[Key(table[i])]| == pageSize
      && Tiles(memory[Key(table[i])], 0, layouts[i], pageSize) && LastFree(layouts[i])
      && table[i].free == FreeBytes(layouts[i])
    }

    /** The page of record i belongs to a process that goes on and was never marked where nothing fits. */
    predicate Sound(i: int) {
      0 <= i < |table| && table[i].pid !in gone && (table[i].pid, table[i].number) !in broken
    }

    /** Every such page is tiled and its record has its free space. */
    ghost predicate Valid() {
      && 2 * HEADER <= pageSize < Power256(4) / 2 && Ordered(table) && |layouts| == |table|
      && forall i :: Sound(i) ==> PageOk(i)
    }

    /** Memory holds only the heap pages of the table, its counters are not behind the table, and broken pages
        stay in the table. */
    ghost predicate InStep() {
      && (forall id :: id in broken ==> Listed(table, id.0, id.1))
      && (forall key :: key in memory && key.0 !in gone ==> Listed(table, key.0, key.1 - code(key.0)))
      && (forall q :: q !in gone ==> code(q) + NextNumber(table, q) <= Counter(q))
    }

    /** A block of z bytes is in use with its header at offset s of the heap page of record i. */
    ghost predicate Live(i: int, s: int, z: int) {
      0 <= i < |layouts| && Sound(i) && IsLive(layouts[i], 0, s, z)
    }

    /** The bytes of the page of record i agree with no layout that has the recorded free space. */
    ghost predicate Broken(i: int) {
      && 0 <= i < |table| && Key(table[i]) in memory
      && forall bs :: !(Tiles(memory[Key(table[i])], 0, bs, pageSize) && FreeBytes(bs) == table[i].free)
    }
  }

  /** The block at s of the page of record i has the same bytes in both. */
  ghost predicate SameBytes(a: Heap, b: Heap, i: int, s: int, z: int) {
    && 0 <= i < |a.table| && 0 <= i < |b.table| && a.Key(a.table[i]) in a.memory && b.Key(b.table[i]) in b.memory
    && SamePayload(a.memory[a.Key(a.table[i])], b.memory[b.Key(b.table[i])], s, z)
  }

  /** One live block more, n bytes at off of the page of record i, with no byte in common with another;
      the bytes of the others are what they were. */
  ghost predicate OneMore(a: Heap, b: Heap, i: int, off: int, n: int) {
    && (forall j, s, z :: b.Live(j, s, z) <==> a.Live(j, s, z) || (j == i && s == off && z == n))
    && (forall j, s, z :: a.Live(j, s, z) ==> SameBytes(a, b, j, s, z) && (j == i ==> Apart(s, z, off, n)))
  }

  /** One live block less, the one at off of the page of record i. */
  ghost predicate OneLess(a: Heap, b: Heap, i: int, off: int) {
    && (forall j, s, z :: b.Live(j, s, z) <==> a.Live(j, s, z) && !(j == i && s == off))
    && (forall j, s, z :: b.Live(j, s, z) ==> SameBytes(a, b, j, s, z))
  }

  // ---- writing one page ----

  function Stored(h: Heap, i: int, page: seq<byte>, free: int, bs: Blocks): Heap
    requires 0 <= i < |h.table| == |h.layouts|
  {
    h.(memory := h.memory[h.Key(h.table[i]) := page], table := h.table[i := h.table[i].(free := free)],
         layouts := h.layouts[i := bs])
  }

  lemma {:induction false} StoredInStep(h: Heap, i: int, page: seq<byte>, free: int, bs: Blocks)
    requires 0 <= i < |h.table| == |h.layouts| && h.InStep() && h.Key(h.table[i]) in h.memory
    ensures Stored(h, i, page, free, bs).InStep()
  {
    var b := Stored(h, i, page, free, bs);
    forall q ensures NextNumber(b.table, q) == NextNumber(h.table, q) {
      SameNumbers(h.table, b.table, q, 0);
    }
    forall key | key in b.memory && key.0 !in b.gone ensures Listed(b.table, key.0, key.1 - b.code(key.0)) {
      SameNumbers(h.table, b.table, key.0, key.1 - b.code(key.0));
    }
    forall id | id in b.broken ensures Listed(b.table, id.0, id.1) {
      SameNumbers(h.table, b.table, id.0, id.1);
    }
  }

  /** The other pages, their records and their live blocks are what they were. */
  lemma {:induction false} StoredOthers(h: Heap, b: Heap, i: int, page: seq<byte>, free: int, bs: Blocks)
    requires h.Valid() && 0 <= i < |h.table| && b == Stored(h, i, page, free, bs)
    ensures Ordered(b.table) && b.Key(b.table[i]) in b.memory && b.memory[b.Key(b.table[i])] == page
    ensures forall j :: b.Sound(j) && j != i ==> b.PageOk(j)
    ensures forall j, s, z :: j != i ==>
              && (b.Live(j, s, z) <==> h.Live(j, s, z))
              && (h.Live(j, s, z) ==> SameBytes(h, b, j, s, z))
  {
    forall j | b.Sound(j) && j != i
      ensures b.PageOk(j) && b.memory[b.Key(b.table[j])] == h.memory[h.Key(h.table[j])]
    {
      assert h.Sound(j) && h.PageOk(j) && h.Key(h.table[j]) != h.Key(h.table[i]);
    }
    forall j, s, z | j != i && h.Live(j, s, z) ensures SameBytes(h, b, j, s, z) {
      assert b.PageOk(j);
      LiveBounds(h.memory[h.Key(h.table[j])], 0, h.layouts[j], h.pageSize, s, z);
    }
  }

  /** The page of record i has no live blocks any more; those of the other pages and their bytes stay. */
  ghost predicate AllButPage(a: Heap, b: Heap, i: int) {
    && (forall j, s, z :: b.Live(j, s, z) <==> a.Live(j, s, z) && j != i)
    && (forall j, s, z :: b.Live(j, s, z) ==> SameBytes(a, b, j, s, z))
  }

  /** What carving n bytes from the page of record i at off leaves: one live block more if the page has a first
      fit; if it has not, a page that agrees with nothing, and all other pages as they were. */
  ghost predicate Taken(a: Heap, b: Heap, i: int, off: int, n: nat) {
    && 0 <= i < |a.table| == |a.layouts| && 0 <= off && off + HEADER < a.pageSize && b.Valid() && b.InStep()
    && b.table == a.table[i := a.table[i].(free := a.table[i].free - n - HEADER)]
    && b.layouts == a.layouts[i := Carved(a.layouts[i], n)] && b.counters == a.counters && b.gone == a.gone
    && (Fit(a.layouts[i], 0, n) >= 0 ==>
         b.broken == a.broken && off == Fit(a.layouts[i], 0, n) && OneMore(a, b, i, off, n))
    && (Fit(a.layouts[i], 0, n) < 0 ==>
          b.broken == a.broken + {(a.table[i].pid, a.table[i].number)} && off == 0 && b.Broken(i)
            && AllButPage(a, b, i))
  }

  lemma {:induction false} TakenIsFirst(a: Heap, b: Heap, i: int, off: int, n: nat)
    requires Taken(a, b, i, off, n)
    ensures i < |b.layouts| == |a.layouts| && TakenFirst(a.layouts[i], b.layouts[i], off, n)
  {
    TakesFirst(a.layouts[i], off, n);
  }

  lemma {:induction false} CarvedHeap(h: Heap, b: Heap, i: int, n: nat, off: int, page: seq<byte>, pad: seq<byte>,
                                      pad': seq<byte>)
    requires h.Valid() && h.Sound(i) && |pad| == |pad'| == 3
    requires off == Fit(h.layouts[i], 0, n) && 0 <= off && off + HEADER + n + HEADER <= h.pageSize
    requires page == Marked(h.memory[h.Key(h.table[i])], off, n, pad, pad')
    requires b == Stored(h, i, page, h.table[i].free - n - HEADER, Carved(h.layouts[i], n))
    ensures b.Valid() && OneMore(h, b, i, off, n)
  {
    var bs := h.layouts[i];
    StoredOthers(h, b, i, page, h.table[i].free - n - HEADER, Carved(bs, n));
    Allocated(h.memory[h.Key(h.table[i])], page, bs, n, off, pad, pad');
    CarvedLastFree(bs, n);
    CarvedLive(h.memory[h.Key(h.table[i])], page, bs, n);
  }

  lemma {:induction false} MisfitHeap(h: Heap, t: Heap, b: Heap, i: int, n: nat, page: seq<byte>, pad: seq<byte>,
                                      pad': seq<byte>)
    requires h.Valid() && h.Sound(i) && |pad| == |pad'| == 3
    requires Fit(h.layouts[i], 0, n) < 0 && HEADER + n + HEADER <= h.pageSize
          && page == Marked(h.memory[h.Key(h.table[i])], 0, n, pad, pad')
    requires t == Stored(h, i, page, h.table[i].free - n - HEADER, Carved(h.layouts[i], n))
    requires b == t.(broken := t.broken + {(h.table[i].pid, h.table[i].number)})
    ensures b.Valid() && b.Broken(i) && AllButPage(h, b, i)
  {
    MisfitBreaks(h.memory[h.Key(h.table[i])], page, h.layouts[i], n, pad, pad');
    StoredOthers(h, t, i, page, h.table[i].free - n - HEADER, Carved(h.layouts[i], n));
    forall j ensures b.Sound(j) <==> t.Sound(j) && j != i {
    }
    forall j | b.Sound(j) ensures b.PageOk(j) {
      assert t.PageOk(j);
    }
  }

  lemma {:induction false} ListedAt(table: seq<PageRecord>, i: int)
    requires 0 <= i < |table|
    ensures Listed(table, table[i].pid, table[i].number)
  {
    if i < |table| - 1 {
      ListedAt(table[..|table| - 1], i);
    }
  }

  /** Carving the page of record i, with the page noted as broken when nothing fits. */
  function Carving(h: Heap, i: int, n: nat, page: seq<byte>): Heap
    requires 0 <= i < |h.table| == |h.layouts|
  {
    var t := Stored(h, i, page, h.table[i].free - n - HEADER, Carved(h.layouts[i], n));
    if Fit(h.layouts[i], 0, n) >= 0 then t else t.(broken := t.broken + {(h.table[i].pid, h.table[i].number)})
  }

  lemma {:induction false} CarvingInStep(h: Heap, i: int, n: nat, page: seq<byte>)
    requires 0 <= i < |h.table| == |h.layouts| && h.InStep() && h.Key(h.table[i]) in h.memory
    ensures Carving(h, i, n, page).InStep()
  {
    StoredInStep(h, i, page, h.table[i].free - n - HEADER, Carved(h.layouts[i], n));
    ListedAt(Carving(h, i, n, page).table, i);
  }

  lemma {:induction false} TakenHeap(h: Heap, b: Heap, i: int, n: nat, off: int, page: seq<byte>, pad: seq<byte>,
                                     pad': seq<byte>)
    requires h.Valid() && h.InStep() && h.Sound(i) && |pad| == |pad'| == 3
    requires off == (if Fit(h.layouts[i], 0, n) >= 0 then Fit(h.layouts[i], 0, n) else 0)
          && off + HEADER + n + HEADER <= h.pageSize
    requires page == Marked(h.memory[h.Key(h.table[i])], off, n, pad, pad') && b == Carving(h, i, n, page)
    ensures Taken(h, b, i, off, n)
  {
    CarvingInStep(h, i, n, page);
    if Fit(h.layouts[i], 0, n) >= 0 {
      CarvedHeap(h, b, i, n, off, page, pad, pad');
    } else {
      MisfitHeap(h, Stored(h, i, page, h.table[i].free - n - HEADER, Carved(h.layouts[i], n)), b, i, n, page, pad,
           pad');
    }
  }

  // ---- a new page ----

  /** memory_assign_pages for one page, which then holds these bytes, and tabla_heap_agregar_pagina. */
  function Added(h: Heap, pid: int, page: seq<byte>): Heap
    requires h.pageSize >= HEADER
  {
    h.(table := h.table + [PageRecord(pid, NextNumber(h.table, pid), h.pageSize - HEADER)],
       memory := h.memory[(pid, h.Counter(pid)) := page], counters := h.counters[pid := h.Counter(pid) + 1],
       layouts := h.layouts + [Block(h.pageSize - HEADER, true, End)])
  }

  /** No page is mapped under the number the kernel gives the next page. */
  lemma {:induction false} NextIsUnmapped(h: Heap, r: PageRecord)
    requires h.Valid() && h.InStep() && r.pid !in h.gone && r.number == NextNumber(h.table, r.pid)
    ensures h.Key(r) !in h.memory && (r.pid, r.number) !in h.broken && Ordered(h.table + [r])
    ensures forall i :: 0 <= i < |h.table| ==> h.Key(h.table[i]) != h.Key(r)
  {
    NextIsNew(h.table, r.pid);
    if h.Key(r) in h.memory || (r.pid, r.number) in h.broken {
      ListedIsOld(h.table, r.pid, r.number);
    }
  }

  lemma {:induction false} AddedInStep(h: Heap, pid: int, page: seq<byte>)
    requires h.pageSize >= HEADER && h.InStep() && pid !in h.gone
          && h.Counter(pid) == h.code(pid) + NextNumber(h.table, pid)
    ensures Added(h, pid, page).InStep()
  {
    var b := Added(h, pid, page);
    var r := b.table[|h.table|];
    forall q | q !in b.gone ensures b.code(q) + NextNumber(b.table, q) <= b.Counter(q) {
      NextAfterAdd(h.table, r, q);
    }
    forall key | key in b.memory && key.0 !in b.gone ensures Listed(b.table, key.0, key.1 - b.code(key.0)) {
      NextAfterAdd(h.table, r, key.0);
    }
    forall id | id in b.broken ensures Listed(b.table, id.0, id.1) {
      NextAfterAdd(h.table, r, id.0);
    }
  }

  /** When the numbers agree, the new page is the one free block the table says and nothing else changes. */
  lemma {:induction false} AddedHeap(h: Heap, b: Heap, pid: int, page: seq<byte>)
    requires h.Valid() && h.InStep() && pid !in h.gone && |page| == h.pageSize
          && Tiles(page, 0, Block(h.pageSize - HEADER, true, End), h.pageSize)
    requires h.Counter(pid) == h.code(pid) + NextNumber(h.table, pid) && b == Added(h, pid, page)
    ensures b.Valid() && b.Sound(|h.table|)
    ensures forall j :: h.Sound(j) ==>
              b.Key(b.table[j]) in b.memory && b.memory[b.Key(b.table[j])] == h.memory[h.Key(h.table[j])]
  {
    var r := b.table[|h.table|];
    NextIsUnmapped(h, r);
    assert b.PageOk(|h.table|);
    forall j | b.Sound(j) && j < |h.table|
      ensures b.PageOk(j) && b.memory[b.Key(b.table[j])] == h.memory[h.Key(h.table[j])]
    {
      assert h.Sound(j) && h.PageOk(j) && b.table[j] == h.table[j] && b.layouts[j] == h.layouts[j];
    }
  }

  lemma {:induction false} AddedLive(h: Heap, pid: int, page: seq<byte>, j: int, s: int, z: int)
    requires |h.table| == |h.layouts| && h.pageSize >= HEADER
    ensures Added(h, pid, page).Live(j, s, z) <==> h.Live(j, s, z)
  {
    if j == |h.table| {
      assert !IsLive(End, h.pageSize, s, z);
    }
  }

  /** What a new page and its first block leave. */
  ghost predicate TakenNew(a: Heap, c: Heap, pid: int, off: int, n: nat)
    requires a.pageSize >= HEADER
  {
    && off == 0 && c.Valid() && c.InStep() && c.broken == a.broken && c.gone == a.gone
        && OneMore(a, c, |a.table|, off, n)
    && c.table == a.table + [PageRecord(pid, NextNumber(a.table, pid), a.pageSize - HEADER - n - HEADER)]
    && c.layouts == a.layouts + [Carved(Block(a.pageSize - HEADER, true, End), n)]
        && c.Counter(pid) == a.Counter(pid) + 1
  }

  lemma {:induction false} AddedThenTaken(a: Heap, b: Heap, c: Heap, pid: int, page: seq<byte>, off: int, n: nat)
    requires a.Valid() && a.InStep() && pid !in a.gone && |page| == a.pageSize && n <= a.pageSize - 2 * HEADER
    requires a.Counter(pid) == a.code(pid) + NextNumber(a.table, pid) && b == Added(a, pid, page)
    requires Tiles(page, 0, Block(a.pageSize - HEADER, true, End), a.pageSize) && Taken(b, c, |a.table|, off, n)
    ensures TakenNew(a, c, pid, off, n)
  {
    AddedHeap(a, b, pid, page);
    assert Fit(b.layouts[|a.table|], 0, n) == 0;
    forall j, s, z
      ensures b.Live(j, s, z) <==> a.Live(j, s, z)
      ensures a.Live(j, s, z) ==> SameBytes(a, c, j, s, z) && j != |a.table|
    {
      AddedLive(a, pid, page, j, s, z);
      assert a.Live(j, s, z) ==> SameBytes(b, c, j, s, z);
    }
  }

  // ---- releasing a block ----

  lemma {:induction false} ReleasedHeap(h: Heap, b: Heap, i: int, off: int, z: int, page: seq<byte>, bs: Blocks)
    requires h.Valid() && h.Live(i, off, z) && |page| == h.pageSize && bs == AfterRelease(h.layouts[i], off)
    requires Tiles(page, 0, bs, |page|) && b == Stored(h, i, page, FreeBytes(bs), bs)
    requires forall s, y :: IsLive(bs, 0, s, y) <==> IsLive(h.layouts[i], 0, s, y) && s != off
    requires forall s, y :: IsLive(h.layouts[i], 0, s, y) && s != off ==>
              SamePayload(h.memory[h.Key(h.table[i])], page, s, y)
    ensures b.Valid() && OneLess(h, b, i, off)
  {
    StoredOthers(h, b, i, page, FreeBytes(bs), bs);
    ReleasedLastFree(h.layouts[i], 0, off);
    ReleasedLastFree(Freed(h.layouts[i], 0, off), 0, off);
  }

  /** tabla_heap_sacar_pagina and liberar_pagina. */
  function Dropped(h: Heap, i: int): Heap
    requires 0 <= i < |h.table| == |h.layouts|
  {
    h.(table := RemoveAt(h.table, i), layouts := RemoveAt(h.layouts, i), memory := h.memory - {h.Key(h.table[i])})
  }

  lemma {:induction false} DroppedInStep(h: Heap, i: int)
    requires |h.table| == |h.layouts| && h.Sound(i) && h.InStep() && Ordered(h.table)
    ensures Dropped(h, i).InStep()
  {
    var b := Dropped(h, i);
    forall q | q !in b.gone ensures b.code(q) + NextNumber(b.table, q) <= b.Counter(q) {
      NextAfterRelease(h.table, i, q);
    }
    forall key | key in b.memory && key.0 !in b.gone ensures Listed(b.table, key.0, key.1 - b.code(key.0)) {
      ListedAfterRelease(h.table, i, key.0, key.1 - b.code(key.0));
    }
    forall id | id in b.broken ensures Listed(b.table, id.0, id.1) {
      ListedAfterRelease(h.table, i, id.0, id.1);
    }
  }

  /** After a page goes back, kernel and server still agree on the number of the next page exactly when
      they did before and it was not the last page of its process: the server's counter stays. */
  lemma {:induction false} NumbersAgreeIff(h: Heap, i: int, pid: int)
    requires h.Valid() && h.InStep() && 0 <= i < |h.table| && pid !in h.gone
    ensures var b := Dropped(h, i);
            b.Counter(pid) == b.code(pid) + NextNumber(b.table, pid) <==>
            h.Counter(pid) == h.code(pid) + NextNumber(h.table, pid)
              && !(h.table[i].pid == pid && h.table[i].number + 1 == NextNumber(h.table, pid))
  {
    NextAfterRelease(h.table, i, pid);
  }

  lemma {:induction false} DroppedHeap(h: Heap, b: Heap, i: int)
    requires h.Valid() && 0 <= i < |h.table| && b == Dropped(h, i)
    ensures b.Valid()
  {
    forall j | b.Sound(j) ensures b.PageOk(j) {
      var k := if j < i then j else j + 1;
      assert b.table[j] == h.table[k] && h.Sound(k) && h.PageOk(k) && b.layouts[j] == h.layouts[k]
            && h.Key(h.table[k]) != h.Key(h.table[i]);
    }
  }

  /** Dropping a page takes away its last block and nothing else. */
  lemma {:induction false} DroppedStored(h: Heap, b: Heap, i: int, off: int, page: seq<byte>)
    requires 0 <= i < |h.table| == |h.layouts| && OneLess(h, b, i, off)
    requires h.pageSize >= HEADER && b == Stored(h, i, page, h.pageSize - HEADER, Block(h.pageSize - HEADER, true, End))
    ensures Dropped(b, i) == Dropped(h, i) && forall s, y :: h.Live(i, s, y) ==> s == off
  {
    assert Dropped(b, i).memory == Dropped(h, i).memory && Dropped(b, i).table == Dropped(h, i).table
          && Dropped(b, i).layouts == Dropped(h, i).layouts;
    forall s, y | h.Live(i, s, y) ensures s == off {
      assert !IsLive(End, h.pageSize, s, y) && !b.Live(i, s, y);
    }
  }

  /** What OC_FUNCION_LIBERAR leaves of the whole heap. */
  ghost predicate Liberated(a: Heap, c: Heap, i: int, off: int, returned: bool)
    requires 0 <= i < |a.table| == |a.layouts| && a.pageSize >= HEADER
  {
    && c.Valid() && c.InStep()
    && (returned <==> AfterRelease(a.layouts[i], off) == Block(a.pageSize - HEADER, true, End))
    && (!returned ==> c.layouts == a.layouts[i := AfterRelease(a.layouts[i], off)] && OneLess(a, c, i, off))
    && (!returned ==>
         && c.table == a.table[i := a.table[i].(free := FreeBytes(AfterRelease(a.layouts[i], off)))]
         && c.broken == a.broken)
    && (returned ==> c == Dropped(a, i) && forall s, y :: a.Live(i, s, y) ==> s == off)
  }

  lemma {:induction false} LiberatedHeap(a: Heap, b: Heap, c: Heap, i: int, off: int, page: seq<byte>, returned: bool)
    requires 0 <= i < |a.table| == |a.layouts| && a.pageSize >= HEADER && OneLess(a, b, i, off) && c.Valid()
          && c.InStep()
    requires b == Stored(a, i, page, FreeBytes(AfterRelease(a.layouts[i], off)), AfterRelease(a.layouts[i], off))
    requires returned <==> b.layouts[i] == Block(a.pageSize - HEADER, true, End)
    requires c == if returned then Dropped(b, i) else b
    ensures Liberated(a, c, i, off, returned)
  {
    if returned {
      assert FreeBytes(End) == 0;
      DroppedStored(a, b, i, off, page);
    }
  }

  /** What memory_finalize_process leaves. */
  function Finalized(h: Heap, pid: int): Heap {
    h.(memory := Without(h.memory, pid), gone := h.gone + {pid})
  }

  lemma {:induction false} FinalizedHeap(h: Heap, pid: int)
    requires h.Valid() && h.InStep()
    ensures Finalized(h, pid).Valid() && Finalized(h, pid).InStep()
  {
    var b := Finalized(h, pid);
    forall j | b.Sound(j) ensures b.PageOk(j) {
      assert h.Sound(j) && h.PageOk(j);
    }
  }

  // ---- the requests ----

  class HeapManager {
    const pageSize: int
    const code: int -> int
    var table: seq<PageRecord>   // tabla_paginas_heap
    var memory: Memory
    var counters: map<int, int>
    ghost var layouts: seq<Blocks>
    ghost var gone: set<int>
    ghost var broken: set<(int, int)>

    ghost function Now(): Heap
      reads this
    {
      Heap(pageSize, code, table, memory, counters, layouts, gone, broken)
    }

    constructor (pageSize: int, code: int -> int)
      requires 2 * HEADER <= pageSize < Power256(4) / 2
      ensures Now() == Heap(pageSize, code, [], map[], map[], [], {}, {}) && Now().Valid() && Now().InStep()
    {
      this.pageSize, this.code := pageSize, code;
      table, memory, counters, layouts, gone, broken := [], map[], map[], [], {}, {};
    }

    method LoadPage(i: int) returns (page: array<byte>)
      requires Now().Valid() && Now().Sound(i)
      ensures fresh(page) && page[..] == memory[Now().Key(table[i])]
    {
      assert Now().PageOk(i);
      var raw := memory[(table[i].pid, code(table[i].pid) + table[i].number)];
      page := new byte[|raw|](k requires 0 <= k < |raw| => raw[k]);
    }

    method StorePage(i: int, page: array<byte>, free: int, ghost bs: Blocks)
      requires 0 <= i < |table| == |layouts|
      modifies this`table, this`memory, this`layouts
      ensures Now() == Stored(old(Now()), i, page[..], free, bs)
    {
      memory := memory[(table[i].pid, code(table[i].pid) + table[i].number) := page[..]];
      table := table[i := table[i].(free := free)];
      layouts := layouts[i := bs];
    }

    /** The read, carve and write back of OC_FUNCION_RESERVAR on the page of record i. */
    method TakeFrom(i: int, n: nat, pad: seq<byte>, pad': seq<byte>) returns (off: int)
      requires Now().Valid() && Now().InStep() && Now().Sound(i)
      requires table[i].free >= n + HEADER && |pad| == |pad'| == 3
      modifies this`table, this`memory, this`layouts, this`broken
      ensures Taken(old(Now()), Now(), i, off, n)
    {
      ghost var h := Now();
      ghost var page;
      off, page := CarveAndStore(i, n, pad, pad');
      TakenHeap(h, Now(), i, n, off, page, pad, pad');
    }

    method CarveAndStore(i: int, n: nat, pad: seq<byte>, pad': seq<byte>) returns (off: int, ghost stored: seq<byte>)
      requires Now().Valid() && Now().Sound(i) && table[i].free >= n + HEADER && |pad| == |pad'| == 3
      modifies this`table, this`memory, this`layouts, this`broken
      ensures off == if Fit(old(layouts[i]), 0, n) >= 0 then Fit(old(layouts[i]), 0, n) else 0
      ensures 0 <= off && off + HEADER + n + HEADER <= pageSize && Now() == Carving(old(Now()), i, n, stored)
      ensures |old(memory[Now().Key(table[i])])| == pageSize
      ensures stored == Marked(old(memory[Now().Key(table[i])]), off, n, pad, pad')
    {
      ghost var bs := layouts[i];
      assert Now().PageOk(i);
      var page := LoadPage(i);
      off := CarvePage(page, n, pad, pad', bs);
      StorePage(i, page, table[i].free - n - HEADER, Carved(bs, n));
      if Fit(bs, 0, n) < 0 {
        broken := broken + {(table[i].pid, table[i].number)};
      }
      stored := page[..];
    }

    /** The page is there for the kernel exactly when the kernel's number for it is the server's. */
    method AddPage(pid: int, raw: seq<byte>, pad: seq<byte>) returns (ok: bool)
      requires (pid, code(pid) + NextNumber(table, pid)) !in memory && |raw| == pageSize >= HEADER && |pad| == 3
      modifies this`table, this`memory, this`layouts, this`counters
      ensures ok <==> old(Now().Counter(pid)) == code(pid) + NextNumber(old(table), pid)
      ensures ok ==> Now() == Added(old(Now()), pid, Formatted(raw, pad))
    {
      var r := PageRecord(pid, NextNumber(table, pid), pageSize - HEADER);
      var key, page := (pid, code(pid) + r.number), Formatted(raw, pad);
      var counter := if pid in counters then counters[pid] else code(pid);
      memory := memory[(pid, counter) := raw];
      counters := counters[pid := counter + 1];
      table := table + [r];
      layouts := layouts + [Block(pageSize - HEADER, true, End)];
      ok := key in memory;
      if ok {
        memory := memory[key := page];
        assert memory == old(memory)[(pid, counter) := page];
      }
    }

    /** A new page and its first block; not ok when the kernel then uses a page that is not there. */
    method TakeFromNew(pid: int, n: nat, raw: seq<byte>, pad: seq<byte>, pad': seq<byte>) returns (ok: bool, off: int)
      requires Now().Valid() && Now().InStep() && pid !in gone && |raw| == pageSize && |pad| == |pad'| == 3
      modifies this`table, this`memory, this`layouts, this`counters, this`broken
      ensures ok <==> n <= pageSize - 2 * HEADER && old(Now().Counter(pid)) == code(pid) + NextNumber(old(table), pid)
      ensures ok ==> TakenNew(old(Now()), Now(), pid, off, n)
    {
      ghost var h := Now();
      var at := |table|;
      NextIsUnmapped(h, PageRecord(pid, NextNumber(table, pid), 0));
      ok := AddPage(pid, raw, pad);
      off := 0;
      if ok && n <= pageSize - 2 * HEADER {
        ghost var b := Now();
        FormattedTiles(raw, pad);
        AddedHeap(h, b, pid, Formatted(raw, pad));
        AddedInStep(h, pid, Formatted(raw, pad));
        off := TakeFrom(at, n, pad, pad');
        AddedThenTaken(h, b, Now(), pid, Formatted(raw, pad), off, n);
      } else {
        ok := false;
      }
    }

    /** memory_finalize_process */
    method Finalize(pid: int)
      requires Now().Valid() && Now().InStep()
      modifies this`memory, this`gone
      ensures Now() == Finalized(old(Now()), pid) && Now().Valid() && Now().InStep()
    {
      FinalizedHeap(Now(), pid);
      memory := Without(memory, pid);
      gone := gone + {pid};
    }

    /** OC_FUNCION_RESERVAR: a request for n bytes, with the memory server's answer (grant, over a frame
        that holds raw) should a page be needed. i and off say where the block is. */
    method Reserve(pid: int, n: int, grant: bool, raw: seq<byte>, pad: seq<byte>, pad': seq<byte>)
      returns (r: Reserved, ghost i: int, ghost off: int)
      requires Now().Valid() && Now().InStep() && pid !in gone && |raw| == pageSize && |pad| == |pad'| == 3
            && code(pid) >= 0
      requires Roomy(table, pid, n) < |table| ==> Now().Sound(Roomy(table, pid, n))
      modifies this`table, this`memory, this`layouts, this`counters, this`gone, this`broken
      ensures i == Roomy(old(table), pid, n) && 0 <= i <= |old(table)|
      ensures forall j :: 0 <= j < i && old(table)[j].pid == pid ==> old(table)[j].free < n + 8
      ensures i < |old(table)| ==> old(table)[i].pid == pid && old(table)[i].free >= n + 8
      ensures r.TooBig? <==> n < 0 || n > pageSize - HEADER
      ensures r.NoMemory? <==> !r.TooBig? && i == |old(table)| && !grant
      ensures r.Crashed? <==> (
                && !r.TooBig? && i == |old(table)| && grant
                && (n > pageSize - 2 * HEADER || old(Now().Counter(pid)) != code(pid) + NextNumber(old(table), pid)))
      ensures r.TooBig? || r.NoMemory? ==> Now().Valid() && Now().InStep()
      ensures r.TooBig? || r.NoMemory? ==> Now() == Finalized(old(Now()), pid)
      ensures r.Pointer? ==> Now().Valid() && Now().InStep() && gone == old(gone) && i < |table| && table[i].pid == pid
      ensures r.Pointer? ==> r.address == off + 8 + pageSize * (table[i].number + code(pid))
      ensures r.Pointer? && i < |old(table)| ==>
                i < |old(layouts)| == |layouts| && TakenFirst(old(layouts)[i], layouts[i], off, n)
      ensures r.Pointer? ==> r.address / pageSize - code(pid) == table[i].number && r.address % pageSize - HEADER == off
      ensures r.Pointer? && i == |old(table)| ==> TakenNew(old(Now()), Now(), pid, off, n)
      ensures r.Pointer? && i < |old(table)| ==> Taken(old(Now()), Now(), i, off, n)
    {
      ghost var h := Now();
      var at := Roomy(table, pid, n);
      i, off := at, 0;
      if n < 0 || n > pageSize - HEADER {
        Finalize(pid);
        return TooBig, i, off;
      }
      var block;
      NextIsNew(table, pid);
      if at < |table| {
        block := TakeFrom(at, n, pad, pad');
      } else if !grant {
        Finalize(pid);
        return NoMemory, i, off;
      } else {
        var ok;
        ok, block := TakeFromNew(pid, n, raw, pad, pad');
        if !ok {
          return Crashed, i, off;
        }
      }
      PointerRoundTrip(block, table[at].number, code(pid), pageSize);
      AddressOf(block, table[at].number, code(pid), pageSize);
      if at < |old(table)| {
        TakenIsFirst(h, Now(), at, block, n);
      }
      return Pointer(Address(block, table[at].number, code(pid), pageSize)), i, block;
    }

    /** The work of OC_FUNCION_LIBERAR on the page of record i. */
    method ReleaseIn(i: int, off: int, ghost z: int, pad: seq<byte>, pad': seq<byte>) returns (ghost stored: seq<byte>)
      requires Now().Valid() && Now().InStep() && Now().Live(i, off, z) && |pad| == |pad'| == 3
      modifies this`table, this`memory, this`layouts
      ensures Now().Valid() && Now().InStep() && OneLess(old(Now()), Now(), i, off)
      ensures Now() == Stored(old(Now()), i, stored, FreeBytes(AfterRelease(old(layouts[i]), off)),
           AfterRelease(old(layouts[i]), off))
    {
      ghost var h, bs := Now(), AfterRelease(layouts[i], off);
      var page := LoadPage(i);
      var gain := ReleasePage(page, off, z, pad, pad', layouts[i]);
      stored := page[..];
      StorePage(i, page, table[i].free + gain, bs);
      StoredInStep(h, i, stored, FreeBytes(bs), bs);
      ReleasedHeap(h, Now(), i, off, z, stored, bs);
    }

    /** The page and header that an address stands for. */
    method Locate(pid: int, address: int, ghost i: int, ghost off: int, ghost z: int) returns (k: int, at: int)
      requires Now().Valid() && Now().Live(i, off, z) && table[i].pid == pid && code(pid) >= 0
      requires address == Address(off, table[i].number, code(pid), pageSize)
      ensures k == i && at == off
    {
      assert Now().PageOk(i);
      LiveHasNext(memory[Now().Key(table[i])], 0, layouts[i], pageSize, off, z);
      PointerRoundTrip(off, table[i].number, code(pid), pageSize);
      k, at := At(table, pid, address / pageSize - code(pid)), address % pageSize - HEADER;
    }

    /** The rest of OC_FUNCION_LIBERAR: a page found empty is given back. */
    method DropIfEmpty(i: int) returns (returned: bool)
      requires Now().Valid() && Now().InStep() && Now().Sound(i)
      modifies this`table, this`memory, this`layouts
      ensures Now().Valid() && Now().InStep()
      ensures returned <==> old(layouts[i]) == Block(pageSize - HEADER, true, End)
      ensures Now() == if returned then Dropped(old(Now()), i) else old(Now())
    {
      assert Now().PageOk(i);
      EmptyIff(memory[Now().Key(table[i])], layouts[i]);
      returned := table[i].free == pageSize - HEADER;
      if returned {
        DropPage(i);
      }
    }

    method DropPage(i: int)
      requires Now().Valid() && Now().InStep() && Now().Sound(i)
      modifies this`table, this`memory, this`layouts
      ensures Now() == Dropped(old(Now()), i) && Now().Valid() && Now().InStep()
    {
      ghost var h := Now();
      memory := memory - {(table[i].pid, code(table[i].pid) + table[i].number)};
      table := RemoveAt(table, i);
      layouts := RemoveAt(layouts, i);
      DroppedHeap(h, Now(), i);
      DroppedInStep(h, i);
    }

    /** OC_FUNCION_LIBERAR for an address that Reserve gave out and that is still in use. */
    method Liberate(pid: int, address: int, ghost i: int, ghost off: int, ghost z: int, pad: seq<byte>,
                    pad': seq<byte>) returns (returned: bool)
      requires Now().Valid() && Now().InStep() && Now().Live(i, off, z) && table[i].pid == pid && code(pid) >= 0
            && |pad| == |pad'| == 3
      requires address == Address(off, table[i].number, code(pid), pageSize)
      modifies this`table, this`memory, this`layouts
      ensures Liberated(old(Now()), Now(), i, off, returned)
      ensures !returned ==> i < |layouts| && GivenBack(old(layouts)[i], layouts[i], off, z)
      ensures returned ==> GivenBack(old(layouts)[i], Block(pageSize - 8, true, End), off, z)
    {
      ghost var h := Now();
      GivesBack(layouts[i], off, z);
      var k, at := Locate(pid, address, i, off, z);
      ghost var stored := ReleaseIn(k, at, z, pad, pad');
      ghost var b := Now();
      returned := DropIfEmpty(k);
      LiberatedHeap(h, b, Now(), i, off, stored, returned);
    }
  }
}
