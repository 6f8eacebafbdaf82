/**
 A program's code on its way through the memory server: the kernel writes it page by page
 (kernel/src/solicitudes.c, mandar_codigo_a_memoria) and a CPU fetches an instruction with one
 read, or two when it continues on the next page (cpu/src/cpu.c). pages holds the pages of the
 process, code pages first and stack pages after them.
 */
module CodeFetch {
  import opened Arithmetic
  import opened Bytes

  type Pages = seq<seq<byte>>

  /** calcular_paginas_de_codigo */
  function CodePages(length: nat, pageSize: nat): (n: nat)
    requires pageSize > 0
    ensures (n - 1) * pageSize < length <= n * pageSize || (length == 0 && n == 0)
  {
    var n := length / pageSize;
    DivMul(length, pageSize);
    if n * pageSize < length then
      assert (n + 1) * pageSize == n * pageSize + pageSize && (n + 1 - 1) * pageSize == n * pageSize;
      n + 1
    else
      assert (n - 1) * pageSize == n * pageSize - pageSize;
      n
  }

  lemma {:induction false} DivMul(x: nat, d: nat)
    requires d > 0
    ensures x / d >= 0 && (x / d) * d <= x < (x / d) * d + d
  {
    assert x == (x / d) * d + x % d;
  }

  /** Every page has the size of a page. */
  ghost predicate PagesOk(pages: Pages, pageSize: nat) {
    pageSize > 0 && forall i :: 0 <= i < |pages| ==> |pages[i]| == pageSize
  }

  /** Byte k of the pages in a row. */
  function ByteAt(pages: Pages, pageSize: nat, k: nat): byte
    requires PagesOk(pages, pageSize) && k / pageSize < |pages|
  {
    pages[k / pageSize][k % pageSize]
  }

  /** The first n bytes of code are in the pages from the first on. */
  ghost predicate Loaded(pages: Pages, pageSize: nat, code: seq<byte>, n: nat) {
    PagesOk(pages, pageSize) && n <= |code|
      && forall k :: 0 <= k < n ==> k / pageSize < |pages| && ByteAt(pages, pageSize, k) == code[k]
  }

  /** The page of a byte and its place there. */
  lemma {:induction false} Where(i: nat, k: nat, pageSize: nat)
    requires pageSize > 0
    ensures i * pageSize <= k < i * pageSize + pageSize ==> k / pageSize == i && k % pageSize == k - i * pageSize
    ensures k < i * pageSize ==> k / pageSize < i
  {
    if i * pageSize <= k < i * pageSize + pageSize {
      DivMod(i, k - i * pageSize, pageSize);
    } else if k < i * pageSize && k / pageSize >= i {
      DivMul(k, pageSize);
      Scaled(i, k / pageSize, pageSize);
    }
  }

  /** One page of code more. */
  lemma {:induction false} LoadPage(pages: Pages, pages': Pages, pageSize: nat, code: seq<byte>, i: nat, at: nat,
                                    size: nat)
    requires at == i * pageSize && Loaded(pages, pageSize, code, at) && i < |pages| && size <= pageSize
          && at + size <= |code|
    requires pages' == pages[i := Splice(pages[i], 0, code[at..at + size])]
    ensures Loaded(pages', pageSize, code, at + size)
  {
    forall k: nat | k < at + size ensures k / pageSize < |pages'| && ByteAt(pages', pageSize, k) == code[k] {
      Where(i, k, pageSize);
      if k < at {
        OldByte(pages, pages', pageSize, i, k);
      } else {
        assert code[at..at + size][k - at] == code[k];
        NewByte(pages', pageSize, i, at, k);
      }
    }
  }

  lemma {:induction false} OldByte(pages: Pages, pages': Pages, pageSize: nat, i: nat, k: nat)
    requires PagesOk(pages, pageSize) && PagesOk(pages', pageSize) && |pages'| == |pages| && k / pageSize < i < |pages|
    requires forall j :: 0 <= j < i ==> pages'[j] == pages[j]
    ensures ByteAt(pages', pageSize, k) == ByteAt(pages, pageSize, k)
  {
  }

  lemma {:induction false} NewByte(pages: Pages, pageSize: nat, i: nat, at: nat, k: nat)
    requires PagesOk(pages, pageSize) && i < |pages| && at <= k < at + pageSize && k / pageSize == i
          && k % pageSize == k - at
    ensures ByteAt(pages, pageSize, k) == pages[i][k - at]
  {
  }

  /** memory_write of the next bytes of the code at the start of page i. */
  method WriteCode(pages: Pages, pageSize: nat, code: seq<byte>, i: nat, at: nat, size: nat) returns (pages': Pages)
    requires at == i * pageSize && Loaded(pages, pageSize, code, at) && i < |pages| && size <= pageSize
          && at + size <= |code|
    ensures |pages'| == |pages| && Loaded(pages', pageSize, code, at + size)
          && forall j :: 0 <= j < |pages| && j != i ==> pages'[j] == pages[j]
    ensures size <= |pages[i]| == |pages'[i]| && pages'[i][size..] == pages[i][size..]
  {
    pages' := pages[i := Splice(pages[i], 0, code[at..at + size])];
    LoadPage(pages, pages', pageSize, code, i, at, size);
  }

  /** mandar_codigo_a_memoria: one write for each code page; afterwards the pages hold the code, and only
      the code pages have changed. */
  method Load(pages: Pages, pageSize: nat, code: seq<byte>)
      returns (pages': Pages, writes: nat, ghost last: nat)
    requires PagesOk(pages, pageSize) && CodePages(|code|, pageSize) <= |pages|
    ensures |pages'| == |pages| && Loaded(pages', pageSize, code, |code|) && writes == CodePages(|code|, pageSize)
    ensures forall j :: CodePages(|code|, pageSize) <= j < |pages| ==> pages'[j] == pages[j]
    ensures writes > 0 ==>
              && last <= |pages'[writes - 1]| == |pages[writes - 1]| && (writes - 1) * pageSize + last == |code|
              && pages'[writes - 1][last..] == pages[writes - 1][last..]
  {
    pages' := pages;
    var i, offset, left := 0, 0, |code|;
    while left > pageSize
      invariant 0 <= left && offset + left == |code| && offset == i * pageSize && 0 <= i
      invariant |pages'| == |pages| && Loaded(pages', pageSize, code, offset)
      invariant forall j :: i <= j < |pages| ==> pages'[j] == pages[j]
      invariant left == 0 ==> code == []
      decreases left
    {
      Beyond(i, left, |code|, pageSize);
      pages' := WriteCode(pages', pageSize, code, i, offset, pageSize);
      NextPage(i, pageSize);
      offset, left, i := offset + pageSize, left - pageSize, i + 1;
    }
    if left > 0 {
      Beyond(i, left, |code|, pageSize);
      pages' := WriteCode(pages', pageSize, code, i, offset, left);
      i := i + 1;
    }
    Exactly(i, left, |code|, pageSize);
    writes, last := i, left;
  }

  /** The code is in the pages byte after byte. */
  lemma {:induction false} LoadedInOrder(pages: Pages, pageSize: nat, code: seq<byte>, k: nat)
    requires Loaded(pages, pageSize, code, |code|) && k < |code|
    ensures k / pageSize < |pages| && k % pageSize < |pages[k / pageSize]|
    ensures pages[k / pageSize][k % pageSize] == code[k]
  {
    assert ByteAt(pages, pageSize, k) == code[k];
  }

  lemma {:induction false} NextPage(i: nat, pageSize: nat)
    ensures (i + 1) * pageSize == i * pageSize + pageSize
  {
  }

  /** While code is left the current page is a code page. */
  lemma {:induction false} Beyond(i: nat, left: nat, length: nat, pageSize: nat)
    requires pageSize > 0 && left > 0 && i * pageSize + left == length
    ensures i < CodePages(length, pageSize)
  {
    var n := CodePages(length, pageSize);
    if n <= i {
      Scaled(n, i, pageSize);
    }
  }

  lemma {:induction false} Exactly(i: nat, left: nat, length: nat, pageSize: nat)
    requires pageSize > 0 && left <= pageSize
    requires if left > 0 then i > 0 && (i - 1) * pageSize + left == length else i == 0 && length == 0
    ensures i == CodePages(length, pageSize)
  {
    var n := CodePages(length, pageSize);
    if left > 0 {
      Beyond(i - 1, left, length, pageSize);
      if i < n {
        assert i * pageSize == (i - 1) * pageSize + pageSize;
        Scaled(i, n - 1, pageSize);
      }
    }
  }

  // ---- fetching ----

  /** The reads for an instruction of size bytes at offset: their page, place and length. */
  datatype Reads = Reads(page: int, at: int, first: int, second: int, rest: int)

  function PlanReads(offset: nat, size: nat, pageSize: nat): Reads
    requires pageSize > 0
  {
    var page := offset / pageSize;
    var last := (offset + size) / pageSize;
    var first := if page < last then (page + 1) * pageSize - offset else size;
    Reads(page, offset - page * pageSize, first, last, if page < last then size - first else 0)
  }

  /** Each read stays in its page and they cover the bytes of the instruction in order. */
  ghost predicate Covers(r: Reads, offset: nat, size: nat, pageSize: nat) {
    && 0 <= r.page && 0 <= r.at && 0 <= r.second && 0 <= r.first && 0 <= r.rest && r.first + r.rest == size
    && r.page * pageSize + r.at == offset && r.at + r.first <= pageSize
    && (r.rest > 0 ==> r.second * pageSize == offset + r.first && r.rest <= pageSize)
  }

  /** One or two reads are enough exactly when the instruction ends before the end of the next page;
      one of at most a page always does. */
  lemma {:induction false} CoversIff(offset: nat, size: nat, pageSize: nat)
    requires pageSize > 0
    ensures Covers(PlanReads(offset, size, pageSize), offset, size, pageSize) <==>
              offset % pageSize + size < 2 * pageSize
    ensures size <= pageSize ==> offset % pageSize + size < 2 * pageSize
  {
    LastPage(offset, size, pageSize);
    DivMul(offset, pageSize);
    DivMul(offset + size, pageSize);
    assert offset == (offset / pageSize) * pageSize + offset % pageSize;
    CoversCases(offset, size, pageSize, offset / pageSize, offset % pageSize, (offset + size) / pageSize,
         PlanReads(offset, size, pageSize));
  }

  lemma {:induction false} CoversCases(offset: nat, size: nat, pageSize: nat, page: nat, o: nat, last: nat, r: Reads)
    requires pageSize > 0 && offset == page * pageSize + o && o < pageSize
    requires r == Reads(page, offset - page * pageSize,
                        if page < last then (page + 1) * pageSize - offset else size, last,
                        if page < last then size - ((page + 1) * pageSize - offset) else 0)
    requires o + size < pageSize ==> last == page
    requires pageSize <= o + size < 2 * pageSize ==> last == page + 1
    requires o + size >= 2 * pageSize ==> last >= page + 2
    ensures Covers(r, offset, size, pageSize) <==> o + size < 2 * pageSize
  {
    var base := page * pageSize;
    assert (page + 1) * pageSize == base + pageSize && (page + 2) * pageSize == base + 2 * pageSize;
    if o + size >= 2 * pageSize {
      Scaled(page + 2, last, pageSize);
    }
  }

  /** The page on which the source thinks the instruction ends. */
  lemma {:induction false} LastPage(offset: nat, size: nat, pageSize: nat)
    requires pageSize > 0
    ensures var page, o, last := offset / pageSize, offset % pageSize, (offset + size) / pageSize;
            && (o + size < pageSize ==> last == page)
            && (pageSize <= o + size < 2 * pageSize ==> last == page + 1)
            && (o + size >= 2 * pageSize ==> last >= page + 2)
  {
    assert offset == (offset / pageSize) * pageSize + offset % pageSize;
    PageAfter(offset / pageSize, offset + size, (offset / pageSize) * pageSize, pageSize);
  }

  lemma {:induction false} PageAfter(page: nat, end: nat, base: nat, pageSize: nat)
    requires pageSize > 0 && base == page * pageSize <= end
    ensures end < base + pageSize ==> end / pageSize == page
    ensures base + pageSize <= end < base + 2 * pageSize ==> end / pageSize == page + 1
    ensures end >= base + 2 * pageSize ==> end / pageSize >= page + 2
  {
    assert (page + 1) * pageSize == base + pageSize;
    Where(page, end, pageSize);
    Where(page + 1, end, pageSize);
    if end >= base + 2 * pageSize && end / pageSize < page + 2 {
      DivMul(end, pageSize);
      Scaled(end / pageSize, page + 1, pageSize);
    }
  }

  /** memory_read within a page; nothing is read of a page for no bytes. */
  function ReadPage(pages: Pages, pageSize: nat, page: nat, at: nat, size: nat): (r: seq<byte>)
    requires PagesOk(pages, pageSize) && (size > 0 ==> page < |pages| && at + size <= pageSize)
    ensures |r| == size
  {
    if size == 0 then [] else pages[page][at..at + size]
  }

  lemma {:induction false} ReadIsCode(pages: Pages, pageSize: nat, code: seq<byte>, page: nat, base: nat, at: nat,
                                      size: nat)
    requires Loaded(pages, pageSize, code, |code|) && at + size <= pageSize && base == page * pageSize
          && base + at + size <= |code|
    ensures size > 0 ==> page < |pages|
    ensures ReadPage(pages, pageSize, page, at, size) == code[base + at..base + at + size]
  {
    forall k: nat | base + at <= k < base + at + size ensures page < |pages| && pages[page][k - base] == code[k] {
      Where(page, k, pageSize);
      assert ByteAt(pages, pageSize, k) == code[k];
    }
    if size > 0 {
      Where(page, base + at, pageSize);
      assert ByteAt(pages, pageSize, base + at) == code[base + at];
    }
  }

  /** The fetch of an instruction gives exactly its bytes of the code that was loaded. */
  method Fetch(pages: Pages, pageSize: nat, offset: nat, size: nat, ghost code: seq<byte>)
      returns (instruction: seq<byte>)
    requires Loaded(pages, pageSize, code, |code|) && offset + size <= |code| && offset % pageSize + size < 2 * pageSize
    ensures instruction == code[offset..offset + size]
  {
    CoversIff(offset, size, pageSize);
    var r := PlanReads(offset, size, pageSize);
    ReadIsCode(pages, pageSize, code, r.page, r.page * pageSize, r.at, r.first);
    instruction := ReadPage(pages, pageSize, r.page, r.at, r.first);
    if r.page < r.second {
      if r.rest > 0 {
        ReadIsCode(pages, pageSize, code, r.second, r.second * pageSize, 0, r.rest);
      }
      var more := ReadPage(pages, pageSize, r.second, 0, r.rest);
      instruction := instruction + more;
    }
  }
}
