/**
 The memory server (memoria/src/memoria.c): requests served by the inverted page
 table, the frames and the cache together, against a flat memory that is just a map
 from (pid, page) to a segment and bytes.

 Requests name processes by pids from 1, as the kernel numbers them: pid 0 and -1 mark
 available and reserved frames.
 */
module MemoryServer {
  import opened Arithmetic
  import opened Lists
  import opened Records
  import opened Bytes
  import opened PageTable
  import opened PageCache

  const EXIT_SUCCESS := 0
  const OUT_OF_FRAME := -204
  const PAGE_FAULT := -205
  const SEGMENTATION_FAULT := -206

  type Key = (int, int)
  datatype Page = Page(segment: char, bytes: seq<byte>)
  type Pages = map<Key, Page>

  // ---- the frames as a flat memory ----

  lemma {:induction false} FrameBounds(f: int, g: int, n: int, frameSize: nat)
    requires 0 <= f < n && 0 <= g < n
    ensures 0 <= f * frameSize <= (f + 1) * frameSize <= n * frameSize
    ensures f < g ==> (f + 1) * frameSize <= g * frameSize
    ensures (f + 1) * frameSize == f * frameSize + frameSize
  {
    assert (f + 1) * frameSize == f * frameSize + frameSize;
    Scaled(f, f + 1, frameSize);
    Scaled(f + 1, n, frameSize);
    if f < g {
      Scaled(f + 1, g, frameSize);
    }
  }

  /** The bytes of frame f in a memory of n frames. */
  function FrameBytes(memory: seq<byte>, n: int, frameSize: nat, f: int): (bytes: seq<byte>)
    requires |memory| == n * frameSize && 0 <= f < n
    ensures |bytes| == frameSize
  {
    FrameBounds(f, f, n, frameSize);
    memory[f * frameSize..f * frameSize + frameSize]
  }

  /** A copy inside one of two parts that do not overlap. */
  lemma {:induction false} PartSplice(memory: seq<byte>, base: int, size: nat, offset: int, data: seq<byte>, from: int)
    requires 0 <= base && base + size <= |memory| && 0 <= from && from + size <= |memory|
    requires 0 <= offset && offset + |data| <= size
    requires from == base || from + size <= base || base + size <= from
    ensures Splice(memory, base + offset, data)[from..from + size]
         == if from == base then Splice(memory[base..base + size], offset, data) else memory[from..from + size]
  {
  }

  /** A copy into one frame changes that frame as the same copy changes its bytes, and no other frame. */
  lemma {:induction false} FrameSplice(memory: seq<byte>, n: int, frameSize: nat, f: int, offset: int, data: seq<byte>,
                                       g: int)
    requires |memory| == n * frameSize && 0 <= f < n && 0 <= g < n
    requires 0 <= offset && offset + |data| <= frameSize
    ensures f * frameSize + offset + |data| <= |memory| && 0 <= f * frameSize
    ensures FrameBytes(Splice(memory, f * frameSize + offset, data), n, frameSize, g)
         == if g == f then Splice(FrameBytes(memory, n, frameSize, f), offset, data)
            else FrameBytes(memory, n, frameSize, g)
  {
    FrameBounds(f, g, n, frameSize);
    FrameBounds(g, f, n, frameSize);
    PartSplice(memory, f * frameSize, frameSize, offset, data, g * frameSize);
    if f != g && f * frameSize == g * frameSize {
      assert frameSize == 0;
    }
  }

  ghost predicate MappedBelow(regs: seq<Reg>, n: nat, key: Key) {
    key.0 >= 1 && exists f :: f < n && PageIsRight(regs, f, key.0, key.1)
  }

  /** The pages held by the first n frames. */
  ghost function KeysBelow(regs: seq<Reg>, n: nat): set<Key>
    requires n <= |regs|
  {
    if n == 0 then {}
    else if Mapped(regs, n - 1) then KeysBelow(regs, n - 1) + {(regs[n - 1].pid, regs[n - 1].page)}
    else KeysBelow(regs, n - 1)
  }

  lemma {:induction false} KeysBelowIff(regs: seq<Reg>, n: nat, key: Key)
    requires n <= |regs|
    ensures key in KeysBelow(regs, n) <==> MappedBelow(regs, n, key)
  {
    if n > 0 {
      KeysBelowIff(regs, n - 1, key);
      if key == (regs[n - 1].pid, regs[n - 1].page) {
        assert PageIsRight(regs, n - 1, key.0, key.1);
      }
    }
  }

  ghost function MappedKeys(regs: seq<Reg>): (keys: set<Key>)
    ensures forall key :: key in keys <==> key.0 >= 1 && IsMapped(regs, key.0, key.1)
  {
    assert forall key: Key :: key in KeysBelow(regs, |regs|) <==> key.0 >= 1 && IsMapped(regs, key.0, key.1) by {
      forall key: Key ensures key in KeysBelow(regs, |regs|) <==> key.0 >= 1 && IsMapped(regs, key.0, key.1) {
        KeysBelowIff(regs, |regs|, key);
      }
    }
    KeysBelow(regs, |regs|)
  }

  ghost function FrameOf(regs: seq<Reg>, key: Key): (f: int)
    requires key in MappedKeys(regs)
    ensures PageIsRight(regs, f, key.0, key.1)
  {
    var f :| PageIsRight(regs, f, key.0, key.1); f
  }

  /** The flat memory that the registers and the frames stand for. */
  ghost function Contents(regs: seq<Reg>, memory: seq<byte>, frameSize: nat): (pages: Pages)
    requires |memory| == |regs| * frameSize
    ensures forall key :: key in pages <==> key.0 >= 1 && IsMapped(regs, key.0, key.1)
  {
    map key | key in MappedKeys(regs) ::
      var f := FrameOf(regs, key);
      Page(regs[f].segment, FrameBytes(memory, |regs|, frameSize, f))
  }

  lemma {:induction false} ContentsAt(regs: seq<Reg>, memory: seq<byte>, frameSize: nat, f: int)
    requires Unique(regs) && |memory| == |regs| * frameSize && Mapped(regs, f)
    ensures var key := (regs[f].pid, regs[f].page);
            key in Contents(regs, memory, frameSize)
            && Contents(regs, memory, frameSize)[key] == Page(regs[f].segment, FrameBytes(memory, |regs|, frameSize, f))
  {
    assert PageIsRight(regs, f, regs[f].pid, regs[f].page);
    assert FrameOf(regs, (regs[f].pid, regs[f].page)) == f;
  }

  /** A write into the frame of a page is a write into that page of the flat memory. */
  lemma {:induction false} ContentsAfterWrite(regs: seq<Reg>, memory: seq<byte>, frameSize: nat, f: int, pos: int,
                                              offset: int, data: seq<byte>, pages: Pages, key: Key)
    requires Unique(regs) && |memory| == |regs| * frameSize && Mapped(regs, f)
    requires 0 <= offset && offset + |data| <= frameSize
    requires pages == Contents(regs, memory, frameSize) && key == (regs[f].pid, regs[f].page)
    requires pos == f * frameSize + offset
    ensures 0 <= pos && pos + |data| <= |memory|
    ensures key in pages && |pages[key].bytes| == frameSize
    ensures Contents(regs, Splice(memory, pos, data), frameSize) == Written(pages, key, offset, data)
  {
    FrameSplice(memory, |regs|, frameSize, f, offset, data, f);
    ContentsAt(regs, memory, frameSize, f);
    var memory' := Splice(memory, pos, data);
    forall k | k in pages
      ensures Contents(regs, memory', frameSize)[k]
           == if k == key then Page(pages[key].segment, Splice(pages[key].bytes, offset, data)) else pages[k]
    {
      var g := FrameOf(regs, k);
      ContentsAt(regs, memory, frameSize, g);
      ContentsAt(regs, memory', frameSize, g);
      FrameSplice(memory, |regs|, frameSize, f, offset, data, g);
    }
  }

  /** Page k belongs to what is given back: one page of a process, or all of them. */
  predicate Goes(k: Key, pid: int, page: int, whole: bool) {
    k.0 == pid && (whole || k.1 == page)
  }

  ghost function Without(pages: Pages, pid: int, page: int, whole: bool): Pages {
    map k | k in pages && !Goes(k, pid, page, whole) :: pages[k]
  }

  lemma {:induction false} ContentsAfterRelease(regs: seq<Reg>, regs': seq<Reg>, memory: seq<byte>, frameSize: nat,
                                                pid: int, page: int, whole: bool)
    requires Unique(regs) && Unique(regs') && |regs| == |regs'| && |memory| == |regs| * frameSize && pid >= 1
    requires forall f :: 0 <= f < |regs| ==>
               regs'[f] == if Goes((regs[f].pid, regs[f].page), pid, page, whole) then AVAILABLE else regs[f]
    ensures Contents(regs', memory, frameSize) == Without(Contents(regs, memory, frameSize), pid, page, whole)
  {
    var pages, pages' := Contents(regs, memory, frameSize), Contents(regs', memory, frameSize);
    forall k | k in pages' ensures k in pages && !Goes(k, pid, page, whole) && pages'[k] == pages[k] {
      var f := FrameOf(regs', k);
      ContentsAt(regs', memory, frameSize, f);
      ContentsAt(regs, memory, frameSize, f);
    }
    forall k | k in pages && !Goes(k, pid, page, whole) ensures k in pages' {
      ContentsAt(regs', memory, frameSize, FrameOf(regs, k));
    }
  }

  lemma {:induction false} NothingMapped(regs: seq<Reg>, memory: seq<byte>, frameSize: nat)
    requires |memory| == |regs| * frameSize && forall f :: 0 <= f < |regs| ==> !Mapped(regs, f)
    ensures Contents(regs, memory, frameSize) == map[]
  {
    forall key: Key ensures !(key.0 >= 1 && IsMapped(regs, key.0, key.1)) {
      forall f ensures !(key.0 >= 1 && PageIsRight(regs, f, key.0, key.1)) {
        assert 0 <= f < |regs| ==> !Mapped(regs, f);
      }
    }
  }

  lemma {:induction false} PagesCounted(regs: seq<Reg>, memory: seq<byte>, frameSize: nat)
    requires |memory| == |regs| * frameSize
    ensures |Contents(regs, memory, frameSize)| == |MappedKeys(regs)|
  {
    assert Contents(regs, memory, frameSize).Keys == MappedKeys(regs);
  }

  /** Pages granted by the table appear in the flat memory beside the pages already there. */
  lemma {:induction false} ContentsAfterGrant(regs: seq<Reg>, free: seq<int>, regs': seq<Reg>, memory: seq<byte>,
                                              frameSize: nat, q: PageTable.Request, first: int)
    requires Unique(regs) && Unique(regs') && |memory| == |regs| * frameSize && q.pid >= 1
    requires forall f :: f in free ==> !Mapped(regs, f)
    requires Granted(regs, free, regs', q, first, q.pages)
    requires forall k :: first <= k ==> !IsMapped(regs, q.pid, k)
    ensures Added(Contents(regs, memory, frameSize), Contents(regs', memory, frameSize), q, first, frameSize)
  {
    var pages, pages' := Contents(regs, memory, frameSize), Contents(regs', memory, frameSize);
    forall key | key in pages ensures key in pages' && pages'[key] == pages[key] {
      var f := FrameOf(regs, key);
      assert Mapped(regs, f) && regs'[f] == regs[f];
      ContentsAt(regs, memory, frameSize, f);
      ContentsAt(regs', memory, frameSize, f);
    }
    forall key | key in pages' && key !in pages
      ensures key.0 == q.pid && first <= key.1 < first + q.pages && pages'[key].segment == q.Segment(key.1 - first)
    {
      var f := FrameOf(regs', key);
      assert regs'[f] != regs[f] by {
        if regs'[f] == regs[f] {
          ContentsAt(regs, memory, frameSize, f);
        }
      }
    }
    forall k | first <= k < first + q.pages ensures (q.pid, k) in pages' && (q.pid, k) !in pages {
      assert IsMapped(regs', q.pid, k);
    }
  }

  /** pages' is pages with the pages of a request, numbered from first, beside them. */
  ghost predicate Added(pages: Pages, pages': Pages, q: PageTable.Request, first: int, frameSize: nat) {
    && (forall key :: key in pages ==> key in pages' && pages'[key] == pages[key])
    && (forall key :: key in pages' && key !in pages ==>
          key.0 == q.pid && first <= key.1 < first + q.pages
          && pages'[key].segment == q.Segment(key.1 - first) && |pages'[key].bytes| == frameSize)
    && (forall k :: first <= k < first + q.pages ==> (q.pid, k) in pages' && (q.pid, k) !in pages)
  }

  ghost function KeyRange(pid: int, first: int, n: nat): (keys: set<Key>)
    ensures |keys| == n && forall key :: key in keys <==> key.0 == pid && first <= key.1 < first + n
  {
    if n == 0 then {} else KeyRange(pid, first, n - 1) + {(pid, first + n - 1)}
  }

  /** So many pages more. */
  lemma {:induction false} AddedCount(pages: Pages, pages': Pages, q: PageTable.Request, first: int, frameSize: nat)
    requires Added(pages, pages', q, first, frameSize)
    ensures |pages'| == |pages| + q.pages
  {
    var keys := KeyRange(q.pid, first, q.pages);
    assert pages'.Keys == pages.Keys + keys && pages.Keys !! keys;
  }

  ghost function MappedFrames(regs: seq<Reg>, n: nat): (frames: set<int>)
    requires n <= |regs|
    ensures forall f :: f in frames <==> f < n && Mapped(regs, f)
  {
    if n == 0 then {}
    else if Mapped(regs, n - 1) then MappedFrames(regs, n - 1) + {n - 1}
    else MappedFrames(regs, n - 1)
  }

  function MappedCount(regs: seq<Reg>, n: nat): nat
    requires n <= |regs|
  {
    if n == 0 then 0 else MappedCount(regs, n - 1) + if Mapped(regs, n - 1) then 1 else 0
  }

  /** No two mapped frames hold the same page. */
  lemma {:induction false} OnePageEach(regs: seq<Reg>, n: nat)
    requires Unique(regs) && n <= |regs|
    ensures |KeysBelow(regs, n)| == MappedCount(regs, n)
  {
    if n > 0 {
      OnePageEach(regs, n - 1);
      if Mapped(regs, n - 1) {
        KeysBelowIff(regs, n - 1, (regs[n - 1].pid, regs[n - 1].page));
        AddOne(KeysBelow(regs, n - 1), (regs[n - 1].pid, regs[n - 1].page));
      }
    }
  }

  lemma {:induction false} MappedFramesCount(regs: seq<Reg>, n: nat)
    requires n <= |regs|
    ensures |MappedFrames(regs, n)| == MappedCount(regs, n)
  {
    if n > 0 {
      MappedFramesCount(regs, n - 1);
    }
  }

  /** Mapped pages and available frames always add up to the frames that are not reserved. */
  lemma {:induction false} FramesConserved(regs: seq<Reg>, free: seq<int>, reserved: int)
    requires Unique(regs) && Partitioned(regs, free, reserved) && 0 <= reserved <= |regs|
    ensures |MappedKeys(regs)| + |free| == |regs| - reserved
  {
    OnePageEach(regs, |regs|);
    MappedFramesCount(regs, |regs|);
    var mapped, low, avail := MappedFrames(regs, |regs|), Range(0, reserved), Elements(free);
    assert Range(0, |regs|) == low + avail + mapped;
    assert low !! avail && (low + avail) !! mapped;
    assert |low + avail + mapped| == |low| + |avail| + |mapped|;
  }

  // ---- the cache against the flat memory ----

  /** The frames available are those not reserved that hold no page. */
  lemma {:induction false} PagesLeft(regs: seq<Reg>, free: seq<int>, reserved: int, memory: seq<byte>, frameSize: nat)
    requires Unique(regs) && Partitioned(regs, free, reserved) && 0 <= reserved <= |regs|
          && |memory| == |regs| * frameSize
    ensures |free| == |regs| - reserved - |Contents(regs, memory, frameSize)|
  {
    FramesConserved(regs, free, reserved);
    PagesCounted(regs, memory, frameSize);
  }

  /** content agrees with the page on the bytes of mask. */
  ghost predicate Agrees(content: seq<byte>, bytes: seq<byte>, mask: set<int>) {
    |content| == |bytes| && forall k :: k in mask && 0 <= k < |content| ==> content[k] == bytes[k]
  }

  /** The entry names a mapped page and agrees with it on every byte filled since it took that page. */
  ghost predicate Backed(pages: Pages, e: Entry, mask: set<int>) {
    e.pid >= 0 ==> (e.pid, e.page) in pages && Agrees(e.content, pages[(e.pid, e.page)].bytes, mask)
  }

  ghost predicate Coherent(pages: Pages, entries: seq<Entry>, filled: seq<set<int>>) {
    |entries| == |filled| && forall i :: 0 <= i < |entries| ==> Backed(pages, entries[i], filled[i])
  }

  /** Every entry in use has been filled over its whole frame. */
  ghost predicate AllFilled(entries: seq<Entry>, filled: seq<set<int>>, frameSize: nat) {
    |entries| == |filled| && forall i :: 0 <= i < |entries| && entries[i].pid >= 0 ==> filled[i] >= Range(0, frameSize)
  }

  /** The two agree from at on for so many bytes, outside the n bytes from offset on. */
  ghost predicate Held(victim: seq<byte>, bytes: seq<byte>, offset: int, n: int, at: int, size: int)
    requires |victim| == |bytes| && 0 <= at && at + size <= |bytes|
  {
    forall k :: at <= k < at + size && !(offset <= k < offset + n) ==> victim[k] == bytes[k]
  }

  /** After a write miss took an entry with old bytes victim, a window of the entry equals that of the page exactly
      when the old bytes there happened to, outside the bytes written. */
  lemma {:induction false} StaleBytes(victim: seq<byte>, bytes: seq<byte>, offset: int, data: seq<byte>, at: int,
                                      size: int)
    requires |victim| == |bytes| && 0 <= offset && offset + |data| <= |bytes| && 0 <= at && 0 <= size
    requires at + size <= |bytes|
    ensures Splice(victim, offset, data)[at..at + size] == Splice(bytes, offset, data)[at..at + size]
       <==> Held(victim, bytes, offset, |data|, at, size)
  {
    var v, b := Splice(victim, offset, data), Splice(bytes, offset, data);
    if v[at..at + size] == b[at..at + size] {
      forall k | at <= k < at + size && !(offset <= k < offset + |data|) ensures victim[k] == bytes[k] {
        assert v[at..at + size][k - at] == b[at..at + size][k - at];
      }
    }
  }

  /** A write that hits a full entry or covers the frame leaves every entry full. */
  lemma {:induction false} FilledAfterWrite(entries: seq<Entry>, filled: seq<set<int>>, v: int, e: Entry, offset: nat,
                                            size: nat, frameSize: nat)
    requires AllFilled(entries, filled, frameSize) && 0 <= v < |entries| && e.pid >= 0 && offset + size <= frameSize
    requires Names(entries[v], e.pid, e.page) || size == frameSize
    ensures AllFilled(entries[v := e],
                      filled[v := (if Names(entries[v], e.pid, e.page) then filled[v] else {})
                                  + Range(offset, offset + size)],
                      frameSize)
  {
  }

  function Written(pages: Pages, key: Key, offset: int, data: seq<byte>): Pages
    requires key in pages && 0 <= offset && offset + |data| <= |pages[key].bytes|
  {
    pages[key := Page(pages[key].segment, Splice(pages[key].bytes, offset, data))]
  }

  /** Writing the same window into a page and into the entry that takes or already holds it keeps
      the cache coherent, because no other entry names that page. */
  lemma {:induction false} CoherentAfterWrite(pages: Pages, entries: seq<Entry>, filled: seq<set<int>>, v: int,
                                              pid: int, page: int, offset: int, data: seq<byte>)
    requires Coherent(pages, entries, filled) && Distinct(entries) && 0 <= v < |entries|
    requires pid >= 0 && (pid, page) in pages && |entries[v].content| == |pages[(pid, page)].bytes|
    requires 0 <= offset && offset + |data| <= |entries[v].content|
    requires Names(entries[v], pid, page) || forall i :: 0 <= i < |entries| ==> !Names(entries[i], pid, page)
    ensures Coherent(Written(pages, (pid, page), offset, data),
                     entries[v := Entry(pid, page, Splice(entries[v].content, offset, data))],
                     filled[v := (if Names(entries[v], pid, page) then filled[v] else {})
                                 + Range(offset, offset + |data|)])
  {
    var pages' := Written(pages, (pid, page), offset, data);
    var entries' := entries[v := Entry(pid, page, Splice(entries[v].content, offset, data))];
    var filled' := filled[v := (if Names(entries[v], pid, page) then filled[v] else {})
                               + Range(offset, offset + |data|)];
    forall i | 0 <= i < |entries| ensures Backed(pages', entries'[i], filled'[i]) {
      assert Backed(pages, entries[i], filled[i]);
      if i != v && entries[i].pid >= 0 {
        assert !Names(entries[i], pid, page);
      }
    }
  }

  lemma {:induction false} CoherentAfterFill(pages: Pages, entries: seq<Entry>, filled: seq<set<int>>, v: int, pid: int,
                                             page: int)
    requires Coherent(pages, entries, filled) && 0 <= v < |entries|
    requires pid >= 0 && (pid, page) in pages && |entries[v].content| == |pages[(pid, page)].bytes|
    ensures var bytes := pages[(pid, page)].bytes;
            Coherent(pages, entries[v := Entry(pid, page, Splice(entries[v].content, 0, bytes))],
                 filled[v := Range(0, |bytes|)])
  {
    var bytes := pages[(pid, page)].bytes;
    var entries', filled' := entries[v := Entry(pid, page, Splice(entries[v].content, 0, bytes))],
         filled[v := Range(0, |bytes|)];
    forall i | 0 <= i < |entries| ensures Backed(pages, entries'[i], filled'[i]) {
      assert Backed(pages, entries[i], filled[i]);
    }
  }

  /** The cache stays coherent when pages appear, and when pages go together with the entries that name them. */
  lemma {:induction false} CoherentAfterChange(pages: Pages, entries: seq<Entry>, filled: seq<set<int>>, pages': Pages,
                                               entries': seq<Entry>)
    requires Coherent(pages, entries, filled) && |entries'| == |entries|
    requires forall i :: 0 <= i < |entries| ==> entries'[i] == entries[i] || entries'[i].pid < 0
    requires forall i :: 0 <= i < |entries| && entries'[i].pid >= 0 && (entries[i].pid, entries[i].page) in pages ==>
               var key := (entries[i].pid, entries[i].page); key in pages' && pages'[key] == pages[key]
    ensures Coherent(pages', entries', filled)
  {
    forall i | 0 <= i < |entries| ensures Backed(pages', entries'[i], filled[i]) {
      assert Backed(pages, entries[i], filled[i]);
    }
  }

  // ---- what a read shows ----

  /** The entry that names a page, or the number of entries. */
  function EntryOf(entries: seq<Entry>, key: Key): (i: int)
    ensures 0 <= i <= |entries| && (i < |entries| ==> Names(entries[i], key.0, key.1))
    ensures forall j :: 0 <= j < i ==> !Names(entries[j], key.0, key.1)
  {
    if entries == [] then 0
    else if Names(entries[0], key.0, key.1) then 0
    else 1 + EntryOf(entries[1..], key)
  }

  /** The bytes that reads of a page show: those of its entry, and the frame's when no entry names it. */
  function Shown(entries: seq<Entry>, pages: Pages, key: Key): seq<byte>
    requires key in pages
  {
    var i := EntryOf(entries, key);
    if i < |entries| then entries[i].content else pages[key].bytes
  }

  lemma {:induction false} ShownIs(entries: seq<Entry>, pages: Pages, key: Key, i: int)
    requires Distinct(entries) && key in pages && key.0 >= 0
    ensures Absent(entries, key.0, key.1) ==> Shown(entries, pages, key) == pages[key].bytes
    ensures 0 <= i < |entries| && Names(entries[i], key.0, key.1) ==> Shown(entries, pages, key) == entries[i].content
  {
  }

  /** The frame's bytes on a miss and the entry's on a hit are what is shown. */
  lemma {:induction false} AnswerIsShown(pages: Pages, entries: seq<Entry>, pid: int, page: int, offset: nat, size: nat,
                                         bytes: seq<byte>, v: int)
    requires Distinct(entries) && (pid, page) in pages && pid >= 0 && |bytes| == size
    requires Absent(entries, pid, page) ==>
               && offset + size <= |pages[(pid, page)].bytes|
               && forall k :: offset <= k < offset + size ==> bytes[k - offset] == pages[(pid, page)].bytes[k]
    requires !Absent(entries, pid, page) ==>
               && 0 <= v < |entries| && Names(entries[v], pid, page) && offset + size <= |entries[v].content|
               && bytes == entries[v].content[offset..offset + size]
    ensures var shown := Shown(entries, pages, (pid, page));
            offset + size <= |shown| && bytes == shown[offset..offset + size]
  {
    ShownIs(entries, pages, (pid, page), v);
  }

  /** After an entry is updated for a page, that page shows the entry's bytes, with the new ones in them; a page
      that lost the entry shows its frame; any other page shows what it did. */
  lemma {:induction false} ShownAfter(pages: Pages, pages': Pages, a: View, v: int, pid: int, page: int, offset: int,
                                      data: seq<byte>, now: int, key: Key)
    requires Distinct(a.entries) && 0 <= v < |a.entries| == |a.lastUsed| && pid >= 0 && key.0 >= 0
    requires 0 <= offset && offset + |data| <= |a.entries[v].content|
    requires Names(a.entries[v], pid, page) || Absent(a.entries, pid, page)
    requires key in pages && key in pages' && (key != (pid, page) ==> pages'[key] == pages[key])
    ensures Shown(Took(a, v, pid, page, offset, data, now).entries, pages', key)
         == if key == (pid, page) then Splice(a.entries[v].content, offset, data)
            else if Names(a.entries[v], key.0, key.1) then pages[key].bytes
            else Shown(a.entries, pages, key)
  {
    var b := Took(a, v, pid, page, offset, data, now).entries;
    assert Distinct(b) by {
      forall i, j | 0 <= i < j < |b| && b[i].pid >= 0 ensures !Names(b[j], b[i].pid, b[i].page) {
        assert i != v && j != v ==> !Names(a.entries[j], a.entries[i].pid, a.entries[i].page);
        assert Names(a.entries[v], pid, page) && i < v ==> !Names(a.entries[v], a.entries[i].pid, a.entries[i].page);
        assert Names(a.entries[v], pid, page) && v < j ==> !Names(a.entries[j], a.entries[v].pid, a.entries[v].page);
      }
    }
    var i := EntryOf(a.entries, key);
    if key == (pid, page) {
      ShownIs(b, pages', key, v);
    } else if Names(a.entries[v], key.0, key.1) {
      assert Absent(b, key.0, key.1) by {
        forall j | 0 <= j < |b| ensures !Names(b[j], key.0, key.1) {
          if j < v {
            assert !Names(a.entries[v], a.entries[j].pid, a.entries[j].page) || a.entries[j].pid < 0;
          } else if j > v {
            assert !Names(a.entries[j], a.entries[v].pid, a.entries[v].page);
          }
        }
      }
      ShownIs(b, pages', key, 0);
    } else if i < |a.entries| {
      assert i != v && b[i] == a.entries[i];
      ShownIs(b, pages', key, i);
    } else {
      assert Absent(b, key.0, key.1);
      ShownIs(b, pages', key, 0);
    }
  }

  // ---- the flat memory as a machine ----

  datatype Request =
    | InitProcess(pid: int, pages: nat)
    | AssignPages(pid: int, pages: nat)
    | WritePage(client: int, pid: int, page: int, offset: nat, data: seq<byte>)
    | ReadPage(pid: int, page: int, offset: nat, size: nat)
    | DeletePage(pid: int, page: int)
    | EndProcess(pid: int)

  datatype Response = Code(code: int) | Data(bytes: seq<byte>)

  datatype Config = Config(frameSize: nat, capacity: int, stackSize: int, kernelClient: int)

  datatype Flat = Flat(pages: Pages, counts: seq<Record>)

  predicate OutOfFrame(c: Config, offset: nat, size: nat) {
    offset >= c.frameSize || offset + size > c.frameSize
  }

  ghost predicate Sized(c: Config, pages: Pages) {
    forall key :: key in pages ==> |pages[key].bytes| == c.frameSize
  }

  /** Pages are granted all together, numbered after the pages the process ever had, or not at all. */
  ghost predicate Grown(c: Config, s: Flat, q: PageTable.Request, r: Response, s': Flat) {
    if q.pages > c.capacity - |s.pages| then
      r == Code(ENOSPC) && s' == s
    else
      && r == Code(SUCCESS)
      && Added(s.pages, s'.pages, q, Tally(s.counts, q.pid), c.frameSize)
      && (forall p :: Tally(s'.counts, p) == Tally(s.counts, p) + if p == q.pid then q.pages else 0)
  }

  function WriteCode(c: Config, pages: Pages, client: int, key: Key, offset: nat, size: nat): int {
    if OutOfFrame(c, offset, size) then OUT_OF_FRAME
    else if key !in pages then PAGE_FAULT
    else if client != c.kernelClient && pages[key].segment == CODE_SEGMENT then SEGMENTATION_FAULT
    else SUCCESS
  }

  /** One request served by a flat memory. exact says that a read returns the bytes of the page. */
  ghost predicate Next(c: Config, s: Flat, q: Request, r: Response, s': Flat, exact: bool)
    requires Sized(c, s.pages)
  {
    match q
    case InitProcess(pid, pages) => Grown(c, s, PageTable.Request(pid, pages, true, c.stackSize), r, s')
    case AssignPages(pid, pages) => Grown(c, s, PageTable.Request(pid, pages, false, c.stackSize), r, s')
    case WritePage(client, pid, page, offset, data) =>
      var key := (pid, page);
      var code := WriteCode(c, s.pages, client, key, offset, |data|);
      && r == Code(code)
      && (code != SUCCESS ==> s' == s)
      && (code == SUCCESS ==>
            s' == s.(pages := Written(s.pages, key, offset, data)))
    case ReadPage(pid, page, offset, size) =>
      var key := (pid, page);
      && s' == s
      && (OutOfFrame(c, offset, size) ==> r == Code(OUT_OF_FRAME))
      && (!OutOfFrame(c, offset, size) && key !in s.pages ==> r == Code(PAGE_FAULT))
      && (!OutOfFrame(c, offset, size) && key in s.pages ==> r.Data? && |r.bytes| == size)
      && (!OutOfFrame(c, offset, size) && key in s.pages && exact ==>
            r.bytes == s.pages[key].bytes[offset..offset + size])
    case DeletePage(pid, page) =>
      r == Code(EXIT_SUCCESS) && s' == s.(pages := Without(s.pages, pid, page, false))
    case EndProcess(pid) =>
      && r == Code(SUCCESS)
      && s'.pages == Without(s.pages, pid, 0, true)
      && (forall p :: Tally(s'.counts, p) == if p == pid then 0 else Tally(s.counts, p))
  }

  lemma {:induction false} ReadIsNext(c: Config, s: Flat, pid: int, page: int, offset: nat, size: nat, r: Response,
                                      exact: bool)
    requires Sized(c, s.pages)
    requires OutOfFrame(c, offset, size) ==> r == Code(OUT_OF_FRAME)
    requires !OutOfFrame(c, offset, size) && (pid, page) !in s.pages ==> r == Code(PAGE_FAULT)
    requires !OutOfFrame(c, offset, size) && (pid, page) in s.pages ==>
               && r.Data? && |r.bytes| == size
               && (exact ==> r.bytes == s.pages[(pid, page)].bytes[offset..offset + size])
    ensures Next(c, s, Request.ReadPage(pid, page, offset, size), r, s, exact)
  {
  }

  datatype Served = Served(q: Request, r: Response, exact: bool)

  /** Writing a page and the entry that holds or takes it: both facts about the cache at once. */
  lemma {:induction false} WriteKeeps(pages: Pages, a: View, filled: seq<set<int>>, frameSize: nat, v: int, pid: int,
                                      page: int, offset: nat, data: seq<byte>, now: int)
    requires Coherent(pages, a.entries, filled) && Distinct(a.entries) && 0 <= v < |a.entries| == |a.lastUsed|
    requires pid >= 0 && (pid, page) in pages && |a.entries[v].content| == |pages[(pid, page)].bytes| == frameSize
          && offset + |data| <= frameSize
    requires Names(a.entries[v], pid, page) || Absent(a.entries, pid, page)
    ensures var filled' := filled[v := (if Names(a.entries[v], pid, page) then filled[v] else {})
                                       + Range(offset, offset + |data|)];
            var entries' := Took(a, v, pid, page, offset, data, now).entries;
            && Coherent(Written(pages, (pid, page), offset, data), entries', filled')
            && (AllFilled(a.entries, filled, frameSize) && (Names(a.entries[v], pid, page) || |data| == frameSize) ==>
                 AllFilled(entries', filled', frameSize))
  {
    CoherentAfterWrite(pages, a.entries, filled, v, pid, page, offset, data);
    if AllFilled(a.entries, filled, frameSize) && (Names(a.entries[v], pid, page) || |data| == frameSize) {
      FilledAfterWrite(a.entries, filled, v, Took(a, v, pid, page, offset, data, now).entries[v], offset, |data|,
           frameSize);
    }
  }

  /** Every request so far was answered as the flat memory, empty at first, answers it. */
  ghost predicate Refines(c: Config, log: seq<Served>, flats: seq<Flat>) {
    && |flats| == |log| + 1 && flats[0] == Flat(map[], [])
    && (forall i :: 0 <= i < |flats| ==> Sized(c, flats[i].pages))
    && forall i :: 0 <= i < |log| ==> Next(c, flats[i], log[i].q, log[i].r, flats[i + 1], log[i].exact)
  }

  /** A request that changes the bytes of a page: a write of the page that succeeds. */
  predicate Writes(step: Served, key: Key) {
    step.q.WritePage? && step.q.pid == key.0 && step.q.page == key.1 && step.r == Code(1)
  }

  /** The page is there from state i to state j. */
  ghost predicate Lasts(flats: seq<Flat>, key: Key, i: int, j: int)
    requires 0 <= i <= j < |flats|
  {
    forall m :: i <= m <= j ==> key in flats[m].pages
  }

  lemma {:induction false} OneRequest(c: Config, s: Flat, step: Served, s': Flat, key: Key)
    requires Sized(c, s.pages) && Next(c, s, step.q, step.r, s', step.exact) && key in s.pages && key in s'.pages
    ensures s'.pages[key].segment == s.pages[key].segment
    ensures !Writes(step, key) ==> s'.pages[key] == s.pages[key]
    ensures Writes(step, key) ==>
              && step.q.offset + |step.q.data| <= |s.pages[key].bytes| == c.frameSize
              && s'.pages[key].bytes == Splice(s.pages[key].bytes, step.q.offset, step.q.data)
              && (s.pages[key].segment == 'c' ==> step.q.client == c.kernelClient)
  {
  }

  /** As long as a page is there it keeps its segment, and its bytes change with successful writes of it only. */
  lemma {:induction false} PageStays(c: Config, log: seq<Served>, flats: seq<Flat>, key: Key, i: int, j: int)
    requires Refines(c, log, flats) && 0 <= i <= j < |flats| && Lasts(flats, key, i, j)
    requires forall m :: i <= m < j ==> !Writes(log[m], key)
    ensures flats[j].pages[key] == flats[i].pages[key]
    decreases j - i
  {
    if i < j {
      OneRequest(c, flats[i], log[i], flats[i + 1], key);
      PageStays(c, log, flats, key, i + 1, j);
    }
  }

  lemma {:induction false} SegmentStays(c: Config, log: seq<Served>, flats: seq<Flat>, key: Key, i: int, j: int)
    requires Refines(c, log, flats) && 0 <= i <= j < |flats| && Lasts(flats, key, i, j)
    ensures flats[j].pages[key].segment == flats[i].pages[key].segment
    decreases j - i
  {
    if i < j {
      OneRequest(c, flats[i], log[i], flats[i + 1], key);
      SegmentStays(c, log, flats, key, i + 1, j);
    }
  }

  /** Over any history, a code page has the bytes it had unless the kernel itself wrote it. */
  lemma {:induction false} CodeIsKept(c: Config, log: seq<Served>, flats: seq<Flat>, key: Key, i: int, j: int)
    requires Refines(c, log, flats) && 0 <= i <= j < |flats| && Lasts(flats, key, i, j)
    requires flats[i].pages[key].segment == 'c'
    requires forall m :: i <= m < j && log[m].q.WritePage? && (log[m].q.pid, log[m].q.page) == key ==>
               log[m].q.client != c.kernelClient
    ensures flats[j].pages[key] == flats[i].pages[key]
  {
    forall m | i <= m < j ensures !Writes(log[m], key) {
      SegmentStays(c, log, flats, key, i, m);
      OneRequest(c, flats[m], log[m], flats[m + 1], key);
    }
    PageStays(c, log, flats, key, i, j);
  }

  ghost predicate EvictionSkips(entries: seq<Entry>, lastUsed: seq<int>, quotas: seq<Record>, limit: int, pid: int,
                                page: int)
    requires |lastUsed| == |entries|
  {
    && Absent(entries, pid, page)
    && exists v :: Victim(entries, lastUsed, pid, Exceeded(quotas, pid, limit), v)
                   && entries[v].pid != pid && Skips(quotas, entries[v].pid, pid)
  }

  lemma {:induction false} HazardIff(entries: seq<Entry>, lastUsed: seq<int>, quotas: seq<Record>, limit: int, pid: int,
                                     page: int, v: int)
    requires |lastUsed| == |entries| && 0 <= v < |entries|
    requires Names(entries[v], pid, page)
          || (Absent(entries, pid, page) && Victim(entries, lastUsed, pid, Exceeded(quotas, pid, limit), v))
    ensures EvictionSkips(entries, lastUsed, quotas, limit, pid, page) <==>
              entries[v].pid != pid && Skips(quotas, entries[v].pid, pid)
  {
    forall w | !Names(entries[v], pid, page) && Victim(entries, lastUsed, pid, Exceeded(quotas, pid, limit), w)
      ensures v == w
    {
      VictimIsOne(entries, lastUsed, pid, Exceeded(quotas, pid, limit), v, w);
    }
  }

  class Server {
    const table: Table
    const cache: Cache
    const memory: array<byte>
    const config: Config
    ghost var log: seq<Served>   // every request served so far, with its answer
    ghost var flats: seq<Flat>   // the flat memory before, between and after them
    ghost var stale: bool        // some write miss has covered less than a frame

    ghost predicate Layout() {
      && table.Shape() && cache.frameSize == config.frameSize
      && memory.Length == table.frames * config.frameSize
      && config.capacity == table.frames - table.reserved && config.stackSize == table.stackSize
      && cache.lastUsed as object != memory
    }

    /** The flat memory that table and frames now stand for. */
    ghost function Now(): Flat
      requires Layout()
      reads table, table.regs, memory
    {
      Flat(Contents(table.regs[..], memory[..], config.frameSize), table.counts)
    }

    /** Whatever its quota list says, the cache holds no lock and no page twice, and every entry agrees with
        these pages on its filled bytes. */
    ghost predicate CacheSound(pages: Pages)
      reads this`stale, cache, cache.entries
    {
      && cache.Sound() && Coherent(pages, cache.entries[..], cache.filled)
      && (!stale ==> AllFilled(cache.entries[..], cache.filled, cache.frameSize))
    }

    /** Table and cache are sound and every answer so far was that of the flat memory. */
    ghost predicate Consistent()
      reads this, table, table.regs, table.chains, cache, cache.entries, memory
    {
      && Layout() && table.Valid() && CacheSound(Now().pages)
      && Refines(config, log, flats) && flats[|log|] == Now()
    }

    /** And the cache's quota accounting is exact. */
    ghost predicate Valid()
      reads this, table, table.regs, table.chains, cache, cache.entries, memory
    {
      Consistent() && cache.Valid()
    }

    /** The page is not in the cache and the process is recorded at its quota without owning an entry: the
        source would update entry -1. */
    ghost predicate NoVictim(pid: int, page: int)
      reads cache, cache.entries
    {
      Missing(pid, page) && Starved(cache.entries[..], cache.quotas, cache.limit, pid)
    }

    /** Entry v was updated: the one that names the page or, on a miss, the one to be replaced. */
    twostate predicate Updated(v: int, pid: int, page: int, offset: int, data: seq<byte>, now: int)
      requires old(cache.Shape()) && 0 <= offset && offset + |data| <= cache.frameSize
      reads cache, cache.entries, cache.lastUsed
    {
      && 0 <= v < cache.size && cache.Now() == Took(old(cache.Now()), v, pid, page, offset, data, now)
      && if old(Missing(pid, page)) then
           Victim(old(cache.entries[..]), old(cache.lastUsed[..]), pid,
                  old(Exceeded(cache.quotas, pid, cache.limit)), v)
         else old(Names(cache.entries[v], pid, page))
    }

    /** Serving this page would evict another process's last entry and skip the record that
        follows that process's in the quota list, which is pid's. */
    ghost predicate Hazard(pid: int, page: int)
      requires cache.Shape()
      reads cache, cache.entries, cache.lastUsed
    {
      EvictionSkips(cache.entries[..], cache.lastUsed[..], cache.quotas, cache.limit, pid, page)
    }

    ghost predicate Missing(pid: int, page: int)
      reads cache.entries
    {
      Absent(cache.entries[..], pid, page)
    }

    /** What reads of a page show now. */
    ghost function Shows(pid: int, page: int): seq<byte>
      requires Consistent() && (pid, page) in Now().pages
      reads this, table, table.regs, table.chains, cache, cache.entries, memory
      ensures |Shows(pid, page)| == config.frameSize
    {
      Shown(cache.entries[..], Now().pages, (pid, page))
    }

    /** Notes one more request, answered as the flat memory answers it. */
    ghost method Note(step: Served)
      requires Layout() && Refines(config, log, flats)
      requires Next(config, flats[|log|], step.q, step.r, Now(), step.exact)
      modifies this`log, this`flats
      ensures Refines(config, log, flats) && log == old(log) + [step] && flats == old(flats) + [Now()]
    {
      log, flats := log + [step], flats + [Now()];
    }

    /** load: no process has pages, no entry is in use. */
    constructor (frames: nat, frameSize: nat, cacheEntries: nat, cachePerProcess: int, stackSize: int,
                 kernelClient: int, hash: (int, int) -> int)
      requires frameSize >= 1 && cacheEntries >= 1 && cachePerProcess >= 1
      requires forall p, q :: 0 <= hash(p, q) < frames
      ensures Valid() && log == [] && flats == [Flat(map[], [])] && !stale
      ensures fresh(table) && fresh(table.regs) && fresh(table.chains) && fresh(cache) && fresh(cache.entries)
            && fresh(cache.lastUsed) && fresh(memory)
      ensures table.hash == hash && table.frames == frames && Now() == Flat(map[], [])
      ensures config == Config(frameSize, frames - ReservedFrames(frames, frameSize), stackSize, kernelClient)
      ensures cache.size == cacheEntries && cache.limit == cachePerProcess && cache.quotas == []
      ensures forall i :: 0 <= i < cacheEntries ==> Names(cache.entries[i], -1, -1)
    {
      var t := new Table(frames, frameSize, stackSize, hash);
      table := t;
      cache := new Cache(cacheEntries, cachePerProcess, frameSize);
      memory := new byte[frames * frameSize](_ => 0);
      config := Config(frameSize, frames - t.reserved, stackSize, kernelClient);
      log, stale := [], false;
      flats := [];
      new;
      flats := [Now()];
      NothingMapped(table.regs[..], memory[..], frameSize);
    }

    /** writing_memory */
    method WritingMemory(client: int, pid: int, page: int, offset: nat, data: seq<byte>) returns (code: int)
      requires Layout() && table.FramesOk() && pid >= 1 && !OutOfFrame(config, offset, |data|)
      modifies memory
      ensures code == WriteCode(config, old(Now()).pages, client, (pid, page), offset, |data|)
      ensures code == PAGE_FAULT <==> (pid, page) !in old(Now()).pages
      ensures code == SEGMENTATION_FAULT <==>
                && (pid, page) in old(Now()).pages && old(Now()).pages[(pid, page)].segment == 'c'
                && client != config.kernelClient
      ensures code in {SUCCESS, PAGE_FAULT, SEGMENTATION_FAULT}
      ensures code != SUCCESS ==> memory[..] == old(memory[..])
      ensures code == SUCCESS ==>
                && |old(Now()).pages[(pid, page)].bytes| == config.frameSize
                && Now().pages == Written(old(Now()).pages, (pid, page), offset, data)
    {
      var frame := table.GetFrame(pid, page);
      if frame < 0 {
        return PAGE_FAULT;
      }
      ContentsAt(table.regs[..], memory[..], config.frameSize, frame);
      if client != config.kernelClient && table.regs[frame].segment == CODE_SEGMENT {
        return SEGMENTATION_FAULT;
      }
      var pos := frame * config.frameSize + offset;
      ContentsAfterWrite(table.regs[..], memory[..], config.frameSize, frame, pos, offset, data, Now().pages,
           (pid, page));
      Memcpy(memory, pos, data);
      return SUCCESS;
    }

    /** writing_cache, after the page it names was written. */
    method WriteThrough(ghost pages: Pages, pid: int, page: int, offset: nat, data: seq<byte>, now: int)
        returns (ghost v: int)
      requires CacheSound(pages) && !NoVictim(pid, page)
      requires pid >= 0 && (pid, page) in pages && |pages[(pid, page)].bytes| == cache.frameSize
            && offset + |data| <= cache.frameSize
      modifies this`stale, cache, cache.entries, cache.lastUsed
      ensures CacheSound(Written(pages, (pid, page), offset, data))
      ensures stale <==> old(stale) || (|data| < cache.frameSize && old(Missing(pid, page)))
      ensures old(cache.Valid()) ==> (cache.Valid() <==> !old(Hazard(pid, page)))
      ensures Updated(v, pid, page, offset, data, now)
    {
      ghost var a, filled := cache.Now(), cache.filled;
      stale := stale || (|data| < cache.frameSize && Absent(a.entries, pid, page));
      v := cache.WritingCache(pid, page, offset, data, now);
      WriteKeeps(pages, a, filled, cache.frameSize, v, pid, page, offset, data, now);
      HazardIff(a.entries, a.lastUsed, a.quotas, cache.limit, pid, page, v);
    }

    /** write_page: the frame first, then the cache. */
    method Write(client: int, pid: int, page: int, offset: nat, data: seq<byte>, now: int)
        returns (code: int, ghost v: int)
      requires Layout() && table.FramesOk() && CacheSound(Now().pages) && pid >= 1
      requires WriteCode(config, Now().pages, client, (pid, page), offset, |data|) == SUCCESS ==> !NoVictim(pid, page)
      modifies this`stale, memory, cache, cache.entries, cache.lastUsed
      ensures CacheSound(Now().pages)
      ensures code == WriteCode(config, old(Now()).pages, client, (pid, page), offset, |data|)
      ensures code != SUCCESS ==> Now() == old(Now()) && cache.Now() == old(cache.Now()) && stale == old(stale)
      ensures code == SUCCESS ==>
                && |old(Now()).pages[(pid, page)].bytes| == config.frameSize
                && Now().pages == Written(old(Now()).pages, (pid, page), offset, data)
      ensures code == SUCCESS ==> (stale <==> old(stale) || (|data| < config.frameSize && old(Missing(pid, page))))
      ensures old(cache.Valid()) ==> (cache.Valid() <==> !(code == SUCCESS && old(Hazard(pid, page))))
      ensures code == SUCCESS ==> Updated(v, pid, page, offset, data, now)
    {
      ghost var pages := Now().pages;
      v := -1;
      if offset >= config.frameSize || offset + |data| > config.frameSize {
        return OUT_OF_FRAME, v;
      }
      code := WritingMemory(client, pid, page, offset, data);
      if code == SUCCESS {
        v := WriteThrough(pages, pid, page, offset, data, now);
      }
    }

    /** Every write is answered as the flat memory answers it, whatever happened before, unless the cache
        has no entry for it. */
    method WritePage(client: int, pid: int, page: int, offset: nat, data: seq<byte>, now: int)
        returns (code: int, ghost v: int)
      requires Consistent() && pid >= 1
      requires WriteCode(config, Now().pages, client, (pid, page), offset, |data|) == SUCCESS ==> !NoVictim(pid, page)
      modifies this, memory, cache, cache.entries, cache.lastUsed
      ensures Consistent()
      ensures log == old(log) + [Served(Request.WritePage(client, pid, page, offset, data), Code(code), !old(stale))]
      ensures flats == old(flats) + [Now()] && (code != SUCCESS ==> Now() == old(Now()))
      ensures code != SUCCESS ==> cache.Now() == old(cache.Now())
      ensures stale <==> old(stale) || (code == SUCCESS && |data| < config.frameSize && old(Missing(pid, page)))
      ensures old(Valid()) ==> (Valid() <==> !(code == SUCCESS && old(Hazard(pid, page))))
      ensures code == WriteCode(config, old(Now()).pages, client, (pid, page), offset, |data|)
      ensures code == OUT_OF_FRAME <==> offset >= config.frameSize || offset + |data| > config.frameSize
      ensures code == PAGE_FAULT <==>
                offset < config.frameSize && offset + |data| <= config.frameSize && (pid, page) !in old(Now()).pages
      ensures code == SEGMENTATION_FAULT <==>
                && offset < config.frameSize && offset + |data| <= config.frameSize && (pid, page) in old(Now()).pages
                && old(Now()).pages[(pid, page)].segment == 'c' && client != config.kernelClient
      ensures code in {SUCCESS, OUT_OF_FRAME, PAGE_FAULT, SEGMENTATION_FAULT}
      ensures code == SUCCESS ==> |old(Now()).pages[(pid, page)].bytes| == config.frameSize
      ensures code == SUCCESS ==> Now() == old(Now()).(pages := Written(old(Now()).pages, (pid, page), offset, data))
      ensures code == SUCCESS ==> Updated(v, pid, page, offset, data, now)
    {
      code, v := Write(client, pid, page, offset, data, now);
      Note(Served(Request.WritePage(client, pid, page, offset, data), Code(code), !old(stale)));
    }

    /** readind_memory: the whole frame enters the cache. */
    method ReadingMemory(pid: int, page: int, offset: nat, size: nat, now: int) returns (r: Response, ghost v: int)
      requires Layout() && table.FramesOk() && pid >= 1
      requires CacheSound(Now().pages) && Missing(pid, page) && ((pid, page) in Now().pages ==> !NoVictim(pid, page))
      requires !OutOfFrame(config, offset, size)
      modifies cache, cache.entries, cache.lastUsed
      ensures CacheSound(Now().pages)
      ensures (pid, page) !in Now().pages ==>
                r == Code(PAGE_FAULT) && cache.Now() == old(cache.Now()) && (old(cache.Valid()) ==> cache.Valid())
      ensures (pid, page) in Now().pages ==>
                && |Now().pages[(pid, page)].bytes| == config.frameSize
                && r == Data(Now().pages[(pid, page)].bytes[offset..offset + size])
                && (old(cache.Valid()) ==> (cache.Valid() <==> !old(Hazard(pid, page))))
                && Updated(v, pid, page, 0, Now().pages[(pid, page)].bytes, now)
    {
      v := -1;
      var frame := table.GetFrame(pid, page);
      if frame < 0 {
        return Code(PAGE_FAULT), v;
      }
      ContentsAt(table.regs[..], memory[..], config.frameSize, frame);
      var bytes := FrameBytes(memory[..], table.frames, config.frameSize, frame);
      v := FillThrough(Now().pages, pid, page, bytes, now);
      r := Data(bytes[offset..offset + size]);
    }

    /** The cache update of readind_memory. */
    method FillThrough(ghost pages: Pages, pid: int, page: int, bytes: seq<byte>, now: int) returns (ghost v: int)
      requires CacheSound(pages) && Missing(pid, page) && !NoVictim(pid, page)
      requires pid >= 0 && (pid, page) in pages && pages[(pid, page)].bytes == bytes && |bytes| == cache.frameSize
      modifies cache, cache.entries, cache.lastUsed
      ensures CacheSound(pages) && Updated(v, pid, page, 0, bytes, now)
      ensures old(cache.Valid()) ==> (cache.Valid() <==> !old(Hazard(pid, page)))
    {
      v := cache.Fill(pid, page, 0, bytes, now);
      CoherentAfterFill(pages, old(cache.entries[..]), old(cache.filled), v, pid, page);
      HazardIff(old(cache.entries[..]), old(cache.lastUsed[..]), old(cache.quotas), cache.limit, pid, page, v);
    }

    /** Byte k of the page is not in the cache, or was copied there since the entry took the page. */
    ghost predicate Fresh(pid: int, page: int, k: int)
      requires cache.Shape()
      reads cache, cache.entries
    {
      forall i :: 0 <= i < cache.size && Names(cache.entries[i], pid, page) ==> k in cache.filled[i]
    }

    /** reading_cache: a hit answers with the bytes of the entry, which are the page's own wherever they are
        fresh. */
    method ReadThrough(ghost pages: Pages, pid: int, page: int, offset: nat, size: nat, now: int)
        returns (hit: bool, data: seq<byte>, ghost v: int)
      requires CacheSound(pages) && pid >= 0
      requires offset + size <= cache.frameSize
      modifies cache`locks, cache.lastUsed
      ensures CacheSound(pages) && (old(cache.Valid()) ==> cache.Valid())
      ensures hit <==> !Missing(pid, page)
      ensures !hit ==> cache.lastUsed[..] == old(cache.lastUsed[..])
      ensures hit ==> (pid, page) in pages && |pages[(pid, page)].bytes| == cache.frameSize && |data| == size
      ensures hit ==>
                && 0 <= v < cache.size && Names(cache.entries[v], pid, page)
                && data == cache.entries[v].content[offset..offset + size]
      ensures hit ==> cache.lastUsed[..] == old(cache.lastUsed[..])[v := now]
      ensures hit ==> forall k :: offset <= k < offset + size && Fresh(pid, page, k) ==>
                data[k - offset] == pages[(pid, page)].bytes[k]
      ensures hit && !stale ==> data == pages[(pid, page)].bytes[offset..offset + size]
    {
      var e, bytes := cache.ReadingCache(pid, page, offset, size, now);
      if e >= 0 {
        assert Backed(pages, cache.entries[..][e], cache.filled[e]);
      }
      hit, data, v := e >= 0, bytes, e;
    }

    /** A read of a page in the cache changes the time of its entry only, and answers with its bytes. */
    twostate predicate Hit(v: int, pid: int, page: int, offset: int, size: int, r: Response, now: int)
      requires old(cache.Shape()) && 0 <= offset && 0 <= size && offset + size <= cache.frameSize
      reads cache, cache.entries, cache.lastUsed
    {
      && 0 <= v < cache.size && old(Names(cache.entries[v], pid, page))
          && r == Data(old(cache.entries[v].content)[offset..offset + size])
      && cache.Now() == old(cache.Now()).(lastUsed := old(cache.lastUsed[..])[v := now])
    }

    /** read_page: the cache first, then the frame. */
    method Read(pid: int, page: int, offset: nat, size: nat, now: int) returns (r: Response, ghost v: int)
      requires Layout() && table.FramesOk() && CacheSound(Now().pages) && pid >= 1
      requires !OutOfFrame(config, offset, size) && (pid, page) in Now().pages ==> !NoVictim(pid, page)
      modifies cache, cache.entries, cache.lastUsed
      ensures CacheSound(Now().pages)
      ensures OutOfFrame(config, offset, size) ==> r == Code(OUT_OF_FRAME)
      ensures !OutOfFrame(config, offset, size) && (pid, page) !in Now().pages ==> r == Code(PAGE_FAULT)
      ensures !OutOfFrame(config, offset, size) && (pid, page) in Now().pages ==>
                && r.Data? && |r.bytes| == size && |Now().pages[(pid, page)].bytes| == config.frameSize
                && (forall k :: offset <= k < offset + size && old(Fresh(pid, page, k)) ==>
                     r.bytes[k - offset] == Now().pages[(pid, page)].bytes[k])
                && (!stale ==> r.bytes == Now().pages[(pid, page)].bytes[offset..offset + size])
      ensures r.Code? ==> cache.Now() == old(cache.Now())
      ensures r.Data? && !OutOfFrame(config, offset, size) ==>
                if old(Missing(pid, page)) then Updated(v, pid, page, 0, Now().pages[(pid, page)].bytes, now)
                else Hit(v, pid, page, offset, size, r, now)
      ensures old(cache.Valid()) ==> (cache.Valid() <==> !(r.Data? && old(Hazard(pid, page))))
    {
      v := -1;
      if offset >= config.frameSize || offset + size > config.frameSize {
        return Code(OUT_OF_FRAME), v;
      }
      var hit, data;
      hit, data, v := ReadThrough(Now().pages, pid, page, offset, size, now);
      if hit {
        return Data(data), v;
      }
      r, v := ReadingMemory(pid, page, offset, size, now);
    }

    /** Every read is answered as the flat memory answers it, with the page's own bytes wherever they are
        fresh, whatever happened before, unless the cache has no entry for it. */
    method ReadPage(pid: int, page: int, offset: nat, size: nat, now: int) returns (r: Response, ghost v: int)
      requires Consistent() && pid >= 1
      requires !OutOfFrame(config, offset, size) && (pid, page) in Now().pages ==> !NoVictim(pid, page)
      modifies this`log, this`flats, cache, cache.entries, cache.lastUsed
      ensures Consistent() && Now() == old(Now())
      ensures log == old(log) + [Served(Request.ReadPage(pid, page, offset, size), r, !stale)]
      ensures flats == old(flats) + [Now()]
      ensures r.Data? <==> !OutOfFrame(config, offset, size) && (pid, page) in Now().pages
      ensures r == Code(OUT_OF_FRAME) <==> offset >= config.frameSize || offset + size > config.frameSize
      ensures r == Code(PAGE_FAULT) <==>
                offset < config.frameSize && offset + size <= config.frameSize && (pid, page) !in Now().pages
      ensures r.Code? ==> r.code in {OUT_OF_FRAME, PAGE_FAULT}
      ensures r.Data? ==>
                && |r.bytes| == size && offset + size <= |Now().pages[(pid, page)].bytes| == config.frameSize
                && forall k :: offset <= k < offset + size && old(Fresh(pid, page, k)) ==>
                     r.bytes[k - offset] == Now().pages[(pid, page)].bytes[k]
      ensures r.Data? ==> r.bytes == old(Shows(pid, page))[offset..offset + size]
      ensures r.Code? ==> cache.Now() == old(cache.Now())
      ensures r.Data? ==> if old(Missing(pid, page)) then Updated(v, pid, page, 0, Now().pages[(pid, page)].bytes, now)
                          else Hit(v, pid, page, offset, size, r, now)
      ensures old(Valid()) ==> (Valid() <==> !(r.Data? && old(Hazard(pid, page))))
    {
      ghost var a, pages := cache.Now(), Now().pages;
      r, v := ReadAndNote(pid, page, offset, size, now);
      if r.Data? {
        AnswerIsShown(pages, a.entries, pid, page, offset, size, r.bytes, v);
      }
    }

    method ReadAndNote(pid: int, page: int, offset: nat, size: nat, now: int) returns (r: Response, ghost v: int)
      requires Consistent() && pid >= 1
      requires !OutOfFrame(config, offset, size) && (pid, page) in Now().pages ==> !NoVictim(pid, page)
      modifies this`log, this`flats, cache, cache.entries, cache.lastUsed
      ensures Consistent() && Now() == old(Now())
      ensures log == old(log) + [Served(Request.ReadPage(pid, page, offset, size), r, !stale)]
      ensures flats == old(flats) + [Now()]
      ensures r.Data? <==> !OutOfFrame(config, offset, size) && (pid, page) in Now().pages
      ensures r.Code? ==> r.code == if OutOfFrame(config, offset, size) then OUT_OF_FRAME else PAGE_FAULT
      ensures r.Data? ==>
                && |r.bytes| == size && offset + size <= |Now().pages[(pid, page)].bytes| == config.frameSize
                && forall k :: offset <= k < offset + size && old(Fresh(pid, page, k)) ==>
                     r.bytes[k - offset] == Now().pages[(pid, page)].bytes[k]
      ensures r.Code? ==> cache.Now() == old(cache.Now())
      ensures r.Data? ==> if old(Missing(pid, page)) then Updated(v, pid, page, 0, Now().pages[(pid, page)].bytes, now)
                          else Hit(v, pid, page, offset, size, r, now)
      ensures old(Valid()) ==> (Valid() <==> !(r.Data? && old(Hazard(pid, page))))
    {
      r, v := Read(pid, page, offset, size, now);
      NoteRead(pid, page, offset, size, r);
    }

    ghost method NoteRead(pid: int, page: int, offset: nat, size: nat, r: Response)
      requires Layout() && table.Valid() && CacheSound(Now().pages)
      requires Refines(config, log, flats) && flats[|log|] == Now()
      requires OutOfFrame(config, offset, size) ==> r == Code(OUT_OF_FRAME)
      requires !OutOfFrame(config, offset, size) && (pid, page) !in Now().pages ==> r == Code(PAGE_FAULT)
      requires !OutOfFrame(config, offset, size) && (pid, page) in Now().pages ==>
                 && r.Data? && |r.bytes| == size && |Now().pages[(pid, page)].bytes| == config.frameSize
                 && (!stale ==> r.bytes == Now().pages[(pid, page)].bytes[offset..offset + size])
      modifies this`log, this`flats
      ensures Consistent() && log == old(log) + [Served(Request.ReadPage(pid, page, offset, size), r, !stale)]
      ensures flats == old(flats) + [Now()]
    {
      ReadIsNext(config, Now(), pid, page, offset, size, r, !stale);
      Note(Served(Request.ReadPage(pid, page, offset, size), r, !stale));
    }

    /** assign_pages_to_process against the flat memory. */
    method Grow(q: PageTable.Request) returns (code: int)
      requires Layout() && table.Valid() && q.pid >= 1 && q.stackSize == table.stackSize
      modifies table, table.regs, table.chains
      ensures table.Valid() && Grown(config, old(Now()), q, Code(code), Now())
    {
      PagesLeft(table.regs[..], table.free, table.reserved, memory[..], config.frameSize);
      NextNumberIsFresh(table.regs[..], table.counts, q.pid);
      ghost var first := Tally(table.counts, q.pid);
      code := table.AssignPages(q.pid, q.pages, q.init);
      if code == SUCCESS {
        ContentsAfterGrant(old(table.regs[..]), old(table.free), table.regs[..], memory[..], config.frameSize, q,
             first);
      }
    }

    method GrantPages(q: PageTable.Request) returns (code: int)
      requires Consistent() && q.pid >= 1 && q.stackSize == config.stackSize
      modifies this`log, this`flats, table, table.regs, table.chains
      ensures Consistent() && (old(Valid()) ==> Valid()) && Grown(config, old(Now()), q, Code(code), Now())
      ensures log == old(log) + [Served(if q.init then InitProcess(q.pid, q.pages) else AssignPages(q.pid, q.pages),
                                        Code(code), !stale)]
      ensures flats == old(flats) + [Now()]
    {
      code := Grow(q);
      CoherentAfterChange(old(Now()).pages, cache.entries[..], cache.filled, Now().pages, cache.entries[..]);
      Note(Served(if q.init then InitProcess(q.pid, q.pages) else AssignPages(q.pid, q.pages), Code(code), !stale));
    }

    /** inicialize_process and assign_page */
    method InitializeProcess(pid: int, pages: nat) returns (code: int)
      requires Consistent() && pid >= 1
      modifies this`log, this`flats, table, table.regs, table.chains
      ensures Consistent() && (old(Valid()) ==> Valid())
      ensures log == old(log) + [Served(InitProcess(pid, pages), Code(code), !stale)] && flats == old(flats) + [Now()]
      ensures Grown(config, old(Now()), PageTable.Request(pid, pages, true, config.stackSize), Code(code), Now())
      ensures code == if pages > config.capacity - |old(Now()).pages| then ENOSPC else SUCCESS
      ensures code == SUCCESS ==>
                && (forall k :: Tally(old(Now()).counts, pid) <= k < Tally(old(Now()).counts, pid) + pages ==>
                      (pid, k) in Now().pages && (pid, k) !in old(Now()).pages)
                && forall key :: key in Now().pages && key !in old(Now()).pages ==>
                     Now().pages[key].segment
                       == if key.1 - Tally(old(Now()).counts, pid) < pages - config.stackSize then 'c' else 's'
    {
      code := GrantPages(PageTable.Request(pid, pages, true, config.stackSize));
    }

    method AssignPage(pid: int, pages: nat) returns (code: int)
      requires Consistent() && pid >= 1
      modifies this`log, this`flats, table, table.regs, table.chains
      ensures Consistent() && (old(Valid()) ==> Valid())
      ensures log == old(log) + [Served(AssignPages(pid, pages), Code(code), !stale)] && flats == old(flats) + [Now()]
      ensures Grown(config, old(Now()), PageTable.Request(pid, pages, false, config.stackSize), Code(code), Now())
      ensures code == if pages > config.capacity - |old(Now()).pages| then ENOSPC else SUCCESS
      ensures code == SUCCESS ==>
                && (forall k :: Tally(old(Now()).counts, pid) <= k < Tally(old(Now()).counts, pid) + pages ==>
                      (pid, k) in Now().pages && (pid, k) !in old(Now()).pages)
                && forall key :: key in Now().pages && key !in old(Now()).pages ==> Now().pages[key].segment == 'h'
    {
      code := GrantPages(PageTable.Request(pid, pages, false, config.stackSize));
    }

    /** The table's part of delete_page_process against the flat memory. */
    method ReleasePage(pid: int, page: int, junk: int)
      requires Layout() && table.Valid() && pid >= 1
      requires IsMapped(table.regs[..], pid, page) || table.chains[table.hash(pid, page)] != []
      modifies table`free, table.regs, table.chains
      ensures table.FramesOk() <==> old(IsMapped(table.regs[..], pid, page))
      ensures old(IsMapped(table.regs[..], pid, page)) ==>
                table.Valid() && Now() == old(Now()).(pages := Without(old(Now()).pages, pid, page, false))
    {
      ghost var frame := table.DeletePage(pid, page, junk);
      if old(IsMapped(table.regs[..], pid, page)) {
        ContentsAfterRelease(old(table.regs[..]), table.regs[..], memory[..], config.frameSize, pid, page, false);
      }
    }

    /** The table's part of cleaning_process_entries against the flat memory. */
    method ReleaseProcess(pid: int)
      requires Layout() && table.Valid() && pid >= 1
      modifies table, table.regs, table.chains
      ensures table.Valid()
      ensures Now().pages == Without(old(Now()).pages, pid, 0, true)
      ensures forall p :: Tally(Now().counts, p) == if p == pid then 0 else Tally(old(Now()).counts, p)
    {
      table.CleanProcess(pid);
      ContentsAfterRelease(old(table.regs[..]), table.regs[..], memory[..], config.frameSize, pid, 0, true);
    }

    /** The cache's part of delete_page_process: the entry of the page is freed. */
    method ForgetPage(ghost pages: Pages, pid: int, page: int) returns (ghost v: int)
      requires CacheSound(pages) && pid >= 0
      modifies cache, cache.entries
      ensures CacheSound(Without(pages, pid, page, false)) && (old(cache.Valid()) ==> cache.Valid())
            && Forgot(v, pid, page)
    {
      ghost var entries := cache.entries[..];
      v := cache.DropPage(pid, page);
      assert cache.Now().entries == cache.entries[..];
      CoherentAfterChange(pages, entries, cache.filled, Without(pages, pid, page, false), cache.entries[..]);
    }

    /** The cache's part of cleaning_process_entries: every entry of the process is freed. */
    method ForgetProcess(ghost pages: Pages, pid: int)
      requires CacheSound(pages) && pid >= 0
      modifies cache, cache.entries
      ensures CacheSound(Without(pages, pid, 0, true)) && (old(cache.Valid()) ==> cache.Valid())
      ensures cache.Now() == Cleared(old(cache.Now()), pid)
    {
      ghost var entries := cache.entries[..];
      cache.DropProcess(pid);
      assert cache.Now().entries == cache.entries[..];
      CoherentAfterChange(pages, entries, cache.filled, Without(pages, pid, 0, true), cache.entries[..]);
    }

    /** A page that leaves changes the entry that named it and its owner's first record, and nothing in the
        cache when no entry named it. */
    twostate predicate Forgot(v: int, pid: int, page: int)
      requires old(cache.Shape())
      reads cache, cache.entries, cache.lastUsed
    {
      if old(Missing(pid, page)) then cache.Now() == old(cache.Now())
      else 0 <= v < cache.size && old(Names(cache.entries[v], pid, page)) && cache.Now() == Dropped(old(cache.Now()), v)
    }

    /** delete_page_process: the table, then the cache. */
    method Delete(pid: int, page: int, junk: int) returns (ghost v: int)
      requires Layout() && table.Valid() && CacheSound(Now().pages) && pid >= 1
      requires IsMapped(table.regs[..], pid, page) || table.chains[table.hash(pid, page)] != []
      modifies table, table.regs, table.chains, cache, cache.entries
      ensures table.FramesOk() <==> old(IsMapped(table.regs[..], pid, page))
      ensures Forgot(v, pid, page) && (old(cache.Valid()) ==> cache.Valid())
      ensures old(IsMapped(table.regs[..], pid, page)) ==>
                && table.Valid() && Now() == old(Now()).(pages := Without(old(Now()).pages, pid, page, false))
                && CacheSound(Now().pages)
    {
      ghost var pages := Now().pages;
      ReleasePage(pid, page, junk);
      ghost var after, sound, valid := Now(), table.FramesOk(), table.Valid();
      v := ForgetPage(pages, pid, page);
      assert Now() == after && table.FramesOk() == sound && table.Valid() == valid;
    }

    ghost method NoteDeletion(was: Flat, pid: int, page: int)
      requires Layout() && table.Valid() && CacheSound(Now().pages)
      requires Refines(config, log, flats) && flats[|log|] == was
            && Now() == was.(pages := Without(was.pages, pid, page, false))
      modifies this`log, this`flats
      ensures Consistent() && log == old(log) + [Served(Request.DeletePage(pid, page), Code(EXIT_SUCCESS), !stale)]
      ensures flats == old(flats) + [Now()]
    {
      Note(Served(Request.DeletePage(pid, page), Code(EXIT_SUCCESS), !stale));
    }

    /** delete_page: answered as the flat memory answers it exactly when the page is mapped; otherwise it
        costs a page in the same bucket its frame, which stays in the overflow list. */
    method DeletePage(pid: int, page: int, junk: int) returns (code: int, ghost v: int)
      requires Consistent() && pid >= 1
      requires IsMapped(table.regs[..], pid, page) || table.chains[table.hash(pid, page)] != []
      modifies this`log, this`flats, table, table.regs, table.chains, cache, cache.entries
      ensures Consistent() <==> old(IsMapped(table.regs[..], pid, page))
      ensures Forgot(v, pid, page)
      ensures old(IsMapped(table.regs[..], pid, page)) ==>
                && log == old(log) + [Served(Request.DeletePage(pid, page), Code(code), !stale)]
                && flats == old(flats) + [Now()]
      ensures old(IsMapped(table.regs[..], pid, page)) ==>
                Now() == old(Now()).(pages := Without(old(Now()).pages, pid, page, false))
      ensures old(IsMapped(table.regs[..], pid, page)) && old(Valid()) ==> Valid()
    {
      ghost var was, mapped := Now(), IsMapped(table.regs[..], pid, page);
      v := Delete(pid, page, junk);
      code := EXIT_SUCCESS;
      if mapped {
        NoteDeletion(was, pid, page);
      }
    }

    /** finalize_process */
    method FinalizeProcess(pid: int) returns (code: int)
      requires Consistent() && pid >= 1
      modifies this`log, this`flats, table, table.regs, table.chains, cache, cache.entries
      ensures Consistent() && (old(Valid()) ==> Valid()) && cache.Now() == Cleared(old(cache.Now()), pid)
      ensures log == old(log) + [Served(EndProcess(pid), Code(code), !stale)] && flats == old(flats) + [Now()]
      ensures Now().pages == Without(old(Now()).pages, pid, 0, true)
      ensures forall p :: Tally(Now().counts, p) == if p == pid then 0 else Tally(old(Now()).counts, p)
    {
      ghost var pages := Now().pages;
      ReleaseProcess(pid);
      ForgetProcess(pages, pid);
      code := SUCCESS;
      Note(Served(EndProcess(pid), Code(code), !stale));
    }

    /** A write that misses the cache and a read of any part of the page after it: the answer is the page's bytes
        if and only if the entry taken held them already, outside the bytes written. */
    method WriteThenRead(client: int, pid: int, page: int, offset: nat, data: seq<byte>, at: nat, size: nat, now: int,
                         later: int)
        returns (r: Response, ghost v: int)
      requires Consistent() && pid >= 1 && Missing(pid, page) && !NoVictim(pid, page)
      requires WriteCode(config, Now().pages, client, (pid, page), offset, |data|) == SUCCESS
      requires !OutOfFrame(config, at, size)
      modifies this, memory, cache, cache.entries, cache.lastUsed
      ensures Consistent() && r.Data? && (pid, page) in Now().pages && |r.bytes| == size
      ensures 0 <= v < cache.size
      ensures Victim(old(cache.entries[..]), old(cache.lastUsed[..]), pid,
                     old(Exceeded(cache.quotas, pid, cache.limit)), v)
      ensures |old(cache.entries[v]).content| == |old(Now()).pages[(pid, page)].bytes| == config.frameSize
      ensures Now() == old(Now()).(pages := Written(old(Now()).pages, (pid, page), offset, data))
      ensures r.bytes == Splice(old(cache.entries[v]).content, offset, data)[at..at + size]
      ensures r.bytes == Now().pages[(pid, page)].bytes[at..at + size] <==>
              Held(old(cache.entries[v]).content, old(Now()).pages[(pid, page)].bytes, offset, |data|, at, size)
    {
      ghost var was, bytes := cache.entries[..], Now().pages[(pid, page)].bytes;
      r, v := WriteAndRead(client, pid, page, offset, data, at, size, now, later);
      StaleBytes(was[v].content, bytes, offset, data, at, size);
    }

    method WriteAndRead(client: int, pid: int, page: int, offset: nat, data: seq<byte>, at: nat, size: nat, now: int,
                        later: int)
        returns (r: Response, ghost v: int)
      requires Consistent() && pid >= 1 && Missing(pid, page) && !NoVictim(pid, page)
      requires WriteCode(config, Now().pages, client, (pid, page), offset, |data|) == SUCCESS
      requires !OutOfFrame(config, at, size)
      modifies this, memory, cache, cache.entries, cache.lastUsed
      ensures Consistent() && 0 <= v < cache.size
      ensures Victim(old(cache.entries[..]), old(cache.lastUsed[..]), pid,
                     old(Exceeded(cache.quotas, pid, cache.limit)), v)
      ensures |old(cache.entries[v]).content| == |old(Now()).pages[(pid, page)].bytes| == config.frameSize
      ensures Now() == old(Now()).(pages := Written(old(Now()).pages, (pid, page), offset, data))
      ensures r == Data(Splice(old(cache.entries[v]).content, offset, data)[at..at + size])
    {
      v := WriteMissing(client, pid, page, offset, data, now);
      r := ReadCached(pid, page, v, at, size, later);
    }

    /** A write that misses the cache: the victim has its bytes around the new ones. */
    method WriteMissing(client: int, pid: int, page: int, offset: nat, data: seq<byte>, now: int) returns (ghost v: int)
      requires Consistent() && pid >= 1 && Missing(pid, page) && !NoVictim(pid, page)
      requires WriteCode(config, Now().pages, client, (pid, page), offset, |data|) == SUCCESS
      modifies this, memory, cache, cache.entries, cache.lastUsed
      ensures Consistent() && 0 <= v < cache.size
      ensures Victim(old(cache.entries[..]), old(cache.lastUsed[..]), pid,
                     old(Exceeded(cache.quotas, pid, cache.limit)), v)
      ensures |old(cache.entries[v]).content| == |old(Now()).pages[(pid, page)].bytes| == config.frameSize
      ensures Now() == old(Now()).(pages := Written(old(Now()).pages, (pid, page), offset, data))
      ensures cache.entries[v] == Entry(pid, page, Splice(old(cache.entries[v]).content, offset, data))
    {
      var code;
      code, v := WritePage(client, pid, page, offset, data, now);
      assert cache.Now().entries[v] == cache.entries[v];
    }

    /** A read of a page that is in the cache answers with the content of its entry. */
    method ReadCached(pid: int, page: int, ghost v: int, at: nat, size: nat, now: int) returns (r: Response)
      requires Consistent() && pid >= 1 && !OutOfFrame(config, at, size) && 0 <= v < cache.size
            && Names(cache.entries[v], pid, page)
      modifies this`log, this`flats, cache, cache.entries, cache.lastUsed
      ensures Consistent() && Now() == old(Now()) && r == Data(old(cache.entries[v].content)[at..at + size])
    {
      assert Names(cache.entries[..][v], pid, page) && Backed(Now().pages, cache.entries[..][v], cache.filled[v]);
      ghost var w;
      r, w := ReadPage(pid, page, at, size, now);
      assert w == v;
    }
  }
}
