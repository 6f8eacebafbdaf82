/**
 Histories of requests to the memory server in which something goes wrong. Each starts from a new
 server, the last one from a new page table, and shows a failure that the contracts of MemoryServer,
 PageCache and PageTable describe.
 */
module MemoryHistories {
  import opened Lists
  import opened Records
  import opened Bytes
  import opened PageTable
  import opened PageCache
  import opened MemoryServer
  import HeapPage

  const FRAME := 64

  const SETUP := Config(FRAME, 12, 0, 0)

  /** A server of 16 frames, 4 of which hold the table. */
  method NewServer(cacheEntries: nat, quota: int) returns (s: Server)
    requires cacheEntries >= 1 && quota >= 1
    ensures fresh(s) && fresh(s.table) && fresh(s.table.regs) && fresh(s.table.chains)
    ensures fresh(s.cache) && fresh(s.cache.entries) && fresh(s.cache.lastUsed) && fresh(s.memory)
    ensures s.Valid() && s.config == SETUP && s.Now() == Flat(map[], [])
    ensures s.cache.size == cacheEntries && s.cache.limit == quota && s.cache.quotas == []
    ensures forall i :: 0 <= i < cacheEntries ==> Names(s.cache.entries[i], -1, -1)
  {
    s := new Server(16, FRAME, cacheEntries, quota, 0, 0, (p, q) => 0);
    assert ReservedFrames(16, FRAME) == 4;
  }

  lemma {:induction false} GivenPages(a: Flat, b: Flat, pid: int, n: nat, code: int)
    requires |a.pages| + n <= SETUP.capacity && Tally(a.counts, pid) == 0
          && Grown(SETUP, a, PageTable.Request(pid, n, false, 0), Code(code), b)
    ensures |b.pages| == |a.pages| + n
          && (forall key :: key in a.pages ==> key in b.pages && b.pages[key] == a.pages[key])
    ensures forall k :: 0 <= k < n ==> (pid, k) in b.pages && b.pages[(pid, k)].segment == HEAP_SEGMENT
    ensures forall p :: p != pid ==> Tally(b.counts, p) == Tally(a.counts, p)
  {
    AddedCount(a.pages, b.pages, PageTable.Request(pid, n, false, 0), 0, FRAME);
  }

  /** Heap pages for a process. */
  method Give(s: Server, pid: int, n: nat)
    requires s.Consistent() && pid >= 1 && s.config == SETUP && |s.Now().pages| + n <= SETUP.capacity
          && Tally(s.Now().counts, pid) == 0
    modifies s`log, s`flats, s.table, s.table.regs, s.table.chains
    ensures s.Consistent() && (old(s.Valid()) ==> s.Valid()) && |s.Now().pages| == |old(s.Now()).pages| + n
    ensures forall key :: key in old(s.Now()).pages ==>
              key in s.Now().pages && s.Now().pages[key] == old(s.Now()).pages[key]
    ensures forall k :: 0 <= k < n ==> (pid, k) in s.Now().pages && s.Now().pages[(pid, k)].segment == HEAP_SEGMENT
    ensures forall p :: p != pid ==> Tally(s.Now().counts, p) == Tally(old(s.Now()).counts, p)
  {
    ghost var was := s.Now();
    var code := s.AssignPage(pid, n);
    GivenPages(was, s.Now(), pid, n, code);
  }

  /** Heap pages for two processes of a new server. */
  method GiveBoth(s: Server, p: int, n: nat, q: int, m: nat)
    requires s.Consistent() && s.config == SETUP && s.Now() == Flat(map[], []) && 1 <= p < q && n + m <= SETUP.capacity
    modifies s`log, s`flats, s.table, s.table.regs, s.table.chains
    ensures s.Consistent() && |s.Now().pages| == n + m
    ensures forall r :: r != p && r != q ==> Tally(s.Now().counts, r) == 0
    ensures forall k :: 0 <= k < n ==> (p, k) in s.Now().pages
    ensures forall k :: 0 <= k < m ==> (q, k) in s.Now().pages
  {
    Give(s, p, n);
    Give(s, q, m);
  }

  /** What matters of a cache for its next victim: the pages its entries name, their times and the quota list. */
  datatype Sketch = Sketch(keys: seq<Key>, times: seq<int>, quotas: seq<Record>)

  ghost predicate Sketched(a: View, k: Sketch) {
    && |k.keys| == |a.entries| && k.times == a.lastUsed && k.quotas == a.quotas && |k.times| == |k.keys|
    && forall i :: 0 <= i < |k.keys| ==> Names(a.entries[i], k.keys[i].0, k.keys[i].1)
  }

  /** v is the entry to be replaced for pid. */
  ghost predicate Replaced(k: Sketch, limit: int, pid: int, v: int)
    requires |k.times| == |k.keys|
  {
    var entries := seq(|k.keys|, i requires 0 <= i < |k.keys| => Entry(k.keys[i].0, k.keys[i].1, []));
    Victim(entries, k.times, pid, Exceeded(k.quotas, pid, limit), v)
  }

  function Touched(k: Sketch, pid: int, page: int, now: int, v: int): Sketch
    requires 0 <= v < |k.keys| == |k.times|
  {
    Sketch(k.keys[v := (pid, page)], k.times[v := now],
           if k.keys[v].0 == pid then k.quotas else Walked(k.quotas, k.keys[v].0, pid))
  }

  lemma {:induction false} ReplacedIsVictim(a: View, k: Sketch, limit: int, pid: int, v: int)
    requires Sketched(a, k) && 0 <= v < |k.keys| && Replaced(k, limit, pid, v)
    ensures Victim(a.entries, a.lastUsed, pid, Exceeded(a.quotas, pid, limit), v)
          && !Starved(a.entries, a.quotas, limit, pid)
  {
    var entries := seq(|k.keys|, i requires 0 <= i < |k.keys| => Entry(k.keys[i].0, k.keys[i].1, []));
    assert forall i :: 0 <= i < |k.keys| ==> a.entries[i].pid == entries[i].pid;
    OwnedSome(a.entries, pid);
    if Exceeded(a.quotas, pid, limit) {
      assert a.entries[v].pid == pid;
    }
  }

  /** Without a free entry the one used least recently is replaced, and otherwise the first free one. */
  lemma {:induction false} LeastOf(k: Sketch, limit: int, pid: int, v: int)
    requires 0 <= v < |k.keys| == |k.times| && !Exceeded(k.quotas, pid, limit)
    requires forall i :: 0 <= i < |k.keys| ==> k.keys[i].0 >= 0 && (i != v ==> k.times[v] < k.times[i])
    ensures Replaced(k, limit, pid, v)
  {
  }

  lemma {:induction false} FreeOf(k: Sketch, limit: int, pid: int, v: int)
    requires 0 <= v < |k.keys| == |k.times| && !Exceeded(k.quotas, pid, limit) && k.keys[v].0 < 0
    requires forall i :: 0 <= i < v ==> k.keys[i].0 >= 0
    ensures Replaced(k, limit, pid, v)
  {
    var entries := seq(|k.keys|, i requires 0 <= i < |k.keys| => Entry(k.keys[i].0, k.keys[i].1, []));
    assert entries[v].pid < 0;
  }

  lemma {:induction false} KeysAreMissing(a: View, k: Sketch, pid: int, page: int)
    requires Sketched(a, k) && (pid, page) !in k.keys
    ensures Absent(a.entries, pid, page)
  {
    forall i | 0 <= i < |a.entries| ensures !Names(a.entries[i], pid, page) {
      assert k.keys[i] != (pid, page);
    }
  }

  lemma {:induction false} TookIsTouched(a: View, k: Sketch, v: int, pid: int, page: int, data: seq<byte>, now: int)
    requires Sketched(a, k) && 0 <= v < |k.keys| && |data| <= |a.entries[v].content|
    ensures Sketched(Took(a, v, pid, page, 0, data, now), Touched(k, pid, page, now, v))
  {
  }

  /** A read of a page that is not in the cache. */
  method Touch(s: Server, pid: int, page: int, now: int, ghost v: int, ghost k: Sketch)
    requires s.Consistent() && pid >= 1 && s.config.frameSize == FRAME && (pid, page) in s.Now().pages
    requires Sketched(s.cache.Now(), k) && 0 <= v < |k.keys| && Replaced(k, s.cache.limit, pid, v)
          && (pid, page) !in k.keys
    modifies s`log, s`flats, s.cache, s.cache.entries, s.cache.lastUsed
    ensures s.Consistent() && s.Now() == old(s.Now()) && Sketched(s.cache.Now(), Touched(k, pid, page, now, v))
  {
    ghost var a := s.cache.Now();
    ReplacedIsVictim(a, k, s.cache.limit, pid, v);
    KeysAreMissing(a, k, pid, page);
    var r := ReadMissing(s, pid, page, now, v);
    TookIsTouched(a, k, v, pid, page, s.Now().pages[(pid, page)].bytes, now);
  }

  method ReadMissing(s: Server, pid: int, page: int, now: int, ghost v: int) returns (r: Response)
    requires s.Consistent() && pid >= 1 && s.config.frameSize == FRAME && (pid, page) in s.Now().pages
          && s.Missing(pid, page)
    requires 0 <= v < s.cache.size
          && Victim(s.cache.entries[..], s.cache.lastUsed[..], pid, Exceeded(s.cache.quotas, pid, s.cache.limit), v)
    requires !Starved(s.cache.entries[..], s.cache.quotas, s.cache.limit, pid)
    modifies s`log, s`flats, s.cache, s.cache.entries, s.cache.lastUsed
    ensures s.Consistent() && s.Now() == old(s.Now()) && |s.Now().pages[(pid, page)].bytes| == FRAME
    ensures s.cache.Now() == Took(old(s.cache.Now()), v, pid, page, 0, s.Now().pages[(pid, page)].bytes, now)
  {
    ghost var a := s.cache.Now();
    ghost var w;
    r, w := s.ReadPage(pid, page, 0, 1, now);
    VictimIsOne(a.entries, a.lastUsed, pid, Exceeded(a.quotas, pid, s.cache.limit), v, w);
  }

  /** A read of a page that is not in the cache, with the entry it takes, or the deletion of a page that is,
      with its entry. */
  datatype Step =
    | Fetch(pid: int, page: int, v: int, now: int)
    | Erase(pid: int, page: int, v: int)

  ghost predicate Fits(k: Sketch, limit: int, e: Step) {
    && 0 <= e.v < |k.keys| == |k.times| && e.pid >= 1
    && match e
       case Fetch(pid, page, v, _) => (pid, page) !in k.keys && Replaced(k, limit, pid, v)
       case Erase(pid, page, v) => k.keys[v] == (pid, page)
  }

  ghost function After(k: Sketch, e: Step): Sketch
    requires 0 <= e.v < |k.keys| == |k.times|
  {
    match e
    case Fetch(pid, page, v, now) => Touched(k, pid, page, now, v)
    case Erase(pid, page, v) => Sketch(k.keys[v := (-1, -1)], k.times, LoweredFirst(k.quotas, pid))
  }

  /** ks are the sketches of a cache before, between and after these steps. */
  ghost predicate Chained(ks: seq<Sketch>, limit: int, steps: seq<Step>) {
    && |ks| == |steps| + 1
    && forall i :: 0 <= i < |steps| ==> Fits(ks[i], limit, steps[i]) && ks[i + 1] == After(ks[i], steps[i])
  }

  predicate Erased(steps: seq<Step>, n: nat, key: Key)
    requires n <= |steps|
  {
    exists i :: 0 <= i < n && steps[i].Erase? && (steps[i].pid, steps[i].page) == key
  }

  /** Every page the steps name is there, until it is deleted. */
  ghost predicate Available(pages: Pages, steps: seq<Step>) {
    forall i :: 0 <= i < |steps| ==>
      var key := (steps[i].pid, steps[i].page); key in pages && !Erased(steps, i, key)
  }

  method Play(s: Server, steps: seq<Step>, ghost ks: seq<Sketch>)
    requires s.Consistent() && s.config.frameSize == FRAME && Available(s.Now().pages, steps)
    requires Chained(ks, s.cache.limit, steps) && Sketched(s.cache.Now(), ks[0])
    modifies s`log, s`flats, s.table, s.table.regs, s.table.chains, s.cache, s.cache.entries, s.cache.lastUsed
    ensures s.Consistent() && Sketched(s.cache.Now(), ks[|steps|])
    ensures Kept(old(s.Now()).pages, s.Now().pages, steps, |steps|)
  {
    ghost var pages := s.Now().pages;
    for i := 0 to |steps|
      invariant s.Consistent() && Sketched(s.cache.Now(), ks[i]) && Kept(pages, s.Now().pages, steps, i)
    {
      ghost var mid := s.Now().pages;
      StillThere(pages, mid, steps, i);
      PlayStep(s, steps[i], ks[i]);
      KeptNext(pages, mid, s.Now().pages, steps, i);
    }
  }

  /** No page is gone but those erased by the first n steps. */
  ghost predicate Kept(pages: Pages, pages': Pages, steps: seq<Step>, n: nat)
    requires n <= |steps|
  {
    forall key :: key in pages && !Erased(steps, n, key) ==> key in pages'
  }

  lemma {:induction false} StillThere(pages: Pages, mid: Pages, steps: seq<Step>, i: nat)
    requires i < |steps| && Available(pages, steps) && Kept(pages, mid, steps, i)
    ensures (steps[i].pid, steps[i].page) in mid
  {
    var key := (steps[i].pid, steps[i].page);
    assert key in pages && !Erased(steps, i, key);
  }

  lemma {:induction false} KeptNext(pages: Pages, mid: Pages, pages': Pages, steps: seq<Step>, i: nat)
    requires i < |steps| && Kept(pages, mid, steps, i) && KeptBut(mid, pages', steps[i])
    ensures Kept(pages, pages', steps, i + 1)
  {
    forall key | key in pages && !Erased(steps, i + 1, key) ensures key in pages' {
      assert !Erased(steps, i, key);
      assert steps[i].Erase? ==> key != (steps[i].pid, steps[i].page);
    }
  }

  /** No page is gone but the one erased. */
  ghost predicate KeptBut(pages: Pages, pages': Pages, e: Step) {
    forall key :: key in pages && (e.Erase? ==> key != (e.pid, e.page)) ==> key in pages'
  }

  method PlayStep(s: Server, e: Step, ghost k: Sketch)
    requires s.Consistent() && s.config.frameSize == FRAME && (e.pid, e.page) in s.Now().pages
    requires Fits(k, s.cache.limit, e) && Sketched(s.cache.Now(), k)
    modifies s`log, s`flats, s.table, s.table.regs, s.table.chains, s.cache, s.cache.entries, s.cache.lastUsed
    ensures s.Consistent() && Sketched(s.cache.Now(), After(k, e))
    ensures KeptBut(old(s.Now()).pages, s.Now().pages, e)
  {
    match e
    case Fetch(pid, page, v, now) => Touch(s, pid, page, now, v, k);
    case Erase(pid, page, v) => Remove(s, pid, page, v, k);
  }

  /** The deletion of a page that is in the cache. */
  method Remove(s: Server, pid: int, page: int, ghost v: int, ghost k: Sketch)
    requires s.Consistent() && pid >= 1 && (pid, page) in s.Now().pages
    requires Sketched(s.cache.Now(), k) && 0 <= v < |k.keys| && k.keys[v] == (pid, page)
    modifies s`log, s`flats, s.table, s.table.regs, s.table.chains, s.cache, s.cache.entries, s.cache.lastUsed
    ensures s.Consistent() && Sketched(s.cache.Now(), After(k, Erase(pid, page, v)))
    ensures s.Now() == old(s.Now()).(pages := Without(old(s.Now()).pages, pid, page, false))
  {
    ghost var a := s.cache.Now();
    var code;
    ghost var w;
    code, w := s.DeletePage(pid, page, 0);
    EntryIsOne(a, k, v, w);
  }

  lemma {:induction false} EntryIsOne(a: View, k: Sketch, v: int, w: int)
    requires Distinct(a.entries) && Sketched(a, k) && 0 <= v < |k.keys| && k.keys[v].0 >= 0
    ensures !Absent(a.entries, k.keys[v].0, k.keys[v].1)
    ensures 0 <= w < |k.keys| && Names(a.entries[w], k.keys[v].0, k.keys[v].1) ==> v == w
  {
    assert Names(a.entries[v], k.keys[v].0, k.keys[v].1);
  }

  // ---- the quota skip ----

  const SKIP := [Fetch(3, 0, 0, 1), Fetch(2, 0, 1, 2), Fetch(2, 1, 0, 3)]

  /** The cache before, between and after the reads of SKIP. */
  ghost function Skipping(t: seq<int>): seq<Sketch>
    requires |t| == 2
  {
    [Sketch([(-1, -1), (-1, -1)], t, []),
     Sketch([(3, 0), (-1, -1)], [1, t[1]], [Record(3, 1)]),
     Sketch([(3, 0), (2, 0)], [1, 2], [Record(3, 1), Record(2, 1)]),
     Sketch([(2, 1), (2, 0)], [3, 2], [Record(2, 1), Record(2, 1)])]
  }

  lemma {:induction false} SkipChained(t: seq<int>)
    requires |t| == 2
    ensures Chained(Skipping(t), 2, SKIP)
  {
    var ks := Skipping(t);
    assert Fits(ks[0], 2, SKIP[0]) && ks[1] == After(ks[0], SKIP[0]) by {
      assert Walk([], 0, -1, 3, false, false) == ([], false);
      assert ks[0].keys[0].0 < 0;
    }
    assert Fits(ks[1], 2, SKIP[1]) && ks[2] == After(ks[1], SKIP[1]) by {
      assert Walk([Record(3, 1)], 1, -1, 2, false, false) == ([Record(3, 1)], false);
      assert ks[1].quotas[1..] == [] && ks[1].keys[1].0 < 0;
    }
    assert Fits(ks[2], 2, SKIP[2]) && ks[3] == After(ks[2], SKIP[2]) by {
      assert ks[2].quotas[1..] == [Record(2, 1)];
      SkippedList();
    }
  }

  lemma {:induction false} SkipAvailable(pages: Pages)
    requires (2, 0) in pages && (2, 1) in pages && (3, 0) in pages
    ensures Available(pages, SKIP)
  {
  }

  method SkipFrom(s: Server)
    requires s.Consistent() && s.config == SETUP && s.Now() == Flat(map[], []) && s.cache.size == s.cache.limit == 2
    requires s.cache.quotas == [] && forall i :: 0 <= i < 2 ==> Names(s.cache.entries[i], -1, -1)
    modifies s`log, s`flats, s.table, s.table.regs, s.table.chains, s.cache, s.cache.entries, s.cache.lastUsed
    ensures s.Consistent() && s.cache.quotas == [Record(2, 1), Record(2, 1)]
  {
    ghost var t := s.cache.lastUsed[..];
    assert Sketched(s.cache.Now(), Skipping(t)[0]);
    GiveBoth(s, 2, 2, 3, 1);
    SkipChained(t);
    SkipAvailable(s.Now().pages);
    Play(s, SKIP, Skipping(t));
  }

  /** Two entries and a quota of two: process 3 reads a page, process 2 reads a page and then another one.
      The walk removes the record of 3 and steps over that of 2, which then has two records. */
  method QuotaSkip() returns (s: Server)
    ensures fresh(s) && s.Consistent() && !s.cache.Valid() && s.cache.quotas == [Record(2, 1), Record(2, 1)]
  {
    s := NewServer(2, 2);
    SkipFrom(s);
    SkippedList();
  }

  lemma {:induction false} SkippedList()
    ensures Walked([Record(3, 1), Record(2, 1)], 3, 2) == [Record(2, 1), Record(2, 1)]
    ensures !OneRecordEach([Record(2, 1), Record(2, 1)])
  {
    var q := [Record(3, 1), Record(2, 1)];
    assert LoweredAt(q, 0) == [Record(2, 1)];
    assert Walk([Record(2, 1)], 1, 3, 2, false, true) == ([Record(2, 1)], false);
    var d := [Record(2, 1), Record(2, 1)];
    assert d[0].pid == d[1].pid;
  }

  // ---- a process without a victim ----

  // The reads and deletions after which process 2 is recorded at its quota without an entry, in parts.

  const OPENING := [Fetch(2, 0, 0, 1), Fetch(3, 0, 1, 2), Fetch(4, 0, 2, 3)]
  const DOUBLING := [Fetch(3, 1, 0, 4), Fetch(2, 0, 1, 5), Fetch(2, 1, 2, 6), Fetch(2, 2, 0, 7)]
  const REFILLING := [Erase(2, 0, 1), Fetch(3, 0, 1, 8), Fetch(2, 3, 2, 9), Fetch(2, 1, 0, 10), Fetch(2, 2, 1, 11)]
  const EMPTYING := [Erase(2, 3, 2), Erase(2, 1, 0), Erase(2, 2, 1)]

  /** Each process reads one page into a free entry. */
  ghost function Opening(t: seq<int>): seq<Sketch>
    requires |t| == 3
  {
    [Sketch([(-1, -1), (-1, -1), (-1, -1)], t, []),
     Sketch([(2, 0), (-1, -1), (-1, -1)], [1, t[1], t[2]], [Record(2, 1)]),
     Sketch([(2, 0), (3, 0), (-1, -1)], [1, 2, t[2]], [Record(2, 1), Record(3, 1)]),
     Sketch([(2, 0), (3, 0), (4, 0)], [1, 2, 3], [Record(2, 1), Record(3, 1), Record(4, 1)])]
  }

  /** The record of process 2 is skipped, and then both its records are raised. */
  const DOUBLED := [
    Sketch([(2, 0), (3, 0), (4, 0)], [1, 2, 3], [Record(2, 1), Record(3, 1), Record(4, 1)]),
    Sketch([(3, 1), (3, 0), (4, 0)], [4, 2, 3], [Record(3, 1), Record(4, 1), Record(3, 1)]),
    Sketch([(3, 1), (2, 0), (4, 0)], [4, 5, 3], [Record(4, 1), Record(2, 1)]),
    Sketch([(3, 1), (2, 0), (2, 1)], [4, 5, 6], [Record(2, 1), Record(2, 1)]),
    Sketch([(2, 2), (2, 0), (2, 1)], [7, 5, 6], [Record(2, 2), Record(2, 2)])]

  /** A deletion lowers the first record only; another entry raises both again. */
  const REFILLED := [
    Sketch([(2, 2), (2, 0), (2, 1)], [7, 5, 6], [Record(2, 2), Record(2, 2)]),
    Sketch([(2, 2), (-1, -1), (2, 1)], [7, 5, 6], [Record(2, 1), Record(2, 2)]),
    Sketch([(2, 2), (3, 0), (2, 1)], [7, 8, 6], [Record(2, 1), Record(2, 2), Record(3, 1)]),
    Sketch([(2, 2), (3, 0), (2, 3)], [7, 8, 9], [Record(2, 1), Record(2, 2), Record(3, 1)]),
    Sketch([(2, 1), (3, 0), (2, 3)], [10, 8, 9], [Record(2, 1), Record(2, 2), Record(3, 1)]),
    Sketch([(2, 1), (2, 2), (2, 3)], [10, 11, 9], [Record(2, 2), Record(2, 3)])]

  /** Without entries, the second record is left. */
  const EMPTIED := [
    Sketch([(2, 1), (2, 2), (2, 3)], [10, 11, 9], [Record(2, 2), Record(2, 3)]),
    Sketch([(2, 1), (2, 2), (-1, -1)], [10, 11, 9], [Record(2, 1), Record(2, 3)]),
    Sketch([(-1, -1), (2, 2), (-1, -1)], [10, 11, 9], [Record(2, 3)]),
    Sketch([(-1, -1), (-1, -1), (-1, -1)], [10, 11, 9], [Record(2, 2)])]

  lemma {:induction false} OpeningChained(t: seq<int>)
    requires |t| == 3
    ensures Chained(Opening(t), 2, OPENING)
  {
    var ks := Opening(t);
    assert Fits(ks[0], 2, OPENING[0]) && ks[1] == After(ks[0], OPENING[0]) by {
      assert Walk([], 0, -1, 2, false, false) == ([], false);
      assert ks[0].keys[0].0 < 0;
    }
    assert Fits(ks[1], 2, OPENING[1]) && ks[2] == After(ks[1], OPENING[1]) by {
      assert Walk([Record(2, 1)], 1, -1, 3, false, false) == ([Record(2, 1)], false);
      assert ks[1].quotas[1..] == [] && ks[1].keys[1].0 < 0;
    }
    assert Fits(ks[2], 2, OPENING[2]) && ks[3] == After(ks[2], OPENING[2]) by {
      var q := [Record(2, 1), Record(3, 1)];
      assert Walk(q, 2, -1, 4, false, false) == (q, false);
      assert Walk(q, 1, -1, 4, false, false) == (q, false);
      TallyNone(q, 4);
      assert ks[2].keys[2].0 < 0;
    }
  }

  lemma {:induction false} DoublingWalks()
    ensures Walked([Record(2, 1), Record(3, 1), Record(4, 1)], 2, 3) == [Record(3, 1), Record(4, 1), Record(3, 1)]
    ensures Walked([Record(3, 1), Record(4, 1), Record(3, 1)], 3, 2) == [Record(4, 1), Record(2, 1)]
    ensures Walked([Record(4, 1), Record(2, 1)], 4, 2) == [Record(2, 1), Record(2, 1)]
    ensures Walked([Record(2, 1), Record(2, 1)], 3, 2) == [Record(2, 2), Record(2, 2)]
  {
    var a := [Record(2, 1), Record(3, 1), Record(4, 1)];
    assert LoweredAt(a, 0) == [Record(3, 1), Record(4, 1)];
    assert Walk([Record(3, 1), Record(4, 1)], 2, 2, 3, false, true) == ([Record(3, 1), Record(4, 1)], false);
    var b := [Record(3, 1), Record(4, 1), Record(3, 1)];
    assert LoweredAt(b, 0) == [Record(4, 1), Record(3, 1)];
    assert LoweredAt([Record(4, 1), Record(3, 1)], 1) == [Record(4, 1)];
    assert Walk([Record(4, 1)], 2, 3, 2, false, true) == ([Record(4, 1)], false);
    assert Walk([Record(4, 1), Record(3, 1)], 1, 3, 2, false, true) == ([Record(4, 1)], false);
    var c := [Record(4, 1), Record(2, 1)];
    assert LoweredAt(c, 0) == [Record(2, 1)];
    assert Walk([Record(2, 1)], 1, 4, 2, false, true) == ([Record(2, 1)], false);
    var d := [Record(2, 1), Record(2, 1)];
    assert RaisedAt(d, 0) == [Record(2, 2), Record(2, 1)];
    assert RaisedAt([Record(2, 2), Record(2, 1)], 1) == [Record(2, 2), Record(2, 2)];
    assert Walk([Record(2, 2), Record(2, 2)], 2, 3, 2, true, false) == ([Record(2, 2), Record(2, 2)], true);
    assert Walk([Record(2, 2), Record(2, 1)], 1, 3, 2, true, false) == ([Record(2, 2), Record(2, 2)], true);
  }

  lemma {:induction false} DoublingChained()
    ensures Chained(DOUBLED, 2, DOUBLING)
  {
    DoublingFirst();
    DoublingLast();
  }

  lemma {:induction false} DoublingFirst()
    ensures Fits(DOUBLED[0], 2, DOUBLING[0]) && DOUBLED[1] == After(DOUBLED[0], DOUBLING[0])
    ensures Fits(DOUBLED[1], 2, DOUBLING[1]) && DOUBLED[2] == After(DOUBLED[1], DOUBLING[1])
  {
    DoublingWalks();
    assert Tally(DOUBLED[0].quotas[1..], 3) == 1;
    TallyNone(DOUBLED[1].quotas, 2);
    LeastOf(DOUBLED[0], 2, 3, 0);
    LeastOf(DOUBLED[1], 2, 2, 1);
  }

  lemma {:induction false} DoublingLast()
    ensures Fits(DOUBLED[2], 2, DOUBLING[2]) && DOUBLED[3] == After(DOUBLED[2], DOUBLING[2])
    ensures Fits(DOUBLED[3], 2, DOUBLING[3]) && DOUBLED[4] == After(DOUBLED[3], DOUBLING[3])
  {
    DoublingWalks();
    assert Tally(DOUBLED[2].quotas[1..], 2) == 1;
    LeastOf(DOUBLED[2], 2, 2, 2);
    LeastOf(DOUBLED[3], 2, 2, 0);
  }

  lemma {:induction false} RefillingWalks()
    ensures LoweredFirst([Record(2, 2), Record(2, 2)], 2) == [Record(2, 1), Record(2, 2)]
    ensures Walked([Record(2, 1), Record(2, 2)], -1, 3) == [Record(2, 1), Record(2, 2), Record(3, 1)]
    ensures Walked([Record(2, 1), Record(2, 2), Record(3, 1)], 3, 2) == [Record(2, 2), Record(2, 3)]
  {
    var a := [Record(2, 1), Record(2, 2)];
    assert Walk(a, 2, -1, 3, false, false) == (a, false);
    assert Walk(a, 1, -1, 3, false, false) == (a, false);
    var b, c := [Record(2, 1), Record(2, 2), Record(3, 1)], [Record(2, 2), Record(2, 2), Record(3, 1)];
    var d := [Record(2, 2), Record(2, 3), Record(3, 1)];
    assert RaisedAt(b, 0) == c && RaisedAt(c, 1) == d && LoweredAt(d, 2) == [Record(2, 2), Record(2, 3)];
    assert Walk(d, 2, 3, 2, true, false) == ([Record(2, 2), Record(2, 3)], true);
    assert Walk(c, 1, 3, 2, true, false) == ([Record(2, 2), Record(2, 3)], true);
  }

  lemma {:induction false} RefillingChained()
    ensures Chained(REFILLED, 2, REFILLING)
  {
    RefillingFirst();
    RefillingOwn();
    RefillingLast();
  }

  lemma {:induction false} RefillingFirst()
    ensures Fits(REFILLED[0], 2, REFILLING[0]) && REFILLED[1] == After(REFILLED[0], REFILLING[0])
    ensures Fits(REFILLED[1], 2, REFILLING[1]) && REFILLED[2] == After(REFILLED[1], REFILLING[1])
  {
    RefillingWalks();
    TallyNone(REFILLED[1].quotas, 3);
    FreeOf(REFILLED[1], 2, 3, 1);
  }

  lemma {:induction false} RefillingOwn()
    ensures Fits(REFILLED[2], 2, REFILLING[2]) && REFILLED[3] == After(REFILLED[2], REFILLING[2])
    ensures Fits(REFILLED[3], 2, REFILLING[3]) && REFILLED[4] == After(REFILLED[3], REFILLING[3])
  {
    LeastOf(REFILLED[2], 2, 2, 2);
    LeastOf(REFILLED[3], 2, 2, 0);
  }

  lemma {:induction false} RefillingLast()
    ensures Fits(REFILLED[4], 2, REFILLING[4]) && REFILLED[5] == After(REFILLED[4], REFILLING[4])
  {
    RefillingWalks();
    LeastOf(REFILLED[4], 2, 2, 1);
  }

  lemma {:induction false} EmptyingChained()
    ensures Chained(EMPTIED, 2, EMPTYING)
  {
    var ks := EMPTIED;
    assert Fits(ks[0], 2, EMPTYING[0]) && ks[1] == After(ks[0], EMPTYING[0]);
    assert Fits(ks[1], 2, EMPTYING[1]) && ks[2] == After(ks[1], EMPTYING[1]) by {
      assert RemoveAt(ks[1].quotas, 0) == [Record(2, 3)];
    }
    assert Fits(ks[2], 2, EMPTYING[2]) && ks[3] == After(ks[2], EMPTYING[2]);
  }

  /** The pages of the three processes that the history names. */
  ghost predicate Wanted(pages: Pages) {
    (forall k :: 0 <= k < 5 ==> (2, k) in pages) && (3, 0) in pages && (3, 1) in pages && (4, 0) in pages
  }

  ghost predicate WantedLast(pages: Pages) {
    forall k :: 1 <= k < 5 ==> (2, k) in pages
  }

  lemma {:induction false} FirstAvailable(pages: Pages)
    requires Wanted(pages)
    ensures Available(pages, OPENING) && Available(pages, DOUBLING)
    ensures forall key :: !Erased(OPENING, 3, key) && !Erased(DOUBLING, 4, key)
  {
  }

  lemma {:induction false} RefillingAvailable(pages: Pages)
    requires Wanted(pages)
    ensures Available(pages, REFILLING) && forall key :: Erased(REFILLING, 5, key) ==> key == (2, 0)
  {
  }

  lemma {:induction false} EmptyingAvailable(pages: Pages)
    requires WantedLast(pages)
    ensures Available(pages, EMPTYING) && !Erased(EMPTYING, 3, (2, 4))
  {
  }

  method GiveAll(s: Server)
    requires s.Consistent() && s.config == SETUP && s.Now() == Flat(map[], [])
    modifies s`log, s`flats, s.table, s.table.regs, s.table.chains
    ensures s.Consistent() && Wanted(s.Now().pages)
  {
    GiveBoth(s, 2, 5, 3, 2);
    Give(s, 4, 1);
  }

  method PlayOpening(s: Server)
    requires s.Consistent() && s.config.frameSize == FRAME && Wanted(s.Now().pages) && s.cache.size == 3
          && s.cache.limit == 2
    requires s.cache.quotas == [] && forall i :: 0 <= i < 3 ==> Names(s.cache.entries[i], -1, -1)
    modifies s`log, s`flats, s.table, s.table.regs, s.table.chains, s.cache, s.cache.entries, s.cache.lastUsed
    ensures s.Consistent() && Wanted(s.Now().pages) && Sketched(s.cache.Now(), DOUBLED[0])
  {
    ghost var t := s.cache.lastUsed[..];
    assert Sketched(s.cache.Now(), Opening(t)[0]);
    OpeningChained(t);
    FirstAvailable(s.Now().pages);
    Play(s, OPENING, Opening(t));
  }

  method PlayDoubling(s: Server)
    requires s.Consistent() && s.config.frameSize == FRAME && Wanted(s.Now().pages) && s.cache.limit == 2
    requires Sketched(s.cache.Now(), DOUBLED[0])
    modifies s`log, s`flats, s.table, s.table.regs, s.table.chains, s.cache, s.cache.entries, s.cache.lastUsed
    ensures s.Consistent() && Wanted(s.Now().pages) && Sketched(s.cache.Now(), REFILLED[0])
  {
    DoublingChained();
    FirstAvailable(s.Now().pages);
    Play(s, DOUBLING, DOUBLED);
  }

  method PlayRefilling(s: Server)
    requires s.Consistent() && s.config.frameSize == FRAME && Wanted(s.Now().pages) && s.cache.limit == 2
    requires Sketched(s.cache.Now(), REFILLED[0])
    modifies s`log, s`flats, s.table, s.table.regs, s.table.chains, s.cache, s.cache.entries, s.cache.lastUsed
    ensures s.Consistent() && WantedLast(s.Now().pages) && Sketched(s.cache.Now(), EMPTIED[0])
  {
    RefillingChained();
    RefillingAvailable(s.Now().pages);
    Play(s, REFILLING, REFILLED);
  }

  method PlayEmptying(s: Server)
    requires s.Consistent() && s.config.frameSize == FRAME && WantedLast(s.Now().pages) && s.cache.limit == 2
    requires Sketched(s.cache.Now(), EMPTIED[0])
    modifies s`log, s`flats, s.table, s.table.regs, s.table.chains, s.cache, s.cache.entries, s.cache.lastUsed
    ensures s.Consistent() && (2, 4) in s.Now().pages && s.NoVictim(2, 4)
  {
    EmptyingChained();
    EmptyingAvailable(s.Now().pages);
    Play(s, EMPTYING, EMPTIED);
    EmptiedStarves(s.cache.Now());
  }

  lemma {:induction false} EmptiedStarves(a: View)
    requires Sketched(a, EMPTIED[3])
    ensures Absent(a.entries, 2, 4) && Starved(a.entries, a.quotas, 2, 2)
  {
    OwnedSome(a.entries, 2);
  }

  method PlayAll(s: Server)
    requires s.Consistent() && s.config.frameSize == FRAME && Wanted(s.Now().pages) && s.cache.size == 3
          && s.cache.limit == 2
    requires s.cache.quotas == [] && forall i :: 0 <= i < 3 ==> Names(s.cache.entries[i], -1, -1)
    modifies s`log, s`flats, s.table, s.table.regs, s.table.chains, s.cache, s.cache.entries, s.cache.lastUsed
    ensures s.Consistent() && (2, 4) in s.Now().pages && s.NoVictim(2, 4)
  {
    PlayOpening(s);
    PlayDoubling(s);
    PlayRefilling(s);
    PlayEmptying(s);
  }

  method StarveFrom(s: Server)
    requires s.Consistent() && s.config == SETUP && s.Now() == Flat(map[], []) && s.cache.size == 3
          && s.cache.limit == 2
    requires s.cache.quotas == [] && forall i :: 0 <= i < 3 ==> Names(s.cache.entries[i], -1, -1)
    modifies s`log, s`flats, s.table, s.table.regs, s.table.chains, s.cache, s.cache.entries, s.cache.lastUsed
    ensures s.Consistent() && (2, 4) in s.Now().pages && s.NoVictim(2, 4)
  {
    GiveAll(s);
    PlayAll(s);
  }

  /** Three entries and a quota of two: reads of three processes and deletions of pages of the second leave
      process 2 without an entry and recorded at its quota, so that a request for its last page finds no
      entry to replace. */
  method StarvationReached() returns (s: Server)
    ensures fresh(s) && s.Consistent() && (2, 4) in s.Now().pages && s.NoVictim(2, 4)
  {
    s := NewServer(3, 2);
    StarveFrom(s);
  }

  // ---- a stale read ----

  function Filled(b: byte): (bytes: seq<byte>)
    ensures |bytes| == FRAME && forall k :: 0 <= k < FRAME ==> bytes[k] == b
  {
    seq(FRAME, _ => b)
  }

  lemma {:induction false} WholeSplice(was: seq<byte>, bytes: seq<byte>)
    requires |was| == |bytes|
    ensures Splice(was, 0, bytes) == bytes
  {
  }

  /** The one entry is free, or process 1 has it. */
  ghost predicate OneEntry(s: Server)
    reads s, s.table, s.table.regs, s.table.chains, s.cache, s.cache.entries, s.memory
  {
    && s.Consistent() && s.config == SETUP && s.cache.size == s.cache.limit == 1
    && ((s.cache.entries[0].pid == -1 && s.cache.quotas == [])
        || (s.cache.entries[0].pid == 1 && s.cache.quotas == [Record(1, 1)]))
  }

  /** What a write of a whole page leaves of the one entry. */
  lemma {:induction false} WholeTook(a: View, page: int, bytes: seq<byte>, now: int)
    requires |a.entries| == |a.lastUsed| == 1 && |a.entries[0].content| == |bytes|
    requires (a.entries[0].pid == -1 && a.quotas == []) || (a.entries[0].pid == 1 && a.quotas == [Record(1, 1)])
    ensures !Starved(a.entries, a.quotas, 1, 1)
    ensures Took(a, 0, 1, page, 0, bytes, now) == View([Entry(1, page, bytes)], [now], [Record(1, 1)])
  {
    OwnedSome(a.entries, 1);
    assert Walk([], 0, -1, 1, false, false) == ([], false);
    WholeSplice(a.entries[0].content, bytes);
  }

  /** A write of a whole page through a cache of one entry. */
  method WriteWhole(s: Server, page: int, bytes: seq<byte>, now: int)
    requires OneEntry(s) && s.Missing(1, page) && |bytes| == FRAME
    requires (1, page) in s.Now().pages && s.Now().pages[(1, page)].segment == HEAP_SEGMENT
    modifies s, s.memory, s.cache, s.cache.entries, s.cache.lastUsed
    ensures OneEntry(s) && s.cache.entries[0] == Entry(1, page, bytes)
    ensures s.Now().pages == old(s.Now()).pages[(1, page) := Page(HEAP_SEGMENT, bytes)]
  {
    ghost var a, was := s.cache.Now(), s.Now().pages[(1, page)].bytes;
    assert a.entries[0] == s.cache.entries[0];
    WholeTook(a, page, bytes, now);
    var code;
    ghost var v;
    code, v := s.WritePage(1, 1, page, 0, bytes, now);
    assert v == 0 && s.cache.Now().entries[0] == s.cache.entries[0];
    WholeSplice(was, bytes);
  }

  /** The bytes of page 0 of process 1, and that the one entry holds its page 1 with these bytes. */
  ghost predicate BothWritten(s: Server, first: seq<byte>, second: seq<byte>)
    reads s, s.table, s.table.regs, s.table.chains, s.cache, s.cache.entries, s.memory
  {
    && OneEntry(s) && (1, 0) in s.Now().pages && s.Now().pages[(1, 0)] == Page(HEAP_SEGMENT, first)
    && s.cache.entries[0] == Entry(1, 1, second)
  }

  method WriteBoth(s: Server, first: seq<byte>, second: seq<byte>)
    requires OneEntry(s) && s.cache.entries[0].pid == -1 && (1, 0) in s.Now().pages && (1, 1) in s.Now().pages
    requires s.Now().pages[(1, 0)].segment == s.Now().pages[(1, 1)].segment == HEAP_SEGMENT
    requires |first| == |second| == FRAME
    modifies s, s.memory, s.cache, s.cache.entries, s.cache.lastUsed
    ensures BothWritten(s, first, second)
  {
    WriteWhole(s, 0, first, 1);
    WriteWhole(s, 1, second, 2);
  }

  /** Some bytes of the first page: the entry it takes still holds the other page, and a read of the whole page
      answers with that page's bytes around the new ones. */
  method WriteSome(s: Server, ghost first: seq<byte>, ghost second: seq<byte>, offset: nat, data: seq<byte>)
      returns (r: Response)
    requires BothWritten(s, first, second) && |first| == |second| == FRAME && offset + |data| <= FRAME && data != []
    modifies s, s.memory, s.cache, s.cache.entries, s.cache.lastUsed
    ensures s.Consistent() && (1, 0) in s.Now().pages && r == Data(Splice(second, offset, data))
    ensures s.Now().pages[(1, 0)].bytes == Splice(first, offset, data)
  {
    assert s.cache.entries[..][0] == s.cache.entries[0];
    OwnedSome(s.cache.entries[..], 1);
    ghost var v;
    r, v := s.WriteThenRead(1, 1, 0, offset, data, 0, FRAME, 3, 4);
    assert v == 0 && r.bytes == Splice(second, offset, data)[0..FRAME] == Splice(second, offset, data);
  }

  method WriteThree(s: Server, first: seq<byte>, second: seq<byte>, offset: nat, data: seq<byte>)
      returns (r: Response)
    requires OneEntry(s) && s.cache.entries[0].pid == -1 && s.Now() == Flat(map[], [])
    requires |first| == |second| == FRAME && offset + |data| <= FRAME && data != []
    modifies s, s.memory, s.table, s.table.regs, s.table.chains, s.cache, s.cache.entries, s.cache.lastUsed
    ensures s.Consistent() && (1, 0) in s.Now().pages && r == Data(Splice(second, offset, data))
    ensures s.Now().pages[(1, 0)].bytes == Splice(first, offset, data)
  {
    Give(s, 1, 2);
    WriteBoth(s, first, second);
    r := WriteSome(s, first, second, offset, data);
  }

  /** Both pages of a process written in full and then some bytes of the first: a read of it answers with the
      second page around those bytes. */
  method StaleRead(first: seq<byte>, second: seq<byte>, offset: nat, data: seq<byte>)
      returns (s: Server, r: Response)
    requires |first| == |second| == FRAME && offset + |data| <= FRAME && data != []
    ensures fresh(s) && s.Consistent() && (1, 0) in s.Now().pages
    ensures s.Now().pages[(1, 0)].bytes == Splice(first, offset, data) && r == Data(Splice(second, offset, data))
    ensures forall k :: 0 <= k < FRAME && !(offset <= k < offset + |data|) && first[k] != second[k] ==>
              r.bytes[k] != s.Now().pages[(1, 0)].bytes[k]
  {
    s := NewServer(1, 1);
    r := WriteThree(s, first, second, offset, data);
  }

  // ---- a heap page misread ----

  /** A size that does not fit is no layout. */
  lemma {:induction false} NoLayout(page: seq<byte>, bs: HeapPage.Blocks)
    requires |page| == FRAME && page[0] == page[1] == page[2] == page[3] == 2
    ensures !HeapPage.Tiles(page, 0, bs, FRAME)
  {
    assert page[0..4] == [2, 2, 2, 2];
    assert FromBytes([2, 2, 2, 2]) == 0x0202_0202 by {
      assert FromBytes([2]) == 2;
      assert [2, 2][1..] == [2] && [2, 2, 2][1..] == [2, 2] && [2, 2, 2, 2][1..] == [2, 2, 2];
    }
  }

  /** A heap page, another page of the process, and a program that stores four bytes into a block of the first
      that it has: the kernel, which reads that page whole before it allocates or frees, gets bytes that are no
      heap page. The frame still holds the same blocks. */
  method HeapMisread(page: seq<byte>, ghost bs: HeapPage.Blocks, off: int, ghost z: int, value: seq<byte>)
      returns (s: Server, r: Response)
    requires HeapPage.Tiles(page, 0, bs, FRAME) && |page| == FRAME && |value| == 4
    requires HeapPage.IsLive(bs, 0, off, z) && z >= 4
    ensures fresh(s) && s.Consistent() && (1, 0) in s.Now().pages && r.Data? && |r.bytes| == FRAME
    ensures HeapPage.Tiles(s.Now().pages[(1, 0)].bytes, 0, bs, FRAME)
    ensures forall any :: !HeapPage.Tiles(r.bytes, 0, any, FRAME)
  {
    HeapPage.LiveBounds(page, 0, bs, FRAME, off, z);
    s, r := StaleRead(page, Filled(2), off + HeapPage.HEADER, value);
    HeapPage.StoreKeeps(page, s.Now().pages[(1, 0)].bytes, 0, bs, FRAME, off, z);
    forall any ensures !HeapPage.Tiles(r.bytes, 0, any, FRAME) {
      NoLayout(r.bytes, any);
    }
  }

  // ---- a page deleted for another ----

  /** Process 1 has one page, in an overflow list; a page that process 2 does not have is in the same bucket. */
  method DeleteFrom(t: Table, junk: int)
    requires t.FramesOk() && t.reserved == 2 && t.frames == 8 && (forall p, q :: t.hash(p, q) == 0)
    requires IsMapped(t.regs[..], 1, 0) && forall f :: Mapped(t.regs[..], f) ==> PageIsRight(t.regs[..], f, 1, 0)
    modifies t, t.regs, t.chains
    ensures !IsMapped(t.regs[..], 1, 0) && !t.FramesOk()
  {
    ghost var regs := t.regs[..];
    ghost var f :| PageIsRight(regs, f, 1, 0);
    assert Mapped(regs, f) && f != 0;
    FrameIsReachable(regs, t.chains[..], t.hash, f);
    assert f in t.chains[..][0] && t.chains[0] == t.chains[..][0];
    assert forall g :: !PageIsRight(regs, g, 2, 0);
    ghost var frame := t.DeletePage(2, 0, junk);
    assert PageIsRight(regs, frame, 1, 0) && frame == f;
    forall g ensures !PageIsRight(t.regs[..], g, 1, 0) {
      assert PageIsRight(regs, g, 1, 0) ==> g == f;
    }
  }

  /** Deleting a page that process 2 does not have takes the page of process 1. */
  method DeleteForAnother(junk: int) returns (t: Table)
    ensures fresh(t) && !IsMapped(t.regs[..], 1, 0) && !t.FramesOk()
  {
    t := new Table(8, FRAME, 0, (p, q) => 0);
    assert t.reserved == 2;
    ghost var before := t.regs[..];
    assert before[2].pid == 0 && 2 in t.free;
    var code := t.AssignPages(1, 1, false);
    assert forall f :: Mapped(t.regs[..], f) ==> t.regs[..][f] != before[f];
    DeleteFrom(t, junk);
  }
}
