/**
 The inverted page table of the memory server (memoria/src/memoria.c): one
 register per frame, a list of available frames, one overflow list per hash
 bucket and a counter of pages per process.

 Registers of reserved frames carry pid -1, those of available frames pid 0, so
 a register describes a mapped page exactly when its pid is at least 1.
 */
module PageTable {
  import opened Lists
  import opened Records

  const SUCCESS := 1
  const ENOSPC := -203

  const CODE_SEGMENT := 'c'
  const STACK_SEGMENT := 's'
  const HEAP_SEGMENT := 'h'
  const NO_SEGMENT := ' '

  const REG_SIZE := 16  // sizeof(t_reg_invert_table)

  datatype Reg = Reg(pid: int, page: int, segment: char)

  const AVAILABLE := Reg(0, 0, NO_SEGMENT)

  /** The register of frame f names (pid, page). */
  predicate PageIsRight(regs: seq<Reg>, f: int, pid: int, page: int) {
    0 <= f < |regs| && regs[f].pid == pid && regs[f].page == page
  }

  predicate Mapped(regs: seq<Reg>, f: int) {
    0 <= f < |regs| && regs[f].pid >= 1
  }

  ghost predicate IsMapped(regs: seq<Reg>, pid: int, page: int) {
    exists f :: PageIsRight(regs, f, pid, page)
  }

  /** No page is held by two frames. */
  ghost predicate Unique(regs: seq<Reg>) {
    forall f, g :: Mapped(regs, f) && PageIsRight(regs, g, regs[f].pid, regs[f].page) ==> f == g
  }

  /** Reserved, available and mapped frames partition the frames. */
  ghost predicate Partitioned(regs: seq<Reg>, free: seq<int>, reserved: int) {
    && NoDuplicates(free)
    && (forall f :: 0 <= f < |regs| ==> (f < reserved <==> regs[f].pid < 0))
    && (forall f :: f in free <==> 0 <= f < |regs| && regs[f].pid == 0)
  }

  /** Each overflow list holds exactly the displaced frames of its bucket, once each. */
  ghost predicate ChainsExact(regs: seq<Reg>, chains: seq<seq<int>>, hash: (int, int) -> int) {
    |chains| == |regs| && forall b :: 0 <= b < |chains| ==> ChainExact(regs, chains[b], hash, b)
  }

  ghost predicate ChainExact(regs: seq<Reg>, chain: seq<int>, hash: (int, int) -> int, b: int) {
    NoDuplicates(chain) && forall f :: f in chain <==> Mapped(regs, f) && f != b && hash(regs[f].pid, regs[f].page) == b
  }

  ghost predicate TableOk(regs: seq<Reg>, free: seq<int>, chains: seq<seq<int>>, reserved: int,
                          hash: (int, int) -> int) {
    Unique(regs) && Partitioned(regs, free, reserved) && ChainsExact(regs, chains, hash)
  }

  /** Every mapped page has been numbered below its process's counter. */
  ghost predicate Numbered(regs: seq<Reg>, counts: seq<Record>) {
    && OneRecordEach(counts)
    && (forall f :: Mapped(regs, f) ==> 0 <= regs[f].page < Tally(counts, regs[f].pid))
  }

  // ---- one page given a frame, one frame given back ----

  lemma {:induction false} UniqueAfterPlacing(regs: seq<Reg>, f: int, r: Reg)
    requires Unique(regs) && 0 <= f < |regs| && !IsMapped(regs, r.pid, r.page)
    ensures Unique(regs[f := r])
  {
    var regs' := regs[f := r];
    forall g, g' | Mapped(regs', g) && PageIsRight(regs', g', regs'[g].pid, regs'[g].page)
      ensures g == g'
    {
      if g == f {
        assert g' != f ==> PageIsRight(regs, g', r.pid, r.page);
      } else if g' == f {
        assert PageIsRight(regs, g, r.pid, r.page);
      } else {
        assert PageIsRight(regs, g', regs[g].pid, regs[g].page);
      }
    }
  }

  lemma {:induction false} UniqueAfterReleasing(regs: seq<Reg>, f: int)
    requires Unique(regs) && 0 <= f < |regs|
    ensures Unique(regs[f := AVAILABLE])
  {
    var regs' := regs[f := AVAILABLE];
    forall g, g' | Mapped(regs', g) && PageIsRight(regs', g', regs'[g].pid, regs'[g].page)
      ensures g == g'
    {
      assert PageIsRight(regs, g', regs[g].pid, regs[g].page);
    }
  }

  /** The overflow lists after frame f, now described by r, was placed for its bucket. */
  function Chained(chains: seq<seq<int>>, bucket: int, f: int): seq<seq<int>>
    requires 0 <= bucket < |chains|
  {
    if f == bucket then chains else chains[bucket := chains[bucket] + [f]]
  }

  /** The overflow lists after frame f of that bucket was given back. */
  function Unchained(chains: seq<seq<int>>, bucket: int, f: int): seq<seq<int>>
    requires 0 <= bucket < |chains| && (f == bucket || f in chains[bucket])
  {
    if f == bucket then chains else chains[bucket := RemoveAt(chains[bucket], IndexOf(chains[bucket], f))]
  }

  /** A bucket's list after a page took frame f. */
  lemma {:induction false} ChainAfterPlacing(regs: seq<Reg>, chain: seq<int>, hash: (int, int) -> int, f: int, r: Reg,
                                             c: int)
    requires ChainExact(regs, chain, hash, c) && 0 <= f < |regs| && !Mapped(regs, f) && r.pid >= 1
    ensures ChainExact(regs[f := r], if hash(r.pid, r.page) == c && f != c then chain + [f] else chain, hash, c)
  {
    var regs' := regs[f := r];
    var chain' := if hash(r.pid, r.page) == c && f != c then chain + [f] else chain;
    assert f !in chain;
    AppendFacts(chain, f);
    forall g ensures g in chain' <==> Mapped(regs', g) && g != c && hash(regs'[g].pid, regs'[g].page) == c {
      assert g in chain <==> Mapped(regs, g) && g != c && hash(regs[g].pid, regs[g].page) == c;
    }
  }

  lemma {:induction false} ChainsAfterPlacing(regs: seq<Reg>, chains: seq<seq<int>>, hash: (int, int) -> int, f: int,
                                              r: Reg)
    requires ChainsExact(regs, chains, hash)
    requires 0 <= f < |regs| && !Mapped(regs, f) && r.pid >= 1 && 0 <= hash(r.pid, r.page) < |regs|
    ensures ChainsExact(regs[f := r], Chained(chains, hash(r.pid, r.page), f), hash)
  {
    var regs', chains' := regs[f := r], Chained(chains, hash(r.pid, r.page), f);
    forall c | 0 <= c < |chains'| ensures ChainExact(regs', chains'[c], hash, c) {
      ChainAfterPlacing(regs, chains[c], hash, f, r, c);
    }
  }

  /** A bucket's list after frame f was given back. */
  lemma {:induction false} ChainAfterReleasing(regs: seq<Reg>, chain: seq<int>, hash: (int, int) -> int, f: int, c: int)
    requires ChainExact(regs, chain, hash, c) && Mapped(regs, f)
    ensures f in chain <==> hash(regs[f].pid, regs[f].page) == c && f != c
    ensures ChainExact(regs[f := AVAILABLE], if f in chain then RemoveAt(chain, IndexOf(chain, f)) else chain, hash, c)
  {
    var regs' := regs[f := AVAILABLE];
    var chain' := if f in chain then RemoveAt(chain, IndexOf(chain, f)) else chain;
    if f in chain {
      RemoveAtFacts(chain, IndexOf(chain, f));
    }
    forall g ensures g in chain' <==> Mapped(regs', g) && g != c && hash(regs'[g].pid, regs'[g].page) == c {
      assert g in chain <==> Mapped(regs, g) && g != c && hash(regs[g].pid, regs[g].page) == c;
    }
  }

  lemma {:induction false} ChainsAfterReleasing(regs: seq<Reg>, chains: seq<seq<int>>, hash: (int, int) -> int, f: int)
    requires ChainsExact(regs, chains, hash)
    requires Mapped(regs, f) && 0 <= hash(regs[f].pid, regs[f].page) < |regs|
    ensures var b := hash(regs[f].pid, regs[f].page);
            (f == b || f in chains[b]) && ChainsExact(regs[f := AVAILABLE], Unchained(chains, b, f), hash)
  {
    var b := hash(regs[f].pid, regs[f].page);
    ChainAfterReleasing(regs, chains[b], hash, f, b);
    var regs', chains' := regs[f := AVAILABLE], Unchained(chains, b, f);
    forall c | 0 <= c < |chains'| ensures ChainExact(regs', chains'[c], hash, c) {
      ChainAfterReleasing(regs, chains[c], hash, f, c);
    }
  }

  /** A page given an available frame keeps the table consistent. */
  lemma {:induction false} TableAfterPlacing(regs: seq<Reg>, free: seq<int>, chains: seq<seq<int>>, reserved: int,
                                             hash: (int, int) -> int, f: int, r: Reg)
    requires TableOk(regs, free, chains, reserved, hash)
    requires f in free && r.pid >= 1 && !IsMapped(regs, r.pid, r.page) && 0 <= hash(r.pid, r.page) < |regs|
    ensures TableOk(regs[f := r], RemoveAt(free, IndexOf(free, f)), Chained(chains, hash(r.pid, r.page), f), reserved,
         hash)
  {
    UniqueAfterPlacing(regs, f, r);
    RemoveAtFacts(free, IndexOf(free, f));
    ChainsAfterPlacing(regs, chains, hash, f, r);
  }

  /** A frame given back keeps the table consistent. */
  lemma {:induction false} TableAfterReleasing(regs: seq<Reg>, free: seq<int>, chains: seq<seq<int>>, reserved: int,
                                               hash: (int, int) -> int, f: int)
    requires TableOk(regs, free, chains, reserved, hash)
    requires Mapped(regs, f) && 0 <= hash(regs[f].pid, regs[f].page) < |regs|
    ensures var b := hash(regs[f].pid, regs[f].page);
            (f == b || f in chains[b])
              && TableOk(regs[f := AVAILABLE], free + [f], Unchained(chains, b, f), reserved, hash)
  {
    UniqueAfterReleasing(regs, f);
    ChainsAfterReleasing(regs, chains, hash, f);
  }

  function LastOr(list: seq<int>, otherwise: int): int {
    if list == [] then otherwise else list[|list| - 1]
  }

  /** The frame holds a page whose hash names that frame. */
  predicate InPlace(regs: seq<Reg>, hash: (int, int) -> int, f: int) {
    Mapped(regs, f) && hash(regs[f].pid, regs[f].page) == f
  }

  /** A frame given back without looking at the overflow lists keeps the table consistent exactly when it
      held a page in place, which is then lost. */
  lemma {:induction false} TableAfterMistake(regs: seq<Reg>, free: seq<int>, chains: seq<seq<int>>, reserved: int,
                                             hash: (int, int) -> int, f: int)
    requires TableOk(regs, free, chains, reserved, hash) && 0 <= f < |regs| && forall p, q :: 0 <= hash(p, q) < |regs|
    ensures TableOk(regs[f := AVAILABLE], free + [f], chains, reserved, hash) <==> InPlace(regs, hash, f)
  {
    var regs' := regs[f := AVAILABLE];
    if InPlace(regs, hash, f) {
      TableAfterReleasing(regs, free, chains, reserved, hash, f);
    } else if Mapped(regs, f) {
      FrameIsReachable(regs, chains, hash, f);
      assert f in chains[hash(regs[f].pid, regs[f].page)] && !Mapped(regs', f);
      assert !ChainsExact(regs', chains, hash);
    } else if regs[f].pid == 0 {
      var k :| 0 <= k < |free| && free[k] == f;
      assert (free + [f])[k] == (free + [f])[|free|];
    } else {
      assert regs'[f].pid == 0 && f < reserved;
    }
  }

  /** A mapped page is in the frame its hash names or in that bucket's overflow list. */
  lemma {:induction false} FrameIsReachable(regs: seq<Reg>, chains: seq<seq<int>>, hash: (int, int) -> int, f: int)
    requires ChainsExact(regs, chains, hash) && Mapped(regs, f)
    requires 0 <= hash(regs[f].pid, regs[f].page) < |regs|
    ensures var b := hash(regs[f].pid, regs[f].page); f == b || f in chains[b]
  {
  }

  /** A request for pages: assign_pages_to_process decides each page's segment from it. */
  datatype Request = Request(pid: int, pages: nat, init: bool, stackSize: int) {
    /** The segment of its k-th page. */
    function Segment(k: int): char {
      if !init then HEAP_SEGMENT else if pages - stackSize - k > 0 then CODE_SEGMENT else STACK_SEGMENT
    }
  }

  /** regs' is regs with the first n pages of a request, numbered from first, placed in available frames. */
  ghost predicate Granted(regs: seq<Reg>, free: seq<int>, regs': seq<Reg>, q: Request, first: int, n: int) {
    && |regs'| == |regs|
    && (forall f :: 0 <= f < |regs| && regs'[f] != regs[f] ==>
          f in free && regs'[f].pid == q.pid && first <= regs'[f].page < first + n
          && regs'[f].segment == q.Segment(regs'[f].page - first))
    && (forall k :: first <= k < first + n ==> IsMapped(regs', q.pid, k))
  }

  /** And the frames still available are some of those at first. */
  lemma {:induction false} GrantNext(regs: seq<Reg>, free: seq<int>, mid: seq<Reg>, left: seq<int>, q: Request,
                                     first: int, n: nat, f: int)
    requires Granted(regs, free, mid, q, first, n) && NoDuplicates(left) && f in left
    requires (forall g :: g in left ==> g in free) && 0 <= f < |regs| && mid[f].pid == 0 && q.pid >= 1
    ensures Granted(regs, free, mid[f := Reg(q.pid, first + n, q.Segment(n))], q, first, n + 1)
    ensures forall g :: g in RemoveAt(left, IndexOf(left, f)) ==> g in free
  {
    RemoveAtFacts(left, IndexOf(left, f));
    GrantOne(regs, free, mid, q, first, n, f);
  }

  lemma {:induction false} GrantOne(regs: seq<Reg>, free: seq<int>, mid: seq<Reg>, q: Request, first: int, n: nat,
                                    f: int)
    requires Granted(regs, free, mid, q, first, n)
    requires 0 <= f < |regs| && f in free && mid[f].pid == 0 && q.pid >= 1
    ensures Granted(regs, free, mid[f := Reg(q.pid, first + n, q.Segment(n))], q, first, n + 1)
  {
    var regs' := mid[f := Reg(q.pid, first + n, q.Segment(n))];
    forall k | first <= k < first + n + 1 ensures IsMapped(regs', q.pid, k) {
      if k == first + n {
        assert PageIsRight(regs', f, q.pid, k);
      } else {
        assert IsMapped(mid, q.pid, k);
        var g :| PageIsRight(mid, g, q.pid, k);
        assert PageIsRight(regs', g, q.pid, k);
      }
    }
  }

  /** The next number of a process is never in use. */
  lemma {:induction false} NextNumberIsFresh(regs: seq<Reg>, counts: seq<Record>, pid: int)
    requires Numbered(regs, counts) && pid >= 1
    ensures forall k :: k >= Tally(counts, pid) ==> !IsMapped(regs, pid, k)
  {
    forall k, f | PageIsRight(regs, f, pid, k) ensures k < Tally(counts, pid) {
      assert Mapped(regs, f);
    }
  }

  /** The frames that the table itself takes, if there are as many. */
  function ReservedFrames(frames: nat, frameSize: nat): int
    requires frameSize >= 1
  {
    var size := REG_SIZE * frames;
    var n := size / frameSize + if size % frameSize > 0 then 1 else 0;
    if n <= frames then n else frames
  }

  /** They are just enough for its registers. */
  lemma {:induction false} ReservedIsEnough(frames: nat, frameSize: nat)
    requires frameSize >= 1
    ensures 0 <= ReservedFrames(frames, frameSize) <= frames
    ensures var n := ReservedFrames(frames, frameSize);
            n < frames ==> n * frameSize >= REG_SIZE * frames && (n - 1) * frameSize < REG_SIZE * frames
  {
    var size := REG_SIZE * frames;
    var q, r := size / frameSize, size % frameSize;
    assert size == q * frameSize + r && (q + 1) * frameSize == q * frameSize + frameSize
          && (q - 1) * frameSize == q * frameSize - frameSize;
  }

  /** memoria.c keeps these as globals; `load` builds them. */
  class Table {
    const frames: nat
    const reserved: int
    const stackSize: int
    const hash: (int, int) -> int
    const regs: array<Reg>
    const chains: array<seq<int>>
    var free: seq<int>
    var counts: seq<Record>

    ghost predicate Shape()
    {
      && frames == regs.Length == chains.Length
      && 0 <= reserved <= frames
      && (forall p, q :: 0 <= hash(p, q) < frames)
    }

    ghost predicate FramesOk()
      reads this, regs, chains
    {
      Shape() && TableOk(regs[..], free, chains[..], reserved, hash)
    }

    ghost predicate Valid()
      reads this, regs, chains
    {
      FramesOk() && Numbered(regs[..], counts)
    }

    /** load: the frames that hold the table itself are reserved, all others available. */
    constructor (frames: nat, frameSize: nat, stackSize: int, hash: (int, int) -> int)
      requires frameSize >= 1
      requires forall p, q :: 0 <= hash(p, q) < frames
      ensures Valid() && fresh(regs) && fresh(chains)
      ensures this.frames == frames && this.stackSize == stackSize && this.hash == hash
      ensures counts == [] && forall f :: 0 <= f < frames ==> !Mapped(regs[..], f)
      ensures reserved == ReservedFrames(frames, frameSize)
      ensures reserved < frames ==> reserved * frameSize >= 16 * frames && (reserved - 1) * frameSize < 16 * frames
      ensures 0 <= reserved <= frames && |free| == frames - reserved
      ensures forall i :: 0 <= i < |free| ==> free[i] == reserved + i
    {
      ReservedIsEnough(frames, frameSize);
      var firstFree := ReservedFrames(frames, frameSize);
      this.frames, this.stackSize, this.hash := frames, stackSize, hash;
      reserved := firstFree;
      regs := new Reg[frames](_ => AVAILABLE);
      chains := new seq<int>[frames](_ => []);
      free, counts := [], [];
      new;
      var frame := 0;
      while frame < frames
        invariant 0 <= frame <= frames
        invariant forall f :: 0 <= f < frame ==> regs[f].pid == if f < reserved then -1 else 0
        invariant forall f :: frame <= f < frames ==> regs[f] == AVAILABLE
        invariant forall f :: f in free <==> reserved <= f < frame
        invariant NoDuplicates(free)
        invariant |free| == (if frame < reserved then 0 else frame - reserved)
        invariant forall i :: 0 <= i < |free| ==> free[i] == reserved + i
        invariant forall b :: 0 <= b < frames ==> chains[b] == []
        invariant counts == []
      {
        if frame < reserved {
          regs[frame] := Reg(-1, frame, NO_SEGMENT);
        } else {
          assert frame !in free;
          free := free + [frame];
          regs[frame] := AVAILABLE;
        }
        frame := frame + 1;
      }
    }

    /** frame_is_available: also takes the frame out of the list when it is there. */
    method FrameIsAvailable(frame: int) returns (b: bool)
      modifies this`free
      ensures b == (frame in old(free))
      ensures free == if b then RemoveAt(old(free), IndexOf(old(free), frame)) else old(free)
    {
      var index := 0;
      while index < |free|
        invariant 0 <= index <= |free| && free == old(free)
        invariant frame !in free[..index]
      {
        if frame == free[index] {
          assert index == IndexOf(free, frame);
          free := RemoveAt(free, index);
          return true;
        }
        index := index + 1;
      }
      return false;
    }

    /** searching_on_overflow: the first frame of the bucket's list that holds the page, or -1. */
    method SearchingOnOverflow(bucket: int, pid: int, page: int) returns (frame: int)
      requires 0 <= bucket < chains.Length
      ensures frame >= -1
      ensures frame >= 0 ==> frame in chains[bucket] && PageIsRight(regs[..], frame, pid, page)
      ensures frame < 0 ==> forall f :: f in chains[bucket] ==> !PageIsRight(regs[..], f, pid, page)
    {
      var index := 0;
      while index < |chains[bucket]|
        invariant 0 <= index <= |chains[bucket]|
        invariant forall f :: f in chains[bucket][..index] ==> !PageIsRight(regs[..], f, pid, page)
      {
        frame := chains[bucket][index];
        if PageIsRight(regs[..], frame, pid, page) {
          return;
        }
        index := index + 1;
      }
      assert chains[bucket][..index] == chains[bucket];
      frame := -1;
    }

    /** get_frame: finds the frame of a page exactly when the page is mapped. */
    method GetFrame(pid: int, page: int) returns (frame: int)
      requires FramesOk() && pid >= 1
      ensures frame >= 0 <==> IsMapped(regs[..], pid, page)
      ensures frame >= 0 ==> PageIsRight(regs[..], frame, pid, page)
    {
      var hFrame := hash(pid, page);
      if PageIsRight(regs[..], hFrame, pid, page) {
        frame := hFrame;
      } else {
        frame := SearchingOnOverflow(hFrame, pid, page);
        forall f | PageIsRight(regs[..], f, pid, page) ensures f in chains[hFrame] {
          FrameIsReachable(regs[..], chains[..], hash, f);
          assert chains[..][hFrame] == chains[hFrame];
        }
      }
    }

    /** inicialize_page: the frame the hash names when it is available, else the head of the
        available list, recorded in the bucket's overflow list. */
    method InitializePage(pid: int, page: int, segment: char) returns (ghost frame: int)
      requires FramesOk() && free != []
      requires pid >= 1 && !IsMapped(regs[..], pid, page)
      modifies this`free, regs, chains
      ensures FramesOk()
      ensures frame == if hash(pid, page) in old(free) then hash(pid, page) else old(free)[0]
      ensures frame in old(free) && regs[..] == old(regs[..])[frame := Reg(pid, page, segment)]
      ensures free == RemoveAt(old(free), IndexOf(old(free), frame))
    {
      var hFrame := hash(pid, page);
      var target: int;
      var available := FrameIsAvailable(hFrame);
      if available {
        target := hFrame;
      } else {
        target := free[0];
        free := RemoveAt(free, 0);
        chains[hFrame] := chains[hFrame] + [target];
      }
      frame := target;
      assert target in old(free);
      regs[target] := Reg(pid, page, segment);
      assert regs[..] == old(regs[..])[frame := Reg(pid, page, segment)];
      assert chains[..] == Chained(old(chains[..]), hFrame, frame);
      TableAfterPlacing(old(regs[..]), old(free), old(chains[..]), reserved, hash, frame, Reg(pid, page, segment));
    }

    /** assign_pages_to_process: all the pages or none. */
    method AssignPages(pid: int, required: nat, init: bool) returns (code: int)
      requires Valid() && pid >= 1
      modifies this`free, this`counts, regs, chains
      ensures Valid()
      ensures code == if required > |old(free)| then ENOSPC else SUCCESS
      ensures code == ENOSPC ==>
                && free == old(free) && counts == old(counts) && regs[..] == old(regs[..])
                && chains[..] == old(chains[..])
      ensures code == SUCCESS ==>
                && |free| == |old(free)| - required
                && Granted(old(regs[..]), old(free), regs[..], Request(pid, required, init, stackSize),
                     old(Tally(counts, pid)), required)
                && (forall p :: Tally(counts, p) == old(Tally(counts, p)) + if p == pid then required else 0)
    {
      if |free| < required {
        return ENOSPC;
      }
      var at := LocateRecord(pid);
      PlacePages(at, Request(pid, required, init, stackSize));
      return SUCCESS;
    }

    /** The loop of assign_pages_to_process over the required pages. */
    method PlacePages(at: int, q: Request)
      requires Valid() && q.pages <= |free|
      requires 0 <= at < |counts| && counts[at].pid == q.pid && q.pid >= 1
      modifies this`free, this`counts, regs, chains
      ensures Valid() && |free| == |old(free)| - q.pages
      ensures Granted(old(regs[..]), old(free), regs[..], q, old(counts[at].n), q.pages)
      ensures forall p :: Tally(counts, p) == old(Tally(counts, p)) + if p == q.pid then q.pages else 0
    {
      ghost var first := counts[at].n;
      var codePages := q.pages - q.stackSize;
      var i := 0;
      while i < q.pages
        invariant 0 <= i <= q.pages
        invariant Valid()
        invariant 0 <= at < |counts| && counts[at] == Record(q.pid, first + i)
        invariant forall p :: Tally(counts, p) == old(Tally(counts, p)) + if p == q.pid then i else 0
        invariant q.init ==> codePages == q.pages - q.stackSize - i
        invariant |free| == |old(free)| - i
        invariant forall f :: f in free ==> f in old(free)
        invariant Granted(old(regs[..]), old(free), regs[..], q, first, i)
      {
        ghost var before, beforeFree := regs[..], free;
        var segment := if q.init then if codePages > 0 then CODE_SEGMENT else STACK_SEGMENT else HEAP_SEGMENT;
        ghost var f := PlaceNextPage(at, segment);
        GrantNext(old(regs[..]), old(free), before, beforeFree, q, first, i, f);
        if q.init {
          codePages := codePages - 1;
        }
        i := i + 1;
      }
    }

    /** One turn of that loop: the counter is raised and the page it numbers is placed. */
    method PlaceNextPage(at: int, segment: char) returns (ghost frame: int)
      requires Valid() && free != []
      requires 0 <= at < |counts| && counts[at].pid >= 1
      modifies this`free, this`counts, regs, chains
      ensures Valid()
      ensures counts == old(counts)[at := Record(old(counts)[at].pid, old(counts)[at].n + 1)]
      ensures forall p :: Tally(counts, p) == old(Tally(counts, p)) + if p == old(counts)[at].pid then 1 else 0
      ensures frame in old(free) && free == RemoveAt(old(free), IndexOf(old(free), frame))
      ensures old(regs[..])[frame].pid == 0
      ensures regs[..] == old(regs[..])[frame := Reg(old(counts)[at].pid, old(counts)[at].n, segment)]
    {
      var pid := counts[at].pid;
      NextNumberIsFresh(regs[..], counts, pid);
      TallyAt(counts, at);
      counts := counts[at := Record(pid, counts[at].n + 1)];
      forall p ensures Tally(counts, p) == old(Tally(counts, p)) + if p == pid then 1 else 0 {
        TallyUpdate(old(counts), at, old(counts)[at].n + 1, p);
      }
      frame := InitializePage(pid, counts[at].n - 1, segment);
    }

    /** The record of a process, added with no pages when the process has none. */
    method LocateRecord(pid: int) returns (at: int)
      requires OneRecordEach(counts)
      modifies this`counts
      ensures OneRecordEach(counts) && 0 <= at < |counts|
      ensures counts[at] == Record(pid, old(Tally(counts, pid)))
      ensures forall p :: Tally(counts, p) == old(Tally(counts, p))
    {
      at := 0;
      while at < |counts|
        invariant 0 <= at <= |counts|
        invariant forall j :: 0 <= j < at ==> counts[j].pid != pid
      {
        if counts[at].pid == pid {
          TallyAt(counts, at);
          return;
        }
        at := at + 1;
      }
      TallyNone(counts, pid);
      forall p ensures Tally(counts + [Record(pid, 0)], p) == Tally(counts, p) {
        TallyAppend(counts, Record(pid, 0), p);
      }
      counts := counts + [Record(pid, 0)];
    }

    /** The frame that the search of delete_page_process ends on, out of its overflow list if it is the page's.
        junk is what its variable holds before anything is stored there. */
    method SearchToDelete(pid: int, page: int, junk: int) returns (target: int)
      requires FramesOk() && pid >= 1
      modifies chains
      ensures old(IsMapped(regs[..], pid, page)) ==>
                PageIsRight(regs[..], target, pid, page)
                && chains[..] == Unchained(old(chains[..]), hash(pid, page), target)
      ensures !old(IsMapped(regs[..], pid, page)) ==> chains[..] == old(chains[..])
      ensures !old(IsMapped(regs[..], pid, page)) ==> target == LastOr(old(chains[hash(pid, page)]), junk)
      ensures old(IsMapped(regs[..], pid, page)) ==> target == hash(pid, page) || target in old(chains[hash(pid, page)])
    {
      var hFrame := hash(pid, page);
      if PageIsRight(regs[..], hFrame, pid, page) {
        return hFrame;
      }
      forall f | PageIsRight(regs[..], f, pid, page) ensures f in chains[hFrame] {
        FrameIsReachable(regs[..], chains[..], hash, f);
        assert chains[..][hFrame] == chains[hFrame];
      }
      target := junk;
      var index := 0;
      while index < |chains[hFrame]|
        invariant 0 <= index <= |chains[hFrame]| && chains[..] == old(chains[..])
        invariant target == if index == 0 then junk else chains[hFrame][index - 1]
        invariant forall f :: f in chains[hFrame][..index] ==> !PageIsRight(regs[..], f, pid, page)
      {
        target := chains[hFrame][index];
        if PageIsRight(regs[..], target, pid, page) {
          assert index == IndexOf(chains[hFrame], target);
          chains[hFrame] := RemoveAt(chains[hFrame], index);
          return;
        }
        index := index + 1;
      }
      assert chains[hFrame][..index] == chains[hFrame];
    }

    /** delete_page_process, up to the cache. The source frees whatever frame its search ended on: the page's
        own when it is mapped, and otherwise the last frame of the bucket's list or, if that is empty, the one
        that an uninitialized variable names. The table then stays sound only by an accident. */
    method DeletePage(pid: int, page: int, junk: int) returns (ghost frame: int)
      requires FramesOk() && pid >= 1
      requires IsMapped(regs[..], pid, page) || chains[hash(pid, page)] != [] || 0 <= junk < frames
      modifies this`free, regs, chains
      ensures 0 <= frame < frames && regs[..] == old(regs[..])[frame := AVAILABLE] && free == old(free) + [frame]
      ensures old(IsMapped(regs[..], pid, page)) ==> PageIsRight(old(regs[..]), frame, pid, page)
      ensures !old(IsMapped(regs[..], pid, page)) ==> frame == LastOr(old(chains[hash(pid, page)]), junk)
      ensures !old(IsMapped(regs[..], pid, page)) ==>
                var chain := old(chains[hash(pid, page)]);
                frame == if |chain| == 0 then junk else chain[|chain| - 1]
      ensures !old(IsMapped(regs[..], pid, page)) && old(chains[hash(pid, page)]) != [] ==> Mapped(old(regs[..]), frame)
      ensures FramesOk() <==>
                || old(IsMapped(regs[..], pid, page))
                || (old(chains[hash(pid, page)]) == [] && InPlace(old(regs[..]), hash, junk))
      ensures old(Numbered(regs[..], counts)) ==> Numbered(regs[..], counts)
    {
      ghost var bucket := chains[..][hash(pid, page)];
      var target := SearchToDelete(pid, page, junk);
      frame := target;
      if bucket != [] {
        assert bucket[|bucket| - 1] in bucket;
      }
      regs[target] := AVAILABLE;
      free := free + [target];
      assert regs[..] == old(regs[..])[frame := AVAILABLE];
      if old(IsMapped(regs[..], pid, page)) {
        TableAfterReleasing(old(regs[..]), old(free), old(chains[..]), reserved, hash, frame);
      } else {
        TableAfterMistake(old(regs[..]), old(free), old(chains[..]), reserved, hash, frame);
      }
    }

    /** remove_from_overflow */
    method RemoveFromOverflow(bucket: int, frame: int)
      requires 0 <= bucket < chains.Length
      modifies chains
      ensures chains[..] == if frame in old(chains[bucket])
                then old(chains[..])[bucket := RemoveAt(old(chains[bucket]), IndexOf(old(chains[bucket]), frame))]
                            else old(chains[..])
    {
      var index := 0;
      while index < |chains[bucket]|
        invariant 0 <= index <= |chains[bucket]| && chains[..] == old(chains[..])
        invariant frame !in chains[bucket][..index]
      {
        if frame == chains[bucket][index] {
          assert index == IndexOf(chains[bucket], frame);
          chains[bucket] := RemoveAt(chains[bucket], index);
          return;
        }
        index := index + 1;
      }
    }

    /** cleaning_process_entries, up to the cache: every frame of the process is given back. */
    method CleanProcess(pid: int)
      requires Valid() && pid >= 1
      modifies this`free, this`counts, regs, chains
      ensures Valid()
      ensures |regs[..]| == |old(regs[..])|
      ensures forall f :: 0 <= f < regs.Length ==>
                regs[f] == if old(regs[f].pid) == pid then AVAILABLE else old(regs[f])
      ensures old(free) <= free
      ensures forall p :: Tally(counts, p) == if p == pid then 0 else old(Tally(counts, p))
    {
      var frame := 0;
      while frame < frames
        invariant 0 <= frame <= frames
        invariant FramesOk() && counts == old(counts) && old(free) <= free
        invariant forall f :: 0 <= f < frames ==>
                  regs[f] == if f < frame && old(regs[f].pid) == pid then AVAILABLE else old(regs[f])
      {
        if regs[frame].pid == pid {
          ghost var regs0, free0, chains0 := regs[..], free, chains[..];
          var hFrame := hash(regs[frame].pid, regs[frame].page);
          if frame != hFrame {
            RemoveFromOverflow(hFrame, frame);
          }
          regs[frame] := AVAILABLE;
          free := free + [frame];
          TableAfterReleasing(regs0, free0, chains0, reserved, hash, frame);
          assert regs[..] == regs0[frame := AVAILABLE];
          assert chains[..] == Unchained(chains0, hFrame, frame);
        }
        frame := frame + 1;
      }
      assert forall f :: Mapped(regs[..], f) ==> Mapped(old(regs[..]), f) && regs[f] == old(regs[f]);
      DropRecord(pid);
    }

    /** Removes the record of a process, if it has one. */
    method DropRecord(pid: int)
      requires OneRecordEach(counts)
      modifies this`counts
      ensures OneRecordEach(counts)
      ensures forall p :: Tally(counts, p) == if p == pid then 0 else old(Tally(counts, p))
    {
      var index := 0;
      while index < |counts|
        invariant 0 <= index <= |counts| && counts == old(counts)
        invariant forall j :: 0 <= j < index ==> counts[j].pid != pid
      {
        if counts[index].pid == pid {
          forall p ensures Tally(RemoveAt(counts, index), p) == if p == pid then 0 else Tally(counts, p) {
            TallyRemove(counts, index, p);
          }
          counts := RemoveAt(counts, index);
          return;
        }
        index := index + 1;
      }
      TallyNone(counts, pid);
    }
  }
}
