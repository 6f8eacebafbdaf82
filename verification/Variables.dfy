/**
 The values of a program's variables (cpu/src/funcionesParser.c): asignar, dereferenciar and the write of
 retornar are requests to the memory server for four bytes of the process's stack pages, served through its
 cache. What was assigned to a variable is in the frames; what a program reads from it need not be.
 */
module Variables {
  import opened Bytes
  import opened PageCache
  import opened CpuStack
  import PageTable
  import Memory = MemoryServer

  type Pages = Memory.Pages

  predicate Has(c: Context, v: Variable) {
    v in c.args || v in c.vars
  }

  /** A variable of some context of the stack. */
  ghost predicate Live(stack: seq<Context>, v: Variable) {
    exists i :: 0 <= i < |stack| && Has(stack[i], v)
  }

  /** Two live variables never share a byte. */
  lemma {:induction false} LiveApart(k: Config, stack: seq<Context>, v: Variable, w: Variable)
    requires ConfigOk(k) && LayoutOk(k, stack) && Live(stack, v) && Live(stack, w) && v != w
    ensures Apart(v, w)
  {
    var i :| 0 <= i < |stack| && Has(stack[i], v);
    var j :| 0 <= j < |stack| && Has(stack[j], w);
    if i < j {
      ContextsApart(k, stack, i, j);
      BeforeApart(stack[i], stack[j], v, w);
    } else if j < i {
      ContextsApart(k, stack, j, i);
      BeforeApart(stack[j], stack[i], w, v);
    } else {
      LayoutAt(k, stack, i);
    }
  }

  lemma {:induction false} BeforeApart(c: Context, d: Context, v: Variable, w: Variable)
    requires Before(c, d) && Has(c, v) && Has(d, w)
    ensures Apart(v, w)
  {
  }

  /** It lies in one stack page of the process. */
  lemma {:induction false} LiveInside(k: Config, s: Cpu, v: Variable)
    requires ConfigOk(k) && Inv(k, s) && s.exit == 0 && Live(s.stack, v)
    ensures v.size == SIZE && 0 <= v.offset && v.offset + SIZE <= k.pageSize && k.code <= v.page < k.code + k.stackPages
    ensures PlaceOf(k, Address(k, Start(v))) == Start(v)
  {
    var i :| 0 <= i < |s.stack| && Has(s.stack[i], v);
    LayoutAt(k, s.stack, i);
    assert VariableOk(k, v, EndOf(k, s.stack[..i])) && Inside(k, s.stack[i]);
    AddressRoundTrip(k, v, EndOf(k, s.stack[..i]));
  }

  /** The memory server has the stack pages of the process. */
  ghost predicate HasStack(k: Config, c: Memory.Config, pages: Pages, pid: int) {
    && c.frameSize == k.pageSize && Memory.Sized(c, pages)
    && forall page :: k.code <= page < k.code + k.stackPages ==>
         (pid, page) in pages && pages[(pid, page)].segment == PageTable.STACK_SEGMENT
  }

  // ---- what the frames hold and what a program reads ----

  /** The four bytes at a place of a page, none where there are no four. */
  function Window(bytes: seq<byte>, p: Place): seq<byte> {
    if 0 <= p.offset && p.offset + SIZE <= |bytes| then bytes[p.offset..p.offset + SIZE] else []
  }

  /** The value in the frames: the last one assigned. */
  function Stored(pages: Pages, pid: int, p: Place): seq<byte> {
    if (pid, p.page) in pages then Window(pages[(pid, p.page)].bytes, p) else []
  }

  /** The value that dereferenciar gets: that of the cache, when the page is in it. */
  function Read(entries: seq<Entry>, pages: Pages, pid: int, p: Place): seq<byte> {
    if (pid, p.page) in pages then Window(Memory.Shown(entries, pages, (pid, p.page)), p) else []
  }

  /** A program reads from the variable what was assigned to it. */
  predicate Right(entries: seq<Entry>, pages: Pages, pid: int, w: Variable) {
    Read(entries, pages, pid, Start(w)) == Stored(pages, pid, Start(w))
  }

  /** In the frames, of the values of these variables only that of v has changed, and no other page. */
  ghost predicate OnlyStored(stack: seq<Context>, pages: Pages, pages': Pages, pid: int, v: Variable,
                             value: seq<byte>) {
    && Stored(pages', pid, Start(v)) == value
    && (forall w :: Live(stack, w) && w != v ==> Stored(pages', pid, Start(w)) == Stored(pages, pid, Start(w)))
    && pages'.Keys == pages.Keys && (forall key :: key in pages && key != (pid, v.page) ==> pages'[key] == pages[key])
  }

  /** What a variable reads after entry e was updated for page: on that page what the entry held there, on a page
      that lost the entry what its frame holds, and elsewhere what it read before. */
  function Left(a: View, pages: Pages, pid: int, page: int, e: int, w: Variable): seq<byte>
    requires 0 <= e < |a.entries|
  {
    if w.page == page then Window(a.entries[e].content, Start(w))
    else if Names(a.entries[e], pid, w.page) then Stored(pages, pid, Start(w))
    else Read(a.entries, pages, pid, Start(w))
  }

  /** v was assigned through entry e: it reads as assigned, and every other variable as the update leaves it.
      The others read right exactly when the entry held their bytes, their page lost it, or they did before. */
  ghost predicate Assigned(stack: seq<Context>, a: View, pages: Pages, b: View, pages': Pages, pid: int, v: Variable,
                           value: seq<byte>, e: int) {
    && 0 <= e < |a.entries| && OnlyStored(stack, pages, pages', pid, v, value)
    && Read(b.entries, pages', pid, Start(v)) == value && Right(b.entries, pages', pid, v)
    && (forall w :: Live(stack, w) && w != v ==>
          && Read(b.entries, pages', pid, Start(w)) == Left(a, pages, pid, v.page, e, w)
          && (Right(b.entries, pages', pid, w) <==>
                if w.page == v.page then Window(a.entries[e].content, Start(w)) == Stored(pages, pid, Start(w))
                else Names(a.entries[e], pid, w.page) || Right(a.entries, pages, pid, w)))
    && (Names(a.entries[e], pid, v.page) ==>
          forall w :: Live(stack, w) && w != v ==>
            Read(b.entries, pages', pid, Start(w)) == Read(a.entries, pages, pid, Start(w)))
  }

  lemma {:induction false} SplicedWindow(bytes: seq<byte>, v: Variable, w: Variable, value: seq<byte>)
    requires 0 <= v.offset && v.offset + SIZE <= |bytes| && |value| == v.size == w.size == SIZE
    requires v == w || (v.page == w.page && Apart(v, w))
    ensures Window(Splice(bytes, v.offset, value), Start(w)) == if v == w then value else Window(bytes, Start(w))
  {
  }

  /** In the frames an assignment to a live variable changes the value of that variable only. */
  lemma {:induction false} StoresOne(k: Config, c: Memory.Config, s: Cpu, pages: Pages, pid: int, v: Variable,
                                     value: seq<byte>)
    requires ConfigOk(k) && Inv(k, s) && s.exit == 0 && Live(s.stack, v) && HasStack(k, c, pages, pid)
          && |value| == SIZE
    ensures (pid, v.page) in pages && 0 <= v.offset && v.offset + SIZE <= |pages[(pid, v.page)].bytes|
    ensures var pages' := Memory.Written(pages, (pid, v.page), v.offset, value);
            HasStack(k, c, pages', pid) && OnlyStored(s.stack, pages, pages', pid, v, value)
  {
    LiveInside(k, s, v);
    var pages' := Memory.Written(pages, (pid, v.page), v.offset, value);
    SplicedWindow(pages[(pid, v.page)].bytes, v, v, value);
    forall w | Live(s.stack, w) && w != v ensures Stored(pages', pid, Start(w)) == Stored(pages, pid, Start(w)) {
      LiveInside(k, s, w);
      LiveApart(k, s.stack, v, w);
      if w.page == v.page {
        SplicedWindow(pages[(pid, v.page)].bytes, v, w, value);
      }
    }
  }

  /** What one variable reads after an assignment to v. */
  lemma {:induction false} ReadsAfter(k: Config, c: Memory.Config, s: Cpu, pages: Pages, a: View, pid: int, v: Variable,
                                      value: seq<byte>, e: int, now: int, w: Variable)
    requires ConfigOk(k) && Inv(k, s) && s.exit == 0 && Live(s.stack, v) && Live(s.stack, w)
    requires HasStack(k, c, pages, pid) && |value| == SIZE && pid >= 1
    requires Distinct(a.entries) && 0 <= e < |a.entries| == |a.lastUsed| && |a.entries[e].content| == k.pageSize
    requires Names(a.entries[e], pid, v.page) || Absent(a.entries, pid, v.page)
    ensures (pid, v.page) in pages && 0 <= v.offset && v.offset + SIZE <= |pages[(pid, v.page)].bytes| == k.pageSize
    ensures var pages' := Memory.Written(pages, (pid, v.page), v.offset, value);
            Read(Took(a, e, pid, v.page, v.offset, value, now).entries, pages', pid, Start(w))
              == if w == v then value else Left(a, pages, pid, v.page, e, w)
  {
    LiveInside(k, s, v);
    LiveInside(k, s, w);
    var pages' := Memory.Written(pages, (pid, v.page), v.offset, value);
    Memory.ShownAfter(pages, pages', a, e, pid, v.page, v.offset, value, now, (pid, w.page));
    if w.page == v.page {
      if w != v {
        LiveApart(k, s.stack, v, w);
      }
      SplicedWindow(a.entries[e].content, v, w, value);
    }
  }

  /** An assignment to a live variable: all of it. */
  lemma {:induction false} AssignsOne(k: Config, c: Memory.Config, s: Cpu, pages: Pages, a: View, pid: int, v: Variable,
                                      value: seq<byte>, e: int, now: int)
    requires ConfigOk(k) && Inv(k, s) && s.exit == 0 && Live(s.stack, v)
    requires HasStack(k, c, pages, pid) && |value| == SIZE && pid >= 1
    requires Distinct(a.entries) && 0 <= e < |a.entries| == |a.lastUsed| && |a.entries[e].content| == k.pageSize
    requires Names(a.entries[e], pid, v.page) || Absent(a.entries, pid, v.page)
    ensures (pid, v.page) in pages && 0 <= v.offset && v.offset + SIZE <= |pages[(pid, v.page)].bytes| == k.pageSize
    ensures var pages' := Memory.Written(pages, (pid, v.page), v.offset, value);
            && HasStack(k, c, pages', pid)
            && Assigned(s.stack, a, pages, Took(a, e, pid, v.page, v.offset, value, now), pages', pid, v, value, e)
  {
    StoresOne(k, c, s, pages, pid, v, value);
    ReadsAfter(k, c, s, pages, a, pid, v, value, e, now, v);
    var pages' := Memory.Written(pages, (pid, v.page), v.offset, value);
    var b := Took(a, e, pid, v.page, v.offset, value, now);
    forall w | Live(s.stack, w) && w != v
      ensures Read(b.entries, pages', pid, Start(w)) == Left(a, pages, pid, v.page, e, w)
      ensures Stored(pages', pid, Start(w)) == Stored(pages, pid, Start(w))
      ensures Names(a.entries[e], pid, v.page) ==>
                Left(a, pages, pid, v.page, e, w) == Read(a.entries, pages, pid, Start(w))
    {
      ReadsAfter(k, c, s, pages, a, pid, v, value, e, now, w);
      Memory.ShownIs(a.entries, pages, (pid, v.page), e);
    }
  }

  // ---- the requests ----

  /** The write of a value at the place of a live variable. */
  method Store(s: Memory.Server, ghost k: Config, ghost cpu: Cpu, client: int, pid: int, p: Place, value: seq<byte>,
               now: int, ghost v: Variable)
      returns (code: int, ghost e: int)
    requires ConfigOk(k) && Inv(k, cpu) && cpu.exit == 0 && Live(cpu.stack, v) && p == Start(v) && |value| == SIZE
    requires s.Consistent() && pid >= 1 && HasStack(k, s.config, s.Now().pages, pid) && !s.NoVictim(pid, v.page)
    modifies s, s.memory, s.cache, s.cache.entries, s.cache.lastUsed
    ensures s.Consistent() && HasStack(k, s.config, s.Now().pages, pid) && code == PageTable.SUCCESS
    ensures Assigned(cpu.stack, old(s.cache.Now()), old(s.Now()).pages, s.cache.Now(), s.Now().pages, pid, v, value, e)
    ensures v.offset >= 0 && v.offset + SIZE <= s.cache.frameSize && s.Updated(e, pid, v.page, v.offset, value, now)
  {
    LiveInside(k, cpu, v);
    ghost var a, pages := s.cache.Now(), s.Now().pages;
    code, e := s.WritePage(client, pid, p.page, p.offset, value, now);
    AssignsOne(k, s.config, cpu, pages, a, pid, v, value, e, now);
  }

  /** asignar through the address of a live variable. */
  method Assign(s: Memory.Server, k: Config, ghost cpu: Cpu, client: int, pid: int, address: int, value: seq<byte>,
                now: int, ghost v: Variable)
      returns (code: int, ghost e: int)
    requires ConfigOk(k) && Inv(k, cpu) && cpu.exit == 0 && Live(cpu.stack, v) && address == Address(k, Start(v))
    requires s.Consistent() && pid >= 1 && HasStack(k, s.config, s.Now().pages, pid) && !s.NoVictim(pid, v.page)
    requires |value| == SIZE
    modifies s, s.memory, s.cache, s.cache.entries, s.cache.lastUsed
    ensures s.Consistent() && HasStack(k, s.config, s.Now().pages, pid) && code == PageTable.SUCCESS
    ensures Assigned(cpu.stack, old(s.cache.Now()), old(s.Now()).pages, s.cache.Now(), s.Now().pages, pid, v, value, e)
    ensures v.offset >= 0 && v.offset + SIZE <= s.cache.frameSize && s.Updated(e, pid, v.page, v.offset, value, now)
  {
    LiveInside(k, cpu, v);
    code, e := Store(s, k, cpu, client, pid, PlaceOf(k, address), value, now, v);
  }

  /** What every live variable reads after a page was read into entry e. */
  lemma {:induction false} ReadsAfterFill(k: Config, c: Memory.Config, s: Cpu, pages: Pages, a: View, pid: int,
                                          page: int, e: int, now: int, w: Variable)
    requires ConfigOk(k) && Inv(k, s) && s.exit == 0 && Live(s.stack, w)
    requires HasStack(k, c, pages, pid) && pid >= 1 && (pid, page) in pages
    requires Distinct(a.entries) && 0 <= e < |a.entries| == |a.lastUsed| && |a.entries[e].content| == k.pageSize
    requires Absent(a.entries, pid, page)
    ensures |pages[(pid, page)].bytes| == k.pageSize
    ensures Read(Took(a, e, pid, page, 0, pages[(pid, page)].bytes, now).entries, pages, pid, Start(w))
         == if Names(a.entries[e], pid, w.page) then Stored(pages, pid, Start(w))
            else Read(a.entries, pages, pid, Start(w))
  {
    LiveInside(k, s, w);
    var bytes := pages[(pid, page)].bytes;
    Memory.ShownAfter(pages, pages, a, e, pid, page, 0, bytes, now, (pid, w.page));
    if w.page == page {
      assert Splice(a.entries[e].content, 0, bytes) == bytes;
      Memory.ShownIs(a.entries, pages, (pid, page), e);
    }
  }

  /** Every variable reads as before, except that those of a page that lost entry e to this one read right. */
  ghost predicate Fetched(stack: seq<Context>, a: View, b: View, pages: Pages, pid: int, page: int, e: int) {
    && 0 <= e < |a.entries|
    && forall w :: Live(stack, w) ==>
         Read(b.entries, pages, pid, Start(w))
           == if Absent(a.entries, pid, page) && Names(a.entries[e], pid, w.page) then Stored(pages, pid, Start(w))
              else Read(a.entries, pages, pid, Start(w))
  }

  lemma {:induction false} FetchesOne(k: Config, c: Memory.Config, s: Cpu, pages: Pages, a: View, b: View, pid: int,
                                      page: int, e: int, now: int)
    requires ConfigOk(k) && Inv(k, s) && s.exit == 0 && HasStack(k, c, pages, pid) && pid >= 1 && (pid, page) in pages
    requires Distinct(a.entries) && 0 <= e < |a.entries| == |a.lastUsed| && |a.entries[e].content| == k.pageSize
    requires |pages[(pid, page)].bytes| == k.pageSize
    requires if Absent(a.entries, pid, page) then b == Took(a, e, pid, page, 0, pages[(pid, page)].bytes, now)
             else b.entries == a.entries
    ensures Fetched(s.stack, a, b, pages, pid, page, e)
  {
    if Absent(a.entries, pid, page) {
      forall w | Live(s.stack, w)
        ensures Read(b.entries, pages, pid, Start(w))
             == if Names(a.entries[e], pid, w.page) then Stored(pages, pid, Start(w))
                else Read(a.entries, pages, pid, Start(w))
      {
        ReadsAfterFill(k, c, s, pages, a, pid, page, e, now, w);
      }
    }
  }

  /** dereferenciar through the address of a live variable: it gets what the variable reads, right or not. */
  method Dereference(s: Memory.Server, k: Config, ghost cpu: Cpu, pid: int, address: int, now: int, ghost v: Variable)
      returns (value: seq<byte>, ghost e: int)
    requires ConfigOk(k) && Inv(k, cpu) && cpu.exit == 0 && Live(cpu.stack, v) && address == Address(k, Start(v))
    requires s.Consistent() && pid >= 1 && HasStack(k, s.config, s.Now().pages, pid) && !s.NoVictim(pid, v.page)
    modifies s`log, s`flats, s.cache, s.cache.entries, s.cache.lastUsed
    ensures s.Consistent() && s.Now() == old(s.Now())
    ensures value == Read(old(s.cache.Now()).entries, s.Now().pages, pid, Start(v))
    ensures Fetched(cpu.stack, old(s.cache.Now()), s.cache.Now(), s.Now().pages, pid, v.page, e)
  {
    LiveInside(k, cpu, v);
    ghost var a := s.cache.Now();
    var p := PlaceOf(k, address);
    value, e := ReadAt(s, pid, p, now);
    FetchesOne(k, s.config, cpu, s.Now().pages, a, s.cache.Now(), pid, v.page, e, now);
  }

  /** The read of four bytes. */
  method ReadAt(s: Memory.Server, pid: int, p: Place, now: int) returns (value: seq<byte>, ghost e: int)
    requires s.Consistent() && pid >= 1 && (pid, p.page) in s.Now().pages && !s.NoVictim(pid, p.page)
    requires 0 <= p.offset && p.offset + SIZE <= s.config.frameSize
    modifies s`log, s`flats, s.cache, s.cache.entries, s.cache.lastUsed
    ensures s.Consistent() && s.Now() == old(s.Now()) && |s.Now().pages[(pid, p.page)].bytes| == s.config.frameSize
    ensures value == Read(old(s.cache.Now()).entries, s.Now().pages, pid, p) && 0 <= e < s.cache.size
    ensures if old(s.Missing(pid, p.page))
            then s.cache.Now() == Took(old(s.cache.Now()), e, pid, p.page, 0, s.Now().pages[(pid, p.page)].bytes, now)
            else s.cache.Now().entries == old(s.cache.Now()).entries
  {
    var r;
    r, e := s.ReadPage(pid, p.page, p.offset, SIZE, now);
    value := r.bytes;
  }

  // ---- a call and its return ----

  /** Where the return from a call for a live variable puts its value. */
  lemma {:induction false} ReturnPlace(k: Config, s: Cpu, target: int, body: seq<Op>, v: Variable)
    requires ConfigOk(k) && Inv(k, s) && s.exit == 0 && Live(s.stack, v)
    requires var call := CallFor(target, Address(k, Start(v)));
             && Enabled(s, call) && Regular(s, call) && Runs(k, Step(k, s, call), body, |s.stack|)
             && |Run(k, Step(k, s, call), body, |s.stack|).stack| == |s.stack| + 1
    ensures var t := Run(k, Step(k, s, CallFor(target, Address(k, Start(v)))), body, |s.stack|);
            && Inv(k, t) && Enabled(t, Return)
            && Step(k, t, Return).stack == s.stack && Step(k, t, Return).pc == s.pc
            && t.stack[t.sp].retVar == Start(v) && t.stack[t.sp].retSize == SIZE
  {
    var call := CallFor(target, Address(k, Start(v)));
    Called(k, s, call);
    RunKeeps(k, Step(k, s, call), body, |s.stack|);
    CallAndReturn(k, s, call, body, Return);
    LiveInside(k, s, v);
  }

  /** retornar from a call for a live variable, after anything that stays inside the call: the caller's stack is
      back and the variable is assigned the value. */
  method ReturnTo(cpu: Interpreter, s: Memory.Server, client: int, pid: int, value: seq<byte>, now: int,
                  ghost caller: Cpu, ghost target: int, ghost body: seq<Op>, ghost v: Variable)
      returns (ghost e: int)
    requires ConfigOk(cpu.k) && Inv(cpu.k, caller) && caller.exit == 0 && Live(caller.stack, v) && |value| == SIZE
    requires var call := CallFor(target, Address(cpu.k, Start(v)));
             && Enabled(caller, call) && Regular(caller, call)
             && Runs(cpu.k, Step(cpu.k, caller, call), body, |caller.stack|)
             && cpu.Now() == Run(cpu.k, Step(cpu.k, caller, call), body, |caller.stack|)
             && |cpu.stack| == |caller.stack| + 1
    requires s.Consistent() && pid >= 1 && HasStack(cpu.k, s.config, s.Now().pages, pid) && !s.NoVictim(pid, v.page)
    modifies cpu`stack, cpu`sp, cpu`pc, s, s.memory, s.cache, s.cache.entries, s.cache.lastUsed
    ensures cpu.stack == caller.stack && cpu.pc == caller.pc
    ensures s.Consistent() && HasStack(cpu.k, s.config, s.Now().pages, pid)
    ensures Assigned(caller.stack, old(s.cache.Now()), old(s.Now()).pages, s.cache.Now(), s.Now().pages, pid, v, value,
                     e)
  {
    ReturnPlace(cpu.k, caller, target, body, v);
    e := ReturnAt(cpu, s, client, pid, value, now, caller, v);
  }

  /** retornar from a context whose value goes to a live variable of the caller. */
  method ReturnAt(cpu: Interpreter, s: Memory.Server, client: int, pid: int, value: seq<byte>, now: int,
                  ghost caller: Cpu, ghost v: Variable)
      returns (ghost e: int)
    requires ConfigOk(cpu.k) && Inv(cpu.k, caller) && caller.exit == 0 && Live(caller.stack, v) && |value| == SIZE
    requires Inv(cpu.k, cpu.Now()) && Enabled(cpu.Now(), Return) && cpu.stack[cpu.sp].retVar == Start(v)
    requires Step(cpu.k, cpu.Now(), Return).stack == caller.stack && Step(cpu.k, cpu.Now(), Return).pc == caller.pc
    requires s.Consistent() && pid >= 1 && HasStack(cpu.k, s.config, s.Now().pages, pid) && !s.NoVictim(pid, v.page)
    modifies cpu`stack, cpu`sp, cpu`pc, s, s.memory, s.cache, s.cache.entries, s.cache.lastUsed
    ensures cpu.stack == caller.stack && cpu.pc == caller.pc
    ensures s.Consistent() && HasStack(cpu.k, s.config, s.Now().pages, pid)
    ensures Assigned(caller.stack, old(s.cache.Now()), old(s.Now()).pages, s.cache.Now(), s.Now().pages, pid, v, value,
                     e)
  {
    var where, size := cpu.ReturnValue();
    var code;
    code, e := Store(s, cpu.k, caller, client, pid, where, value, now, v);
  }
}
