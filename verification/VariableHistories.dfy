/**
 A program whose variables are read wrongly through the cache of the memory server: three assignments from a new
 server and a new program.
 */
module VariableHistories {
  import opened Bytes
  import opened Records
  import opened PageCache
  import opened CpuStack
  import opened Variables
  import PageTable
  import Memory = MemoryServer

  /** Pages of five variables, one of code and two of stack. */
  const K := Config(20, 1, 2)

  const A := Variable('a', 1, 0, SIZE)
  const B := Variable('b', 1, 4, SIZE)
  const F := Variable('f', 2, 0, SIZE)

  /** The variables a to f, of which f is the first of the second stack page. */
  const SIX := [A, B, Variable('c', 1, 8, SIZE), Variable('d', 1, 12, SIZE), Variable('e', 1, 16, SIZE), F]

  /** Where the next variable would start after n of them. */
  function After(n: nat): Place
    requires n <= 6
  {
    if n == 0 then Place(1, 0) else Place(SIX[n - 1].page, SIX[n - 1].offset + SIZE)
  }

  lemma {:induction false} SixPlaces(n: nat)
    requires n < 6
    ensures SIX[n] == Variable(SIX[n].id, Room(K, After(n)).page, Room(K, After(n)).offset, SIZE)
    ensures !IsArgument(SIX[n].id) && SIX[..n] + [SIX[n]] == SIX[..n + 1] && SIX[n].page < 3
  {
  }

  ghost predicate Defined(i: Interpreter, n: nat)
    requires n <= 6
    reads i
  {
    && i.k == K && Inv(K, i.Now()) && i.exit == 0 && i.sp == 0 && i.next == After(n)
    && i.stack == [Context(0, Place(0, 0), 0, [], SIX[..n])]
  }

  method DefineOne(i: Interpreter, n: nat)
    requires n < 6 && Defined(i, n)
    modifies i`stack, i`next, i`exit
    ensures Defined(i, n + 1)
  {
    SixPlaces(n);
    var address := i.DefineVariable(SIX[n].id);
  }

  /** A program defines its six variables. */
  method DefineSix() returns (i: Interpreter)
    ensures fresh(i) && Defined(i, 6)
  {
    i := new Interpreter(K);
    i.StartInstruction();
    assert SIX[..0] == [];
    for n := 0 to 6
      invariant Defined(i, n)
    {
      DefineOne(i, n);
    }
  }

  lemma {:induction false} SixLive(stack: seq<Context>, n: nat)
    requires stack == [Context(0, Place(0, 0), 0, [], SIX[..6])] && n < 6
    ensures Live(stack, SIX[n])
  {
    assert SIX[..6] == SIX;
    assert Has(stack[0], SIX[n]);
  }

  /** Process 1 has its stack pages, and the one entry or nobody has it. */
  ghost predicate OneEntry(s: Memory.Server)
    reads s, s.table, s.table.regs, s.table.chains, s.cache, s.cache.entries, s.memory
  {
    && s.Consistent() && s.cache.size == s.cache.limit == 1 && HasStack(K, s.config, s.Now().pages, 1)
    && ((s.cache.entries[0].pid == -1 && s.cache.quotas == [])
        || (s.cache.entries[0].pid == 1 && s.cache.quotas == [Record(1, 1)]))
  }

  /** The page of code and the two of stack of process 1. */
  method GiveStack(s: Memory.Server)
    requires s.Consistent() && s.config == Memory.Config(20, 3, 2, 0) && s.Now() == Memory.Flat(map[], [])
    modifies s`log, s`flats, s.table, s.table.regs, s.table.chains
    ensures s.Consistent() && HasStack(K, s.config, s.Now().pages, 1)
  {
    var code := s.InitializeProcess(1, 3);
    ghost var q := PageTable.Request(1, 3, true, 2);
    assert q.Segment(1) == q.Segment(2) == PageTable.STACK_SEGMENT;
  }

  /** A server with one cache entry and the pages of process 1. */
  method NewServer() returns (s: Memory.Server)
    ensures fresh(s) && fresh(s.table) && fresh(s.table.regs) && fresh(s.table.chains)
    ensures fresh(s.cache) && fresh(s.cache.entries) && fresh(s.cache.lastUsed) && fresh(s.memory)
    ensures OneEntry(s)
  {
    s := new Memory.Server(16, 20, 1, 1, 2, 0, (p, q) => 0);
    assert PageTable.ReservedFrames(16, 20) == 13;
    GiveStack(s);
  }

  /** The next assignment finds an entry. */
  lemma {:induction false} EntryFound(a: View)
    requires |a.entries| == 1
    requires (a.entries[0].pid == -1 && a.quotas == []) || (a.entries[0].pid == 1 && a.quotas == [Record(1, 1)])
    ensures !Starved(a.entries, a.quotas, 1, 1)
    ensures Walked([], -1, 1) == [Record(1, 1)]
  {
    OwnedSome(a.entries, 1);
    assert Walk([], 0, -1, 1, false, false) == ([], false);
  }

  /** An assignment to a variable through the one entry. */
  method AssignOne(s: Memory.Server, i: Interpreter, v: Variable, n: nat, value: seq<byte>, now: int)
    requires OneEntry(s) && Defined(i, 6) && n < 6 && v == SIX[n] && |value| == SIZE
    modifies s, s.memory, s.cache, s.cache.entries, s.cache.lastUsed
    ensures OneEntry(s) && s.cache.entries[0].pid == 1 && s.cache.entries[0].page == v.page
    ensures |old(s.cache.entries[0]).content| == K.pageSize && 0 <= v.offset && v.offset + SIZE <= K.pageSize
    ensures s.cache.entries[0].content == Splice(old(s.cache.entries[0]).content, v.offset, value)
    ensures Assigned(i.stack, old(s.cache.Now()), old(s.Now()).pages, s.cache.Now(), s.Now().pages, 1, v, value, 0)
  {
    ghost var a := s.cache.Now();
    assert a.entries[0] == s.cache.entries[0];
    SixLive(i.stack, n);
    EntryFound(a);
    var code;
    ghost var e;
    code, e := Assign(s, K, i.Now(), 5, 1, v.page * 20 + v.offset, value, now, v);
    assert s.cache.Now().entries[0] == s.cache.entries[0];
  }

  method AssignTwo(s: Memory.Server, i: Interpreter, x: seq<byte>, y: seq<byte>)
    requires OneEntry(s) && Defined(i, 6) && |x| == |y| == SIZE
    modifies s, s.memory, s.cache, s.cache.entries, s.cache.lastUsed
    ensures OneEntry(s) && Stored(s.Now().pages, 1, Start(A)) == x
    ensures Window(s.cache.entries[0].content, Start(A)) == y
  {
    SixLive(i.stack, 0);
    AssignOne(s, i, A, 0, x, 1);
    AssignOne(s, i, F, 5, y, 2);
    SplicedWindow(s.cache.entries[0].content, A, A, y);
  }

  method AssignThree(s: Memory.Server, i: Interpreter, x: seq<byte>, y: seq<byte>, z: seq<byte>)
    requires OneEntry(s) && Defined(i, 6) && |x| == |y| == |z| == SIZE
    modifies s, s.memory, s.cache, s.cache.entries, s.cache.lastUsed
    ensures OneEntry(s) && Stored(s.Now().pages, 1, Start(A)) == x
    ensures Read(s.cache.Now().entries, s.Now().pages, 1, Start(A)) == y
  {
    AssignTwo(s, i, x, y);
    AssignB(s, i, x, y, z);
  }

  method AssignB(s: Memory.Server, i: Interpreter, ghost x: seq<byte>, ghost y: seq<byte>, z: seq<byte>)
    requires OneEntry(s) && Defined(i, 6) && |z| == SIZE
    requires Stored(s.Now().pages, 1, Start(A)) == x && Window(s.cache.entries[0].content, Start(A)) == y
    modifies s, s.memory, s.cache, s.cache.entries, s.cache.lastUsed
    ensures OneEntry(s) && Stored(s.Now().pages, 1, Start(A)) == x
    ensures Read(s.cache.Now().entries, s.Now().pages, 1, Start(A)) == y
  {
    ghost var a, pages := s.cache.Now(), s.Now().pages;
    assert a.entries[0] == s.cache.entries[0];
    AssignOne(s, i, B, 1, z, 3);
    SixLive(i.stack, 0);
    BesideB(i.stack, a, pages, s.cache.Now(), s.Now().pages, z);
  }

  /** After an assignment to b, a reads what the entry held. */
  lemma {:induction false} BesideB(stack: seq<Context>, a: View, pages: Pages, b: View, pages': Pages, z: seq<byte>)
    requires Assigned(stack, a, pages, b, pages', 1, B, z, 0) && Live(stack, A)
    ensures Read(b.entries, pages', 1, Start(A)) == Window(a.entries[0].content, Start(A))
    ensures Stored(pages', 1, Start(A)) == Stored(pages, 1, Start(A))
  {
  }

  method ReadA(s: Memory.Server, i: Interpreter) returns (got: seq<byte>)
    requires OneEntry(s) && Defined(i, 6)
    modifies s`log, s`flats, s.cache, s.cache.entries, s.cache.lastUsed
    ensures s.Consistent() && s.Now() == old(s.Now())
    ensures got == Read(old(s.cache.Now()).entries, s.Now().pages, 1, Start(A))
  {
    SixLive(i.stack, 0);
    EntryFound(s.cache.Now());
    ghost var e;
    got, e := Dereference(s, K, i.Now(), 1, 20, 4, A);
  }

  method StaleFrom(s: Memory.Server, i: Interpreter, x: seq<byte>, y: seq<byte>, z: seq<byte>) returns (got: seq<byte>)
    requires OneEntry(s) && Defined(i, 6) && |x| == |y| == |z| == SIZE
    modifies s, s.memory, s.cache, s.cache.entries, s.cache.lastUsed
    ensures s.Consistent() && got == y && Stored(s.Now().pages, 1, Start(A)) == x
  {
    AssignThree(s, i, x, y, z);
    got := ReadA(s, i);
  }

  /** The program assigns x to a, y to f and z to b, and then reads a: it gets y, while the frames hold x. */
  method StaleVariable(x: seq<byte>, y: seq<byte>, z: seq<byte>)
      returns (s: Memory.Server, i: Interpreter, got: seq<byte>)
    requires |x| == |y| == |z| == SIZE
    ensures fresh(s) && fresh(i) && s.Consistent() && Defined(i, 6) && Live(i.stack, A)
    ensures got == y && Stored(s.Now().pages, 1, Start(A)) == x
  {
    i := DefineSix();
    s := NewServer();
    got := StaleFrom(s, i, x, y, z);
    SixLive(i.stack, 0);
  }
}
