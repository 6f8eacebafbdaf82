/**
 The kernel's open-file tables (kernel/src/solicitudes.c and getTablaArchivo in
 kernel/src/kernel_generales.c): a table for each process, whose entries name entries of one
 global table, and a global entry that counts how often its path is open. The answers of the file
 system server are arguments.
 */
module OpenFiles {
  import opened Lists

  const BYTE := 256     // the descriptor counters are uint8_t
  const FIRST_FD := 10  // and start here

  datatype Global = Global(path: string, open: int, fd: int)                    // t_global_file
  datatype Flags = Flags(read: bool, write: bool, create: bool)
  datatype Entry = Entry(fd: int, global: int, flags: Flags, cursor: int)       // t_process_file
  datatype Table = Table(pid: int, files: seq<Entry>, counter: int)             // t_table_file

  // ---- who points where ----

  /** The entries of one table that name global descriptor g. */
  function Count(files: seq<Entry>, g: int): (n: nat) {
    if files == [] then 0 else Count(files[..|files| - 1], g) + if files[|files| - 1].global == g then 1 else 0
  }

  /** The entries of all processes that do. */
  function Pointing(tables: seq<Table>, g: int): (n: nat) {
    if tables == [] then 0 else Pointing(tables[..|tables| - 1], g) + Count(tables[|tables| - 1].files, g)
  }

  lemma {:induction false} CountAdd(files: seq<Entry>, e: Entry, g: int)
    ensures Count(files + [e], g) == Count(files, g) + if e.global == g then 1 else 0
  {
    assert (files + [e])[..|files|] == files;
  }

  lemma {:induction false} CountRemove(files: seq<Entry>, i: int, g: int)
    requires 0 <= i < |files|
    ensures Count(RemoveAt(files, i), g) == Count(files, g) - if files[i].global == g then 1 else 0
    decreases |files|
  {
    var init := files[..|files| - 1];
    if i < |files| - 1 {
      assert RemoveAt(files, i)[..|files| - 2] == RemoveAt(init, i);
      CountRemove(init, i, g);
    } else {
      assert RemoveAt(files, i) == init;
    }
  }

  lemma {:induction false} PointingUpdate(tables: seq<Table>, i: int, t: Table, g: int)
    requires 0 <= i < |tables|
    ensures Pointing(tables[i := t], g) == Pointing(tables, g) - Count(tables[i].files, g) + Count(t.files, g)
    decreases |tables|
  {
    var init := tables[..|tables| - 1];
    if i < |tables| - 1 {
      assert tables[i := t][..|tables| - 1] == init[i := t];
      PointingUpdate(init, i, t, g);
    } else {
      assert tables[i := t][..|tables| - 1] == init;
    }
  }

  lemma {:induction false} PointingAdd(tables: seq<Table>, t: Table, g: int)
    ensures Pointing(tables + [t], g) == Pointing(tables, g) + Count(t.files, g)
  {
    assert (tables + [t])[..|tables|] == tables;
  }

  // ---- list_find ----

  /** getFileFromGlobal */
  function FindGlobal(globals: seq<Global>, g: int): (i: int)
    ensures -1 <= i < |globals|
    ensures i >= 0 ==> globals[i].fd == g
    ensures i == -1 ==> forall j :: 0 <= j < |globals| ==> globals[j].fd != g
  {
    if globals == [] then -1
    else if globals[0].fd == g then 0
    else var i := FindGlobal(globals[1..], g); if i < 0 then -1 else i + 1
  }

  function FindPath(globals: seq<Global>, path: string): (i: int)
    ensures -1 <= i < |globals|
    ensures i >= 0 ==> globals[i].path == path
    ensures i == -1 ==> forall j :: 0 <= j < |globals| ==> globals[j].path != path
  {
    if globals == [] then -1
    else if globals[0].path == path then 0
    else var i := FindPath(globals[1..], path); if i < 0 then -1 else i + 1
  }

  /** buscarArchivoTablaProceso */
  function FindEntry(files: seq<Entry>, fd: int): (i: int)
    ensures -1 <= i < |files|
    ensures i >= 0 ==> files[i].fd == fd
    ensures i == -1 ==> forall j :: 0 <= j < |files| ==> files[j].fd != fd
  {
    if files == [] then -1
    else if files[0].fd == fd then 0
    else var i := FindEntry(files[1..], fd); if i < 0 then -1 else i + 1
  }

  /** Each of them finds the first. */
  lemma {:induction false} FindsFirst(globals: seq<Global>, files: seq<Entry>, g: int, path: string, fd: int)
    ensures forall j :: 0 <= j < FindGlobal(globals, g) ==> globals[j].fd != g
    ensures forall j :: 0 <= j < FindPath(globals, path) ==> globals[j].path != path
    ensures forall j :: 0 <= j < FindEntry(files, fd) ==> files[j].fd != fd
    decreases |globals| + |files|
  {
    if globals != [] {
      FindsFirst(globals[1..], files, g, path, fd);
    } else if files != [] {
      FindsFirst(globals, files[1..], g, path, fd);
    }
  }

  /** The entries of a process. */
  function FilesOf(tables: seq<Table>, pid: int): seq<Entry> {
    if tables == [] then [] else if tables[0].pid == pid then tables[0].files else FilesOf(tables[1..], pid)
  }

  /** Its next descriptor. */
  function CounterOf(tables: seq<Table>, pid: int): int {
    if tables == [] then FIRST_FD else if tables[0].pid == pid then tables[0].counter else CounterOf(tables[1..], pid)
  }

  lemma {:induction false} FilesAt(tables: seq<Table>, i: int, pid: int)
    requires 0 <= i <= |tables| && (forall j :: 0 <= j < i ==> tables[j].pid != pid)
          && (i < |tables| ==> tables[i].pid == pid)
    ensures FilesOf(tables, pid) == if i < |tables| then tables[i].files else []
    ensures CounterOf(tables, pid) == if i < |tables| then tables[i].counter else FIRST_FD
  {
    if i > 0 {
      FilesAt(tables[1..], i - 1, pid);
    }
  }

  /** A process without a table has no entries, and its first descriptor is 10. */
  lemma {:induction false} NoTable(tables: seq<Table>, pid: int)
    requires forall j :: 0 <= j < |tables| ==> tables[j].pid != pid
    ensures FilesOf(tables, pid) == [] && CounterOf(tables, pid) == 10
  {
    FilesAt(tables, |tables|, pid);
  }

  /** The entries and counters of all processes but pid are the same. */
  ghost predicate OthersSame(tables: seq<Table>, tables': seq<Table>, pid: int) {
    forall q :: q != pid ==> FilesOf(tables', q) == FilesOf(tables, q) && CounterOf(tables', q) == CounterOf(tables, q)
  }

  ghost predicate AllSame(tables: seq<Table>, tables': seq<Table>) {
    && (forall q :: FilesOf(tables', q) == FilesOf(tables, q) && CounterOf(tables', q) == CounterOf(tables, q))
    && forall x :: Pointing(tables', x) == Pointing(tables, x)
  }

  lemma {:induction false} UpdateLeaves(tables: seq<Table>, i: int, t: Table, q: int)
    requires 0 <= i < |tables| && t.pid == tables[i].pid != q
    ensures FilesOf(tables[i := t], q) == FilesOf(tables, q) && CounterOf(tables[i := t], q) == CounterOf(tables, q)
  {
    if i == 0 {
      assert tables[0 := t][1..] == tables[1..];
    } else {
      assert tables[i := t][1..] == tables[1..][i - 1 := t];
      UpdateLeaves(tables[1..], i - 1, t, q);
    }
  }

  lemma {:induction false} UpdateLeavesOthers(tables: seq<Table>, i: int, t: Table)
    requires 0 <= i < |tables| && t.pid == tables[i].pid
    ensures OthersSame(tables, tables[i := t], t.pid)
  {
    forall q | q != t.pid
      ensures FilesOf(tables[i := t], q) == FilesOf(tables, q) && CounterOf(tables[i := t], q) == CounterOf(tables, q)
    {
      UpdateLeaves(tables, i, t, q);
    }
  }

  lemma {:induction false} NewTableLeaves(tables: seq<Table>, pid: int, q: int)
    ensures FilesOf(tables + [Table(pid, [], FIRST_FD)], q) == FilesOf(tables, q)
    ensures CounterOf(tables + [Table(pid, [], FIRST_FD)], q) == CounterOf(tables, q)
  {
    if tables != [] {
      assert (tables + [Table(pid, [], FIRST_FD)])[1..] == tables[1..] + [Table(pid, [], FIRST_FD)];
      NewTableLeaves(tables[1..], pid, q);
    }
  }

  // ---- the invariant ----

  /** Descriptors and paths appear once; every count is the number of entries that point there; no
      entry points nowhere. */
  ghost predicate Inv(globals: seq<Global>, tables: seq<Table>) {
    Unique(globals) && Counted(globals, tables) && Reached(globals, tables)
  }

  ghost predicate Unique(globals: seq<Global>) {
    forall i, j :: 0 <= i < j < |globals| ==> globals[i].fd != globals[j].fd && globals[i].path != globals[j].path
  }

  ghost predicate Counted(globals: seq<Global>, tables: seq<Table>) {
    forall i :: 0 <= i < |globals| ==> globals[i].open == Pointing(tables, globals[i].fd) && globals[i].open >= 1
  }

  ghost predicate Reached(globals: seq<Global>, tables: seq<Table>) {
    forall g :: Pointing(tables, g) > 0 ==> FindGlobal(globals, g) >= 0
  }

  /** What an entry more (delta = 1) or less (delta = -1) that names g does to the counts. */
  ghost predicate Moved(tables: seq<Table>, tables': seq<Table>, g: int, delta: int) {
    forall x :: Pointing(tables', x) == Pointing(tables, x) + if x == g then delta else 0
  }

  /** A path that is open already: its count and the entries go up together. */
  lemma {:induction false} ReopenKeeps(globals: seq<Global>, tables: seq<Table>, tables': seq<Table>, i: int)
    requires Inv(globals, tables) && 0 <= i < |globals| && Moved(tables, tables', globals[i].fd, 1)
    ensures Inv(globals[i := globals[i].(open := globals[i].open + 1)], tables')
  {
    var gs := globals[i := globals[i].(open := globals[i].open + 1)];
    assert forall j :: 0 <= j < |gs| ==> gs[j].fd == globals[j].fd && gs[j].path == globals[j].path;
    forall j | 0 <= j < |gs| ensures gs[j].open == Pointing(tables', gs[j].fd) && gs[j].open >= 1 {
      assert globals[j].open == Pointing(tables, globals[j].fd);
      assert j != i ==> globals[j].fd != globals[i].fd;
    }
    forall g | Pointing(tables', g) > 0 ensures FindGlobal(gs, g) >= 0 {
      if g != globals[i].fd {
        assert Pointing(tables, g) > 0;
        var j := FindGlobal(globals, g);
        assert gs[j].fd == g;
      } else {
        assert gs[i].fd == g;
      }
    }
  }

  /** A path opened anew keeps the invariant exactly when its descriptor is not in use: the counter is a byte. */
  lemma {:induction false} OpenNewKeepsIff(globals: seq<Global>, tables: seq<Table>, tables': seq<Table>, path: string,
                                           fd: int)
    requires Inv(globals, tables) && FindPath(globals, path) < 0 && Moved(tables, tables', fd, 1)
    ensures Inv(globals + [Global(path, 1, fd)], tables') <==> FindGlobal(globals, fd) < 0
  {
    var j := FindGlobal(globals, fd);
    if j >= 0 {
      var gs := globals + [Global(path, 1, fd)];
      assert gs[j].fd == gs[|globals|].fd;
    } else {
      OpenNewKeeps(globals, tables, tables', path, fd);
    }
  }

  lemma {:induction false} OpenNewKeeps(globals: seq<Global>, tables: seq<Table>, tables': seq<Table>, path: string,
                                        fd: int)
    requires Inv(globals, tables) && FindPath(globals, path) < 0 && Moved(tables, tables', fd, 1)
          && FindGlobal(globals, fd) < 0
    ensures Inv(globals + [Global(path, 1, fd)], tables')
  {
    var gs, n := globals + [Global(path, 1, fd)], |globals|;
    assert Pointing(tables, fd) == 0;
    forall i | 0 <= i < |gs| ensures gs[i].open == Pointing(tables', gs[i].fd) && gs[i].open >= 1 {
      assert i < n ==> gs[i] == globals[i] && globals[i].open == Pointing(tables, globals[i].fd);
    }
    forall g | Pointing(tables', g) > 0 ensures FindGlobal(gs, g) >= 0 {
      if g == fd {
        assert gs[n].fd == g;
      } else {
        assert gs[FindGlobal(globals, g)].fd == g;
      }
    }
  }

  lemma {:induction false} LowerKeeps(globals: seq<Global>, tables: seq<Table>, tables': seq<Table>, i: int)
    requires Inv(globals, tables) && 0 <= i < |globals| && Moved(tables, tables', globals[i].fd, -1)
          && globals[i].open > 1
    ensures Inv(Lowered(globals, i), tables')
  {
    var gs := Lowered(globals, i);
    forall j | 0 <= j < |gs|
      ensures gs[j].open == Pointing(tables', gs[j].fd) && gs[j].open >= 1 && gs[j].path == globals[j].path
    {
      assert globals[j].open == Pointing(tables, globals[j].fd) && gs[j].fd == globals[j].fd;
      assert j != i ==> globals[j].fd != globals[i].fd;
    }
    forall g | Pointing(tables', g) > 0 ensures FindGlobal(gs, g) >= 0 {
      assert gs[FindGlobal(globals, g)].fd == g;
    }
  }

  lemma {:induction false} LastCounted(globals: seq<Global>, tables: seq<Table>, tables': seq<Table>, i: int)
    requires Unique(globals) && Counted(globals, tables) && 0 <= i < |globals|
          && Moved(tables, tables', globals[i].fd, -1)
    ensures Unique(RemoveAt(globals, i)) && Counted(RemoveAt(globals, i), tables')
  {
    var gs := RemoveAt(globals, i);
    forall j | 0 <= j < |gs|
      ensures gs[j] == globals[if j < i then j else j + 1]
      ensures gs[j].open == Pointing(tables', gs[j].fd) && gs[j].open >= 1
    {
      var k := if j < i then j else j + 1;
      assert globals[k].open == Pointing(tables, globals[k].fd) && globals[k].fd != globals[i].fd;
    }
  }

  lemma {:induction false} LastReached(globals: seq<Global>, tables: seq<Table>, tables': seq<Table>, i: int)
    requires Reached(globals, tables) && 0 <= i < |globals| && Moved(tables, tables', globals[i].fd, -1)
          && Pointing(tables, globals[i].fd) == 1
    ensures Reached(RemoveAt(globals, i), tables')
  {
    var gs := RemoveAt(globals, i);
    assert Pointing(tables', globals[i].fd) == 0;
    forall g | Pointing(tables', g) > 0 ensures FindGlobal(gs, g) >= 0 {
      var j := FindGlobal(globals, g);
      assert gs[if j < i then j else j - 1].fd == g;
    }
  }

  lemma {:induction false} LastKeeps(globals: seq<Global>, tables: seq<Table>, tables': seq<Table>, i: int)
    requires Inv(globals, tables) && 0 <= i < |globals| && Moved(tables, tables', globals[i].fd, -1)
          && globals[i].open == 1
    ensures Inv(Lowered(globals, i), tables')
  {
    LastCounted(globals, tables, tables', i);
    LastReached(globals, tables, tables', i);
  }

  /** The last entry that points to a path takes its global entry away; any other lowers its count. */
  lemma {:induction false} CloseKeeps(globals: seq<Global>, tables: seq<Table>, tables': seq<Table>, i: int)
    requires Inv(globals, tables) && 0 <= i < |globals| && Moved(tables, tables', globals[i].fd, -1)
    ensures Inv(Lowered(globals, i), tables')
  {
    if globals[i].open > 1 {
      LowerKeeps(globals, tables, tables', i);
    } else {
      LastKeeps(globals, tables, tables', i);
    }
  }

  /** descontarDeLaTablaGlobal */
  function Lowered(globals: seq<Global>, i: int): seq<Global>
    requires 0 <= i < |globals|
  {
    if globals[i].open > 1 then globals[i := globals[i].(open := globals[i].open - 1)] else RemoveAt(globals, i)
  }

  /** An entry is counted. */
  lemma {:induction false} EntryPoints(tables: seq<Table>, t: int, k: int)
    requires 0 <= t < |tables| && 0 <= k < |tables[t].files|
    ensures Pointing(tables, tables[t].files[k].global) >= 1
  {
    var e := tables[t].files[k];
    CountRemove(tables[t].files, k, e.global);
    PointingUpdate(tables, t, tables[t].(files := RemoveAt(tables[t].files, k)), e.global);
  }

  /** Two entries are counted twice. */
  lemma {:induction false} TwoPoint(tables: seq<Table>, t: int, k: int, t': int, k': int)
    requires 0 <= t < |tables| && 0 <= k < |tables[t].files| && 0 <= t' < |tables| && 0 <= k' < |tables[t'].files|
    requires (t, k) != (t', k') && tables[t].files[k].global == tables[t'].files[k'].global
    ensures Pointing(tables, tables[t].files[k].global) >= 2
  {
    var g, rest := tables[t].files[k].global, tables[t := tables[t].(files := RemoveAt(tables[t].files, k))];
    CountRemove(tables[t].files, k, g);
    PointingUpdate(tables, t, tables[t].(files := RemoveAt(tables[t].files, k)), g);
    EntryPoints(rest, t', if t == t' && k < k' then k' - 1 else k');
  }

  lemma {:induction false} MovedByUpdate(tables: seq<Table>, i: int, t: Table, g: int, delta: int)
    requires 0 <= i < |tables|
    requires forall x :: Count(t.files, x) == Count(tables[i].files, x) + if x == g then delta else 0
    ensures Moved(tables, tables[i := t], g, delta)
  {
    forall x ensures Pointing(tables[i := t], x) == Pointing(tables, x) + if x == g then delta else 0 {
      PointingUpdate(tables, i, t, x);
    }
  }

  lemma {:induction false} MovedByAdd(tables: seq<Table>, i: int, e: Entry, counter: int)
    requires 0 <= i < |tables|
    ensures Moved(tables, tables[i := tables[i].(files := tables[i].files + [e], counter := counter)], e.global, 1)
  {
    forall x ensures Count(tables[i].files + [e], x) == Count(tables[i].files, x) + if x == e.global then 1 else 0 {
      CountAdd(tables[i].files, e, x);
    }
    MovedByUpdate(tables, i, tables[i].(files := tables[i].files + [e], counter := counter), e.global, 1);
  }

  lemma {:induction false} MovedByRemove(tables: seq<Table>, i: int, k: int)
    requires 0 <= i < |tables| && 0 <= k < |tables[i].files|
    ensures Moved(tables, tables[i := tables[i].(files := RemoveAt(tables[i].files, k))], tables[i].files[k].global, -1)
  {
    forall x
      ensures Count(RemoveAt(tables[i].files, k), x)
           == Count(tables[i].files, x) + if x == tables[i].files[k].global then -1 else 0
    {
      CountRemove(tables[i].files, k, x);
    }
    MovedByUpdate(tables, i, tables[i].(files := RemoveAt(tables[i].files, k)), tables[i].files[k].global, -1);
  }

  lemma {:induction false} ClosedFrom(a: seq<Table>, mid: seq<Table>, b: seq<Table>, pid: int, g: int)
    requires AllSame(a, mid)
    requires Moved(mid, b, g, -1) && OthersSame(mid, b, pid)
    ensures Moved(a, b, g, -1) && OthersSame(a, b, pid)
  {
  }

  // ---- the requests ----

  datatype Opened = Descriptor(fd: int) | Refused | Failed(code: int)
  datatype Closed = Done | NotOpen
  datatype Deleted = Deletes(path: string) | OpenElsewhere | NotOpenHere

  class FileTables {
    var globals: seq<Global>   // tabla_global_archivos
    var tables: seq<Table>     // listaDeTablasDeArchivosDeProcesos
    var counter: int           // contador_fd_global

    ghost predicate Valid()
      reads this
    {
      Inv(globals, tables)
    }

    constructor ()
      ensures Valid() && globals == [] && tables == [] && counter == FIRST_FD == 10
    {
      globals, tables, counter := [], [], FIRST_FD;
    }

    /** getTablaArchivo: the table of the process, which it adds if there is none. */
    method TableOf(pid: int) returns (i: int)
      modifies this`tables
      ensures 0 <= i < |tables| && tables[i].pid == pid && (forall j :: 0 <= j < i ==> tables[j].pid != pid)
      ensures tables == old(tables) || (i == |old(tables)| && tables == old(tables) + [Table(pid, [], FIRST_FD)])
      ensures tables[i].files == FilesOf(old(tables), pid) && tables[i].counter == CounterOf(old(tables), pid)
            && (old(Valid()) ==> Valid())
      ensures AllSame(old(tables), tables)
    {
      i := 0;
      while i < |tables| && tables[i].pid != pid
        invariant 0 <= i <= |tables| && forall j :: 0 <= j < i ==> tables[j].pid != pid
      {
        i := i + 1;
      }
      FilesAt(tables, i, pid);
      if i == |tables| {
        tables := tables + [Table(pid, [], FIRST_FD)];
        forall g ensures Pointing(tables, g) == Pointing(old(tables), g) {
          PointingAdd(old(tables), Table(pid, [], FIRST_FD), g);
        }
        forall q
          ensures FilesOf(tables, q) == FilesOf(old(tables), q) && CounterOf(tables, q) == CounterOf(old(tables), q)
        {
          NewTableLeaves(old(tables), pid, q);
        }
      }
    }

    /** cargarArchivoTablaProceso */
    method AddEntry(pid: int, g: int, flags: Flags) returns (fd: int)
      modifies this`tables
      ensures Moved(old(tables), tables, g, 1)
            && FilesOf(tables, pid) == FilesOf(old(tables), pid) + [Entry(fd, g, flags, 0)]
      ensures fd == CounterOf(old(tables), pid) && CounterOf(tables, pid) == (fd + 1) % BYTE
      ensures OthersSame(old(tables), tables, pid)
    {
      var t := TableOf(pid);
      var table := tables[t];
      fd := table.counter;
      MovedByAdd(tables, t, Entry(fd, g, flags, 0), (table.counter + 1) % BYTE);
      var next := table.(files := table.files + [Entry(fd, g, flags, 0)], counter := (table.counter + 1) % BYTE);
      UpdateLeavesOthers(tables, t, next);
      tables := tables[t := next];
      FilesAt(tables, t, pid);
    }

    /** crearArchivoTablaGlobal */
    method AddGlobal(path: string) returns (g: int)
      modifies this`globals, this`counter
      ensures g == old(counter) && globals == old(globals) + [Global(path, 1, g)]
            && counter == (old(counter) + 1) % BYTE
    {
      g := counter;
      counter := (counter + 1) % BYTE;
      globals := globals + [Global(path, 1, g)];
    }

    method OpenKnown(pid: int, path: string, at: int, flags: Flags) returns (fd: int)
      requires Valid() && 0 <= at == FindPath(globals, path)
      modifies this`globals, this`tables
      ensures Valid() && globals == old(globals)[at := old(globals)[at].(open := old(globals)[at].open + 1)]
            && FindPath(globals, path) == at
      ensures FilesOf(tables, pid) == FilesOf(old(tables), pid) + [Entry(fd, globals[at].fd, flags, 0)]
      ensures fd == CounterOf(old(tables), pid) && CounterOf(tables, pid) == (fd + 1) % BYTE
      ensures OthersSame(old(tables), tables, pid)
    {
      globals := globals[at := globals[at].(open := globals[at].open + 1)];  // buscarArchivoTablaGlobal
      fd := AddEntry(pid, globals[at].fd, flags);
      ReopenKeeps(old(globals), old(tables), tables, at);
      SamePath(old(globals), globals, path);
    }

    method OpenNew(pid: int, path: string, flags: Flags) returns (fd: int)
      requires Valid() && FindPath(globals, path) < 0
      modifies this`globals, this`tables, this`counter
      ensures Valid() <==> FindGlobal(old(globals), old(counter)) < 0
      ensures globals == old(globals) + [Global(path, 1, old(counter))] && counter == (old(counter) + 1) % BYTE
      ensures FindPath(globals, path) == |old(globals)|
      ensures FilesOf(tables, pid) == FilesOf(old(tables), pid) + [Entry(fd, old(counter), flags, 0)]
      ensures fd == CounterOf(old(tables), pid) && CounterOf(tables, pid) == (fd + 1) % BYTE
      ensures OthersSame(old(tables), tables, pid)
    {
      var g := AddGlobal(path);
      fd := AddEntry(pid, g, flags);
      OpenNewKeepsIff(old(globals), old(tables), tables, path, g);
      NewPath(old(globals), Global(path, 1, g));
    }

    /** abrir_archivo, with the file system's answers: whether the path is a regular file, and the result
        of creating it. The tables stay right exactly when no global descriptor is used twice. */
    method Open(pid: int, path: string, flags: Flags, regular: bool, created: int) returns (r: Opened)
      requires Valid()
      modifies this`globals, this`tables, this`counter
      ensures r.Descriptor? <==>
                || FindPath(old(globals), path) >= 0 || ((flags.read || flags.write) && regular)
                || (flags.create && created > 0)
      ensures r.Failed? <==> !r.Descriptor? && flags.create
      ensures r.Failed? ==> r.code == created
      ensures !r.Descriptor? ==> globals == old(globals) && tables == old(tables) && counter == old(counter)
      ensures OthersSame(old(tables), tables, pid)
      ensures r.Descriptor? && FindPath(old(globals), path) >= 0 ==>
                && counter == old(counter)
                && var at := FindPath(old(globals), path);
                   globals == old(globals)[at := old(globals)[at].(open := old(globals)[at].open + 1)]
      ensures Valid() <==>
                || !r.Descriptor? || FindPath(old(globals), path) >= 0
                || FindGlobal(old(globals), old(counter)) < 0
      ensures r.Descriptor? ==>
                && FindPath(globals, path) >= 0 && r.fd == CounterOf(old(tables), pid)
                && CounterOf(tables, pid) == (r.fd + 1) % BYTE
      ensures r.Descriptor? && FindPath(old(globals), path) < 0 ==>
                globals == old(globals) + [Global(path, 1, old(counter))] && counter == (old(counter) + 1) % BYTE
      ensures r.Descriptor? ==>
                FilesOf(tables, pid) == FilesOf(old(tables), pid)
                                        + [Entry(r.fd, globals[FindPath(globals, path)].fd, flags, 0)]
    {
      var at := FindPath(globals, path);
      if at >= 0 {
        var fd := OpenKnown(pid, path, at, flags);
        return Descriptor(fd);
      }
      if !((flags.read || flags.write) && regular) {
        if !flags.create {
          return Refused;
        }
        if created <= 0 {
          return Failed(created);
        }
      }
      var fd := OpenNew(pid, path, flags);
      return Descriptor(fd);
    }

    /** OC_FUNCION_CERRAR: the entry goes, and its path is one open less. */
    method Close(pid: int, fd: int) returns (r: Closed)
      requires Valid()
      modifies this`globals, this`tables
      ensures Valid()
      ensures r == NotOpen <==> FindEntry(FilesOf(old(tables), pid), fd) < 0
      ensures r == NotOpen ==> globals == old(globals) && AllSame(old(tables), tables)
      ensures r == Done ==> var files := FilesOf(old(tables), pid); var k := FindEntry(files, fd);
                FilesOf(tables, pid) == RemoveAt(files, k) && CounterOf(tables, pid) == CounterOf(old(tables), pid)
                && Moved(old(tables), tables, files[k].global, -1)
                && FindGlobal(old(globals), files[k].global) >= 0
                    && globals == Lowered(old(globals), FindGlobal(old(globals), files[k].global))
      ensures OthersSame(old(tables), tables, pid)
    {
      var t := TableOf(pid);
      var k := FindEntry(tables[t].files, fd);
      if k < 0 {
        return NotOpen;
      }
      ghost var mid := tables;
      CloseFound(pid, t, k);
      ClosedFrom(old(tables), mid, tables, pid, mid[t].files[k].global);
      return Done;
    }

    method CloseFound(pid: int, t: int, k: int)
      requires Valid() && 0 <= t < |tables| && tables[t].pid == pid && (forall j :: 0 <= j < t ==> tables[j].pid != pid)
      requires 0 <= k < |tables[t].files|
      modifies this`globals, this`tables
      ensures Valid() && FilesOf(tables, pid) == RemoveAt(old(tables)[t].files, k)
      ensures CounterOf(tables, pid) == old(tables)[t].counter
      ensures Moved(old(tables), tables, old(tables)[t].files[k].global, -1) && OthersSame(old(tables), tables, pid)
      ensures FindGlobal(old(globals), old(tables)[t].files[k].global) >= 0
      ensures globals == Lowered(old(globals), FindGlobal(old(globals), old(tables)[t].files[k].global))
    {
      CloseAt(t, k);
      FilesAt(tables, t, pid);
    }

    /** The entry goes from its table, and the global entry that it names is open once less. */
    method CloseAt(t: int, k: int)
      requires Valid() && 0 <= t < |tables| && 0 <= k < |tables[t].files|
      modifies this`globals, this`tables
      ensures Valid() && tables == old(tables)[t := old(tables)[t].(files := RemoveAt(old(tables)[t].files, k))]
      ensures Moved(old(tables), tables, old(tables)[t].files[k].global, -1)
      ensures OthersSame(old(tables), tables, old(tables)[t].pid)
      ensures FindGlobal(old(globals), old(tables)[t].files[k].global) >= 0
      ensures globals == Lowered(old(globals), FindGlobal(old(globals), old(tables)[t].files[k].global))
    {
      EntryPoints(tables, t, k);
      var i := FindGlobal(globals, tables[t].files[k].global);
      var rest := tables[t].(files := RemoveAt(tables[t].files, k));
      MovedByRemove(tables, t, k);
      CloseKeeps(globals, tables, tables[t := rest], i);
      UpdateLeavesOthers(tables, t, rest);
      globals := Lowered(globals, i);
      tables := tables[t := rest];
    }

    /** OC_FUNCION_BORRAR: the file system is asked to delete the path exactly when the requester's entry
        is the only one that points to it. Every entry stays. */
    method Delete(pid: int, fd: int) returns (r: Deleted)
      requires Valid()
      modifies this`tables
      ensures Valid()
      ensures AllSame(old(tables), tables)
      ensures r.NotOpenHere? <==> FindEntry(FilesOf(old(tables), pid), fd) < 0
      ensures !r.NotOpenHere? ==> var g := FilesOf(old(tables), pid)[FindEntry(FilesOf(old(tables), pid), fd)].global;
                && FindGlobal(globals, g) >= 0 && (r.Deletes? <==> Pointing(tables, g) == 1)
                && (r.Deletes? ==> r.path == globals[FindGlobal(globals, g)].path)
    {
      var t := TableOf(pid);
      var k := FindEntry(tables[t].files, fd);
      if k < 0 {
        return NotOpenHere;
      }
      EntryPoints(tables, t, k);
      var i := FindGlobal(globals, tables[t].files[k].global);
      if globals[i].open > 1 {
        return OpenElsewhere;
      }
      return Deletes(globals[i].path);
    }
  }

  lemma {:induction false} SamePath(a: seq<Global>, b: seq<Global>, path: string)
    requires |a| == |b| && forall i :: 0 <= i < |a| ==> a[i].path == b[i].path
    ensures FindPath(a, path) == FindPath(b, path)
  {
    if a != [] {
      SamePath(a[1..], b[1..], path);
    }
  }

  lemma {:induction false} NewPath(globals: seq<Global>, g: Global)
    requires FindPath(globals, g.path) < 0
    ensures FindPath(globals + [g], g.path) == |globals|
  {
    if globals != [] {
      assert (globals + [g])[1..] == globals[1..] + [g];
      NewPath(globals[1..], g);
    }
  }

  // ---- a descriptor used twice ----

  const BOTH := Flags(true, true, false)

  /** Another path opened and closed while "/a" stays open. */
  method OpenAndClose(t: FileTables)
    requires t.Valid() && t.globals == [Global("/a", 1, FIRST_FD)]
          && FilesOf(t.tables, 1) == [Entry(FIRST_FD, FIRST_FD, BOTH, 0)]
    requires t.counter == CounterOf(t.tables, 1) != FIRST_FD
    modifies t
    ensures t.Valid() && t.globals == old(t.globals) && FilesOf(t.tables, 1) == FilesOf(old(t.tables), 1)
    ensures t.counter == CounterOf(t.tables, 1) == (old(t.counter) + 1) % BYTE
  {
    ghost var fd := t.counter;
    var r := t.Open(1, "/b", BOTH, true, 0);
    assert t.globals == [Global("/a", 1, FIRST_FD), Global("/b", 1, fd)];
    ghost var files := [Entry(FIRST_FD, FIRST_FD, BOTH, 0), Entry(fd, fd, BOTH, 0)];
    assert FilesOf(t.tables, 1) == files && files[1..] == [Entry(fd, fd, BOTH, 0)];
    assert FindEntry(files, fd) == 1 && RemoveAt(files, 1) == [Entry(FIRST_FD, FIRST_FD, BOTH, 0)];
    var gs := t.globals;
    assert gs[1..] == [Global("/b", 1, fd)] && FindGlobal(gs, fd) == 1 && Lowered(gs, 1) == [Global("/a", 1, FIRST_FD)];
    var c := t.Close(1, r.fd);
  }

  method OpenFirst(t: FileTables)
    requires t.Valid() && t.globals == [] && t.tables == [] && t.counter == FIRST_FD
    modifies t
    ensures t.Valid() && t.globals == [Global("/a", 1, FIRST_FD)]
          && FilesOf(t.tables, 1) == [Entry(FIRST_FD, FIRST_FD, BOTH, 0)]
    ensures t.counter == CounterOf(t.tables, 1) == FIRST_FD + 1
  {
    var r := t.Open(1, "/a", BOTH, true, 0);
    assert FindPath([Global("/a", 1, FIRST_FD)], "/a") == 0;
  }

  method OpenOthers(t: FileTables)
    requires t.Valid() && t.globals == [Global("/a", 1, FIRST_FD)]
          && FilesOf(t.tables, 1) == [Entry(FIRST_FD, FIRST_FD, BOTH, 0)]
    requires t.counter == CounterOf(t.tables, 1) == FIRST_FD + 1
    modifies t
    ensures t.Valid() && t.globals == [Global("/a", 1, FIRST_FD)] && t.counter == FIRST_FD
  {
    for k := 0 to 255
      invariant t.Valid() && t.globals == [Global("/a", 1, FIRST_FD)]
            && FilesOf(t.tables, 1) == [Entry(FIRST_FD, FIRST_FD, BOTH, 0)]
      invariant t.counter == CounterOf(t.tables, 1) == (FIRST_FD + 1 + k) % BYTE
    {
      OpenAndClose(t);
    }
  }

  /** "/a" stays open while another path is opened and closed 255 times: the next path gets the global
      descriptor of "/a". */
  method DescriptorReused() returns (t: FileTables)
    ensures fresh(t) && !t.Valid() && t.globals == [Global("/a", 1, FIRST_FD), Global("/c", 1, FIRST_FD)]
  {
    t := new FileTables();
    OpenFirst(t);
    OpenOthers(t);
    var r := t.Open(1, "/c", BOTH, true, 0);
  }
}
