/**
 The write-through page cache of the memory server (memoria/src/memoria.c): a fixed
 array of entries with last-used times, one lock per entry and a per-process quota
 list.

 In the accounting walk the source removes a record with `list_remove(list, index)`,
 where `index` is no variable of that function; the walk's own position `pos` is what
 is modelled.
 */
module PageCache {
  import opened Lists
  import opened Records
  import opened Bytes

  const CACHE_MISS := -1

  datatype Entry = Entry(pid: int, page: int, content: seq<byte>)
  datatype Mode = ReadLock | WriteLock

  predicate Names(e: Entry, pid: int, page: int) { e.pid == pid && e.page == page }

  /** How many entries a process owns. */
  function Owned(entries: seq<Entry>, pid: int): nat {
    if entries == [] then 0 else (if entries[0].pid == pid then 1 else 0) + Owned(entries[1..], pid)
  }

  /** The quota test of assign_cache_entry looks at the first record of the process. */
  predicate Exceeded(quotas: seq<Record>, pid: int, limit: int) { Tally(quotas, pid) >= limit }

  /** A process recorded at its quota that owns no entry has no entry it may take. */
  predicate Starved(entries: seq<Entry>, quotas: seq<Record>, limit: int, pid: int) {
    Exceeded(quotas, pid, limit) && Owned(entries, pid) == 0
  }

  lemma {:induction false} OwnedUpdate(entries: seq<Entry>, i: int, e: Entry, pid: int)
    requires 0 <= i < |entries|
    ensures Owned(entries[i := e], pid) + (if entries[i].pid == pid then 1 else 0)
         == Owned(entries, pid) + if e.pid == pid then 1 else 0
  {
    if i == 0 {
      assert entries[0 := e][1..] == entries[1..];
    } else {
      assert entries[i := e][1..] == entries[1..][i - 1 := e];
      OwnedUpdate(entries[1..], i - 1, e, pid);
    }
  }

  lemma {:induction false} OwnedSome(entries: seq<Entry>, pid: int)
    ensures Owned(entries, pid) > 0 <==> exists i :: 0 <= i < |entries| && entries[i].pid == pid
  {
    if entries != [] {
      OwnedSome(entries[1..], pid);
      if i :| 0 <= i < |entries| && entries[i].pid == pid {
        assert i > 0 ==> entries[1..][i - 1].pid == pid;
      }
      if i :| 0 <= i < |entries[1..]| && entries[1..][i].pid == pid {
        assert entries[i + 1].pid == pid;
      }
    }
  }

  ghost predicate Positive(quotas: seq<Record>) {
    forall i :: 0 <= i < |quotas| ==> quotas[i].pid >= 0 && quotas[i].n >= 1
  }

  /** The quota list counts, once per process, exactly the entries each process owns,
      and no process owns more than the quota. */
  ghost predicate QuotaOk(quotas: seq<Record>, entries: seq<Entry>, limit: int) {
    && OneRecordEach(quotas)
    && Positive(quotas)
    && (forall pid :: pid >= 0 ==> Tally(quotas, pid) == Owned(entries, pid) && Owned(entries, pid) <= limit)
  }

  /** The position of a process's record, or the length of the list. */
  function PositionOf(quotas: seq<Record>, pid: int): (i: int)
    ensures 0 <= i <= |quotas|
    ensures i < |quotas| ==> quotas[i].pid == pid
    ensures forall j :: 0 <= j < i ==> quotas[j].pid != pid
  {
    if quotas == [] then 0 else if quotas[0].pid == pid then 0 else 1 + PositionOf(quotas[1..], pid)
  }

  function RaisedAt(quotas: seq<Record>, i: int): seq<Record>
    requires 0 <= i < |quotas|
  {
    quotas[i := Record(quotas[i].pid, quotas[i].n + 1)]
  }

  /** A record lowered by one, and removed when nothing is left. */
  function LoweredAt(quotas: seq<Record>, i: int): seq<Record>
    requires 0 <= i < |quotas|
  {
    if quotas[i].n <= 1 then RemoveAt(quotas, i) else quotas[i := Record(quotas[i].pid, quotas[i].n - 1)]
  }

  /** The walk removes previous's record and so steps over the record that slides into
      its place, which is the one it was about to raise. */
  predicate Skips(quotas: seq<Record>, previous: int, pid: int) {
    var i := PositionOf(quotas, previous);
    i < |quotas| && quotas[i].n <= 1 && i + 1 < |quotas| && PositionOf(quotas, pid) == i + 1
  }

  /** The quota list after an entry passed from previous (negative: from nobody) to pid. */
  function Accounted(quotas: seq<Record>, previous: int, pid: int): seq<Record>
    requires previous >= 0 ==> PositionOf(quotas, previous) < |quotas|
  {
    var j := PositionOf(quotas, pid);
    if previous < 0 then
      if j < |quotas| then RaisedAt(quotas, j) else quotas + [Record(pid, 1)]
    else
      var i := PositionOf(quotas, previous);
      if j < |quotas| && !Skips(quotas, previous, pid) then LoweredAt(RaisedAt(quotas, j), i)
      else LoweredAt(quotas, i) + [Record(pid, 1)]
  }

  /** The accounting walk of update_cache from position pos on, as coded: the list it leaves and whether
      it raised a record of pid. */
  function Walk(quotas: seq<Record>, pos: nat, previous: int, pid: int, updated: bool, lowered: bool)
      : (seq<Record>, bool)
    decreases |quotas| - pos
  {
    if pos >= |quotas| then (quotas, updated)
    else if previous >= 0 && quotas[pos].pid == previous then
      if updated then (LoweredAt(quotas, pos), updated)
      else Walk(LoweredAt(quotas, pos), pos + 1, previous, pid, updated, true)
    else if quotas[pos].pid == pid then
      if previous < 0 || lowered then (RaisedAt(quotas, pos), true)
      else Walk(RaisedAt(quotas, pos), pos + 1, previous, pid, true, lowered)
    else Walk(quotas, pos + 1, previous, pid, updated, lowered)
  }

  /** The quota list after the walk; a process it did not raise gets a new record. */
  function Walked(quotas: seq<Record>, previous: int, pid: int): seq<Record> {
    var w := Walk(quotas, 0, previous, pid, false, false);
    if w.1 then w.0 else w.0 + [Record(pid, 1)]
  }

  /** With previous done or absent, the walk raises the first record of pid from pos on. */
  lemma {:induction false} WalkRaises(quotas: seq<Record>, pos: nat, previous: int, pid: int, lowered: bool, j: int)
    requires (previous < 0 || lowered) && pos <= j <= |quotas| && (j < |quotas| ==> quotas[j].pid == pid)
          && previous != pid
    requires forall k :: pos <= k < |quotas| && k != j ==> quotas[k].pid != pid
    requires previous >= 0 ==> forall k :: pos <= k < |quotas| ==> quotas[k].pid != previous
    ensures Walk(quotas, pos, previous, pid, false, lowered)
         == if j < |quotas| then (RaisedAt(quotas, j), true) else (quotas, false)
    decreases |quotas| - pos
  {
    if pos < j {
      WalkRaises(quotas, pos + 1, previous, pid, lowered, j);
    }
  }

  /** With pid raised, the walk lowers the first record of previous from pos on. */
  lemma {:induction false} WalkLowers(quotas: seq<Record>, pos: nat, previous: int, pid: int, i: int)
    requires previous >= 0 && pos <= i < |quotas| && quotas[i].pid == previous != pid
    requires forall k :: pos <= k < i ==> quotas[k].pid != previous && quotas[k].pid != pid
    ensures Walk(quotas, pos, previous, pid, true, false) == (LoweredAt(quotas, i), true)
    decreases |quotas| - pos
  {
    if pos < i {
      WalkLowers(quotas, pos + 1, previous, pid, i);
    }
  }

  /** A walk that lowers the record of previous and keeps it finds the record of pid behind it. */
  lemma {:induction false} WalkKeepsPrevious(quotas: seq<Record>, previous: int, pid: int, i: int, j: int)
    requires OneRecordEach(quotas) && 0 <= i < j <= |quotas| && quotas[i].pid == previous != pid && previous >= 0
          && quotas[i].n > 1
    requires j < |quotas| ==> quotas[j].pid == pid
    requires j == |quotas| ==> forall k :: 0 <= k < |quotas| ==> quotas[k].pid != pid
    ensures Walk(quotas, i, previous, pid, false, false)
         == if j < |quotas| then (LoweredAt(RaisedAt(quotas, j), i), true) else (LoweredAt(quotas, i), false)
  {
    var q := LoweredAt(quotas, i);
    assert |q| == |quotas| && forall k :: 0 <= k < |q| ==> q[k].pid == quotas[k].pid;
    WalkRaises(q, i + 1, previous, pid, true, j);
    if j < |quotas| {
      assert RaisedAt(q, j) == LoweredAt(RaisedAt(quotas, j), i);
    }
  }

  /** A walk that removes it goes on one place further, past the record of pid when that slid into its place. */
  lemma {:induction false} WalkRemovesPrevious(quotas: seq<Record>, previous: int, pid: int, i: int, j: int)
    requires OneRecordEach(quotas) && 0 <= i < j <= |quotas| && quotas[i].pid == previous != pid && previous >= 0
          && quotas[i].n <= 1
    requires j < |quotas| ==> quotas[j].pid == pid
    requires j == |quotas| ==> forall k :: 0 <= k < |quotas| ==> quotas[k].pid != pid
    ensures Walk(quotas, i, previous, pid, false, false)
         == if j < |quotas| && j != i + 1 then (LoweredAt(RaisedAt(quotas, j), i), true)
           else (LoweredAt(quotas, i), false)
  {
    var q := RemoveAt(quotas, i);
    assert LoweredAt(quotas, i) == q && forall k :: 0 <= k < |q| ==> q[k] == quotas[if k < i then k else k + 1];
    if j < |quotas| && j != i + 1 {
      WalkRaises(q, i + 1, previous, pid, true, j - 1);
      assert RaisedAt(q, j - 1) == RemoveAt(RaisedAt(quotas, j), i);
    } else if i + 1 <= |q| {
      WalkRaises(q, i + 1, previous, pid, true, |q|);
    }
  }

  /** The walk steps over records of others. */
  lemma {:induction false} WalkPasses(quotas: seq<Record>, pos: nat, to: nat, previous: int, pid: int)
    requires pos <= to <= |quotas| && forall k :: pos <= k < to ==> quotas[k].pid != previous && quotas[k].pid != pid
    ensures Walk(quotas, pos, previous, pid, false, false) == Walk(quotas, to, previous, pid, false, false)
    decreases |quotas| - pos
  {
    if pos < to {
      WalkPasses(quotas, pos + 1, to, previous, pid);
    }
  }

  /** On a list with one record for each process the walk does what Accounted says. */
  lemma {:induction false} WalkedOnce(quotas: seq<Record>, previous: int, pid: int)
    requires OneRecordEach(quotas) && previous != pid && (previous >= 0 ==> PositionOf(quotas, previous) < |quotas|)
    ensures Walked(quotas, previous, pid) == Accounted(quotas, previous, pid)
  {
    var i, j := PositionOf(quotas, previous), PositionOf(quotas, pid);
    if previous < 0 {
      WalkRaises(quotas, 0, previous, pid, false, j);
    } else if i < j {
      WalkPasses(quotas, 0, i, previous, pid);
      if quotas[i].n > 1 {
        WalkKeepsPrevious(quotas, previous, pid, i, j);
      } else {
        WalkRemovesPrevious(quotas, previous, pid, i, j);
      }
    } else {
      WalkPasses(quotas, 0, j, previous, pid);
      WalkLowers(RaisedAt(quotas, j), j + 1, previous, pid, i);
    }
  }

  /** With previous done or absent, the walk raises the first record of pid and leaves all behind it. */
  lemma {:induction false} StopsAfterRaise(quotas: seq<Record>, pos: nat, previous: int, pid: int, lowered: bool,
                                           j: int)
    requires (previous < 0 || lowered) && previous != pid && pos <= j < |quotas| && quotas[j].pid == pid
    requires forall k :: pos <= k < j ==> quotas[k].pid != pid && (previous >= 0 ==> quotas[k].pid != previous)
    ensures Walk(quotas, pos, previous, pid, false, lowered) == (quotas[j := Record(pid, quotas[j].n + 1)], true)
    decreases |quotas| - pos
  {
    if pos < j {
      StopsAfterRaise(quotas, pos + 1, previous, pid, lowered, j);
    }
  }

  /** On any list, an entry from nobody raises the first record of the process and no other. */
  lemma {:induction false} FirstRaised(quotas: seq<Record>, pid: int, j: int)
    requires 0 <= j < |quotas| && quotas[j].pid == pid >= 0 && forall k :: 0 <= k < j ==> quotas[k].pid != pid
    ensures Walked(quotas, -1, pid) == quotas[j := Record(pid, quotas[j].n + 1)]
  {
    StopsAfterRaise(quotas, 0, -1, pid, false, j);
  }

  /** On any list, the walk ends with the first record of the new owner when it has lowered the first of the
      previous one before it, and with that one when it has raised the new owner's: what follows stays. */
  lemma {:induction false} StopsAfterBoth(quotas: seq<Record>, previous: int, pid: int, i: int, j: int)
    requires 0 <= i < |quotas| && 0 <= j < |quotas|
    requires quotas[i].pid == previous >= 0 && quotas[j].pid == pid != previous
    requires forall k :: 0 <= k < |quotas| && k < (if i < j then j else i) && k != i && k != j ==>
               quotas[k].pid != previous && quotas[k].pid != pid
    requires quotas[i].n > 1
    ensures Walked(quotas, previous, pid)
         == quotas[i := Record(previous, quotas[i].n - 1)][j := Record(pid, quotas[j].n + 1)]
  {
    if i < j {
      WalkPasses(quotas, 0, i, previous, pid);
      StopsAfterRaise(LoweredAt(quotas, i), i + 1, previous, pid, true, j);
    } else {
      WalkPasses(quotas, 0, j, previous, pid);
      WalkLowers(RaisedAt(quotas, j), j + 1, previous, pid, i);
      assert LoweredAt(RaisedAt(quotas, j), i)
          == quotas[i := Record(previous, quotas[i].n - 1)][j := Record(pid, quotas[j].n + 1)];
    }
  }

  lemma {:induction false} LoweredTally(quotas: seq<Record>, i: int, p: int)
    requires OneRecordEach(quotas) && 0 <= i < |quotas| && quotas[i].n >= 1
    ensures OneRecordEach(LoweredAt(quotas, i))
    ensures Tally(LoweredAt(quotas, i), p) == Tally(quotas, p) - if p == quotas[i].pid then 1 else 0
  {
    TallyAt(quotas, i);
    if quotas[i].n <= 1 {
      TallyRemove(quotas, i, p);
    } else {
      TallyUpdate(quotas, i, quotas[i].n - 1, p);
    }
  }

  lemma {:induction false} RaisedTally(quotas: seq<Record>, i: int, p: int)
    requires OneRecordEach(quotas) && 0 <= i < |quotas|
    ensures OneRecordEach(RaisedAt(quotas, i))
    ensures Tally(RaisedAt(quotas, i), p) == Tally(quotas, p) + if p == quotas[i].pid then 1 else 0
  {
    TallyAt(quotas, i);
    TallyUpdate(quotas, i, quotas[i].n + 1, p);
  }

  /** Without the skip, the walk moves exactly one entry from previous's account to pid's. */
  lemma {:induction false} AccountedTally(quotas: seq<Record>, previous: int, pid: int, p: int)
    requires OneRecordEach(quotas) && pid >= 0 && previous != pid
    requires forall i :: 0 <= i < |quotas| ==> quotas[i].n >= 1
    requires previous >= 0 ==> PositionOf(quotas, previous) < |quotas|
    requires !Skips(quotas, previous, pid)
    ensures OneRecordEach(Accounted(quotas, previous, pid))
    ensures Tally(Accounted(quotas, previous, pid), p)
         == Tally(quotas, p) + (if p == pid then 1 else 0) - if previous >= 0 && p == previous then 1 else 0
  {
    var j := PositionOf(quotas, pid);
    var raised := if j < |quotas| then RaisedAt(quotas, j) else quotas;
    if j < |quotas| {
      RaisedTally(quotas, j, p);
    } else {
      TallyNone(quotas, pid);
    }
    var lowered := raised;
    if previous >= 0 {
      var i := PositionOf(quotas, previous);
      LoweredTally(raised, i, p);
      lowered := LoweredAt(raised, i);
    }
    if j == |quotas| {
      TallyAppend(lowered, Record(pid, 1), p);
    }
  }

  lemma {:induction false} OwnerIsRecorded(quotas: seq<Record>, entries: seq<Entry>, limit: int, i: int)
    requires QuotaOk(quotas, entries, limit) && 0 <= i < |entries| && entries[i].pid >= 0
    ensures PositionOf(quotas, entries[i].pid) < |quotas|
  {
    OwnedSome(entries, entries[i].pid);
    if PositionOf(quotas, entries[i].pid) == |quotas| {
      TallyNone(quotas, entries[i].pid);
    }
  }

  lemma {:induction false} StaysPositive(quotas: seq<Record>, i: int)
    requires Positive(quotas) && 0 <= i < |quotas|
    ensures Positive(RaisedAt(quotas, i)) && Positive(LoweredAt(quotas, i))
  {
  }

  lemma {:induction false} AccountedRecords(quotas: seq<Record>, previous: int, pid: int)
    requires pid >= 0 && Positive(quotas) && (previous >= 0 ==> PositionOf(quotas, previous) < |quotas|)
    ensures Positive(Accounted(quotas, previous, pid))
  {
    var i, j := PositionOf(quotas, previous), PositionOf(quotas, pid);
    if j < |quotas| {
      StaysPositive(quotas, j);
    }
    if previous >= 0 {
      StaysPositive(quotas, i);
      if j < |quotas| {
        StaysPositive(RaisedAt(quotas, j), i);
      }
    }
  }

  lemma {:induction false} TransferKeeps(quotas: seq<Record>, entries: seq<Entry>, limit: int, i: int, e: Entry)
    requires QuotaOk(quotas, entries, limit) && 0 <= i < |entries| && e.pid >= 0 && e.pid != entries[i].pid
          && Owned(entries, e.pid) < limit
    requires entries[i].pid >= 0 ==> PositionOf(quotas, entries[i].pid) < |quotas|
    requires !Skips(quotas, entries[i].pid, e.pid)
    ensures QuotaOk(Accounted(quotas, entries[i].pid, e.pid), entries[i := e], limit)
  {
    var previous, entries' := entries[i].pid, entries[i := e];
    var quotas' := Accounted(quotas, previous, e.pid);
    AccountedTally(quotas, previous, e.pid, 0);
    AccountedRecords(quotas, previous, e.pid);
    forall p | p >= 0 ensures Tally(quotas', p) == Owned(entries', p) && Owned(entries', p) <= limit {
      OwnedUpdate(entries, i, e, p);
      AccountedTally(quotas, previous, e.pid, p);
      assert Tally(quotas, p) == Owned(entries, p);
    }
  }

  /** An entry passing to a process keeps the accounting exactly when the walk does not skip. */
  lemma {:induction false} QuotaAfterTransfer(quotas: seq<Record>, entries: seq<Entry>, limit: int, i: int, e: Entry)
    requires QuotaOk(quotas, entries, limit) && 0 <= i < |entries| && e.pid >= 0
    requires e.pid != entries[i].pid ==> Owned(entries, e.pid) < limit
    ensures entries[i].pid >= 0 ==> PositionOf(quotas, entries[i].pid) < |quotas|
    ensures var quotas' := if e.pid == entries[i].pid then quotas else Accounted(quotas, entries[i].pid, e.pid);
            QuotaOk(quotas', entries[i := e], limit) <==>
              e.pid == entries[i].pid || !Skips(quotas, entries[i].pid, e.pid)
  {
    var previous := entries[i].pid;
    if previous >= 0 {
      OwnerIsRecorded(quotas, entries, limit, i);
    }
    if e.pid == previous {
      var entries' := entries[i := e];
      forall p | p >= 0 ensures Tally(quotas, p) == Owned(entries', p) && Owned(entries', p) <= limit {
        OwnedUpdate(entries, i, e, p);
        assert Tally(quotas, p) == Owned(entries, p);
      }
    } else if !Skips(quotas, previous, e.pid) {
      TransferKeeps(quotas, entries, limit, i, e);
    } else {
      SkipAddsRecord(quotas, previous, e.pid);
    }
  }

  /** The skip leaves the process two records. */
  lemma {:induction false} SkipAddsRecord(quotas: seq<Record>, previous: int, pid: int)
    requires Positive(quotas) && previous >= 0 && Skips(quotas, previous, pid)
    ensures !OneRecordEach(Accounted(quotas, previous, pid))
  {
    var i, n := PositionOf(quotas, previous), |quotas|;
    var left := RemoveAt(quotas, i);
    assert LoweredAt(quotas, i) == left && left[i] == quotas[i + 1];
    var quotas' := left + [Record(pid, 1)];
    assert Accounted(quotas, previous, pid) == quotas';
    assert quotas'[i] == quotas[i + 1] && quotas'[n - 1] == Record(pid, 1);
    assert quotas'[i].pid == quotas'[n - 1].pid;
  }

  /** An entry taken from its owner and given to nobody keeps the accounting. */
  lemma {:induction false} QuotaAfterDrop(quotas: seq<Record>, entries: seq<Entry>, limit: int, i: int, e: Entry)
    requires QuotaOk(quotas, entries, limit) && 0 <= i < |entries| && entries[i].pid >= 0 > e.pid
    ensures PositionOf(quotas, entries[i].pid) < |quotas|
    ensures QuotaOk(LoweredAt(quotas, PositionOf(quotas, entries[i].pid)), entries[i := e], limit)
  {
    OwnerIsRecorded(quotas, entries, limit, i);
    var previous, entries' := entries[i].pid, entries[i := e];
    var at := PositionOf(quotas, previous);
    var quotas' := LoweredAt(quotas, at);
    forall p
      ensures OneRecordEach(quotas')
      ensures p >= 0 ==> Tally(quotas', p) == Owned(entries', p) && Owned(entries', p) <= limit
    {
      OwnedUpdate(entries, i, e, p);
      LoweredTally(quotas, at, p);
      assert p >= 0 ==> Tally(quotas, p) == Owned(entries, p);
    }
  }

  /** The list without the first record of a process. */
  function Unrecorded(quotas: seq<Record>, pid: int): seq<Record> {
    var i := PositionOf(quotas, pid);
    if i < |quotas| then RemoveAt(quotas, i) else quotas
  }

  /** The list after one less for the first record of a process. */
  function LoweredFirst(quotas: seq<Record>, pid: int): seq<Record> {
    var i := PositionOf(quotas, pid);
    if i < |quotas| then LoweredAt(quotas, i) else quotas
  }

  lemma {:induction false} OwnedNone(entries: seq<Entry>, pid: int)
    requires forall i :: 0 <= i < |entries| ==> entries[i].pid != pid
    ensures Owned(entries, pid) == 0
  {
    if entries != [] {
      OwnedNone(entries[1..], pid);
    }
  }

  /** A process whose entries are all freed and whose record goes keeps the accounting exact. */
  lemma {:induction false} QuotaAfterRemoval(quotas: seq<Record>, entries: seq<Entry>, entries': seq<Entry>, limit: int,
                                             pid: int)
    requires QuotaOk(quotas, entries, limit) && pid >= 0 && forall i :: 0 <= i < |entries'| ==> entries'[i].pid != pid
    requires limit >= 0 && forall p :: p >= 0 && p != pid ==> Owned(entries', p) == Owned(entries, p)
    ensures QuotaOk(Unrecorded(quotas, pid), entries', limit)
  {
    var i, quotas' := PositionOf(quotas, pid), Unrecorded(quotas, pid);
    OwnedNone(entries', pid);
    assert i < |quotas| ==> forall k :: 0 <= k < |quotas'| ==> quotas'[k] == quotas[if k < i then k else k + 1];
    forall p | p >= 0 ensures Tally(quotas', p) == Owned(entries', p) && Owned(entries', p) <= limit {
      if i < |quotas| {
        TallyRemove(quotas, i, p);
      } else {
        TallyNone(quotas, pid);
      }
      assert Tally(quotas, p) == Owned(entries, p);
    }
  }

  /** No page occupies two entries. */
  ghost predicate Distinct(entries: seq<Entry>) {
    forall i, j :: 0 <= i < j < |entries| && entries[i].pid >= 0 ==> !Names(entries[j], entries[i].pid, entries[i].page)
  }

  ghost predicate Absent(entries: seq<Entry>, pid: int, page: int) {
    forall i :: 0 <= i < |entries| ==> !Names(entries[i], pid, page)
  }

  /** The entries a process at its quota may take are its own; any other process may take any. */
  predicate Candidate(e: Entry, pid: int, exceeded: bool) {
    exceeded ==> e.pid == pid
  }

  /** best is the first of the least recently used candidates below n. */
  predicate LeastUsed(entries: seq<Entry>, lastUsed: seq<int>, pid: int, exceeded: bool, n: int, best: int)
    requires |lastUsed| == |entries| >= n
  {
    && 0 <= best < n && Candidate(entries[best], pid, exceeded)
    && (forall k :: 0 <= k < n && Candidate(entries[k], pid, exceeded) ==>
          lastUsed[best] <= lastUsed[k] && (k < best ==> lastUsed[best] < lastUsed[k]))
  }

  /** The entry replaced for pid: its least recently used own one at the quota, and
      otherwise the first free entry, or the least recently used of all when none is free. */
  predicate Victim(entries: seq<Entry>, lastUsed: seq<int>, pid: int, exceeded: bool, v: int)
    requires |lastUsed| == |entries|
  {
    if !exceeded && exists k :: 0 <= k < |entries| && entries[k].pid < 0 then
      0 <= v < |entries| && entries[v].pid < 0 && forall k :: 0 <= k < v ==> entries[k].pid >= 0
    else
      LeastUsed(entries, lastUsed, pid, exceeded, |entries|, v)
  }

  /** At its quota a process gives up its own least recently used entry, the first of several. Any other takes
      the first free entry and, without one, the least recently used of all. */
  lemma {:induction false} VictimIs(entries: seq<Entry>, lastUsed: seq<int>, pid: int, exceeded: bool, v: int)
    requires |lastUsed| == |entries|
    ensures exceeded ==>
              (Victim(entries, lastUsed, pid, exceeded, v) <==>
                 && 0 <= v < |entries| && entries[v].pid == pid
                 && forall k :: 0 <= k < |entries| && entries[k].pid == pid ==>
                      lastUsed[v] < lastUsed[k] || (lastUsed[v] == lastUsed[k] && v <= k))
    ensures !exceeded && (exists k :: 0 <= k < |entries| && entries[k].pid < 0) ==>
              (Victim(entries, lastUsed, pid, exceeded, v) <==>
                 && 0 <= v < |entries| && entries[v].pid < 0 && forall k :: 0 <= k < v ==> entries[k].pid >= 0)
    ensures !exceeded && (forall k :: 0 <= k < |entries| ==> entries[k].pid >= 0) ==>
              (Victim(entries, lastUsed, pid, exceeded, v) <==>
                 && 0 <= v < |entries|
                 && forall k :: 0 <= k < |entries| ==>
                      lastUsed[v] < lastUsed[k] || (lastUsed[v] == lastUsed[k] && v <= k))
  {
  }

  lemma {:induction false} VictimIsOne(entries: seq<Entry>, lastUsed: seq<int>, pid: int, exceeded: bool, v: int,
                                       w: int)
    requires |lastUsed| == |entries|
    requires Victim(entries, lastUsed, pid, exceeded, v) && Victim(entries, lastUsed, pid, exceeded, w)
    ensures v == w
  {
  }

  /** Entries, times and quota list of a cache. */
  datatype View = View(entries: seq<Entry>, lastUsed: seq<int>, quotas: seq<Record>)

  /** update_cache on entry v. */
  function Took(a: View, v: int, pid: int, page: int, offset: int, data: seq<byte>, now: int): View
    requires 0 <= v < |a.entries| == |a.lastUsed| && 0 <= offset && offset + |data| <= |a.entries[v].content|
  {
    View(a.entries[v := Entry(pid, page, Splice(a.entries[v].content, offset, data))], a.lastUsed[v := now],
         if a.entries[v].pid == pid then a.quotas else Walked(a.quotas, a.entries[v].pid, pid))
  }

  function Freed(e: Entry): Entry { Entry(-1, -1, e.content) }

  /** The cache after the page in entry v is deleted. */
  function Dropped(a: View, v: int): View
    requires 0 <= v < |a.entries|
  {
    View(a.entries[v := Freed(a.entries[v])], a.lastUsed, LoweredFirst(a.quotas, a.entries[v].pid))
  }

  /** The cache after a process ends. */
  function Cleared(a: View, pid: int): View {
    View(seq(|a.entries|, i requires 0 <= i < |a.entries| =>
           if a.entries[i].pid == pid then Freed(a.entries[i]) else a.entries[i]),
         a.lastUsed, Unrecorded(a.quotas, pid))
  }

  /** A miss served by the victim keeps exact accounting exactly when the walk does not skip. */
  lemma {:induction false} TookKeepsIff(a: View, limit: int, v: int, pid: int, page: int, offset: int, data: seq<byte>,
                                        now: int)
    requires QuotaOk(a.quotas, a.entries, limit) && limit >= 1 && pid >= 0 && |a.lastUsed| == |a.entries|
    requires Victim(a.entries, a.lastUsed, pid, Exceeded(a.quotas, pid, limit), v)
    requires 0 <= v < |a.entries| && 0 <= offset && offset + |data| <= |a.entries[v].content|
    ensures var b := Took(a, v, pid, page, offset, data, now);
            QuotaOk(b.quotas, b.entries, limit) <==> a.entries[v].pid == pid || !Skips(a.quotas, a.entries[v].pid, pid)
  {
    var previous := a.entries[v].pid;
    assert Tally(a.quotas, pid) == Owned(a.entries, pid);
    QuotaAfterTransfer(a.quotas, a.entries, limit, v, Entry(pid, page, Splice(a.entries[v].content, offset, data)));
    if previous != pid {
      WalkedOnce(a.quotas, previous, pid);
    }
  }

  class Cache {
    const size: nat
    const limit: int
    const frameSize: nat
    const entries: array<Entry>
    const lastUsed: array<int>
    var quotas: seq<Record>
    var locks: map<int, Mode>
    ghost var filled: seq<set<int>>  // per entry: the bytes copied in since it took its page

    ghost predicate Shape()
      reads this, entries
    {
      && size >= 1 && limit >= 1
      && entries.Length == lastUsed.Length == |filled| == size
      && (forall i :: 0 <= i < size ==> |entries[i].content| == frameSize)
      && (forall i, k :: 0 <= i < size && k in filled[i] ==> 0 <= k < frameSize)
    }

    /** No page is in two entries and no lock is held. */
    ghost predicate Sound()
      reads this, entries
    {
      Shape() && Distinct(entries[..]) && locks == map[]
    }

    /** And the quota accounting is exact. */
    ghost predicate Valid()
      reads this, entries
    {
      Sound() && QuotaOk(quotas, entries[..], limit)
    }

    ghost function Now(): View
      reads this, entries, lastUsed
    {
      View(entries[..], lastUsed[..], quotas)
    }

    /** The cache part of load: every entry is free, its bytes unset. */
    constructor (size: nat, limit: int, frameSize: nat)
      requires size >= 1 && limit >= 1
      ensures Valid() && fresh(entries) && fresh(lastUsed)
      ensures this.size == size && this.limit == limit && this.frameSize == frameSize
      ensures quotas == [] && forall i :: 0 <= i < size ==> Names(entries[i], -1, -1)
    {
      this.size, this.limit, this.frameSize := size, limit, frameSize;
      var unset: seq<byte> := seq(frameSize, _ => 0);
      entries := new Entry[size](_ => Entry(-1, -1, unset));
      lastUsed := new int[size];
      quotas, locks := [], map[];
      filled := seq(size, _ => {});
      new;
      forall pid | pid >= 0 ensures Owned(entries[..], pid) == 0 {
        OwnedSome(entries[..], pid);
      }
    }

    /** rw_lock_unlock: a thread never locks an entry it already holds. */
    method Lock(e: int, mode: Mode)
      requires e !in locks
      modifies this`locks
      ensures locks == old(locks)[e := mode]
    {
      locks := locks[e := mode];
    }

    method Unlock(e: int)
      requires e in locks
      modifies this`locks
      ensures locks == old(locks) - {e}
    {
      locks := locks - {e};
    }

    /** get_cache_entry: the entry of a page, locked, or a miss that holds no lock. */
    method GetCacheEntry(pid: int, page: int, mode: Mode) returns (e: int)
      requires locks == map[]
      modifies this`locks
      ensures e == CACHE_MISS || 0 <= e < entries.Length
      ensures e >= 0 ==> Names(entries[e], pid, page) && locks == map[e := mode]
      ensures e == CACHE_MISS ==>
                && locks == map[]
                && forall k :: 0 <= k < entries.Length ==> !Names(entries[k], pid, page)
    {
      e := 0;
      while e < entries.Length
        invariant 0 <= e <= entries.Length && locks == map[]
        invariant forall k :: 0 <= k < e ==> !Names(entries[k], pid, page)
      {
        Lock(e, mode);
        if Names(entries[e], pid, page) {
          return;
        }
        Unlock(e);
        e := e + 1;
      }
      e := CACHE_MISS;
    }

    /** The quota test at the head of assign_cache_entry. */
    method AtQuota(pid: int) returns (exceeded: bool)
      requires limit >= 1
      ensures exceeded <==> Exceeded(quotas, pid, limit)
      ensures exceeded <==>
              exists i :: 0 <= i < |quotas| && quotas[i].pid == pid && quotas[i].n >= limit
                          && forall j :: 0 <= j < i ==> quotas[j].pid != pid
    {
      var pos := 0;
      while pos < |quotas|
        invariant 0 <= pos <= |quotas|
        invariant forall j :: 0 <= j < pos ==> quotas[j].pid != pid
      {
        if quotas[pos].pid == pid {
          TallyFirst(quotas, pos);
          return quotas[pos].n >= limit;
        }
        pos := pos + 1;
      }
      TallyNone(quotas, pid);
      return false;
    }

    /** least_recently_used: keeps the better of two locked candidates, unlocking the other. */
    method LeastRecentlyUsed(e: int, lru: int) returns (best: int)
      requires 0 <= e < lastUsed.Length && lru < e
      requires locks == if lru < 0 then map[e := WriteLock] else map[lru := WriteLock][e := WriteLock]
      modifies this`locks
      ensures best == if lru < 0 || lastUsed[e] < lastUsed[lru] then e else lru
      ensures locks == map[best := WriteLock]
    {
      if lru < 0 {
        best := e;
      } else if lastUsed[e] < lastUsed[lru] {
        Unlock(lru);
        best := e;
      } else {
        Unlock(e);
        best := lru;
      }
    }

    /** assign_cache_entry: the victim, holding its write lock and no other, or -1 exactly when the process
        is recorded at its quota and owns no entry. */
    method AssignCacheEntry(pid: int) returns (v: int)
      requires Shape() && locks == map[]
      modifies this`locks
      ensures -1 <= v < size && (v == -1 <==> Starved(entries[..], quotas, limit, pid))
      ensures v >= 0 ==> Victim(entries[..], lastUsed[..], pid, Exceeded(quotas, pid, limit), v)
      ensures locks == if v < 0 then map[] else map[v := WriteLock]
    {
      var exceeded := AtQuota(pid);
      OwnedSome(entries[..], pid);
      v := ChooseEntry(pid, exceeded);
    }

    /** The loop of assign_cache_entry over the entries. */
    method ChooseEntry(pid: int, exceeded: bool) returns (v: int)
      requires entries.Length == lastUsed.Length == size >= 1 && locks == map[]
      modifies this`locks
      ensures -1 <= v < size && (v == -1 <==> exceeded && forall k :: 0 <= k < size ==> entries[k].pid != pid)
      ensures v >= 0 ==> Victim(entries[..], lastUsed[..], pid, exceeded, v)
      ensures locks == if v < 0 then map[] else map[v := WriteLock]
    {
      v := -1;
      var e := 0;
      while e < size
        invariant 0 <= e <= size && -1 <= v < e
        invariant exceeded || forall k :: 0 <= k < e ==> entries[k].pid >= 0
        invariant v < 0 ==> locks == map[] && forall k :: 0 <= k < e ==> !Candidate(entries[k], pid, exceeded)
        invariant v >= 0 ==> locks == map[v := WriteLock] && LeastUsed(entries[..], lastUsed[..], pid, exceeded, e, v)
      {
        Lock(e, WriteLock);
        if exceeded {
          if entries[e].pid == pid {
            v := LeastRecentlyUsed(e, v);
          } else {
            Unlock(e);
          }
        } else {
          if entries[e].pid < 0 {
            if v >= 0 {
              Unlock(v);
            }
            return e;
          } else {
            v := LeastRecentlyUsed(e, v);
          }
        }
        e := e + 1;
      }
      if v < 0 {
        assert !Candidate(entries[0], pid, exceeded);
      }
    }

    /** The accounting walk of update_cache. */
    method Account(previous: int, pid: int)
      modifies this`quotas
      ensures quotas == Walked(old(quotas), previous, pid)
    {
      var updated, previousUpdated := false, false;
      var pos := 0;
      while pos < |quotas|
        invariant 0 <= pos
        invariant Walk(quotas, pos, previous, pid, updated, previousUpdated)
             == Walk(old(quotas), 0, previous, pid, false, false)
        invariant previous < 0 ==> !updated
        decreases |quotas| - pos
      {
        if previous < 0 {
          if quotas[pos].pid == pid {
            quotas := quotas[pos := Record(pid, quotas[pos].n + 1)];
            updated := true;
            break;
          }
        } else {
          if quotas[pos].pid == previous {
            var left := quotas[pos].n - 1;
            if left <= 0 {
              quotas := RemoveAt(quotas, pos);
            } else {
              quotas := quotas[pos := Record(previous, left)];
            }
            previousUpdated := true;
            if updated { break; }
          } else if quotas[pos].pid == pid {
            quotas := quotas[pos := Record(pid, quotas[pos].n + 1)];
            updated := true;
            if previousUpdated { break; }
          }
        }
        pos := pos + 1;
      }
      assert (quotas, updated) == Walk(old(quotas), 0, previous, pid, false, false);
      if !updated {
        quotas := quotas + [Record(pid, 1)];
      }
    }

    /** update_cache: the bytes, the owner and the time of a write-locked entry, then the accounting. */
    method UpdateCache(e: int, pid: int, page: int, offset: int, data: seq<byte>, now: int)
      requires Shape() && pid >= 0
      requires 0 <= e < size && locks == map[e := WriteLock]
      requires 0 <= offset && offset + |data| <= frameSize
      modifies entries, lastUsed, this`quotas, this`locks, this`filled
      ensures Shape() && locks == map[] && Now() == Took(old(Now()), e, pid, page, offset, data, now)
      ensures entries[..] == old(entries[..])[e := Entry(pid, page, Splice(old(entries[e].content), offset, data))]
      ensures lastUsed[..] == old(lastUsed[..])[e := now] && (old(entries[e].pid) == pid ==> quotas == old(quotas))
      ensures filled == old(filled)[e := (if old(Names(entries[e], pid, page)) then old(filled[e]) else {})
                                         + Range(offset, offset + |data|)]
    {
      var previous := entries[e].pid;
      filled := filled[e := (if Names(entries[e], pid, page) then filled[e] else {}) + Range(offset, offset + |data|)];
      entries[e] := Entry(pid, page, Splice(entries[e].content, offset, data));
      lastUsed[e] := now;
      Unlock(e);
      if previous < 0 || pid != previous {
        Account(previous, pid);
      }
    }

    /** A miss: assign_cache_entry followed by update_cache. Exact accounting survives exactly when the
        walk does not skip the record of pid. */
    method Fill(pid: int, page: int, offset: int, data: seq<byte>, now: int) returns (ghost v: int)
      requires Sound() && pid >= 0 && !Starved(entries[..], quotas, limit, pid)
      requires forall i :: 0 <= i < size ==> !Names(entries[i], pid, page)
      requires 0 <= offset && offset + |data| <= frameSize
      modifies entries, lastUsed, this`quotas, this`locks, this`filled
      ensures Sound() && Now().entries[..] == entries[..]
      ensures 0 <= v < size && Victim(old(entries[..]), old(lastUsed[..]), pid, old(Exceeded(quotas, pid, limit)), v)
      ensures Now() == Took(old(Now()), v, pid, page, offset, data, now)
            && filled == old(filled)[v := Range(offset, offset + |data|)]
      ensures old(Valid()) ==>
                (Valid() <==> old(entries[v].pid) == pid || !Skips(old(quotas), old(entries[v].pid), pid))
    {
      var e := AssignCacheEntry(pid);
      v := e;
      UpdateCache(e, pid, page, offset, data, now);
      assert {} + Range(offset, offset + |data|) == Range(offset, offset + |data|);
      if old(Valid()) {
        TookKeepsIff(old(Now()), limit, v, pid, page, offset, data, now);
      }
    }

    /** writing_cache: a hit updates the entry in place; a miss takes an entry and copies
        only the written bytes. */
    method WritingCache(pid: int, page: int, offset: int, data: seq<byte>, now: int) returns (ghost v: int)
      requires Sound() && pid >= 0
      requires (forall i :: 0 <= i < size ==> !Names(entries[i], pid, page)) ==>
                !Starved(entries[..], quotas, limit, pid)
      requires 0 <= offset && offset + |data| <= frameSize
      modifies entries, lastUsed, this`quotas, this`locks, this`filled
      ensures Sound() && 0 <= v < size && Now() == Took(old(Now()), v, pid, page, offset, data, now)
      ensures filled == old(filled)[v := (if old(Names(entries[v], pid, page)) then old(filled[v]) else {})
                                         + Range(offset, offset + |data|)]
      ensures !old(Names(entries[v], pid, page)) ==> forall i :: 0 <= i < size ==> !old(Names(entries[i], pid, page))
      ensures !old(Names(entries[v], pid, page)) ==>
                Victim(old(entries[..]), old(lastUsed[..]), pid, old(Exceeded(quotas, pid, limit)), v)
      ensures old(Valid()) ==>
                (Valid() <==> old(entries[v].pid) == pid || !Skips(old(quotas), old(entries[v].pid), pid))
    {
      var e := GetCacheEntry(pid, page, WriteLock);
      v := e;
      if e == CACHE_MISS {
        v := Fill(pid, page, offset, data, now);
        assert {} + Range(offset, offset + |data|) == Range(offset, offset + |data|);
      } else {
        UpdateCache(e, pid, page, offset, data, now);
        if old(Valid()) {
          QuotaAfterTransfer(old(quotas), old(entries[..]), limit, v,
               Entry(pid, page, Splice(old(entries[v].content), offset, data)));
        }
      }
    }

    /** reading_cache: on a hit, the entry's bytes; holds no lock afterwards. */
    method ReadingCache(pid: int, page: int, offset: int, size: nat, now: int) returns (e: int, data: seq<byte>)
      requires Sound() && 0 <= offset && offset + size <= frameSize
      modifies lastUsed, this`locks
      ensures Sound() && (old(Valid()) ==> Valid())
      ensures e == CACHE_MISS || 0 <= e < this.size
      ensures e >= 0 ==>
                && Names(entries[e], pid, page) && data == entries[e].content[offset..offset + size]
                && lastUsed[..] == old(lastUsed[..])[e := now]
      ensures e == CACHE_MISS ==>
                && lastUsed[..] == old(lastUsed[..])
                && forall i :: 0 <= i < this.size ==> !Names(entries[i], pid, page)
    {
      data := [];
      e := GetCacheEntry(pid, page, ReadLock);
      if e >= 0 {
        data := entries[e].content[offset..offset + size];
        lastUsed[e] := now;
        Unlock(e);
      }
    }

    /** The cache part of delete_page_process: the entry of the page, if it has one. */
    method DropPage(pid: int, page: int) returns (ghost v: int)
      requires Sound() && pid >= 0
      modifies entries, this`quotas, this`locks
      ensures Sound() && (old(Valid()) ==> Valid())
      ensures if old(Absent(entries[..], pid, page)) then Now() == old(Now())
              else 0 <= v < size && old(Names(entries[v], pid, page)) && Now() == Dropped(old(Now()), v)
    {
      v := -1;
      var e := 0;
      while e < size
        invariant 0 <= e <= size && locks == map[]
        invariant entries[..] == old(entries[..]) && quotas == old(quotas)
        invariant forall k :: 0 <= k < e ==> !old(Names(entries[k], pid, page))
      {
        Lock(e, WriteLock);
        if Names(entries[e], pid, page) {
          assert Names(entries[..][e], pid, page);
          Discard(e);
          return e;
        }
        Unlock(e);
        e := e + 1;
      }
    }

    /** A locked entry is freed and its owner's record lowered. */
    method Discard(e: int)
      requires Shape() && Distinct(entries[..])
      requires 0 <= e < size && entries[e].pid >= 0 && locks == map[e := WriteLock]
      modifies entries, this`quotas, this`locks
      ensures Sound() && (old(QuotaOk(quotas, entries[..], limit)) ==> Valid())
      ensures Now() == Dropped(old(Now()), e)
    {
      var pid := entries[e].pid;
      entries[e] := Freed(entries[e]);
      assert entries[..] == old(entries[..])[e := Freed(old(entries[e]))];
      Unlock(e);
      LowerRecord(pid);
      if old(QuotaOk(quotas, entries[..], limit)) {
        QuotaAfterDrop(old(quotas), old(entries[..]), limit, e, entries[e]);
      }
    }

    method LowerRecord(pid: int)
      modifies this`quotas
      ensures quotas == LoweredFirst(old(quotas), pid)
    {
      var index := 0;
      while index < |quotas|
        invariant 0 <= index <= |quotas| && quotas == old(quotas)
        invariant forall j :: 0 <= j < index ==> quotas[j].pid != pid
      {
        if quotas[index].pid == pid {
          if quotas[index].n - 1 <= 0 {
            quotas := RemoveAt(quotas, index);
          } else {
            quotas := quotas[index := Record(pid, quotas[index].n - 1)];
          }
          return;
        }
        index := index + 1;
      }
    }

    /** The cache part of cleaning_process_entries: first the record, then the entries. */
    method DropProcess(pid: int)
      requires Sound() && pid >= 0
      modifies entries, this`quotas, this`locks
      ensures Sound() && (old(Valid()) ==> Valid()) && Now() == Cleared(old(Now()), pid)
    {
      RemoveRecord(pid);
      ghost var quotas1 := quotas;
      var e := 0;
      while e < size
        invariant 0 <= e <= size && Shape() && quotas == quotas1 && locks == map[] && Distinct(entries[..])
        invariant forall i :: 0 <= i < size ==>
                    entries[i] == if i < e && old(entries[i].pid) == pid then Freed(old(entries[i]))
                      else old(entries[i])
        invariant forall p :: p >= 0 && p != pid ==> Owned(entries[..], p) == Owned(old(entries[..]), p)
      {
        Lock(e, WriteLock);
        if entries[e].pid == pid {
          FreeEntry(e, pid);
        }
        Unlock(e);
        e := e + 1;
      }
      OwnedSome(entries[..], pid);
      if old(Valid()) {
        QuotaAfterRemoval(old(quotas), old(entries[..]), entries[..], limit, pid);
      }
    }

    method FreeEntry(e: int, pid: int)
      requires 0 <= e < entries.Length && entries[e].pid == pid
      modifies entries
      ensures entries[..] == old(entries[..])[e := Freed(old(entries[e]))]
      ensures forall p :: p >= 0 && p != pid ==> Owned(entries[..], p) == Owned(old(entries[..]), p)
    {
      entries[e] := Freed(entries[e]);
      assert entries[..] == old(entries[..])[e := entries[e]];
      forall p | p >= 0 && p != pid ensures Owned(entries[..], p) == Owned(old(entries[..]), p) {
        OwnedUpdate(old(entries[..]), e, entries[e], p);
      }
    }

    method RemoveRecord(pid: int)
      modifies this`quotas
      ensures quotas == Unrecorded(old(quotas), pid)
    {
      var index := 0;
      while index < |quotas|
        invariant 0 <= index <= |quotas| && quotas == old(quotas)
        invariant forall j :: 0 <= j < index ==> quotas[j].pid != pid
      {
        if quotas[index].pid == pid {
          quotas := RemoveAt(quotas, index);
          return;
        }
        index := index + 1;
      }
    }
  }
}
