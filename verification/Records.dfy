/** Lists of per-process records, searched from the front by pid. */
module Records {
  import opened Lists

  datatype Record = Record(pid: int, n: nat)

  /** The number recorded for a process: that of its first record, 0 when it has none. */
  function Tally(records: seq<Record>, pid: int): nat {
    if records == [] then 0
    else if records[0].pid == pid then records[0].n
    else Tally(records[1..], pid)
  }

  ghost predicate OneRecordEach(records: seq<Record>) {
    forall i, j :: 0 <= i < j < |records| ==> records[i].pid != records[j].pid
  }

  lemma {:induction false} TallyAt(records: seq<Record>, i: int)
    requires OneRecordEach(records) && 0 <= i < |records|
    ensures Tally(records, records[i].pid) == records[i].n
  {
    if i > 0 {
      TallyAt(records[1..], i - 1);
    }
  }

  lemma {:induction false} TallyFirst(records: seq<Record>, i: int)
    requires 0 <= i < |records| && forall j :: 0 <= j < i ==> records[j].pid != records[i].pid
    ensures Tally(records, records[i].pid) == records[i].n
  {
    if i > 0 {
      TallyFirst(records[1..], i - 1);
    }
  }

  lemma {:induction false} TallyNone(records: seq<Record>, pid: int)
    requires forall i :: 0 <= i < |records| ==> records[i].pid != pid
    ensures Tally(records, pid) == 0
  {
    if records != [] {
      TallyNone(records[1..], pid);
    }
  }

  lemma {:induction false} TallyUpdate(records: seq<Record>, i: int, n: nat, pid: int)
    requires OneRecordEach(records) && 0 <= i < |records|
    ensures Tally(records[i := Record(records[i].pid, n)], pid)
         == if records[i].pid == pid then n else Tally(records, pid)
  {
    var r := records[i := Record(records[i].pid, n)];
    if i > 0 {
      assert r[1..] == records[1..][i - 1 := Record(records[i].pid, n)];
      TallyUpdate(records[1..], i - 1, n, pid);
    } else {
      assert r[1..] == records[1..];
    }
  }

  lemma {:induction false} TallyAppend(records: seq<Record>, r: Record, pid: int)
    requires forall i :: 0 <= i < |records| ==> records[i].pid != r.pid
    ensures Tally(records + [r], pid) == if r.pid == pid then r.n else Tally(records, pid)
  {
    if records != [] {
      assert (records + [r])[1..] == records[1..] + [r];
      TallyAppend(records[1..], r, pid);
    }
  }

  lemma {:induction false} TallyRemove(records: seq<Record>, i: int, pid: int)
    requires OneRecordEach(records) && 0 <= i < |records|
    ensures Tally(RemoveAt(records, i), pid) == if records[i].pid == pid then 0 else Tally(records, pid)
  {
    if i == 0 {
      assert RemoveAt(records, 0) == records[1..];
      if records[0].pid == pid {
        TallyNone(records[1..], pid);
      }
    } else {
      assert RemoveAt(records, i)[1..] == RemoveAt(records[1..], i - 1);
      TallyRemove(records[1..], i - 1, pid);
    }
  }
}
