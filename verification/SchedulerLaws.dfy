/**
 What the scheduling machine is for, said over runs and without naming its steps: how long a process keeps its
 CPU, in which order processes are admitted and dispatched, what becomes of a semaphore's units, and where
 dispatched, blocked and killed processes end up.
 */
module SchedulerLaws {
  import opened Lists
  import opened Scheduler

  // ---- CPUs ----

  /** A free CPU has counted no instruction and has no mark. */
  ghost predicate IdleClean(cpus: seq<Cpu>) {
    forall i :: 0 <= i < |cpus| && cpus[i].free ==> cpus[i].quantum == 0 && !cpus[i].kill && !cpus[i].waiting
  }

  lemma {:induction false} IdleStaysClean(k: Kernel, policy: Policy, e: Event)
    requires Inv(k) && Enabled(k, e) && IdleClean(k.cpus)
    ensures IdleClean(Step(k, policy, e).cpus)
  {
    if e.EndInstruction? {
      EndStaysClean(k, policy, e.fd);
    }
  }

  lemma {:induction false} EndStaysClean(k: Kernel, policy: Policy, fd: int)
    requires Enabled(k, EndInstruction(fd)) && CpusOk(k.cpus) && IdleClean(k.cpus)
    ensures IdleClean(DoEndInstruction(k, policy, fd).cpus)
  {
  }

  /** On every run from the start, free CPUs are clean. */
  lemma {:induction false} IdleAlwaysClean(k: Kernel, policy: Policy, events: seq<Event>)
    requires Inv(k) && IdleClean(k.cpus) && CanRun(k, policy, events)
    ensures IdleClean(After(k, policy, events).cpus)
    decreases |events|
  {
    if events != [] {
      StepKeeps(k, policy, events[0]);
      IdleStaysClean(k, policy, events[0]);
      IdleAlwaysClean(Step(k, policy, events[0]), policy, events[1..]);
    }
  }

  /** i is the first free CPU of the list. */
  ghost predicate IsFirstFree(cpus: seq<Cpu>, i: int) {
    0 <= i < |cpus| && cpus[i].free && forall j :: 0 <= j < i ==> !cpus[j].free
  }

  /** pid is on the CPU of this socket, which has counted q ends of instructions. */
  predicate Runs(k: Kernel, fd: int, pid: int, q: int) {
    var i := CpuAt(k.cpus, fd);
    i < |k.cpus| && k.cpus[i].pcb == Some(pid) && k.cpus[i].quantum == q
  }

  /** The CPU of this socket is free, with nothing counted and no mark. */
  predicate Idle(k: Kernel, fd: int) {
    var i := CpuAt(k.cpus, fd);
    && i < |k.cpus| && k.cpus[i].free && k.cpus[i].pcb == None && k.cpus[i].quantum == 0
    && !k.cpus[i].kill && !k.cpus[i].waiting
  }

  lemma {:induction false} FoundAt(cpus: seq<Cpu>, i: int)
    requires CpusOk(cpus) && 0 <= i < |cpus|
    ensures CpuAt(cpus, cpus[i].fd) == i
  {
  }

  /** A dispatch gives the process that is ready longest to the first free CPU, and changes no other CPU. */
  lemma {:induction false} DispatchLands(k: Kernel, i: int)
    requires Inv(k) && Enabled(k, Dispatch) && k.ready != [] && IsFirstFree(k.cpus, i) && IdleClean(k.cpus)
    ensures var k' := DoDispatch(k);
            && k'.ready == k.ready[1..] && Runs(k', k.cpus[i].fd, k.ready[0], 0) && !k'.cpus[i].free
            && |k'.cpus| == |k.cpus| && forall j :: 0 <= j < |k.cpus| && j != i ==> k'.cpus[j] == k.cpus[j]
  {
    var k' := DoDispatch(k);
    FoundAt(k.cpus, i);
    assert FirstFree(k.cpus) == i;
    assert forall j :: 0 <= j < |k.cpus| ==> k'.cpus[j].fd == k.cpus[j].fd;
  }

  /** A dispatch without a ready process changes no CPU and keeps the CPU token if a CPU is free. */
  lemma {:induction false} DispatchEmpty(k: Kernel)
    requires Inv(k) && Enabled(k, Dispatch) && k.ready == []
    ensures var k' := DoDispatch(k);
            && k'.ready == [] && k'.cpus == k.cpus && k'.readyTokens == k.readyTokens - 1
            && k'.cpuTokens == if FreeCpus(k.cpus) > 0 then k.cpuTokens else k.cpuTokens - 1
  {
    FreeMeansOne(k.cpus);
  }

  /** A CPU that connects is the last of the list, idle, with a token. */
  lemma {:induction false} ConnectLands(k: Kernel, fd: int)
    requires Inv(k) && Enabled(k, Connect(fd))
    ensures var k' := DoConnect(k, fd);
            && |k'.cpus| == |k.cpus| + 1 && k'.cpus[..|k.cpus|] == k.cpus && CpuAt(k'.cpus, fd) == |k.cpus|
            && Idle(k', fd) && k'.cpuTokens == k.cpuTokens + 1
  {
    ConnectKeeps(k, fd);
    FoundAt(DoConnect(k, fd).cpus, |k.cpus|);
  }

  /** A CPU that leaves is off the list, all others stay as they are, and its process is the last that is ready. */
  lemma {:induction false} LoseLands(k: Kernel, fd: int)
    requires Inv(k) && CpuAt(k.cpus, fd) < |k.cpus|
    ensures var k', i := DoLose(k, fd), CpuAt(k.cpus, fd);
            && CpuAt(k'.cpus, fd) == |k'.cpus| == |k.cpus| - 1
            && (forall j :: 0 <= j < |k'.cpus| ==> k'.cpus[j] == k.cpus[if j < i then j else j + 1])
            && k'.ready == k.ready + if k.cpus[i].pcb.Some? then [k.cpus[i].pcb.value] else []
    ensures Busy(k, fd) ==> DoDisconnect(k, fd) == DoLose(k, fd)
  {
    var k', i := DoLose(k, fd), CpuAt(k.cpus, fd);
    assert forall j :: 0 <= j < |k'.cpus| ==> k'.cpus[j] == k.cpus[if j < i then j else j + 1];
  }

  // ---- how long a process keeps its CPU ----

  /** The process was taken off: it is the last that is ready, and its CPU is idle, with its token. */
  ghost predicate Preempted(k: Kernel, k': Kernel, fd: int, pid: int) {
    && Idle(k', fd) && k'.ready == k.ready + [pid]
    && k'.readyTokens == k.readyTokens + 1 && k'.cpuTokens == k.cpuTokens + 1
  }

  /** The end of an instruction that neither blocks nor was killed takes the process off exactly with round robin
      and its quantum used up. */
  lemma {:induction false} EndOfTurn(k: Kernel, policy: Policy, fd: int, pid: int, q: int)
    requires Inv(k) && Enabled(k, EndInstruction(fd)) && Runs(k, fd, pid, q)
    requires !k.cpus[CpuAt(k.cpus, fd)].kill && !Blocks(k, fd)
    ensures var k' := DoEndInstruction(k, policy, fd);
            && k'.blocked == k.blocked && k'.finished == k.finished
            && if policy.roundRobin && q + 1 >= policy.quantum then Preempted(k, k', fd, pid)
               else && Runs(k', fd, pid, if policy.roundRobin then q + 1 else q) && !Blocks(k', fd)
                    && k'.ready == k.ready && k'.readyTokens == k.readyTokens && k'.cpuTokens == k.cpuTokens
  {
    var i, k' := CpuAt(k.cpus, fd), DoEndInstruction(k, policy, fd);
    assert forall j :: 0 <= j < |k.cpus| ==> k'.cpus[j].fd == k.cpus[j].fd;
    FoundAt(k.cpus, i);
    assert CpusOk(k'.cpus) by {
      EndInstructionKeeps(k, policy, fd);
    }
    FoundAt(k'.cpus, i);
  }

  /** Any event but the end of its instruction or program or the loss of its CPU leaves a process there. */
  lemma {:induction false} OthersKeepIt(k: Kernel, policy: Policy, e: Event, fd: int, pid: int, q: int)
    requires Inv(k) && Enabled(k, e) && Runs(k, fd, pid, q)
    requires e !in {EndInstruction(fd), Terminate(fd), Disconnect(fd), Lose(fd)}
    ensures Runs(Step(k, policy, e), fd, pid, q)
  {
    var i, k' := CpuAt(k.cpus, fd), Step(k, policy, e);
    StepKeeps(k, policy, e);
    if e.Disconnect? || e.Lose? {
      LoseKeepsIt(k, e.fd, fd);
    } else {
      OtherCpu(k, policy, e, i);
      FoundAt(k'.cpus, i);
    }
  }

  lemma {:induction false} LoseKeepsIt(k: Kernel, lost: int, fd: int)
    requires Inv(k) && CpuAt(k.cpus, lost) < |k.cpus| && CpuAt(k.cpus, fd) < |k.cpus| && lost != fd
    ensures var k' := DoLose(k, lost);
            CpuAt(k'.cpus, fd) < |k'.cpus| && k'.cpus[CpuAt(k'.cpus, fd)] == k.cpus[CpuAt(k.cpus, fd)]
    ensures Busy(k, lost) ==> DoDisconnect(k, lost) == DoLose(k, lost)
  {
    LoseLands(k, lost);
    var i, l := CpuAt(k.cpus, fd), CpuAt(k.cpus, lost);
    StillFound(k.cpus, DoLose(k, lost).cpus, l, i, if l < i then i - 1 else i);
  }

  lemma {:induction false} StillFound(cpus: seq<Cpu>, cpus': seq<Cpu>, l: int, i: int, j: int)
    requires CpusOk(cpus) && 0 <= l < |cpus| && 0 <= i < |cpus| && l != i && |cpus'| == |cpus| - 1
    requires forall m :: 0 <= m < |cpus'| ==> cpus'[m] == cpus[if m < l then m else m + 1]
    requires j == if l < i then i - 1 else i
    ensures CpuAt(cpus', cpus[i].fd) == j && cpus'[j] == cpus[i]
  {
    assert cpus'[j] == cpus[i];
    assert forall m :: 0 <= m < |cpus'| && m != j ==> cpus'[m].fd != cpus[i].fd;
  }

  lemma {:induction false} OtherCpu(k: Kernel, policy: Policy, e: Event, i: int)
    requires Inv(k) && Enabled(k, e) && 0 <= i < |k.cpus| && k.cpus[i].pcb.Some?
    requires !e.Disconnect? && !e.Lose? && e != EndInstruction(k.cpus[i].fd) && e != Terminate(k.cpus[i].fd)
    ensures var k' := Step(k, policy, e);
            && i < |k'.cpus| && k'.cpus[i].fd == k.cpus[i].fd && k'.cpus[i].pcb == k.cpus[i].pcb
            && k'.cpus[i].quantum == k.cpus[i].quantum
  {
    FoundAt(k.cpus, i);
    if e.EndInstruction? {
      InstructionFrame(k, policy, e.fd, i);
    }
  }

  function EndCount(events: seq<Event>, fd: int): nat {
    if events == [] then 0 else (if events[0] == EndInstruction(fd) then 1 else 0) + EndCount(events[1..], fd)
  }

  /** The program on this CPU does not end, is not killed and does not block, and the CPU does not leave. */
  ghost predicate Undisturbed(k: Kernel, policy: Policy, events: seq<Event>, fd: int)
    requires CanRun(k, policy, events)
    decreases |events|
  {
    events != [] ==>
      && events[0] !in {Terminate(fd), Disconnect(fd), Lose(fd)}
      && (events[0] == EndInstruction(fd) ==> !k.cpus[CpuAt(k.cpus, fd)].kill && !Blocks(k, fd))
      && Undisturbed(Step(k, policy, events[0]), policy, events[1..], fd)
  }

  /** Over any run, a process keeps its CPU while the ends of its instructions are fewer than its quantum, and
      without round robin for as long as it likes. */
  lemma {:induction false} KeepsCpu(k: Kernel, policy: Policy, events: seq<Event>, fd: int, pid: int, q: int)
    requires Inv(k) && CanRun(k, policy, events) && Undisturbed(k, policy, events, fd) && Runs(k, fd, pid, q)
    requires policy.roundRobin && EndCount(events, fd) > 0 ==> q + EndCount(events, fd) < policy.quantum
    ensures Runs(After(k, policy, events), fd, pid, if policy.roundRobin then q + EndCount(events, fd) else q)
    decreases |events|
  {
    if events != [] {
      var k1 := Step(k, policy, events[0]);
      StepKeeps(k, policy, events[0]);
      if events[0] == EndInstruction(fd) {
        EndOfTurn(k, policy, fd, pid, q);
        KeepsCpu(k1, policy, events[1..], fd, pid, if policy.roundRobin then q + 1 else q);
      } else {
        OthersKeepIt(k, policy, events[0], fd, pid, q);
        KeepsCpu(k1, policy, events[1..], fd, pid, q);
      }
    }
  }

  /** From its dispatch on a process has its quantum: with fewer ends of instructions it is on its CPU, and the
      one that uses up the quantum makes it the last that is ready and leaves the CPU idle. */
  lemma {:induction false} Quantum(k: Kernel, policy: Policy, i: int, events: seq<Event>)
    requires Inv(k) && IdleClean(k.cpus) && Enabled(k, Dispatch) && k.ready != [] && IsFirstFree(k.cpus, i)
    requires policy.roundRobin && CanRun(DoDispatch(k), policy, events)
    requires Undisturbed(DoDispatch(k), policy, events, k.cpus[i].fd)
    ensures var fd, pid, k' := k.cpus[i].fd, k.ready[0], After(DoDispatch(k), policy, events);
            EndCount(events, fd) == 0 || EndCount(events, fd) < policy.quantum ==>
              && Runs(k', fd, pid, EndCount(events, fd))
              && (EndCount(events, fd) + 1 >= policy.quantum && Enabled(k', EndInstruction(fd))
                  && !k'.cpus[CpuAt(k'.cpus, fd)].kill && !Blocks(k', fd) ==>
                    Preempted(k', Step(k', policy, EndInstruction(fd)), fd, pid))
  {
    var fd, pid := k.cpus[i].fd, k.ready[0];
    DispatchLands(k, i);
    DispatchKeeps(k);
    if EndCount(events, fd) == 0 || EndCount(events, fd) < policy.quantum {
      KeepsCpu(DoDispatch(k), policy, events, fd, pid, 0);
      RunKeeps(DoDispatch(k), policy, events);
      var k' := After(DoDispatch(k), policy, events);
      if Enabled(k', EndInstruction(fd)) && !k'.cpus[CpuAt(k'.cpus, fd)].kill && !Blocks(k', fd) {
        EndOfTurn(k', policy, fd, pid, EndCount(events, fd));
      }
    }
  }

  /** A process whose instruction blocks is the last that waits for its semaphore and the last that is blocked,
      and its CPU is idle. */
  lemma {:induction false} EndBlocks(k: Kernel, policy: Policy, fd: int, pid: int, q: int)
    requires Inv(k) && Enabled(k, EndInstruction(fd)) && Runs(k, fd, pid, q)
    requires !k.cpus[CpuAt(k.cpus, fd)].kill && Blocks(k, fd)
    ensures var k', name := DoEndInstruction(k, policy, fd), k.cpus[CpuAt(k.cpus, fd)].semaphore;
            && Idle(k', fd) && k'.blocked == k.blocked + [pid] && k'.ready == k.ready && k'.finished == k.finished
            && name in k'.semaphores && k'.semaphores[name].queue == k.semaphores[name].queue + [pid]
            && k'.cpuTokens == k.cpuTokens + 1 && k'.readyTokens == k.readyTokens
  {
    var i, k' := CpuAt(k.cpus, fd), DoEndInstruction(k, policy, fd);
    EndInstructionKeeps(k, policy, fd);
    FoundAt(k'.cpus, i);
  }

  /** A wait and the end of its instruction: without units the process waits last, and with units it has one and
      is not blocked. */
  lemma {:induction false} WaitThenEnd(k: Kernel, policy: Policy, fd: int, pid: int, q: int, name: string)
    requires Inv(k) && Enabled(k, Wait(fd, name)) && k.holder == Nobody && Runs(k, fd, pid, q)
    requires !k.cpus[CpuAt(k.cpus, fd)].kill
    ensures var k1 := Step(k, policy, Wait(fd, name));
            && Enabled(k1, EndInstruction(fd))
            && var k2 := Step(k1, policy, EndInstruction(fd));
               && name in k2.semaphores && k2.semaphores[name].count == k.semaphores[name].count - 1
               && (k.semaphores[name].count <= 0 ==>
                     && k2.semaphores[name].queue == k.semaphores[name].queue + [pid]
                     && k2.blocked == k.blocked + [pid] && Idle(k2, fd))
               && (k.semaphores[name].count > 0 ==>
                     k2.semaphores[name].queue == k.semaphores[name].queue && k2.blocked == k.blocked)
  {
    var k1 := Step(k, policy, Wait(fd, name));
    WaitKeeps(k, fd, name);
    FoundAt(k1.cpus, CpuAt(k.cpus, fd));
    if k.semaphores[name].count <= 0 {
      EndBlocks(k1, policy, fd, pid, q);
    }
  }

  // ---- the units of a semaphore ----

  /** What an event does to the count of a semaphore: a signal adds one, the end of an instruction that waited for
      it takes one, and the kill of a process that waits for it gives one back. */
  function Change(k: Kernel, e: Event, name: string): int
    requires name in k.semaphores
  {
    match e
    case Signal(n) => if n == name then 1 else 0
    case EndInstruction(fd) =>
      var i := CpuAt(k.cpus, fd);
      if i < |k.cpus| && k.cpus[i].waiting && k.cpus[i].semaphore == name then -1 else 0
    case Kill(pid) =>
      if pid in k.semaphores[name].queue && pid !in k.newcomers && pid !in k.ready && pid in k.blocked then 1 else 0
    case _ => 0
  }

  lemma {:induction false} CountChanges(k: Kernel, policy: Policy, e: Event, name: string)
    requires Enabled(k, e) && name in k.semaphores
    ensures name in Step(k, policy, e).semaphores
    ensures Step(k, policy, e).semaphores[name].count == k.semaphores[name].count + Change(k, e, name)
  {
    if e.EndInstruction? {
      EndChanges(k, policy, e.fd, name);
    }
  }

  lemma {:induction false} EndChanges(k: Kernel, policy: Policy, fd: int, name: string)
    requires Enabled(k, EndInstruction(fd)) && name in k.semaphores
    ensures name in DoEndInstruction(k, policy, fd).semaphores
    ensures DoEndInstruction(k, policy, fd).semaphores[name].count
         == k.semaphores[name].count + Change(k, EndInstruction(fd), name)
  {
  }

  ghost function Changes(k: Kernel, policy: Policy, events: seq<Event>, name: string): int
    requires CanRun(k, policy, events) && name in k.semaphores
    decreases |events|
  {
    if events == [] then 0
    else
      CountChanges(k, policy, events[0], name);
      Change(k, events[0], name) + Changes(Step(k, policy, events[0]), policy, events[1..], name)
  }

  /** On every run the count of a semaphore is what it was, plus signals, less waits, plus waiters killed, and so
      many processes wait as it is below zero. */
  lemma {:induction false} UnitsConserved(k: Kernel, policy: Policy, events: seq<Event>, name: string)
    requires Inv(k) && CanRun(k, policy, events) && name in k.semaphores
    ensures var k' := After(k, policy, events);
            && name in k'.semaphores
            && k'.semaphores[name].count == k.semaphores[name].count + Changes(k, policy, events, name)
            && |k'.semaphores[name].queue|
               == (if k'.semaphores[name].count < 0 then -k'.semaphores[name].count else 0)
    decreases |events|
  {
    if events != [] {
      CountChanges(k, policy, events[0], name);
      StepKeeps(k, policy, events[0]);
      UnitsConserved(Step(k, policy, events[0]), policy, events[1..], name);
    }
  }

  // ---- the order of the queues ----

  /** The queue lost its head, lost the process killed, or grew at its end. */
  ghost predicate QueueMoved(queue: seq<int>, queue': seq<int>, head: bool, killed: Option<int>) {
    || (head && queue != [] && queue' == queue[1..])
    || (killed.Some? && killed.value in queue && queue' == RemoveAt(queue, IndexOf(queue, killed.value)))
    || queue <= queue'
  }

  function Killed(e: Event): Option<int> {
    if e.Kill? then Some(e.pid) else None
  }

  /** The ready queue loses its head to a dispatch only, and grows at its end. */
  lemma {:induction false} ReadyMoves(k: Kernel, policy: Policy, e: Event)
    requires Enabled(k, e)
    ensures QueueMoved(k.ready, Step(k, policy, e).ready, e == Dispatch, Killed(e))
  {
  }

  /** So does the queue of NEW processes, whose head leaves with an admission below the degree only. */
  lemma {:induction false} NewcomersMove(k: Kernel, policy: Policy, e: Event)
    requires Enabled(k, e)
    ensures QueueMoved(k.newcomers, Step(k, policy, e).newcomers, e.Admit? && k.planned < k.degree, Killed(e))
  {
  }

  lemma {:induction false} OrderStays(queue: seq<int>, queue': seq<int>, head: bool, killed: Option<int>, p: int,
                                      q: int)
    requires NoDuplicates(queue) && Precedes(queue, p, q) && QueueMoved(queue, queue', head, killed)
    requires p in queue' && killed != Some(q)
    ensures Precedes(queue', p, q)
  {
    if queue <= queue' {
      var i, j :| 0 <= i < j < |queue| && queue[i] == p && queue[j] == q;
      assert queue'[i] == p && queue'[j] == q;
    } else if head && queue' == queue[1..] {
      HeadLeaves(queue, p, q);
    } else {
      var at := IndexOf(queue, killed.value);
      RemoveAtFacts(queue, at);
      RemovalKeepsOrder(queue, at, p, q);
    }
  }

  lemma {:induction false} HeadLeaves(queue: seq<int>, p: int, q: int)
    requires Precedes(queue, p, q) && p in queue[1..] && NoDuplicates(queue)
    ensures Precedes(queue[1..], p, q)
  {
    var i, j :| 0 <= i < j < |queue| && queue[i] == p && queue[j] == q;
    assert forall m :: 0 <= m < |queue| - 1 ==> queue[1..][m] == queue[m + 1];
    assert i > 0;
    assert queue[1..][i - 1] == p && queue[1..][j - 1] == q;
  }

  lemma {:induction false} QueuedOnce(k: Kernel)
    requires Partition(k)
    ensures NoDuplicates(k.ready) && NoDuplicates(k.newcomers)
  {
    forall i, j | 0 <= i < j < |k.ready| ensures k.ready[i] != k.ready[j] {
      OnceIn(k.ready, i, j);
      assert Places(k, k.ready[i]) <= 1;
    }
    forall i, j | 0 <= i < j < |k.newcomers| ensures k.newcomers[i] != k.newcomers[j] {
      OnceIn(k.newcomers, i, j);
      assert Places(k, k.newcomers[i]) <= 1;
    }
  }

  lemma {:induction false} OnceIn(s: seq<int>, i: int, j: int)
    requires 0 <= i < j < |s|
    ensures s[i] == s[j] ==> multiset(s)[s[i]] >= 2
  {
    assert s == s[..j] + [s[j]] + s[j + 1..];
    assert s[i] in multiset(s[..j]) by {
      assert s[..j][i] == s[i];
    }
  }

  /** p is ready, or NEW, before and after every event. */
  ghost predicate StaysReady(k: Kernel, policy: Policy, events: seq<Event>, p: int)
    requires CanRun(k, policy, events)
    decreases |events|
  {
    p in k.ready && (events != [] ==> StaysReady(Step(k, policy, events[0]), policy, events[1..], p))
  }

  ghost predicate StaysNew(k: Kernel, policy: Policy, events: seq<Event>, p: int)
    requires CanRun(k, policy, events)
    decreases |events|
  {
    p in k.newcomers && (events != [] ==> StaysNew(Step(k, policy, events[0]), policy, events[1..], p))
  }

  /** Processes are dispatched in the order in which they became ready: over any run, while p is ready nobody
      behind it leaves the queue unless killed. */
  lemma {:induction false} DispatchedInOrder(k: Kernel, policy: Policy, events: seq<Event>, p: int, q: int)
    requires Inv(k) && CanRun(k, policy, events) && StaysReady(k, policy, events, p)
    requires Precedes(k.ready, p, q) && Kill(q) !in events
    ensures Precedes(After(k, policy, events).ready, p, q)
    decreases |events|
  {
    if events != [] {
      var k1 := Step(k, policy, events[0]);
      QueuedOnce(k);
      ReadyMoves(k, policy, events[0]);
      assert StaysReady(k1, policy, events[1..], p);
      OrderStays(k.ready, k1.ready, events[0] == Dispatch, Killed(events[0]), p, q);
      StepKeeps(k, policy, events[0]);
      DispatchedInOrder(k1, policy, events[1..], p, q);
    }
  }

  /** And processes are admitted in the order in which they came. */
  lemma {:induction false} AdmittedInOrder(k: Kernel, policy: Policy, events: seq<Event>, p: int, q: int)
    requires Inv(k) && CanRun(k, policy, events) && StaysNew(k, policy, events, p)
    requires Precedes(k.newcomers, p, q) && Kill(q) !in events
    ensures Precedes(After(k, policy, events).newcomers, p, q)
    decreases |events|
  {
    if events != [] {
      var k1, e := Step(k, policy, events[0]), events[0];
      QueuedOnce(k);
      NewcomersMove(k, policy, e);
      assert StaysNew(k1, policy, events[1..], p);
      OrderStays(k.newcomers, k1.newcomers, e.Admit? && k.planned < k.degree, Killed(e), p, q);
      StepKeeps(k, policy, e);
      AdmittedInOrder(k1, policy, events[1..], p, q);
    }
  }

  // ---- kills and commands ----

  /** A kill moves a process that is in a queue to finished, and nobody else and no CPU. */
  lemma {:induction false} KillFinishes(k: Kernel, pid: int)
    requires Inv(k) && Enabled(k, Kill(pid)) && WhereIs(k, pid) in {InNew, InReady, InBlocked}
    ensures var k' := DoKill(k, pid);
            && k'.finished == k.finished + [Some(pid)] && k'.cpus == k.cpus
            && Moves(k, k', pid, WhereIs(k, pid), InFinished)
  {
    var k' := DoKill(k, pid);
    assert Places(k, pid) <= 1;
    FinishesHere(k, pid);
    forall p | p != pid ensures WhereIs(k', p) == WhereIs(k, p) {
      OtherStays(k, pid, p);
    }
  }

  lemma {:induction false} OtherStays(k: Kernel, pid: int, p: int)
    requires p != pid && (pid in k.newcomers || pid in k.ready || pid in k.blocked)
    ensures WhereIs(DoKill(k, pid), p) == WhereIs(k, p)
  {
    OthersStay(k.newcomers, pid, p);
    OthersStay(k.ready, pid, p);
    OthersStay(k.blocked, pid, p);
  }

  lemma {:induction false} FinishesHere(k: Kernel, pid: int)
    requires Places(k, pid) <= 1 && WhereIs(k, pid) in {InNew, InReady, InBlocked}
    ensures WhereIs(DoKill(k, pid), pid) == InFinished
    ensures DoKill(k, pid).finished == k.finished + [Some(pid)] && DoKill(k, pid).cpus == k.cpus
  {
    var k' := DoKill(k, pid);
    assert k'.finished == k.finished + [Some(pid)] && k'.cpus == k.cpus;
    GoneFrom(k.newcomers, pid);
    GoneFrom(k.ready, pid);
    GoneFrom(k.blocked, pid);
  }

  lemma {:induction false} GoneFrom(s: seq<int>, pid: int)
    ensures multiset(Without(s, pid))[pid] == if pid in s then multiset(s)[pid] - 1 else 0
    ensures pid in s <==> multiset(s)[pid] > 0
  {
  }

  lemma {:induction false} OthersStay(s: seq<int>, pid: int, p: int)
    requires p != pid
    ensures multiset(Without(s, pid))[p] == multiset(s)[p]
  {
  }

  /** Of a process on a CPU it marks that CPU, and nothing else changes. */
  lemma {:induction false} KillMarks(k: Kernel, pid: int, i: int)
    requires Inv(k) && 0 <= i < |k.cpus| && k.cpus[i].pcb == Some(pid)
    ensures DoKill(k, pid) == k.(cpus := k.cpus[i := k.cpus[i].(kill := true)])
    ensures Marked(DoKill(k, pid), k.cpus[i].fd, pid)
  {
    OnlyThere(k, i);
    KillRunningKeeps(k, pid);
    FoundAt(DoKill(k, pid).cpus, i);
  }

  /** A pid that is nowhere, has finished or was dropped is killed without effect. */
  lemma {:induction false} KillMisses(k: Kernel, pid: int)
    requires Inv(k) && WhereIs(k, pid) in {Nowhere, InFinished, Lost}
    ensures DoKill(k, pid) == k
  {
    if CpuRunning(k.cpus, pid) < |k.cpus| {
      AssignedAt(k.cpus, CpuRunning(k.cpus, pid));
      assert false;
    }
  }

  /** The console's command sets the degree and wakes the planner. */
  lemma {:induction false} DegreeSet(k: Kernel, policy: Policy, n: int)
    ensures var k' := Step(k, policy, SetDegree(n));
            && k'.degree == n && k'.longTokens == k.longTokens + 1 && k'.planned == k.planned && k'.cpus == k.cpus
            && k'.semaphores == k.semaphores && Stays(k, k')
  {
  }
}
