/**
 The kernel's process states (kernel/src/kernel.c, kernel/src/kernel_generales.c and the
 scheduling requests of kernel/src/solicitudes.c), as a machine whose steps are the
 handlers, each atomic except where it waits. A PCB is represented by its pid.

 The kernel's counting semaphores are the token fields. A handler that ends a process takes
 the planned-count semaphore near its end. If that is 0 the handler waits there: it has moved
 the process and freed the CPU, but what it does afterwards is still to come, the token of
 the freed CPU (terminations, kills of a running process) and the release of mutex_kill
 (kills, ends of instructions). It goes on in a step of its own once an admission has posted
 the semaphore.

 The last group of fields records the irregular events, so that the invariant is exact on
 every run instead of excluding them: kills of NEW processes, kills that meet a blocking
 wait, and idle CPUs lost without notice.
 */
module Scheduler {
  import opened Lists

  datatype Option<T> = None | Some(value: T)

  datatype Cpu = Cpu(fd: int, free: bool, pcb: Option<int>, quantum: int, kill: bool, waiting: bool, semaphore: string)
  datatype Semaphore = Semaphore(count: int, queue: seq<int>)
  datatype Policy = Policy(roundRobin: bool, quantum: int)

  /** Who holds mutex_kill while waiting for the planned count: a kill of a queued process, or the end of an
      instruction whose process was killed. */
  datatype Holder = Nobody | AKill | AnExit

  datatype Kernel = Kernel(
    newcomers: seq<int>, ready: seq<int>, blocked: seq<int>, finished: seq<Option<int>>,
    cpus: seq<Cpu>, semaphores: map<string, Semaphore>, nextPid: int,
    readyTokens: int, cpuTokens: int, longTokens: int, planned: int, degree: int,
    exitWaits: int,    // terminations that wait for the planned count
    holder: Holder,
    // history
    drains: int,       // ready tokens whose process was killed in the ready queue
    newKills: int,     // kills of NEW processes
    waitKills: int,    // kills that met a blocking wait
    resumes: int,      // handlers that went on after waiting for the planned count
    idleLosses: int,   // idle CPUs lost without notice
    strayTokens: int,  // CPU tokens those left behind
    dropped: seq<int>, // processes popped for a CPU that was not there
    topDegree: int)    // the largest multiprogramming degree so far

  datatype Event =
    | Submit
    | Admit(fits: bool)
    | Dispatch
    | Connect(fd: int)
    | Signal(semaphore: string)
    | Wait(fd: int, semaphore: string)
    | EndInstruction(fd: int)
    | Terminate(fd: int)
    | Disconnect(fd: int)
    | Lose(fd: int)
    | Kill(pid: int)
    | SetDegree(n: int)
    | ResumeExit     // a waiting termination goes on
    | ResumeHolder   // the waiting holder of mutex_kill goes on

  // ---- lists of CPUs ----

  /** The position of the CPU on a socket, or the length of the list. */
  function CpuAt(cpus: seq<Cpu>, fd: int): (i: int)
    ensures 0 <= i <= |cpus|
    ensures i < |cpus| ==> cpus[i].fd == fd
    ensures forall j :: 0 <= j < i ==> cpus[j].fd != fd
  {
    if cpus == [] then 0 else if cpus[0].fd == fd then 0 else 1 + CpuAt(cpus[1..], fd)
  }

  function FirstFree(cpus: seq<Cpu>): (i: int)
    ensures 0 <= i <= |cpus|
    ensures i < |cpus| ==> cpus[i].free
    ensures forall j :: 0 <= j < i ==> !cpus[j].free
  {
    if cpus == [] then 0 else if cpus[0].free then 0 else 1 + FirstFree(cpus[1..])
  }

  function CpuRunning(cpus: seq<Cpu>, pid: int): (i: int)
    ensures 0 <= i <= |cpus|
    ensures i < |cpus| ==> cpus[i].pcb == Some(pid)
    ensures forall j :: 0 <= j < i ==> cpus[j].pcb != Some(pid)
  {
    if cpus == [] then 0 else if cpus[0].pcb == Some(pid) then 0 else 1 + CpuRunning(cpus[1..], pid)
  }

  predicate Busy(k: Kernel, fd: int) {
    var i := CpuAt(k.cpus, fd);
    i < |k.cpus| && k.cpus[i].pcb.Some?
  }

  /** liberar_cpu */
  function Released(c: Cpu): Cpu {
    c.(free := true, quantum := 0, pcb := None, kill := false, waiting := false)
  }

  /** list_remove_by_condition: the first occurrence of x is removed, if there is one. */
  function Without(s: seq<int>, x: int): (r: seq<int>)
    ensures x in s ==> multiset(r) == multiset(s) - multiset{x} && |r| == |s| - 1
    ensures x !in s ==> r == s
  {
    if x in s then
      var i := IndexOf(s, x);
      assert s == s[..i] + [s[i]] + s[i + 1..];
      RemoveAt(s, i)
    else s
  }

  // ---- the handlers ----

  /** OC_SOLICITUD_PROGRAMA_NUEVO */
  function DoSubmit(k: Kernel): Kernel {
    k.(newcomers := k.newcomers + [k.nextPid], nextPid := k.nextPid + 1, longTokens := k.longTokens + 1)
  }

  /** One turn of planificador_largo_plazo; fits is the memory server's answer. */
  function DoAdmit(k: Kernel, fits: bool): Kernel {
    var k1 := k.(longTokens := k.longTokens - 1);
    if k.planned < k.degree && k.newcomers != [] then
      var pid := k.newcomers[0];
      if !fits then
        k1.(newcomers := k.newcomers[1..], finished := k.finished + [Some(pid)], longTokens := k.longTokens)
      else
        k1.(newcomers := k.newcomers[1..], ready := k.ready + [pid], readyTokens := k.readyTokens + 1,
            planned := k.planned + 1, longTokens := k.longTokens)
    else k1
  }

  /** pasarDeReadyAExecute: pops the ready queue, then looks for a free CPU; an empty pop gives the
      CPU token back, and a pop with no free CPU loses the process. */
  function DoDispatch(k: Kernel): Kernel {
    var i := FirstFree(k.cpus);
    var found, popped := i < |k.cpus|, k.ready != [];
    k.(readyTokens := k.readyTokens - 1,
       cpuTokens := if found && !popped then k.cpuTokens else k.cpuTokens - 1,
       ready := if popped then k.ready[1..] else k.ready,
       drains := if popped then k.drains else k.drains - 1,
       cpus := if found && popped then k.cpus[i := k.cpus[i].(free := false, pcb := Some(k.ready[0]))] else k.cpus,
       strayTokens := if found then k.strayTokens else k.strayTokens - 1,
       dropped := if !found && popped then k.dropped + [k.ready[0]] else k.dropped)
  }

  /** cpu_create */
  function DoConnect(k: Kernel, fd: int): Kernel {
    k.(cpus := k.cpus + [Cpu(fd, true, None, 0, false, false, "")], cpuTokens := k.cpuTokens + 1)
  }

  /** OC_FUNCION_SIGNAL, with pasarDeBlockedAReady */
  function DoSignal(k: Kernel, name: string): Kernel
    requires name in k.semaphores
  {
    var s := k.semaphores[name];
    if s.count + 1 <= 0 && s.queue != [] then
      var pid := s.queue[0];
      k.(semaphores := k.semaphores[name := Semaphore(s.count + 1, s.queue[1..])],
         blocked := Without(k.blocked, pid),
         ready := if pid in k.blocked then k.ready + [pid] else k.ready,
         readyTokens := k.readyTokens + 1)
    else
      k.(semaphores := k.semaphores[name := s.(count := s.count + 1)])
  }

  /** OC_FUNCION_WAIT */
  function DoWait(k: Kernel, fd: int, name: string): Kernel
    requires Busy(k, fd)
  {
    var i := CpuAt(k.cpus, fd);
    k.(cpus := k.cpus[i := k.cpus[i].(waiting := true, semaphore := name)])
  }

  /** pasarDeExecuteAExit, and the CPU token that its callers post after it: pushes whatever the CPU holds, frees
      the CPU and takes the planned count or waits for it, with mutex_kill if locked. */
  function ExecuteToExit(k: Kernel, i: int, locked: bool): Kernel
    requires 0 <= i < |k.cpus|
  {
    var goesOn := k.planned > 0;
    k.(finished := k.finished + [k.cpus[i].pcb], cpus := k.cpus[i := Released(k.cpus[i])],
       longTokens := k.longTokens + 1, planned := if goesOn then k.planned - 1 else k.planned,
       cpuTokens := if goesOn then k.cpuTokens + 1 else k.cpuTokens,
       holder := if !goesOn && locked then AnExit else k.holder,
       exitWaits := if !goesOn && !locked then k.exitWaits + 1 else k.exitWaits)
  }

  /** A waiting termination takes the planned count and posts its CPU token. */
  function DoResumeExit(k: Kernel): Kernel {
    k.(planned := k.planned - 1, exitWaits := k.exitWaits - 1, cpuTokens := k.cpuTokens + 1, resumes := k.resumes + 1)
  }

  /** The waiting holder of mutex_kill takes it, posts its CPU token if it freed a CPU, and unlocks. */
  function DoResumeHolder(k: Kernel): Kernel {
    k.(planned := k.planned - 1, holder := Nobody, cpuTokens := k.cpuTokens + (if k.holder.AnExit? then 1 else 0),
       resumes := k.resumes + 1)
  }

  /** The wait half of OC_TERMINO_INSTRUCCION: the process takes the semaphore or blocks on it. */
  function SettleWait(k: Kernel, i: int): Kernel
    requires 0 <= i < |k.cpus| && k.cpus[i].pcb.Some? && k.cpus[i].semaphore in k.semaphores
  {
    var c := k.cpus[i];
    var s := k.semaphores[c.semaphore];
    if s.count - 1 < 0 then
      k.(semaphores := k.semaphores[c.semaphore := Semaphore(s.count - 1, s.queue + [c.pcb.value])],
         blocked := k.blocked + [c.pcb.value],
         cpus := k.cpus[i := c.(pcb := None)])
    else
      k.(semaphores := k.semaphores[c.semaphore := s.(count := s.count - 1)],
         cpus := k.cpus[i := c.(waiting := false)])
  }

  /** The rest of OC_TERMINO_INSTRUCCION: the process exits if it was killed, gives up the CPU if it
      blocked or used up its quantum, and otherwise goes on. */
  function Conclude(k: Kernel, policy: Policy, i: int): Kernel
    requires 0 <= i < |k.cpus|
  {
    var c := k.cpus[i];
    if c.kill then
      ExecuteToExit(k, i, true).(waitKills := k.waitKills + if c.waiting then 1 else 0)
    else if c.waiting then
      k.(cpus := k.cpus[i := Released(c)], cpuTokens := k.cpuTokens + 1)
    else if !policy.roundRobin then
      k
    else if c.quantum + 1 < policy.quantum || c.pcb.None? then
      k.(cpus := k.cpus[i := c.(quantum := c.quantum + 1)])
    else
      k.(ready := k.ready + [c.pcb.value], readyTokens := k.readyTokens + 1,
         cpus := k.cpus[i := Released(c)], cpuTokens := k.cpuTokens + 1)
  }

  /** OC_TERMINO_INSTRUCCION */
  function DoEndInstruction(k: Kernel, policy: Policy, fd: int): Kernel
    requires Busy(k, fd)
    requires k.cpus[CpuAt(k.cpus, fd)].waiting ==> k.cpus[CpuAt(k.cpus, fd)].semaphore in k.semaphores
  {
    var i := CpuAt(k.cpus, fd);
    Conclude(if k.cpus[i].waiting then SettleWait(k, i) else k, policy, i)
  }

  /** OC_TERMINA_PROGRAMA and OC_ERROR_EJECUCION_CPU */
  function DoTerminate(k: Kernel, fd: int): Kernel
    requires Busy(k, fd)
  {
    ExecuteToExit(k, CpuAt(k.cpus, fd), false)
  }

  /** OC_DESCONEX_CPU: the process goes back to ready and the CPU leaves the list. */
  function DoDisconnect(k: Kernel, fd: int): Kernel
    requires Busy(k, fd)
  {
    var i := CpuAt(k.cpus, fd);
    k.(ready := k.ready + [k.cpus[i].pcb.value], readyTokens := k.readyTokens + 1, cpus := RemoveAt(k.cpus, i))
  }

  /** A CPU's connection breaks. */
  function DoLose(k: Kernel, fd: int): Kernel
    requires CpuAt(k.cpus, fd) < |k.cpus|
  {
    var i := CpuAt(k.cpus, fd);
    if k.cpus[i].pcb.Some? then DoDisconnect(k, fd)
    else k.(cpus := RemoveAt(k.cpus, i), idleLosses := k.idleLosses + 1, strayTokens := k.strayTokens + 1)
  }

  /** A process leaves every semaphore queue it is in, raising that semaphore's count. */
  function Unqueued(semaphores: map<string, Semaphore>, pid: int): map<string, Semaphore> {
    map name | name in semaphores ::
      var s := semaphores[name];
      if pid in s.queue then Semaphore(s.count + 1, Without(s.queue, pid)) else s
  }

  /** What pasar_proceso_a_exit does with a process it took out of a queue. */
  function Exited(k: Kernel, pid: int): Kernel {
    k.(finished := k.finished + [Some(pid)], longTokens := k.longTokens + 1,
       planned := if k.planned > 0 then k.planned - 1 else k.planned,
       holder := if k.planned > 0 then k.holder else AKill)
  }

  function KillNew(k: Kernel, pid: int): Kernel {
    Exited(k, pid).(newcomers := Without(k.newcomers, pid), newKills := k.newKills + 1)
  }

  function KillReady(k: Kernel, pid: int): Kernel {
    Exited(k, pid).(ready := Without(k.ready, pid), drains := k.drains + 1)
  }

  function KillBlocked(k: Kernel, pid: int): Kernel {
    Exited(k, pid).(blocked := Without(k.blocked, pid), semaphores := Unqueued(k.semaphores, pid))
  }

  function KillRunning(k: Kernel, pid: int): Kernel {
    var i := CpuRunning(k.cpus, pid);
    if i < |k.cpus| then k.(cpus := k.cpus[i := k.cpus[i].(kill := true)]) else k
  }

  /** pasar_proceso_a_exit: the queues in turn; a process on a CPU is only marked. */
  function DoKill(k: Kernel, pid: int): Kernel {
    if pid in k.newcomers then KillNew(k, pid)
    else if pid in k.ready then KillReady(k, pid)
    else if pid in k.blocked then KillBlocked(k, pid)
    else KillRunning(k, pid)
  }

  /** The console's multiprogramming command. */
  function DoSetDegree(k: Kernel, n: int): Kernel {
    k.(degree := n, longTokens := k.longTokens + 1, topDegree := if n > k.topDegree then n else k.topDegree)
  }

  /** Kills and ends of instructions need mutex_kill. */
  predicate Enabled(k: Kernel, e: Event) {
    match e
    case Submit => true
    case Admit(_) => k.longTokens > 0
    case Dispatch => k.readyTokens > 0 && k.cpuTokens > 0
    case Connect(fd) => CpuAt(k.cpus, fd) == |k.cpus|
    case Signal(name) => name in k.semaphores
    case Wait(fd, name) => Busy(k, fd) && name in k.semaphores
    case EndInstruction(fd) =>
      && Busy(k, fd) && k.holder == Nobody
      && var c := k.cpus[CpuAt(k.cpus, fd)];
         (c.waiting ==> c.semaphore in k.semaphores)
    case Terminate(fd) => Busy(k, fd)
    case Disconnect(fd) => Busy(k, fd)
    case Lose(fd) => CpuAt(k.cpus, fd) < |k.cpus|
    case Kill(_) => k.holder == Nobody
    case SetDegree(_) => true
    case ResumeExit => k.planned > 0 && k.exitWaits > 0
    case ResumeHolder => k.planned > 0 && k.holder != Nobody
  }

  function Step(k: Kernel, policy: Policy, e: Event): Kernel
    requires Enabled(k, e)
  {
    match e
    case Submit => DoSubmit(k)
    case Admit(fits) => DoAdmit(k, fits)
    case Dispatch => DoDispatch(k)
    case Connect(fd) => DoConnect(k, fd)
    case Signal(name) => DoSignal(k, name)
    case Wait(fd, name) => DoWait(k, fd, name)
    case EndInstruction(fd) => DoEndInstruction(k, policy, fd)
    case Terminate(fd) => DoTerminate(k, fd)
    case Disconnect(fd) => DoDisconnect(k, fd)
    case Lose(fd) => DoLose(k, fd)
    case Kill(pid) => DoKill(k, pid)
    case SetDegree(n) => DoSetDegree(k, n)
    case ResumeExit => DoResumeExit(k)
    case ResumeHolder => DoResumeHolder(k)
  }

  // ---- the invariant ----

  /** How often a process is assigned to a CPU. */
  function Assigned(cpus: seq<Cpu>, pid: int): nat {
    if cpus == [] then 0 else (if cpus[0].pcb == Some(pid) then 1 else 0) + Assigned(cpus[1..], pid)
  }

  function FreeCpus(cpus: seq<Cpu>): nat {
    if cpus == [] then 0 else (if cpus[0].free then 1 else 0) + FreeCpus(cpus[1..])
  }

  /** How often a process is in the finished queue, which may also hold empty places. */
  function Ended(finished: seq<Option<int>>, pid: int): nat {
    multiset(finished)[Some(pid)]
  }

  /** In how many places a process is, over all queues and CPUs. */
  function Places(k: Kernel, pid: int): nat {
    multiset(k.newcomers)[pid] + multiset(k.ready)[pid] + Assigned(k.cpus, pid) + multiset(k.blocked)[pid]
    + Ended(k.finished, pid) + multiset(k.dropped)[pid]
  }

  /** Every created process is in exactly one place, once. */
  ghost predicate Partition(k: Kernel) {
    k.nextPid >= 1 && forall pid :: Places(k, pid) == if 1 <= pid < k.nextPid then 1 else 0
  }

  ghost predicate CpusOk(cpus: seq<Cpu>) {
    && (forall i, j :: 0 <= i < j < |cpus| ==> cpus[i].fd != cpus[j].fd)
    && (forall i :: 0 <= i < |cpus| ==> (cpus[i].free <==> cpus[i].pcb.None?))
  }

  /** Each queue is as long as its count is negative, no process waits twice, and the waiting
      processes are exactly the blocked ones. */
  ghost predicate SemaphoresOk(semaphores: map<string, Semaphore>, blocked: seq<int>) {
    && (forall n :: n in semaphores ==>
          |semaphores[n].queue| == (if semaphores[n].count < 0 then -semaphores[n].count else 0)
            && NoDuplicates(semaphores[n].queue))
    && (forall n, m, pid ::
          n in semaphores && m in semaphores && pid in semaphores[n].queue && pid in semaphores[m].queue ==> n == m)
    && (forall n, pid :: n in semaphores && pid in semaphores[n].queue ==> pid in blocked)
    && (forall pid :: pid in blocked ==> exists n :: n in semaphores && pid in semaphores[n].queue)
  }

  /** The handlers that wait for the planned count, and those of them that owe the token of a CPU they freed. */
  function Waiters(k: Kernel): int {
    k.exitWaits + if k.holder == Nobody then 0 else 1
  }

  function Owed(k: Kernel): int {
    k.exitWaits + if k.holder == AnExit then 1 else 0
  }

  ghost predicate TokensOk(k: Kernel) {
    && k.drains >= 0 && k.readyTokens == |k.ready| + k.drains
    && k.strayTokens >= 0 && k.cpuTokens >= 0 && k.cpuTokens + Owed(k) == FreeCpus(k.cpus) + k.strayTokens
    && |k.dropped| + k.strayTokens <= k.idleLosses
  }

  /** The processes that are ready, on a CPU or blocked. */
  function Live(k: Kernel): int {
    |k.ready| + (|k.cpus| - FreeCpus(k.cpus)) + |k.blocked|
  }

  /** The planned count against the processes it stands for, the degree and the planner's tokens;
      extra processes are counted twice. */
  ghost predicate AdmissionOk(k: Kernel, extra: int) {
    && k.newKills >= 0 && k.waitKills >= 0 && k.longTokens >= 0 && k.planned >= 0 && k.exitWaits >= 0
    && k.planned + k.newKills + k.waitKills + extra == Live(k) + |k.dropped| + Waiters(k)
    && Waiters(k) <= k.newKills + k.waitKills
    && k.planned <= k.topDegree && k.degree <= k.topDegree && 0 <= k.topDegree
    && k.resumes >= 0 && (k.resumes > 0 ==> k.newKills + k.waitKills > 0)
    && (k.resumes == 0 ==> PlannerPending(k))
  }

  /** Whenever a NEW process could be admitted, the long-term planner has a token to go on. */
  predicate PlannerPending(k: Kernel) {
    k.newcomers != [] && k.planned < k.degree ==> k.longTokens > 0
  }

  ghost predicate Inv(k: Kernel) {
    Partition(k) && CpusOk(k.cpus) && SemaphoresOk(k.semaphores, k.blocked) && TokensOk(k) && AdmissionOk(k, 0)
  }

  /** The kernel when it starts: semaphores with no waiters and counts that are not negative. */
  ghost predicate Init(k: Kernel) {
    && k.newcomers == k.ready == k.blocked == k.dropped == [] && k.finished == [] && k.cpus == [] && k.nextPid == 1
    && k.readyTokens == k.cpuTokens == k.longTokens == k.planned == k.exitWaits == 0 && k.holder == Nobody
    && k.drains == k.newKills == k.waitKills == k.idleLosses == k.strayTokens == k.resumes == 0
    && 0 <= k.topDegree && k.degree <= k.topDegree
    && forall n :: n in k.semaphores ==> k.semaphores[n].queue == [] && k.semaphores[n].count >= 0
  }

  lemma {:induction false} InitOk(k: Kernel)
    requires Init(k)
    ensures Inv(k)
  {
  }

  lemma {:induction false} CpuUpdate(cpus: seq<Cpu>, i: int, c: Cpu, pid: int)
    requires 0 <= i < |cpus|
    ensures Assigned(cpus[i := c], pid) + (if cpus[i].pcb == Some(pid) then 1 else 0)
         == Assigned(cpus, pid) + if c.pcb == Some(pid) then 1 else 0
    ensures FreeCpus(cpus[i := c]) + (if cpus[i].free then 1 else 0) == FreeCpus(cpus) + if c.free then 1 else 0
  {
    if i == 0 {
      assert cpus[0 := c][1..] == cpus[1..];
    } else {
      assert cpus[i := c][1..] == cpus[1..][i - 1 := c];
      CpuUpdate(cpus[1..], i - 1, c, pid);
    }
  }

  lemma {:induction false} CpuAppend(cpus: seq<Cpu>, c: Cpu, pid: int)
    ensures Assigned(cpus + [c], pid) == Assigned(cpus, pid) + if c.pcb == Some(pid) then 1 else 0
    ensures FreeCpus(cpus + [c]) == FreeCpus(cpus) + if c.free then 1 else 0
  {
    if cpus != [] {
      assert (cpus + [c])[1..] == cpus[1..] + [c];
      CpuAppend(cpus[1..], c, pid);
    }
  }

  lemma {:induction false} CpuRemove(cpus: seq<Cpu>, i: int, pid: int)
    requires 0 <= i < |cpus|
    ensures Assigned(RemoveAt(cpus, i), pid) + (if cpus[i].pcb == Some(pid) then 1 else 0) == Assigned(cpus, pid)
    ensures FreeCpus(RemoveAt(cpus, i)) + (if cpus[i].free then 1 else 0) == FreeCpus(cpus)
  {
    if i == 0 {
      assert RemoveAt(cpus, 0) == cpus[1..];
    } else {
      assert RemoveAt(cpus, i)[1..] == RemoveAt(cpus[1..], i - 1);
      CpuRemove(cpus[1..], i - 1, pid);
    }
  }

  lemma {:induction false} FreeMeansOne(cpus: seq<Cpu>)
    ensures FreeCpus(cpus) > 0 <==> FirstFree(cpus) < |cpus|
  {
    if cpus != [] {
      FreeMeansOne(cpus[1..]);
    }
  }

  // ---- where a process is ----

  datatype Where = Nowhere | InNew | InReady | OnCpu | InBlocked | InFinished | Lost

  function WhereIs(k: Kernel, pid: int): Where {
    if multiset(k.newcomers)[pid] > 0 then InNew
    else if multiset(k.ready)[pid] > 0 then InReady
    else if Assigned(k.cpus, pid) > 0 then OnCpu
    else if multiset(k.blocked)[pid] > 0 then InBlocked
    else if Ended(k.finished, pid) > 0 then InFinished
    else if multiset(k.dropped)[pid] > 0 then Lost
    else Nowhere
  }

  /** Exactly one process moves. */
  ghost predicate Moves(k: Kernel, k': Kernel, pid: int, from: Where, to: Where) {
    WhereIs(k, pid) == from && WhereIs(k', pid) == to && forall p :: p != pid ==> WhereIs(k', p) == WhereIs(k, p)
  }

  /** No process moves. */
  ghost predicate Stays(k: Kernel, k': Kernel) {
    forall p :: WhereIs(k', p) == WhereIs(k, p)
  }

  lemma {:induction false} SubmitMoves(k: Kernel)
    requires Inv(k)
    ensures Moves(k, DoSubmit(k), k.nextPid, Nowhere, InNew)
  {
    assert Places(k, k.nextPid) == 0;
  }

  lemma {:induction false} HeadMoves(k: Kernel, fits: bool)
    requires k.planned < k.degree && k.newcomers != [] && Places(k, k.newcomers[0]) == 1
    ensures Moves(k, DoAdmit(k, fits), k.newcomers[0], InNew, if fits then InReady else InFinished)
  {
    var k', pid := DoAdmit(k, fits), k.newcomers[0];
    assert k.newcomers == [pid] + k.newcomers[1..];
    forall p ensures p != pid ==> WhereIs(k', p) == WhereIs(k, p) {
      assert p != pid ==>
             && multiset(k'.newcomers)[p] == multiset(k.newcomers)[p]
             && multiset(k'.ready)[p] == multiset(k.ready)[p];
    }
  }

  lemma {:induction false} AdmitMoves(k: Kernel, fits: bool)
    requires Inv(k)
    ensures if k.planned < k.degree && k.newcomers != []
            then Moves(k, DoAdmit(k, fits), k.newcomers[0], InNew, if fits then InReady else InFinished)
            else Stays(k, DoAdmit(k, fits))
  {
    if k.planned < k.degree && k.newcomers != [] {
      assert Places(k, k.newcomers[0]) == 1 by {
        assert multiset(k.newcomers)[k.newcomers[0]] >= 1;
      }
      HeadMoves(k, fits);
    }
  }

  lemma {:induction false} WakeMoves(k: Kernel, name: string)
    requires name in k.semaphores && k.semaphores[name].count < 0 && k.semaphores[name].queue != []
    requires k.semaphores[name].queue[0] in k.blocked && Places(k, k.semaphores[name].queue[0]) == 1
    ensures Moves(k, DoSignal(k, name), k.semaphores[name].queue[0], InBlocked, InReady)
  {
    var k', pid := DoSignal(k, name), k.semaphores[name].queue[0];
    assert multiset(k.blocked)[pid] >= 1;
    forall p ensures p != pid ==> WhereIs(k', p) == WhereIs(k, p) {
      assert p != pid ==>
             && multiset(k'.ready)[p] == multiset(k.ready)[p]
             && multiset(k'.blocked)[p] == multiset(k.blocked)[p];
    }
  }

  lemma {:induction false} SignalMovesOne(k: Kernel, name: string)
    requires Inv(k) && name in k.semaphores
    ensures k.semaphores[name].count < 0 ==> k.semaphores[name].queue != []
    ensures if k.semaphores[name].count < 0
            then Moves(k, DoSignal(k, name), k.semaphores[name].queue[0], InBlocked, InReady)
            else Stays(k, DoSignal(k, name))
  {
    if k.semaphores[name].count < 0 {
      SignalWakesFirst(k, name);
      assert multiset(k.blocked)[k.semaphores[name].queue[0]] >= 1;
      assert Places(k, k.semaphores[name].queue[0]) == 1;
      WakeMoves(k, name);
    }
  }

  lemma {:induction false} WaitStays(k: Kernel, fd: int, name: string)
    requires Busy(k, fd) && name in k.semaphores
    ensures Stays(k, DoWait(k, fd, name))
  {
    var k', i := DoWait(k, fd, name), CpuAt(k.cpus, fd);
    forall p ensures WhereIs(k', p) == WhereIs(k, p) {
      CpuUpdate(k.cpus, i, k'.cpus[i], p);
    }
  }

  lemma {:induction false} TerminateMoves(k: Kernel, fd: int)
    requires Inv(k) && Busy(k, fd)
    ensures Moves(k, DoTerminate(k, fd), k.cpus[CpuAt(k.cpus, fd)].pcb.value, OnCpu, InFinished)
  {
    var k', i := DoTerminate(k, fd), CpuAt(k.cpus, fd);
    var pid := k.cpus[i].pcb.value;
    AssignedAt(k.cpus, i);
    assert Places(k, pid) == 1;
    forall p ensures p != pid ==> WhereIs(k', p) == WhereIs(k, p) {
      CpuUpdate(k.cpus, i, k'.cpus[i], p);
    }
    CpuUpdate(k.cpus, i, k'.cpus[i], pid);
  }

  lemma {:induction false} LoseMoves(k: Kernel, fd: int)
    requires Inv(k) && CpuAt(k.cpus, fd) < |k.cpus|
    ensures var c := k.cpus[CpuAt(k.cpus, fd)];
            if c.pcb.Some? then Moves(k, DoLose(k, fd), c.pcb.value, OnCpu, InReady) else Stays(k, DoLose(k, fd))
  {
    var k', i := DoLose(k, fd), CpuAt(k.cpus, fd);
    if k.cpus[i].pcb.Some? {
      AssignedAt(k.cpus, i);
      assert Places(k, k.cpus[i].pcb.value) == 1;
    }
    forall p ensures k.cpus[i].pcb != Some(p) ==> WhereIs(k', p) == WhereIs(k, p) {
      CpuRemove(k.cpus, i, p);
    }
    if k.cpus[i].pcb.Some? {
      CpuRemove(k.cpus, i, k.cpus[i].pcb.value);
    }
  }

  // ---- every handler keeps the invariant ----

  lemma {:induction false} SubmitKeeps(k: Kernel)
    requires Inv(k)
    ensures Inv(DoSubmit(k))
  {
    var k' := DoSubmit(k);
    forall pid ensures Places(k', pid) == if 1 <= pid < k'.nextPid then 1 else 0 {
      assert Places(k, pid) == if 1 <= pid < k.nextPid then 1 else 0;
    }
  }

  lemma {:induction false} AdmitKeeps(k: Kernel, fits: bool)
    requires Inv(k) && k.longTokens > 0
    ensures Inv(DoAdmit(k, fits))
  {
    var k' := DoAdmit(k, fits);
    if k.newcomers != [] {
      assert k.newcomers == [k.newcomers[0]] + k.newcomers[1..];
    }
    forall pid ensures Places(k', pid) == if 1 <= pid < k'.nextPid then 1 else 0 {
      assert Places(k, pid) == if 1 <= pid < k.nextPid then 1 else 0;
    }
  }

  lemma {:induction false} DispatchMoves(k: Kernel, pid: int)
    requires CpusOk(k.cpus)
    ensures Places(DoDispatch(k), pid) == Places(k, pid)
    ensures FreeCpus(DoDispatch(k).cpus)
         == FreeCpus(k.cpus) - if k.ready != [] && FirstFree(k.cpus) < |k.cpus| then 1 else 0
  {
    var i := FirstFree(k.cpus);
    if k.ready != [] {
      assert k.ready == [k.ready[0]] + k.ready[1..];
      if i < |k.cpus| {
        CpuUpdate(k.cpus, i, k.cpus[i].(free := false, pcb := Some(k.ready[0])), pid);
      }
    }
  }

  lemma {:induction false} DispatchKeeps(k: Kernel)
    requires Inv(k) && k.readyTokens > 0 && k.cpuTokens > 0
    ensures Inv(DoDispatch(k))
  {
    var k' := DoDispatch(k);
    FreeMeansOne(k.cpus);
    DispatchMoves(k, 0);
    forall pid ensures Places(k', pid) == Places(k, pid) {
      DispatchMoves(k, pid);
    }
  }

  lemma {:induction false} ConnectKeeps(k: Kernel, fd: int)
    requires Inv(k) && CpuAt(k.cpus, fd) == |k.cpus|
    ensures Inv(DoConnect(k, fd))
  {
    var k' := DoConnect(k, fd);
    forall pid
      ensures Places(k', pid) == (if 1 <= pid < k'.nextPid then 1 else 0) && FreeCpus(k'.cpus) == FreeCpus(k.cpus) + 1
    {
      assert Places(k, pid) == if 1 <= pid < k.nextPid then 1 else 0;
      CpuAppend(k.cpus, k'.cpus[|k.cpus|], pid);
    }
  }

  lemma {:induction false} WithoutOnce(blocked: seq<int>, head: int)
    requires forall pid :: multiset(blocked)[pid] <= 1
    ensures forall pid :: pid in Without(blocked, head) <==> pid in blocked && pid != head
  {
    forall pid ensures pid in Without(blocked, head) <==> pid in blocked && pid != head {
      assert pid in Without(blocked, head) <==> multiset(Without(blocked, head))[pid] > 0;
    }
  }

  /** A signal on a semaphore with waiters finds the PCB of the first of them among the blocked. */
  lemma {:induction false} SignalSemaphores(semaphores: map<string, Semaphore>, blocked: seq<int>, name: string)
    requires SemaphoresOk(semaphores, blocked) && name in semaphores && semaphores[name].count < 0
    requires forall pid :: multiset(blocked)[pid] <= 1
    ensures var s := semaphores[name];
            && s.queue != [] && s.queue[0] in blocked
            && SemaphoresOk(semaphores[name := Semaphore(s.count + 1, s.queue[1..])], Without(blocked, s.queue[0]))
  {
    var s := semaphores[name];
    var head := s.queue[0];
    assert head in s.queue;
    var semaphores', blocked' := semaphores[name := Semaphore(s.count + 1, s.queue[1..])], Without(blocked, head);
    assert s.queue == [head] + s.queue[1..];
    WithoutOnce(blocked, head);
    forall pid | pid in blocked' ensures exists n :: n in semaphores' && pid in semaphores'[n].queue {
      var n :| n in semaphores && pid in semaphores[n].queue;
      assert n in semaphores' && pid in semaphores'[n].queue;
    }
  }

  lemma {:induction false} WaitSemaphores(semaphores: map<string, Semaphore>, blocked: seq<int>, name: string, pid: int)
    requires SemaphoresOk(semaphores, blocked) && name in semaphores && pid !in blocked
    ensures var s := semaphores[name];
            if s.count - 1 < 0 then
              SemaphoresOk(semaphores[name := Semaphore(s.count - 1, s.queue + [pid])], blocked + [pid])
            else SemaphoresOk(semaphores[name := s.(count := s.count - 1)], blocked)
  {
    var s := semaphores[name];
    var semaphores', blocked' := semaphores[name := s.(count := s.count - 1)], blocked;
    if s.count - 1 < 0 {
      semaphores', blocked' := semaphores[name := Semaphore(s.count - 1, s.queue + [pid])], blocked + [pid];
      AppendFacts(s.queue, pid);
      assert pid in semaphores'[name].queue;
    }
    forall p | p in blocked' ensures exists n :: n in semaphores' && p in semaphores'[n].queue {
      if p in blocked {
        var n :| n in semaphores && p in semaphores[n].queue;
        assert n in semaphores' && p in semaphores'[n].queue;
      }
    }
  }

  lemma {:induction false} KillSemaphores(semaphores: map<string, Semaphore>, blocked: seq<int>, pid: int)
    requires SemaphoresOk(semaphores, blocked) && pid in blocked
    requires forall p :: multiset(blocked)[p] <= 1
    ensures SemaphoresOk(Unqueued(semaphores, pid), Without(blocked, pid))
  {
    var semaphores', blocked' := Unqueued(semaphores, pid), Without(blocked, pid);
    forall p ensures p in blocked' <==> p in blocked && p != pid {
      assert p in blocked' <==> multiset(blocked')[p] > 0;
    }
    forall n | n in semaphores
      ensures NoDuplicates(semaphores'[n].queue)
            && forall p :: p in semaphores'[n].queue <==> p in semaphores[n].queue && p != pid
    {
      if pid in semaphores[n].queue {
        RemoveAtFacts(semaphores[n].queue, IndexOf(semaphores[n].queue, pid));
      }
    }
    forall p | p in blocked' ensures exists n :: n in semaphores' && p in semaphores'[n].queue {
      var n :| n in semaphores && p in semaphores[n].queue;
      assert n in semaphores' && p in semaphores'[n].queue;
    }
  }

  lemma {:induction false} OnceEach(k: Kernel)
    requires Partition(k)
    ensures forall pid :: multiset(k.blocked)[pid] <= 1
    ensures forall pid :: pid in k.blocked ==> Assigned(k.cpus, pid) == 0
    ensures forall pid :: pid in k.ready ==> pid !in k.blocked
  {
    forall pid ensures multiset(k.blocked)[pid] + multiset(k.ready)[pid] + Assigned(k.cpus, pid) <= 1 {
      assert Places(k, pid) <= 1;
    }
  }

  lemma {:induction false} AssignedAt(cpus: seq<Cpu>, i: int)
    requires 0 <= i < |cpus| && cpus[i].pcb.Some?
    ensures Assigned(cpus, cpus[i].pcb.value) >= 1
  {
    if i > 0 {
      AssignedAt(cpus[1..], i - 1);
    }
  }

  lemma {:induction false} SignalMoves(k: Kernel, name: string, pid: int)
    requires name in k.semaphores && (k.semaphores[name].count < 0 ==>
              k.semaphores[name].queue != [] && k.semaphores[name].queue[0] in k.blocked)
    ensures Places(DoSignal(k, name), pid) == Places(k, pid)
  {
  }

  lemma {:induction false} SignalQueues(k: Kernel, name: string)
    requires Partition(k) && SemaphoresOk(k.semaphores, k.blocked) && name in k.semaphores
    ensures k.semaphores[name].count < 0 ==>
              k.semaphores[name].queue != [] && k.semaphores[name].queue[0] in k.blocked
    ensures SemaphoresOk(DoSignal(k, name).semaphores, DoSignal(k, name).blocked)
  {
    if k.semaphores[name].count < 0 {
      assert k.semaphores[name].queue[0] in k.semaphores[name].queue;
      OnceEach(k);
      SignalSemaphores(k.semaphores, k.blocked, name);
    } else {
      RaiseSemaphore(k.semaphores, k.blocked, name);
    }
  }

  lemma {:induction false} SignalPartition(k: Kernel, name: string)
    requires Partition(k) && name in k.semaphores && (k.semaphores[name].count < 0 ==>
              k.semaphores[name].queue != [] && k.semaphores[name].queue[0] in k.blocked)
    ensures Partition(DoSignal(k, name))
  {
    forall pid ensures Places(DoSignal(k, name), pid) == Places(k, pid) {
      SignalMoves(k, name, pid);
    }
  }

  lemma {:induction false} SignalKeeps(k: Kernel, name: string)
    requires Inv(k) && name in k.semaphores
    ensures Inv(DoSignal(k, name))
  {
    SignalQueues(k, name);
    SignalPartition(k, name);
  }

  lemma {:induction false} RaiseSemaphore(semaphores: map<string, Semaphore>, blocked: seq<int>, name: string)
    requires SemaphoresOk(semaphores, blocked) && name in semaphores && semaphores[name].count >= 0
    ensures SemaphoresOk(semaphores[name := semaphores[name].(count := semaphores[name].count + 1)], blocked)
  {
    var semaphores' := semaphores[name := semaphores[name].(count := semaphores[name].count + 1)];
    forall pid | pid in blocked ensures exists n :: n in semaphores' && pid in semaphores'[n].queue {
      var n :| n in semaphores && pid in semaphores[n].queue;
      assert n in semaphores' && pid in semaphores'[n].queue;
    }
  }

  lemma {:induction false} WaitKeeps(k: Kernel, fd: int, name: string)
    requires Inv(k) && Busy(k, fd)
    ensures Inv(DoWait(k, fd, name))
  {
    var k', i := DoWait(k, fd, name), CpuAt(k.cpus, fd);
    forall pid
      ensures Places(k', pid) == (if 1 <= pid < k'.nextPid then 1 else 0) && FreeCpus(k'.cpus) == FreeCpus(k.cpus)
    {
      assert Places(k, pid) == if 1 <= pid < k.nextPid then 1 else 0;
      CpuUpdate(k.cpus, i, k'.cpus[i], pid);
    }
  }

  lemma {:induction false} TerminateKeeps(k: Kernel, fd: int)
    requires Inv(k) && Busy(k, fd)
    ensures Inv(DoTerminate(k, fd))
  {
    var k', i := DoTerminate(k, fd), CpuAt(k.cpus, fd);
    BusyCounted(k.cpus, i);
    forall pid
      ensures Places(k', pid) == (if 1 <= pid < k'.nextPid then 1 else 0) && FreeCpus(k'.cpus) == FreeCpus(k.cpus) + 1
    {
      assert Places(k, pid) == if 1 <= pid < k.nextPid then 1 else 0;
      CpuUpdate(k.cpus, i, k'.cpus[i], pid);
    }
  }

  lemma {:induction false} LoseKeeps(k: Kernel, fd: int)
    requires Inv(k) && CpuAt(k.cpus, fd) < |k.cpus|
    ensures Inv(DoLose(k, fd))
  {
    var k', i := DoLose(k, fd), CpuAt(k.cpus, fd);
    CpuRemove(k.cpus, i, 0);
    forall pid ensures Places(k', pid) == Places(k, pid) {
      CpuRemove(k.cpus, i, pid);
    }
  }

  lemma {:induction false} KillNewMoves(k: Kernel, pid: int, p: int)
    requires pid in k.newcomers
    ensures Places(KillNew(k, pid), p) == Places(k, p)
  {
  }

  lemma {:induction false} KillReadyMoves(k: Kernel, pid: int, p: int)
    requires pid in k.ready
    ensures Places(KillReady(k, pid), p) == Places(k, p)
  {
  }

  lemma {:induction false} KillQueuedPartition(k: Kernel, pid: int)
    requires Partition(k)
    ensures pid in k.newcomers ==> Partition(KillNew(k, pid))
    ensures pid in k.ready ==> Partition(KillReady(k, pid))
  {
    if pid in k.newcomers {
      forall p ensures Places(KillNew(k, pid), p) == Places(k, p) {
        KillNewMoves(k, pid, p);
      }
    }
    if pid in k.ready {
      forall p ensures Places(KillReady(k, pid), p) == Places(k, p) {
        KillReadyMoves(k, pid, p);
      }
    }
  }

  lemma {:induction false} KillNewKeeps(k: Kernel, pid: int)
    requires Inv(k) && k.holder == Nobody && pid in k.newcomers
    ensures Inv(KillNew(k, pid))
  {
    FreeAtMost(k.cpus);
    KillQueuedPartition(k, pid);
  }

  lemma {:induction false} KillReadyKeeps(k: Kernel, pid: int)
    requires Inv(k) && k.holder == Nobody && pid in k.ready
    ensures Inv(KillReady(k, pid))
  {
    FreeAtMost(k.cpus);
    KillQueuedPartition(k, pid);
  }

  lemma {:induction false} KillBlockedKeeps(k: Kernel, pid: int)
    requires Inv(k) && k.holder == Nobody && pid in k.blocked
    ensures Inv(KillBlocked(k, pid))
  {
    OnceEach(k);
    KillSemaphores(k.semaphores, k.blocked, pid);
    FreeAtMost(k.cpus);
    assert forall p :: Places(KillBlocked(k, pid), p) == Places(k, p);
  }

  lemma {:induction false} KillRunningKeeps(k: Kernel, pid: int)
    requires Inv(k)
    ensures Inv(KillRunning(k, pid))
  {
    var i := CpuRunning(k.cpus, pid);
    if i < |k.cpus| {
      CpuUpdate(k.cpus, i, k.cpus[i].(kill := true), pid);
      forall p ensures Places(KillRunning(k, pid), p) == Places(k, p) {
        CpuUpdate(k.cpus, i, k.cpus[i].(kill := true), p);
      }
    }
  }

  /** Between the two halves of OC_TERMINO_INSTRUCCION the CPU of a process that blocked is neither
      free nor assigned, and the process is still counted on it. */
  ghost predicate Settled(k: Kernel, i: int) {
    && 0 <= i < |k.cpus| && !k.cpus[i].free && (k.cpus[i].waiting <==> k.cpus[i].pcb.None?)
    && CpusOk(k.cpus[i := Released(k.cpus[i])])
    && Partition(k) && SemaphoresOk(k.semaphores, k.blocked) && TokensOk(k)
    && AdmissionOk(k, if k.cpus[i].waiting then 1 else 0)
  }

  lemma {:induction false} SettlePartition(k: Kernel, i: int)
    requires Partition(k) && 0 <= i < |k.cpus| && k.cpus[i].pcb.Some? && k.cpus[i].semaphore in k.semaphores
    ensures Partition(SettleWait(k, i)) && FreeCpus(SettleWait(k, i).cpus) == FreeCpus(k.cpus)
  {
    var k' := SettleWait(k, i);
    CpuUpdate(k.cpus, i, k'.cpus[i], 0);
    forall pid ensures Places(k', pid) == Places(k, pid) {
      CpuUpdate(k.cpus, i, k'.cpus[i], pid);
    }
  }

  lemma {:induction false} SettleQueues(k: Kernel, i: int)
    requires Partition(k) && SemaphoresOk(k.semaphores, k.blocked)
    requires 0 <= i < |k.cpus| && k.cpus[i].pcb.Some? && k.cpus[i].semaphore in k.semaphores
    ensures SemaphoresOk(SettleWait(k, i).semaphores, SettleWait(k, i).blocked)
  {
    OnceEach(k);
    AssignedAt(k.cpus, i);
    WaitSemaphores(k.semaphores, k.blocked, k.cpus[i].semaphore, k.cpus[i].pcb.value);
  }

  lemma {:induction false} SettleKeeps(k: Kernel, i: int)
    requires Inv(k) && 0 <= i < |k.cpus| && k.cpus[i].pcb.Some? && k.cpus[i].semaphore in k.semaphores
          && k.cpus[i].waiting
    ensures Settled(SettleWait(k, i), i)
  {
    SettlePartition(k, i);
    SettleQueues(k, i);
  }

  lemma {:induction false} CpusOkUpdate(cpus: seq<Cpu>, i: int, c: Cpu, c': Cpu)
    requires 0 <= i < |cpus| && CpusOk(cpus[i := c]) && c'.fd == c.fd && (c'.free <==> c'.pcb.None?)
    ensures CpusOk(cpus[i := c'])
  {
    var before, after := cpus[i := c], cpus[i := c'];
    assert forall j :: 0 <= j < |cpus| ==> after[j].fd == before[j].fd && (j != i ==> after[j] == before[j]);
  }

  lemma {:induction false} ConcludeMoves(k: Kernel, policy: Policy, i: int, pid: int)
    requires 0 <= i < |k.cpus| && !k.cpus[i].free && (k.cpus[i].waiting <==> k.cpus[i].pcb.None?)
    ensures Places(Conclude(k, policy, i), pid) == Places(k, pid)
    ensures FreeCpus(Conclude(k, policy, i).cpus)
         == FreeCpus(k.cpus) + if Conclude(k, policy, i).cpus[i].free then 1 else 0
  {
    CpuUpdate(k.cpus, i, Conclude(k, policy, i).cpus[i], pid);
  }

  lemma {:induction false} ConcludeKeeps(k: Kernel, policy: Policy, i: int)
    requires Settled(k, i) && (k.cpus[i].kill ==> k.holder == Nobody)
    ensures Inv(Conclude(k, policy, i))
  {
    var k' := Conclude(k, policy, i);
    CpusOkUpdate(k.cpus, i, Released(k.cpus[i]), k'.cpus[i]);
    assert k'.cpus == k.cpus[i := k'.cpus[i]];
    ConcludeMoves(k, policy, i, 0);
    BusyCounted(k.cpus, i);
    forall pid ensures Places(Conclude(k, policy, i), pid) == Places(k, pid) {
      ConcludeMoves(k, policy, i, pid);
    }
  }

  lemma {:induction false} EndInstructionKeeps(k: Kernel, policy: Policy, fd: int)
    requires Inv(k) && Enabled(k, EndInstruction(fd))
    ensures Inv(DoEndInstruction(k, policy, fd))
  {
    var i := CpuAt(k.cpus, fd);
    if k.cpus[i].waiting {
      SettleKeeps(k, i);
      ConcludeKeeps(SettleWait(k, i), policy, i);
    } else {
      ConcludeKeeps(k, policy, i);
    }
  }

  lemma {:induction false} ResumeKeeps(k: Kernel)
    requires Inv(k) && k.planned > 0
    ensures k.exitWaits > 0 ==> Inv(DoResumeExit(k))
    ensures k.holder != Nobody ==> Inv(DoResumeHolder(k))
  {
    assert forall pid :: Places(DoResumeExit(k), pid) == Places(k, pid);
    assert forall pid :: Places(DoResumeHolder(k), pid) == Places(k, pid);
  }

  lemma {:induction false} ResumeStays(k: Kernel)
    ensures Stays(k, DoResumeExit(k)) && Stays(k, DoResumeHolder(k))
  {
  }

  lemma {:induction false} ResumeCounts(k: Kernel)
    ensures var k' := DoResumeExit(k);
            && Waiters(k') == Waiters(k) - 1 && Owed(k') == Owed(k) - 1
            && k'.cpuTokens + Owed(k') == k.cpuTokens + Owed(k)
    ensures k.holder != Nobody ==>
              var k' := DoResumeHolder(k);
              && Waiters(k') == Waiters(k) - 1 && k'.cpuTokens + Owed(k') == k.cpuTokens + Owed(k)
              && forall pid :: Enabled(k', Kill(pid))
  {
  }

  lemma {:induction false} StepKeeps(k: Kernel, policy: Policy, e: Event)
    requires Inv(k) && Enabled(k, e)
    ensures Inv(Step(k, policy, e))
  {
    match e
    case Submit => SubmitKeeps(k);
    case Admit(fits) => AdmitKeeps(k, fits);
    case Dispatch => DispatchKeeps(k);
    case Connect(fd) => ConnectKeeps(k, fd);
    case Signal(name) => SignalKeeps(k, name);
    case Wait(fd, name) => WaitKeeps(k, fd, name);
    case EndInstruction(fd) => EndInstructionKeeps(k, policy, fd);
    case Terminate(fd) => TerminateKeeps(k, fd);
    case Disconnect(fd) => LoseKeeps(k, fd);
    case Lose(fd) => LoseKeeps(k, fd);
    case Kill(pid) =>
      if pid in k.newcomers {
        KillNewKeeps(k, pid);
      } else if pid in k.ready {
        KillReadyKeeps(k, pid);
      } else if pid in k.blocked {
        KillBlockedKeeps(k, pid);
      } else {
        KillRunningKeeps(k, pid);
      }
    case SetDegree(n) =>
      assert forall pid :: Places(DoSetDegree(k, n), pid) == Places(k, pid);
    case ResumeExit => ResumeKeeps(k);
    case ResumeHolder => ResumeKeeps(k);
  }

  // ---- whole runs ----

  ghost predicate CanRun(k: Kernel, policy: Policy, events: seq<Event>)
    decreases |events|
  {
    events == [] || (Enabled(k, events[0]) && CanRun(Step(k, policy, events[0]), policy, events[1..]))
  }

  ghost function After(k: Kernel, policy: Policy, events: seq<Event>): Kernel
    requires CanRun(k, policy, events)
    decreases |events|
  {
    if events == [] then k else After(Step(k, policy, events[0]), policy, events[1..])
  }

  /** The invariant holds in every state of every run. */
  lemma {:induction false} RunKeeps(k: Kernel, policy: Policy, events: seq<Event>)
    requires Inv(k) && CanRun(k, policy, events)
    ensures Inv(After(k, policy, events))
    decreases |events|
  {
    if events != [] {
      StepKeeps(k, policy, events[0]);
      RunKeeps(Step(k, policy, events[0]), policy, events[1..]);
    }
  }

  /** No run takes a process out of the finished queue. */
  lemma {:induction false} FinishedAbsorbs(k: Kernel, policy: Policy, events: seq<Event>)
    requires CanRun(k, policy, events)
    ensures k.finished <= After(k, policy, events).finished
    decreases |events|
  {
    if events != [] {
      FinishedGrows(k, policy, events[0]);
      FinishedAbsorbs(Step(k, policy, events[0]), policy, events[1..]);
    }
  }

  lemma {:induction false} FinishedGrows(k: Kernel, policy: Policy, e: Event)
    requires Enabled(k, e)
    ensures k.finished <= Step(k, policy, e).finished
  {
  }

  /** Once finished, a process is in no other place for the rest of the run. */
  lemma {:induction false} FinishedForGood(k: Kernel, policy: Policy, events: seq<Event>, pid: int)
    requires Inv(k) && CanRun(k, policy, events) && Some(pid) in k.finished
    ensures var k' := After(k, policy, events);
            && Some(pid) in k'.finished
            && pid !in k'.newcomers && pid !in k'.ready && pid !in k'.blocked && pid !in k'.dropped
            && CpuRunning(k'.cpus, pid) == |k'.cpus|
  {
    var k' := After(k, policy, events);
    RunKeeps(k, policy, events);
    FinishedAbsorbs(k, policy, events);
    assert Some(pid) in multiset(k'.finished);
    assert Places(k', pid) <= 1;
    if CpuRunning(k'.cpus, pid) < |k'.cpus| {
      AssignedAt(k'.cpus, CpuRunning(k'.cpus, pid));
    }
  }

  /** Without losses of idle CPUs, a dispatch finds a free CPU and the process it pops runs there. */
  lemma {:induction false} DispatchFindsCpu(k: Kernel)
    requires Inv(k) && Enabled(k, Dispatch) && k.idleLosses == 0
    ensures var i := FirstFree(k.cpus);
            && i < |k.cpus|
            && DoDispatch(k).dropped == k.dropped
            && (k.ready != [] ==> DoDispatch(k).cpus[i].pcb == Some(k.ready[0]))
  {
    FreeMeansOne(k.cpus);
  }

  /** A dispatch loses the process it pops exactly when every CPU of the list is busy, and then
      the token it took was left behind by an idle CPU that was lost. */
  lemma {:induction false} DispatchDropsIff(k: Kernel)
    requires Inv(k) && Enabled(k, Dispatch)
    ensures DoDispatch(k).dropped != k.dropped <==> k.ready != [] && FreeCpus(k.cpus) == 0
    ensures FreeCpus(k.cpus) == 0 ==> k.strayTokens > 0 && k.idleLosses > 0
  {
    FreeMeansOne(k.cpus);
    if k.ready != [] && FreeCpus(k.cpus) == 0 {
      assert |DoDispatch(k).dropped| == |k.dropped| + 1;
    }
  }

  /** The planned count, less the handlers that wait for it, is the number of ready, executing and blocked
      processes exactly when the irregular kills balance the dropped processes; these kills are all that can
      exceed the degree. */
  lemma {:induction false} AdmissionExact(k: Kernel)
    requires Inv(k)
    ensures k.planned - Waiters(k) == Live(k) <==> k.newKills + k.waitKills == |k.dropped|
    ensures Live(k) + |k.dropped| <= k.topDegree + k.newKills + k.waitKills
    ensures k.idleLosses == 0 && k.newKills == 0 && k.waitKills == 0 ==> k.planned == Live(k) && Live(k) <= k.topDegree
    ensures k.resumes == 0 && k.newcomers != [] && k.planned < k.degree ==> Enabled(k, Admit(true))
  {
  }

  lemma {:induction false} BusyCounted(cpus: seq<Cpu>, i: int)
    requires 0 <= i < |cpus| && !cpus[i].free
    ensures FreeCpus(cpus) < |cpus|
  {
    if i > 0 {
      BusyCounted(cpus[1..], i - 1);
    } else {
      FreeAtMost(cpus[1..]);
    }
  }

  lemma {:induction false} FreeAtMost(cpus: seq<Cpu>)
    ensures FreeCpus(cpus) <= |cpus|
  {
    if cpus != [] {
      FreeAtMost(cpus[1..]);
    }
  }

  // ---- handlers that wait for the planned count ----

  /** The event ends a process: it takes the planned count or waits for it. */
  predicate Ends(k: Kernel, e: Event) {
    match e
    case Terminate(fd) => Busy(k, fd)
    case EndInstruction(fd) => Busy(k, fd) && k.cpus[CpuAt(k.cpus, fd)].kill
    case Kill(pid) => pid in k.newcomers || pid in k.ready || pid in k.blocked
    case _ => false
  }

  /** What an event that ends a process leaves, if it is left waiting and if it is not: the count is taken or
      the handler waits; the token of the CPU it freed is posted or owed, and a kill of a queued process frees
      none; mutex_kill is held by a waiting kill or end of an instruction, and then kills and ends of
      instructions are shut out. */
  ghost predicate EndsAs(k: Kernel, k': Kernel, e: Event, waits: bool) {
    && k'.planned == (if waits then 0 else k.planned - 1)
    && Waiters(k') == Waiters(k) + (if waits then 1 else 0)
    && FreeCpus(k'.cpus) == FreeCpus(k.cpus) + (if e.Kill? then 0 else 1)
    && k'.cpuTokens == k.cpuTokens + (if waits || e.Kill? then 0 else 1)
    && Owed(k') == Owed(k) + (if waits && !e.Kill? then 1 else 0)
    && (waits && !e.Terminate? ==> forall f: Event :: f.Kill? || f.EndInstruction? ==> !Enabled(k', f))
    && (!waits || e.Terminate? ==> k'.holder == k.holder)
  }

  lemma {:induction false} ExitEnds(k: Kernel, k': Kernel, i: int, e: Event)
    requires 0 <= i < |k.cpus| && !k.cpus[i].free && k.planned >= 0 && !e.Kill? && (e.Terminate? || k.holder == Nobody)
    requires var x := ExecuteToExit(k, i, !e.Terminate?);
             && k'.planned == x.planned && k'.exitWaits == x.exitWaits && k'.holder == x.holder
             && k'.cpuTokens == x.cpuTokens && k'.cpus == x.cpus
    ensures EndsAs(k, k', e, k.planned == 0)
  {
    CpuUpdate(k.cpus, i, Released(k.cpus[i]), 0);
  }

  lemma {:induction false} EndOfInstructionEnds(k: Kernel, policy: Policy, fd: int)
    requires Inv(k) && Enabled(k, EndInstruction(fd)) && k.cpus[CpuAt(k.cpus, fd)].kill
    ensures EndsAs(k, DoEndInstruction(k, policy, fd), EndInstruction(fd), k.planned == 0)
  {
    var i := CpuAt(k.cpus, fd);
    var k1 := if k.cpus[i].waiting then SettleWait(k, i) else k;
    CpuUpdate(k.cpus, i, k1.cpus[i], 0);
    ExitEnds(k1, Conclude(k1, policy, i), i, EndInstruction(fd));
  }

  /** A handler that ends a process waits for the planned count exactly when the irregular kills have used up
      the count of every process still planned. */
  lemma {:induction false} EndingWaitsIff(k: Kernel, policy: Policy, e: Event)
    requires Inv(k) && Enabled(k, e) && Ends(k, e)
    ensures EndsAs(k, Step(k, policy, e), e, k.newKills + k.waitKills == Live(k) + |k.dropped| + Waiters(k))
  {
    assert k.planned == 0 <==> k.newKills + k.waitKills == Live(k) + |k.dropped| + Waiters(k);
    match e
    case Terminate(fd) => ExitEnds(k, DoTerminate(k, fd), CpuAt(k.cpus, fd), e);
    case EndInstruction(fd) => EndOfInstructionEnds(k, policy, fd);
    case Kill(pid) =>
  }

  /** The CPU tokens are the free CPUs of the list and the strays, less what waiting handlers owe: they agree
      exactly when no handler that freed a CPU waits. */
  lemma {:induction false} CpuTokensExact(k: Kernel)
    requires Inv(k)
    ensures k.cpuTokens == FreeCpus(k.cpus) + k.strayTokens - Owed(k)
    ensures k.cpuTokens == FreeCpus(k.cpus) + k.strayTokens <==> k.exitWaits == 0 && k.holder != AnExit
  {
  }

  /** Nothing but an admission lets a waiting handler go on: until then mutex_kill stays held, no kill takes
      effect and no instruction ends, on every run. */
  lemma {:induction false} HeldUntilAdmission(k: Kernel, policy: Policy, events: seq<Event>)
    requires CanRun(k, policy, events) && k.planned == 0 && k.exitWaits >= 0
    requires forall i :: 0 <= i < |events| ==> events[i] != Admit(true)
    ensures var k' := After(k, policy, events);
            && k'.planned == 0 && k'.exitWaits >= k.exitWaits && (k.holder != Nobody ==> k'.holder == k.holder)
    ensures k.holder != Nobody ==> forall i :: 0 <= i < |events| ==> !events[i].Kill? && !events[i].EndInstruction?
    decreases |events|
  {
    if events != [] {
      HeldOneStep(k, policy, events[0]);
      HeldUntilAdmission(Step(k, policy, events[0]), policy, events[1..]);
      assert forall i :: 0 < i < |events| ==> events[i] == events[1..][i - 1];
    }
  }

  lemma {:induction false} HeldOneStep(k: Kernel, policy: Policy, e: Event)
    requires Enabled(k, e) && k.planned == 0 && k.exitWaits >= 0 && e != Admit(true)
    ensures var k' := Step(k, policy, e);
            k'.planned == 0 && k'.exitWaits >= k.exitWaits && (k.holder != Nobody ==> k'.holder == k.holder)
    ensures k.holder != Nobody ==> !e.Kill? && !e.EndInstruction?
  {
  }

  /** Every step keeps a token pending for the planner, except one: a handler that waited and now takes the count
      of a process that the planner, seeing the degree reached, left in NEW with its last token. */
  lemma {:induction false} PlannerPendingIff(k: Kernel, policy: Policy, e: Event)
    requires Inv(k) && PlannerPending(k) && Enabled(k, e)
    ensures PlannerPending(Step(k, policy, e)) <==>
            !((e.ResumeExit? || e.ResumeHolder?) && k.newcomers != [] && k.planned <= k.degree && k.longTokens == 0)
  {
  }

  /** Without irregular kills no handler ever waits. */
  lemma {:induction false} NobodyWaits(k: Kernel)
    requires Inv(k) && k.newKills == 0 && k.waitKills == 0
    ensures k.exitWaits == 0 && k.holder == Nobody && k.cpuTokens == FreeCpus(k.cpus) + k.strayTokens
          && PlannerPending(k)
  {
  }

  /** A signal on a semaphore with waiters moves exactly its first waiter to the end of the ready queue. */
  lemma {:induction false} SignalWakesFirst(k: Kernel, name: string)
    requires Inv(k) && name in k.semaphores && k.semaphores[name].count < 0
    ensures var k', s := DoSignal(k, name), k.semaphores[name];
            && s.queue != [] && s.queue[0] in k.blocked
            && k'.ready == k.ready + [s.queue[0]] && s.queue[0] !in k'.blocked
            && k'.semaphores[name].queue == s.queue[1..]
            && |k'.blocked| == |k.blocked| - 1 && k'.readyTokens == k.readyTokens + 1
  {
    OnceEach(k);
    SignalSemaphores(k.semaphores, k.blocked, name);
    var head := k.semaphores[name].queue[0];
    assert multiset(Without(k.blocked, head))[head] == 0;
  }

  ghost predicate Precedes(queue: seq<int>, p: int, q: int) {
    exists i, j :: 0 <= i < j < |queue| && queue[i] == p && queue[j] == q
  }

  lemma {:induction false} RemovalKeepsOrder(queue: seq<int>, at: int, p: int, q: int)
    requires 0 <= at < |queue| && Precedes(queue, p, q) && NoDuplicates(queue) && queue[at] != p && queue[at] != q
    ensures Precedes(RemoveAt(queue, at), p, q)
  {
    var i, j :| 0 <= i < j < |queue| && queue[i] == p && queue[j] == q;
    var i', j' := if i < at then i else i - 1, if j < at then j else j - 1;
    assert RemoveAt(queue, at)[i'] == p && RemoveAt(queue, at)[j'] == q;
  }

  /** A semaphore's queue only ever loses its head to a signal, loses a killed process or grows at its end. */
  lemma {:induction false} QueueChange(k: Kernel, policy: Policy, e: Event, name: string)
    requires Enabled(k, e) && name in k.semaphores
    ensures name in Step(k, policy, e).semaphores
    ensures var queue, queue' := k.semaphores[name].queue, Step(k, policy, e).semaphores[name].queue;
            || (e == Signal(name) && queue != [] && queue' == queue[1..])
            || (e.Kill? && e.pid in queue && queue' == RemoveAt(queue, IndexOf(queue, e.pid)))
            || queue <= queue'
  {
    match e
    case Signal(_) =>
    case Kill(_) =>
    case EndInstruction(fd) => InstructionQueues(k, policy, fd, name);
    case _ => assert Step(k, policy, e).semaphores == k.semaphores;
  }

  lemma {:induction false} InstructionQueues(k: Kernel, policy: Policy, fd: int, name: string)
    requires Enabled(k, EndInstruction(fd)) && name in k.semaphores
    ensures name in DoEndInstruction(k, policy, fd).semaphores
    ensures k.semaphores[name].queue <= DoEndInstruction(k, policy, fd).semaphores[name].queue
  {
  }

  /** Nobody overtakes in a semaphore's queue: while both wait they keep their order, and the later
      one leaves before the earlier one only by being killed. */
  lemma {:induction false} NoOvertaking(k: Kernel, policy: Policy, e: Event, name: string, p: int, q: int)
    requires Inv(k) && Enabled(k, e) && name in k.semaphores && Precedes(k.semaphores[name].queue, p, q)
    ensures name in Step(k, policy, e).semaphores
    ensures var queue' := Step(k, policy, e).semaphores[name].queue;
            && (p in queue' && q in queue' ==> Precedes(queue', p, q))
            && (q !in queue' ==> e == Kill(q))
  {
    QueueChange(k, policy, e, name);
    assert NoDuplicates(k.semaphores[name].queue);
    OrderKept(k.semaphores[name].queue, Step(k, policy, e).semaphores[name].queue, p, q, e);
  }

  /** p is in the queue of a semaphore before and after every event. */
  ghost predicate Waits(k: Kernel, policy: Policy, events: seq<Event>, name: string, p: int)
    requires CanRun(k, policy, events)
    decreases |events|
  {
    && name in k.semaphores && p in k.semaphores[name].queue
    && (events != [] ==> Waits(Step(k, policy, events[0]), policy, events[1..], name, p))
  }

  /** First come, first served: as long as p waits, nobody behind it leaves the queue except by being killed,
      over any sequence of events. */
  lemma {:induction false} FirstComeFirstServed(k: Kernel, policy: Policy, events: seq<Event>, name: string, p: int,
                                                q: int)
    requires Inv(k) && CanRun(k, policy, events) && Waits(k, policy, events, name, p)
    requires Precedes(k.semaphores[name].queue, p, q) && Kill(q) !in events
    ensures name in After(k, policy, events).semaphores
          && Precedes(After(k, policy, events).semaphores[name].queue, p, q)
    decreases |events|
  {
    if events != [] {
      NoOvertaking(k, policy, events[0], name, p, q);
      StepKeeps(k, policy, events[0]);
      assert Waits(Step(k, policy, events[0]), policy, events[1..], name, p);
      FirstComeFirstServed(Step(k, policy, events[0]), policy, events[1..], name, p, q);
    }
  }

  lemma {:induction false} OrderKept(queue: seq<int>, queue': seq<int>, p: int, q: int, e: Event)
    requires NoDuplicates(queue) && Precedes(queue, p, q)
    requires || (e.Signal? && queue' == queue[1..])
             || (e.Kill? && e.pid in queue && queue' == RemoveAt(queue, IndexOf(queue, e.pid)))
             || queue <= queue'
    ensures p in queue' && q in queue' ==> Precedes(queue', p, q)
    ensures q !in queue' ==> e == Kill(q)
  {
    var i, j :| 0 <= i < j < |queue| && queue[i] == p && queue[j] == q;
    if queue <= queue' {
      assert queue'[i] == p && queue'[j] == q;
    } else if e.Signal? {
      assert queue'[j - 1] == q;
      if i > 0 {
        assert queue'[i - 1] == p;
      }
    } else {
      var at := IndexOf(queue, e.pid);
      RemoveAtFacts(queue, at);
      if e.pid != p && e.pid != q {
        RemovalKeepsOrder(queue, at, p, q);
      }
    }
  }

  // ---- kills of a process on a CPU ----

  /** The process on this CPU is marked for a kill. */
  predicate Marked(k: Kernel, fd: int, pid: int) {
    var i := CpuAt(k.cpus, fd);
    i < |k.cpus| && k.cpus[i].pcb == Some(pid) && k.cpus[i].kill
  }

  /** The end of the instruction finds a wait on a semaphore without units. */
  predicate Blocks(k: Kernel, fd: int) {
    var i := CpuAt(k.cpus, fd);
    i < |k.cpus| && k.cpus[i].waiting && k.cpus[i].semaphore in k.semaphores
      && k.semaphores[k.cpus[i].semaphore].count <= 0
  }

  /** A killed process reaches the finished queue when its instruction ends unless that instruction is
      a wait that blocks; then an empty place is queued instead and the process stays blocked. */
  lemma {:induction false} KillMeetsWait(k: Kernel, policy: Policy, fd: int)
    requires Inv(k) && Enabled(k, EndInstruction(fd)) && k.cpus[CpuAt(k.cpus, fd)].kill
    ensures var c, k' := k.cpus[CpuAt(k.cpus, fd)], DoEndInstruction(k, policy, fd);
            && k'.finished == k.finished + [if Blocks(k, fd) then None else c.pcb]
            && (c.pcb in k'.finished <==> !Blocks(k, fd))
            && (c.pcb.value in k'.blocked <==> Blocks(k, fd))
  {
    var i := CpuAt(k.cpus, fd);
    var pid := k.cpus[i].pcb.value;
    AssignedAt(k.cpus, i);
    assert Places(k, pid) <= 1;
    assert multiset(k.finished)[Some(pid)] == 0 && multiset(k.blocked)[pid] == 0;
  }

  /** The process of a CPU is nowhere else. */
  lemma {:induction false} OnlyThere(k: Kernel, i: int)
    requires Inv(k) && 0 <= i < |k.cpus| && k.cpus[i].pcb.Some?
    ensures var pid := k.cpus[i].pcb.value;
            && pid !in k.newcomers && pid !in k.ready && pid !in k.blocked && Some(pid) !in k.finished
            && forall j :: 0 <= j < |k.cpus| && k.cpus[j].pcb == Some(pid) ==> j == i
  {
    var pid := k.cpus[i].pcb.value;
    AssignedAt(k.cpus, i);
    assert Places(k, pid) == 1;
    var rest := k.cpus[i := Released(k.cpus[i])];
    CpuUpdate(k.cpus, i, Released(k.cpus[i]), pid);
    forall j | 0 <= j < |k.cpus| && k.cpus[j].pcb == Some(pid) ensures j == i {
      if j != i {
        AssignedAt(rest, j);
      }
    }
    assert multiset(k.newcomers)[pid] == 0 && multiset(k.ready)[pid] == 0 && multiset(k.blocked)[pid] == 0;
    assert multiset(k.finished)[Some(pid)] == 0;
  }

  /** The process is on this CPU as before, and in no queue. */
  ghost predicate Untouched(k: Kernel, k': Kernel, c: Cpu) {
    && c in k'.cpus && c.pcb.Some? && c.pcb.value !in k'.ready && c.pcb.value !in k'.blocked && c.pcb !in k'.finished
  }

  lemma {:induction false} CpuFound(cpus: seq<Cpu>, c: Cpu)
    requires CpusOk(cpus) && c in cpus
    ensures CpuAt(cpus, c.fd) < |cpus| && cpus[CpuAt(cpus, c.fd)] == c
  {
  }

  lemma {:induction false} RemovalLeaves(k: Kernel, fd: int, i: int)
    requires Inv(k) && 0 <= i < |k.cpus| && k.cpus[i].pcb.Some? && k.cpus[i].fd != fd && CpuAt(k.cpus, fd) < |k.cpus|
    ensures Untouched(k, DoLose(k, fd), k.cpus[i])
  {
    OnlyThere(k, i);
    assert DoLose(k, fd).cpus[if CpuAt(k.cpus, fd) < i then i - 1 else i] == k.cpus[i];
  }

  lemma {:induction false} InstructionLeaves(k: Kernel, policy: Policy, fd: int, i: int)
    requires Inv(k) && Enabled(k, EndInstruction(fd)) && 0 <= i < |k.cpus| && k.cpus[i].pcb.Some? && k.cpus[i].fd != fd
    ensures Untouched(k, DoEndInstruction(k, policy, fd), k.cpus[i])
  {
    OnlyThere(k, i);
    var j := CpuAt(k.cpus, fd);
    assert k.cpus[j].pcb != k.cpus[i].pcb;
    InstructionFrame(k, policy, fd, i);
  }

  /** The end of an instruction leaves other CPUs and only moves the process of its own. */
  lemma {:induction false} InstructionFrame(k: Kernel, policy: Policy, fd: int, i: int)
    requires Enabled(k, EndInstruction(fd)) && 0 <= i < |k.cpus| && i != CpuAt(k.cpus, fd)
    ensures var k', pcb := DoEndInstruction(k, policy, fd), k.cpus[CpuAt(k.cpus, fd)].pcb;
            && |k'.cpus| == |k.cpus| && k'.cpus[i] == k.cpus[i]
            && (forall p :: p in k'.ready ==> p in k.ready || Some(p) == pcb)
            && (forall p :: p in k'.blocked ==> p in k.blocked || Some(p) == pcb)
            && (forall p :: p in k'.finished ==> p in k.finished || p == pcb || p == None)
  {
  }

  lemma {:induction false} KillLeaves(k: Kernel, pid: int, i: int)
    requires Inv(k) && k.holder == Nobody && 0 <= i < |k.cpus| && k.cpus[i].pcb.Some? && k.cpus[i].kill
    ensures Untouched(k, DoKill(k, pid), k.cpus[i])
  {
    OnlyThere(k, i);
    assert DoKill(k, pid).cpus[i] == k.cpus[i];
  }

  /** The record of a marked process after an event that is not the end of its program or instruction and does not
      take its CPU away. */
  lemma {:induction false} OthersLeave(k: Kernel, policy: Policy, e: Event, i: int)
    requires Inv(k) && Enabled(k, e) && 0 <= i < |k.cpus| && k.cpus[i].pcb.Some? && k.cpus[i].kill
    requires e !in {Terminate(k.cpus[i].fd), EndInstruction(k.cpus[i].fd), Disconnect(k.cpus[i].fd), Lose(k.cpus[i].fd)}
    ensures var c := k.cpus[i];
            Untouched(k, Step(k, policy, e),
                      if e.Wait? && e.fd == c.fd then c.(waiting := true, semaphore := e.semaphore) else c)
  {
    OnlyThere(k, i);
    match e
    case Disconnect(fd) => RemovalLeaves(k, fd, i);
    case Lose(fd) => RemovalLeaves(k, fd, i);
    case EndInstruction(fd) => InstructionLeaves(k, policy, fd, i);
    case Kill(pid) => KillLeaves(k, pid, i);
    case Wait(fd, name) => assert Step(k, policy, e).cpus[i].fd == k.cpus[i].fd;
    case _ => assert Step(k, policy, e).cpus[i] == k.cpus[i];
  }

  /** The end of its program finishes it, and the loss of its CPU makes it ready; nobody runs it then. */
  lemma {:induction false} MarkEnds(k: Kernel, policy: Policy, e: Event, fd: int, pid: int)
    requires Inv(k) && Marked(k, fd, pid) && (e == Terminate(fd) || e == Disconnect(fd) || e == Lose(fd))
    ensures Enabled(k, e)
    ensures var k' := Step(k, policy, e);
            && !Marked(k', fd, pid) && pid !in k'.blocked
            && (Some(pid) in k'.finished <==> e == Terminate(fd)) && (pid in k'.ready <==> e != Terminate(fd))
  {
    OnlyThere(k, CpuAt(k.cpus, fd));
  }

  /** A mark is on the CPU's record. It takes effect exactly when the program ends or its instruction does
      without blocking; it is lost, and the process lives on, exactly when the instruction blocks or the CPU
      leaves; any other event leaves it. */
  lemma {:induction false} MarkTakesEffectIff(k: Kernel, policy: Policy, e: Event, fd: int, pid: int)
    requires Inv(k) && Enabled(k, e) && Marked(k, fd, pid)
    ensures var k' := Step(k, policy, e);
            && (Some(pid) in k'.finished <==> e == Terminate(fd) || (e == EndInstruction(fd) && !Blocks(k, fd)))
            && (Marked(k', fd, pid) <==> e !in {Terminate(fd), EndInstruction(fd), Disconnect(fd), Lose(fd)})
            && (pid in k'.ready <==> e == Disconnect(fd) || e == Lose(fd))
            && (pid in k'.blocked <==> e == EndInstruction(fd) && Blocks(k, fd))
  {
    var i, k' := CpuAt(k.cpus, fd), Step(k, policy, e);
    if e == Terminate(fd) || e == Disconnect(fd) || e == Lose(fd) {
      MarkEnds(k, policy, e, fd, pid);
    } else if e == EndInstruction(fd) {
      OnlyThere(k, i);
      KillMeetsWait(k, policy, fd);
      assert k'.cpus[i].pcb == None;
    } else {
      OthersLeave(k, policy, e, i);
      StepKeeps(k, policy, e);
      var c := k.cpus[i];
      CpuFound(k'.cpus, if e.Wait? && e.fd == fd then c.(waiting := true, semaphore := e.semaphore) else c);
    }
  }

  /** A wait that is noted on a CPU goes with it: the process is ready again and took no unit. */
  lemma {:induction false} WaitIsForgotten(k: Kernel, policy: Policy, e: Event, fd: int)
    requires Inv(k) && Busy(k, fd) && k.cpus[CpuAt(k.cpus, fd)].waiting && (e == Disconnect(fd) || e == Lose(fd))
    ensures Enabled(k, e) && Step(k, policy, e).semaphores == k.semaphores
          && CpuAt(Step(k, policy, e).cpus, fd) == |k.cpus| - 1
    ensures k.cpus[CpuAt(k.cpus, fd)].pcb.value in Step(k, policy, e).ready
  {
  }
}
