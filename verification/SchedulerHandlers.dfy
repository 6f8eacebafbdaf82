/**
 The scheduling handlers as the kernel runs them, updating queues, CPU records and counting
 semaphores in place. Each one is proved to make exactly its step of the Scheduler machine,
 and so to keep that machine's invariant.
 */
module SchedulerHandlers {
  import opened Lists
  import opened Scheduler
  import opened SchedulerLaws

  class KernelState {
    const policy: Policy
    var newcomers: seq<int>
    var ready: seq<int>
    var blocked: seq<int>
    var finished: seq<Option<int>>
    var cpus: seq<Cpu>
    var semaphores: map<string, Semaphore>
    var nextPid: int
    var readyTokens: int
    var cpuTokens: int
    var longTokens: int
    var planned: int
    var degree: int
    var exitWaits: int
    var holder: Holder
    ghost var drains: int
    ghost var newKills: int
    ghost var waitKills: int
    ghost var resumes: int
    ghost var idleLosses: int
    ghost var strayTokens: int
    ghost var dropped: seq<int>
    ghost var topDegree: int

    ghost function State(): Kernel
      reads this
    {
      Kernel(newcomers, ready, blocked, finished, cpus, semaphores, nextPid, readyTokens, cpuTokens, longTokens,
             planned, degree, exitWaits, holder, drains, newKills, waitKills, resumes, idleLosses, strayTokens,
             dropped, topDegree)
    }

    constructor (policy: Policy, semaphores: map<string, Semaphore>, degree: int)
      requires degree >= 0
      requires forall n :: n in semaphores ==> semaphores[n].queue == [] && semaphores[n].count >= 0
      ensures Init(State()) && Inv(State()) && this.policy == policy && this.semaphores == semaphores
            && this.degree == degree
    {
      this.policy, this.semaphores, this.degree := policy, semaphores, degree;
      newcomers, ready, blocked, finished, cpus, nextPid := [], [], [], [], [], 1;
      readyTokens, cpuTokens, longTokens, planned, exitWaits, holder := 0, 0, 0, 0, 0, Nobody;
      drains, newKills, waitKills, resumes, idleLosses, strayTokens, dropped, topDegree := 0, 0, 0, 0, 0, 0, [], degree;
      new;
      InitOk(State());
    }

    /** solicitudes.c, OC_SOLICITUD_PROGRAMA_NUEVO: a process that was nowhere is NEW. */
    method SubmitProgram() returns (pid: int)
      requires Inv(State())
      modifies this`nextPid, this`newcomers, this`longTokens
      ensures Inv(State()) && State() == DoSubmit(old(State())) && longTokens == old(longTokens) + 1
      ensures Moves(old(State()), State(), pid, Nowhere, InNew)
    {
      SubmitKeeps(State());
      SubmitMoves(State());
      pid := QueueProgram();
    }

    method QueueProgram() returns (pid: int)
      modifies this`nextPid, this`newcomers, this`longTokens
      ensures State() == DoSubmit(old(State())) && pid == old(nextPid)
    {
      pid := nextPid;
      nextPid := nextPid + 1;
      newcomers := newcomers + [pid];
      longTokens := longTokens + 1;
    }

    /** cola_listos_push */
    method PushReady(pid: int)
      modifies this`ready, this`readyTokens
      ensures ready == old(ready) + [pid] && readyTokens == old(readyTokens) + 1
    {
      ready := ready + [pid];
      readyTokens := readyTokens + 1;
    }

    /** pasarDeNewAReady, after the long-term planner took a token: the oldest NEW process is admitted, or
        finished if memory has no room for it, exactly when the planned count is below the degree. */
    method NewToReady(fits: bool)
      requires Inv(State()) && longTokens > 0
      modifies this`newcomers, this`ready, this`readyTokens, this`finished, this`planned, this`longTokens
      ensures Inv(State()) && State() == DoAdmit(old(State()), fits)
      ensures if old(planned < degree && newcomers != [])
              then Moves(old(State()), State(), old(newcomers)[0], InNew, if fits then InReady else InFinished)
              else Stays(old(State()), State())
    {
      AdmitKeeps(State(), fits);
      AdmitMoves(State(), fits);
      AdmitHead(fits);
    }

    method AdmitHead(fits: bool)
      requires longTokens > 0
      modifies this`newcomers, this`ready, this`readyTokens, this`finished, this`planned, this`longTokens
      ensures var k := DoAdmit(old(State()), fits);
              && newcomers == k.newcomers && ready == k.ready && readyTokens == k.readyTokens
              && finished == k.finished && planned == k.planned && longTokens == k.longTokens
    {
      longTokens := longTokens - 1;
      var count := planned;
      if count < degree && |newcomers| > 0 {
        var pid := newcomers[0];
        newcomers := newcomers[1..];
        if !fits {
          finished := finished + [Some(pid)];
          longTokens := longTokens + 1;
        } else {
          PushReady(pid);
          planned := planned + 1;
          if count < degree {
            longTokens := longTokens + 1;
          }
        }
      }
    }

    method FindFreeCpu() returns (i: int)
      ensures i == FirstFree(cpus)
    {
      i := 0;
      while i < |cpus| && !cpus[i].free
        invariant 0 <= i <= FirstFree(cpus)
      {
        i := i + 1;
      }
    }

    /** pasarDeReadyAExecute */
    method ReadyToExecute()
      requires readyTokens > 0 && cpuTokens > 0
      modifies this`ready, this`readyTokens, this`cpus, this`cpuTokens, this`drains, this`strayTokens, this`dropped
      ensures var k := DoDispatch(old(State()));
              && ready == k.ready && readyTokens == k.readyTokens && cpus == k.cpus && cpuTokens == k.cpuTokens
              && drains == k.drains && strayTokens == k.strayTokens && dropped == k.dropped
    {
      readyTokens, cpuTokens := readyTokens - 1, cpuTokens - 1;
      var pcb := None;
      if ready == [] {
        drains := drains - 1;
      } else {
        pcb, ready := Some(ready[0]), ready[1..];
      }
      var i := FindFreeCpu();
      if i == |cpus| {
        strayTokens, dropped := strayTokens - 1, if pcb.Some? then dropped + [pcb.value] else dropped;
      } else if pcb.Some? {
        cpus := cpus[i := cpus[i].(free := false, pcb := pcb)];
      } else {
        cpuTokens := cpuTokens + 1;
      }
    }

    /** manage_select, on a new CPU connection */
    method ConnectCpu(fd: int)
      requires CpuAt(cpus, fd) == |cpus|
      modifies this`cpus, this`cpuTokens
      ensures State() == DoConnect(old(State()), fd)
    {
      cpus := cpus + [Cpu(fd, true, None, 0, false, false, "")];
      cpuTokens := cpuTokens + 1;
    }

    /** solicitudes.c, OC_FUNCION_SIGNAL: the first waiter becomes ready exactly when somebody waits. */
    method SignalSemaphore(name: string)
      requires Inv(State()) && name in semaphores
      modifies this`semaphores, this`blocked, this`ready, this`readyTokens
      ensures Inv(State()) && State() == DoSignal(old(State()), name)
      ensures if old(semaphores)[name].count < 0
              then old(semaphores)[name].queue != []
                && Moves(old(State()), State(), old(semaphores)[name].queue[0], InBlocked, InReady)
              else Stays(old(State()), State())
    {
      SignalKeeps(State(), name);
      SignalMovesOne(State(), name);
      if semaphores[name].count < 0 {
        SignalWakesFirst(State(), name);
      }
      SignalQueues(name);
    }

    method SignalQueues(name: string)
      requires name in semaphores
      requires semaphores[name].count < 0 ==> semaphores[name].queue != [] && semaphores[name].queue[0] in blocked
      modifies this`semaphores, this`blocked, this`ready, this`readyTokens
      ensures State() == DoSignal(old(State()), name)
    {
      var s := semaphores[name];
      s := s.(count := s.count + 1);
      if s.count <= 0 {
        var pid := s.queue[0];
        s := s.(queue := s.queue[1..]);
        BlockedToReady(pid);
        readyTokens := readyTokens + 1;
      }
      semaphores := semaphores[name := s];
    }

    /** pasarDeBlockedAReady */
    method BlockedToReady(pid: int)
      requires pid in blocked
      modifies this`blocked, this`ready
      ensures blocked == Without(old(blocked), pid) && ready == old(ready) + [pid]
    {
      blocked := Without(blocked, pid);
      ready := ready + [pid];
    }

    /** solicitudes.c, OC_FUNCION_WAIT: only notes the wait; nobody moves before the instruction ends. */
    method WaitSemaphore(fd: int, name: string)
      requires Inv(State()) && Busy(State(), fd) && name in semaphores
      modifies this`cpus
      ensures Inv(State()) && Stays(old(State()), State()) && State() == DoWait(old(State()), fd, name)
    {
      ghost var k := State();
      var i := CpuAt(cpus, fd);
      cpus := cpus[i := cpus[i].(semaphore := name, waiting := true)];
      WaitKeeps(k, fd, name);
      WaitStays(k, fd, name);
    }

    /** liberar_cpu */
    method ReleaseCpu(i: int)
      requires 0 <= i < |cpus|
      modifies this`cpus
      ensures cpus == old(cpus)[i := Released(old(cpus)[i])]
    {
      cpus := cpus[i := cpus[i].(free := true, quantum := 0, pcb := None, kill := false, waiting := false)];
    }

    /** pasarDeExecuteAExit, and the CPU token that its callers post unless they are left waiting in it */
    method ExecuteToExit(i: int, locked: bool)
      requires 0 <= i < |cpus|
      modifies this`finished, this`cpus, this`longTokens, this`planned, this`cpuTokens, this`exitWaits, this`holder
      ensures var k := Scheduler.ExecuteToExit(old(State()), i, locked);
              && finished == k.finished && cpus == k.cpus && longTokens == k.longTokens && planned == k.planned
              && cpuTokens == k.cpuTokens && exitWaits == k.exitWaits && holder == k.holder
    {
      finished := finished + [cpus[i].pcb];
      ReleaseCpu(i);
      longTokens := longTokens + 1;
      if planned > 0 {
        planned := planned - 1;
        cpuTokens := cpuTokens + 1;
      } else if locked {
        holder := AnExit;
      } else {
        exitWaits := exitWaits + 1;
      }
    }

    /** continuar_procesando */
    method GoesOn(i: int) returns (more: bool)
      requires 0 <= i < |cpus|
      modifies this`cpus
      ensures more == (!policy.roundRobin || old(cpus)[i].quantum + 1 < policy.quantum)
      ensures cpus == if policy.roundRobin then old(cpus)[i := old(cpus)[i].(quantum := old(cpus)[i].quantum + 1)]
                else old(cpus)
    {
      if policy.roundRobin {
        cpus := cpus[i := cpus[i].(quantum := cpus[i].quantum + 1)];
        return cpus[i].quantum < policy.quantum;
      }
      return true;
    }

    /** solicitudes.c, OC_TERMINO_INSTRUCCION: the CPU is told to go on exactly if its process was not killed, does
        not block and has quantum left, and then the process is still its; otherwise, unless it was killed or
        blocks, it is the last that is ready. */
    method InstructionEnded(fd: int) returns (goesOn: bool)
      requires Inv(State()) && Enabled(State(), EndInstruction(fd))
      modifies this`semaphores, this`blocked, this`ready, this`readyTokens, this`cpus, this`cpuTokens, this`finished,
           this`longTokens, this`planned, this`exitWaits, this`holder, this`waitKills
      ensures Inv(State()) && State() == DoEndInstruction(old(State()), policy, fd)
      ensures var c := old(cpus)[CpuAt(old(cpus), fd)];
              && (goesOn <==> !c.kill && !old(Blocks(State(), fd))
                              && (!policy.roundRobin || c.quantum + 1 < policy.quantum))
              && (goesOn ==> Runs(State(), fd, c.pcb.value, if policy.roundRobin then c.quantum + 1 else c.quantum)
                             && ready == old(ready))
              && (!goesOn && !c.kill && !old(Blocks(State(), fd)) ==>
                    Preempted(old(State()), State(), fd, c.pcb.value))
    {
      EndInstructionKeeps(State(), policy, fd);
      ghost var c := cpus[CpuAt(cpus, fd)];
      if !c.kill && !Blocks(State(), fd) {
        EndOfTurn(State(), policy, fd, c.pcb.value, c.quantum);
      }
      goesOn := EndTheInstruction(fd);
    }

    method EndTheInstruction(fd: int) returns (goesOn: bool)
      requires Enabled(State(), EndInstruction(fd))
      modifies this`semaphores, this`blocked, this`ready, this`readyTokens, this`cpus, this`cpuTokens, this`finished,
           this`longTokens, this`planned, this`exitWaits, this`holder, this`waitKills
      ensures State() == DoEndInstruction(old(State()), policy, fd)
      ensures var c := old(cpus)[CpuAt(old(cpus), fd)];
              goesOn <==> !c.kill && !old(Blocks(State(), fd))
                          && (!policy.roundRobin || c.quantum + 1 < policy.quantum)
    {
      var i := CpuAt(cpus, fd);
      if cpus[i].waiting {
        TakeOrBlock(i);
      }
      goesOn := ConcludeInstruction(i);
    }

    /** FinishInstruction states the fields that it changes; here they are the whole state. */
    method ConcludeInstruction(i: int) returns (goesOn: bool)
      requires 0 <= i < |cpus| && (cpus[i].waiting <==> cpus[i].pcb.None?)
      modifies this`ready, this`readyTokens, this`cpus, this`cpuTokens, this`finished, this`longTokens
      modifies this`planned, this`exitWaits, this`holder, this`waitKills
      ensures State() == Conclude(old(State()), policy, i)
      ensures var c := old(cpus)[i];
              goesOn <==> !c.kill && !c.waiting && (!policy.roundRobin || c.quantum + 1 < policy.quantum)
    {
      goesOn := FinishInstruction(i);
    }

    method TakeOrBlock(i: int)
      requires 0 <= i < |cpus| && cpus[i].pcb.Some? && cpus[i].semaphore in semaphores
      modifies this`semaphores, this`blocked, this`cpus
      ensures State() == SettleWait(old(State()), i)
    {
      var name := cpus[i].semaphore;
      var s := semaphores[name];
      s := s.(count := s.count - 1);
      if s.count < 0 {
        s := s.(queue := s.queue + [cpus[i].pcb.value]);
        blocked := blocked + [cpus[i].pcb.value];  // pasarDeExecuteABlocked
        cpus := cpus[i := cpus[i].(pcb := None)];
      } else {
        cpus := cpus[i := cpus[i].(waiting := false)];
      }
      semaphores := semaphores[name := s];
    }

    method FinishInstruction(i: int) returns (goesOn: bool)
      requires 0 <= i < |cpus| && (cpus[i].waiting <==> cpus[i].pcb.None?)
      modifies this`ready, this`readyTokens, this`cpus, this`cpuTokens, this`finished, this`longTokens, this`planned,
           this`exitWaits, this`holder, this`waitKills
      ensures var k := Conclude(old(State()), policy, i);
              && ready == k.ready && readyTokens == k.readyTokens && cpus == k.cpus && cpuTokens == k.cpuTokens
              && finished == k.finished && longTokens == k.longTokens && planned == k.planned
              && exitWaits == k.exitWaits && holder == k.holder && waitKills == k.waitKills
      ensures var c := old(cpus)[i];
              goesOn <==> !c.kill && !c.waiting && (!policy.roundRobin || c.quantum + 1 < policy.quantum)
    {
      goesOn := false;
      var release := false;
      if !cpus[i].kill {
        if cpus[i].waiting {
          release := true;
        } else {
          goesOn := GoesOn(i);
          if !goesOn {
            PushReady(cpus[i].pcb.value);
            release := true;
          }
        }
      }
      if release {
        ReleaseCpu(i);
        cpuTokens := cpuTokens + 1;
      } else if cpus[i].kill {
        waitKills := waitKills + if cpus[i].waiting then 1 else 0;
        ExecuteToExit(i, true);
      }
    }

    /** solicitudes.c, OC_TERMINA_PROGRAMA and OC_ERROR_EJECUCION_CPU: the process is finished; the handler posts
        the token of its CPU, or owes it and waits exactly when no planned count is left. */
    method ProgramEnded(fd: int)
      requires Inv(State()) && Busy(State(), fd)
      modifies this`cpus, this`cpuTokens, this`finished, this`longTokens, this`planned, this`exitWaits, this`holder
      ensures Inv(State()) && State() == DoTerminate(old(State()), fd)
      ensures Moves(old(State()), State(), old(cpus)[CpuAt(old(cpus), fd)].pcb.value, OnCpu, InFinished)
      ensures EndsAs(old(State()), State(), Terminate(fd), old(planned) == 0)
    {
      TerminateKeeps(State(), fd);
      TerminateMoves(State(), fd);
      ExitEnds(State(), DoTerminate(State(), fd), CpuAt(cpus, fd), Terminate(fd));
      ExitFrom(fd);
    }

    method ExitFrom(fd: int)
      requires Busy(State(), fd)
      modifies this`cpus, this`cpuTokens, this`finished, this`longTokens, this`planned, this`exitWaits, this`holder
      ensures State() == DoTerminate(old(State()), fd)
    {
      ExecuteToExit(CpuAt(cpus, fd), false);
    }

    /** solicitudes.c, OC_DESCONEX_CPU: its process is ready again. */
    method CpuDisconnected(fd: int)
      requires Inv(State()) && Busy(State(), fd)
      modifies this`ready, this`readyTokens, this`cpus
      ensures Inv(State()) && State() == DoDisconnect(old(State()), fd)
      ensures Moves(old(State()), State(), old(cpus)[CpuAt(old(cpus), fd)].pcb.value, OnCpu, InReady)
    {
      LoseKeeps(State(), fd);
      LoseMoves(State(), fd);
      RemoveBusyCpu(fd);
    }

    /** pasarDeExecuteAReady, then eliminar_cpu */
    method RemoveBusyCpu(fd: int)
      requires Busy(State(), fd)
      modifies this`ready, this`readyTokens, this`cpus
      ensures State() == DoDisconnect(old(State()), fd)
    {
      var i := CpuAt(cpus, fd);
      var pid := cpus[i].pcb.value;
      ReleaseCpu(i);
      PushReady(pid);
      cpus := RemoveAt(cpus, i);
      assert cpus == RemoveAt(old(cpus), i);
    }

    /** manage_select, on a broken CPU connection: its process, if it has one, is ready again; the token of a
        free CPU stays. */
    method CpuLost(fd: int)
      requires Inv(State()) && CpuAt(cpus, fd) < |cpus|
      modifies this`ready, this`readyTokens, this`cpus, this`idleLosses, this`strayTokens
      ensures Inv(State()) && State() == DoLose(old(State()), fd)
      ensures var c := old(cpus)[CpuAt(old(cpus), fd)];
              if c.pcb.Some? then Moves(old(State()), State(), c.pcb.value, OnCpu, InReady)
              else Stays(old(State()), State())
    {
      LoseKeeps(State(), fd);
      LoseMoves(State(), fd);
      RemoveLostCpu(fd);
    }

    method RemoveLostCpu(fd: int)
      requires CpuAt(cpus, fd) < |cpus|
      modifies this`ready, this`readyTokens, this`cpus, this`idleLosses, this`strayTokens
      ensures State() == DoLose(old(State()), fd)
    {
      var i := CpuAt(cpus, fd);
      if cpus[i].pcb.Some? {
        PushReady(cpus[i].pcb.value);
      } else {
        idleLosses, strayTokens := idleLosses + 1, strayTokens + 1;
      }
      cpus := RemoveAt(cpus, i);
    }

    /** pasar_proceso_a_exit */
    method KillProcess(pid: int) returns (found: bool)
      requires Enabled(State(), Kill(pid))
      modifies this`newcomers, this`ready, this`blocked, this`semaphores, this`cpus, this`finished, this`longTokens,
           this`planned, this`holder, this`newKills, this`drains
      ensures var k := DoKill(old(State()), pid);
              && newcomers == k.newcomers && ready == k.ready && blocked == k.blocked && cpus == k.cpus
              && semaphores == k.semaphores && finished == k.finished && longTokens == k.longTokens
              && planned == k.planned && holder == k.holder && newKills == k.newKills && drains == k.drains
      ensures found <==> pid in old(newcomers) || pid in old(ready) || pid in old(blocked)
    {
      ghost var k := State();
      assert DoKill(k, pid) == if pid in k.newcomers then KillNew(k, pid) else if pid in k.ready then KillReady(k, pid)
                               else if pid in k.blocked then KillBlocked(k, pid) else KillRunning(k, pid);
      found := TakeFromQueues(pid);
      if found {
        finished := finished + [Some(pid)];
        longTokens := longTokens + 1;
        if planned > 0 {
          planned := planned - 1;
        } else {
          holder := AKill;
        }
      } else {
        var i := CpuRunning(cpus, pid);
        if i < |cpus| {
          cpus := cpus[i := cpus[i].(kill := true)];
        }
      }
    }

    method TakeFromQueues(pid: int) returns (found: bool)
      modifies this`newcomers, this`ready, this`blocked, this`semaphores, this`newKills, this`drains
      ensures found <==> pid in old(newcomers) || pid in old(ready) || pid in old(blocked)
      ensures newcomers == if pid in old(newcomers) then Without(old(newcomers), pid) else old(newcomers)
      ensures newKills == old(newKills) + if pid in old(newcomers) then 1 else 0
      ensures ready == if pid in old(newcomers) || pid !in old(ready) then old(ready) else Without(old(ready), pid)
      ensures drains == old(drains) + if pid in old(newcomers) || pid !in old(ready) then 0 else 1
      ensures blocked == if pid in old(newcomers) || pid in old(ready) then old(blocked) else Without(old(blocked), pid)
      ensures semaphores == if pid in old(newcomers) || pid in old(ready) || pid !in old(blocked) then old(semaphores)
                else Unqueued(old(semaphores), pid)
    {
      if pid in newcomers {
        newcomers, newKills := Without(newcomers, pid), newKills + 1;
        return true;
      }
      if pid in ready {
        ready, drains := Without(ready, pid), drains + 1;
        return true;
      }
      if pid in blocked {
        blocked := Without(blocked, pid);
        LeaveQueues(pid);
        return true;
      }
      return false;
    }

    /** The walk over the semaphore dictionary in pasar_proceso_a_exit. */
    method LeaveQueues(pid: int)
      modifies this`semaphores
      ensures semaphores == Unqueued(old(semaphores), pid)
    {
      var rest := semaphores.Keys;
      while rest != {}
        invariant rest <= semaphores.Keys == old(semaphores).Keys
        invariant forall n :: n in semaphores ==>
                  semaphores[n] == if n in rest then old(semaphores)[n] else Unqueued(old(semaphores), pid)[n]
        decreases rest
      {
        var name :| name in rest;
        var s := semaphores[name];
        if pid in s.queue {
          semaphores := semaphores[name := Semaphore(s.count + 1, Without(s.queue, pid))];
        }
        rest := rest - {name};
      }
    }

    /** The console's multiprogramming command */
    method SetMultiprogramming(n: int)
      modifies this`degree, this`longTokens, this`topDegree
      ensures State() == DoSetDegree(old(State()), n)
    {
      degree := n;
      longTokens := longTokens + 1;
      topDegree := if n > topDegree then n else topDegree;
    }

    method HandleLongTerm(e: Event)
      requires Inv(State()) && Enabled(State(), e) && (e.Submit? || e.Admit?)
      modifies this
      ensures State() == Step(old(State()), policy, e)
    {
      match e
      case Submit =>
        var pid := SubmitProgram();
      case Admit(fits) => NewToReady(fits);
    }

    /** A termination that waited for the planned count: nobody moves, one handler less waits, and the token that
        was owed is there. */
    method GoOnAfterExit()
      requires Inv(State()) && planned > 0 && exitWaits > 0
      modifies this`planned, this`exitWaits, this`cpuTokens, this`resumes
      ensures Inv(State()) && Stays(old(State()), State()) && State() == DoResumeExit(old(State()))
      ensures Waiters(State()) == Waiters(old(State())) - 1
      ensures cpuTokens + Owed(State()) == old(cpuTokens + Owed(State())) && Owed(State()) == old(Owed(State())) - 1
    {
      ResumeKeeps(State());
      ResumeStays(State());
      ResumeCounts(State());
      TakeCount();
    }

    method TakeCount()
      requires planned > 0 && exitWaits > 0
      modifies this`planned, this`exitWaits, this`cpuTokens, this`resumes
      ensures State() == DoResumeExit(old(State()))
    {
      planned, exitWaits, cpuTokens := planned - 1, exitWaits - 1, cpuTokens + 1;
      resumes := resumes + 1;
    }

    /** A kill or the end of a killed instruction that waited for it: nobody moves, one handler less waits, a token
        owed is there, and kills and ends of instructions are let in again. */
    method GoOnWithMutex()
      requires Inv(State()) && planned > 0 && holder != Nobody
      modifies this`planned, this`holder, this`cpuTokens, this`resumes
      ensures Inv(State()) && Stays(old(State()), State()) && State() == DoResumeHolder(old(State()))
      ensures Waiters(State()) == Waiters(old(State())) - 1
      ensures cpuTokens + Owed(State()) == old(cpuTokens + Owed(State()))
      ensures forall pid :: Enabled(State(), Kill(pid))
    {
      ResumeKeeps(State());
      ResumeStays(State());
      ResumeCounts(State());
      LeaveMutex();
    }

    method LeaveMutex()
      requires planned > 0 && holder != Nobody
      modifies this`planned, this`holder, this`cpuTokens, this`resumes
      ensures State() == DoResumeHolder(old(State()))
    {
      planned := planned - 1;
      if holder == AnExit {
        cpuTokens := cpuTokens + 1;
      }
      holder := Nobody;
      resumes := resumes + 1;
    }

    method HandleResume(e: Event)
      requires Inv(State()) && Enabled(State(), e) && (e.ResumeExit? || e.ResumeHolder?)
      modifies this
      ensures State() == Step(old(State()), policy, e)
    {
      match e
      case ResumeExit => GoOnAfterExit();
      case ResumeHolder => GoOnWithMutex();
    }

    method HandleDispatch()
      requires Enabled(State(), Dispatch)
      modifies this
      ensures State() == Step(old(State()), policy, Dispatch)
    {
      ReadyToExecute();
    }

    method HandleKill(pid: int)
      requires Enabled(State(), Kill(pid))
      modifies this
      ensures State() == Step(old(State()), policy, Kill(pid))
    {
      var found := KillProcess(pid);
    }

    method HandleCpuRequest(e: Event)
      requires Enabled(State(), e)
            && !(e.Submit? || e.Admit? || e.Dispatch? || e.Kill? || e.SetDegree? || e.ResumeExit? || e.ResumeHolder?)
      requires Inv(State())
      modifies this
      ensures State() == Step(old(State()), policy, e)
    {
      match e
      case Connect(fd) => ConnectCpu(fd);
      case Signal(name) => SignalSemaphore(name);
      case Wait(fd, name) => WaitSemaphore(fd, name);
      case EndInstruction(fd) =>
        var goesOn := InstructionEnded(fd);
      case Terminate(fd) => ProgramEnded(fd);
      case Disconnect(fd) => CpuDisconnected(fd);
      case Lose(fd) => CpuLost(fd);
    }

    /** Any handler, from any state the invariant allows. */
    method Handle(e: Event)
      requires Inv(State()) && Enabled(State(), e)
      modifies this
      ensures State() == Step(old(State()), policy, e) && Inv(State())
    {
      StepKeeps(State(), policy, e);
      if e.Submit? || e.Admit? {
        HandleLongTerm(e);
      } else if e.Dispatch? {
        HandleDispatch();
      } else if e.SetDegree? {
        SetMultiprogramming(e.n);
      } else if e.ResumeExit? || e.ResumeHolder? {
        HandleResume(e);
      } else if e.Kill? {
        HandleKill(e.pid);
      } else {
        HandleCpuRequest(e);
      }
    }
  }
}
