/**
 Runs of the kernel from its start in which something goes wrong.
 */
module SchedulerHistories {
  import opened Scheduler

  lemma {:induction false} RunSplit(k: Kernel, policy: Policy, first: seq<Event>, rest: seq<Event>)
    requires CanRun(k, policy, first) && CanRun(After(k, policy, first), policy, rest)
    ensures CanRun(k, policy, first + rest)
          && After(k, policy, first + rest) == After(After(k, policy, first), policy, rest)
    decreases |first|
  {
    if first == [] {
      assert first + rest == rest;
    } else {
      assert (first + rest)[1..] == first[1..] + rest;
      RunSplit(Step(k, policy, first[0]), policy, first[1..], rest);
    }
  }

  lemma {:induction false} OneStep(k: Kernel, policy: Policy, e: Event)
    requires Enabled(k, e)
    ensures CanRun(k, policy, [e]) && After(k, policy, [e]) == Step(k, policy, e)
  {
    var events, k1 := [e], Step(k, policy, e);
    assert events[1..] == [];
    assert CanRun(k1, policy, []) && After(k1, policy, []) == k1;
    assert CanRun(k, policy, events);
  }

  lemma {:induction false} TwoSteps(k: Kernel, policy: Policy, e: Event, e': Event)
    requires Enabled(k, e) && Enabled(Step(k, policy, e), e')
    ensures CanRun(k, policy, [e, e']) && After(k, policy, [e, e']) == Step(Step(k, policy, e), policy, e')
  {
    OneStep(k, policy, e);
    OneStep(Step(k, policy, e), policy, e');
    RunSplit(k, policy, [e], [e']);
    assert [e] + [e'] == [e, e'];
  }

  /** With degree 1, killing a NEW process lets two processes in. */
  lemma {:induction false} KillOfNewOvershoots(k: Kernel, policy: Policy)
    requires Init(k) && k.degree == k.topDegree == 1
    ensures var events := [Submit, Admit(true)] + [Submit, Kill(2)] + [Submit, Admit(true)];
            && CanRun(k, policy, events)
            && After(k, policy, events).ready == [1, 3]
            && Live(After(k, policy, events)) > After(k, policy, events).topDegree
  {
    var k2 := AdmitAnother(k, policy);
    var k4 := KillNewcomer(k2, policy);
    var k6 := AdmitAnother(k4, policy);
    RunSplit(k, policy, [Submit, Admit(true)], [Submit, Kill(2)]);
    RunSplit(k, policy, [Submit, Admit(true)] + [Submit, Kill(2)], [Submit, Admit(true)]);
  }

  lemma {:induction false} AdmitAnother(k: Kernel, policy: Policy) returns (k': Kernel)
    requires k.newcomers == [] && k.longTokens >= 0 && 0 <= k.planned < k.degree
    ensures k' == DoAdmit(DoSubmit(k), true) && CanRun(k, policy, [Submit, Admit(true)])
          && After(k, policy, [Submit, Admit(true)]) == k'
    ensures k'.newcomers == [] && k'.ready == k.ready + [k.nextPid] && k'.planned == k.planned + 1
          && k'.nextPid == k.nextPid + 1
    ensures k'.longTokens > 0 && k'.degree == k.degree && k'.topDegree == k.topDegree && k'.cpus == k.cpus
          && k'.blocked == k.blocked && k'.holder == k.holder
  {
    TwoSteps(k, policy, Submit, Admit(true));
    k' := DoAdmit(DoSubmit(k), true);
  }

  lemma {:induction false} KillNewcomer(k: Kernel, policy: Policy) returns (k': Kernel)
    requires k.newcomers == [] && k.planned > 0 && k.longTokens >= 0 && k.holder == Nobody
    ensures k' == KillNew(DoSubmit(k), k.nextPid) && CanRun(k, policy, [Submit, Kill(k.nextPid)])
          && After(k, policy, [Submit, Kill(k.nextPid)]) == k'
    ensures k'.newcomers == [] && k'.ready == k.ready && k'.planned == k.planned - 1 && k'.nextPid == k.nextPid + 1
    ensures k'.longTokens > 0 && k'.degree == k.degree && k'.topDegree == k.topDegree && k'.cpus == k.cpus
          && k'.blocked == k.blocked && k'.holder == k.holder
  {
    TwoSteps(k, policy, Submit, Kill(k.nextPid));
    k' := KillNew(DoSubmit(k), k.nextPid);
  }

  /** An idle CPU that vanishes costs the next dispatched process its existence. */
  lemma {:induction false} IdleLossDrops(k: Kernel, policy: Policy, fd: int)
    requires Init(k) && k.degree >= 1
    ensures var events := [Connect(fd), Lose(fd)] + [Submit, Admit(true)] + [Dispatch];
            CanRun(k, policy, events) && After(k, policy, events).dropped == [1]
  {
    TwoSteps(k, policy, Connect(fd), Lose(fd));
    var k2 := After(k, policy, [Connect(fd), Lose(fd)]);
    TwoSteps(k2, policy, Submit, Admit(true));
    RunSplit(k, policy, [Connect(fd), Lose(fd)], [Submit, Admit(true)]);
    var k4 := After(k2, policy, [Submit, Admit(true)]);
    OneStep(k4, policy, Dispatch);
    RunSplit(k, policy, [Connect(fd), Lose(fd)] + [Submit, Admit(true)], [Dispatch]);
  }

  /** A process waits on a semaphore at 0 and is killed before its instruction ends: it stays blocked, and
      what is queued as finished is no process. */
  lemma {:induction false} KillDuringWait(k: Kernel, policy: Policy, fd: int, name: string)
    requires Init(k) && k.degree >= 1 && name in k.semaphores && k.semaphores[name].count == 0
    ensures var events := [Submit, Admit(true)] + [Connect(fd), Dispatch] + [Wait(fd, name), Kill(1)]
                          + [EndInstruction(fd)];
            && CanRun(k, policy, events)
            && After(k, policy, events).finished == [None] && After(k, policy, events).blocked == [1]
  {
    var k2 := AdmitAnother(k, policy);
    TwoSteps(k2, policy, Connect(fd), Dispatch);
    var k4 := Step(Step(k2, policy, Connect(fd)), policy, Dispatch);
    assert k4.cpus == [Cpu(fd, false, Some(1), 0, false, false, "")];
    TwoSteps(k4, policy, Wait(fd, name), Kill(1));
    var k6 := Step(Step(k4, policy, Wait(fd, name)), policy, Kill(1));
    assert k6.cpus == [Cpu(fd, false, Some(1), 0, true, true, name)];
    OneStep(k6, policy, EndInstruction(fd));
    var a, b, c := [Submit, Admit(true)], [Connect(fd), Dispatch], [Wait(fd, name), Kill(1)];
    RunSplit(k, policy, a, b);
    RunSplit(k, policy, a + b, c);
    RunSplit(k, policy, a + b + c, [EndInstruction(fd)]);
  }

  // ---- a handler left waiting ----

  function OwedEvents(fd: int): seq<Event> {
    [Submit, Admit(true)] + [Connect(fd), Dispatch] + [Submit, Kill(2)] + [Terminate(fd)]
  }

  /** A process runs and a NEW one was killed. */
  lemma {:induction false} KilledBeside(k: Kernel, policy: Policy, fd: int) returns (k': Kernel)
    requires Init(k) && k.degree == k.topDegree == 1
    ensures var events := [Submit, Admit(true)] + [Connect(fd), Dispatch] + [Submit, Kill(2)];
            CanRun(k, policy, events) && k' == After(k, policy, events)
    ensures k'.cpus == [Cpu(fd, false, Some(1), 0, false, false, "")] && k'.planned == 0 && k'.exitWaits == 0
    ensures k'.cpuTokens == 0 && k'.newcomers == [] && k'.longTokens == 3 && k'.degree == 1
  {
    var k2 := AdmitAnother(k, policy);
    TwoSteps(k2, policy, Connect(fd), Dispatch);
    var k4 := Step(Step(k2, policy, Connect(fd)), policy, Dispatch);
    assert k4.cpus == [Cpu(fd, false, Some(1), 0, false, false, "")];
    k' := KillNewcomer(k4, policy);
    var a, b := [Submit, Admit(true)], [Connect(fd), Dispatch];
    RunSplit(k, policy, a, b);
    RunSplit(k, policy, a + b, [Submit, Kill(2)]);
  }

  /** With degree 1 a NEW process is killed while another one runs: the end of that one waits for the planned
      count, and the CPU it freed has no token. */
  lemma {:induction false} TokenOwed(k: Kernel, policy: Policy, fd: int)
    requires Init(k) && k.degree == k.topDegree == 1
    ensures CanRun(k, policy, OwedEvents(fd))
    ensures var k' := After(k, policy, OwedEvents(fd));
            && k'.exitWaits == 1 && k'.planned == 0 && k'.cpuTokens == 0 && FreeCpus(k'.cpus) == 1
            && k'.newcomers == [] && k'.longTokens == 4 && k'.degree == 1
  {
    var k6 := KilledBeside(k, policy, fd);
    OneStep(k6, policy, Terminate(fd));
    var c := Released(k6.cpus[0]);
    assert Step(k6, policy, Terminate(fd)).cpus == [c] && [c][1..] == [] && FreeCpus([c]) == 1;
    RunSplit(k, policy, [Submit, Admit(true)] + [Connect(fd), Dispatch] + [Submit, Kill(2)], [Terminate(fd)]);
  }

  function Turns(n: nat): seq<Event> {
    if n == 0 then [] else [Admit(true)] + Turns(n - 1)
  }

  /** While the degree is reached, every turn of the long-term planner uses up a token. */
  lemma {:induction false} TurnsDrain(k: Kernel, policy: Policy, n: nat)
    requires k.planned >= k.degree && n <= k.longTokens
    ensures CanRun(k, policy, Turns(n)) && After(k, policy, Turns(n)) == k.(longTokens := k.longTokens - n)
    decreases n
  {
    if n > 0 {
      var k1 := Step(k, policy, Admit(true));
      assert k1 == k.(longTokens := k.longTokens - 1) && Turns(n)[1..] == Turns(n - 1);
      TurnsDrain(k1, policy, n - 1);
    }
  }

  /** From there two programs come and one is admitted; the planner's tokens run out at the degree, and then the
      waiting handler takes the count: a process is NEW, the count is below the degree and no token is left. */
  lemma {:induction false} PlannerStalls(k: Kernel, policy: Policy, fd: int)
    requires Init(k) && k.degree == k.topDegree == 1
    ensures var events := OwedEvents(fd) + [Submit, Submit] + [Admit(true)] + Turns(6) + [ResumeExit];
            CanRun(k, policy, events) && !PlannerPending(After(k, policy, events))
  {
    TokenOwed(k, policy, fd);
    var k0 := After(k, policy, OwedEvents(fd));
    TwoSteps(k0, policy, Submit, Submit);
    var k2 := Step(Step(k0, policy, Submit), policy, Submit);
    OneStep(k2, policy, Admit(true));
    var k3 := Step(k2, policy, Admit(true));
    TurnsDrain(k3, policy, 6);
    var k9 := After(k3, policy, Turns(6));
    OneStep(k9, policy, ResumeExit);
    var a := OwedEvents(fd) + [Submit, Submit];
    RunSplit(k, policy, OwedEvents(fd), [Submit, Submit]);
    RunSplit(k, policy, a, [Admit(true)]);
    RunSplit(k, policy, a + [Admit(true)], Turns(6));
    RunSplit(k, policy, a + [Admit(true)] + Turns(6), [ResumeExit]);
  }

  /** With degree 2 and two NEW processes killed, the end of one process leaves another one ready beside an idle
      CPU whose token is owed: it cannot be dispatched. */
  lemma {:induction false} IdleBesideReady(k: Kernel, policy: Policy, fd: int)
    requires Init(k) && k.degree == k.topDegree == 2
    ensures var events := [Submit, Admit(true)] + [Submit, Admit(true)] + [Submit, Kill(3)] + [Submit, Kill(4)]
                          + [Connect(fd), Dispatch] + [Terminate(fd)];
            && CanRun(k, policy, events)
            && var k' := After(k, policy, events);
               k'.ready == [2] && FreeCpus(k'.cpus) == 1 && k'.newcomers == [] && !Enabled(k', Dispatch)
  {
    var k2 := AdmitAnother(k, policy);
    var k4 := AdmitAnother(k2, policy);
    var k6 := KillNewcomer(k4, policy);
    var k8 := KillNewcomer(k6, policy);
    TwoSteps(k8, policy, Connect(fd), Dispatch);
    var k10 := Step(Step(k8, policy, Connect(fd)), policy, Dispatch);
    assert k10.cpus == [Cpu(fd, false, Some(1), 0, false, false, "")];
    OneStep(k10, policy, Terminate(fd));
    var c := Released(k10.cpus[0]);
    assert Step(k10, policy, Terminate(fd)).cpus == [c] && [c][1..] == [] && FreeCpus([c]) == 1;
    var a, b, d := [Submit, Admit(true)], [Submit, Kill(3)], [Submit, Kill(4)];
    RunSplit(k, policy, a, a);
    RunSplit(k, policy, a + a, b);
    RunSplit(k, policy, a + a + b, d);
    RunSplit(k, policy, a + a + b + d, [Connect(fd), Dispatch]);
    RunSplit(k, policy, a + a + b + d + [Connect(fd), Dispatch], [Terminate(fd)]);
  }
}
