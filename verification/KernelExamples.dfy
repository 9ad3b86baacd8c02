/**
 Two runs from OSInit, step by step, into the states in which the kernel does less than its
 callers expect: a task that calls OSTimeTick and has overtaken itself, and a task that is
 suspended and resumed at the end of its pend on many events.
 */
module KernelExamples {
  import opened Basics
  import opened KernelSpec
  import opened KernelRuns
  import opened KernelTheorems
  import opened KernelScheduling
  import opened KernelLosses

  /** The step is possible and leads there. */
  ghost predicate Goes(sys: System, step: Step, sys': System) {
    Inv(sys) && Enabled(sys, step) && Next(sys, step) == sys'
  }

  ghost predicate Leads(sys: System, steps: seq<Step>, sys': System) {
    CanRun(sys, steps) && After(sys, steps) == sys'
  }

  lemma GoesFirst(sys: System, step: Step, next: System, rest: seq<Step>, last: System)
    requires Goes(sys, step, next) && Leads(next, rest, last)
    ensures Leads(sys, [step] + rest, last)
  {
    Chain(sys, step, next, rest);
  }

  lemma GoesAndKeeps(sys: System, step: Step, sys': System)
    requires Inv(sys) && Enabled(sys, step) && Next(sys, step) == sys'
    ensures Goes(sys, step, sys') && Inv(sys')
  {
    KeepStep(sys, step);
  }

  // ---------------------------------------------------------------- a ticking task

  /** A worker of priority 0, a task of priority 1 that calls OSTimeTick, and the idle task. */
  ghost function Ticker(running: bool, dly: nat, ready: set<Prio>, cur: Prio, switches: nat, worker: Phase): System {
    System(State(2, running, 0, 0, StepDisabled,
                 map[2 := FRESH_TASK, 0 := FRESH_TASK.(dly := dly), 1 := FRESH_TASK], ready, [], cur, switches),
           [], map[2 := Normal, 0 := worker, 1 := Normal], map[2 := [], 0 := [], 1 := []])
  }

  lemma TickerStarts()
    ensures Inv(Init(2, [])) && Goes(Init(2, []), Create(0), Next(Init(2, []), Create(0)))
    ensures Goes(Next(Init(2, []), Create(0)), Create(1), Ticker(false, 0, {0, 1, 2}, 0, 0, Normal))
    ensures Inv(Ticker(false, 0, {0, 1, 2}, 0, 0, Normal))
  {
    var s0 := Init(2, []);
    InitHolds(2, []);
    var s1 := Next(s0, Create(0));
    GoesAndKeeps(s0, Create(0), s1);
    GoesAndKeeps(s1, Create(1), Ticker(false, 0, {0, 1, 2}, 0, 0, Normal));
  }

  lemma WorkerRuns()
    requires Inv(Ticker(false, 0, {0, 1, 2}, 0, 0, Normal))
    ensures var after := Ticker(true, 0, {0, 1, 2}, 0, 0, Normal);
            Goes(Ticker(false, 0, {0, 1, 2}, 0, 0, Normal), StartTasks, after) && Inv(after)
  {
    assert 0 in {0, 1, 2};
    GoesAndKeeps(Ticker(false, 0, {0, 1, 2}, 0, 0, Normal), StartTasks, Ticker(true, 0, {0, 1, 2}, 0, 0, Normal));
  }

  lemma WorkerSleeps()
    requires Inv(Ticker(true, 0, {0, 1, 2}, 0, 0, Normal))
    ensures var after := Ticker(true, 1, {1, 2}, 0, 0, Yielding);
            Goes(Ticker(true, 0, {0, 1, 2}, 0, 0, Normal), Delay(1), after) && Inv(after)
  {
    var before, after := Ticker(true, 0, {0, 1, 2}, 0, 0, Normal), Ticker(true, 1, {1, 2}, 0, 0, Yielding);
    assert {0, 1, 2} - {0} == {1, 2};
    assert Next(before, Delay(1)).k == after.k;
    GoesAndKeeps(before, Delay(1), after);
  }

  lemma TickerRuns()
    requires Inv(Ticker(true, 1, {1, 2}, 0, 0, Yielding))
    ensures var after := Ticker(true, 1, {1, 2}, 1, 1, Normal);
            Goes(Ticker(true, 1, {1, 2}, 0, 0, Yielding), Reschedule, after) && Inv(after)
  {
    assert 1 in {1, 2} && Highest({1, 2}) == 1;
    GoesAndKeeps(Ticker(true, 1, {1, 2}, 0, 0, Yielding), Reschedule, Ticker(true, 1, {1, 2}, 1, 1, Normal));
  }

  lemma TickerTicks()
    requires Inv(Ticker(true, 1, {1, 2}, 1, 1, Normal))
    ensures var after := Ticker(true, 0, {0, 1, 2}, 1, 1, Normal);
            Goes(Ticker(true, 1, {1, 2}, 1, 1, Normal), Tick, after) && Inv(after)
  {
    var before, after := Ticker(true, 1, {1, 2}, 1, 1, Normal), Ticker(true, 0, {0, 1, 2}, 1, 1, Normal);
    var woken := set p | p in before.k.tasks && p != before.k.idle && TickWakes(before.k.tasks[p]);
    assert woken == {0};
    assert Next(before, Tick).k.tasks == after.k.tasks;
    assert Next(before, Tick).k == after.k;
    GoesAndKeeps(before, Tick, after);
  }

  lemma TickerIsOverdue()
    ensures var sys := Ticker(true, 0, {0, 1, 2}, 1, 1, Normal);
            && ByTask(sys) && sys.k.lockNesting == 0 && Valid(sys.k)
            && !HighestRuns(SchedUnlock(sys.k))
  {
    assert 0 in Ticker(true, 0, {0, 1, 2}, 1, 1, Normal).k.ready;
  }

  ghost function TickerSteps(): seq<Step> {
    [Create(0)] + ([Create(1)] + ([StartTasks] + ([Delay(1)] + ([Reschedule] + ([Tick] + [])))))
  }

  lemma TickerGoes()
    ensures Leads(Init(2, []), TickerSteps(), Ticker(true, 0, {0, 1, 2}, 1, 1, Normal))
  {
    TickerStarts();
    WorkerRuns();
    WorkerSleeps();
    TickerRuns();
    TickerTicks();
    var s0 := Init(2, []);
    var s1 := Next(s0, Create(0));
    TickerChain(s0, s1, Ticker(false, 0, {0, 1, 2}, 0, 0, Normal), Ticker(true, 0, {0, 1, 2}, 0, 0, Normal),
                Ticker(true, 1, {1, 2}, 0, 0, Yielding), Ticker(true, 1, {1, 2}, 1, 1, Normal),
                Ticker(true, 0, {0, 1, 2}, 1, 1, Normal));
  }

  lemma TickerChain(s0: System, s1: System, s2: System, s3: System, s4: System, s5: System, s6: System)
    requires Goes(s0, Create(0), s1) && Goes(s1, Create(1), s2) && Goes(s2, StartTasks, s3)
    requires Goes(s3, Delay(1), s4) && Goes(s4, Reschedule, s5) && Goes(s5, Tick, s6)
    ensures Leads(s0, TickerSteps(), s6)
  {
    GoesFirst(s5, Tick, s6, [], s6);
    GoesFirst(s4, Reschedule, s5, [Tick] + [], s6);
    GoesFirst(s3, Delay(1), s4, [Reschedule] + ([Tick] + []), s6);
    GoesFirst(s2, StartTasks, s3, [Delay(1)] + ([Reschedule] + ([Tick] + [])), s6);
    GoesFirst(s1, Create(1), s2, [StartTasks] + ([Delay(1)] + ([Reschedule] + ([Tick] + []))), s6);
    GoesFirst(s0, Create(0), s1, [Create(1)] + ([StartTasks] + ([Delay(1)] + ([Reschedule] + ([Tick] + [])))), s6);
  }

  /**
   A reachable state in which a call of OSSchedUnlock without a lock does not reschedule
   although a more urgent task is ready: the task has called OSTimeTick itself.
   */
  lemma OverdueIsReachable()
    ensures CanRun(Init(2, []), TickerSteps())
    ensures var sys := After(Init(2, []), TickerSteps());
            && ByTask(sys) && sys.k.lockNesting == 0 && Valid(sys.k)
            && !HighestRuns(SchedUnlock(sys.k))
  {
    TickerGoes();
    TickerIsOverdue();
  }

  // ---------------------------------------------------------------- a task that is lost

  /** One task of priority 0, a semaphore without units, and the idle task. */
  ghost function OneTask(running: bool, nesting: nat, t: Task, ready: set<Prio>, waiters: set<Prio>, cur: Prio,
                         switches: nat, phase: Phase): System {
    System(State(2, running, nesting, 0, StepDisabled, map[2 := FRESH_TASK, 0 := t], ready, [waiters], cur, switches),
           [Sem], map[2 := Normal, 0 := phase], map[2 := [], 0 := []])
  }

  const PENDING := Task(0, {Sem, Multi}, PendOk, None, Some([0]), NULL_MSG)

  lemma TaskStarts()
    ensures Goes(Init(2, [Sem]), Create(0), OneTask(false, 0, FRESH_TASK, {0, 2}, {}, 0, 0, Normal))
    ensures Goes(OneTask(false, 0, FRESH_TASK, {0, 2}, {}, 0, 0, Normal), StartTasks,
                 OneTask(true, 0, FRESH_TASK, {0, 2}, {}, 0, 0, Normal))
    ensures Inv(OneTask(true, 0, FRESH_TASK, {0, 2}, {}, 0, 0, Normal))
  {
    InitHolds(2, [Sem]);
    var s1 := OneTask(false, 0, FRESH_TASK, {0, 2}, {}, 0, 0, Normal);
    assert Next(Init(2, [Sem]), Create(0)).k == s1.k;
    GoesAndKeeps(Init(2, [Sem]), Create(0), s1);
    assert 0 in {0, 2};
    GoesAndKeeps(s1, StartTasks, OneTask(true, 0, FRESH_TASK, {0, 2}, {}, 0, 0, Normal));
  }

  lemma FlagsOfOne()
    ensures Flags([Sem], [0]) == {Sem}
  {
    assert 0 in [0];
    assert [Sem][0] in Flags([Sem], [0]);
  }

  lemma TaskPends()
    requires Inv(OneTask(true, 0, FRESH_TASK, {0, 2}, {}, 0, 0, Normal))
    ensures var after := OneTask(true, 0, PENDING, {2}, {0}, 0, 0, Entering([0], true));
            Goes(OneTask(true, 0, FRESH_TASK, {0, 2}, {}, 0, 0, Normal), Block([0], true, 0), after) && Inv(after)
  {
    var before := OneTask(true, 0, FRESH_TASK, {0, 2}, {}, 0, 0, Normal);
    var after := OneTask(true, 0, PENDING, {2}, {0}, 0, 0, Entering([0], true));
    FlagsOfOne();
    var k' := Next(before, Block([0], true, 0)).k;
    var none: set<Prio> := {};
    assert Added([none], 0, [0]) == [{0}] by { assert 0 in [0] && none + {0} == {0}; }
    assert k'.waiters == Added([none], 0, [0]);
    assert k'.ready == {0, 2} - {0} == {2};
    assert FRESH_TASK.stat + ({Sem} + {Multi}) == PENDING.stat;
    assert k'.tasks[0] == PENDING;
    assert k'.tasks == after.k.tasks;
    GoesAndKeeps(before, Block([0], true, 0), after);
  }

  lemma IdleRuns()
    requires Inv(OneTask(true, 0, PENDING, {2}, {0}, 0, 0, Entering([0], true)))
    ensures var mid := OneTask(true, 0, PENDING, {2}, {0}, 2, 1, Waiting([0], true));
            Goes(OneTask(true, 0, PENDING, {2}, {0}, 0, 0, Entering([0], true)), Reschedule, mid) && Inv(mid)
  {
    assert Highest({2}) == 2;
    GoesAndKeeps(OneTask(true, 0, PENDING, {2}, {0}, 0, 0, Entering([0], true)), Reschedule,
                 OneTask(true, 0, PENDING, {2}, {0}, 2, 1, Waiting([0], true)));
  }

  lemma InterruptComes()
    requires Inv(OneTask(true, 0, PENDING, {2}, {0}, 2, 1, Waiting([0], true)))
    ensures var after := OneTask(true, 1, PENDING, {2}, {0}, 2, 1, Waiting([0], true));
            Goes(OneTask(true, 0, PENDING, {2}, {0}, 2, 1, Waiting([0], true)), EnterInterrupt, after) && Inv(after)
  {
    GoesAndKeeps(OneTask(true, 0, PENDING, {2}, {0}, 2, 1, Waiting([0], true)), EnterInterrupt,
                 OneTask(true, 1, PENDING, {2}, {0}, 2, 1, Waiting([0], true)));
  }

  ghost function LosingSteps(msg: Msg): seq<Step> {
    [Create(0)] + ([StartTasks] + ([Block([0], true, 0)] + ([Reschedule] + ([EnterInterrupt]
    + ([Post(0, msg, PendOk, true)] + ([SuspendTask(0)] + ([ResumeTask(0)] + [])))))))
  }

  lemma LosingChain(s0: System, s1: System, s2: System, s3: System, s4: System, s5: System, rest: seq<Step>, s6: System)
    requires Goes(s0, Create(0), s1) && Goes(s1, StartTasks, s2) && Goes(s2, Block([0], true, 0), s3)
    requires Goes(s3, Reschedule, s4) && Goes(s4, EnterInterrupt, s5) && Leads(s5, rest, s6)
    ensures Leads(s0,
                  [Create(0)] + ([StartTasks] + ([Block([0], true, 0)] + ([Reschedule] + ([EnterInterrupt] + rest)))),
                  s6)
  {
    GoesFirst(s4, EnterInterrupt, s5, rest, s6);
    GoesFirst(s3, Reschedule, s4, [EnterInterrupt] + rest, s6);
    GoesFirst(s2, Block([0], true, 0), s3, [Reschedule] + ([EnterInterrupt] + rest), s6);
    GoesFirst(s1, StartTasks, s2, [Block([0], true, 0)] + ([Reschedule] + ([EnterInterrupt] + rest)), s6);
    GoesFirst(s0, Create(0), s1, [StartTasks] + ([Block([0], true, 0)] + ([Reschedule] + ([EnterInterrupt] + rest))),
              s6);
  }

  lemma InterruptLoses(msg: Msg)
    requires Inv(OneTask(true, 1, PENDING, {2}, {0}, 2, 1, Waiting([0], true)))
    ensures var sys := OneTask(true, 1, PENDING, {2}, {0}, 2, 1, Waiting([0], true));
            var steps := [Post(0, msg, PendOk, true)] + ([SuspendTask(0)] + ([ResumeTask(0)] + []));
            CanRun(sys, steps) && Stuck(After(sys, steps), 0)
  {
    assert Highest({0}) == 0;
    PostSuspendResumeLoses(OneTask(true, 1, PENDING, {2}, {0}, 2, 1, Waiting([0], true)), 0, msg, true, 0);
  }

  /**
   From OSInit to a lost task: it pends on a semaphore as one of many events; an interrupt
   handler posts to the semaphore and suspends and resumes the task before it has run.
   */
  lemma LossIsReachable(msg: Msg)
    ensures CanRun(Init(2, [Sem]), LosingSteps(msg)) && Stuck(After(Init(2, [Sem]), LosingSteps(msg)), 0)
  {
    TaskStarts();
    TaskPends();
    IdleRuns();
    InterruptComes();
    InterruptLoses(msg);
    var s5 := OneTask(true, 1, PENDING, {2}, {0}, 2, 1, Waiting([0], true));
    var rest := [Post(0, msg, PendOk, true)] + ([SuspendTask(0)] + ([ResumeTask(0)] + []));
    LosingChain(Init(2, [Sem]), OneTask(false, 0, FRESH_TASK, {0, 2}, {}, 0, 0, Normal),
                OneTask(true, 0, FRESH_TASK, {0, 2}, {}, 0, 0, Normal),
                OneTask(true, 0, PENDING, {2}, {0}, 0, 0, Entering([0], true)),
                OneTask(true, 0, PENDING, {2}, {0}, 2, 1, Waiting([0], true)), s5, rest, After(s5, rest));
  }

  /** From OSInit to a pend that nothing can end. */
  lemma EmptyPendIsReachable()
    ensures var steps := [Create(0)] + ([StartTasks] + ([Block([], true, 0)] + ([Reschedule] + [])));
            CanRun(Init(2, [Sem]), steps) && Stuck(After(Init(2, [Sem]), steps), 0)
  {
    TaskStarts();
    var s1 := OneTask(false, 0, FRESH_TASK, {0, 2}, {}, 0, 0, Normal);
    var s2 := OneTask(true, 0, FRESH_TASK, {0, 2}, {}, 0, 0, Normal);
    assert Enabled(s2, Block([], true, 0));
    EmptyPendLosesExactly(s2, 0);
    var s3 := Next(s2, Block([], true, 0));
    GoesAndKeeps(s2, Block([], true, 0), s3);
    var s4 := Next(s3, Reschedule);
    GoesFirst(s3, Reschedule, s4, [], s4);
    GoesFirst(s2, Block([], true, 0), s3, [Reschedule] + [], s4);
    GoesFirst(s1, StartTasks, s2, [Block([], true, 0)] + ([Reschedule] + []), s4);
    GoesFirst(Init(2, [Sem]), Create(0), s1, [StartTasks] + ([Block([], true, 0)] + ([Reschedule] + [])), s4);
  }
}
