/**
 Which task runs: over every run from OSInit, the current task is the most urgent ready one
 whenever task code can notice, and the exact exception.
 */
module KernelScheduling {
  import opened KernelSpec
  import opened KernelRuns
  import opened KernelTheorems

  ghost predicate HighestRuns(k: State) {
    k.ready != {} && k.cur == Highest(k.ready) && k.cur in k.tasks
  }

  /** The ready tasks that should run instead of the current one. */
  ghost function MoreUrgent(k: State): set<Prio> { set p | p in k.ready && p < k.cur }

  /** Task code runs with the scheduler enabled. */
  ghost predicate TaskRuns(sys: System) {
    && sys.k.running && sys.k.intNesting == 0 && sys.k.lockNesting == 0
    && sys.k.cur in sys.phase && (sys.phase[sys.k.cur].Normal? || sys.phase[sys.k.cur].Waiting?)
  }

  // ---------------------------------------------------------------- what is overdue

  /** The steps that look for the most urgent task. */
  ghost predicate Reschedules(sys: System, step: Step) {
    || step.StartTasks?
    || (step.Reschedule? && sys.k.intNesting == 0)
    || (step.ExitInterrupt? && sys.k.intNesting <= 1)
  }

  /** Task code may make tasks ready without going on to OS_Sched: by ticking, or by a post that is told not to. */
  ghost predicate Silent(sys: System, step: Step) {
    && sys.k.running && sys.k.intNesting == 0
    && (step.Tick? || step.TickTcb? || (step.Post? && !step.sched))
  }

  /** More urgent tasks than the running one that become ready in this way. */
  ghost function Overtaking(sys: System, step: Step): set<Prio>
    requires WellFormed(sys) && Enabled(sys, step)
  {
    if Silent(sys, step) then MoreUrgent(Next(sys, step).k) - sys.k.ready else {}
  }

  /** The tasks that have overtaken the running one since the last rescheduling and are still ready. */
  ghost function OverdueAfter(overdue: set<Prio>, sys: System, step: Step): set<Prio>
    requires WellFormed(sys) && Enabled(sys, step)
  {
    if Reschedules(sys, step) then {} else (overdue + Overtaking(sys, step)) * Next(sys, step).k.ready
  }

  ghost function Overdue(overdue: set<Prio>, sys: System, steps: seq<Step>): set<Prio>
    requires CanRun(sys, steps)
    decreases |steps|
  {
    if steps == [] then overdue else Overdue(OverdueAfter(overdue, sys, steps[0]), Next(sys, steps[0]), steps[1..])
  }

  // ---------------------------------------------------------------- the invariant

  /** While task code runs, exactly the overdue tasks are more urgent. */
  ghost predicate OnlyOverdue(sys: System, overdue: set<Prio>) {
    TaskRuns(sys) ==> MoreUrgent(sys.k) == overdue
  }

  lemma NoneMoreUrgent(k: State)
    requires Valid(k) && k.cur in k.ready
    ensures HighestRuns(k) <==> MoreUrgent(k) == {}
  {
    assert Highest(k.ready) in MoreUrgent(k) || Highest(k.ready) == k.cur;
  }

  lemma HighestHasNoneMoreUrgent(k: State)
    requires k.ready != {} && k.cur == Highest(k.ready)
    ensures MoreUrgent(k) == {}
  { }

  lemma RescheduleIsOnTime(sys: System, step: Step)
    requires Inv(sys) && Enabled(sys, step) && Reschedules(sys, step)
    ensures var k := Next(sys, step).k; k.running && k.intNesting == 0 && k.lockNesting == 0 ==> HighestRuns(k)
  { }

  /** Between reschedulings the current task stays, and task code that runs has run before. */
  lemma SameTaskRuns(sys: System, step: Step)
    requires Inv(sys) && Enabled(sys, step) && !Reschedules(sys, step) && TaskRuns(Next(sys, step))
    ensures TaskRuns(sys) && Next(sys, step).k.cur == sys.k.cur
  { }

  /** No other step readies a task while task code runs on. */
  lemma OthersReadyNone(sys: System, step: Step)
    requires Inv(sys) && Enabled(sys, step) && !Reschedules(sys, step) && !Silent(sys, step)
    requires TaskRuns(Next(sys, step))
    ensures Next(sys, step).k.ready <= sys.k.ready
  { }

  lemma OverdueStep(sys: System, step: Step, overdue: set<Prio>)
    requires Inv(sys) && Enabled(sys, step) && OnlyOverdue(sys, overdue)
    ensures OnlyOverdue(Next(sys, step), OverdueAfter(overdue, sys, step))
  {
    var sys' := Next(sys, step);
    if TaskRuns(sys') {
      if Reschedules(sys, step) {
        RescheduleIsOnTime(sys, step);
        HighestHasNoneMoreUrgent(sys'.k);
      } else {
        SameTaskRuns(sys, step);
        OverdueSplits(sys.k, sys'.k);
        if !Silent(sys, step) { OthersReadyNone(sys, step); }
      }
    }
  }

  lemma OverdueSplits(k: State, k': State)
    requires k'.cur == k.cur
    ensures MoreUrgent(k') == (MoreUrgent(k) + (MoreUrgent(k') - k.ready)) * k'.ready
  { }

  lemma {:induction false} OverdueRun(sys: System, steps: seq<Step>, overdue: set<Prio>)
    requires Inv(sys) && CanRun(sys, steps) && OnlyOverdue(sys, overdue)
    ensures OnlyOverdue(After(sys, steps), Overdue(overdue, sys, steps))
    decreases |steps|
  {
    if steps != [] {
      KeepStep(sys, steps[0]);
      OverdueStep(sys, steps[0], overdue);
      OverdueRun(Next(sys, steps[0]), steps[1..], OverdueAfter(overdue, sys, steps[0]));
    }
  }

  // ---------------------------------------------------------------- the theorems

  /**
   After every run from OSInit, while task code runs with the scheduler enabled: the ready
   tasks more urgent than the running one are exactly those that task code has silently made
   ready since the last rescheduling. With none of them, the most urgent task runs.
   */
  lemma MostUrgentRuns(idle: Prio, types: seq<Flag>, steps: seq<Step>)
    requires EventTypes(types) && CanRun(Init(idle, types), steps) && TaskRuns(After(Init(idle, types), steps))
    ensures var k, overdue := After(Init(idle, types), steps).k, Overdue({}, Init(idle, types), steps);
            MoreUrgent(k) == overdue && (HighestRuns(k) <==> overdue == {})
  {
    var sys := After(Init(idle, types), steps);
    Reachable(idle, types, steps);
    InitHolds(idle, types);
    OverdueRun(Init(idle, types), steps, {});
    NoneMoreUrgent(sys.k);
  }

  /** Task code never makes a task ready without going on to OS_Sched. */
  ghost predicate NeverSilent(sys: System, steps: seq<Step>)
    requires CanRun(sys, steps)
    decreases |steps|
  {
    steps == [] || (!Silent(sys, steps[0]) && NeverSilent(Next(sys, steps[0]), steps[1..]))
  }

  lemma {:induction false} NothingOverdue(sys: System, steps: seq<Step>)
    requires CanRun(sys, steps) && NeverSilent(sys, steps)
    ensures Overdue({}, sys, steps) == {}
    decreases |steps|
  {
    if steps != [] {
      assert OverdueAfter({}, sys, steps[0]) == {};
      NothingOverdue(Next(sys, steps[0]), steps[1..]);
    }
  }

  /**
   While clock ticks come from interrupt handlers only and every post of task code calls
   OS_Sched, task code runs only in the most urgent ready task.
   */
  lemma MostUrgentAlwaysRuns(idle: Prio, types: seq<Flag>, steps: seq<Step>)
    requires EventTypes(types) && CanRun(Init(idle, types), steps) && NeverSilent(Init(idle, types), steps)
    ensures TaskRuns(After(Init(idle, types), steps)) ==> HighestRuns(After(Init(idle, types), steps).k)
  {
    NothingOverdue(Init(idle, types), steps);
    if TaskRuns(After(Init(idle, types), steps)) { MostUrgentRuns(idle, types, steps); }
  }

  /**
   OSSchedUnlock from task code, after every run: once it has unlocked the scheduler the most
   urgent task runs, and a call without a matching lock is as good unless something is overdue.
   */
  lemma UnlockReschedulesExactly(idle: Prio, types: seq<Flag>, steps: seq<Step>)
    requires EventTypes(types) && CanRun(Init(idle, types), steps) && ByTask(After(Init(idle, types), steps))
    ensures Valid(After(Init(idle, types), steps).k)
    ensures var k := After(Init(idle, types), steps).k;
            var k' := SchedUnlock(k);
            && k'.lockNesting == (if k.lockNesting > 0 then k.lockNesting - 1 else 0)
            && (k'.lockNesting == 0 ==>
                  (HighestRuns(k') <==> k.lockNesting == 1 || Overdue({}, Init(idle, types), steps) == {}))
  {
    Reachable(idle, types, steps);
    var sys := After(Init(idle, types), steps);
    if sys.k.lockNesting == 0 {
      MostUrgentRuns(idle, types, steps);
    }
  }
}
