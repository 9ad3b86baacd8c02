/**
 The kernel's counters against counts taken from the steps of a run alone, and what they hold
 back: no step switches tasks while the scheduler is locked or inside an interrupt handler.
 */
module KernelCounters {
  import opened KernelSpec
  import opened KernelRuns
  import opened KernelTheorems

  // ---------------------------------------------------------------- the lock

  /** The depth of calls of OSSchedLock that are not yet undone, up to 255. */
  function LockDepth(depth: nat, steps: seq<Step>): nat
    decreases |steps|
  {
    if steps == [] then depth
    else
      LockDepth(if steps[0].Lock? then (if depth < 255 then depth + 1 else depth)
                else if steps[0].Unlock? && depth > 0 then depth - 1
                else depth,
                steps[1..])
  }

  lemma LockStep(sys: System, step: Step)
    requires WellFormed(sys) && Enabled(sys, step)
    ensures Next(sys, step).k.lockNesting == LockDepth(sys.k.lockNesting, [step])
  {
    assert [step][1..] == [];
  }

  lemma {:induction false} LockRun(sys: System, steps: seq<Step>)
    requires CanRun(sys, steps)
    ensures After(sys, steps).k.lockNesting == LockDepth(sys.k.lockNesting, steps)
    decreases |steps|
  {
    hide Next, Enabled, WellFormed;
    if steps != [] {
      LockStep(sys, steps[0]);
      assert [steps[0]][1..] == [];
      LockRun(Next(sys, steps[0]), steps[1..]);
    }
  }

  /** After every run OSLockNesting is that depth, and while it is above zero no step changes the current task. */
  lemma LockHolds(idle: Prio, types: seq<Flag>, steps: seq<Step>, step: Step)
    requires EventTypes(types) && CanRun(Init(idle, types), steps)
    requires Enabled(After(Init(idle, types), steps), step)
    ensures WellFormed(After(Init(idle, types), steps))
    ensures var sys := After(Init(idle, types), steps);
            && sys.k.lockNesting == LockDepth(0, steps)
            && (LockDepth(0, steps) > 0 ==> Next(sys, step).k.cur == sys.k.cur)
  {
    Reachable(idle, types, steps);
    LockRun(Init(idle, types), steps);
    if LockDepth(0, steps) > 0 { HeldBack(After(Init(idle, types), steps), step); }
  }

  /** A lock, and a handler until its last exit, hold the scheduler back. */
  lemma HeldBack(sys: System, step: Step)
    requires Inv(sys) && Enabled(sys, step)
    requires sys.k.lockNesting > 0 || sys.k.intNesting > (if step.ExitInterrupt? then 1 else 0)
    ensures Next(sys, step).k.cur == sys.k.cur
  { }

  // ---------------------------------------------------------------- interrupt handlers

  /** Multitasking has begun, and the depth of interrupt handlers entered since and not yet left, up to 255. */
  datatype Handlers = Handlers(running: bool, depth: nat)

  function HandlersAfter(h: Handlers, steps: seq<Step>): Handlers
    decreases |steps|
  {
    if steps == [] then h
    else
      HandlersAfter(if steps[0].StartTasks? then Handlers(true, h.depth)
                    else if !h.running then h
                    else if steps[0].EnterInterrupt? && h.depth < 255 then Handlers(true, h.depth + 1)
                    else if steps[0].ExitInterrupt? && h.depth > 0 then Handlers(true, h.depth - 1)
                    else h,
                    steps[1..])
  }

  lemma HandlersStep(sys: System, step: Step)
    requires WellFormed(sys) && Enabled(sys, step)
    ensures var k := Next(sys, step).k;
            Handlers(k.running, k.intNesting) == HandlersAfter(Handlers(sys.k.running, sys.k.intNesting), [step])
  {
    assert [step][1..] == [];
  }

  lemma {:induction false} HandlersRun(sys: System, steps: seq<Step>)
    requires CanRun(sys, steps)
    ensures var k := After(sys, steps).k;
            Handlers(k.running, k.intNesting) == HandlersAfter(Handlers(sys.k.running, sys.k.intNesting), steps)
    decreases |steps|
  {
    hide Next, Enabled, WellFormed;
    if steps != [] {
      HandlersStep(sys, steps[0]);
      assert [steps[0]][1..] == [];
      HandlersRun(Next(sys, steps[0]), steps[1..]);
    }
  }

  /** After every run OSRunning and OSIntNesting are those, and only the last exit of a handler changes the task. */
  lemma HandlersHold(idle: Prio, types: seq<Flag>, steps: seq<Step>, step: Step)
    requires EventTypes(types) && CanRun(Init(idle, types), steps)
    requires Enabled(After(Init(idle, types), steps), step)
    ensures WellFormed(After(Init(idle, types), steps))
    ensures var sys, h := After(Init(idle, types), steps), HandlersAfter(Handlers(false, 0), steps);
            && Handlers(sys.k.running, sys.k.intNesting) == h
            && (h.depth > (if step.ExitInterrupt? then 1 else 0) ==> Next(sys, step).k.cur == sys.k.cur)
  {
    Reachable(idle, types, steps);
    HandlersRun(Init(idle, types), steps);
    var sys := After(Init(idle, types), steps);
    if sys.k.intNesting > (if step.ExitInterrupt? then 1 else 0) { HeldBack(sys, step); }
  }

  // ---------------------------------------------------------------- context switches

  /** How often the current task changes in a run, the start of multitasking aside. */
  ghost function Changes(sys: System, steps: seq<Step>): nat
    requires CanRun(sys, steps)
    decreases |steps|
  {
    if steps == [] then 0
    else
      (if !steps[0].StartTasks? && Next(sys, steps[0]).k.cur != sys.k.cur then 1 else 0)
      + Changes(Next(sys, steps[0]), steps[1..])
  }

  lemma OthersSwitchNot(sys: System, step: Step)
    requires WellFormed(sys) && Enabled(sys, step)
    requires !step.StartTasks? && !step.Reschedule? && !step.ExitInterrupt?
    ensures Next(sys, step).k.switches == sys.k.switches && Next(sys, step).k.cur == sys.k.cur
  { }

  lemma SwitchesStep(sys: System, step: Step)
    requires WellFormed(sys) && Enabled(sys, step)
    ensures Next(sys, step).k.switches
         == sys.k.switches + if !step.StartTasks? && Next(sys, step).k.cur != sys.k.cur then 1 else 0
  {
    if !step.StartTasks? && !step.Reschedule? && !step.ExitInterrupt? { OthersSwitchNot(sys, step); }
  }

  /** OSCtxSwCtr counts them. */
  lemma {:induction false} SwitchesAreChanges(sys: System, steps: seq<Step>)
    requires CanRun(sys, steps)
    ensures After(sys, steps).k.switches == sys.k.switches + Changes(sys, steps)
    decreases |steps|
  {
    if steps != [] {
      SwitchesStep(sys, steps[0]);
      SwitchesAreChanges(Next(sys, steps[0]), steps[1..]);
    }
  }

  // ---------------------------------------------------------------- stepping

  /** In a running system OS_TICK_STEP_ONCE lets one tick through, OS_TICK_STEP_DIS all and OS_TICK_STEP_WAIT none. */
  lemma TicksLetThrough(k: State)
    requires k.running
    ensures TickIsProcessed(k) <==> k.stepState == StepOnce || k.stepState == StepDisabled
    ensures TickIsProcessed(TimeTick(k)) <==> k.stepState == StepDisabled
    ensures k.stepState == StepWait ==> TimeTick(k) == k
  { }
}
