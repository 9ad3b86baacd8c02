/**
 The two calls after which a task is in no list any more, and exactly when that happens:
 OSTaskResume for a task in a multi-pend that is over, and OSEventPendMulti on an empty list
 of events without a timeout.
 */
module KernelLosses {
  import opened KernelSpec
  import opened KernelRuns
  import opened KernelTheorems

  // ---------------------------------------------------------------- the resume that loses a task

  /** A task inside a multi-pend that neither an event nor the clock can end any more. */
  ghost predicate MultiPendIsOver(v: View) {
    v.phase.Pending() && v.phase.multi && v.t.dly == 0 && !BlockedView(v)
  }

  lemma CleanUnlessOver(types: seq<Flag>, v: View)
    requires ViewOk(types, v) && EventTypes(types)
    ensures (v.t.stat <= {Suspend} || v.t.dly > 0 || BlockedView(v)) <==> !MultiPendIsOver(v)
  {
    if v.phase.Pending() && !v.phase.multi && v.got == [] {
      assert Undelivered(types, v, v.phase.es, false);
      assert v.phase.es[0] in v.on;
      assert Flags(types, v.phase.es) <= PEND_ANY;
      assert v.t.statPend == PendTo ==> v.t.stat <= {Suspend};
    }
  }

  /** OSTaskResume leaves every task accounted for exactly when the task is not in a multi-pend that is over. */
  lemma ResumeLosesExactly(sys: System, p: Prio)
    requires Inv(sys) && NoneLost(sys) && Enabled(sys, ResumeTask(p))
    requires p in sys.k.tasks && p < sys.k.idle && Suspended(sys.k.tasks[p])
    ensures NoneLost(Next(sys, ResumeTask(p))) <==> !MultiPendIsOver(ViewOf(sys, p))
  {
    KeepStep(sys, ResumeTask(p));
    CleanUnlessOver(sys.types, ViewOf(sys, p));
  }

  /** Out of every list: not ready, not delayed, in no wait set, and with a bit left in OSTCBStat. */
  ghost predicate Stuck(sys: System, p: Prio) {
    && p in sys.k.tasks && p < sys.k.idle
    && p !in sys.k.ready
    && sys.k.tasks[p].dly == 0
    && !(sys.k.tasks[p].stat <= {Suspend})
    && (forall e | 0 <= e < |sys.k.waiters| :: p !in sys.k.waiters[e])
    && (sys.k.running ==> sys.k.cur != p)
  }

  lemma StuckOnSwitch(sys: System, step: Step, p: Prio)
    requires WellFormed(sys) && Enabled(sys, step) && Stuck(sys, p)
    requires step.StartTasks? || step.ExitInterrupt? || step.Reschedule?
    ensures Stuck(Effect(sys, step), p)
  { }

  lemma StuckOnTick(sys: System, step: Step, p: Prio)
    requires WellFormed(sys) && Enabled(sys, step) && Stuck(sys, p) && (step.Tick? || step.TickTcb?)
    ensures Stuck(Effect(sys, step), p)
  { }

  lemma StuckOnCall(sys: System, step: Step, p: Prio)
    requires WellFormed(sys) && Enabled(sys, step) && Stuck(sys, p)
    requires step.Create? || step.Delay? || step.DelayResume? || step.SuspendTask? || step.ResumeTask?
    ensures Stuck(Effect(sys, step), p)
  { }

  lemma StuckOnPost(sys: System, step: Step, p: Prio)
    requires WellFormed(sys) && Enabled(sys, step) && Stuck(sys, p) && step.Post?
    ensures Stuck(Effect(sys, step), p)
  { }

  lemma StuckOnPend(sys: System, step: Step, p: Prio)
    requires WellFormed(sys) && Enabled(sys, step) && Stuck(sys, p) && (step.Block? || step.Finish?)
    ensures Stuck(Effect(sys, step), p)
  { }

  lemma StuckOnCounter(sys: System, step: Step, p: Prio)
    requires WellFormed(sys) && Enabled(sys, step) && Stuck(sys, p)
    requires step.EnterInterrupt? || step.Lock? || step.Unlock?
    ensures Stuck(Effect(sys, step), p)
  { }

  lemma StuckStep(sys: System, step: Step, p: Prio)
    requires WellFormed(sys) && Enabled(sys, step) && Stuck(sys, p)
    ensures Stuck(Next(sys, step), p)
  {
    hide Effect, Enabled;
    if step.StartTasks? || step.ExitInterrupt? || step.Reschedule? {
      StuckOnSwitch(sys, step, p);
    } else if step.Tick? || step.TickTcb? {
      StuckOnTick(sys, step, p);
    } else if step.Post? {
      StuckOnPost(sys, step, p);
    } else if step.Block? || step.Finish? {
      StuckOnPend(sys, step, p);
    } else if step.EnterInterrupt? || step.Lock? || step.Unlock? {
      StuckOnCounter(sys, step, p);
    } else {
      StuckOnCall(sys, step, p);
    }
  }

  /** A lost task never runs again, whatever happens. */
  lemma {:induction false} StuckForEver(sys: System, steps: seq<Step>, p: Prio)
    requires CanRun(sys, steps) && Stuck(sys, p)
    ensures Stuck(After(sys, steps), p)
    decreases |steps|
  {
    if steps != [] {
      StuckStep(sys, steps[0], p);
      StuckForEver(Next(sys, steps[0]), steps[1..], p);
    }
  }

  /** `p` is inside a multi-pend that is over: it waits for nothing, but OSTCBStat still says Multi. */
  ghost predicate PendIsOver(sys: System, p: Prio) {
    && p in sys.k.tasks && p < sys.k.idle && p != sys.k.cur
    && sys.k.tasks[p].dly == 0 && Multi in sys.k.tasks[p].stat
    && (forall e | 0 <= e < |sys.k.waiters| :: p !in sys.k.waiters[e])
  }

  lemma PostEndsPend(sys: System, e: EventId, msg: Msg, sched: bool, p: Prio)
    requires Inv(sys) && Enabled(sys, Post(e, msg, PendOk, sched)) && p == Highest(sys.k.waiters[e])
    requires p in sys.phase && sys.phase[p].Pending() && sys.phase[p].multi && p != sys.k.cur
    ensures PendIsOver(Next(sys, Post(e, msg, PendOk, sched)), p)
  {
    var v, sys' := ViewOf(sys, p), Effect(sys, Post(e, msg, PendOk, sched));
    assert ViewOk(sys.types, v);
    PostViews(sys, e, msg, PendOk, sched, sys');
    PostOk(sys.types, v, Delivery(e, msg, PendOk));
    forall e | 0 <= e < |sys'.k.waiters| ensures p !in sys'.k.waiters[e] { assert e !in ViewOf(sys', p).on; }
    assert p in sys.k.tasks && p != sys.k.idle && Multi in v.t.stat && sys.types[e] != Multi;
    assert sys'.k.tasks[p] == ViewOf(sys', p).t;
  }

  lemma SuspendInPend(sys: System, p: Prio, sys': System)
    requires WellFormed(sys) && PendIsOver(sys, p) && ByAnyone(sys) && sys' == Next(sys, SuspendTask(p))
    ensures WellFormed(sys') && PendIsOver(sys', p) && ByAnyone(sys')
    ensures p !in sys'.k.ready && Suspended(sys'.k.tasks[p])
  {
    SuspendViews(sys, p, sys');
  }

  lemma ResumeSticks(sys: System, p: Prio, sys': System)
    requires WellFormed(sys) && PendIsOver(sys, p) && ByAnyone(sys)
    requires p !in sys.k.ready && sys' == Next(sys, ResumeTask(p))
    ensures WellFormed(sys') && Stuck(sys', p)
  {
    assert Multi in sys.k.tasks[p].stat - {Suspend};
    ResumeViews(sys, p, sys');
  }

  /** Suspended and resumed in such a state, the task is lost. */
  lemma SuspendResumeLoses(sys: System, p: Prio)
    requires WellFormed(sys) && PendIsOver(sys, p) && ByAnyone(sys)
    ensures var steps := [SuspendTask(p)] + ([ResumeTask(p)] + []);
            CanRun(sys, steps) && Stuck(After(sys, steps), p)
  {
    var s2 := Next(sys, SuspendTask(p));
    SuspendInPend(sys, p, s2);
    var s3 := Next(s2, ResumeTask(p));
    ResumeSticks(s2, p, s3);
    Chain(s2, ResumeTask(p), s3, []);
    Chain(sys, SuspendTask(p), s2, [ResumeTask(p)] + []);
  }

  /**
   It takes three calls to lose a task: post to an event whose most urgent waiter is in a
   multi-pend, then suspend that waiter and resume it before it has run. An interrupt handler
   can make them, and so can a task whose post does not call OS_Sched.
   */
  lemma PostSuspendResumeLoses(sys: System, e: EventId, msg: Msg, sched: bool, p: Prio)
    requires Inv(sys) && Enabled(sys, Post(e, msg, PendOk, sched)) && p == Highest(sys.k.waiters[e])
    requires p in sys.phase && sys.phase[p].Pending() && sys.phase[p].multi && p != sys.k.cur
    requires sched ==> sys.k.intNesting > 0
    ensures var steps := [Post(e, msg, PendOk, sched)] + ([SuspendTask(p)] + ([ResumeTask(p)] + []));
            CanRun(sys, steps) && Stuck(After(sys, steps), p)
  {
    var s1 := Next(sys, Post(e, msg, PendOk, sched));
    KeepStep(sys, Post(e, msg, PendOk, sched));
    PostEndsPend(sys, e, msg, sched, p);
    SuspendResumeLoses(s1, p);
    Chain(sys, Post(e, msg, PendOk, sched), s1, [SuspendTask(p)] + ([ResumeTask(p)] + []));
  }

  lemma RescheduleReturns(sys: System, p: Prio)
    requires WellFormed(sys) && PendIsOver(sys, p) && sys.k.running && sys.k.intNesting == 0
    requires sys.phase[sys.k.cur].Yielding? && Sched(sys.k).cur == sys.k.cur
    ensures Enabled(sys, Reschedule)
    ensures PendIsOver(Next(sys, Reschedule), p) && ByAnyone(Next(sys, Reschedule))
  { }

  /** And so can a task that goes on to call OS_Sched, as long as that does not switch to another one. */
  lemma PostRescheduleLoses(sys: System, e: EventId, msg: Msg, p: Prio)
    requires Inv(sys) && Enabled(sys, Post(e, msg, PendOk, true)) && p == Highest(sys.k.waiters[e])
    requires p in sys.phase && sys.phase[p].Pending() && sys.phase[p].multi && p != sys.k.cur
    requires sys.k.intNesting == 0 && Next(sys, Post(e, msg, PendOk, true)).k.ready != {}
    requires Sched(Next(sys, Post(e, msg, PendOk, true)).k).cur == sys.k.cur
    ensures var steps := [Post(e, msg, PendOk, true)] + ([Reschedule] + ([SuspendTask(p)] + ([ResumeTask(p)] + [])));
            CanRun(sys, steps) && Stuck(After(sys, steps), p)
  {
    var s1 := Next(sys, Post(e, msg, PendOk, true));
    KeepStep(sys, Post(e, msg, PendOk, true));
    PostEndsPend(sys, e, msg, true, p);
    RescheduleReturns(s1, p);
    var s2 := Next(s1, Reschedule);
    KeepStep(s1, Reschedule);
    SuspendResumeLoses(s2, p);
    Chain(s1, Reschedule, s2, [SuspendTask(p)] + ([ResumeTask(p)] + []));
    Chain(sys, Post(e, msg, PendOk, true), s1, [Reschedule] + ([SuspendTask(p)] + ([ResumeTask(p)] + [])));
  }

  // ---------------------------------------------------------------- the pend that never ends

  /** What a pend on an empty list leaves: in no list, but for the clock's. */
  lemma EmptyPendState(sys: System, timeout: nat, sys': System)
    requires Inv(sys) && Enabled(sys, Block([], true, timeout)) && sys' == Next(sys, Block([], true, timeout))
    ensures WellFormed(sys') && sys.k.cur < sys.k.idle
    ensures ViewOf(sys', sys.k.cur).t.dly == timeout && Multi in ViewOf(sys', sys.k.cur).t.stat
    ensures ViewOf(sys', sys.k.cur).on == {} && !ViewOf(sys', sys.k.cur).ready
  {
    var v := ViewOf(sys, sys.k.cur);
    assert ViewOk(sys.types, v);
    BlockViews(sys, [], true, timeout, sys');
    assert ViewOf(sys', sys.k.cur) == BlockView(sys.types, v, [], true, timeout);
  }

  /**
   OSEventPendMulti on an empty list of events loses its task exactly when it has no timeout:
   as soon as it has called OS_Sched the task is in no list for ever (StuckForEver). With a
   timeout of n ticks the n-th tick readies it, however the run goes on (DelayEndsOnTime).
   */
  lemma EmptyPendLosesExactly(sys: System, timeout: nat)
    requires Inv(sys) && Enabled(sys, Block([], true, timeout))
    ensures WellFormed(Next(sys, Block([], true, timeout)))
    ensures Enabled(Next(sys, Block([], true, timeout)), Reschedule)
    ensures Stuck(Next(Next(sys, Block([], true, timeout)), Reschedule), sys.k.cur) <==> timeout == 0
  {
    EmptyPendState(sys, timeout, Next(sys, Block([], true, timeout)));
    LeftAlone(Next(sys, Block([], true, timeout)));
  }

  /** The task that is about to call OS_Sched in a pend on nothing, but for a timeout. */
  lemma LeftAlone(sys: System)
    requires WellFormed(sys) && Enabled(sys, Reschedule) && sys.k.intNesting == 0 && sys.k.lockNesting == 0
    requires sys.k.cur in sys.k.tasks && sys.k.cur < sys.k.idle
    requires var v := ViewOf(sys, sys.k.cur); !v.ready && v.on == {} && Multi in v.t.stat
    ensures Stuck(Next(sys, Reschedule), sys.k.cur) <==> ViewOf(sys, sys.k.cur).t.dly == 0
  {
    var p := sys.k.cur;
    forall e | 0 <= e < |sys.k.waiters| ensures p !in sys.k.waiters[e] { assert e !in ViewOf(sys, p).on; }
    SchedLeaves(sys.k, p);
    assert Multi in sys.k.tasks[p].stat && Multi !in {Suspend};
  }

  /** OS_Sched never leaves a task running that is not ready. */
  lemma SchedLeaves(k: State, p: Prio)
    requires k.ready != {} && p !in k.ready && k.intNesting == 0 && k.lockNesting == 0
    ensures Sched(k).cur != p && Sched(k).tasks == k.tasks && Sched(k).ready == k.ready && Sched(k).waiters == k.waiters
  { }

  /** With a timeout the task is ready again once OSTimeTick has got to it that often, unless it is suspended. */
  lemma EmptyPendTimesOut(sys: System, timeout: nat, steps: seq<Step>, last: Step)
    requires Inv(sys) && Enabled(sys, Block([], true, timeout)) && timeout > 0
    requires CanRun(Next(sys, Block([], true, timeout)), steps)
    requires Undisturbed(Next(sys, Block([], true, timeout)), steps, sys.k.cur)
    requires var start := Next(sys, Block([], true, timeout));
             && Ticks(start, steps, sys.k.cur) == timeout - 1
             && Enabled(After(start, steps), last) && TicksTask(After(start, steps), last, sys.k.cur)
    ensures var p, before := sys.k.cur, After(Next(sys, Block([], true, timeout)), steps);
            && WellFormed(before) && p in before.k.tasks
            && (p in Next(before, last).k.ready <==> !Suspended(before.k.tasks[p]))
  {
    var start := Next(sys, Block([], true, timeout));
    KeepStep(sys, Block([], true, timeout));
    EmptyPendState(sys, timeout, start);
    assert start.k.tasks[sys.k.cur] == ViewOf(start, sys.k.cur).t;
    DelayEndsOnTime(start, steps, last, sys.k.cur);
  }
}
