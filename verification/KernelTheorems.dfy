/**
 What holds over every run of the kernel.
 */
module KernelTheorems {
  import opened KernelSpec
  import opened KernelRuns

  // ---------------------------------------------------------------- runs

  ghost predicate CanRun(sys: System, steps: seq<Step>)
    decreases |steps|
  {
    steps == [] || (WellFormed(sys) && Enabled(sys, steps[0]) && CanRun(Next(sys, steps[0]), steps[1..]))
  }

  ghost function After(sys: System, steps: seq<Step>): System
    requires CanRun(sys, steps)
    decreases |steps|
  {
    if steps == [] then sys else After(Next(sys, steps[0]), steps[1..])
  }

  /** OSInit: only the idle task exists, the scheduler is not running and nothing waits. */
  ghost function Init(idle: Prio, types: seq<Flag>): System {
    System(State(idle, false, 0, 0, StepDisabled, map[idle := FRESH_TASK], {idle}, seq(|types|, _ => {}), 0, 0),
           types, map[idle := Normal], map[idle := []])
  }

  /** Every resume in the run is clean. */
  ghost predicate AllClean(sys: System, steps: seq<Step>)
    requires CanRun(sys, steps)
    decreases |steps|
  {
    steps == [] || (Clean(sys, steps[0]) && AllClean(Next(sys, steps[0]), steps[1..]))
  }

  lemma InitHolds(idle: Prio, types: seq<Flag>)
    requires EventTypes(types)
    ensures Inv(Init(idle, types)) && NoneLost(Init(idle, types))
  {
    var sys := Init(idle, types);
    assert WellFormed(sys);
    assert ViewOf(sys, idle) == View(FRESH_TASK, true, {}, Normal, []) by {
      assert On(sys.k, idle) == {};
    }
  }

  lemma {:induction false} RunKeeps(sys: System, steps: seq<Step>)
    requires Inv(sys) && CanRun(sys, steps)
    ensures Inv(After(sys, steps))
    ensures NoneLost(sys) && AllClean(sys, steps) ==> NoneLost(After(sys, steps))
    decreases |steps|
  {
    if steps != [] {
      KeepStep(sys, steps[0]);
      RunKeeps(Next(sys, steps[0]), steps[1..]);
    }
  }

  /** The invariant holds after every run from OSInit. */
  lemma Reachable(idle: Prio, types: seq<Flag>, steps: seq<Step>)
    requires EventTypes(types) && CanRun(Init(idle, types), steps)
    ensures Inv(After(Init(idle, types), steps))
    ensures AllClean(Init(idle, types), steps) ==> NoneLost(After(Init(idle, types), steps))
  {
    InitHolds(idle, types);
    RunKeeps(Init(idle, types), steps);
  }

  lemma StepThenRun(sys: System, step: Step, rest: seq<Step>)
    requires WellFormed(sys) && Enabled(sys, step) && CanRun(Next(sys, step), rest)
    ensures CanRun(sys, [step] + rest)
  {
    assert ([step] + rest)[1..] == rest;
  }

  /** A run from OSInit can go on with every enabled step: nothing else stops it. */
  lemma {:induction false} RunExtends(sys: System, steps: seq<Step>, step: Step)
    requires Inv(sys) && CanRun(sys, steps) && Enabled(After(sys, steps), step)
    ensures CanRun(sys, steps + [step])
    decreases |steps|
  {
    if steps == [] {
      assert CanRun(Next(sys, step), []);
      StepThenRun(sys, step, []);
      assert steps + [step] == [step] + [];
    } else {
      var first, rest := steps[0], steps[1..];
      assert steps + [step] == [first] + (rest + [step]);
      var next := Next(sys, first);
      assert Inv(next) by { KeepStep(sys, first); }
      RunExtends(next, rest, step);
      StepThenRun(sys, first, rest + [step]);
    }
  }

  /** A run from the state after a step, with that step in front. */
  lemma Chain(sys: System, step: Step, next: System, rest: seq<Step>)
    requires WellFormed(sys) && Enabled(sys, step) && Next(sys, step) == next && CanRun(next, rest)
    ensures CanRun(sys, [step] + rest) && After(sys, [step] + rest) == After(next, rest)
  {
    assert ([step] + rest)[1..] == rest;
  }

  // ---------------------------------------------------------------- who is ready

  /**
   When no task has been lost, a task is ready exactly when it is not delayed, not suspended
   and not waiting for an event that may still come.
   */
  lemma ReadyExactly(sys: System, p: Prio)
    requires Inv(sys) && NoneLost(sys) && p in sys.k.tasks
    ensures p in sys.k.ready <==>
            && sys.k.tasks[p].dly == 0
            && !Suspended(sys.k.tasks[p])
            && !(sys.k.tasks[p].statPend != PendTo && exists e :: 0 <= e < |sys.k.waiters| && p in sys.k.waiters[e])
  {
    var v := ViewOf(sys, p);
    assert NotLost(v) && ViewOk(sys.types, v);
    if v.on != {} {
      var e :| e in v.on;
      assert p in sys.k.waiters[e];
    } else {
      forall e | 0 <= e < |sys.k.waiters| ensures p !in sys.k.waiters[e] { assert e !in v.on; }
    }
  }

  // ---------------------------------------------------------------- one event per multi-pend

  ghost predicate BlocksOrFinishes(sys: System, step: Step, p: Prio) {
    sys.k.cur == p && (step.Block? || step.Finish?)
  }

  /** The event a step hands to `p`, if it does. */
  ghost function PostTo(sys: System, step: Step, p: Prio): seq<Delivery>
    requires WellFormed(sys) && Enabled(sys, step)
  {
    if step.Post? && Highest(sys.k.waiters[step.event]) == p
    then [Delivery(step.event, step.msg, step.pendStat)] else []
  }

  /** The events the run hands to `p`, in order. */
  ghost function PostsTo(sys: System, steps: seq<Step>, p: Prio): seq<Delivery>
    requires CanRun(sys, steps)
    decreases |steps|
  {
    if steps == [] then [] else PostTo(sys, steps[0], p) + PostsTo(Next(sys, steps[0]), steps[1..], p)
  }

  /** No step of the run starts or ends a pend of `p`. */
  ghost predicate StaysPending(sys: System, steps: seq<Step>, p: Prio)
    requires CanRun(sys, steps)
    decreases |steps|
  {
    steps == [] || (!BlocksOrFinishes(sys, steps[0], p) && StaysPending(Next(sys, steps[0]), steps[1..], p))
  }

  ghost predicate SamePend(before: System, after: System, p: Prio, posts: seq<Delivery>)
    requires p in before.phase && p in before.got
  {
    && p in after.phase && p in after.got
    && after.phase[p].Pending() && before.phase[p].Pending()
    && after.phase[p].es == before.phase[p].es && after.phase[p].multi == before.phase[p].multi
    && after.got[p] == before.got[p] + posts
  }

  lemma PendingStep(sys: System, step: Step, p: Prio)
    requires WellFormed(sys) && Enabled(sys, step)
    requires p in sys.phase && p in sys.got && sys.phase[p].Pending()
    requires !BlocksOrFinishes(sys, step, p)
    ensures SamePend(sys, Next(sys, step), p, PostTo(sys, step, p))
  {
    assert sys.got[p] + [] == sys.got[p];
  }

  lemma {:induction false} PendingRun(sys: System, steps: seq<Step>, p: Prio)
    requires CanRun(sys, steps) && StaysPending(sys, steps, p)
    requires p in sys.phase && p in sys.got && sys.phase[p].Pending()
    ensures SamePend(sys, After(sys, steps), p, PostsTo(sys, steps, p))
    decreases |steps|
  {
    if steps == [] {
      assert sys.got[p] + [] == sys.got[p];
    } else {
      var next := Next(sys, steps[0]);
      PendingStep(sys, steps[0], p);
      PendingRun(next, steps[1..], p);
      var first, rest := PostTo(sys, steps[0], p), PostsTo(next, steps[1..], p);
      assert (sys.got[p] + first) + rest == sys.got[p] + (first + rest);
    }
  }

  lemma FinishLeavesNone(sys: System)
    requires Inv(sys) && Enabled(sys, Finish)
    ensures forall e | 0 <= e < |sys.k.waiters| :: sys.k.cur !in Next(sys, Finish).k.waiters[e]
  {
    var p, after := sys.k.cur, Next(sys, Finish);
    assert ViewOk(sys.types, ViewOf(sys, p));
    FinishViews(sys, after);
    FinishOk(sys.types, ViewOf(sys, p));
    forall e | 0 <= e < |sys.k.waiters| ensures p !in after.k.waiters[e] {
      assert e !in ViewOf(after, p).on;
    }
  }

  /** The answer a multi-pend is about to return, and what its return leaves behind. */
  lemma MultiPendAnswer(sys: System)
    requires Inv(sys) && Enabled(sys, Finish) && sys.phase[sys.k.cur].multi
    ensures var p := sys.k.cur;
            && |sys.got[p]| <= 1
            && PendMultiOutcome(sys.k.tasks[p]) ==
               (if sys.got[p] == [] then TimedOut
                else if sys.got[p][0].pendStat == PendOk then Posted(sys.got[p][0].event, sys.got[p][0].msg)
                else Aborted(sys.got[p][0].event))
            && (sys.got[p] != [] ==> sys.got[p][0].event in sys.phase[p].es)
    ensures forall e | 0 <= e < |sys.k.waiters| :: sys.k.cur !in Next(sys, Finish).k.waiters[e]
  {
    assert ViewOk(sys.types, ViewOf(sys, sys.k.cur));
    FinishLeavesNone(sys);
  }

  /** The answer a pend on one event is about to return, and what its return leaves behind. */
  lemma PendAnswer(sys: System)
    requires Inv(sys) && Enabled(sys, Finish) && !sys.phase[sys.k.cur].multi
    ensures var p := sys.k.cur;
            var e := sys.phase[p].es[0];
            && |sys.got[p]| <= 1
            && PendOutcome(sys.k.tasks[p], e) ==
               (if sys.got[p] == [] then TimedOut
                else if sys.got[p][0].pendStat == PendOk then Posted(e, sys.got[p][0].msg)
                else Aborted(e))
            && (sys.got[p] != [] ==> sys.got[p][0].event == e)
    ensures forall e | 0 <= e < |sys.k.waiters| :: sys.k.cur !in Next(sys, Finish).k.waiters[e]
  {
    var v := ViewOf(sys, sys.k.cur);
    assert ViewOk(sys.types, v) && v.ready;
    if v.got == [] { assert v.phase.es[0] in v.on; }
    FinishLeavesNone(sys);
  }

  /** From the state in which the pend has begun. */
  lemma MultiPendRun(start: System, es: seq<EventId>, steps: seq<Step>, p: Prio)
    requires Inv(start) && CanRun(start, steps) && StaysPending(start, steps, p)
    requires p in start.phase && start.phase[p] == Entering(es, true) && start.got[p] == []
    requires After(start, steps).k.cur == p && Enabled(After(start, steps), Finish)
    ensures var before := After(start, steps);
            var posts := PostsTo(start, steps, p);
            && |posts| <= 1
            && p in before.k.tasks && WellFormed(before)
            && PendMultiOutcome(before.k.tasks[p]) ==
               (if posts == [] then TimedOut
                else if posts[0].pendStat == PendOk then Posted(posts[0].event, posts[0].msg)
                else Aborted(posts[0].event))
            && (posts != [] ==> posts[0].event in es)
            && (forall e | 0 <= e < |before.k.waiters| :: p !in Next(before, Finish).k.waiters[e])
  {
    PendingRun(start, steps, p);
    RunKeeps(start, steps);
    MultiPendAnswer(After(start, steps));
  }

  /**
   Between the call of OSEventPendMulti and its return at most one event is handed to the
   task, and the call's answer is that event, or a timeout if there was none. Afterwards the
   task is in no wait set. This covers an event that arrives after the timeout tick but before
   the task runs again: it is the answer.
   */
  lemma MultiPendDeliversOnce(sys: System, es: seq<EventId>, timeout: nat, steps: seq<Step>)
    requires Inv(sys) && Enabled(sys, Block(es, true, timeout))
    requires CanRun(Next(sys, Block(es, true, timeout)), steps)
    requires StaysPending(Next(sys, Block(es, true, timeout)), steps, sys.k.cur)
    requires var before := After(Next(sys, Block(es, true, timeout)), steps);
             before.k.cur == sys.k.cur && Enabled(before, Finish)
    ensures var p := sys.k.cur;
            var start := Next(sys, Block(es, true, timeout));
            var before := After(start, steps);
            var posts := PostsTo(start, steps, p);
            && |posts| <= 1
            && p in before.k.tasks && WellFormed(before)
            && PendMultiOutcome(before.k.tasks[p]) ==
               (if posts == [] then TimedOut
                else if posts[0].pendStat == PendOk then Posted(posts[0].event, posts[0].msg)
                else Aborted(posts[0].event))
            && (posts != [] ==> posts[0].event in es)
            && (forall e | 0 <= e < |before.k.waiters| :: p !in Next(before, Finish).k.waiters[e])
  {
    KeepStep(sys, Block(es, true, timeout));
    MultiPendRun(Next(sys, Block(es, true, timeout)), es, steps, sys.k.cur);
  }

  /** While a multi-pend has had no event, the task waits for every listed event and is not ready before its timeout. */
  lemma MultiPendWaitsForAll(sys: System, p: Prio)
    requires Inv(sys) && p in sys.k.tasks && sys.phase[p].Pending()
    ensures sys.got[p] == [] ==> forall e | 0 <= e < |sys.k.waiters| :: p in sys.k.waiters[e] <==> e in sys.phase[p].es
    ensures sys.got[p] != [] ==> forall e | 0 <= e < |sys.k.waiters| :: p !in sys.k.waiters[e]
    ensures sys.got[p] == [] && sys.phase[p].es != [] && p in sys.k.ready ==> sys.k.tasks[p].statPend == PendTo
  {
    var v := ViewOf(sys, p);
    assert ViewOk(sys.types, v);
    forall e | 0 <= e < |sys.k.waiters| ensures p in sys.k.waiters[e] <==> e in v.on { }
    if sys.phase[p].es != [] { assert sys.got[p] == [] ==> sys.phase[p].es[0] in v.on; }
  }

  // ---------------------------------------------------------------- delays and timeouts are exact

  /** Something other than the clock ends or replaces the delay of `p`. */
  ghost predicate Disturbs(sys: System, step: Step, p: Prio)
    requires WellFormed(sys) && Enabled(sys, step)
  {
    match step
    case DelayResume(q) => q == p
    case Post(e, _, _, _) => Highest(sys.k.waiters[e]) == p
    case Delay(_) => sys.k.cur == p
    case Block(_, _, _) => sys.k.cur == p
    case _ => false
  }

  ghost predicate Undisturbed(sys: System, steps: seq<Step>, p: Prio)
    requires CanRun(sys, steps)
    decreases |steps|
  {
    steps == [] || (!Disturbs(sys, steps[0], p) && Undisturbed(Next(sys, steps[0]), steps[1..], p))
  }

  /** In this step OSTimeTick gets to the TCB of `p`. */
  ghost predicate TicksTask(sys: System, step: Step, p: Prio) {
    (step.Tick? && TickIsProcessed(sys.k)) || step == TickTcb(p)
  }

  /** How often OSTimeTick has got to the TCB of `p` in the run. */
  ghost function Ticks(sys: System, steps: seq<Step>, p: Prio): nat
    requires CanRun(sys, steps)
    decreases |steps|
  {
    if steps == [] then 0 else
      (if TicksTask(sys, steps[0], p) then 1 else 0) + Ticks(Next(sys, steps[0]), steps[1..], p)
  }

  lemma DelayStep(sys: System, step: Step, p: Prio)
    requires WellFormed(sys) && Enabled(sys, step) && p in sys.k.tasks && p < sys.k.idle
    requires !Disturbs(sys, step, p)
    ensures var sys' := Next(sys, step);
            && p in sys'.k.tasks && sys'.k.idle == sys.k.idle
            && sys'.k.tasks[p].dly ==
               if TicksTask(sys, step, p) && sys.k.tasks[p].dly > 0 then sys.k.tasks[p].dly - 1 else sys.k.tasks[p].dly
  {
    if step.Tick? || step.TickTcb? { TickingStep(sys, step, p); }
  }

  lemma TickingStep(sys: System, step: Step, p: Prio)
    requires WellFormed(sys) && Enabled(sys, step) && p in sys.k.tasks && p < sys.k.idle
    requires step.Tick? || step.TickTcb?
    ensures var sys' := Next(sys, step);
            && p in sys'.k.tasks && sys'.k.idle == sys.k.idle
            && sys'.k.tasks[p].dly ==
               if TicksTask(sys, step, p) && sys.k.tasks[p].dly > 0 then sys.k.tasks[p].dly - 1 else sys.k.tasks[p].dly
  { }

  lemma {:induction false} DelayCountsTicks(sys: System, steps: seq<Step>, p: Prio)
    requires CanRun(sys, steps) && Undisturbed(sys, steps, p)
    requires p in sys.k.tasks && p < sys.k.idle
    ensures var sys' := After(sys, steps);
            && p in sys'.k.tasks && sys'.k.idle == sys.k.idle
            && sys'.k.tasks[p].dly ==
               if Ticks(sys, steps, p) < sys.k.tasks[p].dly then sys.k.tasks[p].dly - Ticks(sys, steps, p) else 0
    decreases |steps|
  {
    if steps != [] {
      DelayStep(sys, steps[0], p);
      DelayCountsTicks(Next(sys, steps[0]), steps[1..], p);
    }
  }

  /** The tick that ends a delay readies the task unless it is suspended. */
  lemma LastTick(sys: System, step: Step, p: Prio)
    requires Inv(sys) && Enabled(sys, step) && TicksTask(sys, step, p)
    requires p in sys.k.tasks && p < sys.k.idle && sys.k.tasks[p].dly == 1
    ensures p in Next(sys, step).k.ready <==> !Suspended(sys.k.tasks[p])
  {
    assert ViewOk(sys.types, ViewOf(sys, p));
    if step.Tick? { TickViews(sys, Next(sys, step)); } else { TickTcbViews(sys, p, Next(sys, step)); }
    assert ViewOf(Next(sys, step), p).ready <==> p in Next(sys, step).k.ready;
  }

  /**
   A delay or a timeout of n ticks, left alone, keeps the task off the ready set until
   OSTimeTick has got to its TCB n-1 times, and the n-th time readies it unless it is
   suspended, whatever happens between the TCBs of one tick.
   */
  lemma DelayEndsOnTime(sys: System, steps: seq<Step>, last: Step, p: Prio)
    requires Inv(sys) && CanRun(sys, steps) && Undisturbed(sys, steps, p)
    requires p in sys.k.tasks && p < sys.k.idle && sys.k.tasks[p].dly > 0
    ensures Ticks(sys, steps, p) < sys.k.tasks[p].dly ==> p !in After(sys, steps).k.ready
    ensures WellFormed(After(sys, steps))
    ensures var before := After(sys, steps);
            Ticks(sys, steps, p) == sys.k.tasks[p].dly - 1 && Enabled(before, last) && TicksTask(before, last, p)
            ==> p in before.k.tasks && (p in Next(before, last).k.ready <==> !Suspended(before.k.tasks[p]))
  {
    RunKeeps(sys, steps);
    DelayCountsTicks(sys, steps, p);
    var before := After(sys, steps);
    assert ViewOk(before.types, ViewOf(before, p));
    if Ticks(sys, steps, p) == sys.k.tasks[p].dly - 1 && Enabled(before, last) && TicksTask(before, last, p) {
      LastTick(before, last, p);
    }
  }

  /**
   From the call on: a delay of n ticks, or a pend with a timeout of n, keeps its task off the ready
   set until OSTimeTick has got to its TCB n times, unless something other than the clock ends it.
   */
  lemma CallLasts(sys: System, call: Step, n: nat, steps: seq<Step>, last: Step)
    requires Inv(sys) && Enabled(sys, call) && n > 0 && (call == Delay(n) || (call.Block? && call.timeout == n))
    requires CanRun(Next(sys, call), steps) && Undisturbed(Next(sys, call), steps, sys.k.cur)
    ensures WellFormed(After(Next(sys, call), steps))
    ensures var start, p := Next(sys, call), sys.k.cur;
            var before := After(start, steps);
            && (Ticks(start, steps, p) < n ==> p !in before.k.ready)
            && (Ticks(start, steps, p) == n - 1 && Enabled(before, last) && TicksTask(before, last, p)
                ==> p in before.k.tasks && (p in Next(before, last).k.ready <==> !Suspended(before.k.tasks[p])))
  {
    KeepStep(sys, call);
    CallSetsDelay(sys, call, n);
    DelayEndsOnTime(Next(sys, call), steps, last, sys.k.cur);
  }

  lemma CallSetsDelay(sys: System, call: Step, n: nat)
    requires Inv(sys) && Enabled(sys, call) && n > 0 && (call == Delay(n) || (call.Block? && call.timeout == n))
    ensures var k := Next(sys, call).k; sys.k.cur in k.tasks && k.tasks[sys.k.cur].dly == n && sys.k.cur < k.idle
  { }
}
