/**
 Runs of the kernel: every interleaving of task-level calls, interrupt handlers and clock
 ticks, one critical section at a time. A task that is inside a pend or a yielding call
 carries the phase of that call, and the events handed to it are recorded. OSTimeTick is one
 step, Tick, when nothing happens between two of its critical sections, and otherwise a step
 TickTcb for each TCB, with other steps in between.
 */
module KernelRuns {
  import opened Basics
  import opened KernelSpec

  /** An event handed to a pending task by OS_EventTaskRdy. */
  datatype Delivery = Delivery(event: EventId, msg: Msg, pendStat: PendStat)

  /** Where a task stands in its own code. */
  datatype Phase =
    | Normal                                       // outside the kernel
    | Yielding                                     // about to call OS_Sched, then back to Normal
    | Entering(es: seq<EventId>, multi: bool)      // in a pend, about to call OS_Sched
    | Waiting(es: seq<EventId>, multi: bool)       // in a pend, its OS_Sched called
  {
    predicate Pending() { Entering? || Waiting? }
  }

  datatype System = System(k: State, types: seq<Flag>, phase: map<Prio, Phase>, got: map<Prio, seq<Delivery>>)

  /**
   `Post` is one call of OS_EventTaskRdy; `sched` says that OS_Sched follows. A broadcast or an
   abort of several waiters is a post for each before that.
   */
  datatype Step =
    | Create(p: Prio) | StartTasks
    | Tick | TickTcb(p: Prio) | EnterInterrupt | ExitInterrupt
    | Lock | Unlock | Reschedule
    | Delay(ticks: nat) | DelayResume(p: Prio) | SuspendTask(p: Prio) | ResumeTask(p: Prio)
    | Post(event: EventId, msg: Msg, pendStat: PendStat, sched: bool)
    | Block(es: seq<EventId>, multi: bool, timeout: nat)
    | Finish

  ghost predicate EventTypes(types: seq<Flag>) {
    forall e | 0 <= e < |types| :: types[e] in {Sem, Mbox, Q, Mutex, EventFlag}
  }

  ghost function Flags(types: seq<Flag>, es: seq<EventId>): set<Flag>
    requires forall e | e in es :: e < |types|
  {
    set e | e in es :: types[e]
  }

  // ---------------------------------------------------------------- one step

  /** A call made by the running task itself, from outside the kernel. */
  ghost predicate ByTask(sys: System) {
    sys.k.running && sys.k.intNesting == 0 && sys.k.cur in sys.phase && sys.phase[sys.k.cur].Normal?
  }

  /** A call that tasks and interrupt handlers may both make. */
  ghost predicate ByAnyone(sys: System) {
    sys.k.running && (sys.k.intNesting > 0 || ByTask(sys))
  }

  ghost predicate Enabled(sys: System, step: Step) {
    var k := sys.k;
    match step
    case Create(p) => p < k.idle && p !in k.tasks && k.intNesting == 0 && (k.running ==> ByTask(sys))
    case StartTasks => !k.running
    case Tick => k.running ==> ByAnyone(sys)
    case TickTcb(p) => ByAnyone(sys) && p in k.tasks && p != k.idle
    case EnterInterrupt => true
    case ExitInterrupt => true
    case Lock => ByTask(sys)
    case Unlock => ByTask(sys)
    case Reschedule =>
      k.running && k.cur in sys.phase && (k.intNesting > 0 || !sys.phase[k.cur].Waiting?)
    case Delay(ticks) => ByTask(sys) && k.cur != k.idle && ticks > 0
    case DelayResume(p) => ByAnyone(sys)
    case SuspendTask(p) => ByAnyone(sys)
    case ResumeTask(p) => ByAnyone(sys)
    case Post(e, msg, pendStat, sched) =>
      && (ByAnyone(sys) || (sched && k.running && k.cur in sys.phase && sys.phase[k.cur].Yielding?))
      && e < |k.waiters| && k.waiters[e] != {} && pendStat != PendTo
    case Block(es, multi, timeout) =>
      && ByTask(sys) && k.lockNesting == 0 && k.cur != k.idle
      && (forall e | e in es :: e < |k.waiters|)
      && (!multi ==> |es| == 1)
    case Finish => k.running && k.intNesting == 0 && k.cur in sys.phase && sys.phase[k.cur].Waiting?
  }

  /** The phase after the task's call of OS_Sched. */
  ghost function AfterSched(ph: Phase): Phase {
    match ph
    case Yielding => Normal
    case Entering(es, multi) => Waiting(es, multi)
    case _ => ph
  }

  ghost function Blocked(k: State, types: seq<Flag>, es: seq<EventId>, multi: bool, timeout: nat): State
    requires k.cur in k.tasks && (forall e | e in es :: e < |types|)
    requires !multi ==> |es| == 1
  {
    var flags := Flags(types, es) + if multi then {Multi} else {};
    var prepared := PrepareToPend(k, flags, timeout);
    if multi then EventTaskWaitMulti(prepared, es) else EventTaskWait(prepared, es[0])
  }

  /** What the step does before its call of OS_Sched, if it is a call that ends in one. */
  ghost function Effect(sys: System, step: Step): System
    requires WellFormed(sys) && Enabled(sys, step)
  {
    var k := sys.k;
    match step
    case Create(p) => System(TaskCreate(k, p), sys.types, sys.phase[p := Normal], sys.got[p := []])
    case StartTasks => sys.(k := Start(k))
    case Tick => sys.(k := TimeTick(k))
    case TickTcb(p) => sys.(k := TickOne(k, p))
    case EnterInterrupt => sys.(k := IntEnter(k))
    case ExitInterrupt => sys.(k := IntExit(k))
    case Lock => sys.(k := SchedLock(k))
    case Unlock =>
      var k' := Unlocked(k);
      sys.(k := k', phase := sys.phase[k.cur := if k.lockNesting == 1 then Yielding else Normal])
    case Reschedule =>
      if k.intNesting > 0 then sys else
        sys.(k := Sched(k), phase := sys.phase[k.cur := AfterSched(sys.phase[k.cur])])
    case Delay(ticks) => sys.(k := TimeDly(k, ticks), phase := sys.phase[k.cur := Yielding])
    case DelayResume(p) => sys.(k := TimeDlyResume(k, p))
    case SuspendTask(p) =>
      sys.(k := TaskSuspend(k, p),
           phase := if p == k.cur && k.intNesting == 0 then sys.phase[p := Yielding] else sys.phase)
    case ResumeTask(p) => sys.(k := TaskResume(k, p))
    case Post(e, msg, pendStat, _) =>
      var p := Highest(k.waiters[e]);
      sys.(k := EventTaskRdy(k, e, msg, {sys.types[e]}, pendStat),
           got := sys.got[p := sys.got[p] + [Delivery(e, msg, pendStat)]])
    case Block(es, multi, timeout) =>
      sys.(k := Blocked(k, sys.types, es, multi, timeout),
           phase := sys.phase[k.cur := Entering(es, multi)],
           got := sys.got[k.cur := []])
    case Finish =>
      var ph := sys.phase[k.cur];
      sys.(k := if ph.multi then PendMultiFinish(k, ph.es) else PendFinish(k, ph.es[0]),
           phase := sys.phase[k.cur := Normal])
  }

  /**
   Task code goes on to call OS_Sched. OSTaskCreate always does, OSTimeDlyResume and OSTaskResume
   when they have readied the task, and a post or an abort unless it is told not to.
   */
  ghost predicate Yields(sys: System, step: Step) {
    && sys.k.running && sys.k.intNesting == 0
    && match step
       case Create(_) => true
       case DelayResume(p) =>
         p < sys.k.idle && p in sys.k.tasks && sys.k.tasks[p].dly > 0 && !Suspended(sys.k.tasks[p])
       case ResumeTask(p) =>
         && p < sys.k.idle && p in sys.k.tasks && Suspended(sys.k.tasks[p])
         && sys.k.tasks[p].stat - {Suspend} == {} && sys.k.tasks[p].dly == 0
       case Post(_, _, _, sched) => sched
       case _ => false
  }

  /** The running task is about to call OS_Sched. */
  ghost function Yielded(sys: System): System { sys.(phase := sys.phase[sys.k.cur := Yielding]) }

  ghost function Next(sys: System, step: Step): System
    requires WellFormed(sys) && Enabled(sys, step)
  {
    if Yields(sys, step) then Yielded(Effect(sys, step)) else Effect(sys, step)
  }

  ghost predicate WellFormed(sys: System) {
    && Valid(sys.k)
    && sys.phase.Keys == sys.got.Keys == sys.k.tasks.Keys
    && |sys.types| == |sys.k.waiters| && EventTypes(sys.types)
    && (forall p | p in sys.phase && sys.phase[p].Pending() :: !sys.phase[p].multi ==> |sys.phase[p].es| == 1)
  }

  // ---------------------------------------------------------------- one task's view

  /** Everything the invariant says about one task is said about this projection. */
  datatype View = View(t: Task, ready: bool, on: set<EventId>, phase: Phase, got: seq<Delivery>)

  ghost function ViewOf(sys: System, p: Prio): View
    requires WellFormed(sys) && p in sys.k.tasks
  {
    View(sys.k.tasks[p], p in sys.k.ready, On(sys.k, p), sys.phase[p], sys.got[p])
  }

  /** The events whose wait sets hold `p`. */
  ghost function On(k: State, p: Prio): set<EventId> {
    set e | 0 <= e < |k.waiters| && p in k.waiters[e]
  }

  /** The task waits for an event that may still come. */
  ghost predicate BlockedView(v: View) { v.on != {} && v.t.statPend != PendTo }

  ghost predicate Undelivered(types: seq<Flag>, v: View, es: seq<EventId>, multi: bool)
    requires forall e | e in es :: e < |types|
    requires !multi ==> |es| == 1
  {
    && v.got == []
    && v.on == (set e | e in es)
    && v.t.event == (if multi then None else Some(es[0]))
    && v.t.statPend != PendAbort
    && (v.t.statPend == PendOk ==> Flags(types, es) <= v.t.stat)
    && (v.t.statPend == PendTo ==> v.t.dly == 0 && v.t.stat !! PEND_ANY)
  }

  ghost predicate Delivered(v: View, es: seq<EventId>, multi: bool) {
    && |v.got| == 1
    && v.on == {}
    && v.got[0].event in es
    && v.got[0].pendStat != PendTo
    && v.t.event == Some(v.got[0].event)
    && v.t.msg == v.got[0].msg
    && v.t.statPend == v.got[0].pendStat
    && v.t.dly == 0
    && (!multi ==> v.t.stat <= {Suspend})
  }

  ghost predicate PhaseOk(types: seq<Flag>, v: View) {
    match v.phase
    case Normal => Idling(v)
    case Yielding => Idling(v)
    case Entering(es, multi) => PendingOk(types, v, es, multi)
    case Waiting(es, multi) => PendingOk(types, v, es, multi)
  }

  ghost predicate Idling(v: View) {
    v.on == {} && v.t.stat <= {Suspend} && v.t.statPend == PendOk && v.t.event == None && v.t.multi == None
  }

  ghost predicate PendingOk(types: seq<Flag>, v: View, es: seq<EventId>, multi: bool) {
    && (forall e | e in es :: e < |types|)
    && (!multi ==> |es| == 1)
    && v.t.multi == (if multi then Some(es) else None)
    && v.t.stat <= Flags(types, es) + {Suspend} + (if multi then {Multi} else {})
    && (multi ==> Multi in v.t.stat)
    && (Undelivered(types, v, es, multi) || Delivered(v, es, multi))
  }

  ghost predicate ViewOk(types: seq<Flag>, v: View) {
    && PhaseOk(types, v)
    && (v.ready ==> v.t.dly == 0 && !Suspended(v.t) && !BlockedView(v))
  }

  /** A task that could run is never left out of the ready set. */
  ghost predicate NotLost(v: View) {
    !v.ready && !Suspended(v.t) && v.t.dly == 0 ==> BlockedView(v)
  }

  ghost predicate Inv(sys: System) {
    && WellFormed(sys)
    && sys.phase[sys.k.idle] in {Normal, Yielding}
    && (forall p | p in sys.k.tasks :: p <= sys.k.idle)
    && AllViewsOk(sys)
    && (sys.k.running && sys.phase[sys.k.cur].Pending() ==> sys.k.lockNesting == 0)
    && (!sys.k.running ==> sys.k.lockNesting == 0 && sys.k.intNesting == 0)
    && CurIsReady(sys)
  }

  ghost predicate AllViewsOk(sys: System)
    requires WellFormed(sys)
  {
    forall p {:trigger ViewOf(sys, p)} | p in sys.k.tasks :: ViewOk(sys.types, ViewOf(sys, p))
  }

  /** Outside the scheduler's blind spots the running task is a ready task. */
  ghost predicate CurIsReady(sys: System)
    requires WellFormed(sys)
  {
    sys.k.running && sys.k.intNesting == 0 && sys.k.lockNesting == 0
    && (sys.phase[sys.k.cur].Normal? || sys.phase[sys.k.cur].Waiting?)
    ==> sys.k.cur in sys.k.ready
  }

  ghost predicate NoneLost(sys: System)
    requires WellFormed(sys)
  {
    forall p | p in sys.k.tasks :: NotLost(ViewOf(sys, p))
  }

  // ---------------------------------------------------------------- the invariant is kept

  lemma OnRemoved(k: State, k': State, p: Prio, q: Prio, es: seq<EventId>)
    requires k'.waiters == Removed(k.waiters, q, es)
    ensures On(k', p) == if p == q then On(k, p) - (set e | e in es) else On(k, p)
  { }

  lemma OnAdded(k: State, k': State, p: Prio, q: Prio, es: seq<EventId>)
    requires k'.waiters == Added(k.waiters, q, es)
    requires forall e | e in es :: e < |k.waiters|
    ensures On(k', p) == if p == q then On(k, p) + (set e | e in es) else On(k, p)
  { }

  // How each step changes the views of the tasks.

  ghost function TickView(v: View): View {
    v.(t := TickTask(v.t), ready := v.ready || TickWakes(v.t))
  }

  ghost function ExpireView(v: View): View {
    v.(t := Expire(v.t), ready := v.ready || !Suspended(v.t))
  }

  ghost function ResumeView(v: View): View {
    var t := v.t.(stat := v.t.stat - {Suspend});
    v.(t := t, ready := v.ready || (t.stat == {} && t.dly == 0))
  }

  ghost function PostView(v: View, flag: Flag, d: Delivery): View {
    var t := v.t.(dly := 0, msg := d.msg, stat := v.t.stat - {flag}, statPend := d.pendStat,
                  event := if v.t.multi.Some? then Some(d.event) else v.t.event);
    var es := if v.t.multi.Some? then [d.event] + v.t.multi.value else [d.event];
    v.(t := t, ready := v.ready || !Suspended(v.t), on := v.on - (set e | e in es), got := v.got + [d])
  }

  ghost function BlockView(types: seq<Flag>, v: View, es: seq<EventId>, multi: bool, timeout: nat): View
    requires (forall e | e in es :: e < |types|) && (!multi ==> |es| == 1)
  {
    var flags := Flags(types, es) + if multi then {Multi} else {};
    View(v.t.(dly := timeout, stat := v.t.stat + flags, statPend := PendOk,
              event := if multi then None else Some(es[0]),
              multi := if multi then Some(es) else v.t.multi),
         false, v.on + (set e | e in es), Entering(es, multi), [])
  }

  ghost function FinishView(v: View): View
    requires v.phase.Waiting? && (!v.phase.multi ==> |v.phase.es| == 1)
  {
    var timedOut := if v.phase.multi then PendMultiOutcome(v.t).TimedOut? else v.t.statPend == PendTo;
    View(Task(v.t.dly, {}, PendOk, None, None, if v.phase.multi then NULL_MSG else v.t.msg),
         v.ready, if timedOut then v.on - (set e | e in v.phase.es) else v.on, Normal, v.got)
  }

  ghost predicate OthersKept(sys: System, sys': System, p: Prio)
    requires WellFormed(sys) && WellFormed(sys')
  {
    && sys.k.tasks.Keys <= sys'.k.tasks.Keys
    && forall q {:trigger ViewOf(sys', q)} | q in sys.k.tasks && q != p :: ViewOf(sys', q) == ViewOf(sys, q)
  }

  lemma OthersKeptFrom(sys: System, sys': System, p: Prio)
    requires WellFormed(sys) && WellFormed(sys')
    requires sys.k.tasks.Keys <= sys'.k.tasks.Keys
    requires forall q {:trigger sys'.k.tasks[q]} | q in sys.k.tasks && q != p ::
               && sys'.k.tasks[q] == sys.k.tasks[q]
               && (q in sys'.k.ready <==> q in sys.k.ready)
               && sys'.phase[q] == sys.phase[q] && sys'.got[q] == sys.got[q]
    requires |sys'.k.waiters| == |sys.k.waiters|
    requires forall e | 0 <= e < |sys.k.waiters| :: sys'.k.waiters[e] - {p} == sys.k.waiters[e] - {p}
    ensures OthersKept(sys, sys', p)
  {
    forall q | q in sys.k.tasks && q != p
      ensures ViewOf(sys', q) == ViewOf(sys, q)
    {
      assert forall e | 0 <= e < |sys.k.waiters| :: q in sys'.k.waiters[e] - {p} <==> q in sys.k.waiters[e] - {p};
      assert On(sys'.k, q) == On(sys.k, q);
    }
  }

  /** Steps that only move counters, the current task and phases. */
  lemma SameTasksViews(sys: System, sys': System)
    requires WellFormed(sys)
    requires sys'.k.waiters == sys.k.waiters && sys'.k.tasks == sys.k.tasks && sys'.k.ready == sys.k.ready
    requires sys'.types == sys.types && sys'.got == sys.got && sys'.k.idle == sys.k.idle
    requires sys'.phase.Keys == sys.phase.Keys
    requires forall p | p in sys.phase :: sys'.phase[p] == sys.phase[p] || sys'.phase[p] == AfterSched(sys.phase[p])
                                          || (sys.phase[p] == Normal && sys'.phase[p] == Yielding)
    requires sys'.k.running ==> sys'.k.cur in sys.k.tasks
    ensures WellFormed(sys')
    ensures forall p {:trigger ViewOf(sys', p)} | p in sys.k.tasks ::
              ViewOf(sys', p) == ViewOf(sys, p).(phase := sys'.phase[p])
  {
    forall p | p in sys.phase && sys'.phase[p].Pending()
      ensures !sys'.phase[p].multi ==> |sys'.phase[p].es| == 1
    {
      assert sys.phase[p].Pending();
    }
    forall p | p in sys.k.tasks
      ensures ViewOf(sys', p) == ViewOf(sys, p).(phase := sys'.phase[p])
    {
      assert On(sys'.k, p) == On(sys.k, p);
    }
  }

  lemma TickViews(sys: System, sys': System)
    requires WellFormed(sys) && Enabled(sys, Tick) && sys' == Effect(sys, Tick)
    ensures WellFormed(sys')
    ensures forall p {:trigger ViewOf(sys', p)} | p in sys.k.tasks ::
              ViewOf(sys', p) ==
              if TickIsProcessed(sys.k) && p != sys.k.idle then TickView(ViewOf(sys, p)) else ViewOf(sys, p)
  {
    assert sys'.k.waiters == sys.k.waiters;
    assert sys'.k.tasks.Keys == sys.k.tasks.Keys;
    forall p | p in sys.k.tasks
      ensures ViewOf(sys', p) ==
              if TickIsProcessed(sys.k) && p != sys.k.idle then TickView(ViewOf(sys, p)) else ViewOf(sys, p)
    {
      assert On(sys'.k, p) == On(sys.k, p);
    }
  }

  lemma CreateViews(sys: System, p: Prio, sys': System)
    requires WellFormed(sys) && Enabled(sys, Create(p)) && sys' == Effect(sys, Create(p))
    ensures WellFormed(sys') && OthersKept(sys, sys', p)
    ensures ViewOf(sys', p) == View(FRESH_TASK, true, {}, Normal, [])
  {
    OthersKeptFrom(sys, sys', p);
    assert On(sys'.k, p) == {};
  }

  lemma DelayViews(sys: System, ticks: nat, sys': System)
    requires WellFormed(sys) && Enabled(sys, Delay(ticks)) && sys' == Effect(sys, Delay(ticks))
    ensures WellFormed(sys') && OthersKept(sys, sys', sys.k.cur)
    ensures var v := ViewOf(sys, sys.k.cur);
            ViewOf(sys', sys.k.cur) == v.(t := v.t.(dly := ticks), ready := false, phase := Yielding)
  {
    assert sys'.k.tasks.Keys == sys.k.tasks.Keys;
    OthersKeptFrom(sys, sys', sys.k.cur);
    assert On(sys'.k, sys.k.cur) == On(sys.k, sys.k.cur);
  }

  lemma DelayResumeViews(sys: System, p: Prio, sys': System)
    requires WellFormed(sys) && Enabled(sys, DelayResume(p)) && sys' == Effect(sys, DelayResume(p))
    ensures WellFormed(sys') && OthersKept(sys, sys', p)
    ensures p in sys.k.tasks ==>
              ViewOf(sys', p) == if p < sys.k.idle && sys.k.tasks[p].dly > 0 then ExpireView(ViewOf(sys, p))
                                 else ViewOf(sys, p)
  {
    assert sys'.k.tasks.Keys == sys.k.tasks.Keys;
    OthersKeptFrom(sys, sys', p);
    assert On(sys'.k, p) == On(sys.k, p);
  }

  lemma SuspendViews(sys: System, p: Prio, sys': System)
    requires WellFormed(sys) && Enabled(sys, SuspendTask(p)) && sys' == Effect(sys, SuspendTask(p))
    ensures WellFormed(sys') && OthersKept(sys, sys', p)
    ensures p in sys.k.tasks ==>
              var v := ViewOf(sys, p).(phase := sys'.phase[p]);
              ViewOf(sys', p) == if p < sys.k.idle then v.(t := v.t.(stat := v.t.stat + {Suspend}), ready := false)
                                 else v
  {
    assert sys'.k.tasks.Keys == sys.k.tasks.Keys;
    OthersKeptFrom(sys, sys', p);
    assert On(sys'.k, p) == On(sys.k, p);
  }

  lemma ResumeViews(sys: System, p: Prio, sys': System)
    requires WellFormed(sys) && Enabled(sys, ResumeTask(p)) && sys' == Effect(sys, ResumeTask(p))
    ensures WellFormed(sys') && OthersKept(sys, sys', p)
    ensures p in sys.k.tasks ==>
              ViewOf(sys', p) == if p < sys.k.idle && Suspended(sys.k.tasks[p]) then ResumeView(ViewOf(sys, p))
                                 else ViewOf(sys, p)
  {
    assert sys'.k.tasks.Keys == sys.k.tasks.Keys;
    OthersKeptFrom(sys, sys', p);
    assert On(sys'.k, p) == On(sys.k, p);
  }

  lemma PostViews(sys: System, e: EventId, msg: Msg, pendStat: PendStat, sched: bool, sys': System)
    requires WellFormed(sys) && Enabled(sys, Post(e, msg, pendStat, sched))
    requires sys' == Effect(sys, Post(e, msg, pendStat, sched))
    ensures WellFormed(sys') && OthersKept(sys, sys', Highest(sys.k.waiters[e]))
    ensures var p := Highest(sys.k.waiters[e]);
            && p in sys.k.tasks
            && e in ViewOf(sys, p).on
            && ViewOf(sys', p) == PostView(ViewOf(sys, p), sys.types[e], Delivery(e, msg, pendStat))
  {
    var p := Highest(sys.k.waiters[e]);
    assert sys'.k.tasks.Keys == sys.k.tasks.Keys;
    OthersKeptFrom(sys, sys', p);
    var t := sys.k.tasks[p];
    OnRemoved(sys.k, sys'.k, p, p, if t.multi.Some? then [e] + t.multi.value else [e]);
  }

  lemma BlockViews(sys: System, es: seq<EventId>, multi: bool, timeout: nat, sys': System)
    requires WellFormed(sys) && Enabled(sys, Block(es, multi, timeout))
    requires sys' == Effect(sys, Block(es, multi, timeout))
    ensures WellFormed(sys') && OthersKept(sys, sys', sys.k.cur)
    ensures ViewOf(sys', sys.k.cur) == BlockView(sys.types, ViewOf(sys, sys.k.cur), es, multi, timeout)
  {
    hide EventTypes;
    assert sys'.k.tasks.Keys == sys.k.tasks.Keys;
    OthersKeptFrom(sys, sys', sys.k.cur);
    assert !multi ==> es == [es[0]];
    OnAdded(sys.k, sys'.k, sys.k.cur, sys.k.cur, es);
  }

  lemma FinishOthers(sys: System, sys': System)
    requires WellFormed(sys) && Enabled(sys, Finish) && sys' == Effect(sys, Finish)
    ensures WellFormed(sys') && OthersKept(sys, sys', sys.k.cur)
  {
    var ph := sys.phase[sys.k.cur];
    assert sys'.k.tasks.Keys == sys.k.tasks.Keys;
    assert !ph.multi ==> ph.es == [ph.es[0]];
    OthersKeptFrom(sys, sys', sys.k.cur);
  }

  lemma FinishViews(sys: System, sys': System)
    requires WellFormed(sys) && Enabled(sys, Finish) && sys' == Effect(sys, Finish)
    ensures WellFormed(sys') && OthersKept(sys, sys', sys.k.cur)
    ensures ViewOf(sys', sys.k.cur) == FinishView(ViewOf(sys, sys.k.cur))
  {
    var ph := sys.phase[sys.k.cur];
    FinishOthers(sys, sys');
    if sys'.k.waiters == sys.k.waiters {
      assert On(sys'.k, sys.k.cur) == On(sys.k, sys.k.cur);
    } else {
      OnRemoved(sys.k, sys'.k, sys.k.cur, sys.k.cur, ph.es);
    }
    assert !ph.multi ==> ph.es == [ph.es[0]];
  }

  // What each change of a view keeps.

  lemma ExpireOk(types: seq<Flag>, v: View)
    requires ViewOk(types, v) && EventTypes(types) && v.t.dly > 0
    ensures ViewOk(types, ExpireView(v))
    ensures NotLost(ExpireView(v))
  {
    if v.phase.Pending() {
      var es := v.phase.es;
      assert Undelivered(types, v, es, v.phase.multi);
      if es != [] {
        assert es[0] in v.on && types[es[0]] in Flags(types, es);
        assert types[es[0]] in v.t.stat * PEND_ANY;
      } else {
        assert v.t.stat * PEND_ANY == {};
      }
    } else {
      assert v.t.stat * PEND_ANY == {};
    }
  }

  lemma TickOk(types: seq<Flag>, v: View)
    requires ViewOk(types, v) && EventTypes(types)
    ensures ViewOk(types, TickView(v))
    ensures NotLost(v) ==> NotLost(TickView(v))
  {
    if v.t.dly == 1 { ExpireOk(types, v); }
  }

  lemma SuspendOk(types: seq<Flag>, v: View, ph: Phase)
    requires ViewOk(types, v)
    requires ph == v.phase || (v.phase == Normal && ph == Yielding)
    ensures ViewOk(types, v.(phase := ph))
    ensures ViewOk(types, v.(phase := ph, t := v.t.(stat := v.t.stat + {Suspend}), ready := false))
    ensures NotLost(v.(phase := ph, t := v.t.(stat := v.t.stat + {Suspend}), ready := false))
    ensures NotLost(v) ==> NotLost(v.(phase := ph))
  { }

  lemma ResumeOk(types: seq<Flag>, v: View)
    requires ViewOk(types, v) && EventTypes(types)
    ensures ViewOk(types, ResumeView(v))
  {
    if v.phase.Pending() && v.phase.es != [] {
      assert v.phase.es[0] in v.phase.es;
      if Undelivered(types, v, v.phase.es, v.phase.multi) {
        assert types[v.phase.es[0]] in Flags(types, v.phase.es);
      }
    }
  }

  lemma PostOk(types: seq<Flag>, v: View, d: Delivery)
    requires ViewOk(types, v) && EventTypes(types)
    requires d.event in v.on && d.event < |types| && d.pendStat != PendTo
    ensures ViewOk(types, PostView(v, types[d.event], d))
    ensures NotLost(PostView(v, types[d.event], d))
    ensures v.got == [] && PostView(v, types[d.event], d).on == {}
  {
    assert Undelivered(types, v, v.phase.es, v.phase.multi);
    if !v.phase.multi { assert v.phase.es == [d.event]; }
  }

  lemma BlockOk(types: seq<Flag>, v: View, es: seq<EventId>, multi: bool, timeout: nat)
    requires ViewOk(types, v) && EventTypes(types) && v.phase.Normal?
    requires (forall e | e in es :: e < |types|) && (!multi ==> |es| == 1)
    ensures ViewOk(types, BlockView(types, v, es, multi, timeout))
    ensures v.ready ==> (NotLost(BlockView(types, v, es, multi, timeout)) <==> PendCanEnd(es, timeout))
  {
    var v' := BlockView(types, v, es, multi, timeout);
    if es != [] { assert es[0] in v'.on; }
    assert v'.on == set e | e in es;
    assert Undelivered(types, v', es, multi);
    assert PendingOk(types, v', es, multi);
  }

  lemma FinishOk(types: seq<Flag>, v: View)
    requires ViewOk(types, v) && v.ready && v.phase.Waiting?
    ensures ViewOk(types, FinishView(v)) && NotLost(FinishView(v))
  { }

  // ---------------------------------------------------------------- every step

  /**
   Two steps can lose a task. OSTaskResume readies a task only when no other bit of OSTCBStat
   is left, but neither a post to a multi-pend nor its timeout clears them all.
   */
  ghost predicate ResumeIsClean(sys: System, p: Prio)
    requires WellFormed(sys) && p in sys.k.tasks
  {
    var v := ViewOf(sys, p);
    v.t.stat <= {Suspend} || v.t.dly > 0 || BlockedView(v)
  }

  /** And OSEventPendMulti takes an empty list of events, which only a timeout can end. */
  ghost predicate PendCanEnd(es: seq<EventId>, timeout: nat) { es != [] || timeout > 0 }

  /** The step loses no task. */
  ghost predicate Clean(sys: System, step: Step)
    requires WellFormed(sys)
  {
    && (step.ResumeTask? && step.p < sys.k.idle && step.p in sys.k.tasks && Suspended(sys.k.tasks[step.p])
        ==> ResumeIsClean(sys, step.p))
    && (step.Block? ==> PendCanEnd(step.es, step.timeout))
  }

  lemma Combine(sys: System, sys': System, p: Prio)
    requires Inv(sys) && WellFormed(sys') && OthersKept(sys, sys', p)
    requires sys'.types == sys.types && sys'.k.tasks.Keys == sys.k.tasks.Keys + {p}
    requires ViewOk(sys.types, ViewOf(sys', p))
    ensures AllViewsOk(sys')
    ensures NoneLost(sys) && NotLost(ViewOf(sys', p)) ==> NoneLost(sys')
  {
    forall q {:trigger ViewOf(sys', q)} | q in sys'.k.tasks
      ensures ViewOk(sys.types, ViewOf(sys', q))
      ensures NoneLost(sys) && NotLost(ViewOf(sys', p)) ==> NotLost(ViewOf(sys', q))
    {
      if q != p { assert ViewOf(sys', q) == ViewOf(sys, q); }
    }
  }

  /** The running task's phase may move on; its view stays in order. */
  lemma PhaseMoves(types: seq<Flag>, v: View, ph: Phase)
    requires ViewOk(types, v)
    requires ph == v.phase || ph == AfterSched(v.phase) || (v.phase == Normal && ph == Yielding)
    ensures ViewOk(types, v.(phase := ph))
    ensures NotLost(v) ==> NotLost(v.(phase := ph))
  { }

  lemma SameTasksKeep(sys: System, sys': System)
    requires Inv(sys) && WellFormed(sys') && sys'.types == sys.types && sys'.k.tasks == sys.k.tasks
    requires forall p {:trigger ViewOf(sys', p)} | p in sys.k.tasks ::
              ViewOf(sys', p) == ViewOf(sys, p).(phase := sys'.phase[p])
    requires forall p | p in sys.phase :: sys'.phase[p] == sys.phase[p] || sys'.phase[p] == AfterSched(sys.phase[p])
                                          || (sys.phase[p] == Normal && sys'.phase[p] == Yielding)
    ensures AllViewsOk(sys')
    ensures NoneLost(sys) ==> NoneLost(sys')
  {
    forall p {:trigger ViewOf(sys', p)} | p in sys.k.tasks
      ensures ViewOk(sys.types, ViewOf(sys', p)) && (NotLost(ViewOf(sys, p)) ==> NotLost(ViewOf(sys', p)))
    {
      PhaseMoves(sys.types, ViewOf(sys, p), sys'.phase[p]);
    }
  }

  /** The step keeps the invariant and loses no task. */
  ghost predicate Keeps(sys: System, sys': System)
    requires WellFormed(sys)
  {
    Inv(sys') && (NoneLost(sys) ==> NoneLost(sys'))
  }

  /** The step keeps the invariant, and it loses no task exactly when it is clean. */
  ghost predicate Kept(sys: System, step: Step, sys': System)
    requires WellFormed(sys)
  {
    Inv(sys') && (NoneLost(sys) ==> (NoneLost(sys') <==> Clean(sys, step)))
  }

  lemma KeepCounters(sys: System, step: Step, sys': System)
    requires Inv(sys) && Enabled(sys, step) && sys' == Effect(sys, step)
    requires step.EnterInterrupt? || step.Lock? || step.Unlock?
    ensures Keeps(sys, sys')
  {
    hide ViewOk, NotLost;
    SameTasksViews(sys, sys');
    SameTasksKeep(sys, sys');
  }

  lemma KeepSwitch(sys: System, step: Step, sys': System)
    requires Inv(sys) && Enabled(sys, step) && sys' == Effect(sys, step)
    requires step.StartTasks? || step.ExitInterrupt? || step.Reschedule?
    ensures Keeps(sys, sys')
  {
    hide ViewOk, NotLost;
    SameTasksViews(sys, sys');
    SameTasksKeep(sys, sys');
  }

  lemma KeepTick(sys: System, step: Step, sys': System)
    requires Inv(sys) && step.Tick? && Enabled(sys, step) && sys' == Effect(sys, step)
    ensures Keeps(sys, sys')
  {
    hide ViewOk, NotLost;
    TickViews(sys, sys');
    forall p {:trigger ViewOf(sys', p)} | p in sys.k.tasks
      ensures ViewOk(sys.types, ViewOf(sys', p))
      ensures NotLost(ViewOf(sys, p)) ==> NotLost(ViewOf(sys', p))
    {
      TickOk(sys.types, ViewOf(sys, p));
    }
  }

  lemma TickTcbViews(sys: System, p: Prio, sys': System)
    requires WellFormed(sys) && Enabled(sys, TickTcb(p)) && sys' == Effect(sys, TickTcb(p))
    ensures WellFormed(sys') && OthersKept(sys, sys', p)
    ensures ViewOf(sys', p) == TickView(ViewOf(sys, p))
  {
    assert sys'.k.tasks.Keys == sys.k.tasks.Keys;
    OthersKeptFrom(sys, sys', p);
    assert On(sys'.k, p) == On(sys.k, p);
  }

  lemma KeepTickTcb(sys: System, step: Step, sys': System)
    requires Inv(sys) && step.TickTcb? && Enabled(sys, step) && sys' == Effect(sys, step)
    ensures Keeps(sys, sys')
  {
    TickTcbViews(sys, step.p, sys');
    TickOk(sys.types, ViewOf(sys, step.p));
    Combine(sys, sys', step.p);
  }

  lemma KeepCreate(sys: System, step: Step, sys': System)
    requires Inv(sys) && step.Create? && Enabled(sys, step) && sys' == Effect(sys, step)
    ensures Keeps(sys, sys')
  {
    CreateViews(sys, step.p, sys');
    Combine(sys, sys', step.p);
  }

  lemma KeepDelay(sys: System, step: Step, sys': System)
    requires Inv(sys) && step.Delay? && Enabled(sys, step) && sys' == Effect(sys, step)
    ensures Keeps(sys, sys')
  {
    DelayViews(sys, step.ticks, sys');
    assert ViewOk(sys.types, ViewOf(sys, sys.k.cur));
    Combine(sys, sys', sys.k.cur);
  }

  lemma KeepDelayResume(sys: System, step: Step, sys': System)
    requires Inv(sys) && step.DelayResume? && Enabled(sys, step) && sys' == Effect(sys, step)
    ensures Keeps(sys, sys')
  {
    var p := step.p;
    if p in sys.k.tasks && p < sys.k.idle && sys.k.tasks[p].dly > 0 {
      DelayResumeViews(sys, p, sys');
      ExpireOk(sys.types, ViewOf(sys, p));
      Combine(sys, sys', p);
    }
  }

  lemma KeepSuspend(sys: System, step: Step, sys': System)
    requires Inv(sys) && step.SuspendTask? && Enabled(sys, step) && sys' == Effect(sys, step)
    ensures Keeps(sys, sys')
  {
    hide ViewOk, NotLost;
    if step.p in sys.k.tasks {
      SuspendViews(sys, step.p, sys');
      SuspendOk(sys.types, ViewOf(sys, step.p), sys'.phase[step.p]);
      Combine(sys, sys', step.p);
    }
  }

  lemma ResumeKeeps(sys: System, p: Prio, sys': System)
    requires Inv(sys) && Enabled(sys, ResumeTask(p)) && sys' == Effect(sys, ResumeTask(p))
    requires p in sys.k.tasks && p < sys.k.idle && Suspended(sys.k.tasks[p])
    ensures Inv(sys')
    ensures NoneLost(sys) ==> (NoneLost(sys') <==> ResumeIsClean(sys, p))
  {
    ResumeViews(sys, p, sys');
    ResumeOk(sys.types, ViewOf(sys, p));
    Combine(sys, sys', p);
    if !ResumeIsClean(sys, p) { assert !NotLost(ViewOf(sys', p)); }
  }

  /** OSTaskResume keeps every task accounted for exactly when it is clean. */
  lemma KeepResume(sys: System, step: Step, sys': System)
    requires Inv(sys) && step.ResumeTask? && Enabled(sys, step) && sys' == Effect(sys, step)
    ensures Kept(sys, step, sys')
  {
    hide ResumeIsClean, NoneLost;
    if step.p in sys.k.tasks && step.p < sys.k.idle && Suspended(sys.k.tasks[step.p]) {
      ResumeKeeps(sys, step.p, sys');
    }
  }

  lemma KeepPost(sys: System, step: Step, sys': System)
    requires Inv(sys) && step.Post? && Enabled(sys, step) && sys' == Effect(sys, step)
    ensures Keeps(sys, sys')
  {
    var p := Highest(sys.k.waiters[step.event]);
    PostViews(sys, step.event, step.msg, step.pendStat, step.sched, sys');
    PostOk(sys.types, ViewOf(sys, p), Delivery(step.event, step.msg, step.pendStat));
    Combine(sys, sys', p);
  }

  lemma BlockKeeps(sys: System, es: seq<EventId>, multi: bool, timeout: nat, sys': System)
    requires Inv(sys) && Enabled(sys, Block(es, multi, timeout)) && sys' == Effect(sys, Block(es, multi, timeout))
    ensures Inv(sys')
    ensures NoneLost(sys) ==> (NoneLost(sys') <==> PendCanEnd(es, timeout))
  {
    BlockViews(sys, es, multi, timeout, sys');
    BlockOk(sys.types, ViewOf(sys, sys.k.cur), es, multi, timeout);
    Combine(sys, sys', sys.k.cur);
    assert ViewOf(sys, sys.k.cur).ready;
    if !PendCanEnd(es, timeout) { assert !NotLost(ViewOf(sys', sys.k.cur)); }
  }

  /** OSEventPendMulti keeps every task accounted for exactly when the pend can end. */
  lemma KeepBlock(sys: System, step: Step, sys': System)
    requires Inv(sys) && step.Block? && Enabled(sys, step) && sys' == Effect(sys, step)
    ensures Kept(sys, step, sys')
  {
    BlockKeeps(sys, step.es, step.multi, step.timeout, sys');
  }

  lemma KeepFinish(sys: System, step: Step, sys': System)
    requires Inv(sys) && step.Finish? && Enabled(sys, step) && sys' == Effect(sys, step)
    ensures Keeps(sys, sys')
  {
    FinishViews(sys, sys');
    FinishOk(sys.types, ViewOf(sys, sys.k.cur));
    Combine(sys, sys', sys.k.cur);
  }

  lemma KeepHarmless(sys: System, step: Step, sys': System)
    requires Inv(sys) && Enabled(sys, step) && sys' == Effect(sys, step) && !step.ResumeTask? && !step.Block?
    ensures Keeps(sys, sys')
  {
    match step {
      case Create(_) => KeepCreate(sys, step, sys');
      case Tick => KeepTick(sys, step, sys');
      case TickTcb(_) => KeepTickTcb(sys, step, sys');
      case Delay(_) => KeepDelay(sys, step, sys');
      case DelayResume(_) => KeepDelayResume(sys, step, sys');
      case SuspendTask(_) => KeepSuspend(sys, step, sys');
      case Post(_, _, _, _) => KeepPost(sys, step, sys');
      case Finish => KeepFinish(sys, step, sys');
      case EnterInterrupt => KeepCounters(sys, step, sys');
      case Lock => KeepCounters(sys, step, sys');
      case Unlock => KeepCounters(sys, step, sys');
      case _ => KeepSwitch(sys, step, sys');
    }
  }

  lemma KeepAny(sys: System, step: Step, sys': System)
    requires Inv(sys) && Enabled(sys, step) && sys' == Effect(sys, step)
    ensures Kept(sys, step, sys')
  {
    match step {
      case ResumeTask(_) => KeepResume(sys, step, sys');
      case Block(_, _, _) => KeepBlock(sys, step, sys');
      case _ => KeepHarmless(sys, step, sys');
    }
  }

  /** A call that ends in OS_Sched has been made by the running task, from outside the kernel. */
  lemma YieldsByTask(sys: System, step: Step, mid: System)
    requires WellFormed(sys) && Enabled(sys, step) && Yields(sys, step) && mid == Effect(sys, step)
    ensures MayYield(mid)
  { }

  ghost predicate MayYield(sys: System) {
    && sys.k.running && sys.k.intNesting == 0 && sys.k.cur in sys.phase
    && (sys.phase[sys.k.cur].Normal? || sys.phase[sys.k.cur].Yielding?)
  }

  lemma YieldKeeps(mid: System)
    requires Inv(mid) && MayYield(mid)
    ensures Inv(Yielded(mid)) && (NoneLost(Yielded(mid)) <==> NoneLost(mid))
  {
    SameTasksViews(mid, Yielded(mid));
    SameTasksKeep(mid, Yielded(mid));
    YieldLosesNone(mid);
  }

  lemma YieldLosesNone(mid: System)
    requires WellFormed(mid) && WellFormed(Yielded(mid)) && mid.k.cur in mid.phase
    ensures NoneLost(Yielded(mid)) <==> NoneLost(mid)
  {
    forall p | p in mid.k.tasks ensures NotLost(ViewOf(Yielded(mid), p)) <==> NotLost(ViewOf(mid, p)) {
      assert On(Yielded(mid).k, p) == On(mid.k, p);
    }
  }

  /** Every enabled step keeps the invariant, and it loses no task exactly when it is clean. */
  lemma KeepStep(sys: System, step: Step)
    requires Inv(sys) && Enabled(sys, step)
    ensures Inv(Next(sys, step))
    ensures NoneLost(sys) ==> (NoneLost(Next(sys, step)) <==> Clean(sys, step))
  {
    hide Effect, Clean, Enabled;
    KeepAny(sys, step, Effect(sys, step));
    if Yields(sys, step) {
      YieldsByTask(sys, step, Effect(sys, step));
      YieldKeeps(Effect(sys, step));
    }
  }
}
