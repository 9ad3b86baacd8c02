/**
 What the kernel services of os_core.c do to the kernel's state, with the two-level
 bitmaps read as sets of priorities. The class in Kernel.dfy carries the same services
 out on the bitmaps and is proved against these functions; KernelRuns.dfy reasons about
 sequences of them.
 */
module KernelSpec {
  import opened Basics

  type Prio = nat
  type EventId = nat
  /** A `void *` message, as an address. */
  type Msg = nat

  const NULL_MSG: Msg := 0
  const MAX_NESTING := 255

  /** The bits of OSTCBStat; OS_STAT_RDY is the empty set of them. */
  datatype Flag = Sem | Mbox | Q | Suspend | Mutex | EventFlag | Multi

  /** OS_STAT_PEND_ANY: every reason to pend, and neither Suspend nor Multi. */
  const PEND_ANY: set<Flag> := {Sem, Mbox, Q, Mutex, EventFlag}

  datatype PendStat = PendOk | PendTo | PendAbort

  /** OSTickStepState. */
  datatype TickStep = StepDisabled | StepWait | StepOnce

  /** The part of an OS_TCB that the scheduler reads. */
  datatype Task = Task(
    dly: nat,
    stat: set<Flag>,
    statPend: PendStat,
    event: Option<EventId>,
    multi: Option<seq<EventId>>,
    msg: Msg
  )

  const FRESH_TASK := Task(0, {}, PendOk, None, None, NULL_MSG)

  datatype State = State(
    idle: Prio,
    running: bool,
    intNesting: nat,
    lockNesting: nat,
    stepState: TickStep,
    tasks: map<Prio, Task>,
    ready: set<Prio>,
    waiters: seq<set<Prio>>,
    cur: Prio,
    switches: nat
  )

  /** The most urgent member: priority 0 is the highest. */
  ghost function Highest(s: set<Prio>): (m: Prio)
    requires s != {}
    ensures m in s
    ensures forall x | x in s :: m <= x
  {
    Least(s)
  }

  ghost predicate Valid(s: State) {
    && s.idle in s.tasks
    && s.idle in s.ready
    && s.ready <= s.tasks.Keys
    && (forall e | 0 <= e < |s.waiters| :: s.waiters[e] <= s.tasks.Keys)
    && (s.running ==> s.cur in s.tasks)
    && (forall p, e | p in s.tasks && s.tasks[p].multi.Some? && e in s.tasks[p].multi.value :: e < |s.waiters|)
  }

  ghost predicate Suspended(t: Task) { Suspend in t.stat }

  /** The wait sets with `p` taken out of those of the listed events. */
  ghost function Removed(waiters: seq<set<Prio>>, p: Prio, es: seq<EventId>): (w: seq<set<Prio>>)
    ensures |w| == |waiters|
  {
    seq(|waiters|, e requires 0 <= e < |waiters| => if e in es then waiters[e] - {p} else waiters[e])
  }

  /** The wait sets with `p` put into those of the listed events. */
  ghost function Added(waiters: seq<set<Prio>>, p: Prio, es: seq<EventId>): (w: seq<set<Prio>>)
    ensures |w| == |waiters|
  {
    seq(|waiters|, e requires 0 <= e < |waiters| => if e in es then waiters[e] + {p} else waiters[e])
  }

  // ---------------------------------------------------------------- scheduling

  ghost function SwitchTo(s: State, p: Prio): State {
    if p == s.cur then s else s.(cur := p, switches := s.switches + 1)
  }

  /** OS_Sched. */
  ghost function Sched(s: State): State
    requires s.ready != {}
  {
    if s.intNesting == 0 && s.lockNesting == 0 then SwitchTo(s, Highest(s.ready)) else s
  }

  /** OSIntEnter. */
  ghost function IntEnter(s: State): State {
    if s.running && s.intNesting < MAX_NESTING then s.(intNesting := s.intNesting + 1) else s
  }

  /** OSIntExit. */
  ghost function IntExit(s: State): State
    requires s.ready != {}
  {
    if !s.running then s else
      Sched(if s.intNesting > 0 then s.(intNesting := s.intNesting - 1) else s)
  }

  /** OSSchedLock. */
  ghost function SchedLock(s: State): State {
    if s.running && s.intNesting == 0 && s.lockNesting < MAX_NESTING then s.(lockNesting := s.lockNesting + 1) else s
  }

  /** The critical section of OSSchedUnlock, before its call of OS_Sched. */
  ghost function Unlocked(s: State): State {
    if s.running && s.lockNesting > 0 then s.(lockNesting := s.lockNesting - 1) else s
  }

  /** OSSchedUnlock: only a call that brings the counter down to zero reschedules. */
  ghost function SchedUnlock(s: State): State
    requires s.ready != {}
  {
    if s.running && s.lockNesting > 0 then Sched(Unlocked(s)) else s
  }

  /** OSStart, with OSStartHighRdy setting OSRunning. */
  ghost function Start(s: State): State
    requires s.ready != {}
  {
    if s.running then s else s.(cur := Highest(s.ready), running := true)
  }

  // ---------------------------------------------------------------- time

  /** OSTimeTick's treatment of one TCB. */
  ghost function TickTask(t: Task): Task {
    if t.dly == 0 then t
    else if t.dly > 1 then t.(dly := t.dly - 1)
    else Expire(t)
  }

  /** What the end of a delay or of a timeout records in the TCB. */
  ghost function Expire(t: Task): Task {
    if t.stat * PEND_ANY != {} then t.(dly := 0, stat := t.stat - PEND_ANY, statPend := PendTo)
    else t.(dly := 0, statPend := PendOk)
  }

  ghost predicate TickWakes(t: Task) { t.dly == 1 && !Suspended(t) }

  /** The critical section of OSTimeTick for the task of priority `p`. */
  ghost function TickOne(s: State, p: Prio): State
    requires p in s.tasks
  {
    var t := s.tasks[p];
    s.(tasks := s.tasks[p := TickTask(t)], ready := if TickWakes(t) then s.ready + {p} else s.ready)
  }

  ghost predicate TickIsProcessed(s: State) { s.running && s.stepState != StepWait }

  /** OSTimeTick, apart from OSTime. */
  ghost function TimeTick(s: State): State {
    if !TickIsProcessed(s) then s else
      s.(stepState := if s.stepState == StepOnce then StepWait else StepDisabled,
         tasks := map p | p in s.tasks :: if p == s.idle then s.tasks[p] else TickTask(s.tasks[p]),
         ready := s.ready + set p | p in s.tasks && p != s.idle && TickWakes(s.tasks[p]))
  }

  /** OSTimeDly up to its call of OS_Sched. */
  ghost function TimeDly(s: State, ticks: nat): State
    requires s.cur in s.tasks
  {
    if s.intNesting > 0 || ticks == 0 then s else
      s.(ready := s.ready - {s.cur}, tasks := s.tasks[s.cur := s.tasks[s.cur].(dly := ticks)])
  }

  /** OSTimeDlyResume up to its call of OS_Sched. */
  ghost function TimeDlyResume(s: State, p: Prio): State {
    if p >= s.idle || p !in s.tasks || s.tasks[p].dly == 0 then s else
      s.(tasks := s.tasks[p := Expire(s.tasks[p])],
         ready := if Suspended(s.tasks[p]) then s.ready else s.ready + {p})
  }

  // ---------------------------------------------------------------- tasks

  /** OS_TCBInit for an unused priority, when a TCB is free. */
  ghost function TaskCreate(s: State, p: Prio): State {
    s.(tasks := s.tasks[p := FRESH_TASK], ready := s.ready + {p})
  }

  /** OSTaskSuspend up to its call of OS_Sched. */
  ghost function TaskSuspend(s: State, p: Prio): State {
    if p >= s.idle || p !in s.tasks then s else
      s.(ready := s.ready - {p}, tasks := s.tasks[p := s.tasks[p].(stat := s.tasks[p].stat + {Suspend})])
  }

  /** OSTaskResume up to its call of OS_Sched. */
  ghost function TaskResume(s: State, p: Prio): State {
    if p >= s.idle || p !in s.tasks || !Suspended(s.tasks[p]) then s else
      var t := s.tasks[p].(stat := s.tasks[p].stat - {Suspend});
      s.(tasks := s.tasks[p := t],
         ready := if t.stat == {} && t.dly == 0 then s.ready + {p} else s.ready)
  }

  // ---------------------------------------------------------------- events

  /** OS_EventTaskRdy: hand the event to its most urgent waiter. */
  ghost function EventTaskRdy(s: State, e: EventId, msg: Msg, mask: set<Flag>, pendStat: PendStat): State
    requires e < |s.waiters| && s.waiters[e] != {} && s.waiters[e] <= s.tasks.Keys
  {
    var p := Highest(s.waiters[e]);
    var t := s.tasks[p];
    var t' := t.(dly := 0, msg := msg, stat := t.stat - mask, statPend := pendStat,
                 event := if t.multi.Some? then Some(e) else t.event);
    s.(tasks := s.tasks[p := t'],
       ready := if Suspended(t') then s.ready else s.ready + {p},
       waiters := Removed(s.waiters, p, if t.multi.Some? then [e] + t.multi.value else [e]))
  }

  /** OS_EventTaskWait for the current task. */
  ghost function EventTaskWait(s: State, e: EventId): State
    requires s.cur in s.tasks
  {
    s.(tasks := s.tasks[s.cur := s.tasks[s.cur].(event := Some(e))],
       waiters := Added(s.waiters, s.cur, [e]),
       ready := s.ready - {s.cur})
  }

  /** OS_EventTaskWaitMulti for the current task. */
  ghost function EventTaskWaitMulti(s: State, es: seq<EventId>): State
    requires s.cur in s.tasks
  {
    s.(tasks := s.tasks[s.cur := s.tasks[s.cur].(event := None, multi := Some(es))],
       waiters := Added(s.waiters, s.cur, es),
       ready := s.ready - {s.cur})
  }

  /** OS_EventTaskRemove and OS_EventTaskRemoveMulti. */
  ghost function EventTaskRemove(s: State, p: Prio, es: seq<EventId>): State {
    s.(waiters := Removed(s.waiters, p, es))
  }

  // ---------------------------------------------------------------- pending

  /** What a blocked OSSemPend or OSEventPendMulti writes in the current TCB before it waits. */
  ghost function PrepareToPend(s: State, flags: set<Flag>, timeout: nat): State
    requires s.cur in s.tasks
  {
    var t := s.tasks[s.cur];
    s.(tasks := s.tasks[s.cur := t.(stat := t.stat + flags, statPend := PendOk, dly := timeout)])
  }

  datatype Outcome = Posted(event: EventId, msg: Msg) | Aborted(event: EventId) | TimedOut

  /** The answer OSEventPendMulti reads from its own TCB once it runs again. */
  ghost function PendMultiOutcome(t: Task): Outcome {
    if t.statPend != PendTo && t.event.Some? then
      if t.statPend == PendOk then Posted(t.event.value, t.msg) else Aborted(t.event.value)
    else TimedOut
  }

  /** OSEventPendMulti after its call of OS_Sched has returned. */
  ghost function PendMultiFinish(s: State, es: seq<EventId>): State
    requires s.cur in s.tasks
  {
    var t := s.tasks[s.cur];
    var removed := if PendMultiOutcome(t) == TimedOut then EventTaskRemove(s, s.cur, es) else s;
    removed.(tasks := s.tasks[s.cur := Task(t.dly, {}, PendOk, None, None, NULL_MSG)])
  }

  /** The answer OSSemPend on event `e` reads from its own TCB once it runs again. */
  ghost function PendOutcome(t: Task, e: EventId): Outcome {
    match t.statPend
    case PendOk => Posted(e, t.msg)
    case PendAbort => Aborted(e)
    case PendTo => TimedOut
  }

  /** OSSemPend after its call of OS_Sched has returned. */
  ghost function PendFinish(s: State, e: EventId): State
    requires s.cur in s.tasks
  {
    var t := s.tasks[s.cur];
    var removed := if t.statPend == PendTo then EventTaskRemove(s, s.cur, [e]) else s;
    removed.(tasks := s.tasks[s.cur := t.(stat := {}, statPend := PendOk, event := None, multi := None)])
  }
}
